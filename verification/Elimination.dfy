/** Eliminating one coordinate with a plane, and lifting a point back onto that plane. */
module Elimination {
  import opened Vectors

  /** A vector without its coordinate `iv`. */
  function Drop(v: Vec, iv: nat): (r: Vec)
    requires iv < |v|
    ensures |r| == |v| - 1
  {
    seq(|v| - 1, k requires 0 <= k < |v| - 1 => if k < iv then v[k] else v[k + 1])
  }

  /** v - e*f, without coordinate `iv`. */
  function Less(e: Vec, iv: nat, v: Vec, f: real): (r: Vec)
    requires iv < |v| == |e|
    ensures |r| == |v| - 1
  {
    Drop(Combine(1.0, v, -f, e), iv)
  }

  /** What `plane_down` computes: the multiple of e is taken away that clears coordinate `iv`. */
  function Down(e: Vec, iv: nat, v: Vec): (r: Vec)
    requires iv < |v| == |e| && e[iv] != 0.0
    ensures |r| == |v| - 1
  {
    Less(e, iv, v, v[iv] / e[iv])
  }

  /** What `vector_down` computes: v is projected onto the plane, and coordinate `iv` left out. */
  function Across(e: Vec, iv: nat, v: Vec): (r: Vec)
    requires iv < |v| == |e| && NormSq(e) != 0.0
    ensures |r| == |v| - 1
  {
    Drop(Within(e, v), iv)
  }

  function Within(e: Vec, v: Vec): (r: Vec)
    requires |v| == |e| && NormSq(e) != 0.0
    ensures |r| == |v|
  {
    Combine(1.0, v, -(Dot(v, e) / NormSq(e)), e)
  }

  /** That is the orthogonal projection: it lies on the plane, and differs from v by a multiple of the normal. */
  lemma WithinOrthogonal(e: Vec, v: Vec)
    requires |v| == |e| && NormSq(e) != 0.0
    ensures Dot(Within(e, v), e) == 0.0
    ensures forall x: Vec | |x| == |e| && Dot(e, x) == 0.0 :: Dot(Within(e, v), x) == Dot(v, x)
  {
    var f := Dot(v, e) / NormSq(e);
    var t := -f;
    CombineDot(1.0, v, t, e, e);
    assert f * NormSq(e) == Dot(v, e);
    forall x: Vec | |x| == |e| && Dot(e, x) == 0.0 ensures Dot(Within(e, v), x) == Dot(v, x) {
      CombineDot(1.0, v, t, e, x);
    }
  }

  /** What `vector_up` computes: the point of plane `e` whose other coordinates are `y`. */
  function Up(e: Vec, iv: nat, y: Vec): (r: Vec)
    requires iv < |e| == |y| + 1 && e[iv] != 0.0
    ensures |r| == |e|
  {
    var last := -Dot(Drop(e, iv), y) / e[iv];
    seq(|e|, k requires 0 <= k < |e| => if k < iv then y[k] else if k == iv then last else y[k - 1])
  }

  lemma DropAt(v: Vec, iv: nat, k: nat)
    requires iv < |v| && k < |v| && k != iv
    ensures Drop(v, iv)[if k < iv then k else k - 1] == v[k]
  {
  }

  lemma UpAt(e: Vec, iv: nat, y: Vec, k: nat)
    requires iv < |e| == |y| + 1 && e[iv] != 0.0 && k < |e|
    ensures Up(e, iv, y)[k] == if k < iv then y[k] else if k == iv then -Dot(Drop(e, iv), y) / e[iv] else y[k - 1]
  {
  }

  lemma LessAt(e: Vec, iv: nat, v: Vec, f: real, k: nat, vk: real, ek: real)
    requires iv < |v| == |e| && k < |v| && k != iv && vk == v[k] && ek == e[k]
    ensures Less(e, iv, v, f)[if k < iv then k else k - 1] == vk - ek * f
  {
    var c := Combine(1.0, v, -f, e);
    assert Drop(c, iv)[if k < iv then k else k - 1] == c[k];
  }

  lemma {:induction false} DotToDrop(v: Vec, w: Vec, iv: nat, n: nat)
    requires |v| == |w| && iv < n <= |v|
    ensures DotTo(v, w, n) == DotTo(Drop(v, iv), Drop(w, iv), n - 1) + v[iv] * w[iv]
  {
    if n == iv + 1 {
      DotToPrefix(v, w, Drop(v, iv), Drop(w, iv), iv);
    } else {
      DotToDrop(v, w, iv, n - 1);
    }
  }

  lemma DotDrop(v: Vec, w: Vec, iv: nat)
    requires iv < |v| == |w|
    ensures Dot(v, w) == Dot(Drop(v, iv), Drop(w, iv)) + v[iv] * w[iv]
  {
    DotToDrop(v, w, iv, |v|);
  }

  lemma UpOnPlane(e: Vec, iv: nat, y: Vec)
    requires iv < |e| == |y| + 1 && e[iv] != 0.0
    ensures Drop(Up(e, iv, y), iv) == y
    ensures Dot(e, Up(e, iv, y)) == 0.0
  {
    assert Drop(Up(e, iv, y), iv) == y;
    DotDrop(e, Up(e, iv, y), iv);
  }

  /** The duality behind back substitution: a dot product in the plane equals the one upstairs. */
  lemma Duality(e: Vec, iv: nat, v: Vec, y: Vec)
    requires iv < |e| == |v| == |y| + 1 && e[iv] != 0.0
    ensures Dot(v, Up(e, iv, y)) == Dot(Down(e, iv, v), y)
  {
    var x, crit := Up(e, iv, y), v[iv] / e[iv];
    var t := -crit;
    var u := Combine(1.0, v, t, e);
    UpOnPlane(e, iv, y);
    CombineDot(1.0, v, t, e, x);
    Eliminated(v[iv], e[iv], u[iv]);
    DotDrop(u, x, iv);
    DownIsDrop(e, iv, v, u);
  }

  /** The multiple of the equation that is subtracted takes the coordinate away. */
  lemma Eliminated(a: real, e: real, c: real)
    requires e != 0.0 && c == 1.0 * a + -(a / e) * e
    ensures c == 0.0
  {
    assert (a / e) * e == a;
  }

  lemma DownIsDrop(e: Vec, iv: nat, v: Vec, u: Vec)
    requires iv < |e| == |v| && e[iv] != 0.0 && u == Combine(1.0, v, -(v[iv] / e[iv]), e)
    ensures Down(e, iv, v) == Drop(u, iv)
  {
  }

  /** Every point of the plane is a lifted point. */
  lemma UpSurjective(e: Vec, iv: nat, x: Vec)
    requires iv < |e| == |x| && e[iv] != 0.0 && Dot(e, x) == 0.0
    ensures Up(e, iv, Drop(x, iv)) == x
  {
    DotDrop(e, x, iv);
    var p := Dot(Drop(e, iv), Drop(x, iv));
    assert -p / e[iv] == x[iv] by {
      assert -p == e[iv] * x[iv];
    }
  }

  lemma UpNonzero(e: Vec, iv: nat, y: Vec)
    requires iv < |e| == |y| + 1 && e[iv] != 0.0
    ensures !IsZero(y) ==> !IsZero(Up(e, iv, y))
  {
    var x := Up(e, iv, y);
    UpOnPlane(e, iv, y);
    if IsZero(x) {
      forall k | 0 <= k < |y| ensures y[k] == 0.0 {
        assert y[k] == Drop(x, iv)[k];
      }
    }
  }
}
