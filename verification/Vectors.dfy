/** Real vectors as sequences, with the dot product defined the way the sources'
    loops accumulate it: from index 0 upwards. */
module Vectors {

  type Vec = seq<real>

  /** The partial sum after `n` iterations of an accumulation loop. */
  function DotTo(a: Vec, b: Vec, n: nat): real
    requires n <= |a| && n <= |b|
  {
    if n == 0 then 0.0 else DotTo(a, b, n - 1) + a[n - 1] * b[n - 1]
  }

  function Dot(a: Vec, b: Vec): real
    requires |a| == |b|
  {
    DotTo(a, b, |a|)
  }

  /** s*a + t*b */
  function Combine(s: real, a: Vec, t: real, b: Vec): (c: Vec)
    requires |a| == |b|
    ensures |c| == |a|
  {
    seq(|a|, i requires 0 <= i < |a| => s * a[i] + t * b[i])
  }

  function Scale(s: real, a: Vec): (c: Vec)
    ensures |c| == |a|
  {
    seq(|a|, i requires 0 <= i < |a| => s * a[i])
  }

  function Add(a: Vec, b: Vec): (c: Vec)
    requires |a| == |b|
    ensures |c| == |a|
  {
    seq(|a|, i requires 0 <= i < |a| => a[i] + b[i])
  }

  function Sub(a: Vec, b: Vec): (c: Vec)
    requires |a| == |b|
    ensures |c| == |a|
  {
    seq(|a|, i requires 0 <= i < |a| => a[i] - b[i])
  }

  function Zero(n: nat): (c: Vec)
    ensures |c| == n
  {
    seq(n, i => 0.0)
  }

  function NormSq(a: Vec): real {
    Dot(a, a)
  }

  function DistSq(a: Vec, b: Vec): real
    requires |a| == |b|
  {
    NormSq(Sub(a, b))
  }

  predicate IsZero(a: Vec) {
    forall i | 0 <= i < |a| :: a[i] == 0.0
  }

  // The product facts take the product as a separate argument: the solver finds the sign of
  // `x * y` for distinct `x` and `y` at once, but not that of a square used under another name.

  lemma ProductPositive(x: real, y: real, t: real)
    requires x > 0.0 && y > 0.0 && t == x * y
    ensures t > 0.0
  {
  }

  lemma SquarePositive(x: real, t: real)
    requires t == x * x
    ensures t >= 0.0
    ensures x == 0.0 || t > 0.0
  {
    if x > 0.0 {
      ProductPositive(x, x, t);
    } else if x < 0.0 {
      ProductPositive(-x, -x, t);
    }
  }

  lemma NonNegativeFactor(p: real, x: real)
    requires p > 0.0 && p * x >= 0.0
    ensures x >= 0.0
  {
  }

  lemma NonNegativeProduct(a: real, b: real, t: real)
    requires a >= 0.0 && b >= 0.0 && t == a * b
    ensures t >= 0.0
  {
  }

  lemma SquareMonotone(x: real, y: real)
    requires 0.0 <= x <= y
    ensures x * x <= y * y
  {
  }

  function Abs(x: real): real {
    if x > 0.0 then x else -x
  }

  ghost predicate IsMix(c: real, s: real, a: real, t: real, b: real) {
    c == s * a + t * b
  }

  lemma {:induction false} DotToCommutes(a: Vec, b: Vec, n: nat)
    requires n <= |a| && n <= |b|
    ensures DotTo(a, b, n) == DotTo(b, a, n)
  {
    if n > 0 {
      DotToCommutes(a, b, n - 1);
    }
  }

  lemma DotCommutes(a: Vec, b: Vec)
    requires |a| == |b|
    ensures Dot(a, b) == Dot(b, a)
  {
    DotToCommutes(a, b, |a|);
  }

  lemma {:induction false} DotToCombine(c: Vec, s: real, a: Vec, t: real, b: Vec, n: nat)
    requires n <= |c| && |c| == |a| == |b|
    ensures DotTo(c, Combine(s, a, t, b), n) == s * DotTo(c, a, n) + t * DotTo(c, b, n)
  {
    if n > 0 {
      DotToCombine(c, s, a, t, b, n - 1);
      var u, v, w := c[n - 1], a[n - 1], b[n - 1];
      assert u * (s * v + t * w) == s * (u * v) + t * (u * w);
    }
  }

  /** Linearity, in the second argument ... */
  lemma DotCombine(c: Vec, s: real, a: Vec, t: real, b: Vec)
    requires |c| == |a| == |b|
    ensures Dot(c, Combine(s, a, t, b)) == s * Dot(c, a) + t * Dot(c, b)
  {
    DotToCombine(c, s, a, t, b, |c|);
  }

  /** ... and in the first. */
  lemma CombineDot(s: real, a: Vec, t: real, b: Vec, c: Vec)
    requires |c| == |a| == |b|
    ensures Dot(Combine(s, a, t, b), c) == s * Dot(a, c) + t * Dot(b, c)
  {
    DotCombine(c, s, a, t, b);
    DotCommutes(c, a);
    DotCommutes(c, b);
    DotCommutes(c, Combine(s, a, t, b));
  }

  lemma DotScale(c: Vec, s: real, a: Vec)
    requires |c| == |a|
    ensures Dot(c, Scale(s, a)) == s * Dot(c, a)
  {
    assert Scale(s, a) == Combine(s, a, 0.0, a);
    DotCombine(c, s, a, 0.0, a);
  }

  lemma DotAdd(c: Vec, a: Vec, b: Vec)
    requires |c| == |a| == |b|
    ensures Dot(c, Add(a, b)) == Dot(c, a) + Dot(c, b)
    ensures Dot(Add(a, b), c) == Dot(a, c) + Dot(b, c)
  {
    assert Add(a, b) == Combine(1.0, a, 1.0, b);
    DotCombine(c, 1.0, a, 1.0, b);
    CombineDot(1.0, a, 1.0, b, c);
  }

  lemma DotSub(c: Vec, a: Vec, b: Vec)
    requires |c| == |a| == |b|
    ensures Dot(c, Sub(a, b)) == Dot(c, a) - Dot(c, b)
    ensures Dot(Sub(a, b), c) == Dot(a, c) - Dot(b, c)
  {
    assert Sub(a, b) == Combine(1.0, a, -1.0, b);
    DotCombine(c, 1.0, a, -1.0, b);
    CombineDot(1.0, a, -1.0, b, c);
  }

  lemma {:induction false} DotToZero(a: Vec, z: Vec, n: nat)
    requires n <= |a| && n <= |z|
    requires forall i | 0 <= i < n :: z[i] == 0.0
    ensures DotTo(a, z, n) == 0.0
  {
    if n > 0 {
      DotToZero(a, z, n - 1);
    }
  }

  lemma DotZero(a: Vec, z: Vec)
    requires |a| == |z| && IsZero(z)
    ensures Dot(a, z) == 0.0 && Dot(z, a) == 0.0
  {
    DotToZero(a, z, |a|);
    DotCommutes(a, z);
  }

  lemma {:induction false} NormToNonNegative(a: Vec, n: nat)
    requires n <= |a|
    ensures DotTo(a, a, n) >= 0.0
    ensures DotTo(a, a, n) > 0.0 || forall i | 0 <= i < n :: a[i] == 0.0
  {
    if n > 0 {
      NormToNonNegative(a, n - 1);
      SquarePositive(a[n - 1], DotTo(a, a, n) - DotTo(a, a, n - 1));
    }
  }

  /** The dot product is positive definite. */
  lemma NormSqDefinite(a: Vec)
    ensures NormSq(a) >= 0.0
    ensures NormSq(a) > 0.0 <==> !IsZero(a)
  {
    NormToNonNegative(a, |a|);
    if IsZero(a) {
      DotZero(a, a);
    }
  }

  lemma {:induction false} DotToPrefix(a: Vec, b: Vec, c: Vec, d: Vec, n: nat)
    requires n <= |a| && n <= |b| && n <= |c| && n <= |d|
    requires forall i | 0 <= i < n :: a[i] == c[i] && b[i] == d[i]
    ensures DotTo(a, b, n) == DotTo(c, d, n)
  {
    if n > 0 {
      DotToPrefix(a, b, c, d, n - 1);
    }
  }

  /** (a.b)^2 <= |a|^2 |b|^2, from the norm of |b|^2 a - (a.b) b. */
  lemma CauchySchwarz(a: Vec, b: Vec)
    requires |a| == |b|
    ensures Dot(a, b) * Dot(a, b) <= NormSq(a) * NormSq(b)
  {
    var p, q, r := NormSq(a), NormSq(b), Dot(a, b);
    NormSqDefinite(b);
    if q == 0.0 {
      DotZero(a, b);
    } else {
      var v := Combine(q, a, -r, b);
      NormSqDefinite(v);
      DotCombine(v, q, a, -r, b);
      CombineDot(q, a, -r, b, a);
      CombineDot(q, a, -r, b, b);
      DotCommutes(a, b);
      assert Dot(v, a) == q * p - r * r;
      assert Dot(v, b) == q * r - r * q;
      assert Dot(v, b) == 0.0;
      assert NormSq(v) == q * (q * p - r * r);
      NonNegativeFactor(q, q * p - r * r);
    }
  }
}
