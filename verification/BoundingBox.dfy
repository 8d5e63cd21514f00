/** boundingbox-convexpolygon.cpp and .hpp: the bounding box of a convex polygon from four linear programs. */
module BoundingBox {
  import opened Vectors
  import opened Arcs
  import opened LinkedOrder
  import opened LpTheory
  import opened Store
  import opened LinProg
  import opened LinProgParts

  // Points, and what the solver's answer means for them

  /** The points (x, y) with a.x*x + a.y*y + a.z >= 0 for all rows a. */
  ghost predicate Inside(rows: seq<Vec>, p: V2) {
    forall j | 0 <= j < |rows| :: |rows[j]| == 3 && Dot(rows[j], Lift(p)) >= 0.0
  }

  /** A finite point, in homogeneous coordinates. */
  ghost function Lift(p: V2): (x: Vec)
    ensures |x| == 3
  {
    [p.x, p.y, 1.0]
  }

  ghost predicate WithinBound(rows: seq<Vec>, r: real) {
    forall p: V2 | Inside(rows, p) :: -r <= p.x <= r && -r <= p.y <= r
  }

  ghost predicate IsBounded(rows: seq<Vec>) {
    exists r: real :: WithinBound(rows, r)
  }

  /** The least value of c.p over the inside, and where it is taken. */
  ghost predicate IsMinimum(rows: seq<Vec>, c: V2, at: V2) {
    Inside(rows, at) && forall p: V2 | Inside(rows, p) :: Dot2(c, at) <= Dot2(c, p)
  }

  const INFINITY_PLANE: Vec := [0.0, 0.0, 1.0]

  lemma Dot3(a: Vec, b: Vec)
    requires |a| == 3 && |b| == 3
    ensures Dot(a, b) == a[0] * b[0] + a[1] * b[1] + a[2] * b[2]
  {
    assert DotTo(a, b, 3) == DotTo(a, b, 2) + a[2] * b[2];
    assert DotTo(a, b, 2) == DotTo(a, b, 1) + a[1] * b[1];
    assert DotTo(a, b, 1) == DotTo(a, b, 0) + a[0] * b[0];
  }

  /** The planes 0, ..., m - 1. */
  ghost predicate IsAll(js: set<int>, m: nat) {
    forall j :: j in js <==> 0 <= j < m
  }

  /** The half-spaces of the linear program: the one at infinity, and the rows. */
  ghost function Planes3(rows: seq<Vec>): (hs: seq<Vec>) {
    [INFINITY_PLANE] + rows
  }

  lemma InsideIsFeasible(rows: seq<Vec>, js: set<int>, p: V2)
    requires IsAll(js, |rows| + 1)
    ensures Inside(rows, p) <==> Feasible(Planes3(rows), js, Lift(p))
  {
    var hs := Planes3(rows);
    Dot3(INFINITY_PLANE, Lift(p));
    if Inside(rows, p) {
      forall j | j in js ensures 0 <= j < |hs| && |hs[j]| == 3 && Dot(hs[j], Lift(p)) >= 0.0 {
        assert j > 0 ==> hs[j] == rows[j - 1];
      }
    }
    if Feasible(hs, js, Lift(p)) {
      forall j | 0 <= j < |rows| ensures |rows[j]| == 3 && Dot(rows[j], Lift(p)) >= 0.0 {
        assert rows[j] == hs[j + 1] && j + 1 in js;
      }
    }
  }

  /** An answer INFEASIBLE means that there is no point. */
  lemma InfeasibleMeansNone(rows: seq<Vec>, js: set<int>, p: V2)
    requires IsAll(js, |rows| + 1) && Empty(Planes3(rows), js, 3)
    ensures !Inside(rows, p)
  {
    InsideIsFeasible(rows, js, p);
    Dot3(INFINITY_PLANE, Lift(p));
  }

  /** The finite point of a homogeneous one. */
  ghost function Finite(o: Vec): V2
    requires |o| == 3 && o[2] != 0.0
  {
    V2(o[0] / o[2], o[1] / o[2])
  }

  lemma FiniteInside(rows: seq<Vec>, js: set<int>, o: Vec)
    requires IsAll(js, |rows| + 1)
    requires |o| == 3 && o[2] > 0.0 && Feasible(Planes3(rows), js, o)
    ensures Inside(rows, Finite(o))
  {
    var s := 1.0 / o[2];
    var p, v := Finite(o), Scale(s, o);
    assert s > 0.0;
    QuotientIsProduct(o[0], o[2], s);
    QuotientIsProduct(o[1], o[2], s);
    assert v[0] == p.x && v[1] == p.y && v[2] == 1.0;
    assert v == Lift(p);
    ScaledFeasible(Planes3(rows), js, s, o);
    InsideIsFeasible(rows, js, p);
  }

  lemma QuotientIsProduct(x: real, q: real, s: real)
    requires q != 0.0 && s == 1.0 / q
    ensures x / q == s * x && s * q == 1.0
  {
    var c := x / q;
    assert c * q == x;
    assert s * q == 1.0;
    assert s * x == c * (s * q);
  }

  lemma FiniteMinimum(rows: seq<Vec>, js: set<int>, c: V2, o: Vec)
    requires IsAll(js, |rows| + 1) && |o| == 3 && o[2] > 0.0
    requires Feasible(Planes3(rows), js, o)
    requires Optimal([c.x, c.y, 0.0], INFINITY_PLANE, Planes3(rows), js, o)
    ensures IsMinimum(rows, c, Finite(o))
  {
    FiniteInside(rows, js, o);
    forall p: V2 | Inside(rows, p) ensures Dot2(c, Finite(o)) <= Dot2(c, p) {
      var n := [c.x, c.y, 0.0];
      InsideIsFeasible(rows, js, p);
      Dot3(INFINITY_PLANE, Lift(p));
      Dot3(INFINITY_PLANE, o);
      Dot3(n, o);
      Dot3(n, Lift(p));
      assert NoWorse(n, INFINITY_PLANE, o, Lift(p));
      FiniteValue(c, o, Dot2(c, p));
    }
  }

  lemma FiniteValue(c: V2, o: Vec, v: real)
    requires |o| == 3 && o[2] > 0.0 && c.x * o[0] + c.y * o[1] <= v * o[2]
    ensures Dot2(c, Finite(o)) <= v
  {
    var p := Finite(o);
    assert p.x * o[2] == o[0] && p.y * o[2] == o[1];
    assert o[2] * (v - Dot2(c, p)) == v * o[2] - (c.x * (p.x * o[2]) + c.y * (p.y * o[2]));
    NonNegativeFactor(o[2], v - Dot2(c, p));
  }

  /** A feasible point at infinity is a direction in which the inside never ends. */
  lemma Recession(rows: seq<Vec>, js: set<int>, o: Vec, p: V2, t: real, q: V2)
    requires IsAll(js, |rows| + 1) && |o| == 3 && o[2] == 0.0 && Feasible(Planes3(rows), js, o)
    requires Inside(rows, p) && t >= 0.0 && q == V2(p.x + t * o[0], p.y + t * o[1])
    ensures Inside(rows, q)
  {
    var v := Combine(1.0, Lift(p), t, o);
    assert v[0] == q.x && v[1] == q.y && v[2] == 1.0;
    assert v == Lift(q);
    forall j | 0 <= j < |rows| ensures |rows[j]| == 3 && Dot(rows[j], Lift(q)) >= 0.0 {
      assert rows[j] == Planes3(rows)[j + 1] && j + 1 in js;
      DotCombine(rows[j], 1.0, Lift(p), t, o);
      NonNegativeProduct(t, Dot(rows[j], o), t * Dot(rows[j], o));
    }
  }

  /** Far enough along a direction, two points are further apart than 2*r. */
  lemma FarAlong(u: real, r: real) returns (t: real, s: real)
    requires u != 0.0 && r >= 0.0
    ensures t >= 0.0 && s == t * u && (s > 2.0 * r || s < -2.0 * r)
  {
    var far := 2.0 * r + 1.0;
    if u > 0.0 {
      t := far / u;
      s := far;
      NonNegativeFactor(u, t);
    } else {
      t := far / -u;
      s := -far;
      assert t * -u == far;
      NonNegativeFactor(-u, t);
    }
  }

  /** So a nonempty bounded inside has no feasible point at infinity other than zero. */
  lemma BoundedMeansFinite(rows: seq<Vec>, js: set<int>, o: Vec, p: V2, r: real)
    requires IsAll(js, |rows| + 1) && |o| == 3 && !IsZero(o) && Feasible(Planes3(rows), js, o)
    requires Inside(rows, p) && WithinBound(rows, r)
    ensures o[2] > 0.0
  {
    Dot3(INFINITY_PLANE, o);
    assert 0 in js;
    assert o[2] >= 0.0;
    if o[2] == 0.0 {
      var t, s;
      if o[0] != 0.0 {
        t, s := FarAlong(o[0], r);
      } else {
        assert o[1] != 0.0;
        t, s := FarAlong(o[1], r);
      }
      var q := V2(p.x + t * o[0], p.y + t * o[1]);
      Recession(rows, js, o, p, t, q);
      TooFar(rows, r, p, q, s);
    }
  }

  lemma TooFar(rows: seq<Vec>, r: real, p: V2, q: V2, s: real)
    requires WithinBound(rows, r) && Inside(rows, p) && Inside(rows, q)
    requires q.x == p.x + s || q.y == p.y + s
    ensures -2.0 * r <= s <= 2.0 * r
  {
  }

  // randperm.c

  ghost predicate IsPermutation(perm: seq<int>) {
    && NoDuplicates(perm)
    && (forall k | 0 <= k < |perm| :: 0 <= perm[k] < |perm|)
    && (forall v | 0 <= v < |perm| :: v in perm)
  }

  lemma IdentityIsPermutation(a: seq<int>)
    requires forall k | 0 <= k < |a| :: a[k] == k
    ensures IsPermutation(a)
  {
    forall v | 0 <= v < |a| ensures v in a {
      assert a[v] == v;
    }
  }

  lemma SwapKeepsPermutation(a: seq<int>, i: nat, j: nat)
    requires IsPermutation(a) && i < |a| && j < |a|
    ensures IsPermutation(a[i := a[j]][j := a[i]])
  {
    var b := a[i := a[j]][j := a[i]];
    forall v | 0 <= v < |b| ensures v in b {
      assert v in a;
      var k :| 0 <= k < |a| && a[k] == v;
      assert b[if k == i then j else if k == j then i else k] == v;
    }
  }

  /** randperm, for an arbitrary source of random numbers. */
  method RandPerm(perm: array<int>)
    modifies perm
    ensures IsPermutation(perm[..])
  {
    var n := perm.Length;
    for i := 0 to n
      invariant forall k | 0 <= k < i :: perm[k] == k
    {
      perm[i] := i;
    }
    ghost var cur := perm[..];
    IdentityIsPermutation(cur);
    for i := 0 to n
      invariant cur == perm[..] && IsPermutation(cur)
    {
      var rand: nat := *;
      var j := rand % (n - i) + i;
      SwapKeepsPermutation(cur, i, j);
      cur := cur[i := cur[j]][j := cur[i]];
      var t := perm[j];
      perm[j] := perm[i];
      perm[i] := t;
      assert perm[..] == cur;
    }
  }

  // solve_lp2

  /** The order that solve_lp2 links up: plane 0, then the constraints as permuted. */
  ghost function ShuffledOrder(perm: seq<int>): (order: seq<int>)
    ensures |order| == |perm| + 1
  {
    seq(|perm| + 1, k requires 0 <= k <= |perm| => if k == 0 then 0 else perm[k - 1] + 1)
  }

  lemma ShuffledOrderValid(perm: seq<int>)
    requires IsPermutation(perm)
    ensures ValidOrder(ShuffledOrder(perm), |perm| + 1)
    ensures IsAll(Planes(ShuffledOrder(perm)[..|perm| + 1]), |perm| + 1)
  {
    var order := ShuffledOrder(perm);
    assert order[..|perm| + 1] == order;
    forall v | 0 <= v < |perm| + 1 ensures v in order {
      if v == 0 {
        assert order[0] == 0;
      } else {
        assert v - 1 in perm;
        var k :| 0 <= k < |perm| && perm[k] == v - 1;
        assert order[k + 1] == v;
      }
    }
  }

  /** The first i planes after plane 0 have been linked up. */
  ghost predicate LinkedUp(next: seq<int>, prev: seq<int>, order: seq<int>, m: nat, i: nat) {
    && |next| == |prev| == |order| == m && i < m && ValidOrder(order, m)
    && (forall k {:trigger next[order[k]]} | 0 <= k < i :: next[order[k]] == At(order, m, k + 1))
    && (forall k {:trigger prev[order[k]]} | 0 < k <= i :: prev[order[k]] == order[k - 1])
  }

  lemma LinkNext(next: seq<int>, prev: seq<int>, order: seq<int>, m: nat, i: nat, i': nat, a: int, b: int)
    requires LinkedUp(next, prev, order, m, i) && i' == i + 1 && i' < m && a == order[i] && b == order[i']
    ensures LinkedUp(next[a := b], prev[b := a], order, m, i')
  {
  }

  lemma LinkLast(next: seq<int>, prev: seq<int>, order: seq<int>, m: nat, i: nat, a: int)
    requires LinkedUp(next, prev, order, m, i) && m == i + 1 && a == order[i]
    ensures Links(next[a := m], prev, order, m)
  {
    var next' := next[a := m];
    forall k {:trigger next'[order[k]]} | 0 <= k < |order| ensures next'[order[k]] == At(order, m, k + 1) {
      if k < i {
        assert order[k] != order[i];
      }
    }
  }

  method LinkRest(perm: array<int>, next: array<int>, prev: array<int>, m: nat, ghost order: seq<int>)
    requires m == perm.Length + 1 == next.Length == prev.Length && m >= 2
    requires next != prev && perm != next && perm != prev && order == ShuffledOrder(perm[..])
    requires LinkedUp(next[..], prev[..], order, m, 1)
    modifies next, prev
    ensures LinkedUp(next[..], prev[..], order, m, m - 1)
  {
    for i := 0 to m - 2
      invariant LinkedUp(next[..], prev[..], order, m, i + 1)
    {
      var j, k := i + 1, i + 2;
      var a, b := perm[i] + 1, perm[j] + 1;
      assert order[j] == a && order[k] == b;
      ghost var nx, pv := next[..], prev[..];
      LinkNext(nx, pv, order, m, j, k, a, b);
      next[a] := b;
      prev[b] := a;
      assert next[..] == nx[a := b] && prev[..] == pv[b := a];
    }
  }

  /** Links up the planes in the order of the permutation. */
  method LinkPlanes(perm: array<int>, next: array<int>, prev: array<int>, m: nat)
    returns (ghost order: seq<int>)
    requires m == perm.Length + 1 == next.Length == prev.Length && m >= 2
    requires IsPermutation(perm[..]) && next != prev && perm != next && perm != prev
    modifies next, prev
    ensures order == ShuffledOrder(perm[..]) && Linked(next, prev, order, m)
    ensures IsAll(Planes(order[..m]), m)
  {
    ShuffledOrderValid(perm[..]);
    order := ShuffledOrder(perm[..]);
    prev[0] := 1234567890;
    assert LinkedUp(next[..], prev[..], order, m, 0);
    assert order[1] == perm[0] + 1 && order[0] == 0;
    ghost var nx, pv := next[..], prev[..];
    LinkNext(nx, pv, order, m, 0, 1, 0, perm[0] + 1);
    next[0] := perm[0] + 1;
    prev[perm[0] + 1] := 0;
    assert next[..] == nx[0 := perm[0] + 1] && prev[..] == pv[perm[0] + 1 := 0];
    LinkRest(perm, next, prev, m, order);
    assert order[m - 1] == perm[m - 2] + 1;
    LinkLast(next[..], prev[..], order, m, m - 1, perm[m - 2] + 1);
    next[perm[m - 2] + 1] := m;
  }

  datatype LpError = LpInfeasible | SolutionAtInfinity | RegionUnbounded
  datatype LpResult = Solution(at: V2) | Failed(error: LpError)

  /** The constraints as solve_lp2 receives them: a matrix with `n` rows a.x, a.y, b, row by row. */
  ghost function Constraints(h: Vec, n: nat): (rows: seq<Vec>)
    requires |h| == Cells(n, 3)
  {
    Rows(h, 0, 3, n)
  }

  /** The buffers of solve_lp2, one after the other: planes, numerator and denominator. */
  function Filled(h: Vec, c: V2): Vec {
    [0.0, 0.0, 1.0] + h + [c.x, c.y, 0.0] + [0.0, 0.0, 1.0]
  }

  lemma FilledStores(s: Vec, h: Vec, n: nat, c: V2, m: nat)
    requires m == n + 1 && |h| == Cells(n, 3) && Filled(h, c) <= s
    ensures Cells(m, 3) == |h| + 3 && Cells(m, 3) + 6 <= |s|
    ensures Rows(s, 0, 3, m) == Planes3(Constraints(h, n))
    ensures Slice(s, Cells(m, 3), 3) == [c.x, c.y, 0.0]
    ensures Slice(s, Cells(m, 3) + 3, 3) == INFINITY_PLANE
  {
    var rows := Constraints(h, n);
    CellsIsProduct(n, 3);
    CellsIsProduct(m, 3);
    var f := Filled(h, c);
    assert forall k | 0 <= k < |f| :: s[k] == f[k];
    forall j | 0 <= j < m ensures Row(s, 0, 3, m, j) == Planes3(rows)[j] {
      CellsIsProduct(j, 3);
      if j > 0 {
        CellsIsProduct(j - 1, 3);
        assert rows[j - 1] == Row(h, 0, 3, n, j - 1);
        forall k | 0 <= k < 3 ensures Row(s, 0, 3, m, j)[k] == rows[j - 1][k] {
          assert f[3 * j + k] == h[3 * (j - 1) + k];
        }
      } else {
        assert Row(s, 0, 3, m, 0) == INFINITY_PLANE;
      }
    }
    assert forall k | 0 <= k < 3 :: f[Cells(m, 3) + k] == [c.x, c.y, 0.0][k];
    assert forall k | 0 <= k < 3 :: f[Cells(m, 3) + 3 + k] == INFINITY_PLANE[k];
  }

  method CopyInto(mem: array<real>, f: seq<real>)
    requires |f| <= mem.Length
    modifies mem
    ensures f <= mem[..]
  {
    for k := 0 to |f|
      invariant f[..k] == mem[..k]
    {
      mem[k] := f[k];
      assert mem[..k + 1] == mem[..k] + [f[k]];
    }
    assert f == f[..|f|] == mem[..|f|];
  }

  /** p, and t times u further. */
  ghost function Along(p: V2, t: real, u: V2): V2 {
    V2(p.x + t * u.x, p.y + t * u.y)
  }

  /** A direction in which the inside never ends and the objective never increases. */
  ghost predicate Descends(rows: seq<Vec>, c: V2, u: V2) {
    && u != ORIGIN
    && forall p: V2, t: real | Inside(rows, p) && t >= 0.0 ::
         Inside(rows, Along(p, t, u)) && Dot2(c, Along(p, t, u)) <= Dot2(c, p)
  }

  /** What the answer of solve_lp2 says about the constraints. */
  ghost predicate Answers(r: LpResult, rows: seq<Vec>, c: V2) {
    match r
    case Solution(at) => IsMinimum(rows, c, at)
    case Failed(LpInfeasible) => forall p: V2 :: !Inside(rows, p)
    case Failed(SolutionAtInfinity) =>
      (forall p: V2 :: Inside(rows, p) ==> !IsBounded(rows)) && exists u: V2 :: Descends(rows, c, u)
    case Failed(RegionUnbounded) => false
  }

  lemma AtInfinityUnbounded(rows: seq<Vec>, js: set<int>, o: Vec)
    requires IsAll(js, |rows| + 1) && |o| == 3 && !IsZero(o) && Feasible(Planes3(rows), js, o) && o[2] == 0.0
    ensures forall p: V2 :: Inside(rows, p) ==> !IsBounded(rows)
  {
    forall p: V2 | Inside(rows, p) ensures !IsBounded(rows) {
      if IsBounded(rows) {
        var r :| WithinBound(rows, r);
        BoundedMeansFinite(rows, js, o, p, r);
      }
    }
  }

  lemma NotUphill(rows: seq<Vec>, c: V2, js: set<int>, o: Vec, p: V2)
    requires IsAll(js, |rows| + 1) && |o| == 3 && o[2] == 0.0
    requires Optimal([c.x, c.y, 0.0], INFINITY_PLANE, Planes3(rows), js, o) && Inside(rows, p)
    ensures c.x * o[0] + c.y * o[1] <= 0.0
  {
    var n, x := [c.x, c.y, 0.0], Lift(p);
    InsideIsFeasible(rows, js, p);
    Dot3(INFINITY_PLANE, x);
    Dot3(INFINITY_PLANE, o);
    Dot3(n, o);
    assert NoWorse(n, INFINITY_PLANE, o, x);
    assert Dot(n, o) * 1.0 <= Dot(n, x) * 0.0;
  }

  lemma AlongValue(c: V2, p: V2, t: real, u: V2)
    requires t >= 0.0 && c.x * u.x + c.y * u.y <= 0.0
    ensures Dot2(c, Along(p, t, u)) <= Dot2(c, p)
  {
    var down := -(c.x * u.x + c.y * u.y);
    NonNegativeProduct(t, down, t * down);
    assert Dot2(c, Along(p, t, u)) == Dot2(c, p) - t * down;
  }

  lemma AtInfinityAnswers(rows: seq<Vec>, c: V2, js: set<int>, o: Vec)
    requires IsAll(js, |rows| + 1) && |o| == 3 && !IsZero(o) && Feasible(Planes3(rows), js, o) && o[2] == 0.0
    requires Optimal([c.x, c.y, 0.0], INFINITY_PLANE, Planes3(rows), js, o)
    ensures Answers(Failed(SolutionAtInfinity), rows, c)
  {
    AtInfinityUnbounded(rows, js, o);
    var u := V2(o[0], o[1]);
    assert u != ORIGIN;
    forall p: V2, t: real | Inside(rows, p) && t >= 0.0
      ensures Inside(rows, Along(p, t, u)) && Dot2(c, Along(p, t, u)) <= Dot2(c, p)
    {
      Recession(rows, js, o, p, t, Along(p, t, u));
      NotUphill(rows, c, js, o, p);
      AlongValue(c, p, t, u);
    }
    assert Descends(rows, c, u);
  }

  lemma RowAlong(row: Vec, p: V2, t: real, u: V2, slope: real)
    requires |row| == 3 && slope == row[0] * u.x + row[1] * u.y
    ensures Dot(row, Lift(Along(p, t, u))) == Dot(row, Lift(p)) + t * slope
  {
    Dot3(row, Lift(p));
    Dot3(row, Lift(Along(p, t, u)));
  }

  /** Against a falling slope, one can go far enough to get below zero. */
  lemma FarDown(at: real, slope: real) returns (t: real)
    requires at >= 0.0 && slope < 0.0
    ensures t >= 0.0 && at + t * slope == -1.0
  {
    t := (at + 1.0) / -slope;
    assert t * -slope == at + 1.0;
    NonNegativeFactor(-slope, t);
  }

  lemma DirectionFeasible(rows: seq<Vec>, c: V2, j: nat, u: V2, p: V2)
    requires j < |rows| && Inside(rows, p) && Descends(rows, c, u)
    ensures |rows[j]| == 3 && rows[j][0] * u.x + rows[j][1] * u.y >= 0.0
  {
    var row := rows[j];
    var at, slope := Dot(row, Lift(p)), row[0] * u.x + row[1] * u.y;
    if slope < 0.0 {
      var t := FarDown(at, slope);
      RowAlong(row, p, t, u, slope);
    }
  }

  /** Any such direction is one that the solver may return. */
  lemma DescentAdmitted(rows: seq<Vec>, c: V2, js: set<int>, u: V2, p: V2)
    requires IsAll(js, |rows| + 1) && Inside(rows, p) && Descends(rows, c, u)
    ensures Problem2(rows, c).SolvedFor(MINIMUM, js, [u.x, u.y, 0.0])
  {
    var o, hs, n: Vec := [u.x, u.y, 0.0], Planes3(rows), [c.x, c.y, 0.0];
    assert u.x != 0.0 || u.y != 0.0;
    assert o[0] != 0.0 || o[1] != 0.0;
    forall j | j in js ensures 0 <= j < |hs| && |hs[j]| == 3 && Dot(hs[j], o) >= 0.0 {
      if j > 0 {
        DirectionFeasible(rows, c, j - 1, u, p);
      }
      Dot3(hs[j], o);
    }
    Downhill(rows, c, u, p);
    Dot3(n, o);
    Dot3(INFINITY_PLANE, o);
    forall x: Vec | |x| == 3 && Feasible(hs, js, x) && Dot(INFINITY_PLANE, x) > 0.0
      ensures NoWorse(n, INFINITY_PLANE, o, x)
    {
      DownhillNoWorse(Dot(n, o), Dot(INFINITY_PLANE, x), Dot(n, x));
    }
    assert 0 in js;
  }

  lemma Downhill(rows: seq<Vec>, c: V2, u: V2, p: V2)
    requires Inside(rows, p) && Descends(rows, c, u)
    ensures c.x * u.x + c.y * u.y <= 0.0
  {
    var q := Along(p, 1.0, u);
    assert Dot2(c, q) <= Dot2(c, p);
    assert q == V2(p.x + u.x, p.y + u.y);
  }

  lemma DownhillNoWorse(no: real, dx: real, nx: real)
    requires no <= 0.0 && dx > 0.0
    ensures RatioAtMost(no, 0.0, nx, dx)
  {
    NonNegativeProduct(-no, dx, -no * dx);
  }

  /** The solver may return an optimum at infinity. */
  ghost predicate MayRefuse(rows: seq<Vec>, c: V2, js: set<int>) {
    exists o: Vec :: |o| == 3 && o[2] == 0.0 && Problem2(rows, c).SolvedFor(MINIMUM, js, o)
  }

  /** Of a nonempty inside a minimum may be refused, whether there is one or not, exactly when there is a direction in
      which the inside never ends and the objective never increases. */
  lemma RefusedExactly(rows: seq<Vec>, c: V2, js: set<int>, p: V2)
    requires IsAll(js, |rows| + 1) && Inside(rows, p)
    ensures MayRefuse(rows, c, js) <==> exists u: V2 :: Descends(rows, c, u)
  {
    if u: V2 :| Descends(rows, c, u) {
      DescentAdmitted(rows, c, js, u, p);
      var o: Vec := [u.x, u.y, 0.0];
      assert |o| == 3 && o[2] == 0.0;
    }
    if MayRefuse(rows, c, js) {
      var o: Vec :| |o| == 3 && o[2] == 0.0 && Problem2(rows, c).SolvedFor(MINIMUM, js, o);
      assert 0 in js;
      AtInfinityAnswers(rows, c, js, o);
    }
  }

  /** The half-plane x >= 0, and the objective x. */
  const RIGHT: seq<Vec> := [[1.0, 0.0, 0.0]]

  lemma RightInside(p: V2)
    ensures Inside(RIGHT, p) <==> p.x >= 0.0
  {
    var row := RIGHT[0];
    Dot3(row, Lift(p));
    assert Dot(row, Lift(p)) == 1.0 * p.x + 0.0 * p.y + 0.0 * 1.0;
  }

  lemma RightMinimum()
    ensures IsMinimum(RIGHT, V2(1.0, 0.0), ORIGIN)
  {
    RightInside(ORIGIN);
    forall p: V2 | Inside(RIGHT, p) ensures Dot2(V2(1.0, 0.0), ORIGIN) <= Dot2(V2(1.0, 0.0), p) {
      RightInside(p);
      Axes(p);
      Axes(ORIGIN);
    }
  }

  lemma UpwardsFeasible()
    ensures Feasible(Planes3(RIGHT), {0, 1}, [0.0, 1.0, 0.0])
  {
    Dot3(INFINITY_PLANE, [0.0, 1.0, 0.0]);
    Dot3(RIGHT[0], [0.0, 1.0, 0.0]);
    assert Planes3(RIGHT)[0] == INFINITY_PLANE && Planes3(RIGHT)[1] == RIGHT[0];
  }

  lemma UpwardsNoWorse(x: Vec)
    requires |x| == 3
    ensures NoWorse([1.0, 0.0, 0.0], INFINITY_PLANE, [0.0, 1.0, 0.0], x)
  {
    Dot3(INFINITY_PLANE, [0.0, 1.0, 0.0]);
    Dot3([1.0, 0.0, 0.0], [0.0, 1.0, 0.0]);
  }

  /** A minimum that exists may be refused: of x over the half-plane x >= 0, the direction of the y-axis is an optimum
      that the solver may return as well as a point. */
  lemma MinimumRefused()
    ensures IsMinimum(RIGHT, V2(1.0, 0.0), ORIGIN)
    ensures Problem2(RIGHT, V2(1.0, 0.0)).SolvedFor(MINIMUM, {0, 1}, [0.0, 1.0, 0.0])
  {
    RightMinimum();
    UpwardsFeasible();
    var o: Vec := [0.0, 1.0, 0.0];
    assert o[1] != 0.0;
    forall x: Vec | |x| == 3 ensures NoWorse([1.0, 0.0, 0.0], INFINITY_PLANE, o, x) {
      UpwardsNoWorse(x);
    }
  }

  lemma FeasibleAbove(rows: seq<Vec>, js: set<int>, o: Vec)
    requires IsAll(js, |rows| + 1) && |o| == 3 && Feasible(Planes3(rows), js, o)
    ensures o[2] >= 0.0
  {
    Dot3(INFINITY_PLANE, o);
    assert 0 in js && Planes3(rows)[0] == INFINITY_PLANE;
    assert Dot(Planes3(rows)[0], o) >= 0.0;
  }

  ghost function Problem2(rows: seq<Vec>, c: V2): Program {
    Program(Planes3(rows), [c.x, c.y, 0.0], INFINITY_PLANE)
  }

  /** The size of the work area, by the formula that the solver's documentation gives. */
  method WorkSize(maxSize: nat, d: nat) returns (size: nat)
    requires d >= 1
    ensures size == WorkCells(maxSize, d)
  {
    WorkCellsClosedForm(maxSize, d);
    size := (maxSize + 3) * (d + 2) * (d - 1) / 2;
  }

  /** The buffers hold the problem, and lie apart. */
  lemma LpStored(s: Vec, h: Vec, n: nat, c: V2, m: nat, b: Buffers, workSize: nat)
    requires m == n + 1 && |h| == Cells(n, 3) && Filled(h, c) <= s && workSize == WorkCells(m, 2)
    requires b == Buffers(0, |h| + 3, |h| + 6, 2, 3, |h| + 9, |h| + 12, m) && |s| == |h| + 12 + workSize
    ensures Problem2(Constraints(h, n), c).StoredAt(s, b)
  {
    FilledStores(s, h, n, c, m);
  }

  /** The list of m planes, in random order behind plane 0. */
  method ShuffledList(m: nat) returns (next: array<int>, prev: array<int>, ghost order: seq<int>)
    requires m >= 2
    ensures fresh(next) && fresh(prev) && |order| == m && order[0] == 0
    ensures Linked(next, prev, order, m) && IsAll(Planes(order[..m]), m)
  {
    var perm := new int[m - 1];
    next, prev := new int[m], new int[m];
    RandPerm(perm);
    order := LinkPlanes(perm, next, prev, m);
  }

  /** The buffers, filled and laid out one after the other. */
  method FilledBuffers(h: seq<real>, n: nat, c: V2, m: nat) returns (mem: array<real>, b: Buffers)
    requires n >= 1 && |h| == Cells(n, 3) && m == n + 1
    ensures fresh(mem) && Problem2(Constraints(h, n), c).StoredAt(mem[..], b) && b.w == 3 && b.max == m
  {
    var f := Filled(h, c);
    var workSize := WorkSize(m, 2);
    var nAt := |h| + 3;
    b := Buffers(0, nAt, nAt + 3, 2, 3, nAt + 6, nAt + 9, m);
    mem := new real[nAt + 9 + workSize];
    CopyInto(mem, f);
    LpStored(mem[..], h, n, c, m, b, workSize);
  }

  /** The part of solve_lp2 that fills the buffers and calls the solver. */
  method RunLp(h: seq<real>, n: nat, c: V2) returns (status: Status, opt: V2, optZ: real, ghost js: set<int>)
    requires n >= 1 && |h| == Cells(n, 3)
    ensures IsAll(js, n + 1) && |Constraints(h, n)| == n
    ensures Problem2(Constraints(h, n), c).SolvedFor(status, js, [opt.x, opt.y, optZ])
  {
    var m := n + 1;
    var mem, b := FilledBuffers(h, n, c, m);
    ghost var order, after;
    var next, prev;
    next, prev, order := ShuffledList(m);
    js := Planes(order[..m]);
    ghost var pr := Problem2(Constraints(h, n), c);
    status, after := Linprog(mem, b, 0, m, next, prev, pr, order, 0, m);
    opt, optZ := V2(mem[b.opt], mem[b.opt + 1]), mem[b.opt + 2];
    Slice3(mem[..], b.opt);
  }

  lemma Slice3(s: Vec, off: nat)
    requires off + 3 <= |s|
    ensures Slice(s, off, 3) == [s[off], s[off + 1], s[off + 2]]
  {
  }

  lemma SolvedMeans(rows: seq<Vec>, c: V2, status: Status, js: set<int>, o: Vec)
    requires IsAll(js, |rows| + 1) && |o| == 3 && Problem2(rows, c).SolvedFor(status, js, o)
    ensures if status == INFEASIBLE then Empty(Planes3(rows), js, 3)
            else !IsZero(o) && Feasible(Planes3(rows), js, o) && o[2] >= 0.0 &&
                 (o[2] > 0.0 ==> IsMinimum(rows, c, Finite(o))) &&
                 Optimal([c.x, c.y, 0.0], INFINITY_PLANE, Planes3(rows), js, o)
  {
    assert 0 in js && js != {};
    if status != INFEASIBLE {
      FeasibleAbove(rows, js, o);
      if o[2] > 0.0 {
        FiniteMinimum(rows, js, c, o);
      }
    }
  }

  /** solve_lp2: minimise c.p over the points p with A p + b >= 0. */
  method SolveLp2(h: seq<real>, n: nat, c: V2) returns (r: LpResult)
    requires n >= 1 && |h| == Cells(n, 3)
    ensures Answers(r, Constraints(h, n), c)
  {
    ghost var js;
    var status, opt, optZ;
    status, opt, optZ, js := RunLp(h, n, c);
    ghost var rows, o := Constraints(h, n), [opt.x, opt.y, optZ];
    SolvedMeans(rows, c, status, js, o);
    if status == INFEASIBLE {
      forall p: V2 ensures !Inside(rows, p) {
        InfeasibleMeansNone(rows, js, p);
      }
      return Failed(LpInfeasible);
    }
    if optZ != 0.0 {
      return Solution(V2(opt.x / optZ, opt.y / optZ));
    }
    AtInfinityAnswers(rows, c, js, o);
    return Failed(SolutionAtInfinity);
  }

  // computeAABBConvexPolytope

  /** The polygon A p <= b. */
  ghost predicate InPolygon(a: seq<V2>, b: seq<real>, p: V2)
    requires |a| == |b|
  {
    forall i | 0 <= i < |a| :: Dot2(a[i], p) <= b[i]
  }

  datatype Box = Box(min: V2, max: V2)
  datatype BoxResult = Hull(box: Box) | NoHull(error: LpError)

  predicate InBox(box: Box, p: V2) {
    box.min.x <= p.x <= box.max.x && box.min.y <= p.y <= box.max.y
  }

  /** The box contains the polygon, and each of its sides touches it. */
  ghost predicate IsTight(a: seq<V2>, b: seq<real>, box: Box)
    requires |a| == |b|
  {
    && (forall p: V2 | InPolygon(a, b, p) :: InBox(box, p))
    && (exists p: V2 :: InPolygon(a, b, p) && p.x == box.min.x)
    && (exists p: V2 :: InPolygon(a, b, p) && p.x == box.max.x)
    && (exists p: V2 :: InPolygon(a, b, p) && p.y == box.min.y)
    && (exists p: V2 :: InPolygon(a, b, p) && p.y == box.max.y)
  }

  ghost predicate PolygonWithin(a: seq<V2>, b: seq<real>, r: real)
    requires |a| == |b|
  {
    forall p: V2 | InPolygon(a, b, p) :: -r <= p.x <= r && -r <= p.y <= r
  }

  /** The rows handed to the solver: (A | b), each multiplied by some positive factor. */
  ghost predicate ScaledRows(a: seq<V2>, b: seq<real>, rows: seq<Vec>)
    requires |a| == |b|
  {
    |rows| == |a| && forall i | 0 <= i < |a| :: ScaledRow(rows[i], a[i], b[i])
  }

  ghost predicate ScaledRow(row: Vec, a: V2, b: real) {
    exists s: real :: s > 0.0 && row == RowTimes(s, a, b)
  }

  ghost function RowTimes(s: real, a: V2, b: real): (r: Vec)
    ensures |r| == 3
  {
    [s * a.x, s * a.y, s * b]
  }

  /** The solver sees the polygon mirrored in the origin. */
  lemma Mirrored(a: seq<V2>, b: seq<real>, rows: seq<Vec>, p: V2)
    requires |a| == |b| && ScaledRows(a, b, rows)
    ensures InPolygon(a, b, p) <==> Inside(rows, Minus(p))
  {
    forall i | 0 <= i < |a|
      ensures |rows[i]| == 3 && (Dot2(a[i], p) <= b[i] <==> Dot(rows[i], Lift(Minus(p))) >= 0.0)
    {
      var s :| s > 0.0 && rows[i] == RowTimes(s, a[i], b[i]);
      Dot3(rows[i], Lift(Minus(p)));
      MirroredRow(s, a[i], b[i], p);
    }
  }

  lemma MirroredRow(s: real, a: V2, b: real, p: V2)
    requires s > 0.0
    ensures (s * a.x) * -p.x + (s * a.y) * -p.y + s * b >= 0.0 <==> Dot2(a, p) <= b
  {
    assert (s * a.x) * -p.x + (s * a.y) * -p.y + s * b == s * (b - Dot2(a, p));
    ScaledSign(s, b - Dot2(a, p));
  }

  /** One side of the box from one linear program. */
  lemma SideFound(a: seq<V2>, b: seq<real>, rows: seq<Vec>, c: V2, at: V2)
    requires |a| == |b| && ScaledRows(a, b, rows) && IsMinimum(rows, c, at)
    ensures InPolygon(a, b, Minus(at))
    ensures forall p: V2 | InPolygon(a, b, p) :: Dot2(c, p) <= Dot2(c, Minus(at))
  {
    assert Minus(Minus(at)) == at;
    Mirrored(a, b, rows, Minus(at));
    forall p: V2 | InPolygon(a, b, p) ensures Dot2(c, p) <= Dot2(c, Minus(at)) {
      Mirrored(a, b, rows, p);
      assert Dot2(c, at) <= Dot2(c, Minus(p));
      assert Dot2(c, Minus(p)) == -Dot2(c, p) && Dot2(c, Minus(at)) == -Dot2(c, at);
    }
  }

  /** A bounded nonempty polygon has its four sides found. */
  lemma NoFailure(a: seq<V2>, b: seq<real>, rows: seq<Vec>, c: V2, r: LpResult, p: V2, bound: real)
    requires |a| == |b| && ScaledRows(a, b, rows) && Answers(r, rows, c)
    requires InPolygon(a, b, p) && PolygonWithin(a, b, bound)
    ensures r.Solution?
  {
    Mirrored(a, b, rows, p);
    assert WithinBound(rows, bound) by {
      forall q: V2 | Inside(rows, q) ensures -bound <= q.x <= bound && -bound <= q.y <= bound {
        assert Minus(Minus(q)) == q;
        Mirrored(a, b, rows, Minus(q));
      }
    }
    assert IsBounded(rows);
  }

  lemma Axes(p: V2)
    ensures Dot2(V2(1.0, 0.0), p) == p.x && Dot2(V2(-1.0, 0.0), p) == -p.x
    ensures Dot2(V2(0.0, 1.0), p) == p.y && Dot2(V2(0.0, -1.0), p) == -p.y
  {
  }

  lemma RightAndLeft(a: seq<V2>, b: seq<real>, rows: seq<Vec>, right: V2, left: V2)
    requires |a| == |b| && ScaledRows(a, b, rows)
    requires IsMinimum(rows, V2(1.0, 0.0), right) && IsMinimum(rows, V2(-1.0, 0.0), left)
    ensures InPolygon(a, b, Minus(right)) && InPolygon(a, b, Minus(left))
    ensures forall p: V2 | InPolygon(a, b, p) :: -left.x <= p.x <= -right.x
  {
    SideFound(a, b, rows, V2(1.0, 0.0), right);
    SideFound(a, b, rows, V2(-1.0, 0.0), left);
    forall p: V2 | InPolygon(a, b, p) ensures -left.x <= p.x <= -right.x {
      Axes(p);
      Axes(Minus(right));
      Axes(Minus(left));
    }
  }

  lemma TopAndBottom(a: seq<V2>, b: seq<real>, rows: seq<Vec>, top: V2, bottom: V2)
    requires |a| == |b| && ScaledRows(a, b, rows)
    requires IsMinimum(rows, V2(0.0, 1.0), top) && IsMinimum(rows, V2(0.0, -1.0), bottom)
    ensures InPolygon(a, b, Minus(top)) && InPolygon(a, b, Minus(bottom))
    ensures forall p: V2 | InPolygon(a, b, p) :: -bottom.y <= p.y <= -top.y
  {
    SideFound(a, b, rows, V2(0.0, 1.0), top);
    SideFound(a, b, rows, V2(0.0, -1.0), bottom);
    forall p: V2 | InPolygon(a, b, p) ensures -bottom.y <= p.y <= -top.y {
      Axes(p);
      Axes(Minus(top));
      Axes(Minus(bottom));
    }
  }

  lemma SidesMakeBox(a: seq<V2>, b: seq<real>, rows: seq<Vec>, right: V2, left: V2, top: V2, bottom: V2, box: Box)
    requires |a| == |b| && ScaledRows(a, b, rows)
    requires IsMinimum(rows, V2(1.0, 0.0), right) && IsMinimum(rows, V2(-1.0, 0.0), left)
    requires IsMinimum(rows, V2(0.0, 1.0), top) && IsMinimum(rows, V2(0.0, -1.0), bottom)
    requires box == Box(V2(-left.x, -bottom.y), V2(-right.x, -top.y))
    ensures IsTight(a, b, box)
  {
    RightAndLeft(a, b, rows, right, left);
    TopAndBottom(a, b, rows, top, bottom);
    assert InPolygon(a, b, Minus(left)) && Minus(left).x == box.min.x;
    assert InPolygon(a, b, Minus(right)) && Minus(right).x == box.max.x;
    assert InPolygon(a, b, Minus(bottom)) && Minus(bottom).y == box.min.y;
    assert InPolygon(a, b, Minus(top)) && Minus(top).y == box.max.y;
  }

  lemma RowChanged(before: Vec, after: Vec, n: nat, i: nat, l: nat)
    requires |before| == Cells(n, 3) && i < n && l < n
    requires OnlyWrites(before, after, Cells(i, 3), Cells(i, 3) + 3)
    ensures l != i ==> Constraints(after, n)[l] == Constraints(before, n)[l]
    ensures Cells(i, 3) + 3 <= |after| && Constraints(after, n)[i] == Slice(after, Cells(i, 3), 3)
  {
    RowsApart(i, n, 3);
    if l != i {
      OtherRowsKept(before, after, 0, 3, n, i, l);
    }
  }

  /** The rows are those of the matrix with b as its last column. */
  ghost predicate ExactRows(a: seq<V2>, b: seq<real>, rows: seq<Vec>)
    requires |a| == |b|
  {
    |rows| == |a| && forall k | 0 <= k < |a| :: rows[k] == [a[k].x, a[k].y, b[k]]
  }

  lemma ExactRowsScaled(a: seq<V2>, b: seq<real>, rows: seq<Vec>)
    requires |a| == |b| && ExactRows(a, b, rows)
    ensures ScaledRows(a, b, rows)
  {
    forall k | 0 <= k < |a| ensures ScaledRow(rows[k], a[k], b[k]) {
      assert rows[k] == RowTimes(1.0, a[k], b[k]);
    }
  }

  /** The matrix and the vector are written row by row. */
  method FillRows(a: seq<V2>, b: seq<real>, halves: array<real>)
    requires |a| == |b| && halves.Length == Cells(|a|, 3)
    modifies halves
    ensures ExactRows(a, b, Constraints(halves[..], |a|))
  {
    var n := |a|;
    for i := 0 to n
      invariant forall k | 0 <= k < i :: Constraints(halves[..], n)[k] == [a[k].x, a[k].y, b[k]]
    {
      ghost var s := halves[..];
      var at := RowPointer(0, i, 3);
      RowsApart(i, n, 3);
      halves[at] := a[i].x;
      halves[at + 1] := a[i].y;
      halves[at + 2] := b[i];
      ghost var s' := halves[..];
      assert OnlyWrites(s, s', at, at + 3);
      assert Slice(s', at, 3) == [a[i].x, a[i].y, b[i]];
      forall k | 0 <= k < i + 1 ensures Constraints(s', n)[k] == [a[k].x, a[k].y, b[k]] {
        RowChanged(s, s', n, i, k);
      }
    }
  }

  /** Each row in turn is normalised in place; a zero row stays as it is. */
  method NormaliseRows(a: seq<V2>, b: seq<real>, halves: array<real>)
    requires |a| == |b| && halves.Length == Cells(|a|, 3)
    requires ScaledRows(a, b, Constraints(halves[..], |a|))
    modifies halves
    ensures ScaledRows(a, b, Constraints(halves[..], |a|))
  {
    var n := |a|;
    for i := 0 to n
      invariant ScaledRows(a, b, Constraints(halves[..], n))
    {
      ghost var s := halves[..];
      var at := RowPointer(0, i, 3);
      RowsApart(i, n, 3);
      var zero;
      ghost var factor;
      zero, factor := Unit(halves, at, 3);
      if !zero {
        ghost var s' := halves[..];
        forall k | 0 <= k < n ensures ScaledRow(Constraints(s', n)[k], a[k], b[k]) {
          RowChanged(s, s', n, i, k);
          if k == i {
            ScaledAgain(Constraints(s, n)[i], a[i], b[i], factor);
            RowInPlace(s, n, i);
          }
        }
      }
    }
  }

  lemma RowInPlace(s: Vec, n: nat, i: nat)
    requires |s| == Cells(n, 3) && i < n
    ensures Cells(i, 3) + 3 <= |s| && Constraints(s, n)[i] == Slice(s, Cells(i, 3), 3)
  {
    RowsApart(i, n, 3);
  }

  lemma ScaledAgain(row: Vec, a: V2, b: real, factor: real)
    requires ScaledRow(row, a, b) && factor > 0.0
    ensures ScaledRow(Scale(factor, row), a, b)
  {
    var s :| s > 0.0 && row == RowTimes(s, a, b);
    ProductPositive(factor, s, factor * s);
    var t, r := factor * s, Scale(factor, row);
    var e := RowTimes(t, a, b);
    assert r[0] == factor * row[0] == e[0];
    assert r[1] == factor * row[1] == e[1];
    assert r[2] == factor * row[2] == e[2];
    assert r == e;
  }

  /** computeAABBConvexPolytope. */
  method ComputeAABB(a: seq<V2>, b: seq<real>) returns (r: BoxResult)
    requires |a| == |b| >= 1
    ensures r.Hull? ==> IsTight(a, b, r.box)
    ensures forall p: V2, bound: real :: InPolygon(a, b, p) && PolygonWithin(a, b, bound) ==> r.Hull?
  {
    var n := |a|;
    CellsIsProduct(n, 3);
    var halves := new real[n * 3];
    FillRows(a, b, halves);
    ExactRowsScaled(a, b, Constraints(halves[..], n));
    NormaliseRows(a, b, halves);
    var h := halves[..];
    ghost var rows := Constraints(h, n);
    var right := SolveLp2(h, n, V2(1.0, 0.0));
    if right.Failed? {
      NoFailureAt(a, b, rows, V2(1.0, 0.0), right);
      return NoHull(right.error);
    }
    var left := SolveLp2(h, n, V2(-1.0, 0.0));
    if left.Failed? {
      NoFailureAt(a, b, rows, V2(-1.0, 0.0), left);
      return NoHull(left.error);
    }
    var top := SolveLp2(h, n, V2(0.0, 1.0));
    if top.Failed? {
      NoFailureAt(a, b, rows, V2(0.0, 1.0), top);
      return NoHull(top.error);
    }
    var bottom := SolveLp2(h, n, V2(0.0, -1.0));
    if bottom.Failed? {
      NoFailureAt(a, b, rows, V2(0.0, -1.0), bottom);
      return NoHull(bottom.error);
    }
    var box := Box(V2(-left.at.x, -bottom.at.y), V2(-right.at.x, -top.at.y));
    SidesMakeBox(a, b, rows, right.at, left.at, top.at, bottom.at, box);
    return Hull(box);
  }

  lemma NoFailureAt(a: seq<V2>, b: seq<real>, rows: seq<Vec>, c: V2, r: LpResult)
    requires |a| == |b| && ScaledRows(a, b, rows) && Answers(r, rows, c) && r.Failed?
    ensures forall p: V2, bound: real :: !(InPolygon(a, b, p) && PolygonWithin(a, b, bound))
  {
    forall p: V2, bound: real | InPolygon(a, b, p) && PolygonWithin(a, b, bound) ensures false {
      NoFailure(a, b, rows, c, r, p, bound);
    }
  }
}
