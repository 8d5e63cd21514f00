/** adv-interpreter.hpp: dykstraProjectionAlgorithm. Projections onto the sets in turn, each corrected by
    what the previous projection onto the same set has moved.

    xs[i] is the latest projection onto set i - 1, and ys[i] its correction, for i = 1, ..., m; xs[0] is
    the iterate before the current sweep's first projection. */
module Dykstra {
  import opened Vectors
  import opened Projections

  /** ys[1] + ... + ys[k] */
  ghost function Corrections(ys: seq<Vec>, k: nat, dim: nat): (r: Vec)
    requires k < |ys| && forall i | 0 <= i < |ys| :: |ys[i]| == dim
    ensures |r| == dim
  {
    if k == 0 then Zero(dim) else Add(Corrections(ys, k - 1, dim), ys[k])
  }

  /** ys[1].(xs[1]-w) + ... + ys[k].(xs[k]-w) */
  ghost function Pull(xs: seq<Vec>, ys: seq<Vec>, k: nat, w: Vec): real
    requires k < |ys| == |xs| && forall i | 0 <= i < |ys| :: |ys[i]| == |xs[i]| == |w|
  {
    if k == 0 then 0.0 else Pull(xs, ys, k - 1, w) + Dot(ys[k], Sub(xs[k], w))
  }

  ghost predicate Shaped(xs: seq<Vec>, ys: seq<Vec>, m: nat, dim: nat) {
    |xs| == |ys| == m + 1 && forall i | 0 <= i <= m :: |xs[i]| == |ys[i]| == dim
  }

  /** The correction is normal to the set at the latest projection. */
  ghost predicate Normal(s: ConvexSet, x: Vec, y: Vec) {
    |x| == |y| == s.Dimension() && forall w: Vec | InSet(s, w) :: Dot(y, Sub(w, x)) <= 0.0
  }

  ghost predicate AllNormal(sets: seq<ConvexSet>, xs: seq<Vec>, ys: seq<Vec>)
    requires |xs| == |ys| == |sets| + 1
  {
    forall i | 1 <= i <= |sets| :: Normal(sets[i - 1], xs[i], ys[i])
  }

  /** |x-w|^2 + 2 * the pull of all corrections. */
  ghost function Potential(xs: seq<Vec>, ys: seq<Vec>, m: nat, x: Vec, w: Vec): real
    requires Shaped(xs, ys, m, |w|) && |x| == |w|
  {
    DistSq(x, w) + 2.0 * Pull(xs, ys, m, w)
  }

  lemma {:induction false} CorrectionsUpdate(ys: seq<Vec>, i: nat, y: Vec, k: nat, dim: nat)
    requires k < |ys| && 0 < i < |ys| && |y| == dim && forall l | 0 <= l < |ys| :: |ys[l]| == dim
    ensures Corrections(ys[i := y], k, dim) ==
            if i <= k then Add(Corrections(ys, k, dim), Sub(y, ys[i])) else Corrections(ys, k, dim)
  {
    if k > 0 {
      CorrectionsUpdate(ys, i, y, k - 1, dim);
      var a, b := Corrections(ys[i := y], k, dim),
        if i <= k then Add(Corrections(ys, k, dim), Sub(y, ys[i])) else Corrections(ys, k, dim);
      forall c | 0 <= c < dim ensures a[c] == b[c] {
      }
      assert a == b;
    }
  }

  lemma {:induction false} PullUpdate(xs: seq<Vec>, ys: seq<Vec>, i: nat, x: Vec, y: Vec, k: nat, w: Vec)
    requires k < |ys| == |xs| && 0 < i < |ys| && |y| == |x| == |w|
    requires forall l | 0 <= l < |ys| :: |ys[l]| == |xs[l]| == |w|
    ensures Pull(xs[i := x], ys[i := y], k, w) == Pull(xs, ys, k, w) +
            if i <= k then Dot(y, Sub(x, w)) - Dot(ys[i], Sub(xs[i], w)) else 0.0
  {
    if k > 0 {
      PullUpdate(xs, ys, i, x, y, k - 1, w);
    }
  }

  lemma {:induction false} PullIgnoresStart(xs: seq<Vec>, ys: seq<Vec>, x: Vec, k: nat, w: Vec)
    requires k < |ys| == |xs| && |x| == |w| && forall l | 0 <= l < |ys| :: |ys[l]| == |xs[l]| == |w|
    ensures Pull(xs[0 := x], ys, k, w) == Pull(xs, ys, k, w)
  {
    if k > 0 {
      PullIgnoresStart(xs, ys, x, k - 1, w);
    }
  }

  lemma {:induction false} NoCorrections(xs: seq<Vec>, ys: seq<Vec>, k: nat, w: Vec)
    requires k < |ys| == |xs| && forall l | 0 <= l < |ys| :: |xs[l]| == |ys[l]| == |w| && ys[l] == Zero(|w|)
    ensures Corrections(ys, k, |w|) == Zero(|w|) && Pull(xs, ys, k, w) == 0.0
  {
    if k > 0 {
      NoCorrections(xs, ys, k - 1, w);
      DotZero(Sub(xs[k], w), ys[k]);
      assert Add(Zero(|w|), Zero(|w|)) == Zero(|w|);
    }
  }

  /** Seen from a common point, every correction pulls outwards. */
  lemma {:induction false} PullNonNegative(sets: seq<ConvexSet>, xs: seq<Vec>, ys: seq<Vec>, k: nat, w: Vec)
    requires k <= |sets| && Shaped(xs, ys, |sets|, |w|) && AllNormal(sets, xs, ys) && InAll(sets, w)
    ensures Pull(xs, ys, k, w) >= 0.0
  {
    if k > 0 {
      PullNonNegative(sets, xs, ys, k - 1, w);
      assert Normal(sets[k - 1], xs[k], ys[k]);
      assert Sub(xs[k], w) == Scale(-1.0, Sub(w, xs[k]));
      DotScale(ys[k], -1.0, Sub(w, xs[k]));
    }
  }

  /** One projection: the potential falls by at least the square of the way that the iterate moves. */
  lemma StepDescends(s: ConvexSet, x: Vec, xi: Vec, yi: Vec, x': Vec, w: Vec)
    requires |x| == |xi| == |yi| == |x'| == |w| == s.Dimension()
    requires Normal(s, xi, yi) && Projection(s, Add(x, yi), x') && InSet(s, w)
    ensures DistSq(x', w) + 2.0 * Dot(Sub(Add(x, yi), x'), Sub(x', w)) + DistSq(x, x')
            <= DistSq(x, w) + 2.0 * Dot(yi, Sub(xi, w))
  {
    var g, v, u := Sub(x, x'), Sub(x', w), Sub(xi, x');
    Cosine(x, x', w);
    assert Sub(w, x') == Scale(-1.0, v);
    DotScale(g, -1.0, v);
    assert Sub(Add(x, yi), x') == Add(g, yi);
    DotAdd(v, g, yi);
    assert Sub(xi, w) == Add(u, v);
    DotAdd(yi, u, v);
    assert Sub(x', xi) == Scale(-1.0, u);
    DotScale(yi, -1.0, u);
    assert Dot(yi, Sub(x', xi)) <= 0.0;
  }

  /** n * s, as a sum. */
  ghost function Multiple(n: nat, s: real): real {
    if n == 0 then 0.0 else Multiple(n - 1, s) + s
  }

  lemma {:induction false} MultipleIsProduct(n: nat, r: real, s: real)
    requires r == n as real
    ensures Multiple(n, s) == r * s
  {
    if n > 0 {
      MultipleIsProduct(n - 1, r - 1.0, s);
    }
  }

  lemma {:induction false} NoMultiple(n: nat)
    ensures Multiple(n, 0.0) == 0.0
  {
    if n > 0 {
      NoMultiple(n - 1);
    }
  }

  /** |a+d|^2 <= (i+1)(s+|d|^2) when |a|^2 <= i*s: the way back to the start of a sweep is bounded by
      the steps of the sweep. */
  lemma SweepDistance(start: Vec, x: Vec, x': Vec, i: nat, i': nat, s: real, s': real)
    requires |start| == |x| == |x'| && s >= 0.0 && i' == i + 1 && s' == s + DistSq(x, x')
    requires DistSq(x, start) <= Multiple(i, s)
    ensures DistSq(x', start) <= Multiple(i', s')
  {
    var a, d := Sub(x, start), Sub(x', x);
    assert Sub(x', start) == Add(a, d);
    DotAdd(Add(a, d), a, d);
    DotAdd(a, a, d);
    DotAdd(d, a, d);
    DotCommutes(a, d);
    DistSymmetric(x, x');
    NormSqDefinite(a);
    NormSqDefinite(d);
    if i == 0 {
      DotZero(d, a);
    } else {
      SlantedBound(a, d, i, i', -(i as real), s, s');
    }
  }

  /** |a + t*d|^2 >= 0, by its products with a and d. */
  lemma SlantedNorm(a: Vec, d: Vec, t: real) returns (va: real, vd: real, vv: real)
    requires |a| == |d|
    ensures IsMix(va, 1.0, Dot(a, a), t, Dot(a, d)) && IsMix(vd, 1.0, Dot(a, d), t, Dot(d, d))
    ensures IsMix(vv, 1.0, va, t, vd) && vv >= 0.0
  {
    var v := Combine(1.0, a, t, d);
    NormSqDefinite(v);
    DotCommutes(a, d);
    DotCombine(v, 1.0, a, t, d);
    CombineDot(1.0, a, t, d, a);
    CombineDot(1.0, a, t, d, d);
    va, vd, vv := Dot(v, a), Dot(v, d), NormSq(v);
  }

  /** |a+d|^2, expanded, where t = -i. */
  lemma SlantedBound(a: Vec, d: Vec, i: nat, i': nat, t: real, s: real, s': real)
    requires |a| == |d| && i > 0 && i' == i + 1 && t == -(i as real)
    requires s' == s + NormSq(d) && NormSq(a) <= Multiple(i, s)
    ensures NormSq(a) + 2.0 * Dot(a, d) + NormSq(d) <= Multiple(i', s')
  {
    NormSqDefinite(a);
    NormSqDefinite(d);
    var va, vd, vv := SlantedNorm(a, d, t);
    SweepArithmetic(i, i', t, Dot(a, a), Dot(d, d), Dot(a, d), s, s', va, vd, vv);
  }

  lemma SweepArithmetic(i: nat, i': nat, t: real, aa: real, dd: real, ad: real,
                        s: real, s': real, va: real, vd: real, vv: real)
    requires i > 0 && i' == i + 1 && t == -(i as real) && s' == s + dd
    requires aa <= Multiple(i, s) && aa >= 0.0 && dd >= 0.0
    requires IsMix(va, 1.0, aa, t, ad) && IsMix(vd, 1.0, ad, t, dd) && IsMix(vv, 1.0, va, t, vd) && vv >= 0.0
    ensures aa + 2.0 * ad + dd <= Multiple(i', s')
  {
    var n := -t;
    MultipleIsProduct(i, n, s);
    MultipleIsProduct(i', n + 1.0, s');
    SweepInequality(n, aa, dd, ad, s, n * s, n * dd, n * ad);
    assert (n + 1.0) * s' == n * s + n * dd + s + dd;
  }

  lemma SweepInequality(n: real, aa: real, dd: real, ad: real, s: real, ns: real, nd: real, na: real)
    requires n >= 1.0 && aa <= ns && aa >= 0.0 && dd >= 0.0 && ns == n * s && nd == n * dd && na == n * ad
    requires aa - na + -n * (ad - nd) >= 0.0
    ensures aa + 2.0 * ad + dd <= ns + nd + s + dd
  {
    NonNegativeProduct(n, ns - aa, n * (ns - aa));
    var x := nd + ns - 2.0 * ad + s - aa;
    assert n * x == n * nd + n * (ns - aa) - 2.0 * na + ns;
    NonNegativeFactor(n, x);
  }

  // The state between two projections

  /** What has been taken from the point is kept in the corrections. */
  ghost predicate Conserved(sets: seq<ConvexSet>, point: Vec, xs: seq<Vec>, ys: seq<Vec>, x: Vec) {
    && Shaped(xs, ys, |sets|, |point|) && |x| == |point|
    && point == Add(x, Corrections(ys, |sets|, |point|))
  }

  /** And each correction is normal to its set. */
  ghost predicate Balanced(sets: seq<ConvexSet>, point: Vec, xs: seq<Vec>, ys: seq<Vec>, x: Vec) {
    Conserved(sets, point, xs, ys, x) && AllNormal(sets, xs, ys)
  }

  /** Towards every common point, the squared steps made so far have been gained. */
  ghost predicate Descended(sets: seq<ConvexSet>, point: Vec, xs: seq<Vec>, ys: seq<Vec>, x: Vec, steps: real)
    requires Shaped(xs, ys, |sets|, |point|) && |x| == |point|
  {
    forall w: Vec | |w| == |point| && InAll(sets, w) ::
      Potential(xs, ys, |sets|, x, w) + steps <= DistSq(point, w)
  }

  lemma Started(sets: seq<ConvexSet>, point: Vec, xs: seq<Vec>, ys: seq<Vec>)
    requires Shaped(xs, ys, |sets|, |point|) && forall s | s in sets :: s.Dimension() == |point|
    requires forall l | 0 <= l <= |sets| :: ys[l] == Zero(|point|)
    ensures Balanced(sets, point, xs, ys, point) && Descended(sets, point, xs, ys, point, 0.0)
  {
    NoCorrections(xs, ys, |sets|, point);
    assert Add(point, Zero(|point|)) == point;
    forall i, w: Vec | 1 <= i <= |sets| && InSet(sets[i - 1], w) ensures Dot(ys[i], Sub(w, xs[i])) <= 0.0 {
      DotZero(Sub(w, xs[i]), ys[i]);
    }
    forall w: Vec | |w| == |point| && InAll(sets, w)
      ensures Potential(xs, ys, |sets|, point, w) <= DistSq(point, w)
    {
      NoCorrections(xs, ys, |sets|, w);
    }
  }

  /** m + 1 vectors each: the projections uninitialised, the corrections zero. */
  method EmptyLists(m: nat, dim: nat) returns (xv: seq<Vec>, yv: seq<Vec>)
    ensures Shaped(xv, yv, m, dim) && forall l | 0 <= l <= m :: yv[l] == Zero(dim)
  {
    xv, yv := [], [];
    for i := 0 to m + 1
      invariant |xv| == |yv| == i && forall l | 0 <= l < i :: |xv[l]| == dim && yv[l] == Zero(dim)
    {
      assert |Zero(dim)| == dim;
      var uninitialised: Vec :| |uninitialised| == dim;
      xv, yv := xv + [uninitialised], yv + [Zero(dim)];
    }
  }

  lemma StartIgnored(sets: seq<ConvexSet>, point: Vec, xs: seq<Vec>, ys: seq<Vec>, x: Vec, x0: Vec, steps: real)
    requires Balanced(sets, point, xs, ys, x) && Descended(sets, point, xs, ys, x, steps) && |x0| == |point|
    ensures Balanced(sets, point, xs[0 := x0], ys, x) && Descended(sets, point, xs[0 := x0], ys, x, steps)
  {
    forall i | 1 <= i <= |sets| ensures Normal(sets[i - 1], xs[0 := x0][i], ys[i]) {
      assert Normal(sets[i - 1], xs[i], ys[i]);
    }
    forall w: Vec | |w| == |point| && InAll(sets, w)
      ensures Potential(xs[0 := x0], ys, |sets|, x, w) + steps <= DistSq(point, w)
    {
      PullIgnoresStart(xs, ys, x0, |sets|, w);
    }
  }

  /** The step that the inner loop makes for set i - 1, wherever it leads to. */
  lemma StepConserves(sets: seq<ConvexSet>, point: Vec, xs: seq<Vec>, ys: seq<Vec>, x: Vec, i: nat, x': Vec, y': Vec)
    requires Conserved(sets, point, xs, ys, x) && 1 <= i <= |sets|
    requires |x'| == |x| && y' == Sub(Add(x, ys[i]), x')
    ensures Conserved(sets, point, xs[i := x'], ys[i := y'], x')
  {
    CorrectionsUpdate(ys, i, y', |sets|, |point|);
    var c := Corrections(ys[i := y'], |sets|, |point|);
    forall k | 0 <= k < |point| ensures point[k] == Add(x', c)[k] {
      assert point[k] == x[k] + Corrections(ys, |sets|, |point|)[k];
    }
    assert point == Add(x', c);
  }

  /** If it leads to the projection, the new correction is normal to the set. */
  lemma StepBalances(sets: seq<ConvexSet>, point: Vec, xs: seq<Vec>, ys: seq<Vec>, x: Vec, i: nat, x': Vec, y': Vec)
    requires Balanced(sets, point, xs, ys, x) && 1 <= i <= |sets|
    requires Projection(sets[i - 1], Add(x, ys[i]), x') && y' == Sub(Add(x, ys[i]), x')
    ensures Balanced(sets, point, xs[i := x'], ys[i := y'], x')
  {
    StepConserves(sets, point, xs, ys, x, i, x', y');
    var xs', ys' := xs[i := x'], ys[i := y'];
    forall l | 1 <= l <= |sets| ensures Normal(sets[l - 1], xs'[l], ys'[l]) {
      assert Normal(sets[l - 1], xs[l], ys[l]);
    }
  }

  lemma StepGains(sets: seq<ConvexSet>, point: Vec, xs: seq<Vec>, ys: seq<Vec>, x: Vec, i: nat, x': Vec, y': Vec,
                  steps: real, steps': real)
    requires Balanced(sets, point, xs, ys, x) && 1 <= i <= |sets| && Descended(sets, point, xs, ys, x, steps)
    requires |x| == |x'| && steps' == steps + DistSq(x, x')
    requires Projection(sets[i - 1], Add(x, ys[i]), x') && y' == Sub(Add(x, ys[i]), x')
    ensures Shaped(xs[i := x'], ys[i := y'], |sets|, |point|)
    ensures Descended(sets, point, xs[i := x'], ys[i := y'], x', steps')
  {
    forall w: Vec | |w| == |point| && InAll(sets, w)
      ensures Potential(xs[i := x'], ys[i := y'], |sets|, x', w) + steps' <= DistSq(point, w)
    {
      assert Normal(sets[i - 1], xs[i], ys[i]);
      StepDescends(sets[i - 1], x, xs[i], ys[i], x', w);
      PullUpdate(xs, ys, i, x', y', |sets|, w);
      assert Potential(xs, ys, |sets|, x, w) + steps <= DistSq(point, w);
    }
  }

  lemma NotFarther(sets: seq<ConvexSet>, point: Vec, xs: seq<Vec>, ys: seq<Vec>, x: Vec, steps: real, w: Vec)
    requires Balanced(sets, point, xs, ys, x) && Descended(sets, point, xs, ys, x, steps)
    requires |w| == |point| && InAll(sets, w)
    ensures DistSq(x, w) + steps <= DistSq(point, w)
    ensures steps <= DistSq(point, w)
  {
    PullNonNegative(sets, xs, ys, |sets|, w);
    assert Potential(xs, ys, |sets|, x, w) + steps <= DistSq(point, w);
    NormSqDefinite(Sub(x, w));
  }

  lemma AllApproach(sets: seq<ConvexSet>, point: Vec, xs: seq<Vec>, ys: seq<Vec>, x: Vec, steps: real)
    requires Descends(sets, point, xs, ys, x, steps) && steps >= 0.0
    ensures Nearer(sets, point, x)
  {
    if AllProper(sets) {
      forall w: Vec | |w| == |point| && InAll(sets, w) ensures DistSq(x, w) <= DistSq(point, w) {
        NotFarther(sets, point, xs, ys, x, steps, w);
      }
    }
  }

  /** Conservation whatever the sets, and where each has its projection, normal corrections and the descent. */
  ghost predicate Descends(sets: seq<ConvexSet>, point: Vec, xs: seq<Vec>, ys: seq<Vec>, x: Vec, steps: real) {
    && Conserved(sets, point, xs, ys, x)
    && (AllProper(sets) ==> AllNormal(sets, xs, ys) && Descended(sets, point, xs, ys, x, steps))
  }

  /** The first k projections of a sweep are in their sets, and no farther from any common point. */
  ghost predicate Reached(sets: seq<ConvexSet>, point: Vec, xs: seq<Vec>, k: nat)
    requires k <= |sets| && |xs| == |sets| + 1
  {
    forall l | 1 <= l <= k :: InSet(sets[l - 1], xs[l]) && Nearer(sets, point, xs[l])
  }

  lemma OneMoreReached(sets: seq<ConvexSet>, point: Vec, xs: seq<Vec>, xs': seq<Vec>, k: nat, i: nat)
    requires i == k + 1 && i <= |sets| && |xs| == |xs'| == |sets| + 1
    requires Reached(sets, point, xs, k) && forall l | 1 <= l <= k :: xs'[l] == xs[l]
    requires InSet(sets[i - 1], xs'[i]) && Nearer(sets, point, xs'[i])
    ensures Reached(sets, point, xs', i)
  {
    forall l | 1 <= l <= i ensures InSet(sets[l - 1], xs'[l]) && Nearer(sets, point, xs'[l]) {
      assert l <= k ==> xs'[l] == xs[l];
    }
  }

  /** The state of a sweep that began at `start`, after k projections, the last of which gave x. */
  ghost predicate Sweeping(sets: seq<ConvexSet>, point: Vec, xs: seq<Vec>, ys: seq<Vec>, start: Vec, x: Vec, k: nat,
                           gained: real, steps: real)
  {
    && Descends(sets, point, xs, ys, x, steps)
    && k <= |sets| && |start| == |point| && x == (if k == 0 then start else xs[k])
    && xs[|sets|] == (if k == |sets| then x else start)
    && DistSq(x, start) <= Multiple(k, gained)
    && Reached(sets, point, xs, k)
  }

  lemma SweepBegins(sets: seq<ConvexSet>, point: Vec, xs: seq<Vec>, ys: seq<Vec>, start: Vec, steps: real)
    requires Descends(sets, point, xs, ys, start, steps) && xs[|sets|] == start
    ensures Sweeping(sets, point, xs, ys, start, start, 0, 0.0, steps)
  {
    assert IsZero(Sub(start, start));
    NormSqDefinite(Sub(start, start));
  }

  lemma SweepEnds(sets: seq<ConvexSet>, point: Vec, xs: seq<Vec>, ys: seq<Vec>, start: Vec, x: Vec,
                  gained: real, steps: real)
    requires Sweeping(sets, point, xs, ys, start, x, |sets|, gained, steps) && steps >= 0.0
    ensures Sweeping(sets, point, xs, ys, x, x, 0, 0.0, steps)
    ensures Nearer(sets, point, x) && DistSq(x, start) >= 0.0
  {
    SweepBegins(sets, point, xs, ys, x, steps);
    AllApproach(sets, point, xs, ys, x, steps);
    NormSqDefinite(Sub(x, start));
  }

  lemma StepStart(sets: seq<ConvexSet>, point: Vec, xs: seq<Vec>, ys: seq<Vec>, start: Vec, x: Vec, k: nat, i: nat,
                  gained: real, steps: real)
    requires Sweeping(sets, point, xs, ys, start, x, k, gained, steps) && i == k + 1 && i <= |sets|
    ensures xs[0 := xs[|sets|]][i - 1] == x
  {
    var xs0 := xs[0 := xs[|sets|]];
    assert xs0[k] == x;
  }

  lemma StepKeepsDescending(sets: seq<ConvexSet>, point: Vec, xs: seq<Vec>, ys: seq<Vec>, xs0: seq<Vec>, x: Vec,
                            i: nat, p: Vec, steps: real, steps': real)
    requires Descends(sets, point, xs, ys, x, steps) && 1 <= i <= |sets| && xs0 == xs[0 := xs[|sets|]]
    requires |p| == |x| && steps' == steps + DistSq(x, p)
    requires sets[i - 1].Proper() ==> Projection(sets[i - 1], Add(x, ys[i]), p)
    ensures Descends(sets, point, xs0[i := p], ys[i := Sub(Add(x, ys[i]), p)], p, steps')
  {
    var y := Sub(Add(x, ys[i]), p);
    StepConserves(sets, point, xs0, ys, x, i, p, y);
    if AllProper(sets) {
      StartIgnored(sets, point, xs, ys, x, xs[|sets|], steps);
      StepBalances(sets, point, xs0, ys, x, i, p, y);
      StepGains(sets, point, xs0, ys, x, i, p, y, steps, steps');
    }
  }

  lemma StepKeepsSweeping(sets: seq<ConvexSet>, point: Vec, xs: seq<Vec>, ys: seq<Vec>, xs0: seq<Vec>, start: Vec,
                          x: Vec, k: nat, i: nat, p: Vec, gained: real, steps: real, gained': real, steps': real)
    requires Sweeping(sets, point, xs, ys, start, x, k, gained, steps) && i == k + 1 && i <= |sets|
    requires 0.0 <= gained <= steps && xs0 == xs[0 := xs[|sets|]]
    requires |p| == |x| && InSet(sets[i - 1], p)
    requires sets[i - 1].Proper() ==> Projection(sets[i - 1], Add(x, ys[i]), p)
    requires gained' == gained + DistSq(x, p) && steps' == steps + DistSq(x, p)
    ensures Sweeping(sets, point, xs0[i := p], ys[i := Sub(Add(x, ys[i]), p)], start, p, i, gained', steps')
  {
    var y := Sub(Add(x, ys[i]), p);
    StepKeepsDescending(sets, point, xs, ys, xs0, x, i, p, steps, steps');
    SweepDistance(start, x, p, k, i, gained, gained');
    NormSqDefinite(Sub(x, p));
    var xs' := xs0[i := p];
    AllApproach(sets, point, xs', ys[i := y], p, steps');
    assert xs'[i] == p;
    OneMoreReached(sets, point, xs, xs', k, i);
  }

  // What the sweeps do

  datatype Lists = Lists(xs: seq<Vec>, ys: seq<Vec>)

  /** One projection: the correction made before is added, and what the projection takes away is the new one. */
  ghost predicate Moved(s: ConvexSet, from: Vec, y0: Vec, x: Vec, y: Vec) {
    && |from| == |y0| == |x| == |y| && LeadsTo(s, Add(from, y0), x)
    && y == Sub(Add(from, y0), x)
  }

  /** The first k projections of a sweep have been made, each from where the one before it led. */
  ghost predicate Swept(sets: seq<ConvexSet>, dim: nat, xs: seq<Vec>, ys: seq<Vec>, before: seq<Vec>, k: nat) {
    && Shaped(xs, ys, |sets|, dim) && Shaped(xs, before, |sets|, dim) && k <= |sets|
    && (forall l | 1 <= l <= k :: Moved(sets[l - 1], xs[l - 1], before[l], xs[l], ys[l]))
    && forall l | k < l <= |sets| :: ys[l] == before[l]
  }

  lemma SweptNext(sets: seq<ConvexSet>, dim: nat, xs: seq<Vec>, ys: seq<Vec>, before: seq<Vec>, k: nat, i: nat,
                  p: Vec, y: Vec)
    requires Swept(sets, dim, xs, ys, before, k) && i == k + 1 && i <= |sets| && |p| == |y| == dim
    requires Moved(sets[i - 1], xs[k], ys[i], p, y)
    ensures Swept(sets, dim, xs[i := p], ys[i := y], before, i)
  {
    var xs', ys' := xs[i := p], ys[i := y];
    forall l | 1 <= l <= i ensures Moved(sets[l - 1], xs'[l - 1], before[l], xs'[l], ys'[l]) {
      if l < i {
        assert Moved(sets[l - 1], xs[l - 1], before[l], xs[l], ys[l]);
      }
    }
  }

  /** A whole sweep, from where the last one led. */
  ghost predicate IsSweep(sets: seq<ConvexSet>, dim: nat, a: Lists, b: Lists) {
    && Shaped(a.xs, a.ys, |sets|, dim) && Swept(sets, dim, b.xs, b.ys, a.ys, |sets|)
    && b.xs[0] == a.xs[|sets|]
  }

  /** Sweeps one after the other, the first from the point without corrections. */
  ghost predicate IsRun(sets: seq<ConvexSet>, point: Vec, run: seq<Lists>) {
    && run != [] && Shaped(run[0].xs, run[0].ys, |sets|, |point|)
    && run[0].xs[|sets|] == point && (forall l | 0 <= l <= |sets| :: run[0].ys[l] == Zero(|point|))
    && forall j | 0 < j < |run| :: IsSweep(sets, |point|, run[j - 1], run[j])
  }

  /** The sweep has moved the iterate by less than the threshold. */
  ghost predicate Short(a: Lists, b: Lists, m: nat, threshold: real, sqrt: real -> real) {
    && m < |a.xs| && m < |b.xs| && |a.xs[m]| == |b.xs[m]|
    && sqrt(DistSq(b.xs[m], a.xs[m])) < threshold
  }

  ghost predicate NoneShort(run: seq<Lists>, m: nat, threshold: real, sqrt: real -> real) {
    forall j | 0 < j < |run| :: !Short(run[j - 1], run[j], m, threshold, sqrt)
  }

  lemma RunLonger(sets: seq<ConvexSet>, point: Vec, run: seq<Lists>, b: Lists)
    requires IsRun(sets, point, run) && IsSweep(sets, |point|, run[|run| - 1], b)
    ensures IsRun(sets, point, run + [b])
  {
    var run' := run + [b];
    forall j | 0 < j < |run'| ensures IsSweep(sets, |point|, run'[j - 1], run'[j]) {
      assert j < |run| ==> IsSweep(sets, |point|, run[j - 1], run[j]);
    }
  }

  lemma NoneShortLonger(run: seq<Lists>, b: Lists, m: nat, threshold: real, sqrt: real -> real)
    requires run != [] && NoneShort(run, m, threshold, sqrt) && !Short(run[|run| - 1], b, m, threshold, sqrt)
    ensures NoneShort(run + [b], m, threshold, sqrt)
  {
    var run' := run + [b];
    forall j | 0 < j < |run'| ensures !Short(run'[j - 1], run'[j], m, threshold, sqrt) {
      assert j < |run| ==> !Short(run[j - 1], run[j], m, threshold, sqrt);
    }
  }

  /** A run of so many sweeps, none of them short, that has led to the lists and the result. */
  ghost predicate Unfinished(sets: seq<ConvexSet>, point: Vec, run: seq<Lists>, iter: int, lists: Lists, result: Vec,
                             threshold: real, sqrt: real -> real)
  {
    && IsRun(sets, point, run) && |run| == iter + 1 && run[iter] == lists
    && NoneShort(run, |sets|, threshold, sqrt)
    && |sets| < |lists.xs| && result == lists.xs[|sets|]
  }

  /** All sweeps that are allowed have been made. */
  ghost predicate Exhausted(sets: seq<ConvexSet>, point: Vec, run: seq<Lists>, max: int, lists: Lists, result: Vec,
                            threshold: real, sqrt: real -> real)
  {
    Unfinished(sets, point, run, |run| - 1, lists, result, threshold, sqrt) && |run| == if max < 0 then 1 else max + 1
  }

  lemma NoneLeft(sets: seq<ConvexSet>, point: Vec, run: seq<Lists>, iter: int, lists: Lists, result: Vec,
                 threshold: real, sqrt: real -> real, max: int)
    requires Unfinished(sets, point, run, iter, lists, result, threshold, sqrt) && iter == if max < 0 then 0 else max
    ensures Exhausted(sets, point, run, max, lists, result, threshold, sqrt)
  {
  }

  /** A run whose last sweep only was short; the result is where that began. */
  ghost predicate Settled(sets: seq<ConvexSet>, point: Vec, run: seq<Lists>, max: int, lists: Lists, result: Vec,
                          threshold: real, sqrt: real -> real)
  {
    && IsRun(sets, point, run) && 1 < |run| <= max + 1 && run[|run| - 1] == lists
    && NoneShort(run[..|run| - 1], |sets|, threshold, sqrt)
    && Short(run[|run| - 2], lists, |sets|, threshold, sqrt)
    && |sets| < |run[|run| - 2].xs| && lists.xs != [] && result == run[|run| - 2].xs[|sets|] == lists.xs[0]
  }

  lemma OneMoreSweep(sets: seq<ConvexSet>, point: Vec, run: seq<Lists>, iter: int, a: Lists, result: Vec,
                     threshold: real, sqrt: real -> real, b: Lists, close: bool, max: int)
    requires Unfinished(sets, point, run, iter, a, result, threshold, sqrt) && 0 <= iter < max
    requires IsSweep(sets, |point|, a, b) && (close <==> sqrt(DistSq(b.xs[|sets|], result)) < threshold)
    ensures close ==> Settled(sets, point, run + [b], max, b, result, threshold, sqrt)
    ensures !close ==> Unfinished(sets, point, run + [b], iter + 1, b, b.xs[|sets|], threshold, sqrt)
  {
    RunLonger(sets, point, run, b);
    if close {
      assert (run + [b])[..|run|] == run;
    } else {
      NoneShortLonger(run, b, |sets|, threshold, sqrt);
    }
  }

  /** The body of the inner loop, for the i-th set. */
  method Step(sets: seq<ConvexSet>, point: Vec, xv: seq<Vec>, yv: seq<Vec>, i: nat, ghost done: nat,
              sqrt: real -> real, ghost before: seq<Vec>, ghost start: Vec, ghost x: Vec, ghost gained: real,
              ghost steps: real)
    returns (xv': seq<Vec>, yv': seq<Vec>, ghost x': Vec, ghost gained': real, ghost steps': real)
    requires i == done + 1 && i <= |sets| && sets[i - 1].Dimension() == |point| && sets[i - 1].HasFormula()
    requires IsSquareRoot(sqrt) && 0.0 <= gained <= steps
    requires Sweeping(sets, point, xv, yv, start, x, done, gained, steps)
    requires Swept(sets, |point|, xv, yv, before, done) && (done > 0 ==> xv[0] == start)
    ensures gained' >= gained && steps' - gained' == steps - gained
    ensures Sweeping(sets, point, xv', yv', start, x', i, gained', steps')
    ensures Swept(sets, |point|, xv', yv', before, i) && xv'[0] == start
  {
    xv' := xv[0 := xv[|sets|]];
    StepStart(sets, point, xv, yv, start, x, done, i, gained, steps);
    var z := Add(xv'[i - 1], yv[i]);
    var p := Project(sets[i - 1], z, sqrt);
    x', gained', steps' := p, gained + DistSq(x, p), steps + DistSq(x, p);
    StepKeepsSweeping(sets, point, xv, yv, xv', start, x, done, i, p, gained, steps, gained', steps');
    NormSqDefinite(Sub(x, p));
    assert Swept(sets, |point|, xv', yv, before, done) by {
      assert done > 0 ==> xv' == xv;
    }
    SweptNext(sets, |point|, xv', yv, before, done, i, p, Sub(z, p));
    xv', yv' := xv'[i := p], yv[i := Sub(z, p)];
  }

  /** One sweep over all sets. */
  method Sweep(sets: seq<ConvexSet>, point: Vec, xv: seq<Vec>, yv: seq<Vec>, sqrt: real -> real,
               ghost start: Vec, ghost steps: real)
    returns (xv': seq<Vec>, yv': seq<Vec>, ghost x: Vec, ghost gained: real, ghost steps': real)
    requires forall s | s in sets :: s.Dimension() == |point| && s.HasFormula()
    requires IsSquareRoot(sqrt) && steps >= 0.0 && Sweeping(sets, point, xv, yv, start, start, 0, 0.0, steps)
    ensures gained >= 0.0 && steps' == steps + gained
    ensures Sweeping(sets, point, xv', yv', start, x, |sets|, gained, steps')
    ensures IsSweep(sets, |point|, Lists(xv, yv), Lists(xv', yv'))
  {
    xv', yv', x, gained, steps' := xv, yv, start, 0.0, steps;
    var i := 1;
    ghost var done := 0;
    while i <= |sets|
      invariant 1 <= i <= |sets| + 1 && done == i - 1
      invariant gained >= 0.0 && steps' == steps + gained
      invariant Sweeping(sets, point, xv', yv', start, x, done, gained, steps')
      invariant Swept(sets, |point|, xv', yv', yv, done) && (if done > 0 then xv'[0] == start else xv' == xv)
    {
      xv', yv', x, gained, steps' := Step(sets, point, xv', yv', i, done, sqrt, yv, start, x, gained, steps');
      done := i;
      i := i + 1;
    }
    assert done == |sets|;
  }

  /** max sweeps that all moved the result by the threshold fit within m times the squared distance. */
  ghost predicate IterationBound(max: real, threshold: real, m: real, dist: real) {
    max * (threshold * threshold) <= m * dist
  }

  /** The body of the outer loop, up to its convergence test. */
  method SweepAndTest(sets: seq<ConvexSet>, point: Vec, xv: seq<Vec>, yv: seq<Vec>, result: Vec, threshold: real,
                      sqrt: real -> real, ghost steps: real, ghost square: real)
    returns (xv': seq<Vec>, yv': seq<Vec>, close: bool, ghost x: Vec, ghost steps': real)
    requires forall s | s in sets :: s.Dimension() == |point| && s.HasFormula()
    requires IsSquareRoot(sqrt) && steps >= 0.0 && Sweeping(sets, point, xv, yv, result, result, 0, 0.0, steps)
    requires square == threshold * threshold
    ensures steps' >= steps && Sweeping(sets, point, xv', yv', x, x, 0, 0.0, steps')
    ensures Reached(sets, point, xv', |sets|) && Nearer(sets, point, x) && x == xv'[|sets|]
    ensures IsSweep(sets, |point|, Lists(xv, yv), Lists(xv', yv'))
    ensures close <==> sqrt(DistSq(xv'[|sets|], result)) < threshold
    ensures !close && threshold >= 0.0 ==> Multiple(|sets|, steps) + square <= Multiple(|sets|, steps')
  {
    ghost var gained;
    xv', yv', x, gained, steps' := Sweep(sets, point, xv, yv, sqrt, result, steps);
    SweepEnds(sets, point, xv', yv', result, x, gained, steps');
    close := sqrt(DistSq(xv'[|sets|], result)) < threshold;
    if !close && threshold >= 0.0 {
      LongSweep(sqrt, threshold, square, DistSq(x, result));
      MultipleAdds(|sets|, steps, gained, steps');
    }
  }

  /** dykstraProjectionAlgorithm. The two lists that the routine keeps to itself are returned as well, and its run.
      Exactly the last sweep may be a short one, and then the result is where that sweep began. */
  method Dykstra(sets: seq<ConvexSet>, point: Vec, threshold: real, maxIterations: int, sqrt: real -> real)
    returns (converged: bool, result: Vec, xv: seq<Vec>, yv: seq<Vec>, ghost run: seq<Lists>)
    requires forall s | s in sets :: s.Dimension() == |point| && s.HasFormula()
    requires IsSquareRoot(sqrt)
    ensures if converged then Settled(sets, point, run, maxIterations, Lists(xv, yv), result, threshold, sqrt)
            else Exhausted(sets, point, run, maxIterations, Lists(xv, yv), result, threshold, sqrt)
    ensures Shaped(xv, yv, |sets|, |point|)
    ensures Conserved(sets, point, xv, yv, xv[|sets|]) && (AllProper(sets) ==> AllNormal(sets, xv, yv))
    ensures maxIterations > 0 ==> Reached(sets, point, xv, |sets|)
    ensures Nearer(sets, point, xv[|sets|]) && Nearer(sets, point, result)
    ensures converged ==> maxIterations > 0 && sqrt(DistSq(xv[|sets|], result)) < threshold
    ensures !converged ==> result == xv[|sets|]
    ensures !converged && threshold >= 0.0 ==> FarAway(sets, point, maxIterations as real, threshold)
  {
    var m := |sets|;
    xv, yv := EmptyLists(m, |point|);
    converged := false;
    xv := xv[m := point];
    result := point;
    run := [Lists(xv, yv)];
    Started(sets, point, xv, yv);
    SweepBegins(sets, point, xv, yv, point, 0.0);
    AllApproach(sets, point, xv, yv, point, 0.0);
    NoMultiple(m);
    var iter := 0;
    ghost var steps, square := 0.0, threshold * threshold;
    while iter < maxIterations
      invariant 0 <= iter && (iter <= maxIterations || (maxIterations < 0 && iter == 0)) && steps >= 0.0
      invariant Unfinished(sets, point, run, iter, Lists(xv, yv), result, threshold, sqrt)
      invariant Sweeping(sets, point, xv, yv, result, result, 0, 0.0, steps)
      invariant Nearer(sets, point, result) && (iter > 0 ==> Reached(sets, point, xv, m))
      invariant threshold >= 0.0 ==> Multiple(iter, square) <= Multiple(m, steps)
    {
      ghost var x;
      ghost var last := Lists(xv, yv);
      xv, yv, converged, x, steps := SweepAndTest(sets, point, xv, yv, result, threshold, sqrt, steps, square);
      OneMoreSweep(sets, point, run, iter, last, result, threshold, sqrt, Lists(xv, yv), converged, maxIterations);
      run := run + [Lists(xv, yv)];
      if converged {
        break;
      }
      result := xv[m];
      iter := iter + 1;
    }
    if !converged {
      NoneLeft(sets, point, run, iter, Lists(xv, yv), result, threshold, sqrt, maxIterations);
    }
    if !converged && threshold >= 0.0 {
      AllSweepsLong(sets, point, xv, yv, xv[m], maxIterations as real, iter, threshold, square, steps);
    }
  }

  /** Where each set has its projection, no common point is near when every sweep was long. */
  ghost predicate FarAway(sets: seq<ConvexSet>, point: Vec, max: real, threshold: real) {
    AllProper(sets) ==> forall w: Vec | |w| == |point| && InAll(sets, w) ::
      IterationBound(max, threshold, |sets| as real, DistSq(point, w))
  }

  lemma AllSweepsLong(sets: seq<ConvexSet>, point: Vec, xs: seq<Vec>, ys: seq<Vec>, x: Vec, max: real, iter: nat,
                      threshold: real, square: real, steps: real)
    requires Descends(sets, point, xs, ys, x, steps)
    requires max <= iter as real && square == threshold * threshold
    requires Multiple(iter, square) <= Multiple(|sets|, steps)
    ensures FarAway(sets, point, max, threshold)
  {
    if AllProper(sets) {
      forall w: Vec | |w| == |point| && InAll(sets, w)
        ensures IterationBound(max, threshold, |sets| as real, DistSq(point, w))
      {
        NotFarther(sets, point, xs, ys, x, steps, w);
        NeverConverged(max, iter, threshold, square, |sets|, |sets| as real, steps, DistSq(point, w));
      }
    }
  }

  lemma LongSweep(sqrt: real -> real, threshold: real, square: real, dist: real)
    requires IsSquareRoot(sqrt) && dist >= 0.0
    requires 0.0 <= threshold <= sqrt(dist) && square == threshold * threshold
    ensures square <= dist
  {
    assert IsRootOf(sqrt(dist), dist);
    SquareMonotone(threshold, sqrt(dist));
  }

  lemma {:induction false} MultipleAdds(n: nat, s: real, t: real, sum: real)
    requires sum == s + t
    ensures Multiple(n, sum) == Multiple(n, s) + Multiple(n, t)
  {
    if n > 0 {
      MultipleAdds(n - 1, s, t, sum);
    }
  }

  lemma NeverConverged(max: real, iter: nat, threshold: real, square: real, m: nat, rm: real, steps: real, dist: real)
    requires max <= iter as real && square == threshold * threshold && rm == m as real
    requires Multiple(iter, square) <= Multiple(m, steps) && steps <= dist
    ensures IterationBound(max, threshold, rm, dist)
  {
    MultipleIsProduct(iter, iter as real, square);
    MultipleIsProduct(m, rm, steps);
    SquarePositive(threshold, square);
    ProductChain(max, iter as real, square, rm, steps, dist);
  }

  lemma ProductChain(max: real, iter: real, square: real, m: real, steps: real, dist: real)
    requires max <= iter && square >= 0.0 && m >= 0.0 && steps <= dist && iter * square <= m * steps
    ensures max * square <= m * dist
  {
    NonNegativeProduct(iter - max, square, (iter - max) * square);
    NonNegativeProduct(m, dist - steps, m * (dist - steps));
  }

  // What the corrections certify

  /** The point minus the last projection is the sum of the corrections, so its product with w - x is what
      the corrections pull at w less what they pull at x. */
  lemma {:induction false} CorrectionsPull(xs: seq<Vec>, ys: seq<Vec>, k: nat, x: Vec, w: Vec)
    requires k < |ys| == |xs| && |x| == |w| && forall l | 0 <= l < |ys| :: |ys[l]| == |xs[l]| == |w|
    ensures Dot(Corrections(ys, k, |w|), Sub(w, x)) == Pull(xs, ys, k, x) - Pull(xs, ys, k, w)
  {
    var d := Sub(w, x);
    if k == 0 {
      DotZero(d, Zero(|w|));
    } else {
      CorrectionsPull(xs, ys, k - 1, x, w);
      var c := Corrections(ys, k - 1, |w|);
      DotAdd(d, c, ys[k]);
      DotCommutes(d, Add(c, ys[k]));
      DotCommutes(d, c);
      DotCommutes(d, ys[k]);
      var u, v := Sub(xs[k], x), Sub(xs[k], w);
      forall l | 0 <= l < |w| ensures d[l] == Sub(u, v)[l] {
      }
      assert d == Sub(u, v);
      DotSub(ys[k], u, v);
    }
  }

  /** However the run ended: the angle at the last projection is bounded by the corrections' pull. */
  lemma Certificate(sets: seq<ConvexSet>, point: Vec, xs: seq<Vec>, ys: seq<Vec>, x: Vec, w: Vec)
    requires Balanced(sets, point, xs, ys, x) && |w| == |point| && InAll(sets, w)
    ensures Dot(Sub(point, x), Sub(w, x)) <= Pull(xs, ys, |sets|, x)
  {
    var c := Corrections(ys, |sets|, |point|);
    forall k | 0 <= k < |point| ensures Sub(point, x)[k] == c[k] {
      assert point[k] == Add(x, c)[k];
    }
    assert Sub(point, x) == c;
    CorrectionsPull(xs, ys, |sets|, x, w);
    PullNonNegative(sets, xs, ys, |sets|, w);
  }

  lemma {:induction false} AgreementNoPull(xs: seq<Vec>, ys: seq<Vec>, k: nat, x: Vec)
    requires k < |ys| == |xs| && forall l | 0 <= l < |ys| :: |ys[l]| == |xs[l]| == |x|
    requires forall l | 1 <= l <= k :: xs[l] == x
    ensures Pull(xs, ys, k, x) == 0.0
  {
    if k > 0 {
      AgreementNoPull(xs, ys, k - 1, x);
      assert IsZero(Sub(x, x));
      DotZero(ys[k], Sub(x, x));
    }
  }

  /** When the projections of a sweep agree, they are the nearest point of the intersection. */
  lemma AgreementIsProjection(sets: seq<ConvexSet>, point: Vec, xs: seq<Vec>, ys: seq<Vec>, x: Vec, w: Vec)
    requires Balanced(sets, point, xs, ys, x)
    requires forall i | 1 <= i <= |sets| :: xs[i] == x && InSet(sets[i - 1], xs[i])
    requires |w| == |point| && InAll(sets, w)
    ensures InAll(sets, x)
    ensures Dot(Sub(point, x), Sub(w, x)) <= 0.0 && DistSq(point, x) <= DistSq(point, w)
    ensures DistSq(point, w) <= DistSq(point, x) ==> w == x
  {
    forall i | 0 <= i < |sets| ensures InSet(sets[i], x) {
      assert xs[i + 1] == x;
    }
    Certificate(sets, point, xs, ys, x, w);
    AgreementNoPull(xs, ys, |sets|, x);
    Cosine(point, x, w);
    NormSqDefinite(Sub(x, w));
    if w != x {
      var i :| 0 <= i < |w| && w[i] != x[i];
      assert Sub(x, w)[i] != 0.0;
    }
  }
}
