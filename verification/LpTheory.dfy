/** What the incremental linear program means, and why one step of it is right.

    A half-space is a homogeneous vector h, and x is in it when h.x >= 0. The objective is the
    ratio n.x / d.x. Everything below holds in every dimension. */
module LpTheory {
  import opened Vectors
  import opened Elimination

  ghost predicate Feasible(hs: seq<Vec>, js: set<int>, x: Vec) {
    forall j | j in js :: 0 <= j < |hs| && |hs[j]| == |x| && Dot(hs[j], x) >= 0.0
  }

  /** p/q <= r/s, without the divisions. */
  ghost predicate RatioAtMost(p: real, q: real, r: real, s: real) {
    p * s <= r * q
  }

  /** n.o/d.o is at most n.x/d.x, without the divisions. */
  ghost predicate NoWorse(n: Vec, d: Vec, o: Vec, x: Vec)
    requires |n| == |d| == |o| == |x|
  {
    RatioAtMost(Dot(n, o), Dot(d, o), Dot(n, x), Dot(d, x))
  }

  /** No feasible point with a positive denominator beats `o`. */
  ghost predicate Optimal(n: Vec, d: Vec, hs: seq<Vec>, js: set<int>, o: Vec)
    requires |n| == |d| == |o|
  {
    forall x: Vec | |x| == |o| && Feasible(hs, js, x) && Dot(d, x) > 0.0 :: NoWorse(n, d, o, x)
  }

  /** No point at all with a positive denominator beats `o`. */
  ghost predicate Minimal(n: Vec, d: Vec, o: Vec)
    requires |n| == |d| == |o|
  {
    forall x: Vec | |x| == |o| && Dot(d, x) > 0.0 :: NoWorse(n, d, o, x)
  }

  /** No feasible point is strictly inside half-space 0. */
  ghost predicate Empty(hs: seq<Vec>, js: set<int>, w: nat)
    requires |hs| > 0 && |hs[0]| == w
  {
    forall x: Vec | |x| == w && Feasible(hs, js, x) :: Dot(hs[0], x) <= 0.0
  }

  datatype Status = INFEASIBLE | MINIMUM | UNBOUNDED | AMBIGUOUS

  /** What a solver's answer means for the half-spaces `js`, among them half-space 0. */
  ghost predicate Solved(status: Status, n: Vec, d: Vec, hs: seq<Vec>, js: set<int>, o: Vec)
    requires |n| == |d| == |o| && |hs| > 0 && |hs[0]| == |o|
  {
    if status == INFEASIBLE then Empty(hs, js, |o|)
    else !IsZero(o) && Feasible(hs, js, o) && (hs[0] == d ==> Optimal(n, d, hs, js, o))
  }

  /** Either `o` has denominator 0, or the objective is the same at every point. */
  ghost predicate Unconstrained(n: Vec, d: Vec, o: Vec)
    requires |n| == |d| == |o|
  {
    Dot(d, o) == 0.0 || forall x: Vec, y: Vec | |x| == |y| == |o| :: NoWorse(n, d, x, y)
  }

  ghost predicate Projected(hs: seq<Vec>, ns: seq<Vec>, js: set<int>, e: Vec, iv: nat) {
    && |hs| == |ns| && iv < |e| && e[iv] != 0.0
    && forall j | j in js :: 0 <= j < |hs| && |hs[j]| == |e| && ns[j] == Down(e, iv, hs[j])
  }

  /** Where the segment from `o` (outside e) to `x` (inside e) meets the plane of e. */
  ghost function Crossing(e: Vec, o: Vec, x: Vec): (y: Vec)
    requires |e| == |o| == |x|
    ensures |y| == |e|
  {
    Combine(Dot(e, x), o, -Dot(e, o), x)
  }

  lemma CrossingDot(e: Vec, o: Vec, x: Vec, v: Vec)
    requires |v| == |e| == |o| == |x|
    ensures Dot(v, Crossing(e, o, x)) == Dot(e, x) * Dot(v, o) - Dot(e, o) * Dot(v, x)
  {
    DotCombine(v, Dot(e, x), o, -Dot(e, o), x);
  }

  lemma CrossingFeasible(hs: seq<Vec>, js: set<int>, e: Vec, o: Vec, x: Vec)
    requires |e| == |o| == |x|
    requires Feasible(hs, js, o) && Feasible(hs, js, x) && Dot(e, o) < 0.0 <= Dot(e, x)
    ensures Feasible(hs, js, Crossing(e, o, x)) && Dot(e, Crossing(e, o, x)) == 0.0
  {
    CrossingDot(e, o, x, e);
    var y := Crossing(e, o, x);
    forall j | j in js ensures 0 <= j < |hs| && |hs[j]| == |y| && Dot(hs[j], y) >= 0.0 {
      CrossingDot(e, o, x, hs[j]);
      NonNegativeProduct(Dot(e, x), Dot(hs[j], o), Dot(e, x) * Dot(hs[j], o));
      NonNegativeProduct(-Dot(e, o), Dot(hs[j], x), -Dot(e, o) * Dot(hs[j], x));
    }
  }

  /** A feasible point of the projected problem is, lifted, a feasible point on the plane ... */
  lemma LiftFeasible(hs: seq<Vec>, ns: seq<Vec>, js: set<int>, e: Vec, iv: nat, y: Vec)
    requires Projected(hs, ns, js, e, iv) && |y| + 1 == |e|
    ensures Feasible(ns, js, y) <==> Feasible(hs, js, Up(e, iv, y))
  {
    forall j | j in js ensures Dot(ns[j], y) == Dot(hs[j], Up(e, iv, y)) {
      Duality(e, iv, hs[j], y);
    }
  }

  /** ... and every point of the plane comes from one. */
  lemma LowerFeasible(hs: seq<Vec>, ns: seq<Vec>, js: set<int>, e: Vec, iv: nat, x: Vec)
    requires Projected(hs, ns, js, e, iv) && |x| == |e| && Dot(e, x) == 0.0
    ensures Feasible(ns, js, Drop(x, iv)) <==> Feasible(hs, js, x)
  {
    UpSurjective(e, iv, x);
    LiftFeasible(hs, ns, js, e, iv, Drop(x, iv));
  }

  lemma LowerDot(e: Vec, iv: nat, v: Vec, x: Vec)
    requires iv < |e| == |v| == |x| && e[iv] != 0.0 && Dot(e, x) == 0.0
    ensures Dot(Down(e, iv, v), Drop(x, iv)) == Dot(v, x)
  {
    UpSurjective(e, iv, x);
    Duality(e, iv, v, Drop(x, iv));
  }

  lemma InfeasibleAt(hs: seq<Vec>, ns: seq<Vec>, js: set<int>, e: Vec, iv: nat, o: Vec, x: Vec)
    requires 0 in js && Projected(hs, ns, js, e, iv)
    requires |o| == |x| == |e| && Feasible(hs, js, o) && Dot(e, o) < 0.0
    requires Empty(ns, js, |o| - 1)
    requires Feasible(hs, js, x) && Dot(e, x) >= 0.0
    ensures Dot(hs[0], x) <= 0.0
  {
    var y := Crossing(e, o, x);
    CrossingFeasible(hs, js, e, o, x);
    LowerFeasible(hs, ns, js, e, iv, y);
    LowerDot(e, iv, hs[0], y);
    assert Dot(ns[0], Drop(y, iv)) <= 0.0;
    CrossedBefore(e, o, x, hs[0]);
  }

  lemma CrossedBefore(e: Vec, o: Vec, x: Vec, v: Vec)
    requires |v| == |e| == |o| == |x| && Dot(e, o) < 0.0 <= Dot(e, x)
    requires Dot(v, o) >= 0.0 && Dot(v, Crossing(e, o, x)) <= 0.0
    ensures Dot(v, x) <= 0.0
  {
    CrossingDot(e, o, x, v);
    CrossedSign(Dot(e, x), Dot(v, o), Dot(e, o), Dot(v, x), Dot(v, Crossing(e, o, x)));
  }

  lemma CrossedSign(s: real, a: real, u: real, b: real, c: real)
    requires s >= 0.0 && a >= 0.0 && u < 0.0 && c <= 0.0 && c == s * a - u * b
    ensures b <= 0.0
  {
    NonNegativeProduct(s, a, s * a);
    assert -u * -b == u * b;
    NonNegativeFactor(-u, -b);
  }

  /** If the problem on the violated plane has no point inside half-space 0, neither has the whole. */
  lemma InfeasibleStep(hs: seq<Vec>, ns: seq<Vec>, js: set<int>, i: int, iv: nat, o: Vec)
    requires 0 <= i < |hs| && 0 in js && Projected(hs, ns, js, hs[i], iv)
    requires |o| == |hs[i]| && Feasible(hs, js, o) && Dot(hs[i], o) < 0.0
    requires Empty(ns, js, |o| - 1)
    ensures Empty(hs, js + {i}, |o|)
  {
    forall x: Vec | |x| == |o| && Feasible(hs, js + {i}, x) ensures Dot(hs[0], x) <= 0.0 {
      assert i in js + {i};
      InfeasibleAt(hs, ns, js, hs[i], iv, o, x);
    }
  }

  lemma FeasibleStep(hs: seq<Vec>, ns: seq<Vec>, js: set<int>, i: int, iv: nat, y: Vec)
    requires 0 <= i < |hs| && Projected(hs, ns, js, hs[i], iv) && |y| + 1 == |hs[i]|
    requires Feasible(ns, js, y) && !IsZero(y)
    ensures Feasible(hs, js + {i}, Up(hs[i], iv, y)) && !IsZero(Up(hs[i], iv, y))
  {
    LiftFeasible(hs, ns, js, hs[i], iv, y);
    UpOnPlane(hs[i], iv, y);
    UpNonzero(hs[i], iv, y);
  }

  /** (p/q <= r/s and r/s <= t/u) implies p/q <= t/u for q >= 0 and s, u > 0. */
  lemma RatioTransitive(p: real, q: real, r: real, s: real, t: real, u: real)
    requires q >= 0.0 && s > 0.0 && u > 0.0
    requires p * s <= r * q && r * u <= t * s
    ensures p * u <= t * q
  {
    NonNegativeProduct(u, r * q - p * s, u * (r * q - p * s));
    NonNegativeProduct(q, t * s - r * u, q * (t * s - r * u));
    assert u * (r * q - p * s) + q * (t * s - r * u) == s * (t * q - p * u);
    NonNegativeFactor(s, t * q - p * u);
  }

  /** The objective at the crossing lies between those at its ends. */
  lemma CrossingBetween(n: Vec, d: Vec, e: Vec, o: Vec, x: Vec)
    requires |n| == |d| == |e| == |o| == |x| && NoWorse(n, d, o, x)
    requires Dot(e, o) < 0.0 <= Dot(e, x) && Dot(d, o) >= 0.0 && Dot(d, x) > 0.0
    ensures NoWorse(n, d, o, Crossing(e, o, x)) && NoWorse(n, d, Crossing(e, o, x), x)
    ensures Dot(d, Crossing(e, o, x)) > 0.0
  {
    var c, s, t := Crossing(e, o, x), Dot(e, x), -Dot(e, o);
    CrossingMix(e, o, x, n, s, t);
    CrossingMix(e, o, x, d, s, t);
    CrossingPositive(s, t, Dot(d, o), Dot(d, x), Dot(d, c));
    CrossingRatios(s, t, Dot(n, o), Dot(d, o), Dot(n, x), Dot(d, x), Dot(n, c), Dot(d, c));
  }

  lemma CrossingMix(e: Vec, o: Vec, x: Vec, v: Vec, s: real, t: real)
    requires |v| == |e| == |o| == |x| && s == Dot(e, x) && t == -Dot(e, o)
    ensures IsMix(Dot(v, Crossing(e, o, x)), s, Dot(v, o), t, Dot(v, x))
  {
    CrossingDot(e, o, x, v);
  }

  lemma CrossingPositive(s: real, t: real, dO: real, dx: real, dc: real)
    requires s >= 0.0 && t > 0.0 && dO >= 0.0 && dx > 0.0 && IsMix(dc, s, dO, t, dx)
    ensures dc > 0.0
  {
    NonNegativeProduct(s, dO, s * dO);
    ProductPositive(t, dx, t * dx);
  }

  lemma CrossingRatios(s: real, t: real, no: real, dO: real, nx: real, dx: real, nc: real, dc: real)
    requires s >= 0.0 && t > 0.0 && RatioAtMost(no, dO, nx, dx)
    requires IsMix(nc, s, no, t, nx) && IsMix(dc, s, dO, t, dx)
    ensures RatioAtMost(nc, dc, nx, dx) && RatioAtMost(no, dO, nc, dc)
  {
    CrossingNoWorse(s, t, no, dO, nx, dx);
    CrossingWorse(s, t, no, dO, nx, dx);
  }

  lemma CrossingWorse(s: real, t: real, no: real, dO: real, nx: real, dx: real)
    requires t >= 0.0 && no * dx <= nx * dO
    ensures no * (s * dO + t * dx) <= (s * no + t * nx) * dO
  {
    NonNegativeProduct(t, nx * dO - no * dx, t * (nx * dO - no * dx));
    assert t * (nx * dO - no * dx) == (s * no + t * nx) * dO - no * (s * dO + t * dx);
  }

  lemma OptimalAt(n: Vec, d: Vec, hs: seq<Vec>, ns: seq<Vec>, js: set<int>, e: Vec, iv: nat, o: Vec, y: Vec, x: Vec)
    requires |n| == |d| == |o| == |x| == |e| == |y| + 1
    requires Projected(hs, ns, js, e, iv) && Dot(e, o) < 0.0
    requires Feasible(hs, js, o) && Dot(d, o) >= 0.0
    requires NoWorse(n, d, o, x)
    requires Optimal(Down(e, iv, n), Down(e, iv, d), ns, js, y)
    requires Dot(Down(e, iv, d), y) >= 0.0
    requires Feasible(hs, js, x) && Dot(e, x) >= 0.0 && Dot(d, x) > 0.0
    ensures NoWorse(n, d, Up(e, iv, y), x)
  {
    var o', c := Up(e, iv, y), Crossing(e, o, x);
    CrossingFeasible(hs, js, e, o, x);
    CrossingBetween(n, d, e, o, x);
    LowerFeasible(hs, ns, js, e, iv, c);
    LowerDot(e, iv, d, c);
    NoWorseLifted(n, d, e, iv, y, c);
    Duality(e, iv, d, y);
    NoWorseTransitive(n, d, o', c, x);
  }

  lemma NoWorseTransitive(n: Vec, d: Vec, o: Vec, c: Vec, x: Vec)
    requires |n| == |d| == |o| == |c| == |x|
    requires Dot(d, o) >= 0.0 && Dot(d, c) > 0.0 && Dot(d, x) > 0.0
    requires NoWorse(n, d, o, c) && NoWorse(n, d, c, x)
    ensures NoWorse(n, d, o, x)
  {
    RatioTransitive(Dot(n, o), Dot(d, o), Dot(n, c), Dot(d, c), Dot(n, x), Dot(d, x));
  }

  lemma NoWorseLifted(n: Vec, d: Vec, e: Vec, iv: nat, y: Vec, c: Vec)
    requires iv < |e| == |n| == |d| == |c| == |y| + 1 && e[iv] != 0.0 && Dot(e, c) == 0.0
    requires NoWorse(Down(e, iv, n), Down(e, iv, d), y, Drop(c, iv))
    ensures NoWorse(n, d, Up(e, iv, y), c)
  {
    Duality(e, iv, n, y);
    Duality(e, iv, d, y);
    LowerDot(e, iv, n, c);
    LowerDot(e, iv, d, c);
  }

  /** The step theorem: the lifted optimum of the problem on the violated plane is an optimum of
      the whole problem, because the crossing point is no worse than the point it comes from. */
  lemma OptimalStep(n: Vec, d: Vec, hs: seq<Vec>, ns: seq<Vec>, js: set<int>, i: int, iv: nat, o: Vec, y: Vec)
    requires |n| == |d| == |o| == |y| + 1 && 0 <= i < |hs| && |hs[i]| == |o|
    requires Projected(hs, ns, js, hs[i], iv) && Dot(hs[i], o) < 0.0
    requires Feasible(hs, js, o) && Dot(d, o) >= 0.0
    requires Optimal(n, d, hs, js, o)
    requires Optimal(Down(hs[i], iv, n), Down(hs[i], iv, d), ns, js, y)
    requires Dot(Down(hs[i], iv, d), y) >= 0.0
    ensures Optimal(n, d, hs, js + {i}, Up(hs[i], iv, y))
  {
    forall x: Vec | |x| == |o| && Feasible(hs, js + {i}, x) && Dot(d, x) > 0.0
      ensures NoWorse(n, d, Up(hs[i], iv, y), x)
    {
      assert i in js + {i};
      assert Feasible(hs, js, x);
      OptimalAt(n, d, hs, ns, js, hs[i], iv, o, y, x);
    }
  }

  lemma CrossingNoWorse(s: real, t: real, no: real, dO: real, nx: real, dx: real)
    requires s >= 0.0 && no * dx <= nx * dO
    ensures (s * no + t * nx) * dx <= nx * (s * dO + t * dx)
  {
    NonNegativeProduct(s, nx * dO - no * dx, s * (nx * dO - no * dx));
    assert s * (nx * dO - no * dx) == nx * (s * dO + t * dx) - (s * no + t * nx) * dx;
  }

  /** Before any plane has been seen, violating half-space 0 = d means that the objective is constant. */
  lemma FirstStep(n: Vec, d: Vec, hs: seq<Vec>, js: set<int>, o: Vec, o': Vec)
    requires |n| == |d| == |o| == |o'| && Unconstrained(n, d, o) && Dot(d, o) < 0.0
    ensures Optimal(n, d, hs, js, o')
  {
  }

  lemma ScaledNoWorse(n: Vec, d: Vec, s: real, o: Vec, x: Vec)
    requires s >= 0.0 && |n| == |d| == |o| == |x| && NoWorse(n, d, o, x)
    ensures NoWorse(n, d, Scale(s, o), x)
  {
    DotScale(n, s, o);
    DotScale(d, s, o);
    CrossingNoWorse(s, 0.0, Dot(n, o), Dot(d, o), Dot(n, x), Dot(d, x));
  }

  lemma ScaledFeasible(hs: seq<Vec>, js: set<int>, s: real, o: Vec)
    requires s >= 0.0 && Feasible(hs, js, o)
    ensures Feasible(hs, js, Scale(s, o))
  {
    forall j | j in js ensures 0 <= j < |hs| && |hs[j]| == |o| && Dot(hs[j], Scale(s, o)) >= 0.0 {
      DotScale(hs[j], s, o);
      NonNegativeProduct(s, Dot(hs[j], o), s * Dot(hs[j], o));
    }
  }

  lemma ScaledNonzero(s: real, o: Vec)
    requires s != 0.0 && !IsZero(o)
    ensures !IsZero(Scale(s, o))
  {
    var k :| 0 <= k < |o| && o[k] != 0.0;
    assert Scale(s, o)[k] != 0.0;
  }

  /** Normalising the point changes nothing of this: any positive factor will do. */
  lemma PositiveMultiple(n: Vec, d: Vec, hs: seq<Vec>, js: set<int>, s: real, o: Vec)
    requires s > 0.0 && |n| == |d| == |o|
    ensures !IsZero(o) ==> !IsZero(Scale(s, o))
    ensures Feasible(hs, js, o) ==> Feasible(hs, js, Scale(s, o))
    ensures Optimal(n, d, hs, js, o) ==> Optimal(n, d, hs, js, Scale(s, o))
  {
    if !IsZero(o) {
      ScaledNonzero(s, o);
    }
    if Feasible(hs, js, o) {
      ScaledFeasible(hs, js, s, o);
    }
    if Optimal(n, d, hs, js, o) {
      forall x: Vec | |x| == |o| && Feasible(hs, js, x) && Dot(d, x) > 0.0
        ensures NoWorse(n, d, Scale(s, o), x)
      {
        assert NoWorse(n, d, o, x);
        ScaledNoWorse(n, d, s, o, x);
      }
    }
  }
}
