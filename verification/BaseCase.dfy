/** lp_base_case.c: the minimum of a ratio of linear functions on the projective line. */
module BaseCase {
  import opened Vectors
  import opened Arcs
  import opened LinkedOrder
  import opened LpTheory
  import opened Store
  import opened Wedges
  import opened LinProgParts

  /** n.o/d.o is at most n.x/d.x, without the divisions. */
  predicate Better(n: V2, d: V2, o: V2, x: V2) {
    Dot2(n, o) * Dot2(d, x) <= Dot2(n, x) * Dot2(d, o)
  }

  /** The ratio only grows or only falls from one bound to the other, as cross(n, d) says. */
  lemma BetterIsCross(n: V2, d: V2, o: V2, x: V2)
    ensures Better(n, d, o, x) <==> Cross2(n, d) * Cross2(o, x) <= 0.0
  {
    assert Dot2(n, o) * Dot2(d, x) - Dot2(n, x) * Dot2(d, o) == Cross2(n, d) * Cross2(o, x);
  }

  ghost predicate Optimal2(n: V2, d: V2, hs: seq<V2>, js: set<int>, o: V2) {
    forall x: V2 | In(hs, js, x) && Dot2(d, x) > 0.0 :: Better(n, d, o, x)
  }

  lemma SignProduct(a: real, b: real)
    ensures a >= 0.0 && b >= 0.0 ==> a * b >= 0.0
    ensures a <= 0.0 && b >= 0.0 ==> a * b <= 0.0
    ensures a > 0.0 && b > 0.0 ==> a * b > 0.0
    ensures a < 0.0 && b > 0.0 ==> a * b < 0.0
    ensures a < 0.0 && b < 0.0 ==> a * b > 0.0
  {
  }

  /** On an arc, the clockwise bound is best when cross(n, d) <= 0 and the other when it is >= 0. */
  lemma ArcOptimum(n: V2, d: V2, hs: seq<V2>, js: set<int>, cw: V2, ccw: V2)
    requires ArcIs(hs, js, cw, ccw)
    ensures Cross2(n, d) <= 0.0 ==> Optimal2(n, d, hs, js, cw)
    ensures Cross2(n, d) >= 0.0 ==> Optimal2(n, d, hs, js, ccw)
  {
    forall x: V2 | In(hs, js, x)
      ensures Cross2(n, d) <= 0.0 ==> Better(n, d, cw, x)
      ensures Cross2(n, d) >= 0.0 ==> Better(n, d, ccw, x)
    {
      assert InArc(cw, ccw, x);
      BetterIsCross(n, d, cw, x);
      BetterIsCross(n, d, ccw, x);
      SignProduct(Cross2(n, d), Cross2(cw, x));
      SignProduct(Cross2(n, d), Cross2(x, ccw));
      assert Cross2(n, d) * Cross2(ccw, x) == -(Cross2(n, d) * Cross2(x, ccw));
    }
  }

  lemma CompareRatios(p: real, q: real, r: real, s: real)
    requires q > 0.0 && s > 0.0
    ensures p / q < r / s <==> p * s - r * q < 0.0
  {
    var a, b := p / q, r / s;
    assert a * q == p && b * s == r;
    CompareProducts(a, b, q, s, p, r);
  }

  lemma CompareProducts(a: real, b: real, q: real, s: real, p: real, r: real)
    requires q > 0.0 && s > 0.0 && p == a * q && r == b * s
    ensures a < b <==> p * s - r * q < 0.0
  {
    var k := q * s;
    ProductPositive(q, s, k);
    assert p * s == a * k && r * q == b * k;
    var d, c := a - b, p * s - r * q;
    assert c == d * k;
    if d > 0.0 {
      ProductPositive(d, k, c);
    } else if d < 0.0 {
      ProductPositive(-d, k, -c);
    }
  }

  /** When half-line 0 is the denominator itself, no pole lies inside the arc. */
  lemma NoPoleInside(d: V2, hs: seq<V2>, js: set<int>, cw: V2, ccw: V2, degen: bool)
    requires WedgeIs(hs, js, cw, ccw, degen) && 0 in js && 0 < |hs| && hs[0] == d
    ensures Dot2(cw, d) >= 0.0 && Dot2(ccw, d) >= 0.0
  {
    BoundsAreFeasible(hs, js, cw, ccw, degen);
    assert Dot2(hs[0], cw) >= 0.0 && Dot2(hs[0], ccw) >= 0.0;
  }

  lemma SeparatedBounds(d: V2, cw: V2, ccw: V2)
    requires Wide(cw, ccw) && Dot2(cw, d) >= 0.0 && Dot2(ccw, d) >= 0.0
    requires Dot2(cw, d) > 0.0 || Dot2(ccw, d) > 0.0
    ensures Cross2(cw, ccw) > 0.0
  {
    if Opposite(cw, ccw) {
      OppositeSigns(cw, ccw, d);
    }
  }

  lemma PolesAtBothBounds(n: V2, d: V2, hs: seq<V2>, js: set<int>, cw: V2, ccw: V2)
    requires ArcIs(hs, js, cw, ccw)
    ensures Cross2(d, n) > 0.0 ==> Optimal2(n, d, hs, js, cw)
    ensures Cross2(d, n) <= 0.0 ==> Optimal2(n, d, hs, js, ccw)
  {
    ArcOptimum(n, d, hs, js, cw, ccw);
    assert Cross2(d, n) == -Cross2(n, d);
  }

  /** With only rays left, the better bound is best; with a pole on a ray there is nothing to beat. */
  lemma RayOptimum(n: V2, d: V2, hs: seq<V2>, js: set<int>, a: V2, b: V2)
    requires RaysAre(hs, js, a, b) || RaysAre(hs, js, b, a)
    requires Better(n, d, a, b)
    ensures Optimal2(n, d, hs, js, a)
  {
    BetterIsCross(n, d, a, b);
    NonzeroNorm(b);
    forall x: V2 | In(hs, js, x) ensures Better(n, d, a, x) {
      BetterIsCross(n, d, a, x);
      if OnRay(a, x) {
        assert Cross2(n, d) * Cross2(a, x) == 0.0;
      } else {
        assert OnRay(b, x);
        FrameCross(b, a, x);
        assert Dot2(b, b) * Cross2(a, x) == Cross2(a, b) * Dot2(b, x);
        ScaledCross(Cross2(n, d), Dot2(b, b), Cross2(a, x), Cross2(a, b), Dot2(b, x));
      }
    }
  }

  lemma ScaledCross(c: real, k: real, z: real, w: real, t: real)
    requires k > 0.0 && k * z == w * t && t >= 0.0 && c * w <= 0.0
    ensures c * z <= 0.0
  {
    SignProduct(-(c * w), t);
    assert k * -(c * z) == -(c * w) * t;
    NonNegativeFactor(k, -(c * z));
  }

  lemma PoleOnRay(d: V2, hs: seq<V2>, js: set<int>, cw: V2, ccw: V2, x: V2)
    requires RaysAre(hs, js, cw, ccw) && In(hs, js, x)
    requires Dot2(cw, d) == 0.0 || Dot2(ccw, d) == 0.0
    ensures Dot2(d, x) == 0.0
  {
    NonzeroNorm(cw);
    NonzeroNorm(ccw);
    Frame(cw, d, ccw);
    Frame(ccw, d, cw);
    assert Cross2(ccw, cw) == 0.0;
    assert Dot2(cw, cw) * Dot2(d, ccw) == Dot2(d, cw) * Dot2(cw, ccw);
    assert Dot2(ccw, ccw) * Dot2(d, cw) == Dot2(d, ccw) * Dot2(ccw, cw);
    if Dot2(cw, d) == 0.0 {
      ZeroProduct(Dot2(cw, cw), Dot2(d, ccw));
    } else {
      ZeroProduct(Dot2(ccw, ccw), Dot2(d, cw));
    }
    var c := if OnRay(cw, x) then cw else ccw;
    assert OnRay(c, x) && Dot2(d, c) == 0.0;
    Frame(c, d, x);
    ZeroProduct(Dot2(c, c), Dot2(d, x));
  }

  /** Which bound is best can be read off from c = nCw*dCcw - nCcw*dCw. */
  lemma ArcChoice(n: V2, d: V2, hs: seq<V2>, js: set<int>, cw: V2, ccw: V2, takeCw: bool, c: real)
    requires ArcIs(hs, js, cw, ccw) && Cross2(cw, ccw) > 0.0
    requires c == Dot2(cw, n) * Dot2(ccw, d) - Dot2(ccw, n) * Dot2(cw, d)
    requires if takeCw then c <= 0.0 else c >= 0.0
    ensures Optimal2(n, d, hs, js, if takeCw then cw else ccw)
  {
    assert c == Cross2(n, d) * Cross2(cw, ccw);
    SignByFactor(Cross2(n, d), Cross2(cw, ccw), c);
    ArcOptimum(n, d, hs, js, cw, ccw);
  }

  lemma SignByFactor(z: real, k: real, c: real)
    requires k > 0.0 && c == z * k
    ensures c >= 0.0 ==> z >= 0.0
    ensures c <= 0.0 ==> z <= 0.0
  {
    if z > 0.0 {
      ProductPositive(z, k, c);
    } else if z < 0.0 {
      ProductPositive(-z, k, -c);
    }
  }

  lemma ZeroTimes(a: real, b: real)
    requires b == 0.0
    ensures a * b == 0.0
  {
  }

  /** The arc has no pole at its bounds: the smaller of the two values is at the better bound. */
  lemma NoPoleChoice(n: V2, d: V2, hs: seq<V2>, js: set<int>, cw: V2, ccw: V2)
    requires ArcIs(hs, js, cw, ccw) && Dot2(cw, d) > 0.0 && Dot2(ccw, d) > 0.0
    ensures Optimal2(n, d, hs, js, if Dot2(cw, n) / Dot2(cw, d) < Dot2(ccw, n) / Dot2(ccw, d) then cw else ccw)
  {
    SeparatedBounds(d, cw, ccw);
    CompareRatios(Dot2(cw, n), Dot2(cw, d), Dot2(ccw, n), Dot2(ccw, d));
    ArcChoice(n, d, hs, js, cw, ccw, Dot2(cw, n) / Dot2(cw, d) < Dot2(ccw, n) / Dot2(ccw, d),
              Dot2(cw, n) * Dot2(ccw, d) - Dot2(ccw, n) * Dot2(cw, d));
  }

  /** The counter-clockwise bound is a pole. */
  lemma CounterClockwisePoleChoice(n: V2, d: V2, hs: seq<V2>, js: set<int>, cw: V2, ccw: V2)
    requires ArcIs(hs, js, cw, ccw) && Dot2(cw, d) > 0.0 && Dot2(ccw, d) == 0.0
    ensures Optimal2(n, d, hs, js, if Dot2(ccw, n) * Dot2(cw, d) > 0.0 then cw else ccw)
  {
    SeparatedBounds(d, cw, ccw);
    ZeroTimes(Dot2(cw, n), Dot2(ccw, d));
    ArcChoice(n, d, hs, js, cw, ccw, Dot2(ccw, n) * Dot2(cw, d) > 0.0,
              Dot2(cw, n) * Dot2(ccw, d) - Dot2(ccw, n) * Dot2(cw, d));
  }

  /** The clockwise bound is a pole. */
  lemma ClockwisePoleChoice(n: V2, d: V2, hs: seq<V2>, js: set<int>, cw: V2, ccw: V2)
    requires ArcIs(hs, js, cw, ccw) && Dot2(cw, d) == 0.0 && Dot2(ccw, d) > 0.0
    ensures Optimal2(n, d, hs, js, if Dot2(cw, n) * Dot2(ccw, d) > 0.0 then ccw else cw)
  {
    SeparatedBounds(d, cw, ccw);
    ZeroTimes(Dot2(ccw, n), Dot2(cw, d));
    ArcChoice(n, d, hs, js, cw, ccw, !(Dot2(cw, n) * Dot2(ccw, d) > 0.0),
              Dot2(cw, n) * Dot2(ccw, d) - Dot2(ccw, n) * Dot2(cw, d));
  }

  ghost predicate Bounded(hs: seq<V2>, js: set<int>, d: V2) {
    0 in js && 0 < |hs| && hs[0] == d
  }

  /** lp_min_lin_rat. The quotients of the degenerate case are floating-point ones: with a zero
      denominator their comparison may come out either way, and `either` stands for that. */
  method LpMinLinRat(degen: bool, cw: V2, ccw: V2, n: V2, d: V2, ghost hs: seq<V2>, ghost js: set<int>)
    returns (opt: V2)
    requires WedgeIs(hs, js, cw, ccw, degen)
    ensures In(hs, js, opt) && opt != ORIGIN
    ensures Bounded(hs, js, d) ==> Optimal2(n, d, hs, js, opt)
  {
    var dCw, dCcw := Dot2(cw, d), Dot2(ccw, d);
    var nCw, nCcw := Dot2(cw, n), Dot2(ccw, n);
    var less := *;
    if dCw != 0.0 && dCcw != 0.0 {
      less := nCw / dCw < nCcw / dCcw;
    }
    if degen {
      opt := if less then cw else ccw;
    } else if dCw != 0.0 && dCcw != 0.0 {
      if dCw * dCcw > 0.0 {
        opt := if less then cw else ccw;
      } else {
        opt := if dCw > 0.0 then V2(-d.y, d.x) else V2(d.y, -d.x);
      }
    } else if dCw != 0.0 {
      opt := if nCcw * dCw > 0.0 then cw else ccw;
    } else if dCcw != 0.0 {
      opt := if nCw * dCcw > 0.0 then ccw else cw;
    } else {
      opt := if Cross2(d, n) > 0.0 then cw else ccw;
    }
    ChoiceFeasible(degen, n, d, hs, js, cw, ccw, opt);
    if Bounded(hs, js, d) {
      ChoiceOptimal(degen, less, n, d, hs, js, cw, ccw, opt);
    }
  }

  /** The point is one of the bounds, or the pole between bounds with denominators of opposite signs. */
  lemma ChoiceFeasible(degen: bool, n: V2, d: V2, hs: seq<V2>, js: set<int>, cw: V2, ccw: V2, o: V2)
    requires WedgeIs(hs, js, cw, ccw, degen)
    requires o == cw || o == ccw ||
             (!degen && Dot2(cw, d) != 0.0 && Dot2(ccw, d) != 0.0 && Dot2(cw, d) * Dot2(ccw, d) <= 0.0 &&
              o == if Dot2(cw, d) > 0.0 then V2(-d.y, d.x) else V2(d.y, -d.x))
    ensures In(hs, js, o) && o != ORIGIN
  {
    BoundsAreFeasible(hs, js, cw, ccw, degen);
    if o != cw && o != ccw {
      PoleInside(d, hs, js, cw, ccw);
    }
  }

  lemma ChoiceOptimal(degen: bool, less: bool, n: V2, d: V2, hs: seq<V2>, js: set<int>, cw: V2, ccw: V2, o: V2)
    requires WedgeIs(hs, js, cw, ccw, degen) && Bounded(hs, js, d)
    requires Dot2(cw, d) != 0.0 && Dot2(ccw, d) != 0.0 ==>
               (less <==> Dot2(cw, n) / Dot2(cw, d) < Dot2(ccw, n) / Dot2(ccw, d))
    requires degen ==> o == if less then cw else ccw
    requires !degen && Dot2(cw, d) != 0.0 && Dot2(ccw, d) != 0.0 && Dot2(cw, d) * Dot2(ccw, d) > 0.0 ==>
               o == if less then cw else ccw
    requires !degen && Dot2(cw, d) != 0.0 && Dot2(ccw, d) == 0.0 ==>
               o == if Dot2(ccw, n) * Dot2(cw, d) > 0.0 then cw else ccw
    requires !degen && Dot2(cw, d) == 0.0 && Dot2(ccw, d) != 0.0 ==>
               o == if Dot2(cw, n) * Dot2(ccw, d) > 0.0 then ccw else cw
    requires !degen && Dot2(cw, d) == 0.0 && Dot2(ccw, d) == 0.0 ==>
               o == if Cross2(d, n) > 0.0 then cw else ccw
    ensures Optimal2(n, d, hs, js, o)
  {
    NoPoleInside(d, hs, js, cw, ccw, degen);
    if degen {
      DegenerateOptimal(n, d, hs, js, cw, ccw, less);
    } else if Dot2(cw, d) != 0.0 {
      if Dot2(ccw, d) != 0.0 {
        ProductPositive(Dot2(cw, d), Dot2(ccw, d), Dot2(cw, d) * Dot2(ccw, d));
        NoPoleChoice(n, d, hs, js, cw, ccw);
      } else {
        CounterClockwisePoleChoice(n, d, hs, js, cw, ccw);
      }
    } else if Dot2(ccw, d) != 0.0 {
      ClockwisePoleChoice(n, d, hs, js, cw, ccw);
    } else {
      PolesAtBothBounds(n, d, hs, js, cw, ccw);
    }
  }

  lemma DegenerateOptimal(n: V2, d: V2, hs: seq<V2>, js: set<int>, cw: V2, ccw: V2, less: bool)
    requires RaysAre(hs, js, cw, ccw) && Dot2(cw, d) >= 0.0 && Dot2(ccw, d) >= 0.0
    requires Dot2(cw, d) != 0.0 && Dot2(ccw, d) != 0.0 ==>
               (less <==> Dot2(cw, n) / Dot2(cw, d) < Dot2(ccw, n) / Dot2(ccw, d))
    ensures Optimal2(n, d, hs, js, if less then cw else ccw)
  {
    if Dot2(cw, d) != 0.0 && Dot2(ccw, d) != 0.0 {
      CompareRatios(Dot2(cw, n), Dot2(cw, d), Dot2(ccw, n), Dot2(ccw, d));
      if less {
        RayOptimum(n, d, hs, js, cw, ccw);
      } else {
        RayOptimum(n, d, hs, js, ccw, cw);
      }
    } else {
      forall x: V2 | In(hs, js, x) ensures Dot2(d, x) == 0.0 {
        PoleOnRay(d, hs, js, cw, ccw, x);
      }
    }
  }

  /** Between bounds with denominators of opposite signs lies the pole that the code returns. */
  lemma PoleInside(d: V2, hs: seq<V2>, js: set<int>, cw: V2, ccw: V2)
    requires ArcIs(hs, js, cw, ccw)
    requires Dot2(cw, d) != 0.0 && Dot2(ccw, d) != 0.0 && Dot2(cw, d) * Dot2(ccw, d) <= 0.0
    ensures var o := if Dot2(cw, d) > 0.0 then V2(-d.y, d.x) else V2(d.y, -d.x);
            In(hs, js, o) && o != ORIGIN
  {
    var o := if Dot2(cw, d) > 0.0 then V2(-d.y, d.x) else V2(d.y, -d.x);
    SignProduct(Dot2(cw, d), Dot2(ccw, d));
    SignProduct(-Dot2(cw, d), -Dot2(ccw, d));
    assert InArc(cw, ccw, o);
  }

  // From vectors of length two to pairs

  ghost function AsPair(v: Vec): V2
    requires |v| == 2
  {
    V2(v[0], v[1])
  }

  ghost function AsPairs(hs: seq<Vec>): (r: seq<V2>)
    requires forall j | 0 <= j < |hs| :: |hs[j]| == 2
    ensures |r| == |hs|
  {
    seq(|hs|, j requires 0 <= j < |hs| => AsPair(hs[j]))
  }

  lemma DotIsDot2(a: Vec, b: Vec)
    requires |a| == 2 && |b| == 2
    ensures Dot(a, b) == Dot2(AsPair(a), AsPair(b))
  {
    assert DotTo(a, b, 2) == DotTo(a, b, 1) + a[1] * b[1];
    assert DotTo(a, b, 1) == DotTo(a, b, 0) + a[0] * b[0];
  }

  lemma FeasibleIsIn(hs: seq<Vec>, js: set<int>, x: Vec)
    requires forall j | 0 <= j < |hs| :: |hs[j]| == 2
    requires |x| == 2
    ensures Feasible(hs, js, x) <==> In(AsPairs(hs), js, AsPair(x))
  {
    forall j | j in js && 0 <= j < |hs| ensures Dot(hs[j], x) == Dot2(AsPairs(hs)[j], AsPair(x)) {
      DotIsDot2(hs[j], x);
    }
  }

  lemma OnlyOriginIsEmpty(hs: seq<Vec>, js: set<int>)
    requires |hs| > 0 && forall j | 0 <= j < |hs| :: |hs[j]| == 2
    requires OnlyOrigin(AsPairs(hs), js)
    ensures Empty(hs, js, 2)
  {
    forall x: Vec | |x| == 2 && Feasible(hs, js, x) ensures Dot(hs[0], x) <= 0.0 {
      FeasibleIsIn(hs, js, x);
      DotIsDot2(hs[0], x);
    }
  }

  lemma Optimal2IsOptimal(n: Vec, d: Vec, hs: seq<Vec>, js: set<int>, o: Vec)
    requires |n| == |d| == |o| == 2 && forall j | 0 <= j < |hs| :: |hs[j]| == 2
    requires Optimal2(AsPair(n), AsPair(d), AsPairs(hs), js, AsPair(o))
    ensures Optimal(n, d, hs, js, o)
  {
    forall x: Vec | |x| == 2 && Feasible(hs, js, x) && Dot(d, x) > 0.0 ensures NoWorse(n, d, o, x) {
      FeasibleIsIn(hs, js, x);
      DotIsDot2(n, o);
      DotIsDot2(d, x);
      DotIsDot2(n, x);
      DotIsDot2(d, o);
      assert Better(AsPair(n), AsPair(d), AsPair(o), AsPair(x));
    }
  }

  /** A chosen pair, put back into the terms of the half-spaces. */
  lemma ChosenSolves(status: Status, n: Vec, d: Vec, hs: seq<Vec>, js: set<int>, o: Vec)
    requires |hs| > 0 && forall j | 0 <= j < |hs| :: |hs[j]| == 2
    requires |n| == |d| == |o| == 2 && status != INFEASIBLE
    requires In(AsPairs(hs), js, AsPair(o)) && AsPair(o) != ORIGIN
    requires hs[0] == d ==> Optimal2(AsPair(n), AsPair(d), AsPairs(hs), js, AsPair(o))
    ensures Solved(status, n, d, hs, js, o)
  {
    FeasibleIsIn(hs, js, o);
    assert o[0] != 0.0 || o[1] != 0.0;
    if hs[0] == d {
      Optimal2IsOptimal(n, d, hs, js, o);
    }
  }

  lemma RowsAreStored(mem: array<real>, halves: nat, max: nat)
    requires halves + Cells(max, 2) <= mem.Length
    ensures Stored(mem, halves, AsPairs(Rows(mem[..], halves, 2, max)))
  {
    var hs := Rows(mem[..], halves, 2, max);
    CellsIsProduct(max, 2);
    forall i | 0 <= i < max ensures AsPairs(hs)[i] == HalfLine(mem, halves, i) {
      CellsIsProduct(i, 2);
      assert hs[i] == Row(mem[..], halves, 2, max, i);
    }
  }

  // A linear objective on an arc

  /** o has the least n.x among the feasible vectors of its length. */
  ghost predicate Least(n: V2, hs: seq<V2>, js: set<int>, o: V2) {
    forall x: V2 | In(hs, js, x) && Dot2(x, x) == Dot2(o, o) :: Dot2(n, o) <= Dot2(n, x)
  }

  function Plus(a: V2, b: V2): V2 { V2(a.x + b.x, a.y + b.y) }

  /** The chord between vectors of one length is normal to their sum. */
  lemma Chord(n: V2, a: V2, x: V2, s: V2)
    requires s == Plus(a, x) && Dot2(a, a) == Dot2(x, x)
    ensures Dot2(s, s) * (Dot2(n, a) - Dot2(n, x)) == Cross2(s, n) * (-2.0 * Cross2(a, x))
  {
    var c := Plus(a, Minus(x));
    Frame(s, n, c);
    assert Dot2(s, c) == 0.0 && Cross2(s, c) == -2.0 * Cross2(a, x);
    assert Dot2(n, c) == Dot2(n, a) - Dot2(n, x);
    assert Dot2(n, s) * 0.0 == 0.0;
  }

  lemma NegativeTimes(k: real, z: real, p: real, q: real)
    requires k > 0.0 && z > 0.0 && q >= 0.0 && k * z == p * (-2.0 * q)
    ensures p < 0.0 && q > 0.0
  {
    ProductPositive(k, z, k * z);
    var r := -2.0 * q;
    if p >= 0.0 {
      NonNegativeProduct(p, -r, p * -r);
    }
  }

  /** Where the objective is less inside the arc than at the clockwise end, it still falls beyond their middle. */
  lemma FallsBeyond(n: V2, a: V2, x: V2, s: V2)
    requires s == Plus(a, x) && s != ORIGIN && Dot2(a, a) == Dot2(x, x)
    requires Cross2(a, x) >= 0.0 && Dot2(n, a) > Dot2(n, x)
    ensures Cross2(s, n) < 0.0 && Cross2(a, x) > 0.0
  {
    Chord(n, a, x, s);
    NonzeroNorm(s);
    NegativeTimes(Dot2(s, s), Dot2(n, a) - Dot2(n, x), Cross2(s, n), Cross2(a, x));
  }

  lemma RisesBefore(n: V2, b: V2, x: V2, v: V2)
    requires v == Plus(x, b) && v != ORIGIN && Dot2(b, b) == Dot2(x, x)
    requires Cross2(x, b) >= 0.0 && Dot2(n, b) > Dot2(n, x)
    ensures Cross2(v, n) > 0.0 && Cross2(x, b) > 0.0
  {
    Chord(n, b, x, v);
    NonzeroNorm(v);
    assert Cross2(v, n) * (-2.0 * Cross2(b, x)) == -Cross2(v, n) * (-2.0 * Cross2(x, b));
    NegativeTimes(Dot2(v, v), Dot2(n, b) - Dot2(n, x), -Cross2(v, n), Cross2(x, b));
  }

  /** Between the two middles, -n lies in the arc. */
  lemma OppositeInside(n: V2, a: V2, b: V2, x: V2, s: V2, v: V2)
    requires s == Plus(a, x) && v == Plus(x, b) && Cross2(s, n) < 0.0 < Cross2(v, n)
    requires Cross2(a, x) > 0.0 && Cross2(x, b) > 0.0 && Cross2(a, b) >= 0.0
    ensures InArc(a, b, Minus(n))
  {
    var m := Minus(n);
    CrossSums(a, b, x, s, v);
    assert Cross2(m, v) == Cross2(v, n) && Cross2(s, m) == -Cross2(s, n);
    CramerCross(s, v, a, m);
    SumNonNegative(Cross2(s, v), Cross2(a, m), Cross2(a, s), Cross2(m, v), Cross2(a, v), Cross2(s, m));
    CramerCross(s, v, Minus(b), m);
    assert Cross2(Minus(b), m) == Cross2(m, b) && Cross2(Minus(b), s) == Cross2(s, b);
    assert Cross2(Minus(b), v) == Cross2(v, b);
    SumNonNegative(Cross2(s, v), Cross2(m, b), Cross2(s, b), Cross2(m, v), Cross2(v, b), Cross2(s, m));
  }

  lemma CrossSums(a: V2, b: V2, x: V2, s: V2, v: V2)
    requires s == Plus(a, x) && v == Plus(x, b)
    ensures Cross2(s, v) == Cross2(a, x) + Cross2(a, b) + Cross2(x, b)
    ensures Cross2(a, s) == Cross2(a, x) && Cross2(a, v) == Cross2(a, x) + Cross2(a, b)
    ensures Cross2(v, b) == Cross2(x, b) && Cross2(s, b) == Cross2(a, b) + Cross2(x, b)
  {
  }

  /** In an arc, a vector opposite to one end is the other end's ray. */
  lemma OppositeEnd(a: V2, b: V2, x: V2)
    requires Wide(a, b) && InArc(a, b, x) && Dot2(a, a) == Dot2(b, b)
    ensures Plus(a, x) == ORIGIN ==> x == b
    ensures Plus(x, b) == ORIGIN ==> x == a
  {
    if Plus(a, x) == ORIGIN {
      assert x == Minus(a) && Cross2(x, b) == -Cross2(a, b);
      OppositeOfLength(a, b);
    }
    if Plus(x, b) == ORIGIN {
      assert x == Minus(b) && Cross2(a, x) == -Cross2(a, b);
      OppositeOfLength(a, b);
    }
  }

  lemma OppositeOfLength(a: V2, b: V2)
    requires Opposite(a, b) && Dot2(a, a) == Dot2(b, b)
    ensures b == Minus(a)
  {
    var l, s := Dot2(a, a), Plus(a, b);
    Frame(a, b, b);
    var k := Dot2(a, b);
    assert l * l == k * k;
    SquarePositive(a.x, a.x * a.x);
    SquarePositive(a.y, a.y * a.y);
    if k + l > 0.0 {
      ProductPositive(k + l, l - k, l * l - k * k);
    } else if k + l < 0.0 {
      ProductPositive(-(k + l), l - k, k * k - l * l);
    }
    assert Dot2(s, s) == 0.0;
    if s != ORIGIN {
      NonzeroNorm(s);
    }
  }

  /** On an arc that does not contain -n, the objective n.x is least at an end. */
  lemma EndIsLeast(n: V2, a: V2, b: V2, x: V2)
    requires Wide(a, b) && InArc(a, b, x) && !InArc(a, b, Minus(n))
    requires Dot2(a, a) == Dot2(b, b) == Dot2(x, x)
    ensures Dot2(n, a) <= Dot2(n, x) || Dot2(n, b) <= Dot2(n, x)
  {
    var s, v := Plus(a, x), Plus(x, b);
    OppositeEnd(a, b, x);
    if Dot2(n, a) > Dot2(n, x) && Dot2(n, b) > Dot2(n, x) {
      FallsBeyond(n, a, x, s);
      RisesBefore(n, b, x, v);
      OppositeInside(n, a, b, x, s, v);
    }
  }

  lemma InsideOpposite(n: V2, a: V2, b: V2)
    ensures InArc(a, b, Minus(n)) <==> Cross2(a, n) <= 0.0 && Cross2(n, b) <= 0.0
  {
    assert Cross2(a, Minus(n)) == -Cross2(a, n) && Cross2(Minus(n), b) == -Cross2(n, b);
  }

  /** The opposite of the numerator, if it is feasible, is least. */
  lemma InteriorMinimum(n: V2, hs: seq<V2>, js: set<int>, cw: V2, ccw: V2)
    requires ArcIs(hs, js, cw, ccw) && n != ORIGIN
    requires Cross2(cw, n) <= 0.0 && Cross2(n, ccw) <= 0.0
    ensures In(hs, js, Minus(n)) && Minus(n) != ORIGIN && Least(n, hs, js, Minus(n))
  {
    InsideOpposite(n, cw, ccw);
    forall x: V2 | Dot2(x, x) == Dot2(Minus(n), Minus(n)) ensures Dot2(n, Minus(n)) <= Dot2(n, x) {
      var s := Plus(n, x);
      SquarePositive(s.x, s.x * s.x);
      SquarePositive(s.y, s.y * s.y);
      assert Dot2(s, s) == Dot2(n, n) + 2.0 * Dot2(n, x) + Dot2(x, x);
      assert Dot2(n, Minus(n)) == -Dot2(n, n) && Dot2(Minus(n), Minus(n)) == Dot2(n, n);
    }
  }

  /** A vector on a ray is that ray's vector of its length. */
  lemma OnRayOfLength(c: V2, x: V2)
    requires OnRay(c, x) && Dot2(c, c) == Dot2(x, x) && c != ORIGIN
    ensures x == c
  {
    if x != ORIGIN {
      assert Cross2(Minus(c), x) == -Cross2(c, x) && Dot2(Minus(c), x) == -Dot2(c, x);
      assert Dot2(Minus(c), Minus(c)) == Dot2(c, c);
      if Dot2(c, x) > 0.0 {
        OppositeOfLength(Minus(c), x);
      } else {
        Frame(c, x, x);
        assert Dot2(c, c) * Dot2(x, x) == 0.0;
        NonzeroNorm(c);
        NonzeroNorm(x);
        ProductPositive(Dot2(c, c), Dot2(x, x), Dot2(c, c) * Dot2(x, x));
      }
    } else {
      NonzeroNorm(c);
    }
  }

  /** Otherwise the better of two bounds of the same length is. */
  lemma BoundMinimum(n: V2, hs: seq<V2>, js: set<int>, cw: V2, ccw: V2, degen: bool, opt: V2)
    requires WedgeIs(hs, js, cw, ccw, degen) && Dot2(cw, cw) == Dot2(ccw, ccw)
    requires degen || !InArc(cw, ccw, Minus(n))
    requires opt == if Dot2(n, cw) > Dot2(n, ccw) then ccw else cw
    ensures Least(n, hs, js, opt)
  {
    forall x: V2 | In(hs, js, x) && Dot2(x, x) == Dot2(opt, opt) ensures Dot2(n, opt) <= Dot2(n, x) {
      if degen {
        if OnRay(cw, x) {
          OnRayOfLength(cw, x);
        } else {
          OnRayOfLength(ccw, x);
        }
      } else {
        assert InArc(cw, ccw, x);
        EndIsLeast(n, cw, ccw, x);
      }
    }
  }

  /** The ratio is the same everywhere when numerator and denominator are proportional. */
  lemma DependentOptimal(n: V2, d: V2, hs: seq<V2>, js: set<int>, o: V2)
    requires Cross2(n, d) == 0.0
    ensures Optimal2(n, d, hs, js, o)
  {
    forall x: V2 ensures Better(n, d, o, x) {
      BetterIsCross(n, d, o, x);
      assert Cross2(n, d) * Cross2(o, x) == 0.0;
    }
  }

  lemma NoNumerator(n: V2, norm: real)
    requires norm == Dot2(n, n) && norm <= 0.0
    ensures n == ORIGIN
  {
    var s, t := n.x * n.x, n.y * n.y;
    SquarePositive(n.x, s);
    SquarePositive(n.y, t);
    assert norm == s + t;
  }

  lemma ConstantLeast(hs: seq<V2>, js: set<int>, o: V2)
    ensures Least(ORIGIN, hs, js, o)
  {
    forall x: V2 ensures Dot2(ORIGIN, o) <= Dot2(ORIGIN, x) {
      OriginDot(o);
      OriginDot(x);
    }
  }

  lemma OriginDot(x: V2)
    ensures Dot2(ORIGIN, x) == 0.0
  {
  }

  method LinearCase(degen: bool, cw: V2, ccw: V2, n: V2, ghost hs: seq<V2>, ghost js: set<int>) returns (opt: V2)
    requires WedgeIs(hs, js, cw, ccw, degen) && Dot2(n, n) != 0.0
    ensures In(hs, js, opt) && opt != ORIGIN
    ensures Dot2(cw, cw) == Dot2(ccw, ccw) ==> Least(n, hs, js, opt)
  {
    BoundsAreFeasible(hs, js, cw, ccw, degen);
    InsideOpposite(n, cw, ccw);
    if !degen && Cross2(cw, n) <= 0.0 && Cross2(n, ccw) <= 0.0 {
      OriginDot(n);
      InteriorMinimum(n, hs, js, cw, ccw);
      return V2(-n.x, -n.y);
    }
    if Dot2(n, cw) > Dot2(n, ccw) {
      opt := ccw;
    } else {
      opt := cw;
    }
    if Dot2(cw, cw) == Dot2(ccw, ccw) {
      BoundMinimum(n, hs, js, cw, ccw, degen, opt);
    }
  }

  /** The choice among the bounds when the denominator is zero or proportional to the numerator. With a zero denominator
      the numerator itself is minimised over the feasible directions, given bounds of the same length. */
  method DependentCase(degen: bool, cw: V2, ccw: V2, n: V2, d: V2, ghost hs: seq<V2>, ghost js: set<int>)
    returns (status: Status, opt: V2)
    requires WedgeIs(hs, js, cw, ccw, degen) && Cross2(n, d) == 0.0
    ensures In(hs, js, opt) && opt != ORIGIN && Optimal2(n, d, hs, js, opt)
    ensures d == ORIGIN && Dot2(cw, cw) == Dot2(ccw, ccw) ==> Least(n, hs, js, opt)
    ensures status == AMBIGUOUS || status == MINIMUM
  {
    BoundsAreFeasible(hs, js, cw, ccw, degen);
    if Dot2(n, n) == 0.0 || Dot2(d, d) > 0.0 {
      opt := cw;
      status := AMBIGUOUS;
      if d == ORIGIN {
        OriginDot(d);
        NoNumerator(n, Dot2(n, n));
        ConstantLeast(hs, js, opt);
      }
    } else {
      opt := LinearCase(degen, cw, ccw, n, hs, js);
      status := MINIMUM;
    }
    DependentOptimal(n, d, hs, js, opt);
  }

  /** lp_base_case. */
  method LpBaseCase(mem: array<real>, halves: nat, m: int, nVec: nat, dVec: nat, opt: nat,
                    next: array<int>, prev: array<int>, max: nat,
                    ghost hs: seq<Vec>, ghost order: seq<int>, ghost pos: nat)
    returns (status: Status, ghost after: seq<int>)
    requires halves + Cells(max, 2) <= mem.Length && hs == Rows(mem[..], halves, 2, max)
    requires nVec + 2 <= mem.Length && dVec + 2 <= mem.Length && opt + 2 <= mem.Length
    requires Apart(nVec, 2, opt, 2) && Apart(dVec, 2, opt, 2)
    requires Linked(next, prev, order, max) && 0 < pos <= |order| && m == At(order, max, pos)
    modifies mem, next, prev
    ensures OnlyWrites(old(mem[..]), mem[..], opt, opt + 2)
    ensures Linked(next, prev, after, max) && PermutesPrefix(order, after, pos, max)
    ensures Solved(status, old(Slice(mem[..], nVec, 2)), old(Slice(mem[..], dVec, 2)),
                   hs, Planes(order[..pos]), Slice(mem[..], opt, 2))
    ensures status != UNBOUNDED
  {
    ghost var js, pairs := Planes(order[..pos]), AsPairs(hs);
    ghost var n', d' := Slice(mem[..], nVec, 2), Slice(mem[..], dVec, 2);
    RowsAreStored(mem, halves, max);
    var cw, ccw, degen;
    status, cw, ccw, degen, after := Wedge(mem, halves, m, next, prev, max, pairs, order, pos);
    if status == INFEASIBLE {
      OnlyOriginIsEmpty(hs, js);
      return;
    }
    if status == UNBOUNDED {
      status := LpNoConstraints(mem, 1, 2, nVec, dVec, opt, n', d');
      ghost var o := Slice(mem[..], opt, 2);
      AllZeroAdmitsAll(pairs, js, AsPair(o));
      FeasibleIsIn(hs, js, o);
      return;
    }
    var n, d := V2(mem[nVec], mem[nVec + 1]), V2(mem[dVec], mem[dVec + 1]);
    var chosen;
    if Cross2(n, d) == 0.0 {
      status, chosen := DependentCase(degen, cw, ccw, n, d, pairs, js);
    } else {
      chosen := LpMinLinRat(degen, cw, ccw, n, d, pairs, js);
      status := MINIMUM;
    }
    mem[opt] := chosen.x;
    mem[opt + 1] := chosen.y;
    ChosenSolves(status, n', d', hs, js, Slice(mem[..], opt, 2));
  }
}
