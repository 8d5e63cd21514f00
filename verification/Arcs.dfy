/** Cones in the plane: the feasible directions of a list of half-lines, as an arc between a
    clockwise and a counter-clockwise bound. */
module Arcs {
  import opened Vectors

  datatype V2 = V2(x: real, y: real)

  const ORIGIN := V2(0.0, 0.0)

  function Dot2(a: V2, b: V2): real { a.x * b.x + a.y * b.y }

  function Cross2(a: V2, b: V2): real { a.x * b.y - a.y * b.x }

  function Times(s: real, a: V2): V2 { V2(s * a.x, s * a.y) }

  /** A quarter turn clockwise. */
  function Clockwise(a: V2): V2 { V2(a.y, -a.x) }

  function Minus(a: V2): V2 { V2(-a.x, -a.y) }

  /** x satisfies all half-lines with an index in js */
  ghost predicate In(hs: seq<V2>, js: set<int>, x: V2) {
    forall j | j in js :: 0 <= j < |hs| && Dot2(hs[j], x) >= 0.0
  }

  predicate InArc(cw: V2, ccw: V2, x: V2) {
    Cross2(cw, x) >= 0.0 && Cross2(x, ccw) >= 0.0
  }

  predicate OnRay(c: V2, x: V2) {
    Cross2(c, x) == 0.0 && Dot2(c, x) >= 0.0
  }

  predicate Opposite(a: V2, b: V2) {
    Cross2(a, b) == 0.0 && Dot2(a, b) < 0.0
  }

  /** The arc from cw to ccw spans more than nothing and at most a half turn. */
  predicate Wide(cw: V2, ccw: V2) {
    cw != ORIGIN && ccw != ORIGIN && (Cross2(cw, ccw) > 0.0 || Opposite(cw, ccw))
  }

  ghost predicate ArcIs(hs: seq<V2>, js: set<int>, cw: V2, ccw: V2) {
    Wide(cw, ccw) && forall x: V2 :: In(hs, js, x) <==> InArc(cw, ccw, x)
  }

  ghost predicate RaysAre(hs: seq<V2>, js: set<int>, cw: V2, ccw: V2) {
    && cw != ORIGIN && ccw != ORIGIN && Cross2(cw, ccw) == 0.0
    && forall x: V2 :: In(hs, js, x) <==> OnRay(cw, x) || OnRay(ccw, x)
  }

  ghost predicate OnlyOrigin(hs: seq<V2>, js: set<int>) {
    forall x: V2 :: In(hs, js, x) ==> x == ORIGIN
  }

  // Polynomial identities

  lemma Cramer(a: V2, b: V2, h: V2, x: V2)
    ensures Cross2(a, b) * Dot2(h, x) == Dot2(h, a) * Cross2(x, b) + Dot2(h, b) * Cross2(a, x)
  {
  }

  lemma CramerCross(a: V2, b: V2, h: V2, x: V2)
    ensures Cross2(a, b) * Cross2(h, x) == Cross2(h, a) * Cross2(x, b) + Cross2(h, b) * Cross2(a, x)
  {
  }

  lemma Frame(c: V2, h: V2, x: V2)
    ensures Dot2(c, c) * Dot2(h, x) == Dot2(h, c) * Dot2(c, x) + Cross2(c, h) * Cross2(c, x)
  {
  }

  lemma FrameCross(c: V2, a: V2, x: V2)
    ensures Dot2(c, c) * Cross2(a, x) == Cross2(a, c) * Dot2(c, x) + Dot2(a, c) * Cross2(c, x)
  {
  }

  // Signs

  /** k > 0 and k*z = p*q + r*s with no negative factor on the right. */
  lemma SumNonNegative(k: real, z: real, p: real, q: real, r: real, s: real)
    requires k > 0.0 && k * z == p * q + r * s
    requires p >= 0.0 && q >= 0.0 && r >= 0.0 && s >= 0.0
    ensures z >= 0.0
  {
    NonNegativeProduct(p, q, p * q);
    NonNegativeProduct(r, s, r * s);
    NonNegativeFactor(k, z);
  }

  lemma SumPositive(k: real, z: real, p: real, q: real)
    requires k > 0.0 && k * z == p * q && p > 0.0 && q > 0.0
    ensures z > 0.0
  {
    ProductPositive(p, q, p * q);
    NonNegativeFactor(k, z);
  }

  lemma ZeroProduct(k: real, z: real)
    requires k != 0.0 && k * z == 0.0
    ensures z == 0.0
  {
  }

  lemma NonzeroNorm(c: V2)
    requires c != ORIGIN
    ensures Dot2(c, c) > 0.0
  {
    SquarePositive(c.x, c.x * c.x);
    SquarePositive(c.y, c.y * c.y);
  }

  /** Opposite bounds lie on opposite sides of every line through the origin. */
  lemma OppositeSigns(a: V2, b: V2, h: V2)
    requires a != ORIGIN && Opposite(a, b)
    ensures Dot2(h, a) > 0.0 ==> Dot2(h, b) < 0.0
    ensures Dot2(h, a) < 0.0 ==> Dot2(h, b) > 0.0
    ensures Dot2(h, a) == 0.0 ==> Dot2(h, b) == 0.0
  {
    Frame(a, h, b);
    NonzeroNorm(a);
    var k, z := Dot2(a, a), Dot2(h, b);
    assert k * z == Dot2(h, a) * Dot2(a, b);
    if Dot2(h, a) > 0.0 {
      assert k * -z == Dot2(h, a) * -Dot2(a, b);
      SumPositive(k, -z, Dot2(h, a), -Dot2(a, b));
    } else if Dot2(h, a) < 0.0 {
      assert k * z == -Dot2(h, a) * -Dot2(a, b);
      SumPositive(k, z, -Dot2(h, a), -Dot2(a, b));
    } else {
      ZeroProduct(k, z);
    }
  }

  lemma WideCross(cw: V2, ccw: V2)
    requires Wide(cw, ccw)
    ensures Cross2(cw, ccw) >= 0.0
  {
  }

  /** The first non-trivial half-line: its arc is the half turn between its two normals. */
  lemma HalfTurn(h: V2, s: real, x: V2)
    requires h != ORIGIN && s > 0.0
    ensures Wide(Clockwise(Times(s, h)), Minus(Clockwise(Times(s, h))))
    ensures Dot2(h, x) >= 0.0 <==> InArc(Clockwise(Times(s, h)), Minus(Clockwise(Times(s, h))), x)
  {
    var c := Clockwise(Times(s, h));
    ZeroProductPair(s, h);
    NonzeroNorm(c);
    assert Dot2(c, Minus(c)) == -Dot2(c, c);
    assert Cross2(c, x) == s * Dot2(h, x);
    assert Cross2(x, Minus(c)) == s * Dot2(h, x);
    ScaledSign(s, Dot2(h, x));
  }

  lemma ZeroProductPair(s: real, h: V2)
    requires s != 0.0 && h != ORIGIN
    ensures Times(s, h) != ORIGIN
  {
  }

  lemma ScaledSign(s: real, z: real)
    requires s > 0.0
    ensures s * z >= 0.0 <==> z >= 0.0
    ensures s * z > 0.0 <==> z > 0.0
  {
  }

  /** A bound c strictly between the two takes the place of the clockwise one ... */
  lemma MoveClockwiseBound(cw: V2, ccw: V2, c: V2, x: V2)
    requires Cross2(cw, ccw) >= 0.0 && Cross2(c, ccw) > 0.0 && Cross2(cw, c) >= 0.0
    requires InArc(c, ccw, x)
    ensures InArc(cw, ccw, x)
  {
    CramerCross(c, ccw, cw, x);
    SumNonNegative(Cross2(c, ccw), Cross2(cw, x), Cross2(cw, c), Cross2(x, ccw), Cross2(cw, ccw), Cross2(c, x));
  }

  /** ... or of the counter-clockwise one. */
  lemma MoveCounterClockwiseBound(cw: V2, ccw: V2, c: V2, x: V2)
    requires Cross2(cw, ccw) >= 0.0 && Cross2(cw, c) > 0.0 && Cross2(c, ccw) >= 0.0
    requires InArc(cw, c, x)
    ensures InArc(cw, ccw, x)
  {
    var p, q, r, t := Cross2(cw, ccw), Cross2(x, c), Cross2(c, ccw), Cross2(cw, x);
    assert Cross2(cw, c) * Cross2(x, ccw) == p * q + r * t;
    SumNonNegative(Cross2(cw, c), Cross2(x, ccw), p, q, r, t);
  }

  /** The normals of h, as bounds. */
  lemma NormalSigns(h: V2, s: real, x: V2)
    requires s > 0.0
    ensures Cross2(Clockwise(Times(s, h)), x) >= 0.0 <==> Dot2(h, x) >= 0.0
    ensures Cross2(Clockwise(Times(s, h)), x) > 0.0 <==> Dot2(h, x) > 0.0
    ensures Cross2(x, Minus(Clockwise(Times(s, h)))) >= 0.0 <==> Dot2(h, x) >= 0.0
    ensures Cross2(x, Minus(Clockwise(Times(s, h)))) > 0.0 <==> Dot2(h, x) > 0.0
    ensures Cross2(x, Clockwise(Times(s, h))) == -Cross2(Clockwise(Times(s, h)), x)
    ensures Cross2(Minus(Clockwise(Times(s, h))), x) == -Cross2(x, Minus(Clockwise(Times(s, h))))
  {
    assert Cross2(Clockwise(Times(s, h)), x) == s * Dot2(h, x);
    assert Cross2(x, Minus(Clockwise(Times(s, h)))) == s * Dot2(h, x);
    ScaledSign(s, Dot2(h, x));
  }

  lemma NonzeroCross(a: V2, b: V2)
    requires Cross2(a, b) != 0.0
    ensures a != ORIGIN && b != ORIGIN
  {
  }

  /** h cuts off the clockwise end: its normal c becomes the new bound. */
  lemma CutClockwise(cw: V2, ccw: V2, h: V2, c: V2, x: V2)
    requires Wide(cw, ccw) && Cross2(c, ccw) > 0.0 && Cross2(cw, c) >= 0.0
    requires Cross2(c, x) >= 0.0 <==> Dot2(h, x) >= 0.0
    ensures InArc(cw, ccw, x) && Dot2(h, x) >= 0.0 <==> InArc(c, ccw, x)
  {
    WideCross(cw, ccw);
    if InArc(c, ccw, x) {
      MoveClockwiseBound(cw, ccw, c, x);
    }
  }

  /** h cuts off the counter-clockwise end. */
  lemma CutCounterClockwise(cw: V2, ccw: V2, h: V2, c: V2, x: V2)
    requires Wide(cw, ccw) && Cross2(cw, c) > 0.0 && Cross2(c, ccw) >= 0.0
    requires Cross2(x, c) >= 0.0 <==> Dot2(h, x) >= 0.0
    ensures InArc(cw, ccw, x) && Dot2(h, x) >= 0.0 <==> InArc(cw, c, x)
  {
    WideCross(cw, ccw);
    if InArc(cw, c, x) {
      MoveCounterClockwiseBound(cw, ccw, c, x);
    }
  }

  /** h is satisfied by both ends, and so by the whole arc. */
  lemma KeepsArc(cw: V2, ccw: V2, h: V2, x: V2)
    requires Wide(cw, ccw) && Dot2(cw, h) >= 0.0 && Dot2(ccw, h) >= 0.0
    requires Dot2(cw, h) > 0.0 || Dot2(ccw, h) > 0.0
    requires InArc(cw, ccw, x)
    ensures Dot2(h, x) >= 0.0
  {
    if Opposite(cw, ccw) {
      OppositeSigns(cw, ccw, h);
      assert false;
    } else {
      Cramer(cw, ccw, h, x);
      SumNonNegative(Cross2(cw, ccw), Dot2(h, x), Dot2(h, cw), Cross2(x, ccw), Dot2(h, ccw), Cross2(cw, x));
    }
  }

  /** h is violated by both ends, and so by the whole arc. */
  lemma MissesArc(cw: V2, ccw: V2, h: V2, x: V2)
    requires Wide(cw, ccw) && Dot2(cw, h) < 0.0 && Dot2(ccw, h) < 0.0
    requires InArc(cw, ccw, x) && Dot2(h, x) >= 0.0
    ensures x == ORIGIN
  {
    if Opposite(cw, ccw) {
      OppositeSigns(cw, ccw, h);
      assert false;
    } else {
      Cramer(cw, ccw, h, x);
      BothZero(Cross2(cw, ccw), Dot2(h, x), -Dot2(h, cw), Cross2(x, ccw), -Dot2(h, ccw), Cross2(cw, x));
      OnBothLines(cw, ccw, x);
    }
  }

  lemma BothZero(k: real, z: real, p: real, q: real, r: real, s: real)
    requires k > 0.0 && z >= 0.0 && k * z == -p * q + -r * s
    requires p > 0.0 && r > 0.0 && q >= 0.0 && s >= 0.0
    ensures q == 0.0 && s == 0.0
  {
    NonNegativeProduct(k, z, k * z);
    NonNegativeProduct(p, q, p * q);
    NonNegativeProduct(r, s, r * s);
    ZeroProduct(p, q);
    ZeroProduct(r, s);
  }

  lemma OnBothLines(a: V2, b: V2, x: V2)
    requires Cross2(a, b) != 0.0 && Cross2(a, x) == 0.0 && Cross2(x, b) == 0.0
    ensures x == ORIGIN
  {
    Cramer(a, b, x, x);
    assert Cross2(a, b) * Dot2(x, x) == 0.0;
    ZeroProduct(Cross2(a, b), Dot2(x, x));
    if x != ORIGIN {
      NonzeroNorm(x);
    }
  }

  /** h is violated at the clockwise end and tight at the other: only that ray is left. */
  lemma LeavesCounterClockwiseRay(cw: V2, ccw: V2, h: V2, x: V2)
    requires Wide(cw, ccw) && Dot2(cw, h) < 0.0 && Dot2(ccw, h) == 0.0
    ensures InArc(cw, ccw, x) && Dot2(h, x) >= 0.0 <==> OnRay(ccw, x)
  {
    if Opposite(cw, ccw) {
      OppositeSigns(cw, ccw, h);
      assert false;
    } else {
      var k := Cross2(cw, ccw);
      Cramer(cw, ccw, h, x);
      assert k * Dot2(h, x) == -(-Dot2(h, cw) * Cross2(x, ccw));
      OneSided(k, Dot2(h, x), -Dot2(h, cw), Cross2(x, ccw));
      assert Cross2(x, ccw) == -Cross2(ccw, x);
      if Cross2(ccw, x) == 0.0 {
        FrameCross(ccw, cw, x);
        NonzeroNorm(ccw);
        assert Dot2(ccw, ccw) * Cross2(cw, x) == k * Dot2(ccw, x);
        SameSign(Dot2(ccw, ccw), Cross2(cw, x), k, Dot2(ccw, x));
      }
    }
  }

  /** h is violated at the counter-clockwise end and tight at the other. */
  lemma LeavesClockwiseRay(cw: V2, ccw: V2, h: V2, x: V2)
    requires Wide(cw, ccw) && Dot2(cw, h) == 0.0 && Dot2(ccw, h) < 0.0
    ensures InArc(cw, ccw, x) && Dot2(h, x) >= 0.0 <==> OnRay(cw, x)
  {
    if Opposite(cw, ccw) {
      OppositeSigns(cw, ccw, h);
      assert false;
    } else {
      var k := Cross2(cw, ccw);
      Cramer(cw, ccw, h, x);
      assert k * Dot2(h, x) == -(-Dot2(h, ccw) * Cross2(cw, x));
      OneSided(k, Dot2(h, x), -Dot2(h, ccw), Cross2(cw, x));
      if Cross2(cw, x) == 0.0 {
        FrameCross(cw, ccw, x);
        NonzeroNorm(cw);
        assert Dot2(cw, cw) * Cross2(x, ccw) == k * Dot2(cw, x);
        SameSign(Dot2(cw, cw), Cross2(x, ccw), k, Dot2(cw, x));
      }
    }
  }

  lemma OneSided(k: real, z: real, p: real, q: real)
    requires k > 0.0 && p > 0.0 && k * z == -(p * q)
    ensures q >= 0.0 && z >= 0.0 ==> q == 0.0
    ensures q == 0.0 ==> z >= 0.0
  {
    if q == 0.0 {
      ZeroProduct(k, z);
    } else if q > 0.0 {
      ProductPositive(p, q, p * q);
      if z >= 0.0 {
        NonNegativeProduct(k, z, k * z);
      }
    }
  }

  lemma SameSign(k: real, z: real, l: real, w: real)
    requires k > 0.0 && l > 0.0 && k * z == l * w
    ensures z >= 0.0 <==> w >= 0.0
  {
    ScaledSign(k, z);
    ScaledSign(l, w);
  }

  /** h is tight at both ends of a half turn and points the other way: both rays are left. */
  lemma LeavesBothRays(cw: V2, ccw: V2, h: V2, x: V2)
    requires Wide(cw, ccw) && Dot2(cw, h) == 0.0 && Dot2(ccw, h) == 0.0 && Cross2(cw, h) < 0.0
    ensures InArc(cw, ccw, x) && Dot2(h, x) >= 0.0 <==> OnRay(cw, x) || OnRay(ccw, x)
  {
    TightBothEnds(cw, ccw, h);
    OppositeTurn(cw, ccw, x);
    Frame(cw, h, x);
    NonzeroNorm(cw);
    assert Dot2(cw, cw) * Dot2(h, x) == -(-Cross2(cw, h) * Cross2(cw, x));
    OneSided(Dot2(cw, cw), Dot2(h, x), -Cross2(cw, h), Cross2(cw, x));
  }

  /** A line tight at both ends passes through a half turn, unless h is zero. */
  lemma TightBothEnds(cw: V2, ccw: V2, h: V2)
    requires Wide(cw, ccw) && Dot2(cw, h) == 0.0 && Dot2(ccw, h) == 0.0 && h != ORIGIN
    ensures Opposite(cw, ccw)
  {
    if Cross2(cw, ccw) > 0.0 {
      Cramer(cw, ccw, h, h);
      assert Cross2(cw, ccw) * Dot2(h, h) == 0.0;
      ZeroProduct(Cross2(cw, ccw), Dot2(h, h));
      NonzeroNorm(h);
      assert false;
    }
  }

  lemma OppositeTurn(cw: V2, ccw: V2, x: V2)
    requires cw != ORIGIN && Opposite(cw, ccw)
    ensures Cross2(cw, x) >= 0.0 <==> Cross2(x, ccw) >= 0.0
    ensures Cross2(cw, x) == 0.0 <==> Cross2(ccw, x) == 0.0
    ensures Cross2(cw, x) == 0.0 ==> (Dot2(cw, x) >= 0.0 <==> Dot2(ccw, x) <= 0.0)
  {
    NonzeroNorm(cw);
    var k, l := Dot2(cw, cw), -Dot2(cw, ccw);
    FrameCross(cw, ccw, x);
    assert k * Cross2(x, ccw) == l * Cross2(cw, x);
    SameSign(k, Cross2(x, ccw), l, Cross2(cw, x));
    assert k * -Cross2(x, ccw) == l * -Cross2(cw, x);
    SameSign(k, -Cross2(x, ccw), l, -Cross2(cw, x));
    if Cross2(cw, x) == 0.0 {
      Frame(cw, ccw, x);
      assert k * -Dot2(ccw, x) == l * Dot2(cw, x);
      SameSign(k, -Dot2(ccw, x), l, Dot2(cw, x));
    }
  }

  /** h is tight at both ends of a half turn and points into it, or is zero: nothing changes. */
  lemma KeepsHalfTurn(cw: V2, ccw: V2, h: V2, x: V2)
    requires Wide(cw, ccw) && Dot2(cw, h) == 0.0 && Dot2(ccw, h) == 0.0 && Cross2(cw, h) >= 0.0
    requires InArc(cw, ccw, x)
    ensures Dot2(h, x) >= 0.0
  {
    Frame(cw, h, x);
    NonzeroNorm(cw);
    SumNonNegative(Dot2(cw, cw), Dot2(h, x), Cross2(cw, h), Cross2(cw, x), 0.0, 0.0);
  }

  /** On a ray, h holds everywhere, or only at the origin. */
  lemma RaySign(c: V2, h: V2, x: V2)
    requires c != ORIGIN && OnRay(c, x)
    ensures Dot2(c, h) >= 0.0 ==> Dot2(h, x) >= 0.0
    ensures Dot2(c, h) < 0.0 && Dot2(h, x) >= 0.0 ==> x == ORIGIN
  {
    Frame(c, h, x);
    NonzeroNorm(c);
    var k := Dot2(c, c);
    if Dot2(c, h) >= 0.0 {
      SumNonNegative(k, Dot2(h, x), Dot2(h, c), Dot2(c, x), 0.0, 0.0);
    } else if Dot2(h, x) >= 0.0 {
      assert k * Dot2(h, x) == -(-Dot2(h, c) * Dot2(c, x));
      OneSided(k, Dot2(h, x), -Dot2(h, c), Dot2(c, x));
      Perpendicular(c, x);
    }
  }

  lemma Perpendicular(c: V2, x: V2)
    requires c != ORIGIN && Dot2(c, x) == 0.0 && Cross2(c, x) == 0.0
    ensures x == ORIGIN
  {
    NonzeroNorm(c);
    Frame(c, x, x);
    assert Dot2(c, c) * Dot2(x, x) == 0.0;
    ZeroProduct(Dot2(c, c), Dot2(x, x));
    if x != ORIGIN {
      NonzeroNorm(x);
    }
  }
}
