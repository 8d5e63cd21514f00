/** hlapi.cpp, _PVAdvertisement: the belief of a photovoltaic resource, through the message and back. */
module PVAdvertisement {
  import opened Expressions
  import opened References
  import opened LetBinding
  import opened Interpreter
  import opened Vectors
  import opened Wrappers

  function Larger(pDelta: real): Term {
    Combine(Call2(Max), Constant(0.0), Combine(Plus, Var("P"), Constant(-pDelta)))
  }

  function SignedBound(tanPhi: real): Term {
    Combine(Times, Call(Sign, Var("Q")),
            Combine(Call2(Min), Call(Abs, Var("Q")), Combine(Times, Ref("a"), Constant(tanPhi))))
  }

  /** The four bounds of the rectangle; the second is named, and the fourth refers to it. */
  function Bounds(pDelta: real, tanPhi: real): seq<Term> {
    [Var("P"), Name("a", Larger(pDelta)), Var("Q"), SignedBound(tanPhi)]
  }

  function Belief(pDelta: real, tanPhi: real): SetExpr {
    var b := BuildAll(Bounds(pDelta, tanPhi));
    SetExpr(None, Rectangle([(b[0], b[1]), (b[2], b[3])]))
  }

  /** The triangle given by Pmax and the power factor, within the disk of the converter's rating. */
  predicate InProfile(sRated: real, pMax: real, tanPhi: real, p: real, q: real) {
    && p <= pMax && -tanPhi * p + q <= 0.0 && -tanPhi * p - q <= 0.0
    && p * p + q * q <= sRated * sRated
  }

  function CornerP(pDelta: real, p: real): real {
    if 0.0 < p + -pDelta then p + -pDelta else 0.0
  }

  function CornerQ(pDelta: real, tanPhi: real, p: real, q: real): real {
    var abs, bound := if q < 0.0 then -q else q, CornerP(pDelta, p) * tanPhi;
    Signum(q) * (if bound < abs then bound else abs)
  }

  // The messages, and their unfoldings, layer by layer

  function SumExpr(pDelta: real): RealExpr {
    Unnamed(Binary(Sum, Unnamed(Variable("P")), Unnamed(Real(-pDelta))))
  }

  function LargerExpr(pDelta: real): RealExpr {
    RealExpr(Some("a"), Binary(Max, Unnamed(Real(0.0)), SumExpr(pDelta)))
  }

  function ReachExpr(tanPhi: real): RealExpr {
    Unnamed(Binary(Prod, Unnamed(Reference("a")), Unnamed(Real(tanPhi))))
  }

  function LeastExpr(tanPhi: real): RealExpr {
    Unnamed(Binary(Min, Unnamed(Unary(Abs, Unnamed(Variable("Q")))), ReachExpr(tanPhi)))
  }

  function SignedExpr(tanPhi: real): RealExpr {
    Unnamed(Binary(Prod, Unnamed(Unary(Sign, Unnamed(Variable("Q")))), LeastExpr(tanPhi)))
  }

  function SumTree(pDelta: real): Tree {
    TBinary(Sum, TVariable("P"), TReal(-pDelta))
  }

  function LargerTree(pDelta: real): Tree {
    TBinary(Max, TReal(0.0), SumTree(pDelta))
  }

  function ReachTree(pDelta: real, tanPhi: real): Tree {
    TBinary(Prod, TRef("a", LargerTree(pDelta)), TReal(tanPhi))
  }

  function LeastTree(pDelta: real, tanPhi: real): Tree {
    TBinary(Min, TUnary(Abs, TVariable("Q")), ReachTree(pDelta, tanPhi))
  }

  function SignedTree(pDelta: real, tanPhi: real): Tree {
    TBinary(Prod, TUnary(Sign, TVariable("Q")), LeastTree(pDelta, tanPhi))
  }

  lemma Built(pDelta: real, tanPhi: real)
    ensures Belief(pDelta, tanPhi).node.bounds ==
            [(Unnamed(Variable("P")), LargerExpr(pDelta)), (Unnamed(Variable("Q")), SignedExpr(tanPhi))]
  {
    assert Build(Combine(Plus, Var("P"), Constant(-pDelta))) == SumExpr(pDelta);
    assert Build(Larger(pDelta)).node == LargerExpr(pDelta).node;
    assert Build(Combine(Times, Ref("a"), Constant(tanPhi))) == ReachExpr(tanPhi);
    assert Build(Call(Abs, Var("Q"))) == Unnamed(Unary(Abs, Unnamed(Variable("Q"))));
    assert Build(SignedBound(tanPhi).b) == LeastExpr(tanPhi);
    assert Build(Call(Sign, Var("Q"))) == Unnamed(Unary(Sign, Unnamed(Variable("Q"))));
  }

  lemma LeafNames(node: Node)
    requires node.Real? || node.Variable? || node.Reference?
    ensures Named(Unnamed(node)) == [] && NodeCount(Unnamed(node)) == 1
  {
  }

  lemma UnaryNames(op: UnaryOp, a: RealExpr)
    ensures Named(Unnamed(Unary(op, a))) == Named(a) && NodeCount(Unnamed(Unary(op, a))) == 1 + NodeCount(a)
  {
  }

  lemma BinaryNames(op: BinaryOp, a: RealExpr, b: RealExpr)
    ensures Named(Unnamed(Binary(op, a, b))) == Named(a) + Named(b)
    ensures NodeCount(Unnamed(Binary(op, a, b))) == 1 + NodeCount(a) + NodeCount(b)
  {
    assert Named(Unnamed(Binary(op, a, b))) == [] + (Named(a) + Named(b));
  }

  lemma LargerNames(pDelta: real)
    ensures Named(LargerExpr(pDelta)) == [LargerExpr(pDelta)] && NodeCount(LargerExpr(pDelta)) == 5
  {
    LeafNames(Variable("P"));
    LeafNames(Real(-pDelta));
    BinaryNames(Sum, Unnamed(Variable("P")), Unnamed(Real(-pDelta)));
    LeafNames(Real(0.0));
    assert NamedBelow(LargerExpr(pDelta)) == [] + [];
  }

  lemma SignedNames(tanPhi: real)
    ensures Named(SignedExpr(tanPhi)) == [] && NodeCount(SignedExpr(tanPhi)) == 9
  {
    var q := Unnamed(Variable("Q"));
    LeafNames(Variable("Q"));
    LeafNames(Reference("a"));
    LeafNames(Real(tanPhi));
    BinaryNames(Prod, Unnamed(Reference("a")), Unnamed(Real(tanPhi)));
    UnaryNames(Abs, q);
    BinaryNames(Min, Unnamed(Unary(Abs, q)), ReachExpr(tanPhi));
    UnaryNames(Sign, q);
    BinaryNames(Prod, Unnamed(Unary(Sign, q)), LeastExpr(tanPhi));
  }

  lemma NamedFirst(e: RealExpr, rest: seq<RealExpr>, es: seq<RealExpr>)
    requires es == [e] + rest
    ensures NamedAll(es) == Named(e) + NamedAll(rest) && NodeCountAll(es) == NodeCount(e) + NodeCountAll(rest)
  {
    assert es[0] == e && es[1..] == rest;
  }

  /** The belief names one expression. */
  lemma BeliefNames(pDelta: real, tanPhi: real)
    ensures NamedInSet(Belief(pDelta, tanPhi)) == [LargerExpr(pDelta)]
    ensures SetNodeCount(Belief(pDelta, tanPhi)) == 17
  {
    Built(pDelta, tanPhi);
    LargerNames(pDelta);
    SignedNames(tanPhi);
    var p, q, l, s := Unnamed(Variable("P")), Unnamed(Variable("Q")), LargerExpr(pDelta), SignedExpr(tanPhi);
    var bounds := [(p, l), (q, s)];
    assert bounds[1..] == [(q, s)] && [(q, s)][1..] == [];
    assert Ends([(q, s)]) == [q, s];
    assert Ends(bounds) == [p, l, q, s];
    assert [p, l, q, s][1..] == [l, q, s] && [l, q, s][1..] == [q, s] && [q, s][1..] == [s] && [s][1..] == [];
    assert Named(p) == [] && Named(q) == [];
    NamedOne(s);
    NamedFirst(q, [s], [q, s]);
    NamedFirst(l, [q, s], [l, q, s]);
    NamedFirst(p, [l, q, s], [p, l, q, s]);
  }

  /** The tree t of e: its size and its value. */
  ghost predicate Means(lib: Library, refs: RefMap, vars: ValueMap, e: RealExpr, t: Tree, size: nat, v: real) {
    Unfolds(refs, e, t) && Bound(vars, t) && Size(t) == size && Value(lib, vars, t) == v
  }

  lemma ConstantMeans(lib: Library, refs: RefMap, vars: ValueMap, x: real)
    ensures Means(lib, refs, vars, Unnamed(Real(x)), TReal(x), 1, x)
  {
  }

  lemma VariableMeans(lib: Library, refs: RefMap, vars: ValueMap, v: string)
    requires v in vars
    ensures Means(lib, refs, vars, Unnamed(Variable(v)), TVariable(v), 1, vars[v])
  {
  }

  lemma UnaryMeans(lib: Library, refs: RefMap, vars: ValueMap, op: UnaryOp, e: RealExpr, t: Tree, n: nat, v: real)
    requires Means(lib, refs, vars, e, t, n, v)
    ensures Means(lib, refs, vars, Unnamed(Unary(op, e)), TUnary(op, t), 1 + n, ApplyUnary(lib, op, v))
  {
  }

  lemma BinaryMeans(lib: Library, refs: RefMap, vars: ValueMap, op: BinaryOp, name: Option<string>,
                    ea: RealExpr, ta: Tree, na: nat, va: real, eb: RealExpr, tb: Tree, nb: nat, vb: real)
    requires Means(lib, refs, vars, ea, ta, na, va) && Means(lib, refs, vars, eb, tb, nb, vb)
    ensures Means(lib, refs, vars, RealExpr(name, Binary(op, ea, eb)), TBinary(op, ta, tb), 1 + na + nb,
                  ApplyBinary(lib, op, va, vb))
  {
  }

  lemma ReferenceMeans(lib: Library, refs: RefMap, vars: ValueMap, n: string, t: Tree, size: nat, v: real)
    requires n in refs && Means(lib, refs, vars, refs[n], t, size, v)
    ensures Means(lib, refs, vars, Unnamed(Reference(n)), TRef(n, t), 1 + size, v)
  {
  }

  lemma LargerMeaning(lib: Library, refs: RefMap, vars: ValueMap, pDelta: real, p: real)
    requires "P" in vars && vars["P"] == p
    ensures Means(lib, refs, vars, LargerExpr(pDelta), LargerTree(pDelta), 5, CornerP(pDelta, p))
  {
    VariableMeans(lib, refs, vars, "P");
    ConstantMeans(lib, refs, vars, -pDelta);
    BinaryMeans(lib, refs, vars, Sum, None, Unnamed(Variable("P")), TVariable("P"), 1, p,
                Unnamed(Real(-pDelta)), TReal(-pDelta), 1, -pDelta);
    ConstantMeans(lib, refs, vars, 0.0);
    BinaryMeans(lib, refs, vars, Max, Some("a"), Unnamed(Real(0.0)), TReal(0.0), 1, 0.0,
                SumExpr(pDelta), SumTree(pDelta), 3, p + -pDelta);
  }

  lemma SignedMeaning(lib: Library, refs: RefMap, vars: ValueMap, pDelta: real, tanPhi: real, p: real, q: real)
    requires "a" in refs && refs["a"] == LargerExpr(pDelta)
    requires "P" in vars && vars["P"] == p && "Q" in vars && vars["Q"] == q
    ensures Means(lib, refs, vars, SignedExpr(tanPhi), SignedTree(pDelta, tanPhi), 14, CornerQ(pDelta, tanPhi, p, q))
  {
    var p2, abs, e, t := CornerP(pDelta, p), if q < 0.0 then -q else q, Unnamed(Variable("Q")), TVariable("Q");
    var reach := p2 * tanPhi;
    var least := if reach < abs then reach else abs;
    LargerMeaning(lib, refs, vars, pDelta, p);
    ReferenceMeans(lib, refs, vars, "a", LargerTree(pDelta), 5, p2);
    ConstantMeans(lib, refs, vars, tanPhi);
    BinaryMeans(lib, refs, vars, Prod, None, Unnamed(Reference("a")), TRef("a", LargerTree(pDelta)), 6, p2,
                Unnamed(Real(tanPhi)), TReal(tanPhi), 1, tanPhi);
    VariableMeans(lib, refs, vars, "Q");
    UnaryMeans(lib, refs, vars, Abs, e, t, 1, q);
    BinaryMeans(lib, refs, vars, Min, None, Unnamed(Unary(Abs, e)), TUnary(Abs, t), 2, abs,
                ReachExpr(tanPhi), ReachTree(pDelta, tanPhi), 8, reach);
    UnaryMeans(lib, refs, vars, Sign, e, t, 1, q);
    BinaryMeans(lib, refs, vars, Prod, None, Unnamed(Unary(Sign, e)), TUnary(Sign, t), 2, Signum(q),
                LeastExpr(tanPhi), LeastTree(pDelta, tanPhi), 11, least);
  }

  /** The message of the belief, read back by the interpreter. */
  method SecondCorner(lib: Library, pDelta: real, tanPhi: real, p: real, q: real)
    returns (p2: Result<real>, q2: Result<real>)
    ensures p2 == Ok(CornerP(pDelta, p)) && q2 == Ok(CornerQ(pDelta, tanPhi, p, q))
  {
    var adv := new AdvFunc(lib);
    var belief := Belief(pDelta, tanPhi);
    Built(pDelta, tanPhi);
    BeliefNames(pDelta, tanPhi);
    var ok := adv.FindSetReferences(belief);
    assert [LargerExpr(pDelta)][1..] == [];
    ghost var refs := adv.realExprRefs;
    assert refs == map["a" := LargerExpr(pDelta)];
    var vars := map["P" := p, "Q" := q];
    LargerMeaning(lib, refs, vars, pDelta, p);
    SignedMeaning(lib, refs, vars, pDelta, tanPhi, p, q);
    ghost var tp, tq := LargerTree(pDelta), SignedTree(pDelta, tanPhi);
    assert Unfolds(refs, LargerExpr(pDelta), tp) && Bound(vars, tp) && Size(tp) <= MAX_NESTING_DEPTH;
    assert Unfolds(refs, SignedExpr(tanPhi), tq) && Bound(vars, tq) && Size(tq) <= MAX_NESTING_DEPTH;
    p2 := adv.Evaluate(belief.node.bounds[0].1, vars);
    q2 := adv.Evaluate(belief.node.bounds[1].1, vars);
  }

  /** Where the sun may fail, the resource stays within its profile. */
  lemma SecondCornerInProfile(sRated: real, pMax: real, pDelta: real, tanPhi: real, p: real, q: real)
    requires pMax >= 0.0 && pDelta >= 0.0 && InProfile(sRated, pMax, tanPhi, p, q)
    ensures InProfile(sRated, pMax, tanPhi, CornerP(pDelta, p), CornerQ(pDelta, tanPhi, p, q))
  {
    if tanPhi > 0.0 {
      CornerInTriangle(sRated, pMax, pDelta, tanPhi, p, q);
    } else {
      CornerOnAxis(sRated, pMax, pDelta, tanPhi, p, q);
    }
  }

  lemma CornerInTriangle(sRated: real, pMax: real, pDelta: real, tanPhi: real, p: real, q: real)
    requires tanPhi > 0.0 && pDelta >= 0.0 && InProfile(sRated, pMax, tanPhi, p, q)
    ensures InProfile(sRated, pMax, tanPhi, CornerP(pDelta, p), CornerQ(pDelta, tanPhi, p, q))
  {
    var p2, abs := CornerP(pDelta, p), if q < 0.0 then -q else q;
    var slope, slope2 := tanPhi * p, tanPhi * p2;
    assert 0.0 <= abs <= slope;
    NonNegativeFactor(tanPhi, p);
    assert 0.0 <= p2 <= p;
    Scaled(tanPhi, 0.0, p2);
    var m := if slope2 < abs then slope2 else abs;
    assert 0.0 <= m <= abs && m <= slope2;
    SquareMonotone(p2, p);
    SquareMonotone(m, abs);
    var q2 := CornerQ(pDelta, tanPhi, p, q);
    assert p2 * tanPhi == slope2;
    assert q2 == m || q2 == -m || q2 == 0.0 by {
      assert q2 == Signum(q) * m;
    }
    assert q2 * q2 <= m * m;
    assert abs * abs == q * q;
  }

  /** Without a positive slope, no reactive power is left beside active power. */
  lemma CornerOnAxis(sRated: real, pMax: real, pDelta: real, tanPhi: real, p: real, q: real)
    requires tanPhi <= 0.0 && pMax >= 0.0 && pDelta >= 0.0 && InProfile(sRated, pMax, tanPhi, p, q)
    ensures InProfile(sRated, pMax, tanPhi, CornerP(pDelta, p), CornerQ(pDelta, tanPhi, p, q))
  {
    var p2 := CornerP(pDelta, p);
    if tanPhi < 0.0 {
      assert tanPhi * p >= 0.0;
      NoPositive(tanPhi, p);
      assert p2 == 0.0;
      assert p2 * tanPhi == 0.0;
      assert CornerQ(pDelta, tanPhi, p, q) == 0.0 by {
        assert Signum(q) * 0.0 == 0.0;
      }
      assert p * p >= 0.0 && q * q >= 0.0;
    } else {
      assert tanPhi * p == 0.0 && q == 0.0;
      assert p2 * tanPhi == 0.0 && CornerQ(pDelta, tanPhi, p, q) == 0.0;
      if p > 0.0 {
        SquareMonotone(p2, p);
      }
      assert p * p >= 0.0 && q * q == 0.0;
    }
  }

  lemma NoPositive(t: real, p: real)
    requires t < 0.0 && t * p >= 0.0
    ensures p <= 0.0
  {
  }

  lemma Scaled(t: real, a: real, b: real)
    requires t > 0.0 && a <= b
    ensures t * a <= t * b
  {
  }

  ghost predicate CornersStay(sRated: real, pMax: real, pDelta: real, tanPhi: real) {
    forall p, q | InProfile(sRated, pMax, tanPhi, p, q) ::
      InProfile(sRated, pMax, tanPhi, CornerP(pDelta, p), CornerQ(pDelta, tanPhi, p, q))
  }

  /** The code leaves open whether a negative delta should be refused: it should. So should a negative greatest power,
      for which the corners stay only if the profile is empty. */
  lemma DeltaExact(sRated: real, pMax: real, pDelta: real, tanPhi: real)
    ensures CornersStay(sRated, pMax, pDelta, tanPhi) <==>
            if pMax >= 0.0 then pDelta >= 0.0 else tanPhi > 0.0 || sRated * sRated < pMax * pMax
  {
    if pMax < 0.0 {
      NegativeProfile(sRated, pMax, pDelta, tanPhi);
    } else if pDelta >= 0.0 {
      forall p, q | InProfile(sRated, pMax, tanPhi, p, q)
        ensures InProfile(sRated, pMax, tanPhi, CornerP(pDelta, p), CornerQ(pDelta, tanPhi, p, q))
      {
        SecondCornerInProfile(sRated, pMax, pDelta, tanPhi, p, q);
      }
    } else {
      var p := CornerLeaves(sRated, pMax, pDelta, tanPhi);
    }
  }

  lemma NegativeProfile(sRated: real, pMax: real, pDelta: real, tanPhi: real)
    requires pMax < 0.0
    ensures CornersStay(sRated, pMax, pDelta, tanPhi) <==> tanPhi > 0.0 || sRated * sRated < pMax * pMax
  {
    forall p, q | InProfile(sRated, pMax, tanPhi, p, q) ensures tanPhi <= 0.0 && pMax * pMax <= sRated * sRated {
      NegativeSetpoint(sRated, pMax, tanPhi, p, q);
    }
    if tanPhi <= 0.0 && pMax * pMax <= sRated * sRated {
      var slope := -tanPhi * pMax;
      NonNegativeProduct(-tanPhi, -pMax, -slope);
      assert InProfile(sRated, pMax, tanPhi, pMax, 0.0);
      assert CornerP(pDelta, pMax) > pMax;
      assert !InProfile(sRated, pMax, tanPhi, CornerP(pDelta, pMax), CornerQ(pDelta, tanPhi, pMax, 0.0));
    }
  }

  lemma NegativeSetpoint(sRated: real, pMax: real, tanPhi: real, p: real, q: real)
    requires pMax < 0.0 && InProfile(sRated, pMax, tanPhi, p, q)
    ensures tanPhi <= 0.0 && pMax * pMax <= sRated * sRated
  {
    SquareMonotone(-pMax, -p);
    SquarePositive(q, q * q);
    assert -p * -p == p * p && -pMax * -pMax == pMax * pMax;
    if tanPhi > 0.0 {
      var slope := tanPhi * p;
      assert slope >= 0.0;
      NonNegativeFactor(tanPhi, p);
    }
  }

  /** With a greatest power of -1 and nothing to fail, the setpoint (-1, 0) has the corner (0, 0). */
  lemma NegativeGreatestPower()
    ensures InProfile(1.0, -1.0, 0.0, -1.0, 0.0)
    ensures !InProfile(1.0, -1.0, 0.0, CornerP(0.0, -1.0), CornerQ(0.0, 0.0, -1.0, 0.0))
  {
    assert CornerP(0.0, -1.0) == 0.0;
  }

  /** With a negative delta, a corner without reactive power lies beyond the profile. */
  lemma CornerLeaves(sRated: real, pMax: real, pDelta: real, tanPhi: real) returns (p: real)
    requires pMax >= 0.0 && pDelta < 0.0
    ensures InProfile(sRated, pMax, tanPhi, p, 0.0)
    ensures !InProfile(sRated, pMax, tanPhi, CornerP(pDelta, p), CornerQ(pDelta, tanPhi, p, 0.0))
  {
    var s := if sRated < 0.0 then -sRated else sRated;
    p := if tanPhi < 0.0 then 0.0 else if s < pMax then s else pMax;
    var p2 := CornerP(pDelta, p);
    assert CornerQ(pDelta, tanPhi, p, 0.0) == 0.0;
    assert s * s == sRated * sRated;
    if tanPhi < 0.0 {
      assert tanPhi * p == 0.0 && p * p == 0.0 && s * s >= 0.0;
      ProductPositive(-tanPhi, p2, -tanPhi * p2);
    } else {
      NonNegativeProduct(tanPhi, p, tanPhi * p);
      SquareMonotone(p, s);
      if p2 <= pMax {
        StrictSquares(s, p2);
      }
    }
  }

  lemma StrictSquares(a: real, b: real)
    requires 0.0 <= a < b
    ensures a * a < b * b
  {
    ProductPositive(b - a, b + a, b * b - a * a);
  }
}
