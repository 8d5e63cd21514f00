/** evalPartialDerivative computes derivatives: the interpreter's rules (Derivatives) against the derivative
    as the slope of the expression along the step (Calculus). */
module DerivativeTheorems {
  import opened Calculus
  import opened Derivatives
  import opened Expressions
  import opened Interpreter

  function Shifted(vars: ValueMap, x: string, h: real): ValueMap {
    if x in vars then vars[x := vars[x] + h] else vars
  }

  ghost function Along(lib: Library, vars: ValueMap, x: string, t: Tree): real -> real {
    h => Value(lib, Shifted(vars, x, h), t)
  }

  /** d is the derivative of t by x at vars. */
  ghost predicate IsDerivative(lib: Library, vars: ValueMap, x: string, t: Tree, d: real) {
    Jet(Along(lib, vars, x, t), Value(lib, vars, t), d)
  }

  lemma DerivativeUnique(lib: Library, vars: ValueMap, x: string, t: Tree, d: real, d': real)
    requires IsDerivative(lib, vars, x, t, d) && IsDerivative(lib, vars, x, t, d')
    ensures d == d'
  {
    var v := Value(lib, vars, t);
    JetUnique(Along(lib, vars, x, t), v, d, v, d');
  }

  /** The usual reading: f(v + h) = f(v) + h*d, up to b*h^2. */
  lemma DerivativeBound(lib: Library, vars: ValueMap, x: string, t: Tree, d: real) returns (b: real)
    requires IsDerivative(lib, vars, x, t, d)
    ensures b >= 0.0 && forall h: real | -1.0 <= h <= 1.0 ::
      FirstOrder(Value(lib, Shifted(vars, x, h), t), Value(lib, vars, t), d, h, b)
  {
    var f, v := Along(lib, vars, x, t), Value(lib, vars, t);
    b := JetBound(f, v, d);
    forall h: real | -1.0 <= h <= 1.0 ensures FirstOrder(Value(lib, Shifted(vars, x, h), t), v, d, h, b) {
      assert FirstOrder(f(h), v, d, h, b);
    }
  }

  /** k = s*f */
  lemma JetScaled(f: real -> real, a0: real, a1: real, s: real, k: real -> real, c0: real, c1: real)
    requires Jet(f, a0, a1) && IsTimes(c0, s, a0) && IsTimes(c1, s, a1)
    requires forall h: real :: IsTimes(k(h), s, f(h))
    ensures Jet(k, c0, c1)
  {
    var g := ConstantAlong(s);
    JetConstant(g, s);
    forall h: real ensures IsTimes(k(h), g(h), f(h)) {
      assert IsTimes(k(h), s, f(h));
    }
    JetProduct(g, s, 0.0, f, a0, a1, k, c0, c1);
  }

  lemma JetSame(f: real -> real, g: real -> real, c0: real, c1: real)
    requires Jet(f, c0, c1) && forall h: real :: g(h) == f(h)
    ensures Jet(g, c0, c1)
  {
    var p: Coeffs :| Agrees(f, p) && Coeff(p, 0) == c0 && Coeff(p, 1) == c1;
    forall h: real ensures g(h) == Horner(p, h) {
      AgreesAt(f, p, h);
    }
    assert Agrees(g, p);
  }

  // Polynomial nodes

  ghost function CoordinateAlong(vars: ValueMap, x: string, v: string): real -> real {
    h => Lookup(Shifted(vars, x, h), v)
  }

  lemma CoordinateJet(vars: ValueMap, x: string, v: string)
    requires v in vars
    ensures Jet(CoordinateAlong(vars, x, v), vars[v], if v == x then 1.0 else 0.0)
  {
    if v == x {
      JetShift(CoordinateAlong(vars, x, v), vars[v]);
    } else {
      JetConstant(CoordinateAlong(vars, x, v), vars[v]);
    }
  }

  ghost function MonomialAlong(vars: ValueMap, x: string, names: seq<string>, exps: seq<nat>, n: nat): real -> real
    requires n <= |names| && n <= |exps|
  {
    h => MonomialTo(Point(Shifted(vars, x, h), names), exps, -1, n)
  }

  /** The sum of the derivatives by those of the first m variables that are x. */
  function Slopes(point: seq<real>, x: string, names: seq<string>, exps: seq<nat>, m: nat, n: nat): real
    requires m <= |names| == |point| && n <= |names| && n <= |exps|
  {
    if m == 0 then 0.0
    else Slopes(point, x, names, exps, m - 1, n) +
         if names[m - 1] == x then MonomialTo(point, exps, m - 1, n) else 0.0
  }

  lemma {:induction false} DerivedBeyond(point: seq<real>, exps: seq<nat>, dVar: nat, n: nat)
    requires n <= dVar && n <= |point| && n <= |exps|
    ensures MonomialTo(point, exps, dVar, n) == MonomialTo(point, exps, -1, n)
  {
    if n > 0 {
      DerivedBeyond(point, exps, dVar, n - 1);
    }
  }

  lemma {:induction false} SlopesGrow(point: seq<real>, x: string, names: seq<string>, exps: seq<nat>, m: nat, n: nat,
                                      n': nat)
    requires n' == n + 1 && m <= n < |names| == |point| && n < |exps|
    ensures Slopes(point, x, names, exps, m, n') == Slopes(point, x, names, exps, m, n) * Power(point[n], exps[n])
  {
    if m > 0 {
      SlopesGrow(point, x, names, exps, m - 1, n, n');
    }
  }

  ghost predicate IsMonomial(point: seq<real>, x: string, names: seq<string>, exps: seq<nat>, n: nat,
                             c0: real, c1: real)
    requires n <= |names| == |point| && n <= |exps|
  {
    c0 == MonomialTo(point, exps, -1, n) && c1 == Slopes(point, x, names, exps, n, n)
  }

  lemma {:induction false} MonomialJet(vars: ValueMap, x: string, names: seq<string>, exps: seq<nat>, n': nat)
    returns (c0: real, c1: real)
    requires n' <= |names| && n' <= |exps| && forall v | v in names :: v in vars
    ensures IsMonomial(Point(vars, names), x, names, exps, n', c0, c1)
    ensures Jet(MonomialAlong(vars, x, names, exps, n'), c0, c1)
  {
    if n' == 0 {
      c0, c1 := 1.0, 0.0;
      JetConstant(MonomialAlong(vars, x, names, exps, n'), 1.0);
    } else {
      var n, point := n' - 1, Point(vars, names);
      var m0, m1 := MonomialJet(vars, x, names, exps, n);
      var f := CoordinateAlong(vars, x, names[n]);
      CoordinateJet(vars, x, names[n]);
      var p1 := if names[n] == x then 1.0 else 0.0;
      var q0, q1 := JetPower(f, point[n], p1, exps[n]);
      MonomialAlongStep(vars, x, names, exps, n, n');
      c0, c1 := MonomialNumbers(point, x, names, exps, n, n', m0, m1, p1, q0, q1);
      JetProduct(MonomialAlong(vars, x, names, exps, n), m0, m1, PowerAlong(f, exps[n]), q0, q1,
                 MonomialAlong(vars, x, names, exps, n'), c0, c1);
    }
  }

  lemma MonomialAlongStep(vars: ValueMap, x: string, names: seq<string>, exps: seq<nat>, n: nat, n': nat)
    requires n' == n + 1 && n < |names| && n < |exps|
    ensures IsProduct(MonomialAlong(vars, x, names, exps, n'), MonomialAlong(vars, x, names, exps, n),
                      PowerAlong(CoordinateAlong(vars, x, names[n]), exps[n]))
  {
    forall h: real
      ensures IsTimes(MonomialAlong(vars, x, names, exps, n')(h), MonomialAlong(vars, x, names, exps, n)(h),
                      PowerAlong(CoordinateAlong(vars, x, names[n]), exps[n])(h))
    {
      var point := Point(Shifted(vars, x, h), names);
      assert point[n] == CoordinateAlong(vars, x, names[n])(h);
      MonomialUnfolds(point, exps, n, n', MonomialTo(point, exps, -1, n), Power(point[n], exps[n]),
                      MonomialTo(point, exps, -1, n'));
    }
  }

  lemma MonomialUnfolds(point: seq<real>, exps: seq<nat>, n: nat, n': nat, a: real, b: real, c: real)
    requires n' == n + 1 && n < |point| && n < |exps| && a == MonomialTo(point, exps, -1, n)
    requires b == Power(point[n], exps[n]) && c == MonomialTo(point, exps, -1, n')
    ensures IsTimes(c, a, b)
  {
  }

  lemma MonomialNumbers(point: seq<real>, x: string, names: seq<string>, exps: seq<nat>, n: nat, n': nat,
                        m0: real, m1: real, p1: real, q0: real, q1: real) returns (c0: real, c1: real)
    requires n' == n + 1 && n < |names| == |point| && n < |exps| && p1 == (if names[n] == x then 1.0 else 0.0)
    requires IsMonomial(point, x, names, exps, n, m0, m1) && IsPower(point[n], p1, exps[n], q0, q1)
    ensures IsMonomial(point, x, names, exps, n', c0, c1) && ProductRule(m0, m1, q0, q1, c0, c1)
  {
    c0, c1 := MonomialTo(point, exps, -1, n'), Slopes(point, x, names, exps, n', n');
    MonomialUnfolds(point, exps, n, n', m0, q0, c0);
    var r, s := Slopes(point, x, names, exps, n, n'), MonomialTo(point, exps, n, n');
    SlopesTimes(point, x, names, exps, n, n', m1, q0, r);
    DerivedLast(point, exps, n, n', m0, Factor(point[n], exps[n], true), s);
    PowerSlopes(point[n], p1, exps[n], q0, q1);
    SumRule(m0, m1, q0, q1, c0, c1, r, if names[n] == x then s else 0.0);
  }

  lemma SlopesTimes(point: seq<real>, x: string, names: seq<string>, exps: seq<nat>, n: nat, n': nat,
                    a: real, b: real, c: real)
    requires n' == n + 1 && n < |names| == |point| && n < |exps| && a == Slopes(point, x, names, exps, n, n)
    requires b == Power(point[n], exps[n]) && c == Slopes(point, x, names, exps, n, n')
    ensures IsTimes(c, a, b)
  {
    SlopesGrow(point, x, names, exps, n, n, n');
  }

  lemma DerivedLast(point: seq<real>, exps: seq<nat>, n: nat, n': nat, a: real, b: real, c: real)
    requires n' == n + 1 && n < |point| && n < |exps| && a == MonomialTo(point, exps, -1, n)
    requires b == Factor(point[n], exps[n], true) && c == MonomialTo(point, exps, n, n')
    ensures IsTimes(c, a, b)
  {
    DerivedBeyond(point, exps, n, n);
  }

  lemma PowerSlopes(a0: real, a1: real, e: nat, c0: real, c1: real)
    requires IsPower(a0, a1, e, c0, c1) && (a1 == 1.0 || a1 == 0.0)
    ensures c1 == if a1 == 1.0 then Factor(a0, e, true) else 0.0
  {
  }

  lemma SumRule(m0: real, m1: real, q0: real, q1: real, c0: real, c1: real, r: real, s: real)
    requires IsTimes(c0, m0, q0) && IsTimes(r, m1, q0) && IsTimes(s, m0, q1) && c1 == r + s
    ensures ProductRule(m0, m1, q0, q1, c0, c1)
  {
  }

  ghost function PolyAlong(poly: Polynomial, vars: ValueMap, x: string, n: nat): real -> real
    requires n <= |poly.coefficients|
  {
    h => PolyTo(poly, Point(Shifted(vars, x, h), poly.variables), -1, n)
  }

  /** The sum of the polynomial's derivatives by those of the first m variables that are x. */
  function Slots(poly: Polynomial, point: seq<real>, x: string, m: nat, n: nat): real
    requires m <= |poly.variables| == |point| && n <= |poly.coefficients|
  {
    if m == 0 then 0.0
    else Slots(poly, point, x, m - 1, n) + if poly.variables[m - 1] == x then PolyTo(poly, point, m - 1, n) else 0.0
  }

  lemma {:induction false} NoSlots(poly: Polynomial, point: seq<real>, x: string, m: nat)
    requires m <= |poly.variables| == |point|
    ensures Slots(poly, point, x, m, 0) == 0.0
  {
    if m > 0 {
      NoSlots(poly, point, x, m - 1);
    }
  }

  /** With s the slope of the n-th monomial, cs its coefficient times that. */
  lemma {:induction false} SlotsGrow(poly: Polynomial, point: seq<real>, x: string, m: nat, n: nat, n': nat,
                                     s: real, cs: real)
    requires n' == n + 1 && m <= |poly.variables| == |point| && n < |poly.coefficients|
    requires s == Slopes(point, x, poly.variables, ExponentsAt(poly, n), m, |point|)
    requires IsTimes(cs, poly.coefficients[n].value, s)
    ensures Slots(poly, point, x, m, n') == Slots(poly, point, x, m, n) + cs
  {
    var value, exps := poly.coefficients[n].value, ExponentsAt(poly, n);
    if m == 0 {
      TimesZero(cs, value, s);
    } else {
      var k := m - 1;
      var s' := Slopes(point, x, poly.variables, exps, k, |point|);
      var cs' := Times(value, s');
      SlotsGrow(poly, point, x, k, n, n', s', cs');
      if poly.variables[k] == x {
        var t, ct := MonomialTo(point, exps, k, |point|), Term(poly, point, k, n);
        TermTimes(poly, point, k, n, t, ct);
        Split(value, s', t, s, cs', ct, cs);
      } else {
        assert s == s';
        SameTimes(cs, cs', value, s);
      }
    }
  }

  lemma TimesZero(c: real, a: real, b: real)
    requires IsTimes(c, a, b) && b == 0.0
    ensures c == 0.0
  {
  }

  lemma SameTimes(c: real, c': real, a: real, b: real)
    requires IsTimes(c, a, b) && IsTimes(c', a, b)
    ensures c == c'
  {
  }

  lemma Split(v: real, a: real, b: real, s: real, va: real, vb: real, vs: real)
    requires s == a + b && IsTimes(va, v, a) && IsTimes(vb, v, b) && IsTimes(vs, v, s)
    ensures vs == va + vb
  {
  }

  lemma TermTimes(poly: Polynomial, point: seq<real>, dVar: int, k: nat, t: real, ct: real)
    requires k < |poly.coefficients| && |point| == |poly.variables|
    requires t == MonomialTo(point, ExponentsAt(poly, k), dVar, |point|) && ct == Term(poly, point, dVar, k)
    ensures IsTimes(ct, poly.coefficients[k].value, t)
  {
  }

  function ExponentsAt(poly: Polynomial, k: nat): (exps: seq<nat>)
    requires k < |poly.coefficients|
    ensures |exps| == |poly.variables|
  {
    Exponents(poly.coefficients[k].offset, poly.maxVarDegree + 1, |poly.variables|)
  }

  lemma {:induction false} PolyJet(poly: Polynomial, vars: ValueMap, x: string, n': nat)
    requires n' <= |poly.coefficients| && forall v | v in poly.variables :: v in vars
    ensures Jet(PolyAlong(poly, vars, x, n'), PolyTo(poly, Point(vars, poly.variables), -1, n'),
                Slots(poly, Point(vars, poly.variables), x, |poly.variables|, n'))
  {
    var point, m := Point(vars, poly.variables), |poly.variables|;
    if n' == 0 {
      NoSlots(poly, point, x, m);
      JetConstant(PolyAlong(poly, vars, x, n'), 0.0);
    } else {
      var n := n' - 1;
      PolyJet(poly, vars, x, n);
      var exps := ExponentsAt(poly, n);
      var c0, c1 := MonomialJet(vars, x, poly.variables, exps, m);
      var value := poly.coefficients[n].value;
      var vc0 := Times(value, c0);
      var vc1 := Times(value, c1);
      var term := TermAlong(poly, vars, x, n);
      TermIsScaled(poly, vars, x, n);
      JetScaled(MonomialAlong(vars, x, poly.variables, exps, m), c0, c1, value, term, vc0, vc1);
      SlotsGrow(poly, point, x, m, n, n', c1, vc1);
      PolyUnfolds(poly, vars, x, n, n');
      JetSum(PolyAlong(poly, vars, x, n), PolyTo(poly, point, -1, n), Slots(poly, point, x, m, n),
             term, vc0, vc1, PolyAlong(poly, vars, x, n'));
      PolyUnfoldsAt(poly, point, n, n', c0, vc0);
    }
  }

  ghost function TermAlong(poly: Polynomial, vars: ValueMap, x: string, k: nat): real -> real
    requires k < |poly.coefficients|
  {
    h => Term(poly, Point(Shifted(vars, x, h), poly.variables), -1, k)
  }

  lemma TermIsScaled(poly: Polynomial, vars: ValueMap, x: string, k: nat)
    requires k < |poly.coefficients|
    ensures forall h: real :: IsTimes(TermAlong(poly, vars, x, k)(h), poly.coefficients[k].value,
      MonomialAlong(vars, x, poly.variables, ExponentsAt(poly, k), |poly.variables|)(h))
  {
    forall h: real ensures IsTimes(TermAlong(poly, vars, x, k)(h), poly.coefficients[k].value,
      MonomialAlong(vars, x, poly.variables, ExponentsAt(poly, k), |poly.variables|)(h))
    {
      var point := Point(Shifted(vars, x, h), poly.variables);
      TermTimes(poly, point, -1, k, MonomialTo(point, ExponentsAt(poly, k), -1, |point|), Term(poly, point, -1, k));
    }
  }

  lemma PolyUnfolds(poly: Polynomial, vars: ValueMap, x: string, n: nat, n': nat)
    requires n' == n + 1 && n < |poly.coefficients|
    ensures forall h: real ::
      PolyAlong(poly, vars, x, n')(h) == PolyAlong(poly, vars, x, n)(h) + TermAlong(poly, vars, x, n)(h)
  {
  }

  lemma PolyUnfoldsAt(poly: Polynomial, point: seq<real>, n: nat, n': nat, c0: real, vc0: real)
    requires n' == n + 1 && n < |poly.coefficients| && |point| == |poly.variables|
    requires c0 == MonomialTo(point, ExponentsAt(poly, n), -1, |point|) && IsTimes(vc0, poly.coefficients[n].value, c0)
    ensures PolyTo(poly, point, -1, n') == PolyTo(poly, point, -1, n) + vc0
  {
    var ct := Term(poly, point, -1, n);
    TermTimes(poly, point, -1, n, c0, ct);
    SameTimes(ct, vc0, poly.coefficients[n].value, c0);
  }

  /** The true derivative of a polynomial node: x may stand in its list of variables more than once. */
  function AllSlots(poly: Polynomial, vars: ValueMap, x: string): real {
    Slots(poly, Point(vars, poly.variables), x, |poly.variables|, |poly.coefficients|)
  }

  lemma PolynomialDerivative(lib: Library, vars: ValueMap, x: string, poly: Polynomial)
    requires Bound(vars, TPoly(poly))
    ensures IsDerivative(lib, vars, x, TPoly(poly), AllSlots(poly, vars, x))
  {
    PolyJet(poly, vars, x, |poly.coefficients|);
    JetSame(PolyAlong(poly, vars, x, |poly.coefficients|), Along(lib, vars, x, TPoly(poly)),
            PolyValue(poly, vars, -1), AllSlots(poly, vars, x));
  }

  predicate Distinct(names: seq<string>) {
    forall i, j | 0 <= i < j < |names| :: names[i] != names[j]
  }

  /** x stands at j, and not for the first time. */
  predicate Later(poly: Polynomial, x: string, j: nat)
    requires j < |poly.variables|
  {
    poly.variables[j] == x && j > IndexOf(poly.variables, x)
  }

  /** The sum of the derivatives by the later occurrences of x among the first m variables. */
  function LaterTo(poly: Polynomial, vars: ValueMap, x: string, m: nat): real
    requires m <= |poly.variables|
  {
    if m == 0 then 0.0
    else LaterTo(poly, vars, x, m - 1) + if Later(poly, x, m - 1) then PolyValue(poly, vars, m - 1) else 0.0
  }

  function LaterSlots(poly: Polynomial, vars: ValueMap, x: string): real {
    LaterTo(poly, vars, x, |poly.variables|)
  }

  lemma {:induction false} FirstAndLater(poly: Polynomial, vars: ValueMap, x: string, m: nat)
    requires m <= |poly.variables|
    ensures var i := IndexOf(poly.variables, x);
      Slots(poly, Point(vars, poly.variables), x, m, |poly.coefficients|) ==
      (if 0 <= i < m then PolyValue(poly, vars, i) else 0.0) + LaterTo(poly, vars, x, m)
  {
    if m > 0 {
      FirstAndLater(poly, vars, x, m - 1);
    }
  }

  lemma {:induction false} NoneLater(poly: Polynomial, vars: ValueMap, x: string, m: nat)
    requires m <= |poly.variables| && Distinct(poly.variables)
    ensures LaterTo(poly, vars, x, m) == 0.0
  {
    if m > 0 {
      NoneLater(poly, vars, x, m - 1);
    }
  }

  /** The interpreter derives by the first occurrence of x only. So the result is right exactly where the
      polynomial's derivatives by the later occurrences add up to nothing; distinct variables have none. */
  lemma PolynomialDerivativeExact(lib: Library, vars: ValueMap, x: string, poly: Polynomial)
    requires Bound(vars, TPoly(poly))
    ensures IsDerivative(lib, vars, x, TPoly(poly), DPoly(poly, vars, x)) <==> LaterSlots(poly, vars, x) == 0.0
    ensures Distinct(poly.variables) ==> IsDerivative(lib, vars, x, TPoly(poly), DPoly(poly, vars, x))
  {
    PolynomialDerivative(lib, vars, x, poly);
    FirstAndLater(poly, vars, x, |poly.variables|);
    if IsDerivative(lib, vars, x, TPoly(poly), DPoly(poly, vars, x)) {
      DerivativeUnique(lib, vars, x, TPoly(poly), DPoly(poly, vars, x), AllSlots(poly, vars, x));
    }
    if Distinct(poly.variables) {
      NoneLater(poly, vars, x, |poly.variables|);
    }
  }

  /** x stands twice in the list, and the one term is that of the second: the polynomial x. */
  function TwiceX(): Polynomial {
    Polynomial(["x", "x"], 1, [SparseCoeff(2, 1.0)])
  }

  lemma TwiceXExponents()
    ensures Exponents(2, 2, 2) == [0, 1]
  {
    assert NatPower(2, 0) == 1 && NatPower(2, 1) == 2;
  }

  lemma TwiceXValue(vars: ValueMap, dVar: int)
    requires "x" in vars
    ensures PolyValue(TwiceX(), vars, dVar) == Factor(vars["x"], 0, dVar == 0) * Factor(vars["x"], 1, dVar == 1)
  {
    var poly, point := TwiceX(), Point(vars, ["x", "x"]);
    TwiceXExponents();
    assert MonomialTo(point, [0, 1], dVar, 1) == 1.0 * Factor(point[0], 0, dVar == 0);
    assert PolyTo(poly, point, dVar, 1) == PolyTo(poly, point, dVar, 0) + Term(poly, point, dVar, 0);
  }

  /** Its derivative by x is 1, and 0 is computed. */
  lemma PolynomialDerivativeWrong(lib: Library, vars: ValueMap)
    requires "x" in vars
    ensures PolyValue(TwiceX(), vars, -1) == vars["x"] && IsDerivative(lib, vars, "x", TPoly(TwiceX()), 1.0)
    ensures DPoly(TwiceX(), vars, "x") == 0.0
  {
    var x := vars["x"];
    assert Power(x, 1) == x * Power(x, 0);
    TwiceXValue(vars, -1);
    TwiceXValue(vars, 0);
    TwiceXValue(vars, 1);
    assert LaterTo(TwiceX(), vars, "x", 1) == 0.0;
    PolynomialDerivative(lib, vars, "x", TwiceX());
    FirstAndLater(TwiceX(), vars, "x", 2);
  }

  /** No term of the message has a power of a later occurrence of x. */
  predicate LaterUnused(poly: Polynomial, x: string) {
    forall k, j | 0 <= k < |poly.coefficients| && 0 <= j < |poly.variables| ::
      poly.coefficients[k].value == 0.0 || !Later(poly, x, j) || ExponentsAt(poly, k)[j] == 0
  }

  lemma {:induction false} UnusedDerivative(poly: Polynomial, point: seq<real>, j: nat, n: nat)
    requires j < |poly.variables| == |point| && n <= |poly.coefficients|
    requires forall k | 0 <= k < n :: poly.coefficients[k].value == 0.0 || ExponentsAt(poly, k)[j] == 0
    ensures PolyTo(poly, point, j, n) == 0.0
  {
    if n > 0 {
      UnusedDerivative(poly, point, j, n - 1);
      if ExponentsAt(poly, n - 1)[j] == 0 {
        MonomialVanishes(point, ExponentsAt(poly, n - 1), j, |point|);
      }
    }
  }

  lemma {:induction false} UnusedLater(poly: Polynomial, vars: ValueMap, x: string, m: nat)
    requires m <= |poly.variables| && LaterUnused(poly, x)
    ensures LaterTo(poly, vars, x, m) == 0.0
  {
    if m > 0 {
      UnusedLater(poly, vars, x, m - 1);
      if Later(poly, x, m - 1) {
        UnusedDerivative(poly, Point(vars, poly.variables), m - 1, |poly.coefficients|);
      }
    }
  }

  lemma {:induction false} PowerOfOne(n: nat)
    ensures Power(1.0, n) == 1.0
  {
    if n > 0 {
      PowerOfOne(n - 1);
    }
  }

  predicate Ones(point: seq<real>) {
    forall i | 0 <= i < |point| :: point[i] == 1.0
  }

  lemma {:induction false} MonomialAtOnes(point: seq<real>, exps: seq<nat>, j: nat, n: nat)
    requires n <= |point| && n <= |exps| && Ones(point)
    ensures MonomialTo(point, exps, j, n) == if j < n then exps[j] as real else 1.0
  {
    if n > 0 {
      MonomialAtOnes(point, exps, j, n - 1);
      PowerOfOne(exps[n - 1]);
      if exps[n - 1] > 0 {
        PowerOfOne(exps[n - 1] - 1);
      }
    }
  }

  predicate NoNegativeTerm(poly: Polynomial) {
    forall k | 0 <= k < |poly.coefficients| :: poly.coefficients[k].value >= 0.0
  }

  lemma {:induction false} DerivativeAtOnes(poly: Polynomial, point: seq<real>, j: nat, n: nat)
    requires j < |poly.variables| == |point| && n <= |poly.coefficients| && Ones(point) && NoNegativeTerm(poly)
    ensures PolyTo(poly, point, j, n) >= 0.0
    ensures PolyTo(poly, point, j, n) == 0.0 ==>
      forall k | 0 <= k < n :: poly.coefficients[k].value == 0.0 || ExponentsAt(poly, k)[j] == 0
  {
    if n > 0 {
      DerivativeAtOnes(poly, point, j, n - 1);
      var t := MonomialTo(point, ExponentsAt(poly, n - 1), j, |point|);
      MonomialAtOnes(point, ExponentsAt(poly, n - 1), j, |point|);
      TermTimes(poly, point, j, n - 1, t, Term(poly, point, j, n - 1));
      SignOfTimes(Term(poly, point, j, n - 1), poly.coefficients[n - 1].value, t);
    }
  }

  lemma SignOfTimes(c: real, a: real, b: real)
    requires IsTimes(c, a, b) && a >= 0.0 && b >= 0.0
    ensures c >= 0.0 && (c == 0.0 ==> a == 0.0 || b == 0.0)
  {
  }

  lemma {:induction false} LaterAtOnes(poly: Polynomial, vars: ValueMap, x: string, m: nat)
    requires m <= |poly.variables| && Ones(Point(vars, poly.variables)) && NoNegativeTerm(poly)
    ensures LaterTo(poly, vars, x, m) >= 0.0
    ensures LaterTo(poly, vars, x, m) == 0.0 ==>
      forall j | 0 <= j < m :: !Later(poly, x, j) || PolyValue(poly, vars, j) == 0.0
  {
    if m > 0 {
      LaterAtOnes(poly, vars, x, m - 1);
      DerivativeAtOnes(poly, Point(vars, poly.variables), m - 1, |poly.coefficients|);
    }
  }

  ghost predicate RightEverywhere(lib: Library, x: string, poly: Polynomial) {
    forall vars | Bound(vars, TPoly(poly)) :: IsDerivative(lib, vars, x, TPoly(poly), DPoly(poly, vars, x))
  }

  ghost predicate LaterVanish(x: string, poly: Polynomial) {
    forall vars | Bound(vars, TPoly(poly)) :: LaterSlots(poly, vars, x) == 0.0
  }

  /** Whatever the point, the result is right exactly when the sum over the later occurrences is 0 everywhere. It
      is when no term uses them; and where no coefficient is negative, only then. */
  lemma PolynomialDerivativeEverywhere(lib: Library, x: string, poly: Polynomial)
    ensures RightEverywhere(lib, x, poly) <==> LaterVanish(x, poly)
    ensures LaterUnused(poly, x) ==> RightEverywhere(lib, x, poly)
    ensures NoNegativeTerm(poly) ==> (RightEverywhere(lib, x, poly) <==> LaterUnused(poly, x))
  {
    forall vars | Bound(vars, TPoly(poly))
      ensures IsDerivative(lib, vars, x, TPoly(poly), DPoly(poly, vars, x)) <==> LaterSlots(poly, vars, x) == 0.0
      ensures LaterUnused(poly, x) ==> LaterSlots(poly, vars, x) == 0.0
    {
      PolynomialDerivativeExact(lib, vars, x, poly);
      if LaterUnused(poly, x) {
        UnusedLater(poly, vars, x, |poly.variables|);
      }
    }
    if NoNegativeTerm(poly) && LaterVanish(x, poly) {
      VanishUnused(x, poly);
    }
  }

  lemma VanishUnused(x: string, poly: Polynomial)
    requires NoNegativeTerm(poly) && LaterVanish(x, poly)
    ensures LaterUnused(poly, x)
  {
    var vars: ValueMap := map v | v in poly.variables :: 1.0;
    assert LaterSlots(poly, vars, x) == 0.0 by {
      assert Bound(vars, TPoly(poly));
    }
    LaterAtOnes(poly, vars, x, |poly.variables|);
    forall j | 0 <= j < |poly.variables| && Later(poly, x, j)
      ensures forall k | 0 <= k < |poly.coefficients| ::
        poly.coefficients[k].value == 0.0 || ExponentsAt(poly, k)[j] == 0
    {
      DerivativeAtOnes(poly, Point(vars, poly.variables), j, |poly.coefficients|);
    }
  }

  // List operations

  ghost predicate AllDerived(lib: Library, vars: ValueMap, x: string, ts: seq<Tree>) {
    forall i | 0 <= i < |ts| :: IsDerivative(lib, vars, x, ts[i], DValue(lib, vars, x, ts[i]))
  }

  ghost function SumAlong(lib: Library, vars: ValueMap, x: string, ts: seq<Tree>): real -> real {
    h => SumOf(lib, Shifted(vars, x, h), ts)
  }

  lemma {:induction false} SumJet(lib: Library, vars: ValueMap, x: string, ts: seq<Tree>, n': nat)
    requires n' <= |ts| && AllDerived(lib, vars, x, ts)
    ensures Jet(SumAlong(lib, vars, x, ts[..n']), SumOf(lib, vars, ts[..n']), DSumTo(lib, vars, x, ts, n'))
  {
    if n' == 0 {
      JetConstant(SumAlong(lib, vars, x, ts[..n']), 0.0);
    } else {
      var n := n' - 1;
      SumJet(lib, vars, x, ts, n);
      assert ts[..n'][..n] == ts[..n];
      JetSum(SumAlong(lib, vars, x, ts[..n]), SumOf(lib, vars, ts[..n]), DSumTo(lib, vars, x, ts, n),
             Along(lib, vars, x, ts[n]), Value(lib, vars, ts[n]), DValue(lib, vars, x, ts[n]),
             SumAlong(lib, vars, x, ts[..n']));
    }
  }

  ghost function ProductAlong(lib: Library, vars: ValueMap, x: string, ts: seq<Tree>): real -> real {
    h => ProductOf(lib, Shifted(vars, x, h), ts)
  }

  /** The sum, over the first m factors, of the derivative of the factor times the others up to n. */
  function PartialTo(lib: Library, vars: ValueMap, x: string, ts: seq<Tree>, m: nat, n: nat): real
    requires m <= |ts| && n <= |ts|
  {
    if m == 0 then 0.0
    else PartialTo(lib, vars, x, ts, m - 1, n) +
         Except(Values(lib, vars, ts), m - 1, n, DValue(lib, vars, x, ts[m - 1]))
  }

  lemma {:induction false} PartialToIsProductRule(lib: Library, vars: ValueMap, x: string, ts: seq<Tree>, m: nat)
    requires m <= |ts|
    ensures PartialTo(lib, vars, x, ts, m, |ts|) == DProductTo(lib, vars, x, ts, m)
  {
    if m > 0 {
      PartialToIsProductRule(lib, vars, x, ts, m - 1);
    }
  }

  lemma ExceptStep(vs: seq<real>, i: nat, n: nat, n': nat, d: real, a: real, b: real)
    requires n' == n + 1 && n < |vs| && i != n && a == Except(vs, i, n, d) && b == Except(vs, i, n', d)
    ensures IsTimes(b, a, vs[n])
  {
  }

  lemma {:induction false} PartialGrows(lib: Library, vars: ValueMap, x: string, ts: seq<Tree>, m: nat, n: nat,
                                        n': nat, a: real, b: real)
    requires n' == n + 1 && m <= n < |ts|
    requires a == PartialTo(lib, vars, x, ts, m, n) && b == PartialTo(lib, vars, x, ts, m, n')
    ensures IsTimes(b, a, Value(lib, vars, ts[n]))
  {
    var v, vs := Value(lib, vars, ts[n]), Values(lib, vars, ts);
    if m > 0 {
      var k := m - 1;
      var d := DValue(lib, vars, x, ts[k]);
      var a', b' := PartialTo(lib, vars, x, ts, k, n), PartialTo(lib, vars, x, ts, k, n');
      PartialGrows(lib, vars, x, ts, k, n, n', a', b');
      ExceptStep(vs, k, n, n', d, Except(vs, k, n, d), Except(vs, k, n', d));
      AddTimes(b', a', Except(vs, k, n', d), Except(vs, k, n, d), v, b, a);
    }
  }

  lemma AddTimes(b': real, a': real, b'': real, a'': real, v: real, b: real, a: real)
    requires IsTimes(b', a', v) && IsTimes(b'', a'', v) && b == b' + b'' && a == a' + a''
    ensures IsTimes(b, a, v)
  {
  }

  /** Beyond its own factor, the derivative is multiplied by all factors. */
  lemma {:induction false} ExceptLast(lib: Library, vars: ValueMap, ts: seq<Tree>, i: nat, n': nat, d: real, b: real,
                                      p: real)
    requires n' <= i && n' <= |ts| && b == Except(Values(lib, vars, ts), i, n', d)
    requires p == ProductOf(lib, vars, ts[..n'])
    ensures IsTimes(b, p, d)
  {
    if n' > 0 {
      var n, vs := n' - 1, Values(lib, vars, ts);
      assert ts[..n'][..n] == ts[..n];
      var b', p' := Except(vs, i, n, d), ProductOf(lib, vars, ts[..n]);
      ExceptLast(lib, vars, ts, i, n, d, b', p');
      ExceptStep(vs, i, n, n', d, b', b);
      ProductStep(lib, vars, ts, n, n', p', Value(lib, vars, ts[n]), p);
      Exchange(b', p', d, b, p, Value(lib, vars, ts[n]));
    }
  }

  lemma ProductStep(lib: Library, vars: ValueMap, ts: seq<Tree>, n: nat, n': nat, a: real, v: real, b: real)
    requires n' == n + 1 && n < |ts| && a == ProductOf(lib, vars, ts[..n]) && v == Value(lib, vars, ts[n])
    requires b == ProductOf(lib, vars, ts[..n'])
    ensures IsTimes(b, a, v)
  {
    assert ts[..n'][..n] == ts[..n];
  }

  lemma Exchange(b': real, p': real, d: real, b: real, p: real, v: real)
    requires IsTimes(b', p', d) && IsTimes(b, b', v) && IsTimes(p, p', v)
    ensures IsTimes(b, p, d)
  {
  }

  ghost predicate IsProductOf(lib: Library, vars: ValueMap, x: string, ts: seq<Tree>, n: nat, c0: real, c1: real)
    requires n <= |ts|
  {
    c0 == ProductOf(lib, vars, ts[..n]) && c1 == PartialTo(lib, vars, x, ts, n, n)
  }

  lemma ProductNumbers(lib: Library, vars: ValueMap, x: string, ts: seq<Tree>, n: nat, n': nat, a0: real, a1: real,
                       b0: real, b1: real) returns (c0: real, c1: real)
    requires n' == n + 1 && n < |ts| && IsProductOf(lib, vars, x, ts, n, a0, a1)
    requires b0 == Value(lib, vars, ts[n]) && b1 == DValue(lib, vars, x, ts[n])
    ensures IsProductOf(lib, vars, x, ts, n', c0, c1) && ProductRule(a0, a1, b0, b1, c0, c1)
  {
    c0, c1 := ProductOf(lib, vars, ts[..n']), PartialTo(lib, vars, x, ts, n', n');
    ProductStep(lib, vars, ts, n, n', a0, b0, c0);
    var r, vs := PartialTo(lib, vars, x, ts, n, n'), Values(lib, vars, ts);
    PartialGrows(lib, vars, x, ts, n, n, n', a1, r);
    var s := Except(vs, n, n', b1);
    ExceptLast(lib, vars, ts, n, n, b1, s, a0);
    SumRule(a0, a1, b0, b1, c0, c1, r, s);
  }

  lemma {:induction false} ProductJet(lib: Library, vars: ValueMap, x: string, ts: seq<Tree>, n': nat)
    returns (c0: real, c1: real)
    requires n' <= |ts| && AllDerived(lib, vars, x, ts)
    ensures IsProductOf(lib, vars, x, ts, n', c0, c1) && Jet(ProductAlong(lib, vars, x, ts[..n']), c0, c1)
  {
    if n' == 0 {
      c0, c1 := 1.0, 0.0;
      JetConstant(ProductAlong(lib, vars, x, ts[..n']), 1.0);
    } else {
      var n := n' - 1;
      var a0, a1 := ProductJet(lib, vars, x, ts, n);
      var f, g := ProductAlong(lib, vars, x, ts[..n]), Along(lib, vars, x, ts[n]);
      var k := ProductAlong(lib, vars, x, ts[..n']);
      forall h: real ensures IsTimes(k(h), f(h), g(h)) {
        ProductStep(lib, Shifted(vars, x, h), ts, n, n', f(h), g(h), k(h));
      }
      var b0, b1 := Value(lib, vars, ts[n]), DValue(lib, vars, x, ts[n]);
      c0, c1 := ProductNumbers(lib, vars, x, ts, n, n', a0, a1, b0, b1);
      JetProduct(f, a0, a1, g, b0, b1, k, c0, c1);
    }
  }

  // Whole expressions

  /** Built from constants, variables, references, polynomials, sums, products and negation. */
  predicate Algebraic(t: Tree) {
    match t
    case TReal(_) => true
    case TPoly(p) => Distinct(p.variables)
    case TUnary(op, a) => op == Negate && Algebraic(a)
    case TBinary(op, a, b) => (op == Sum || op == Prod) && Algebraic(a) && Algebraic(b)
    case TList(_, args) => forall i | 0 <= i < |args| :: Algebraic(args[i])
    case TRef(_, target) => Algebraic(target)
    case TVariable(_) => true
  }

  lemma {:induction false} DerivativeCorrect(lib: Library, vars: ValueMap, x: string, t: Tree)
    requires Algebraic(t) && Bound(vars, t)
    ensures IsDerivative(lib, vars, x, t, DValue(lib, vars, x, t))
    decreases t
  {
    var f := Along(lib, vars, x, t);
    match t
    case TReal(c) => JetConstant(f, c);
    case TPoly(p) => PolynomialDerivativeExact(lib, vars, x, p);
    case TUnary(_, a) =>
      DerivativeCorrect(lib, vars, x, a);
      NegateJet(lib, vars, x, a, t);
    case TBinary(op, a, b) =>
      DerivativeCorrect(lib, vars, x, a);
      DerivativeCorrect(lib, vars, x, b);
      if op == Sum {
        JetSum(Along(lib, vars, x, a), Value(lib, vars, a), DValue(lib, vars, x, a),
               Along(lib, vars, x, b), Value(lib, vars, b), DValue(lib, vars, x, b), f);
      } else {
        ProdJet(lib, vars, x, a, b, t);
      }
    case TList(op, args) =>
      forall i | 0 <= i < |args| ensures IsDerivative(lib, vars, x, args[i], DValue(lib, vars, x, args[i])) {
        DerivativeCorrect(lib, vars, x, args[i]);
      }
      assert args[..|args|] == args;
      if op == SumAll {
        SumJet(lib, vars, x, args, |args|);
        JetSame(SumAlong(lib, vars, x, args), f, Value(lib, vars, t), DValue(lib, vars, x, t));
      } else {
        var c0, c1 := ProductJet(lib, vars, x, args, |args|);
        PartialToIsProductRule(lib, vars, x, args, |args|);
        JetSame(ProductAlong(lib, vars, x, args), f, c0, c1);
      }
    case TRef(_, target) =>
      DerivativeCorrect(lib, vars, x, target);
      JetSame(Along(lib, vars, x, target), f, Value(lib, vars, t), DValue(lib, vars, x, t));
    case TVariable(v) =>
      CoordinateJet(vars, x, v);
      JetSame(CoordinateAlong(vars, x, v), f, Value(lib, vars, t), DValue(lib, vars, x, t));
  }

  lemma NegateJet(lib: Library, vars: ValueMap, x: string, a: Tree, t: Tree)
    requires t == TUnary(Negate, a) && IsDerivative(lib, vars, x, a, DValue(lib, vars, x, a))
    ensures IsDerivative(lib, vars, x, t, DValue(lib, vars, x, t))
  {
    var f := Along(lib, vars, x, a);
    JetScaled(f, Value(lib, vars, a), DValue(lib, vars, x, a), -1.0, Along(lib, vars, x, t),
              Value(lib, vars, t), DValue(lib, vars, x, t));
  }

  lemma ProdJet(lib: Library, vars: ValueMap, x: string, a: Tree, b: Tree, t: Tree)
    requires t == TBinary(Prod, a, b) && IsDerivative(lib, vars, x, a, DValue(lib, vars, x, a))
    requires IsDerivative(lib, vars, x, b, DValue(lib, vars, x, b))
    ensures IsDerivative(lib, vars, x, t, DValue(lib, vars, x, t))
  {
    var f, g, k := Along(lib, vars, x, a), Along(lib, vars, x, b), Along(lib, vars, x, t);
    forall h: real ensures IsTimes(k(h), f(h), g(h)) {
      BinaryTimes(lib, f(h), g(h), k(h));
    }
    var a0, a1, b0, b1 := Value(lib, vars, a), DValue(lib, vars, x, a), Value(lib, vars, b), DValue(lib, vars, x, b);
    BinaryRule(lib, a0, a1, b0, b1, Value(lib, vars, t), DValue(lib, vars, x, t));
    JetProduct(f, a0, a1, g, b0, b1, k, Value(lib, vars, t), DValue(lib, vars, x, t));
  }

  lemma BinaryTimes(lib: Library, a: real, b: real, c: real)
    requires c == ApplyBinary(lib, Prod, a, b)
    ensures IsTimes(c, a, b)
  {
  }

  lemma BinaryRule(lib: Library, a0: real, a1: real, b0: real, b1: real, c0: real, c1: real)
    requires c0 == ApplyBinary(lib, Prod, a0, b0) && c1 == DBinary(lib, Prod, a0, a1, b0, b1)
    ensures ProductRule(a0, a1, b0, b1, c0, c1)
  {
  }

  // SQUARE

  ghost predicate IsTwice(d': real, v: real, d: real) {
    d' == 2.0 * v * d
  }

  /** The derivative of a square is 2*f*f'. */
  lemma SquareDerivative(lib: Library, vars: ValueMap, x: string, a: Tree, d: real, d': real)
    requires IsDerivative(lib, vars, x, a, d) && IsTwice(d', Value(lib, vars, a), d)
    ensures IsDerivative(lib, vars, x, TUnary(Square, a), d')
  {
    var f, k, v := Along(lib, vars, x, a), Along(lib, vars, x, TUnary(Square, a)), Value(lib, vars, a);
    forall h: real ensures IsTimes(k(h), f(h), f(h)) {
      SquareTimes(lib, f(h), k(h));
    }
    SquareRule(lib, v, d, Value(lib, vars, TUnary(Square, a)), d');
    JetProduct(f, v, d, f, v, d, k, Value(lib, vars, TUnary(Square, a)), d');
  }

  lemma SquareTimes(lib: Library, a: real, c: real)
    requires c == ApplyUnary(lib, Square, a)
    ensures IsTimes(c, a, a)
  {
  }

  lemma SquareRule(lib: Library, v: real, d: real, c0: real, c1: real)
    requires c0 == ApplyUnary(lib, Square, v) && IsTwice(c1, v, d)
    ensures ProductRule(v, d, v, d, c0, c1)
  {
  }

  /** The interpreter computes 2*f' instead. This is right exactly where f' = 0 or f = 1. */
  lemma SquareDerivativeExact(lib: Library, vars: ValueMap, x: string, a: Tree)
    requires IsDerivative(lib, vars, x, a, DValue(lib, vars, x, a))
    ensures IsDerivative(lib, vars, x, TUnary(Square, a), DValue(lib, vars, x, TUnary(Square, a))) <==>
            DValue(lib, vars, x, a) == 0.0 || Value(lib, vars, a) == 1.0
  {
    var t, v, d := TUnary(Square, a), Value(lib, vars, a), DValue(lib, vars, x, a);
    var d', e := Twice(v, d), DValue(lib, vars, x, t);
    SquareDerivative(lib, vars, x, a, d, d');
    Doubled(v, d, d', e);
    if IsDerivative(lib, vars, x, t, e) {
      DerivativeUnique(lib, vars, x, t, d', e);
    }
  }

  function Twice(v: real, d: real): (r: real)
    ensures IsTwice(r, v, d)
  {
    2.0 * v * d
  }

  lemma Doubled(v: real, d: real, d': real, e: real)
    requires IsTwice(d', v, d) && e == 2.0 * d
    ensures d' == e <==> d == 0.0 || v == 1.0
  {
    assert d' - e == 2.0 * ((v - 1.0) * d);
    if d != 0.0 && v != 1.0 {
      assert (v - 1.0) * d != 0.0;
    }
  }

  /** x^2 at x = 3: the derivative is 6, the interpreter says 2. */
  lemma SquareDerivativeWrong(lib: Library)
    ensures IsDerivative(lib, map["x" := 3.0], "x", TUnary(Square, TVariable("x")), 6.0)
    ensures DValue(lib, map["x" := 3.0], "x", TUnary(Square, TVariable("x"))) == 2.0
  {
    DerivativeCorrect(lib, map["x" := 3.0], "x", TVariable("x"));
    SquareDerivative(lib, map["x" := 3.0], "x", TVariable("x"), 1.0, 6.0);
  }

  /** The interpreter's value and derivative of an expression belong together, each within its budget of visits. */
  method ValueAndDerivative(adv: AdvFunc, expr: RealExpr, x: string, vars: ValueMap, ghost t: Tree)
    returns (v: Result<real>, d: Result<real>)
    requires Unfolds(adv.realExprRefs, expr, t) && Bound(vars, t) && Algebraic(t)
    modifies adv`boundVars, adv`nestingDepth
    ensures v.Ok? <==> Size(t) <= MAX_NESTING_DEPTH
    ensures d.Ok? <==> DCost(adv.lib, vars, t) <= MAX_NESTING_DEPTH
    ensures v.Ok? ==> v.value == Along(adv.lib, vars, x, t)(0.0)
    ensures d.Ok? ==> IsDerivative(adv.lib, vars, x, t, d.value)
    ensures v.Ok? && d.Ok? ==> Jet(Along(adv.lib, vars, x, t), v.value, d.value)
  {
    v := adv.Evaluate(expr, vars);
    ghost var refs := adv.realExprRefs;
    forall t' | Unfolds(refs, expr, t') ensures t' == t {
      UnfoldsOnce(refs, expr, t', t);
    }
    d := adv.EvaluatePartialDerivative(expr, x, vars);
    DerivativeCorrect(adv.lib, vars, x, t);
    NotShifted(vars, x);
  }

  lemma NotShifted(vars: ValueMap, x: string)
    ensures Shifted(vars, x, 0.0) == vars
  {
  }
}
