/** The derivatives are right: along the step h, an algebraic expression is a polynomial in h, and what the
    interpreter computes is its coefficient of h. */
module Calculus {
  import opened Expressions
  import opened Vectors

  // Polynomials in h, by their coefficients

  type Coeffs = seq<real>

  function Horner(p: Coeffs, h: real): real {
    if p == [] then 0.0 else p[0] + h * Horner(p[1..], h)
  }

  function Coeff(p: Coeffs, k: nat): real {
    if k < |p| then p[k] else 0.0
  }

  function PlusCoeffs(p: Coeffs, q: Coeffs): Coeffs {
    if p == [] then q else if q == [] then p else [p[0] + q[0]] + PlusCoeffs(p[1..], q[1..])
  }

  function ScaleCoeffs(s: real, p: Coeffs): Coeffs {
    if p == [] then [] else [s * p[0]] + ScaleCoeffs(s, p[1..])
  }

  function TimesCoeffs(p: Coeffs, q: Coeffs): Coeffs {
    if p == [] then [] else PlusCoeffs(ScaleCoeffs(p[0], q), [0.0] + TimesCoeffs(p[1..], q))
  }

  lemma {:induction false} HornerPlus(p: Coeffs, q: Coeffs, h: real)
    ensures Horner(PlusCoeffs(p, q), h) == Horner(p, h) + Horner(q, h)
  {
    if p != [] && q != [] {
      HornerPlus(p[1..], q[1..], h);
      assert PlusCoeffs(p, q)[1..] == PlusCoeffs(p[1..], q[1..]);
      Distribute(h, Horner(p[1..], h), Horner(q[1..], h));
    }
  }

  lemma Distribute(h: real, a: real, b: real)
    ensures h * (a + b) == h * a + h * b
  {
  }

  lemma {:induction false} HornerScale(s: real, p: Coeffs, h: real, x: real)
    requires x == Horner(p, h)
    ensures Horner(ScaleCoeffs(s, p), h) == s * x
  {
    if p != [] {
      var x' := Horner(p[1..], h);
      HornerScale(s, p[1..], h, x');
      assert ScaleCoeffs(s, p)[1..] == ScaleCoeffs(s, p[1..]);
      Rescale(s, p[0], h, x', x);
    }
  }

  lemma Rescale(s: real, a: real, h: real, b: real, x: real)
    requires x == a + h * b
    ensures s * a + h * (s * b) == s * x
  {
  }

  lemma {:induction false} HornerTimes(p: Coeffs, q: Coeffs, h: real, x: real, y: real)
    requires x == Horner(p, h) && y == Horner(q, h)
    ensures Horner(TimesCoeffs(p, q), h) == x * y
  {
    if p != [] {
      var rest, x' := TimesCoeffs(p[1..], q), Horner(p[1..], h);
      HornerTimes(p[1..], q, h, x', y);
      HornerPlus(ScaleCoeffs(p[0], q), [0.0] + rest, h);
      HornerScale(p[0], q, h, y);
      assert ([0.0] + rest)[1..] == rest;
      FirstTerm(p[0], h, x', y, Horner(rest, h), x);
    }
  }

  lemma FirstTerm(a: real, h: real, b: real, c: real, bc: real, sum: real)
    requires bc == b * c && sum == a + h * b
    ensures a * c + (0.0 + h * bc) == sum * c
  {
  }

  lemma PlusLow(p: Coeffs, q: Coeffs)
    ensures Coeff(PlusCoeffs(p, q), 0) == Coeff(p, 0) + Coeff(q, 0)
    ensures Coeff(PlusCoeffs(p, q), 1) == Coeff(p, 1) + Coeff(q, 1)
  {
    if p != [] && q != [] {
      var p', q' := p[1..], q[1..];
      var rest := PlusCoeffs(p', q');
      assert PlusCoeffs(p, q) == [p[0] + q[0]] + rest;
      assert Coeff(PlusCoeffs(p, q), 1) == Coeff(rest, 0);
      assert Coeff(rest, 0) == Coeff(p', 0) + Coeff(q', 0);
    }
  }

  lemma ScaleLow(s: real, p: Coeffs)
    ensures Coeff(ScaleCoeffs(s, p), 0) == s * Coeff(p, 0)
    ensures Coeff(ScaleCoeffs(s, p), 1) == s * Coeff(p, 1)
  {
    if p != [] {
      var rest := ScaleCoeffs(s, p[1..]);
      assert ScaleCoeffs(s, p) == [s * p[0]] + rest;
      assert Coeff(ScaleCoeffs(s, p), 1) == Coeff(rest, 0);
      assert Coeff(rest, 0) == s * Coeff(p[1..], 0);
    }
  }

  /** The product rule. */
  lemma TimesLow(p: Coeffs, q: Coeffs)
    ensures Coeff(TimesCoeffs(p, q), 0) == Coeff(p, 0) * Coeff(q, 0)
    ensures Coeff(TimesCoeffs(p, q), 1) == Coeff(p, 0) * Coeff(q, 1) + Coeff(p, 1) * Coeff(q, 0)
  {
    if p != [] {
      var rest := TimesCoeffs(p[1..], q);
      PlusLow(ScaleCoeffs(p[0], q), [0.0] + rest);
      ScaleLow(p[0], q);
      assert Coeff([0.0] + rest, 1) == Coeff(rest, 0);
      if p[1..] != [] {
        TimesLow(p[1..], q);
      }
    }
  }

  // The derivative of a polynomial function

  /** On [-1, 1] the remainder of second order is at most b*h^2. */
  lemma {:induction false} HornerBounded(p: Coeffs) returns (b: real)
    ensures b >= 0.0 && forall h: real | -1.0 <= h <= 1.0 :: -b <= Horner(p, h) <= b
  {
    if p == [] {
      b := 0.0;
    } else {
      var b' := HornerBounded(p[1..]);
      b := Vectors.Abs(p[0]) + b';
      forall h: real | -1.0 <= h <= 1.0 ensures -b <= Horner(p, h) <= b {
        StepBounded(h, Horner(p[1..], h), b');
      }
    }
  }

  lemma StepBounded(h: real, r: real, b: real)
    requires -1.0 <= h <= 1.0 && -b <= r <= b
    ensures -b <= h * r <= b
  {
    if h >= 0.0 {
      NonNegativeProduct(h, b - r, h * (b - r));
      NonNegativeProduct(h, b + r, h * (b + r));
      NonNegativeProduct(1.0 - h, b, (1.0 - h) * b);
    } else {
      NonNegativeProduct(-h, b - r, -h * (b - r));
      NonNegativeProduct(-h, b + r, -h * (b + r));
      NonNegativeProduct(1.0 + h, b, (1.0 + h) * b);
    }
  }

  function Tail(p: Coeffs): Coeffs {
    if |p| <= 2 then [] else p[2..]
  }

  lemma HornerSplit(p: Coeffs, h: real) returns (u: real)
    ensures Horner(p, h) == Coeff(p, 0) + h * u && u == Coeff(p, 1) + h * Horner(Tail(p), h)
  {
    u := Coeff(p, 1) + h * Horner(Tail(p), h);
    if |p| >= 2 {
      assert p[1..][1..] == p[2..];
      assert Tail(p) == p[2..];
    }
  }

  lemma HornerAtZero(p: Coeffs)
    ensures Horner(p, 0.0) == Coeff(p, 0)
  {
  }

  ghost predicate SameFunction(p: Coeffs, q: Coeffs) {
    forall h: real :: Horner(p, h) == Horner(q, h)
  }

  /** So the coefficient of h is determined by the function. */
  lemma SlopeUnique(p: Coeffs, q: Coeffs)
    requires SameFunction(p, q)
    ensures Coeff(p, 1) == Coeff(q, 1)
  {
    HornerAtZero(p);
    HornerAtZero(q);
    assert Horner(p, 0.0) == Horner(q, 0.0);
    var b := HornerBounded(Tail(p));
    var b' := HornerBounded(Tail(q));
    var c := Vectors.Abs(Coeff(p, 1) - Coeff(q, 1));
    if c > 0.0 {
      var h := SmallStep(c, b + b');
      assert Horner(p, h) == Horner(q, h);
      assert -b <= Horner(Tail(p), h) <= b && -b' <= Horner(Tail(q), h) <= b';
      SlopesAt(p, q, h, b + b', c);
    }
  }

  lemma SlopesAt(p: Coeffs, q: Coeffs, h: real, b: real, c: real)
    requires h > 0.0 && h * b < c && Coeff(p, 0) == Coeff(q, 0) && Horner(p, h) == Horner(q, h)
    requires -b <= Horner(Tail(q), h) - Horner(Tail(p), h) <= b
    ensures -c < Coeff(p, 1) - Coeff(q, 1) < c
  {
    var u := HornerSplit(p, h);
    var u' := HornerSplit(q, h);
    Cancel(h, u, u', Horner(p, h) - Coeff(p, 0));
    SlopesClose(h, Coeff(p, 1), Coeff(q, 1), Horner(Tail(p), h), Horner(Tail(q), h), b, c);
  }

  lemma SmallStep(c: real, b: real) returns (h: real)
    requires c > 0.0 && b >= 0.0
    ensures 0.0 < h <= 1.0 && h * b < c
  {
    if b < c {
      h := 1.0;
    } else {
      h := c / (b + b);
      assert h * (b + b) == c;
      NonNegativeFactor(b + b, h);
      NonNegativeFactor(b + b, 1.0 - h);
    }
  }

  lemma SlopesClose(h: real, a: real, a': real, r: real, r': real, b: real, c: real)
    requires h > 0.0 && a + h * r == a' + h * r' && -b <= r' - r <= b && h * b < c
    ensures -c < a - a' < c
  {
    var d := r' - r;
    Distribute(h, r', -r);
    NonNegativeProduct(h, b - d, h * (b - d));
    NonNegativeProduct(h, b + d, h * (b + d));
  }

  lemma Cancel(h: real, a: real, b: real, t: real)
    requires h > 0.0 && t == h * a && t == h * b
    ensures a == b
  {
    NonNegativeFactor(h, a - b);
    NonNegativeFactor(h, b - a);
  }

  // Functions that are polynomials in the step, with their value and slope at 0

  ghost predicate Agrees(f: real -> real, p: Coeffs) {
    forall h: real :: f(h) == Horner(p, h)
  }

  ghost predicate Jet(f: real -> real, c0: real, c1: real) {
    exists p: Coeffs :: Agrees(f, p) && Coeff(p, 0) == c0 && Coeff(p, 1) == c1
  }

  /** Value and slope belong to the function. */
  lemma JetUnique(f: real -> real, c0: real, c1: real, d0: real, d1: real)
    requires Jet(f, c0, c1) && Jet(f, d0, d1)
    ensures c0 == f(0.0) && c1 == d1
  {
    var p: Coeffs :| Agrees(f, p) && Coeff(p, 0) == c0 && Coeff(p, 1) == c1;
    var q: Coeffs :| Agrees(f, q) && Coeff(q, 0) == d0 && Coeff(q, 1) == d1;
    HornerAtZero(p);
    assert f(0.0) == Horner(p, 0.0);
    forall h: real ensures Horner(p, h) == Horner(q, h) {
      assert f(h) == Horner(p, h);
    }
    SlopeUnique(p, q);
  }

  /** y = c0 + h*c1, up to b*h^2. */
  ghost predicate FirstOrder(y: real, c0: real, c1: real, h: real, b: real) {
    Vectors.Abs(y - (c0 + h * c1)) <= b * (h * h)
  }

  /** The slope is the derivative: f(h) = f(0) + h*c1 + O(h^2). */
  lemma JetBound(f: real -> real, c0: real, c1: real) returns (b: real)
    requires Jet(f, c0, c1)
    ensures b >= 0.0 && forall h: real | -1.0 <= h <= 1.0 :: FirstOrder(f(h), c0, c1, h, b)
  {
    var p: Coeffs :| Agrees(f, p) && Coeff(p, 0) == c0 && Coeff(p, 1) == c1;
    b := HornerBounded(Tail(p));
    forall h: real | -1.0 <= h <= 1.0 ensures FirstOrder(f(h), c0, c1, h, b) {
      AgreesAt(f, p, h);
      var u := HornerSplit(p, h);
      SecondOrder(f(h), c0, c1, h, Horner(Tail(p), h), u, b);
    }
  }

  lemma SecondOrder(y: real, c0: real, c1: real, h: real, r: real, u: real, b: real)
    requires u == c1 + h * r && y == c0 + h * u && -b <= r <= b
    ensures FirstOrder(y, c0, c1, h, b)
  {
    var s := h * h;
    SquarePositive(h, s);
    Distribute(h, c1, h * r);
    assert h * (h * r) == s * r;
    NonNegativeProduct(s, b - r, s * (b - r));
    NonNegativeProduct(s, b + r, s * (b + r));
  }

  lemma JetConstant(f: real -> real, c: real)
    requires forall h: real :: f(h) == c
    ensures Jet(f, c, 0.0)
  {
    forall h: real ensures f(h) == Horner([c], h) {
    }
    assert Agrees(f, [c]);
  }

  lemma JetShift(f: real -> real, c: real)
    requires forall h: real :: f(h) == c + h
    ensures Jet(f, c, 1.0)
  {
    forall h: real ensures f(h) == Horner([c, 1.0], h) {
      assert [c, 1.0][1..] == [1.0];
      assert Horner([1.0], h) == 1.0;
    }
    assert Agrees(f, [c, 1.0]);
  }

  lemma JetSum(f: real -> real, a0: real, a1: real, g: real -> real, b0: real, b1: real, k: real -> real)
    requires Jet(f, a0, a1) && Jet(g, b0, b1) && forall h: real :: k(h) == f(h) + g(h)
    ensures Jet(k, a0 + b0, a1 + b1)
  {
    var p: Coeffs :| Agrees(f, p) && Coeff(p, 0) == a0 && Coeff(p, 1) == a1;
    var q: Coeffs :| Agrees(g, q) && Coeff(q, 0) == b0 && Coeff(q, 1) == b1;
    forall h: real ensures k(h) == Horner(PlusCoeffs(p, q), h) {
      HornerPlus(p, q, h);
      assert f(h) == Horner(p, h) && g(h) == Horner(q, h);
    }
    PlusLow(p, q);
    assert Agrees(k, PlusCoeffs(p, q));
  }

  lemma AgreesAt(f: real -> real, p: Coeffs, h: real)
    requires Agrees(f, p)
    ensures f(h) == Horner(p, h)
  {
  }

  ghost predicate IsTimes(z: real, x: real, y: real) {
    z == x * y
  }

  ghost function Times(a: real, b: real): (c: real)
    ensures IsTimes(c, a, b)
  {
    a * b
  }

  ghost function ConstantAlong(c: real): real -> real {
    h => c
  }

  ghost predicate IsProduct(k: real -> real, f: real -> real, g: real -> real) {
    forall h: real :: IsTimes(k(h), f(h), g(h))
  }

  lemma HornerIsProduct(p: Coeffs, q: Coeffs, h: real, x: real, y: real, z: real)
    requires x == Horner(p, h) && y == Horner(q, h) && IsTimes(z, x, y)
    ensures Horner(TimesCoeffs(p, q), h) == z
  {
    HornerTimes(p, q, h, x, y);
  }

  lemma ProductAt(k: real -> real, f: real -> real, g: real -> real, h: real)
    requires IsProduct(k, f, g)
    ensures IsTimes(k(h), f(h), g(h))
  {
  }

  ghost predicate ProductRule(a0: real, a1: real, b0: real, b1: real, c0: real, c1: real) {
    c0 == a0 * b0 && c1 == a0 * b1 + a1 * b0
  }

  lemma JetProduct(f: real -> real, a0: real, a1: real, g: real -> real, b0: real, b1: real, k: real -> real,
                   c0: real, c1: real)
    requires Jet(f, a0, a1) && Jet(g, b0, b1) && IsProduct(k, f, g)
    requires ProductRule(a0, a1, b0, b1, c0, c1)
    ensures Jet(k, c0, c1)
  {
    var p: Coeffs :| Agrees(f, p) && Coeff(p, 0) == a0 && Coeff(p, 1) == a1;
    var q: Coeffs :| Agrees(g, q) && Coeff(q, 0) == b0 && Coeff(q, 1) == b1;
    forall h: real ensures k(h) == Horner(TimesCoeffs(p, q), h) {
      AgreesAt(f, p, h);
      AgreesAt(g, q, h);
      ProductAt(k, f, g, h);
      HornerIsProduct(p, q, h, f(h), g(h), k(h));
    }
    LowProduct(p, q, a0, a1, b0, b1);
    assert Agrees(k, TimesCoeffs(p, q));
  }

  lemma LowProduct(p: Coeffs, q: Coeffs, a0: real, a1: real, b0: real, b1: real)
    requires Coeff(p, 0) == a0 && Coeff(p, 1) == a1 && Coeff(q, 0) == b0 && Coeff(q, 1) == b1
    ensures Coeff(TimesCoeffs(p, q), 0) == a0 * b0
    ensures Coeff(TimesCoeffs(p, q), 1) == a0 * b1 + a1 * b0
  {
    TimesLow(p, q);
    SameProduct(Coeff(p, 0), a0, Coeff(q, 0), b0);
    SameProduct(Coeff(p, 0), a0, Coeff(q, 1), b1);
    SameProduct(Coeff(p, 1), a1, Coeff(q, 0), b0);
  }

  lemma SameProduct(a: real, a': real, b: real, b': real)
    requires a == a' && b == b'
    ensures a * b == a' * b'
  {
  }

  ghost function PowerAlong(f: real -> real, e: nat): real -> real {
    h => Power(f(h), e)
  }

  ghost predicate IsPower(a0: real, a1: real, e: nat, c0: real, c1: real) {
    c0 == Power(a0, e) && c1 == Factor(a0, e, true) * a1
  }

  /** The power rule. */
  lemma {:induction false} JetPower(f: real -> real, a0: real, a1: real, e: nat) returns (c0: real, c1: real)
    requires Jet(f, a0, a1)
    ensures IsPower(a0, a1, e, c0, c1) && Jet(PowerAlong(f, e), c0, c1)
  {
    if e == 0 {
      c0, c1 := 1.0, 0.0;
      JetConstant(PowerAlong(f, e), 1.0);
    } else {
      var n := e - 1;
      var b0, b1 := JetPower(f, a0, a1, n);
      PowerAlongStep(f, n, e);
      c0, c1 := PowerNumbers(a0, a1, n, e, b0, b1);
      JetProduct(f, a0, a1, PowerAlong(f, n), b0, b1, PowerAlong(f, e), c0, c1);
    }
  }

  lemma PowerAlongStep(f: real -> real, n: nat, e: nat)
    requires e == n + 1
    ensures IsProduct(PowerAlong(f, e), f, PowerAlong(f, n))
  {
    forall h: real ensures IsTimes(PowerAlong(f, e)(h), f(h), PowerAlong(f, n)(h)) {
      PowerUnfolds(f(h), n, e, PowerAlong(f, n)(h), PowerAlong(f, e)(h));
    }
  }

  lemma PowerUnfolds(x: real, n: nat, e: nat, y: real, z: real)
    requires e == n + 1 && y == Power(x, n) && z == Power(x, e)
    ensures IsTimes(z, x, y)
  {
  }

  lemma PowerNumbers(a0: real, a1: real, n: nat, e: nat, b0: real, b1: real) returns (c0: real, c1: real)
    requires e == n + 1 && IsPower(a0, a1, n, b0, b1)
    ensures IsPower(a0, a1, e, c0, c1)
    ensures ProductRule(a0, a1, b0, b1, c0, c1)
  {
    c0, c1 := Power(a0, e), Factor(a0, e, true) * a1;
    PowerSlope(a0, a1, e, b1);
  }

  lemma PowerSlope(a0: real, a1: real, e: nat, d: real)
    requires e > 0 && d == Factor(a0, e - 1, true) * a1
    ensures a0 * d + a1 * Power(a0, e - 1) == Factor(a0, e, true) * a1
  {
    if e > 1 {
      PowerStep(a0, a1, Power(a0, e - 2), Power(a0, e - 1), (e - 1) as real);
    }
  }

  lemma PowerStep(c: real, c1: real, q: real, p: real, n: real)
    requires p == c * q
    ensures c * ((n * q) * c1) + c1 * p == ((n + 1.0) * p) * c1
  {
    assert c * ((n * q) * c1) == n * (c * q) * c1;
  }
}
