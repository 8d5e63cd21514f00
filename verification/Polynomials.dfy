/** polynomial-convenience.hpp: polynomials of the C++ interface and their encoding. A monomial becomes one
    number, the offset, whose digits to the base d are its exponents. */
module Polynomials {
  import opened Expressions
  import opened Derivatives
  import opened DerivativeTheorems
  import opened Calculus

  datatype VarPower = VarPower(name: string, pow: int)

  datatype Monomial = Monomial(coeff: real, powers: seq<VarPower>)

  type MonomialSum = seq<Monomial>

  // Operators of the interface

  function FromVar(v: string): Monomial { Monomial(1.0, [VarPower(v, 1)]) }

  /** a | b keeps the coefficient of a. */
  function Join(a: Monomial, b: Monomial): Monomial { Monomial(a.coeff, a.powers + b.powers) }

  // The greatest power

  function MaxPower(powers: seq<VarPower>): int {
    if powers == [] then 0
    else if |powers| == 1 then powers[0].pow
    else
      var r := MaxPower(powers[1..]);
      if r < powers[0].pow then powers[0].pow else r
  }

  function MaxVarDegree(m: MonomialSum): int {
    if m == [] then 0
    else if |m| == 1 then MaxPower(m[0].powers)
    else
      var r := MaxVarDegree(m[1..]);
      if r < MaxPower(m[0].powers) then MaxPower(m[0].powers) else r
  }

  lemma {:induction false} MaxPowerIsMax(powers: seq<VarPower>, i: nat) returns (j: nat)
    requires i < |powers|
    ensures powers[i].pow <= MaxPower(powers)
    ensures j < |powers| && MaxPower(powers) == powers[j].pow
  {
    if |powers| == 1 {
      j := 0;
    } else {
      j := MaxPowerIsMax(powers[1..], if i > 0 then i - 1 else 0);
      j := if MaxPower(powers[1..]) < powers[0].pow then 0 else j + 1;
    }
  }

  lemma {:induction false} MaxVarDegreeIsMax(m: MonomialSum, k: nat) returns (l: nat)
    requires k < |m|
    ensures MaxPower(m[k].powers) <= MaxVarDegree(m)
    ensures l < |m| && MaxVarDegree(m) == MaxPower(m[l].powers)
  {
    if |m| == 1 {
      l := 0;
    } else {
      l := MaxVarDegreeIsMax(m[1..], if k > 0 then k - 1 else 0);
      l := if MaxVarDegree(m[1..]) < MaxPower(m[0].powers) then 0 else l + 1;
    }
  }

  /** The base d of the offsets. */
  function Base(m: MonomialSum): int {
    MaxVarDegree(m) + 1
  }

  // The variables, in the order of std::set<std::string>

  predicate Before(a: string, b: string) {
    if b == [] then false
    else if a == [] then true
    else a[0] < b[0] || (a[0] == b[0] && Before(a[1..], b[1..]))
  }

  /** Up to some place the two agree, and there the first ends, or has the smaller character. */
  ghost predicate BeforeAt(a: string, b: string, k: nat) {
    k <= |a| && k < |b| && a[..k] == b[..k] && (k == |a| || a[k] < b[k])
  }

  lemma SameFirst(a: string, b: string, k: nat)
    requires BeforeAt(a, b, k)
    ensures k > 0 ==> a[0] == b[0]
  {
    if k > 0 {
      assert a[..k][0] == b[..k][0];
    }
  }

  lemma {:induction false} BeforeExactly(a: string, b: string)
    ensures Before(a, b) <==> exists k: nat :: BeforeAt(a, b, k)
  {
    if a != [] && b != [] && a[0] == b[0] {
      BeforeExactly(a[1..], b[1..]);
      if k: nat :| BeforeAt(a[1..], b[1..], k) {
        assert a[..k + 1] == [a[0]] + a[1..][..k] && b[..k + 1] == [b[0]] + b[1..][..k];
        assert BeforeAt(a, b, k + 1);
      }
      if k: nat :| BeforeAt(a, b, k) {
        assert k > 0 ==> a[1..][..k - 1] == a[..k][1..] && b[1..][..k - 1] == b[..k][1..];
        assert k > 0 ==> BeforeAt(a[1..], b[1..], k - 1);
      }
    } else {
      assert Before(a, b) ==> BeforeAt(a, b, 0);
      forall k: nat | BeforeAt(a, b, k) ensures k == 0 {
        SameFirst(a, b, k);
      }
    }
  }

  lemma {:induction false} BeforeTransitive(a: string, b: string, c: string)
    requires Before(a, b) && Before(b, c)
    ensures Before(a, c)
  {
    if a != [] && a[0] == b[0] && b[0] == c[0] {
      BeforeTransitive(a[1..], b[1..], c[1..]);
    }
  }

  lemma {:induction false} BeforeTotal(a: string, b: string)
    ensures Before(a, b) || Before(b, a) || a == b
    ensures !(Before(a, b) && Before(b, a)) && !Before(a, a)
  {
    if a != [] {
      BeforeTotal(a[1..], a[1..]);
      if b != [] && a[0] == b[0] {
        BeforeTotal(a[1..], b[1..]);
        assert a == [a[0]] + a[1..] && b == [b[0]] + b[1..];
      }
    }
  }

  ghost predicate Ascending(names: seq<string>) {
    forall i, j | 0 <= i < j < |names| :: Before(names[i], names[j])
  }

  lemma AscendingDistinct(names: seq<string>)
    requires Ascending(names)
    ensures Distinct(names)
  {
    forall i, j | 0 <= i < j < |names| ensures names[i] != names[j] {
      BeforeTotal(names[i], names[j]);
    }
  }

  method Insert(names: seq<string>, n: string) returns (names': seq<string>)
    requires Ascending(names)
    ensures Ascending(names')
    ensures forall v :: v in names' <==> v in names || v == n
  {
    var i := 0;
    while i < |names| && Before(names[i], n)
      invariant i <= |names|
      invariant forall k | 0 <= k < i :: Before(names[k], n)
    {
      i := i + 1;
    }
    if i < |names| && names[i] == n {
      return names;
    }
    names' := names[..i] + [n] + names[i..];
    forall k | i <= k < |names| ensures Before(n, names[k]) {
      BeforeTotal(names[i], n);
      if k > i {
        BeforeTransitive(n, names[i], names[k]);
      }
    }
    forall v ensures v in names' <==> v in names || v == n {
      assert names == names[..i] + names[i..];
    }
  }

  ghost predicate Occurs(m: MonomialSum, v: string) {
    exists k, j :: 0 <= k < |m| && 0 <= j < |m[k].powers| && m[k].powers[j].name == v
  }

  /** variables(): the names that occur, in ascending order. */
  method Variables(m: MonomialSum) returns (names: seq<string>)
    ensures Ascending(names) && forall v :: v in names <==> Occurs(m, v)
  {
    names := [];
    for k := 0 to |m|
      invariant Ascending(names) && forall v :: v in names <==> Occurs(m[..k], v)
    {
      var powers := m[k].powers;
      for j := 0 to |powers|
        invariant Ascending(names)
        invariant forall v :: v in names <==> Occurs(m[..k], v) || exists i :: 0 <= i < j && powers[i].name == v
      {
        names := Insert(names, powers[j].name);
      }
      forall v ensures v in names <==> Occurs(m[..k + 1], v) {
        OccursNext(m, k, v);
      }
    }
    assert m[..|m|] == m;
  }

  lemma OccursNext(m: MonomialSum, k: nat, v: string)
    requires k < |m|
    ensures Occurs(m[..k + 1], v) <==>
            Occurs(m[..k], v) || exists i :: 0 <= i < |m[k].powers| && m[k].powers[i].name == v
  {
    var a, b := m[..k], m[..k + 1];
    if Occurs(a, v) {
      var l, j :| 0 <= l < |a| && 0 <= j < |a[l].powers| && a[l].powers[j].name == v;
      assert b[l] == a[l];
    }
    if i :| 0 <= i < |m[k].powers| && m[k].powers[i].name == v {
      assert b[k] == m[k];
    }
    if Occurs(b, v) && !Occurs(a, v) {
      var l, j :| 0 <= l < |b| && 0 <= j < |b[l].powers| && b[l].powers[j].name == v;
      assert l == k;
    }
  }

  // Exponents and offsets

  /** The exponent of every variable; powers of the same variable add up. */
  function Combined(names: seq<string>, powers: seq<VarPower>): (exps: seq<int>)
    ensures |exps| == |names|
  {
    if powers == [] then seq(|names|, i => 0)
    else
      var last := powers[|powers| - 1];
      var exps, i := Combined(names, powers[..|powers| - 1]), IndexOf(names, last.name);
      if i >= 0 then exps[i := exps[i] + last.pow] else exps
  }

  function IntPower(d: int, n: nat): int {
    if n == 0 then 1 else d * IntPower(d, n - 1)
  }

  /** exps[0] + exps[1]*d + exps[2]*d^2 + ... */
  function OffsetTo(exps: seq<int>, d: int, n: nat): int
    requires n <= |exps|
  {
    if n == 0 then 0 else OffsetTo(exps, d, n - 1) + exps[n - 1] * IntPower(d, n - 1)
  }

  lemma {:induction false} OffsetZero(exps: seq<int>, d: int, n: nat)
    requires n <= |exps| && forall i | 0 <= i < |exps| :: exps[i] == 0
    ensures OffsetTo(exps, d, n) == 0
  {
    if n > 0 {
      OffsetZero(exps, d, n - 1);
    }
  }

  lemma {:induction false} OffsetUpdate(exps: seq<int>, d: int, i: nat, p: int, e: int, n: nat)
    requires i < |exps| && n <= |exps| && e == exps[i] + p
    ensures OffsetTo(exps[i := e], d, n) == OffsetTo(exps, d, n) + if i < n then p * IntPower(d, i) else 0
  {
    if n > 0 {
      OffsetUpdate(exps, d, i, p, e, n - 1);
    }
  }

  /** The inner loop of buildPolynomial. */
  method BuildOffset(names: seq<string>, powers: seq<VarPower>, d: int) returns (offset: int)
    requires forall p | p in powers :: p.name in names
    ensures offset == OffsetTo(Combined(names, powers), d, |names|)
  {
    offset := 0;
    OffsetZero(Combined(names, []), d, |names|);
    for j := 0 to |powers|
      invariant offset == OffsetTo(Combined(names, powers[..j]), d, |names|)
    {
      var i := IndexOf(names, powers[j].name);
      offset := offset + powers[j].pow * IntPower(d, i);
      assert powers[..j + 1][..j] == powers[..j];
      ghost var exps := Combined(names, powers[..j]);
      OffsetUpdate(exps, d, i, powers[j].pow, exps[i] + powers[j].pow, |names|);
    }
    assert powers[..|powers|] == powers;
  }

  function ToUInt8(x: int): nat { x % 256 }

  function ToUInt32(x: int): nat { x % 0x1_0000_0000 }

  method BuildTerm(names: seq<string>, m: Monomial, d: int) returns (c: SparseCoeff)
    requires forall p | p in m.powers :: p.name in names
    ensures IsTerm(m, names, d, c)
  {
    var offset := BuildOffset(names, m.powers, d);
    c := SparseCoeff(ToUInt32(offset), m.coeff);
  }

  /** buildPolynomial. The message holds the greatest power in 8 bits, and an offset in 32. */
  method BuildPolynomial(m: MonomialSum) returns (poly: Polynomial)
    ensures Ascending(poly.variables) && forall v :: v in poly.variables <==> Occurs(m, v)
    ensures IsEncoding(m, poly)
  {
    var names := Variables(m);
    var maxvar, d := MaxVarDegree(m), Base(m);
    var coeffs: seq<SparseCoeff> := [];
    for k := 0 to |m|
      invariant |coeffs| == k && AreTerms(m, names, d, coeffs)
    {
      forall p | p in m[k].powers ensures p.name in names {
        assert Occurs(m, p.name);
      }
      var coeff := BuildTerm(names, m[k], d);
      OneMoreTerm(m, names, d, coeffs, coeff);
      coeffs := coeffs + [coeff];
    }
    poly := Polynomial(names, ToUInt8(maxvar), coeffs);
  }

  ghost predicate IsTerm(m: Monomial, names: seq<string>, d: int, c: SparseCoeff) {
    c.value == m.coeff && c.offset == ToUInt32(OffsetTo(Combined(names, m.powers), d, |names|))
  }

  ghost predicate AreTerms(m: MonomialSum, names: seq<string>, d: int, coeffs: seq<SparseCoeff>) {
    |coeffs| <= |m| && forall k | 0 <= k < |coeffs| :: IsTerm(m[k], names, d, coeffs[k])
  }

  lemma OneMoreTerm(m: MonomialSum, names: seq<string>, d: int, coeffs: seq<SparseCoeff>, c: SparseCoeff)
    requires AreTerms(m, names, d, coeffs) && |coeffs| < |m| && IsTerm(m[|coeffs|], names, d, c)
    ensures AreTerms(m, names, d, coeffs + [c])
  {
    var coeffs' := coeffs + [c];
    forall k | 0 <= k < |coeffs'| ensures IsTerm(m[k], names, d, coeffs'[k]) {
      if k < |coeffs| {
        assert coeffs'[k] == coeffs[k] && IsTerm(m[k], names, d, coeffs[k]);
      } else {
        assert m[k] == m[|coeffs|] && coeffs'[k] == c;
      }
    }
  }

  ghost predicate IsEncoding(m: MonomialSum, poly: Polynomial) {
    && poly.maxVarDegree == ToUInt8(MaxVarDegree(m))
    && |poly.coefficients| == |m|
    && AreTerms(m, poly.variables, Base(m), poly.coefficients)
  }

  // Decoding

  ghost predicate Digits(exps: seq<int>, d: int) {
    forall i | 0 <= i < |exps| :: 0 <= exps[i] < d
  }

  /** The digits from the v-th on. */
  function High(exps: seq<int>, d: int, v: nat): int
    requires v <= |exps|
    decreases |exps| - v
  {
    if v == |exps| then 0 else exps[v] + d * High(exps, d, v + 1)
  }

  lemma {:induction false} PowersAgree(d: nat, n: nat)
    ensures IntPower(d, n) == NatPower(d, n)
  {
    if n > 0 {
      PowersAgree(d, n - 1);
    }
  }

  /** The digits below the v-th make less than d^v, those from it on a multiple. */
  lemma {:induction false} OffsetSplit(exps: seq<int>, d: nat, v: nat)
    requires v <= |exps| && Digits(exps, d)
    ensures 0 <= OffsetTo(exps, d, v) && (d > 0 ==> OffsetTo(exps, d, v) < NatPower(d, v))
    ensures OffsetTo(exps, d, |exps|) == OffsetTo(exps, d, v) + NatPower(d, v) * High(exps, d, v)
    decreases |exps| - v
  {
    if v == |exps| {
      OffsetBelow(exps, d, v);
    } else {
      OffsetSplit(exps, d, v + 1);
      OffsetBelow(exps, d, v);
      PowersAgree(d, v);
      SplitStep(OffsetTo(exps, d, v), NatPower(d, v), d, exps[v], High(exps, d, v + 1), OffsetTo(exps, d, v + 1),
                NatPower(d, v + 1));
    }
  }

  lemma SplitStep(low: int, p: int, d: int, e: int, h: int, low': int, p': int)
    requires p' == d * p && low' == low + e * p
    ensures low' + p' * h == low + p * (e + d * h)
  {
    assert d * p * h == p * (d * h);
  }

  lemma {:induction false} OffsetBelow(exps: seq<int>, d: nat, v: nat)
    requires v <= |exps| && Digits(exps, d)
    ensures 0 <= OffsetTo(exps, d, v) && (d > 0 ==> OffsetTo(exps, d, v) < NatPower(d, v))
  {
    if v > 0 {
      var u := v - 1;
      OffsetBelow(exps, d, u);
      PowersAgree(d, u);
      BelowStep(OffsetTo(exps, d, u), NatPower(d, u), d, exps[u], OffsetTo(exps, d, v), NatPower(d, v));
    }
  }

  lemma BelowStep(low: int, p: int, d: int, e: int, low': int, p': int)
    requires 0 <= e < d && 0 <= low < p && p' == d * p && low' == low + e * p
    ensures 0 <= low' < p'
  {
    assert e * p >= 0 && (d - 1 - e) * p >= 0;
  }

  lemma DivideOff(low: int, p: nat, h: int)
    requires p > 0 && 0 <= low < p
    ensures (low + p * h) / p == h
  {
    var x := low + p * h;
    assert x == p * (x / p) + x % p;
    NoMultiple(p, x / p - h, low - x % p);
  }

  lemma NoMultiple(p: int, k: int, t: int)
    requires p > 0 && -p < t < p && t == p * k
    ensures k == 0
  {
    MulNonNegative(p, if k > 0 then k - 1 else -k - 1);
  }

  lemma MulNonNegative(p: int, k: int)
    requires p > 0
    ensures k >= 0 ==> p * k >= 0
  {
  }

  /** Dividing by d^v and reducing modulo d gives the v-th digit. */
  lemma DigitRecovered(exps: seq<int>, d: nat, v: nat)
    requires v < |exps| && Digits(exps, d)
    ensures OffsetTo(exps, d, |exps|) >= 0 && d > 0
    ensures Exponent(OffsetTo(exps, d, |exps|), d, v) == exps[v]
  {
    assert 0 <= exps[v] < d;
    OffsetBelow(exps, d, |exps|);
    OffsetSplit(exps, d, v);
    DivideOff(OffsetTo(exps, d, v), NatPower(d, v), High(exps, d, v));
    var h := High(exps, d, v + 1);
    DivideOff(exps[v], d, h);
    assert High(exps, d, v) == exps[v] + d * h;
    var x := exps[v] + d * h;
    assert x == d * (x / d) + x % d;
  }

  /** Decoding an offset gives back the exponents exactly when all of them are digits to the base d. */
  lemma DecodeExact(exps: seq<int>, d: nat)
    requires d > 0 && OffsetTo(exps, d, |exps|) >= 0
    ensures (forall v | 0 <= v < |exps| :: Exponent(OffsetTo(exps, d, |exps|), d, v) == exps[v]) <==> Digits(exps, d)
  {
    var offset := OffsetTo(exps, d, |exps|);
    if Digits(exps, d) {
      forall v | 0 <= v < |exps| ensures Exponent(offset, d, v) == exps[v] {
        DigitRecovered(exps, d, v);
      }
    } else {
      var v :| 0 <= v < |exps| && !(0 <= exps[v] < d);
      assert 0 <= Exponent(offset, d, v) < d;
    }
  }

  /** Different monomials have different offsets. */
  lemma OffsetsDistinct(exps: seq<int>, exps': seq<int>, d: nat)
    requires |exps| == |exps'| && Digits(exps, d) && Digits(exps', d)
    requires OffsetTo(exps, d, |exps|) == OffsetTo(exps', d, |exps'|)
    ensures exps == exps'
  {
    forall v | 0 <= v < |exps| ensures exps[v] == exps'[v] {
      DigitRecovered(exps, d, v);
      DigitRecovered(exps', d, v);
    }
  }

  /** (X|X) + Y needs the exponent 2, but d is 2: it is read as Y. */
  lemma RepeatedFactor()
    ensures MaxVarDegree([Join(FromVar("X"), FromVar("X")), FromVar("Y")]) == 1
    ensures Combined(["X", "Y"], Join(FromVar("X"), FromVar("X")).powers) == [2, 0]
    ensures OffsetTo([2, 0], 2, 2) == OffsetTo([0, 1], 2, 2) == 2
    ensures Exponents(2, 2, 2) == [0, 1]
  {
    var m := Join(FromVar("X"), FromVar("X"));
    assert m.powers == [VarPower("X", 1), VarPower("X", 1)];
    assert m.powers[..1] == [VarPower("X", 1)] && m.powers[..1][..0] == [];
    assert m.powers[1..] == [VarPower("X", 1)];
    assert [m, FromVar("Y")][1..] == [FromVar("Y")];
    assert MaxPower(m.powers) == 1 && MaxPower(FromVar("Y").powers) == 1;
    assert MaxVarDegree([FromVar("Y")]) == 1;
    assert Combined(["X", "Y"], m.powers[..1]) == [1, 0];
    assert OffsetTo([2, 0], 2, 1) == 2 && OffsetTo([0, 1], 2, 1) == 0;
    assert NatPower(2, 1) == 2 * NatPower(2, 0);
    assert Exponent(2, 2, 0) == 0 && Exponent(2, 2, 1) == 1;
  }

  // Evaluating an encoding

  ghost predicate NonNegative(powers: seq<VarPower>) {
    forall p | p in powers :: p.pow >= 0
  }

  /** The product of the first n powers, as written. */
  ghost function PowersTo(vars: ValueMap, powers: seq<VarPower>, n: nat): real
    requires NonNegative(powers) && n <= |powers|
  {
    if n == 0 then 1.0
    else PowersTo(vars, powers, n - 1) * Power(Lookup(vars, powers[n - 1].name), powers[n - 1].pow)
  }

  ghost function MonomialMeaning(vars: ValueMap, m: Monomial): real
    requires NonNegative(m.powers)
  {
    m.coeff * PowersTo(vars, m.powers, |m.powers|)
  }

  ghost function SumMeaning(vars: ValueMap, m: MonomialSum, n: nat): real
    requires n <= |m| && forall k | 0 <= k < |m| :: NonNegative(m[k].powers)
  {
    if n == 0 then 0.0 else SumMeaning(vars, m, n - 1) + MonomialMeaning(vars, m[n - 1])
  }

  /** What a caller has to see to: no negative powers, every exponent below the base, and numbers that fit. */
  ghost predicate Fits(m: MonomialSum, names: seq<string>) {
    && MaxVarDegree(m) < 256
    && forall k | 0 <= k < |m| ::
         && NonNegative(m[k].powers) && Digits(Combined(names, m[k].powers), Base(m))
         && OffsetTo(Combined(names, m[k].powers), Base(m), |names|) < 0x8000_0000
  }

  lemma {:induction false} CombinedNonNegative(names: seq<string>, powers: seq<VarPower>)
    requires NonNegative(powers)
    ensures forall i | 0 <= i < |names| :: Combined(names, powers)[i] >= 0
  {
    if powers != [] {
      CombinedNonNegative(names, powers[..|powers| - 1]);
    }
  }

  /** The powers of x multiply: x^a * x^b = x^(a+b). */
  lemma {:induction false} PowerAdds(x: real, a: nat, b: nat, c: nat, pa: real, pb: real, pc: real)
    requires c == a + b && pa == Power(x, a) && pb == Power(x, b) && pc == Power(x, c)
    ensures IsTimes(pc, pa, pb)
    decreases b
  {
    if b > 0 {
      var b', c' := b - 1, c - 1;
      PowerAdds(x, a, b', c', pa, Power(x, b'), Power(x, c'));
      PowerUnfolds(x, b', b, Power(x, b'), pb);
      PowerUnfolds(x, c', c, Power(x, c'), pc);
      Regroup(pa, Power(x, b'), Power(x, c'), x, pb, pc);
    }
  }

  lemma Regroup(a: real, b: real, ab: real, x: real, xb: real, xab: real)
    requires IsTimes(ab, a, b) && IsTimes(xb, x, b) && IsTimes(xab, x, ab)
    ensures IsTimes(xab, a, xb)
  {
  }

  /** Raising one exponent multiplies the monomial by that power. */
  lemma {:induction false} MonomialRaised(point: seq<real>, exps: seq<nat>, exps': seq<nat>, i: nat, p: nat, n': nat,
                                          a: real, q: real, b: real)
    requires i < |exps| == |exps'| == |point| && n' <= |point| && exps' == exps[i := exps[i] + p]
    requires a == MonomialTo(point, exps, -1, n') && b == MonomialTo(point, exps', -1, n')
    requires q == (if i < n' then Power(point[i], p) else 1.0)
    ensures IsTimes(b, a, q)
  {
    if n' > 0 {
      var n := n' - 1;
      var a', b' := MonomialTo(point, exps, -1, n), MonomialTo(point, exps', -1, n);
      var q' := if i < n then Power(point[i], p) else 1.0;
      MonomialRaised(point, exps, exps', i, p, n, a', q', b');
      var f, f' := Power(point[n], exps[n]), Power(point[n], exps'[n]);
      MonomialUnfolds(point, exps, n, n', a', f, a);
      MonomialUnfolds(point, exps', n, n', b', f', b);
      if i == n {
        PowerAdds(point[n], exps[n], p, exps'[n], f, q, f');
      }
      Raised(a', b', q', f, f', a, b, q, i == n);
    }
  }

  lemma Raised(a': real, b': real, q': real, f: real, f': real, a: real, b: real, q: real, here: bool)
    requires IsTimes(b', a', q') && IsTimes(a, a', f) && IsTimes(b, b', f')
    requires if here then q' == 1.0 && IsTimes(f', f, q) else f == f' && q == q'
    ensures IsTimes(b, a, q)
  {
    if here {
      Assoc(a', f, q, a, f', b, b');
    } else {
      assert b == (a' * q') * f;
      assert a * q == (a' * f) * q';
    }
  }

  lemma Assoc(a: real, f: real, q: real, af: real, fq: real, r: real, b: real)
    requires IsTimes(af, a, f) && IsTimes(fq, f, q) && IsTimes(r, b, fq) && b == a * 1.0
    ensures IsTimes(r, af, q)
  {
  }

  lemma {:induction false} NoPowers(point: seq<real>, exps: seq<nat>, n: nat)
    requires n <= |point| == |exps| && forall i | 0 <= i < |exps| :: exps[i] == 0
    ensures MonomialTo(point, exps, -1, n) == 1.0
  {
    if n > 0 {
      NoPowers(point, exps, n - 1);
    }
  }

  /** The product over the variables is the product as written. */
  lemma {:induction false} ProductOfPowers(vars: ValueMap, names: seq<string>, powers: seq<VarPower>, n': nat,
                                           exps: seq<nat>)
    requires n' <= |powers| && NonNegative(powers) && exps == Combined(names, powers[..n'])
    requires forall p | p in powers :: p.name in names
    ensures MonomialTo(Point(vars, names), exps, -1, |names|) == PowersTo(vars, powers, n')
  {
    var point := Point(vars, names);
    if n' == 0 {
      NoPowers(point, exps, |names|);
    } else {
      var n := n' - 1;
      var rest, last := powers[..n], powers[n];
      assert powers[..n'][..n] == rest;
      CombinedNonNegative(names, rest);
      var exps0: seq<nat> := Combined(names, rest);
      ProductOfPowers(vars, names, powers, n, exps0);
      var i := IndexOf(names, last.name);
      var a, q, b := PowersTo(vars, powers, n), Power(point[i], last.pow), MonomialTo(point, exps, -1, |names|);
      MonomialRaised(point, exps0, exps, i, last.pow, |names|, a, q, b);
      PowersUnfold(vars, powers, n, n', a, q, PowersTo(vars, powers, n'));
      SameTimes(b, PowersTo(vars, powers, n'), a, q);
    }
  }

  lemma PowersUnfold(vars: ValueMap, powers: seq<VarPower>, n: nat, n': nat, a: real, q: real, c: real)
    requires NonNegative(powers) && n' == n + 1 && n < |powers| && a == PowersTo(vars, powers, n)
    requires q == Power(Lookup(vars, powers[n].name), powers[n].pow) && c == PowersTo(vars, powers, n')
    ensures IsTimes(c, a, q)
  {
  }

  lemma MeaningUnfolds(vars: ValueMap, m: Monomial, a: real, c: real)
    requires NonNegative(m.powers) && a == PowersTo(vars, m.powers, |m.powers|) && c == MonomialMeaning(vars, m)
    ensures IsTimes(c, m.coeff, a)
  {
  }

  /** A term of the encoding is decoded to the monomial it was built from. */
  lemma TermMeaning(vars: ValueMap, m: MonomialSum, poly: Polynomial, k: nat)
    requires IsEncoding(m, poly) && Fits(m, poly.variables) && k < |m|
    requires forall p | p in m[k].powers :: p.name in poly.variables
    ensures Term(poly, Point(vars, poly.variables), -1, k) == MonomialMeaning(vars, m[k])
  {
    var names, d := poly.variables, Base(m);
    var exps := Combined(names, m[k].powers);
    CombinedNonNegative(names, m[k].powers);
    assert IsTerm(m[k], names, d, poly.coefficients[k]);
    var offset := OffsetTo(exps, d, |names|);
    assert NonNegative(m[k].powers) && Digits(exps, d) && offset < 0x8000_0000;
    BaseInMessage(m, k);
    OffsetBelow(exps, d, |names|);
    var c := poly.coefficients[k];
    assert c.offset == offset && poly.maxVarDegree + 1 == d;
    var decoded := Exponents(c.offset, d, |names|);
    forall v | 0 <= v < |names| ensures decoded[v] == exps[v] {
      DigitRecovered(exps, d, v);
    }
    assert decoded == exps;
    assert m[k].powers[..|m[k].powers|] == m[k].powers;
    ProductOfPowers(vars, names, m[k].powers, |m[k].powers|, decoded);
    var a := PowersTo(vars, m[k].powers, |m[k].powers|);
    MeaningUnfolds(vars, m[k], a, MonomialMeaning(vars, m[k]));
    TermTimes(poly, Point(vars, names), -1, k, a, Term(poly, Point(vars, names), -1, k));
    SameTimes(MonomialMeaning(vars, m[k]), Term(poly, Point(vars, names), -1, k), m[k].coeff, a);
  }

  lemma SmallUInt8(x: int)
    requires 0 <= x < 256
    ensures ToUInt8(x) == x
  {
  }

  lemma BaseInMessage(m: MonomialSum, k: nat)
    requires k < |m| && NonNegative(m[k].powers) && MaxVarDegree(m) < 256
    ensures MaxVarDegree(m) >= 0 && ToUInt8(MaxVarDegree(m)) + 1 == Base(m)
  {
    var l := MaxVarDegreeIsMax(m, k);
    if m[k].powers != [] {
      var j := MaxPowerIsMax(m[k].powers, 0);
      assert m[k].powers[j] in m[k].powers;
    }
    SmallUInt8(MaxVarDegree(m));
  }

  lemma {:induction false} EncodingMeaningTo(vars: ValueMap, m: MonomialSum, poly: Polynomial, n': nat)
    requires IsEncoding(m, poly) && Fits(m, poly.variables) && n' <= |m|
    requires forall k | 0 <= k < |m| :: NonNegative(m[k].powers)
    requires forall k, p | 0 <= k < |m| && p in m[k].powers :: p.name in poly.variables
    ensures PolyTo(poly, Point(vars, poly.variables), -1, n') == SumMeaning(vars, m, n')
  {
    if n' > 0 {
      var n := n' - 1;
      EncodingMeaningTo(vars, m, poly, n);
      TermMeaning(vars, m, poly, n);
      SumUnfolds(vars, m, poly, n, n', SumMeaning(vars, m, n));
    }
  }

  lemma SumUnfolds(vars: ValueMap, m: MonomialSum, poly: Polynomial, n: nat, n': nat, sum: real)
    requires n' == n + 1 && n' <= |m| == |poly.coefficients| && forall k | 0 <= k < |m| :: NonNegative(m[k].powers)
    requires Term(poly, Point(vars, poly.variables), -1, n) == MonomialMeaning(vars, m[n])
    requires PolyTo(poly, Point(vars, poly.variables), -1, n) == SumMeaning(vars, m, n) == sum
    ensures PolyTo(poly, Point(vars, poly.variables), -1, n') == SumMeaning(vars, m, n')
  {
    assert SumMeaning(vars, m, n') == sum + MonomialMeaning(vars, m[n]);
  }

  /** Evaluating the encoding of a polynomial gives the value of the polynomial. */
  lemma EncodingMeaning(vars: ValueMap, m: MonomialSum, poly: Polynomial)
    requires IsEncoding(m, poly) && Fits(m, poly.variables)
    requires forall v :: v in poly.variables <==> Occurs(m, v)
    ensures forall k | 0 <= k < |m| :: NonNegative(m[k].powers)
    ensures PolyValue(poly, vars, -1) == SumMeaning(vars, m, |m|)
  {
    forall k, p | 0 <= k < |m| && p in m[k].powers ensures p.name in poly.variables {
      assert Occurs(m, p.name);
    }
    EncodingMeaningTo(vars, m, poly, |m|);
  }

  /** An encoding has distinct variables, and so the interpreter's derivative of it is the derivative. */
  lemma EncodingDerivative(lib: Library, vars: ValueMap, x: string, poly: Polynomial)
    requires Ascending(poly.variables) && Bound(vars, TPoly(poly))
    ensures IsDerivative(lib, vars, x, TPoly(poly), DPoly(poly, vars, x))
  {
    AscendingDistinct(poly.variables);
    PolynomialDerivativeExact(lib, vars, x, poly);
  }

  /** Using every variable at most once in a monomial is enough. */
  lemma {:induction false} UsedOnce(names: seq<string>, powers: seq<VarPower>, d: int)
    requires NonNegative(powers) && MaxPower(powers) < d && d > 0
    requires forall i, j | 0 <= i < j < |powers| :: powers[i].name != powers[j].name
    ensures Digits(Combined(names, powers), d)
    ensures forall v | 0 <= v < |names| ::
      (forall p | p in powers :: p.name != names[v]) ==> Combined(names, powers)[v] == 0
  {
    if powers != [] {
      var rest, last := powers[..|powers| - 1], powers[|powers| - 1];
      forall p | p in powers ensures p.pow < d {
        var k :| 0 <= k < |powers| && powers[k] == p;
        var j := MaxPowerIsMax(powers, k);
      }
      if rest != [] {
        var j := MaxPowerIsMax(rest, 0);
        assert rest[j] in powers;
      }
      UsedOnce(names, rest, d);
      var i := IndexOf(names, last.name);
      if i >= 0 {
        assert forall p | p in rest :: p.name != names[i];
        assert Combined(names, rest)[i] == 0;
      }
      forall v | 0 <= v < |names| && forall p | p in powers :: p.name != names[v]
        ensures Combined(names, powers)[v] == 0
      {
        assert last in powers;
      }
    }
  }
}
