/** hlapi.cpp: the belief functions of devices with discrete setpoints, as ordered lists of overlapping cases
    that the interpreter goes through from the front. */
module Beliefs {
  import opened Expressions
  import opened LetBinding
  import opened Projections
  import opened Vectors
  import opened Wrappers

  datatype Bound = NegInf | Finite(x: real) | PosInf

  predicate AtMost(a: Bound, b: Bound) {
    a.NegInf? || b.PosInf? || (a.Finite? && b.Finite? && a.x <= b.x)
  }

  /** One case: an interval with bounds in either order, and an expression without references. */
  datatype Case = Case(boundA: Bound, boundB: Bound, expr: Term)

  predicate Contains(c: Case, p: real) {
    var min, max := if AtMost(c.boundB, c.boundA) then c.boundB else c.boundA,
                    if AtMost(c.boundB, c.boundA) then c.boundA else c.boundB;
    AtMost(min, Finite(p)) && AtMost(Finite(p), max)
  }

  ghost predicate Closed(t: Term) {
    RefsBelow(map[], map[], t, 0)
  }

  ghost function ValueOf(lib: Library, t: Term, p: real): real
    requires Closed(t)
  {
    Denote(lib, map["P" := p], map[], map[], t, 0)
  }

  /** The expression of the first case that contains p. */
  function FirstCase(cases: seq<Case>, p: real): Option<Term> {
    if cases == [] then None
    else if Contains(cases[0], p) then Some(cases[0].expr)
    else FirstCase(cases[1..], p)
  }

  /** The selection in eval(CaseDistinction); without a case, an evaluation error. */
  method SelectCase(cases: seq<Case>, p: real) returns (r: Option<Term>)
    ensures r == FirstCase(cases, p)
    ensures r.Some? <==> exists i :: 0 <= i < |cases| && Contains(cases[i], p)
    ensures forall i | 0 <= i < |cases| && Contains(cases[i], p) && (forall j | 0 <= j < i :: !Contains(cases[j], p)) ::
      r == Some(cases[i].expr)
  {
    for i := 0 to |cases|
      invariant FirstCase(cases, p) == FirstCase(cases[i..], p)
      invariant forall j | 0 <= j < i :: !Contains(cases[j], p)
    {
      if Contains(cases[i], p) {
        return Some(cases[i].expr);
      }
    }
    return None;
  }

  // Projection onto a finite set

  predicate Sorted(s: seq<real>) {
    forall i, j | 0 <= i <= j < |s| :: s[i] <= s[j]
  }

  function InsertInto(s: seq<real>, x: real): (r: seq<real>) {
    if s == [] then [x]
    else if x <= s[0] then [x] + s
    else [s[0]] + InsertInto(s[1..], x)
  }

  lemma {:induction false} InsertIntoSorted(s: seq<real>, x: real)
    requires Sorted(s)
    ensures Sorted(InsertInto(s, x)) && InsertInto(s, x) != []
    ensures InsertInto(s, x)[0] == x || (s != [] && InsertInto(s, x)[0] == s[0])
  {
    if s != [] {
      if x > s[0] {
        SortedTail(s);
        InsertIntoSorted(s[1..], x);
        SortedCons(s[0], InsertInto(s[1..], x));
      } else {
        SortedCons(x, s);
      }
    }
  }

  lemma {:induction false} InsertIntoAdds(s: seq<real>, x: real)
    ensures multiset(InsertInto(s, x)) == multiset(s) + multiset{x}
  {
    if s != [] {
      assert s == [s[0]] + s[1..];
      if x > s[0] {
        InsertIntoAdds(s[1..], x);
      }
    }
  }

  lemma SortedTail(s: seq<real>)
    requires Sorted(s) && s != []
    ensures Sorted(s[1..]) && (s[1..] != [] ==> s[0] <= s[1..][0])
  {
    forall i, j | 0 <= i <= j < |s[1..]| ensures s[1..][i] <= s[1..][j] {
      assert s[i + 1] <= s[j + 1];
    }
    if s[1..] != [] {
      assert s[0] <= s[1];
    }
  }

  lemma SortedCons(x: real, s: seq<real>)
    requires Sorted(s) && (s == [] || x <= s[0])
    ensures Sorted([x] + s)
  {
    var r := [x] + s;
    forall i, j | 0 <= i <= j < |r| ensures r[i] <= r[j] {
      if i > 0 {
        assert r[i] == s[i - 1] && r[j] == s[j - 1];
      } else if j > 0 {
        assert s[0] <= s[j - 1] && r[j] == s[j - 1];
      }
    }
  }

  /** std::sort, up to the choice of the algorithm. */
  method Sort(s: seq<real>) returns (r: seq<real>)
    ensures Sorted(r) && multiset(r) == multiset(s)
  {
    r := [];
    for i := 0 to |s|
      invariant Sorted(r) && multiset(r) == multiset(s[..i])
    {
      assert s[..i + 1] == s[..i] + [s[i]];
      InsertIntoSorted(r, s[i]);
      InsertIntoAdds(r, s[i]);
      r := InsertInto(r, s[i]);
    }
    assert s[..|s|] == s;
  }

  /** The i-th case ends half way to the next point, shifted by the error; the last does not end. */
  ghost predicate AreProjCases(points: seq<real>, error: real, cases: seq<Case>) {
    |cases| == |points| && forall i | 0 <= i < |cases| :: IsProjCase(points, error, i, cases[i])
  }

  ghost predicate IsProjCase(points: seq<real>, error: real, i: nat, c: Case)
    requires i < |points|
  {
    && c.boundA == NegInf && c.expr == Constant(points[i])
    && c.boundB == if i < |points| - 1 then Finite((points[i] + points[i + 1]) / 2.0 + error) else PosInf
  }

  /** ProjBelief::makeBelief; the vector of points is left sorted. */
  method MakeProjBelief(points: seq<real>, error: real) returns (sorted: seq<real>, cases: Option<seq<Case>>)
    ensures Sorted(sorted) && multiset(sorted) == multiset(points)
    ensures cases.None? <==> points == []
    ensures cases.Some? ==> AreProjCases(sorted, error, cases.value)
  {
    sorted := Sort(points);
    var sz := |sorted|;
    assert |multiset(sorted)| == sz && |multiset(points)| == |points|;
    if sz == 0 {
      return sorted, None;
    }
    var items: seq<Case> := [];
    for i := 0 to sz - 1
      invariant |items| == i
      invariant forall k | 0 <= k < i :: IsProjCase(sorted, error, k, items[k])
    {
      var boundary := (sorted[i] + sorted[i + 1]) / 2.0;
      items := items + [Case(NegInf, Finite(boundary + error), Constant(sorted[i]))];
    }
    items := items + [Case(NegInf, PosInf, Constant(sorted[sz - 1]))];
    return sorted, Some(items);
  }

  function Distance(a: real, b: real): real {
    if a < b then b - a else a - b
  }

  /** From the k-th case on: the first case that contains p, when p lies beyond those before. */
  lemma {:induction false} ProjFrom(points: seq<real>, error: real, cases: seq<Case>, p: real, k: nat) returns (i: nat)
    requires Sorted(points) && AreProjCases(points, error, cases) && k < |points|
    requires forall j | 0 <= j < k :: p - error > (points[j] + points[j + 1]) / 2.0
    ensures i < |points| && FirstCase(cases[k..], p) == Some(Constant(points[i]))
    ensures i < |points| - 1 ==> p - error <= (points[i] + points[i + 1]) / 2.0
    ensures forall j | 0 <= j < i :: p - error > (points[j] + points[j + 1]) / 2.0
    decreases |points| - k
  {
    assert cases[k..][0] == cases[k] && cases[k..][1..] == cases[k + 1..];
    assert IsProjCase(points, error, k, cases[k]);
    if Contains(cases[k], p) {
      i := k;
    } else {
      i := ProjFrom(points, error, cases, p, k + 1);
    }
  }

  /** Every power is taken to a point of the set that is nearest to it, less the error. */
  lemma ProjBeliefNearest(points: seq<real>, error: real, cases: seq<Case>, p: real) returns (v: real)
    requires Sorted(points) && points != [] && AreProjCases(points, error, cases)
    ensures FirstCase(cases, p) == Some(Constant(v)) && v in points
    ensures forall x | x in points :: Distance(v, p - error) <= Distance(x, p - error)
  {
    assert cases[0..] == cases;
    var i := ProjFrom(points, error, cases, p, 0);
    v := points[i];
    forall x | x in points ensures Distance(v, p - error) <= Distance(x, p - error) {
      var j :| 0 <= j < |points| && points[j] == x;
      if j < i {
        assert points[j] <= points[i - 1] <= points[i];
        assert p - error > (points[i - 1] + points[i]) / 2.0;
      } else if j > i {
        assert points[i] <= points[i + 1] <= points[j];
      }
    }
  }

  // Rounding to a grid

  function Truncate(x: real): int {
    if x >= 0.0 then x.Floor else -(-x).Floor
  }

  /** fmod of the C library: what is left of x after whole steps towards zero. */
  function Fmod(x: real, y: real): real
    requires y != 0.0
  {
    x - y * (Truncate(x / y) as real)
  }

  /** What is left has the sign of x and is less than a step. */
  lemma FmodIsRest(x: real, y: real)
    requires y != 0.0
    ensures Vectors.Abs(Fmod(x, y)) < Vectors.Abs(y)
    ensures (x >= 0.0 ==> Fmod(x, y) >= 0.0) && (x <= 0.0 ==> Fmod(x, y) <= 0.0)
  {
    var q := x / y;
    var r := q - Truncate(q) as real;
    TruncateIs(q);
    assert x == y * q && Fmod(x, y) == y * r;
    SignedShare(x, y, q, r, y * r);
  }

  lemma TruncateIs(q: real)
    ensures var r := q - Truncate(q) as real;
      if q >= 0.0 then 0.0 <= r < 1.0 && (q == 0.0 ==> r == 0.0) else -1.0 < r <= 0.0
  {
  }

  lemma SignedShare(x: real, y: real, q: real, r: real, t: real)
    requires y != 0.0 && x == y * q && t == y * r && (q == 0.0 ==> r == 0.0)
    requires if q >= 0.0 then 0.0 <= r < 1.0 else -1.0 < r <= 0.0
    ensures Vectors.Abs(t) < Vectors.Abs(y) && (x >= 0.0 ==> t >= 0.0) && (x <= 0.0 ==> t <= 0.0)
  {
    var a, u := Vectors.Abs(y), Vectors.Abs(r);
    ProductPositive(a, 1.0 - u, a * (1.0 - u));
    NonNegativeProduct(a, u, a * u);
    assert t == a * u || t == -(a * u);
    if q != 0.0 {
      ProductPositive(a, Vectors.Abs(q), a * Vectors.Abs(q));
    }
  }

  /** The power less the error, rounded to the grid. */
  function RoundTerm(step: real, error: real, corr: real): Term {
    Combine(Plus, Combine(Times, Constant(step), Call(Round, StepsFrom(step, error, corr))), Constant(corr))
  }

  function StepsFrom(step: real, error: real, corr: real): Term {
    Combine(Over, Combine(Minus, Combine(Minus, Var("P"), Constant(error)), Constant(corr)), Constant(step))
  }

  function RoundValue(step: real, error: real, corr: real, p: real): real
    requires step != 0.0
  {
    step * (RoundHalfAway((p - error - corr) / step) as real) + corr
  }

  lemma RoundTermMeaning(lib: Library, step: real, error: real, corr: real, p: real)
    requires step != 0.0
    ensures Closed(RoundTerm(step, error, corr))
    ensures ValueOf(lib, RoundTerm(step, error, corr), p) == RoundValue(step, error, corr, p)
  {
    LeafValues(lib, step, p);
    LeafValues(lib, error, p);
    LeafValues(lib, corr, p);
    var inner := Combine(Minus, Var("P"), Constant(error));
    CombineValue(lib, Minus, Var("P"), Constant(error), p);
    CombineValue(lib, Minus, inner, Constant(corr), p);
    CombineValue(lib, Over, Combine(Minus, inner, Constant(corr)), Constant(step), p);
    var q := StepsFrom(step, error, corr);
    assert Closed(Call(Round, q)) && ValueOf(lib, Call(Round, q), p) == RoundHalfAway(ValueOf(lib, q, p)) as real;
    CombineValue(lib, Times, Constant(step), Call(Round, q), p);
    CombineValue(lib, Plus, Combine(Times, Constant(step), Call(Round, q)), Constant(corr), p);
  }

  lemma LeafValues(lib: Library, x: real, p: real)
    ensures Closed(Constant(x)) && ValueOf(lib, Constant(x), p) == x
    ensures Closed(Var("P")) && ValueOf(lib, Var("P"), p) == p
  {
  }

  lemma CombineValue(lib: Library, op: Operator, a: Term, b: Term, p: real)
    requires Closed(a) && Closed(b)
    ensures Closed(Combine(op, a, b))
    ensures ValueOf(lib, Combine(op, a, b), p) == Apply(lib, op, ValueOf(lib, a, p), ValueOf(lib, b, p))
  {
  }

  /** RoundBelief::makeBelief */
  method MakeRoundBelief(step: real, error: real, pMin: real, pMax: real) returns (cases: seq<Case>)
    requires step != 0.0
    ensures cases == RoundCases(step, error, pMin, pMax)
    ensures forall p: real :: FirstCase(cases, p) == Some(SelectedTerm(step, error, pMin, pMax, p))
  {
    var corr := Fmod(pMin, step);
    cases := [];
    cases := cases + [Case(NegInf, Finite(pMin + error), Constant(pMin))];
    cases := cases + [Case(Finite(pMax + error), PosInf, Constant(pMax))];
    cases := cases + [Case(NegInf, PosInf, RoundTerm(step, error, corr))];
    forall p: real ensures FirstCase(cases, p) == Some(SelectedTerm(step, error, pMin, pMax, p)) {
      RoundSelection(step, error, pMin, pMax, p);
    }
  }

  function SelectedTerm(step: real, error: real, pMin: real, pMax: real, p: real): Term
    requires step != 0.0
  {
    if p <= pMin + error then Constant(pMin) else if p >= pMax + error then Constant(pMax)
    else RoundTerm(step, error, Fmod(pMin, step))
  }

  /** The cases overlap; the first that contains p decides. */
  lemma RoundSelection(step: real, error: real, pMin: real, pMax: real, p: real)
    requires step != 0.0
    ensures FirstCase(RoundCases(step, error, pMin, pMax), p) == Some(SelectedTerm(step, error, pMin, pMax, p))
  {
    var cases := RoundCases(step, error, pMin, pMax);
    assert cases[1..][1..] == [cases[2]] && cases[1..][0] == cases[1];
    assert FirstCase([cases[2]], p) == Some(cases[2].expr);
    assert FirstCase(cases[1..], p) == if p >= pMax + error then Some(Constant(pMax)) else Some(cases[2].expr);
  }

  function RoundCases(step: real, error: real, pMin: real, pMax: real): seq<Case>
    requires step != 0.0
  {
    [Case(NegInf, Finite(pMin + error), Constant(pMin)), Case(Finite(pMax + error), PosInf, Constant(pMax)),
     Case(NegInf, PosInf, RoundTerm(step, error, Fmod(pMin, step)))]
  }

  /** What the interpreter makes of these cases. */
  ghost function Rounded(lib: Library, step: real, error: real, pMin: real, pMax: real, p: real): (v: real)
    requires step != 0.0
    ensures p <= pMin + error ==> v == pMin
    ensures p > pMin + error && p >= pMax + error ==> v == pMax
    ensures pMin + error < p < pMax + error ==> v == RoundValue(step, error, Fmod(pMin, step), p)
  {
    RoundTermMeaning(lib, step, error, Fmod(pMin, step), p);
    RoundSelection(step, error, pMin, pMax, p);
    assert Closed(Constant(pMin)) && Closed(Constant(pMax));
    ValueOf(lib, FirstCase(RoundCases(step, error, pMin, pMax), p).value, p)
  }

  lemma RoundNear(x: real)
    ensures -0.5 <= RoundHalfAway(x) as real - x <= 0.5
  {
  }

  lemma RoundMonotone(x: real, y: real)
    requires x <= y
    ensures RoundHalfAway(x) <= RoundHalfAway(y)
  {
    if x < 0.0 <= y {
      assert (0.5 - x).Floor >= 0 && (y + 0.5).Floor >= 0;
    }
  }

  lemma RoundInteger(k: int)
    ensures RoundHalfAway(k as real) == k
  {
    if k >= 0 {
      assert (k as real + 0.5).Floor == k;
    } else {
      assert (0.5 - k as real).Floor == -k;
    }
  }

  // Powers in units of the step, counted from corr

  ghost predicate At(step: real, corr: real, y: real, v: real) {
    v == corr + step * y
  }

  lemma InSteps(step: real, corr: real, v: real) returns (y: real)
    requires step > 0.0
    ensures y == (v - corr) / step && At(step, corr, y, v)
  {
    y := (v - corr) / step;
    assert y * step == v - corr;
  }

  lemma Order(step: real, corr: real, a: real, va: real, b: real, vb: real)
    requires step > 0.0 && At(step, corr, a, va) && At(step, corr, b, vb)
    ensures (a < b <==> va < vb) && (a <= b <==> va <= vb)
  {
    var d := b - a;
    assert vb - va == step * d;
    if d > 0.0 {
      ProductPositive(step, d, vb - va);
    } else if d < 0.0 {
      ProductPositive(step, -d, va - vb);
    }
  }

  /** The grid of the rounding goes through pMin, which is its t-th point. */
  lemma GridOrigin(step: real, pMin: real) returns (t: int)
    requires step > 0.0
    ensures At(step, Fmod(pMin, step), t as real, pMin)
  {
    t := Truncate(pMin / step);
  }

  lemma RoundedAt(step: real, error: real, corr: real, p: real, y: real) returns (r: int)
    requires step > 0.0 && y == (p - error - corr) / step
    ensures r == RoundHalfAway(y) && At(step, corr, r as real, RoundValue(step, error, corr, p))
  {
    r := RoundHalfAway(y);
  }

  ghost predicate OnGrid(step: real, pMin: real, k: int, v: real) {
    v == pMin + step * (k as real)
  }

  lemma GridIsAt(step: real, corr: real, t: int, pMin: real, k: int, m: int, v: real)
    requires At(step, corr, t as real, pMin) && m == t + k
    ensures OnGrid(step, pMin, k, v) <==> At(step, corr, m as real, v)
  {
  }

  /** When the range is a whole number n of steps, every power is taken to one of the n + 1 setpoints, and this
      is at most half a step away from it. */
  lemma RoundBeliefNearest(lib: Library, step: real, error: real, pMin: real, pMax: real, n: nat, p: real)
    returns (v: real, k: int)
    requires step > 0.0 && OnGrid(step, pMin, n, pMax)
    ensures v == Rounded(lib, step, error, pMin, pMax, p)
    ensures 0 <= k <= n && OnGrid(step, pMin, k, v) && pMin <= v <= pMax
    ensures Distance(v, ProjInterval(p - error, pMin, pMax)) <= step / 2.0
  {
    v := Rounded(lib, step, error, pMin, pMax, p);
    var corr := Fmod(pMin, step);
    var t := GridOrigin(step, pMin);
    var m := t + n;
    GridIsAt(step, corr, t, pMin, n, m, pMax);
    Order(step, corr, t as real, pMin, m as real, pMax);
    if p <= pMin + error {
      k := 0;
    } else if p >= pMax + error {
      k := n;
    } else {
      var r := RoundedBetween(step, error, corr, t, m, pMin, pMax, p);
      k := r - t;
      GridIsAt(step, corr, t, pMin, k, r, v);
    }
  }

  /** Strictly between the t-th and the m-th point. */
  lemma RoundedBetween(step: real, error: real, corr: real, t: int, m: int, pMin: real, pMax: real, p: real)
    returns (r: int)
    requires step > 0.0 && At(step, corr, t as real, pMin) && At(step, corr, m as real, pMax)
    requires pMin + error < p < pMax + error
    ensures t <= r <= m && At(step, corr, r as real, RoundValue(step, error, corr, p))
    ensures pMin <= RoundValue(step, error, corr, p) <= pMax
    ensures Distance(RoundValue(step, error, corr, p), p - error) <= step / 2.0
  {
    var y := InSteps(step, corr, p - error);
    r := RoundedAt(step, error, corr, p, y);
    var v := RoundValue(step, error, corr, p);
    Order(step, corr, t as real, pMin, y, p - error);
    Order(step, corr, y, p - error, m as real, pMax);
    RoundInteger(t);
    RoundInteger(m);
    RoundMonotone(t as real, y);
    RoundMonotone(y, m as real);
    RoundNear(y);
    Order(step, corr, t as real, pMin, r as real, v);
    Order(step, corr, r as real, v, m as real, pMax);
    HalfStep(step, corr, r as real, v, y, p - error);
  }

  lemma HalfStep(step: real, corr: real, r: real, v: real, y: real, x: real)
    requires step > 0.0 && At(step, corr, r, v) && At(step, corr, y, x) && -0.5 <= r - y <= 0.5
    ensures -(step / 2.0) <= v - x <= step / 2.0
  {
    var d := r - y;
    assert v - x == step * d;
    NonNegativeProduct(step, d + 0.5, step * (d + 0.5));
    NonNegativeProduct(step, 0.5 - d, step * (0.5 - d));
  }

  /** And a greater power is never taken to a smaller setpoint. */
  lemma RoundBeliefMonotone(lib: Library, step: real, error: real, pMin: real, pMax: real, n: nat, p: real, p': real)
    requires step > 0.0 && OnGrid(step, pMin, n, pMax) && p <= p'
    ensures Rounded(lib, step, error, pMin, pMax, p) <= Rounded(lib, step, error, pMin, pMax, p')
  {
    var v, k := RoundBeliefNearest(lib, step, error, pMin, pMax, n, p);
    var v', k' := RoundBeliefNearest(lib, step, error, pMin, pMax, n, p');
    if pMin + error < p && p' < pMax + error {
      RoundValueMonotone(step, error, Fmod(pMin, step), p, p');
    }
  }

  lemma RoundValueMonotone(step: real, error: real, corr: real, p: real, p': real)
    requires step > 0.0 && p <= p'
    ensures RoundValue(step, error, corr, p) <= RoundValue(step, error, corr, p')
  {
    var y := InSteps(step, corr, p - error);
    var y' := InSteps(step, corr, p' - error);
    Order(step, corr, y, p - error, y', p' - error);
    RoundMonotone(y, y');
    var r := RoundedAt(step, error, corr, p, y);
    var r' := RoundedAt(step, error, corr, p', y');
    Order(step, corr, r as real, RoundValue(step, error, corr, p), r' as real, RoundValue(step, error, corr, p'));
  }

  // When the range is not a whole number of steps

  lemma RoundBelow(y: real, m: int)
    requires y < m as real + 0.5
    ensures RoundHalfAway(y) <= m
  {
    if y >= 0.0 {
      assert (y + 0.5).Floor as real <= y + 0.5;
    } else {
      assert (0.5 - y).Floor as real > -0.5 - y;
    }
  }

  lemma RoundAbove(y: real, m: int)
    requires y > m as real + 0.5
    ensures RoundHalfAway(y) >= m + 1
  {
    if y >= 0.0 {
      assert (y + 0.5).Floor as real > y - 0.5;
    } else {
      assert (0.5 - y).Floor as real <= 0.5 - y;
    }
  }

  ghost predicate StaysInRange(lib: Library, step: real, error: real, pMin: real, pMax: real)
    requires step != 0.0
  {
    forall p: real :: pMin <= Rounded(lib, step, error, pMin, pMax, p) <= pMax
  }

  /** With n whole steps and the fraction f of another between pMin and pMax, the rounded value stays in the range
      exactly when f <= 1/2. Otherwise powers close to pMax are rounded past it. */
  lemma RoundBeliefRange(lib: Library, step: real, error: real, pMin: real, pMax: real, n: nat, f: real)
    requires step > 0.0 && 0.0 <= f < 1.0 && At(step, pMin, n as real + f, pMax)
    ensures StaysInRange(lib, step, error, pMin, pMax) <==> f <= 0.5
  {
    var corr := Fmod(pMin, step);
    var t := GridOrigin(step, pMin);
    var m := t + n;
    var u := m as real + f;
    FromOrigin(step, corr, t as real, n as real + f, u, pMin, pMax);
    if f <= 0.5 {
      RangeKept(lib, step, error, corr, t, m, u, pMin, pMax);
    } else {
      RangeLeft(lib, step, error, corr, t, m, u, m as real + (0.5 + f) / 2.0, pMin, pMax);
    }
  }

  /** Between 0 and 3/4, with steps of 1, the power 0.7 is taken to 1. */
  lemma RoundedPastRange(lib: Library)
    ensures Rounded(lib, 1.0, 0.0, 0.0, 0.75, 0.7) == 1.0
  {
    assert Fmod(0.0, 1.0) == 0.0;
    assert RoundValue(1.0, 0.0, 0.0, 0.7) == 1.0 * (RoundHalfAway(0.7) as real) + 0.0;
  }

  lemma FromOrigin(step: real, corr: real, t: real, d: real, u: real, pMin: real, pMax: real)
    requires At(step, corr, t, pMin) && At(step, pMin, d, pMax) && u == t + d
    ensures At(step, corr, u, pMax)
  {
  }

  lemma RangeKept(lib: Library, step: real, error: real, corr: real, t: int, m: int, u: real, pMin: real, pMax: real)
    requires step > 0.0 && corr == Fmod(pMin, step) && At(step, corr, t as real, pMin) && At(step, corr, u, pMax)
    requires t <= m && m as real <= u <= m as real + 0.5
    ensures StaysInRange(lib, step, error, pMin, pMax)
  {
    Order(step, corr, t as real, pMin, u, pMax);
    forall p: real ensures pMin <= Rounded(lib, step, error, pMin, pMax, p) <= pMax {
      if pMin + error < p < pMax + error {
        StaysBelow(step, error, corr, t, m, u, pMin, pMax, p);
      }
    }
  }

  /** Up to half a step beyond the m-th point of the grid, nothing is rounded past it. */
  lemma StaysBelow(step: real, error: real, corr: real, t: int, m: int, u: real, pMin: real, pMax: real, p: real)
    requires step > 0.0 && At(step, corr, t as real, pMin) && At(step, corr, u, pMax)
    requires m as real <= u <= m as real + 0.5 && pMin + error < p < pMax + error
    ensures pMin <= RoundValue(step, error, corr, p) <= pMax
  {
    var y := InSteps(step, corr, p - error);
    var r := RoundedAt(step, error, corr, p, y);
    var v := RoundValue(step, error, corr, p);
    Order(step, corr, t as real, pMin, y, p - error);
    Order(step, corr, y, p - error, u, pMax);
    RoundBelow(y, m);
    RoundInteger(t);
    RoundMonotone(t as real, y);
    Order(step, corr, t as real, pMin, r as real, v);
    Order(step, corr, r as real, v, u, pMax);
  }

  lemma RangeLeft(lib: Library, step: real, error: real, corr: real, t: int, m: int, u: real, g: real,
                  pMin: real, pMax: real)
    requires step > 0.0 && corr == Fmod(pMin, step) && At(step, corr, t as real, pMin) && At(step, corr, u, pMax)
    requires t <= m && m as real + 0.5 < g < u < m as real + 1.0
    ensures !StaysInRange(lib, step, error, pMin, pMax)
  {
    var x := corr + step * g;
    Order(step, corr, t as real, pMin, g, x);
    Order(step, corr, g, x, u, pMax);
    var p := x + error;
    var y := InSteps(step, corr, p - error);
    Order(step, corr, y, p - error, g, x);
    RoundAbove(y, m);
    var r := RoundedAt(step, error, corr, p, y);
    Order(step, corr, u, pMax, r as real, RoundValue(step, error, corr, p));
    assert Rounded(lib, step, error, pMin, pMax, p) > pMax;
  }
}
