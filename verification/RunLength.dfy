/** visualization_server.cpp, runlengthCompress, and viz-user.py, uncompress: the two ends of a run-length code
    for matrices in which zeros and not-a-number are frequent. */
module RunLength {
  import opened Wrappers
  import Expressions

  /** A floating point number, or not-a-number. */
  datatype Datum = NaN | Number(x: real)

  /** An element of the JSON array. */
  datatype Item = Double(x: real) | Count(n: nat)

  const EPSILON: real := 1.0 / 4503599627370496.0

  /** Not-a-number is sent as -1, and -1 as a number close to it. */
  function Clean(d: Datum): real {
    match d
    case NaN => -1.0
    case Number(x) => if x == -1.0 then x + EPSILON else x
  }

  function CleanAll(m: seq<Datum>): (s: seq<real>)
    ensures |s| == |m|
  {
    seq(|m|, i requires 0 <= i < |m| => Clean(m[i]))
  }

  /** The number of elements equal to v at the beginning. */
  function Leading(v: real, s: seq<real>): (n: nat)
    ensures n <= |s|
    ensures forall i | 0 <= i < n :: s[i] == v
    ensures n < |s| ==> s[n] != v
  {
    if s != [] && s[0] == v then 1 + Leading(v, s[1..]) else 0
  }

  /** A run of a value to be compressed becomes the value and the length of the run. */
  function Encode(s: seq<real>, compress: set<real>): seq<Item>
    decreases |s|
  {
    if s == [] then []
    else if s[0] in compress then
      var k := Leading(s[0], s);
      [Double(s[0]), Count(k)] + Encode(s[k..], compress)
    else [Double(s[0])] + Encode(s[1..], compress)
  }

  /** What is still to be written when n times v have been read and s is left. */
  function Rest(n: nat, v: real, s: seq<real>, compress: set<real>): seq<Item> {
    if n == 0 then Encode(s, compress)
    else
      var k := Leading(v, s);
      var total := n + k;
      Run(v, total) + Encode(s[k..], compress)
  }

  function Run(v: real, n: nat): seq<Item> {
    [Double(v), Count(n)]
  }

  /** The goal is what has been written and what is still to be written. */
  ghost predicate Progress(goal: seq<Item>, result: seq<Item>, n: int, v: real, s: seq<real>, compress: set<real>) {
    n >= 0 && goal == result + Rest(n, v, s, compress)
  }

  /** The replacement at the head of the loop. */
  method Replaced(datum: Datum) returns (x: real)
    ensures x == Clean(datum)
  {
    match datum {
      case Number(y) =>
        x := y;
        if x == -1.0 {
          x := x + EPSILON;
        }
      case NaN =>
        x := -1.0;
    }
  }

  /** runlengthCompress. At the end of a run the index is taken back, and the element is read again. */
  method RunlengthCompress(data: seq<Datum>, compressVals: set<real>) returns (result: seq<Item>)
    ensures result == Encode(CleanAll(data), compressVals)
  {
    result := [];
    ghost var clean, goal := CleanAll(data), Encode(CleanAll(data), compressVals);
    var totalDim := |data|;
    var i, count: int := 0, 0;
    var activeVal: real := *;
    assert clean[0..] == clean;
    while i < totalDim
      invariant 0 <= i <= totalDim
      invariant Progress(goal, result, count, activeVal, clean[i..], compressVals)
      decreases 2 * (totalDim - i) + if count > 0 then 1 else 0
    {
      ghost var s := clean[i..];
      var datum := Replaced(data[i]);
      i := i + 1;
      assert s[0] == datum && s[1..] == clean[i..];
      if count > 0 {
        if datum == activeVal {
          SameRun(goal, result, count, count + 1, activeVal, s, compressVals);
          count := count + 1;
        } else {
          EndRun(goal, result, count, activeVal, s, compressVals);
          result := result + [Double(activeVal)];
          result := result + [Count(count)];
          i := i - 1;
          count := 0;
        }
      } else if datum in compressVals {
        NewRun(goal, result, activeVal, datum, s, compressVals);
        activeVal := datum;
        count := 1;
      } else {
        NoRun(goal, result, activeVal, s, compressVals);
        result := result + [Double(datum)];
      }
    }
    assert clean[i..] == [];
    if count > 0 {
      Finish(goal, result, count, activeVal, compressVals);
      result := result + [Double(activeVal)];
      result := result + [Count(count)];
    }
  }

  lemma SameRun(goal: seq<Item>, result: seq<Item>, n: int, n': int, v: real, s: seq<real>, compress: set<real>)
    requires Progress(goal, result, n, v, s, compress) && n > 0 && n' == n + 1 && s != [] && s[0] == v
    ensures Progress(goal, result, n', v, s[1..], compress)
  {
    RestSame(n, n', v, s, s[1..], compress);
  }

  lemma RestSame(n: nat, n': nat, v: real, s: seq<real>, tail: seq<real>, compress: set<real>)
    requires n > 0 && n' == n + 1 && s != [] && s[0] == v && tail == s[1..]
    ensures Rest(n, v, s, compress) == Rest(n', v, tail, compress)
  {
    var k, k' := Leading(v, tail), Leading(v, s);
    assert k' == 1 + k;
    SkipRun(s, tail, k, k');
  }

  lemma SkipRun(s: seq<real>, tail: seq<real>, k: nat, k': nat)
    requires s != [] && tail == s[1..] && k' == k + 1 && k <= |tail|
    ensures s[k'..] == tail[k..]
  {
  }

  lemma EndRun(goal: seq<Item>, result: seq<Item>, n: int, v: real, s: seq<real>, compress: set<real>)
    requires Progress(goal, result, n, v, s, compress) && n > 0 && s != [] && s[0] != v
    ensures Progress(goal, result + [Double(v)] + [Count(n)], 0, v, s, compress)
  {
    assert Leading(v, s) == 0 && s[0..] == s;
    assert Rest(n, v, s, compress) == Run(v, n) + Encode(s, compress);
    assert Run(v, n) == [Double(v)] + [Count(n)];
    assert result + (Run(v, n) + Encode(s, compress)) == result + [Double(v)] + [Count(n)] + Encode(s, compress);
  }

  lemma NewRun(goal: seq<Item>, result: seq<Item>, v0: real, v: real, s: seq<real>, compress: set<real>)
    requires Progress(goal, result, 0, v0, s, compress) && s != [] && s[0] == v && v in compress
    ensures Progress(goal, result, 1, v, s[1..], compress)
  {
    var k := Leading(v, s[1..]);
    assert s[1..][k..] == s[1 + k..];
  }

  lemma NoRun(goal: seq<Item>, result: seq<Item>, v: real, s: seq<real>, compress: set<real>)
    requires Progress(goal, result, 0, v, s, compress) && s != [] && s[0] !in compress
    ensures Progress(goal, result + [Double(s[0])], 0, v, s[1..], compress)
  {
  }

  lemma Finish(goal: seq<Item>, result: seq<Item>, n: int, v: real, compress: set<real>)
    requires Progress(goal, result, n, v, [], compress) && n > 0
    ensures goal == result + [Double(v)] + [Count(n)]
  {
    var none: seq<real> := [];
    assert Leading(v, none) == 0 && none[0..] == none && Encode(none, compress) == [];
    var run := Run(v, n);
    assert Rest(n, v, none, compress) == run + [] == run;
    assert run == [Double(v)] + [Count(n)];
    assert result + run == result + [Double(v)] + [Count(n)];
  }

  // The other end

  function NumberOf(item: Item): real {
    match item
    case Double(x) => x
    case Count(n) => n as real
  }

  function Repeat(d: Datum, n: nat): (r: seq<Datum>)
    ensures |r| == n && forall i | 0 <= i < n :: r[i] == d
  {
    if n == 0 then [] else [d] + Repeat(d, n - 1)
  }

  /** None stands for the exceptions of the Python routine: no element after a value to be repeated, or one that
      is not an integer. */
  function Decode(data: seq<Item>): Option<seq<Datum>> {
    if data == [] then Some([])
    else
      var x := NumberOf(data[0]);
      if x != -1.0 && x != 0.0 then Prepend([Number(x)], Decode(data[1..]))
      else if |data| == 1 || data[1].Double? then None
      else Prepend(Repeat(if x == -1.0 then NaN else Number(x), data[1].n), Decode(data[2..]))
  }

  function Prepend(front: seq<Datum>, rest: Option<seq<Datum>>): Option<seq<Datum>> {
    match rest
    case Some(m) => Some(front + m)
    case None => None
  }

  lemma PrependNothing(rest: Option<seq<Datum>>)
    ensures Prepend([], rest) == rest
  {
    if rest.Some? {
      assert [] + rest.value == rest.value;
    }
  }

  lemma PrependTwice(a: seq<Datum>, b: seq<Datum>, rest: Option<seq<Datum>>)
    ensures Prepend(a, Prepend(b, rest)) == Prepend(a + b, rest)
  {
    if rest.Some? {
      assert a + (b + rest.value) == (a + b) + rest.value;
    }
  }

  /** uncompress */
  method Uncompress(data: seq<Item>) returns (r: Option<seq<Datum>>)
    ensures r == Decode(data)
  {
    var output: seq<Datum> := [];
    var i := 0;
    assert data[0..] == data;
    PrependNothing(Decode(data));
    while i < |data|
      invariant 0 <= i <= |data|
      invariant Decode(data) == Prepend(output, Decode(data[i..]))
    {
      ghost var s := data[i..];
      assert s[1..] == data[i + 1..];
      var x := NumberOf(data[i]);
      if x != -1.0 && x != 0.0 {
        PrependTwice(output, [Number(x)], Decode(s[1..]));
        output := output + [Number(x)];
      } else {
        var val := if x == -1.0 then NaN else Number(x);
        if i + 1 >= |data| || data[i + 1].Double? {
          return None;
        }
        assert s[2..] == data[i + 2..];
        PrependTwice(output, Repeat(val, data[i + 1].n), Decode(s[2..]));
        output := output + Repeat(val, data[i + 1].n);
        i := i + 1;
      }
      i := i + 1;
    }
    assert data[i..] == [] && output + [] == output;
    r := Some(output);
  }

  // Round trip

  const COMPRESSED: set<real> := {0.0, -1.0}

  /** What arrives for an element. */
  function Received(d: Datum): Datum {
    if d == Number(-1.0) then Number(-1.0 + EPSILON) else d
  }

  function Decoded(x: real): Datum {
    if x == -1.0 then NaN else Number(x)
  }

  function DecodedAll(s: seq<real>): (m: seq<Datum>)
    ensures |m| == |s|
  {
    seq(|s|, i requires 0 <= i < |s| => Decoded(s[i]))
  }

  lemma RunDecoded(s: seq<real>, k: nat)
    requires s != [] && k == Leading(s[0], s)
    ensures Repeat(Decoded(s[0]), k) + DecodedAll(s[k..]) == DecodedAll(s)
  {
    var l := Repeat(Decoded(s[0]), k) + DecodedAll(s[k..]);
    forall i | 0 <= i < |s| ensures l[i] == DecodedAll(s)[i] {
      if i >= k {
        assert l[i] == DecodedAll(s[k..])[i - k];
      }
    }
  }

  lemma {:induction false} DecodeEncode(s: seq<real>)
    ensures Decode(Encode(s, COMPRESSED)) == Some(DecodedAll(s))
    decreases |s|
  {
    if s != [] {
      var items := Encode(s, COMPRESSED);
      if s[0] in COMPRESSED {
        var k := Leading(s[0], s);
        DecodeEncode(s[k..]);
        assert items[2..] == Encode(s[k..], COMPRESSED);
        RunDecoded(s, k);
      } else {
        DecodeEncode(s[1..]);
        assert items[1..] == Encode(s[1..], COMPRESSED);
        assert [Number(s[0])] + DecodedAll(s[1..]) == DecodedAll(s);
      }
    }
  }

  /** Every matrix arrives as it was sent, but for -1. */
  lemma RoundTrip(m: seq<Datum>)
    ensures Decode(Encode(CleanAll(m), COMPRESSED)) ==
            Some(seq(|m|, i requires 0 <= i < |m| => Received(m[i])))
  {
    DecodeEncode(CleanAll(m));
    var r := DecodedAll(CleanAll(m));
    forall i | 0 <= i < |m| ensures r[i] == Received(m[i]) {
      assert Decoded(Clean(m[i])) == Received(m[i]);
    }
    assert r == seq(|m|, i requires 0 <= i < |m| => Received(m[i]));
  }

  lemma {:induction false} PowersOfTwo(m: nat, n: nat, a: real, b: real)
    requires a == Expressions.Power(2.0, m) && b == Expressions.Power(2.0, n)
    ensures Expressions.Power(2.0, m + n) == a * b
  {
    if m > 0 {
      PowersOfTwo(m - 1, n, a / 2.0, b);
    }
  }

  /** What is added is the distance of 1 from the next number in double precision. */
  lemma EpsilonIs()
    ensures EPSILON * Expressions.Power(2.0, 52) == 1.0
  {
    assert Expressions.Power(2.0, 4) == 2.0 * (2.0 * (2.0 * (2.0 * Expressions.Power(2.0, 0))));
    PowersOfTwo(4, 4, 16.0, 16.0);
    PowersOfTwo(8, 8, 256.0, 256.0);
    PowersOfTwo(16, 16, 65536.0, 65536.0);
    PowersOfTwo(16, 4, 65536.0, 16.0);
    PowersOfTwo(32, 20, 4294967296.0, 1048576.0);
  }

  /** Not-a-number arrives for not-a-number, and for a number one that differs by at most 2^-52, if at all. */
  ghost predicate Close(sent: Datum, received: Datum) {
    match sent
    case NaN => received.NaN?
    case Number(x) =>
      && received.Number? && (x != -1.0 ==> received.x == x)
      && 0.0 <= (received.x - x) * Expressions.Power(2.0, 52) <= 1.0
  }

  lemma AllClose(m: seq<Datum>) returns (r: seq<Datum>)
    ensures Decode(Encode(CleanAll(m), COMPRESSED)) == Some(r)
    ensures |r| == |m| && forall i | 0 <= i < |m| :: Close(m[i], r[i])
  {
    RoundTrip(m);
    EpsilonIs();
    r := seq(|m|, i requires 0 <= i < |m| => Received(m[i]));
    forall i | 0 <= i < |m| ensures Close(m[i], r[i]) {
      assert r[i] == Received(m[i]);
    }
  }

  /** Every value to be compressed is followed by the length of a run, which is at least one, and then by
      something else: no run could be longer. */
  ghost predicate Maximal(items: seq<Item>, compress: set<real>) {
    forall i | 0 <= i < |items| && items[i].Double? && items[i].x in compress ::
      && i + 1 < |items| && items[i + 1].Count? && items[i + 1].n > 0
      && (i + 2 < |items| ==> items[i + 2].Double? && items[i + 2].x != items[i].x)
  }

  lemma {:induction false} RunsMaximal(s: seq<real>, compress: set<real>)
    ensures Maximal(Encode(s, compress), compress)
    ensures s != [] ==> Encode(s, compress) != [] && Encode(s, compress)[0] == Double(s[0])
    decreases |s|
  {
    if s != [] {
      var items, n := Encode(s, compress), if s[0] in compress then Leading(s[0], s) else 1;
      var rest := Encode(s[n..], compress);
      var m := if s[0] in compress then 2 else 1;
      RunsMaximal(s[n..], compress);
      forall i | 0 <= i < |items| && items[i].Double? && items[i].x in compress
        ensures i + 1 < |items| && items[i + 1].Count? && items[i + 1].n > 0
        ensures i + 2 < |items| ==> items[i + 2].Double? && items[i + 2].x != items[i].x
      {
        if i >= m {
          assert items[i] == rest[i - m];
          assert i + 1 < |items| ==> items[i + 1] == rest[i + 1 - m];
          assert i + 2 < |items| ==> items[i + 2] == rest[i + 2 - m];
        }
      }
    }
  }
}
