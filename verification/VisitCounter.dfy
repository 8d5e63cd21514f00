/** adv-interpreter.hpp and adv-interpreter-eval.cpp: evaluating expressions and testing sets, which call one another.
    Visiting an expression fails once the visit counter has passed its maximum, visiting a set starts to count anew. So
    references can be followed in a circle for ever, among sets and through the cases of an expression. */
module VisitCounter {
  import opened Interpreter
  import opened Wrappers

  datatype Kind = OfExpression | OfSet

  /** A reference; that to a set is followed for a point. */
  datatype Name = Name(kind: Kind, id: string, point: seq<real>)

  /** The results of parts, in order; None for a part that was passed over. */
  type Results = seq<Option<real>>

  /** What evaluating an expression or testing a set consists of: following a reference, or one visit and then its
      parts in order. The results of earlier parts say whether the next is wanted, and those of all the result, or that
      there is none. The truth of a test is 1 or 0. */
  datatype Task =
    | Follow(name: Name)
    | Visit(kind: Kind, parts: seq<Task>, wanted: Results -> bool, finish: Results -> Option<real>)

  /** The collected names, and the result of testing the empty message that a set name without a set is looked up as. */
  datatype World = World(targets: map<Name, Task>, missing: Option<real>)

  /** The result and the counter after it, an exception, or more references would have to be followed. */
  datatype Answer = Done(value: real, depth: nat) | Raised | Pending

  // Running a task

  /** What happens to the counter at a visit. */
  function Counted(kind: Kind, depth: nat): Option<nat> {
    if depth + 1 <= MAX_NESTING_DEPTH then Some(depth + 1) else if kind.OfSet? then Some(0) else None
  }

  function Finished(r: Option<real>, depth: nat): Answer {
    if r.Some? then Done(r.value, depth) else Raised
  }

  /** An unknown expression is an error; the message without content is visited as a set. */
  function Unknown(w: World, kind: Kind, depth: nat): Answer {
    if kind.OfExpression? then Raised else Finished(w.missing, Counted(OfSet, depth).value)
  }

  /** The run of a task, as far as it comes when at most `fuel` references are followed inside one another. */
  function Run(w: World, t: Task, depth: nat, fuel: nat): Answer
    decreases fuel, t
  {
    var kind := if t.Follow? then t.name.kind else t.kind;
    var d := Counted(kind, depth);
    if d.None? then Raised
    else
      match t
      case Follow(n) =>
        if n !in w.targets then Unknown(w, n.kind, d.value)
        else if fuel == 0 then Pending
        else Run(w, w.targets[n], d.value, fuel - 1)
      case Visit(_, parts, wanted, finish) => RunParts(w, parts, wanted, finish, [], d.value, fuel)
  }

  function RunParts(w: World, parts: seq<Task>, wanted: Results -> bool, finish: Results -> Option<real>,
                    got: Results, depth: nat, fuel: nat): Answer
    decreases fuel, parts
  {
    if parts == [] then Finished(finish(got), depth)
    else if !wanted(got) then RunParts(w, parts[1..], wanted, finish, got + [None], depth, fuel)
    else
      var first := Run(w, parts[0], depth, fuel);
      if first.Done? then RunParts(w, parts[1..], wanted, finish, got + [Some(first.value)], first.depth, fuel)
      else first
  }

  /** Where nothing bears the name: for an expression an error, for a set the test of the empty message, which is
      visited like any other. */
  lemma UnknownName(w: World, n: Name, depth: nat, fuel: nat)
    requires n !in w.targets && depth + 2 <= MAX_NESTING_DEPTH
    ensures Run(w, Follow(n), depth, fuel) ==
            if n.kind.OfSet? && w.missing.Some? then Done(w.missing.value, depth + 2) else Raised
  {
  }

  ghost predicate NeverEnds(w: World, t: Task, depth: nat) {
    forall fuel: nat :: Run(w, t, depth, fuel).Pending?
  }

  /** The counter never stands above its maximum after a task has been done. */
  lemma {:induction false} CounterHarmless(w: World, t: Task, depth: nat, fuel: nat)
    ensures var a := Run(w, t, depth, fuel); a.Done? ==> a.depth <= MAX_NESTING_DEPTH
    decreases fuel, t
  {
    var kind := if t.Follow? then t.name.kind else t.kind;
    var d := Counted(kind, depth);
    if d.Some? {
      match t
      case Follow(n) =>
        if n in w.targets && fuel > 0 {
          CounterHarmless(w, w.targets[n], d.value, fuel - 1);
        }
      case Visit(_, parts, wanted, finish) => CounterHarmlessInParts(w, parts, wanted, finish, [], d.value, fuel);
    }
  }

  lemma {:induction false} CounterHarmlessInParts(w: World, parts: seq<Task>, wanted: Results -> bool,
                                                  finish: Results -> Option<real>, got: Results, depth: nat, fuel: nat)
    requires depth <= MAX_NESTING_DEPTH
    ensures var a := RunParts(w, parts, wanted, finish, got, depth, fuel); a.Done? ==> a.depth <= MAX_NESTING_DEPTH
    decreases fuel, parts
  {
    if parts != [] {
      if !wanted(got) {
        CounterHarmlessInParts(w, parts[1..], wanted, finish, got + [None], depth, fuel);
      } else {
        CounterHarmless(w, parts[0], depth, fuel);
        var first := Run(w, parts[0], depth, fuel);
        if first.Done? {
          CounterHarmlessInParts(w, parts[1..], wanted, finish, got + [Some(first.value)], first.depth, fuel);
        }
      }
    }
  }

  /** An answer does not depend on how many more references might have been followed. */
  lemma {:induction false} MoreFuel(w: World, t: Task, depth: nat, fuel: nat, more: nat)
    requires fuel <= more && !Run(w, t, depth, fuel).Pending?
    ensures Run(w, t, depth, more) == Run(w, t, depth, fuel)
    decreases fuel, t
  {
    var kind := if t.Follow? then t.name.kind else t.kind;
    var d := Counted(kind, depth);
    if d.Some? {
      match t
      case Follow(n) =>
        if n in w.targets {
          MoreFuel(w, w.targets[n], d.value, fuel - 1, more - 1);
        }
      case Visit(_, parts, wanted, finish) => MoreFuelForParts(w, parts, wanted, finish, [], d.value, fuel, more);
    }
  }

  lemma {:induction false} MoreFuelForParts(w: World, parts: seq<Task>, wanted: Results -> bool,
                                            finish: Results -> Option<real>, got: Results, depth: nat, fuel: nat,
                                            more: nat)
    requires fuel <= more && !RunParts(w, parts, wanted, finish, got, depth, fuel).Pending?
    ensures RunParts(w, parts, wanted, finish, got, depth, more) == RunParts(w, parts, wanted, finish, got, depth, fuel)
    decreases fuel, parts
  {
    if parts != [] {
      if !wanted(got) {
        MoreFuelForParts(w, parts[1..], wanted, finish, got + [None], depth, fuel, more);
      } else {
        MoreFuel(w, parts[0], depth, fuel, more);
        var first := Run(w, parts[0], depth, fuel);
        if first.Done? {
          MoreFuelForParts(w, parts[1..], wanted, finish, got + [Some(first.value)], first.depth, fuel, more);
        }
      }
    }
  }

  lemma SameAnswer(w: World, t: Task, depth: nat, fuel: nat, fuel': nat)
    requires !Run(w, t, depth, fuel).Pending? && !Run(w, t, depth, fuel').Pending?
    ensures Run(w, t, depth, fuel) == Run(w, t, depth, fuel')
  {
    if fuel <= fuel' {
      MoreFuel(w, t, depth, fuel, fuel');
    } else {
      MoreFuel(w, t, depth, fuel', fuel);
    }
  }

  // The names that are being evaluated

  /** A name whose target is being evaluated, with the counter as it was when that began. */
  datatype Entry = Entry(name: Name, depth: nat)

  ghost predicate EndsWith(w: World, t: Task, depth: nat, value: real, depth': nat) {
    exists fuel: nat :: Run(w, t, depth, fuel) == Done(value, depth')
  }

  /** The task itself follows the reference x, everything before it being done. */
  ghost predicate Follows(w: World, t: Task, depth: nat, x: Entry)
    decreases t
  {
    var kind := if t.Follow? then t.name.kind else t.kind;
    var d := Counted(kind, depth);
    && d.Some?
    && match t
       case Follow(n) => n in w.targets && x == Entry(n, d.value)
       case Visit(_, parts, wanted, _) => FollowsInParts(w, parts, wanted, [], d.value, x)
  }

  ghost predicate FollowsInParts(w: World, parts: seq<Task>, wanted: Results -> bool, got: Results, depth: nat,
                                 x: Entry)
    decreases parts
  {
    && parts != []
    && if !wanted(got) then FollowsInParts(w, parts[1..], wanted, got + [None], depth, x)
       else
         || Follows(w, parts[0], depth, x)
         || exists value, depth' :: EndsWith(w, parts[0], depth, value, depth') &&
              FollowsInParts(w, parts[1..], wanted, got + [Some(value)], depth', x)
  }

  ghost function TargetOf(w: World, x: Entry): Task
    requires x.name in w.targets
  {
    w.targets[x.name]
  }

  /** Each name of the chain is being evaluated when the next one is followed. */
  ghost predicate Chain(w: World, t: Task, depth: nat, chain: seq<Entry>)
    decreases chain
  {
    chain == [] ||
    (&& Follows(w, t, depth, chain[0]) && chain[0].name in w.targets
     && Chain(w, TargetOf(w, chain[0]), chain[0].depth, chain[1..]))
  }

  /** A name is followed that is still being evaluated, with the counter as it was then. */
  ghost predicate Reenters(w: World, t: Task, depth: nat) {
    exists chain: seq<Entry> :: Chain(w, t, depth, chain) && Repeats(chain)
  }

  ghost predicate Repeats(chain: seq<Entry>) {
    exists i, j | 0 <= i < j < |chain| :: chain[i] == chain[j]
  }

  /** The run from the entry has come to an end with this many references inside one another. */
  ghost predicate Ended(w: World, x: Entry, fuel: int) {
    x.name in w.targets && fuel >= 0 && !Run(w, TargetOf(w, x), x.depth, fuel).Pending?
  }

  /** What is followed has to be done first, with one reference less to follow. */
  lemma {:induction false} FollowedFirst(w: World, t: Task, depth: nat, fuel: nat, x: Entry)
    requires !Run(w, t, depth, fuel).Pending? && Follows(w, t, depth, x)
    ensures Ended(w, x, fuel - 1)
    decreases t
  {
    if t.Visit? {
      FollowedFirstInParts(w, t.parts, t.wanted, t.finish, [], Counted(t.kind, depth).value, fuel, x);
    }
  }

  lemma {:induction false} FollowedFirstInParts(w: World, parts: seq<Task>, wanted: Results -> bool,
                                                finish: Results -> Option<real>, got: Results, depth: nat, fuel: nat,
                                                x: Entry)
    requires !RunParts(w, parts, wanted, finish, got, depth, fuel).Pending?
    requires FollowsInParts(w, parts, wanted, got, depth, x)
    ensures Ended(w, x, fuel - 1)
    decreases parts
  {
    if !wanted(got) {
      FollowedFirstInParts(w, parts[1..], wanted, finish, got + [None], depth, fuel, x);
    } else if Follows(w, parts[0], depth, x) {
      FollowedFirst(w, parts[0], depth, fuel, x);
    } else {
      var value, depth' :| EndsWith(w, parts[0], depth, value, depth') &&
        FollowsInParts(w, parts[1..], wanted, got + [Some(value)], depth', x);
      var fuel': nat :| Run(w, parts[0], depth, fuel') == Done(value, depth');
      SameAnswer(w, parts[0], depth, fuel, fuel');
      FollowedFirstInParts(w, parts[1..], wanted, finish, got + [Some(value)], depth', fuel, x);
    }
  }

  lemma {:induction false} ChainNeeds(w: World, t: Task, depth: nat, fuel: nat, chain: seq<Entry>, i: nat)
    requires !Run(w, t, depth, fuel).Pending? && Chain(w, t, depth, chain) && i < |chain|
    ensures Ended(w, chain[i], fuel - i - 1)
    ensures Chain(w, TargetOf(w, chain[i]), chain[i].depth, chain[i + 1..])
    decreases chain
  {
    FollowedFirst(w, t, depth, fuel, chain[0]);
    if i > 0 {
      ChainNeeds(w, TargetOf(w, chain[0]), chain[0].depth, fuel - 1, chain[1..], i - 1);
      assert chain[1..][i..] == chain[i + 1..];
    }
  }

  /** A circle needs more references than any number of them. */
  lemma {:induction false} CircleNeeds(w: World, x: Entry, fuel: nat, chain: seq<Entry>, i: nat)
    requires Ended(w, x, fuel) && Chain(w, TargetOf(w, x), x.depth, chain) && i < |chain| && chain[i] == x
    ensures false
    decreases fuel
  {
    ChainNeeds(w, TargetOf(w, x), x.depth, fuel, chain, i);
    CircleNeeds(w, x, fuel - i - 1, chain, i);
  }

  lemma ReenteringNeverEnds(w: World, t: Task, depth: nat, chain: seq<Entry>)
    requires Chain(w, t, depth, chain) && Repeats(chain)
    ensures NeverEnds(w, t, depth)
  {
    var i, j :| 0 <= i < j < |chain| && chain[i] == chain[j];
    forall fuel: nat ensures Run(w, t, depth, fuel).Pending? {
      if !Run(w, t, depth, fuel).Pending? {
        ChainNeeds(w, t, depth, fuel, chain, i);
        assert chain[i + 1..][j - i - 1] == chain[j];
        CircleNeeds(w, chain[i], fuel - i - 1, chain[i + 1..], j - i - 1);
      }
    }
  }

  // A run that takes long, or for ever, follows long chains

  /** With that many references inside one another the run from the entry ends, and with one less it does not. */
  ghost predicate NeedsJust(w: World, x: Entry, fuel: nat) {
    Ended(w, x, fuel) && !Ended(w, x, fuel - 1)
  }

  ghost predicate Small(x: Entry) {
    x.depth <= MAX_NESTING_DEPTH
  }

  /** When `fuel` references are too few and one more would be enough, there is one to follow that is as short of
      just one. */
  lemma {:induction false} ShortOfOne(w: World, t: Task, depth: nat, fuel: nat) returns (x: Entry)
    requires Run(w, t, depth, fuel).Pending? && !Run(w, t, depth, fuel + 1).Pending?
    ensures Follows(w, t, depth, x) && Small(x) && NeedsJust(w, x, fuel)
    decreases t
  {
    match t
    case Follow(n) => x := Entry(n, Counted(n.kind, depth).value);
    case Visit(kind, parts, wanted, finish) =>
      x := ShortOfOneInParts(w, parts, wanted, finish, [], Counted(kind, depth).value, fuel);
  }

  lemma {:induction false} ShortOfOneInParts(w: World, parts: seq<Task>, wanted: Results -> bool,
                                             finish: Results -> Option<real>, got: Results, depth: nat, fuel: nat)
    returns (x: Entry)
    requires RunParts(w, parts, wanted, finish, got, depth, fuel).Pending?
    requires !RunParts(w, parts, wanted, finish, got, depth, fuel + 1).Pending?
    ensures FollowsInParts(w, parts, wanted, got, depth, x) && Small(x) && NeedsJust(w, x, fuel)
    decreases parts
  {
    var first := Run(w, parts[0], depth, fuel);
    if !wanted(got) {
      x := ShortOfOneInParts(w, parts[1..], wanted, finish, got + [None], depth, fuel);
    } else if first.Pending? {
      x := ShortOfOne(w, parts[0], depth, fuel);
    } else {
      MoreFuel(w, parts[0], depth, fuel, fuel + 1);
      assert EndsWith(w, parts[0], depth, first.value, first.depth);
      x := ShortOfOneInParts(w, parts[1..], wanted, finish, got + [Some(first.value)], first.depth, fuel);
    }
  }

  ghost predicate EntryNeverEnds(w: World, x: Entry) {
    x.name in w.targets && NeverEnds(w, TargetOf(w, x), x.depth)
  }

  /** A run that never ends follows a reference whose run never ends. */
  lemma {:induction false} Endless(w: World, t: Task, depth: nat) returns (x: Entry)
    requires NeverEnds(w, t, depth)
    ensures Follows(w, t, depth, x) && Small(x) && EntryNeverEnds(w, x)
    decreases t
  {
    assert Run(w, t, depth, 0).Pending?;
    match t
    case Visit(kind, parts, wanted, finish) =>
      var d := Counted(kind, depth).value;
      forall fuel: nat ensures RunParts(w, parts, wanted, finish, [], d, fuel).Pending? {
        assert Run(w, t, depth, fuel).Pending?;
      }
      x := EndlessInParts(w, parts, wanted, finish, [], d);
    case Follow(n) =>
      x := Entry(n, Counted(n.kind, depth).value);
      forall fuel: nat ensures Run(w, w.targets[n], x.depth, fuel).Pending? {
        assert Run(w, t, depth, fuel + 1).Pending?;
      }
  }

  ghost predicate PartsNeverEnd(w: World, parts: seq<Task>, wanted: Results -> bool, finish: Results -> Option<real>,
                                got: Results, depth: nat)
  {
    forall fuel: nat :: RunParts(w, parts, wanted, finish, got, depth, fuel).Pending?
  }

  lemma {:induction false} EndlessInParts(w: World, parts: seq<Task>, wanted: Results -> bool,
                                          finish: Results -> Option<real>, got: Results, depth: nat)
    returns (x: Entry)
    requires PartsNeverEnd(w, parts, wanted, finish, got, depth)
    ensures FollowsInParts(w, parts, wanted, got, depth, x) && Small(x) && EntryNeverEnds(w, x)
    decreases parts
  {
    assert RunParts(w, parts, wanted, finish, got, depth, 0).Pending?;
    if !wanted(got) {
      forall fuel: nat ensures RunParts(w, parts[1..], wanted, finish, got + [None], depth, fuel).Pending? {
        assert RunParts(w, parts, wanted, finish, got, depth, fuel).Pending?;
      }
      x := EndlessInParts(w, parts[1..], wanted, finish, got + [None], depth);
    } else if NeverEnds(w, parts[0], depth) {
      x := Endless(w, parts[0], depth);
    } else {
      var enough: nat :| !Run(w, parts[0], depth, enough).Pending?;
      var first := Run(w, parts[0], depth, enough);
      assert RunParts(w, parts, wanted, finish, got, depth, enough).Pending?;
      assert EndsWith(w, parts[0], depth, first.value, first.depth);
      RestNeverEnds(w, parts, wanted, finish, got, depth, enough);
      x := EndlessInParts(w, parts[1..], wanted, finish, got + [Some(first.value)], first.depth);
    }
  }

  lemma RestNeverEnds(w: World, parts: seq<Task>, wanted: Results -> bool, finish: Results -> Option<real>,
                      got: Results, depth: nat, enough: nat)
    requires PartsNeverEnd(w, parts, wanted, finish, got, depth) && parts != [] && wanted(got)
    requires Run(w, parts[0], depth, enough).Done?
    ensures var first := Run(w, parts[0], depth, enough);
      PartsNeverEnd(w, parts[1..], wanted, finish, got + [Some(first.value)], first.depth)
  {
    var first := Run(w, parts[0], depth, enough);
    var rest, got' := parts[1..], got + [Some(first.value)];
    forall fuel: nat ensures RunParts(w, rest, wanted, finish, got', first.depth, fuel).Pending? {
      var both := if fuel < enough then enough else fuel;
      MoreFuel(w, parts[0], depth, enough, both);
      assert RunParts(w, parts, wanted, finish, got, depth, both).Pending?;
      if !RunParts(w, rest, wanted, finish, got', first.depth, fuel).Pending? {
        MoreFuelForParts(w, rest, wanted, finish, got', first.depth, fuel, both);
      }
    }
  }

  /** The known names, with every value that the counter can have. */
  ghost function Entries(names: set<Name>): set<Entry> {
    set n, depth | n in names && 0 <= depth <= MAX_NESTING_DEPTH :: Entry(n, depth)
  }

  /** More elements than values: two of them agree. */
  lemma {:induction false} Pigeons(s: seq<Entry>, values: set<Entry>)
    requires |s| > |values| && forall x | x in s :: x in values
    ensures Repeats(s)
    decreases |s|
  {
    var n := |s| - 1;
    if k :| 0 <= k < n && s[k] == s[n] {
    } else {
      var rest, others := s[..n], values - {s[n]};
      assert |others| == |values| - 1;
      Pigeons(rest, others);
      var i, j :| 0 <= i < j < |rest| && rest[i] == rest[j];
      assert s[i] == s[j];
    }
  }

  /** As many names as are wanted are followed one inside the other. */
  lemma {:induction false} EndlessChain(w: World, t: Task, depth: nat, k: nat) returns (chain: seq<Entry>)
    requires NeverEnds(w, t, depth)
    ensures |chain| == k && Chain(w, t, depth, chain) && forall x | x in chain :: x in Entries(w.targets.Keys)
    decreases k
  {
    chain := [];
    if k > 0 {
      var x := Endless(w, t, depth);
      var rest := EndlessChain(w, TargetOf(w, x), x.depth, k - 1);
      chain := [x] + rest;
      assert chain[1..] == rest;
    }
  }

  lemma {:induction false} LongChain(w: World, t: Task, depth: nat, fuel: nat) returns (chain: seq<Entry>)
    requires Run(w, t, depth, fuel).Pending? && !Run(w, t, depth, fuel + 1).Pending?
    ensures |chain| == fuel + 1 && Chain(w, t, depth, chain) && forall x | x in chain :: x in Entries(w.targets.Keys)
    decreases fuel
  {
    var x := ShortOfOne(w, t, depth, fuel);
    var rest: seq<Entry> := [];
    if fuel > 0 {
      rest := LongChain(w, TargetOf(w, x), x.depth, fuel - 1);
    }
    chain := [x] + rest;
    assert chain[1..] == rest;
  }

  /** Evaluating an expression or testing a set goes on for ever exactly when it follows a name that is still being
      evaluated, with the counter as it was when that evaluation began. */
  lemma EndlessExactly(w: World, t: Task, depth: nat)
    ensures NeverEnds(w, t, depth) <==> Reenters(w, t, depth)
  {
    if NeverEnds(w, t, depth) {
      var chain := EndlessChain(w, t, depth, |Entries(w.targets.Keys)| + 1);
      Pigeons(chain, Entries(w.targets.Keys));
    }
    if Reenters(w, t, depth) {
      var chain :| Chain(w, t, depth, chain) && Repeats(chain);
      ReenteringNeverEnds(w, t, depth, chain);
    }
  }

  lemma {:induction false} FirstEnough(w: World, t: Task, depth: nat, few: nat, enough: nat) returns (fuel: nat)
    requires few < enough && Run(w, t, depth, few).Pending? && !Run(w, t, depth, enough).Pending?
    ensures few <= fuel && Run(w, t, depth, fuel).Pending? && !Run(w, t, depth, fuel + 1).Pending?
    decreases enough
  {
    if few + 1 == enough || Run(w, t, depth, enough - 1).Pending? {
      fuel := enough - 1;
    } else {
      fuel := FirstEnough(w, t, depth, few, enough - 1);
    }
  }

  /** So it ends after a bounded number of references inside one another, or never. */
  lemma EndsSoonOrNever(w: World, t: Task, depth: nat)
    ensures NeverEnds(w, t, depth) <==> Run(w, t, depth, |w.targets| * (MAX_NESTING_DEPTH + 1)).Pending?
  {
    EntryCount(w.targets.Keys);
    assert |w.targets.Keys| == |w.targets|;
    var bound := |Entries(w.targets.Keys)|;
    if Run(w, t, depth, bound).Pending? && !NeverEnds(w, t, depth) {
      var enough: nat :| !Run(w, t, depth, enough).Pending?;
      if enough <= bound {
        MoreFuel(w, t, depth, enough, bound);
        assert false;
      }
      var fuel := FirstEnough(w, t, depth, bound, enough);
      var chain := LongChain(w, t, depth, fuel);
      Pigeons(chain, Entries(w.targets.Keys));
      ReenteringNeverEnds(w, t, depth, chain);
    }
  }

  ghost function EntriesOf(n: Name, bound: nat): set<Entry> {
    set depth | 0 <= depth < bound :: Entry(n, depth)
  }

  lemma {:induction false} EntryCountOf(n: Name, bound: nat)
    ensures |EntriesOf(n, bound)| == bound
  {
    if bound == 0 {
      assert EntriesOf(n, bound) == {};
    } else {
      EntryCountOf(n, bound - 1);
      assert EntriesOf(n, bound) == EntriesOf(n, bound - 1) + {Entry(n, bound - 1)};
    }
  }

  lemma EntriesSplit(names: set<Name>, n: Name)
    requires n in names
    ensures Entries(names) == Entries(names - {n}) + EntriesOf(n, MAX_NESTING_DEPTH + 1)
    ensures Entries(names - {n}) !! EntriesOf(n, MAX_NESTING_DEPTH + 1)
  {
  }

  lemma {:induction false} EntryCount(names: set<Name>)
    ensures |Entries(names)| == |names| * (MAX_NESTING_DEPTH + 1)
    decreases |names|
  {
    if names == {} {
      assert Entries(names) == {};
    } else {
      var n :| n in names;
      EntriesSplit(names, n);
      EntryCountOf(n, MAX_NESTING_DEPTH + 1);
      EntryCount(names - {n});
    }
  }

  // Names that do not lead back to themselves

  /** Every known name in the task has a rank below the bound. */
  predicate NamesBelow(w: World, rank: map<Name, nat>, t: Task, bound: nat)
    decreases t
  {
    match t
    case Follow(n) => n in w.targets ==> n in rank && rank[n] < bound
    case Visit(_, parts, _, _) => forall i | 0 <= i < |parts| :: NamesBelow(w, rank, parts[i], bound)
  }

  ghost predicate Ranked(w: World, rank: map<Name, nat>) {
    forall n | n in w.targets :: n in rank && NamesBelow(w, rank, w.targets[n], rank[n])
  }

  /** When the names can be ranked, every run ends, whatever the counter. */
  lemma {:induction false} RankedEnds(w: World, rank: map<Name, nat>, t: Task, bound: nat, depth: nat)
    requires Ranked(w, rank) && NamesBelow(w, rank, t, bound)
    ensures !Run(w, t, depth, bound).Pending?
    decreases bound, t
  {
    var kind := if t.Follow? then t.name.kind else t.kind;
    var d := Counted(kind, depth);
    if d.Some? {
      match t
      case Follow(n) =>
        if n in w.targets {
          RankedEnds(w, rank, w.targets[n], rank[n], d.value);
          MoreFuel(w, w.targets[n], d.value, rank[n], bound - 1);
        }
      case Visit(_, parts, wanted, finish) => RankedEndsForParts(w, rank, parts, wanted, finish, [], bound, d.value);
    }
  }

  lemma {:induction false} RankedEndsForParts(w: World, rank: map<Name, nat>, parts: seq<Task>, wanted: Results -> bool,
                                              finish: Results -> Option<real>, got: Results, bound: nat, depth: nat)
    requires Ranked(w, rank) && forall i | 0 <= i < |parts| :: NamesBelow(w, rank, parts[i], bound)
    ensures !RunParts(w, parts, wanted, finish, got, depth, bound).Pending?
    decreases bound, parts
  {
    if parts != [] {
      if !wanted(got) {
        RankedEndsForParts(w, rank, parts[1..], wanted, finish, got + [None], bound, depth);
      } else {
        RankedEnds(w, rank, parts[0], bound, depth);
        var first := Run(w, parts[0], depth, bound);
        if first.Done? {
          RankedEndsForParts(w, rank, parts[1..], wanted, finish, got + [Some(first.value)], bound, first.depth);
        }
      }
    }
  }
}
