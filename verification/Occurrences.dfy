/** adv-interpreter.cpp, findReferences: what it collects, by where an expression occurs in a message. */
module Occurrences {
  import opened Expressions
  import opened References
  import opened Wrappers

  /** e is the whole expression, or occurs in one of its arguments. */
  ghost predicate OccursIn(e: RealExpr, whole: RealExpr)
    decreases whole
  {
    || e == whole
    || match whole.node
       case Unary(_, a) => OccursIn(e, a)
       case Binary(_, a, b) => OccursIn(e, a) || OccursIn(e, b)
       case List(_, args) => exists i :: 0 <= i < |args| && OccursIn(e, args[i])
       case _ => false
  }

  ghost predicate OccursInList(e: RealExpr, es: seq<RealExpr>) {
    exists i :: 0 <= i < |es| && OccursIn(e, es[i])
  }

  /** e occurs in a coordinate, the centre or the radius, a bound, the matrix or the right-hand side, or one of the
      intersected sets. */
  ghost predicate OccursInSet(e: RealExpr, s: SetExpr)
    decreases s
  {
    match s.node
    case Singleton(coordinates) => OccursInList(e, coordinates)
    case Ball(center, radius) => OccursInList(e, center) || OccursIn(e, radius)
    case Rectangle(bounds) =>
      exists i :: 0 <= i < |bounds| && (OccursIn(e, bounds[i].0) || OccursIn(e, bounds[i].1))
    case ConvexPolytope(a, b) => (exists i :: 0 <= i < |a| && OccursInList(e, a[i])) || OccursInList(e, b)
    case Intersection(sets) => exists i :: 0 <= i < |sets| && OccursInSet(e, sets[i])
    case SetReference(_) => false
  }

  /** s is the whole set, or one of those that it intersects. */
  ghost predicate SetOccursIn(s: SetExpr, whole: SetExpr)
    decreases whole
  {
    || s == whole
    || (whole.node.Intersection? && exists i :: 0 <= i < |whole.node.sets| && SetOccursIn(s, whole.node.sets[i]))
  }

  /** The names that have been collected are those that were known and those that occur, and a name that occurs leads to
      an expression that bears it. */
  ghost predicate Collected(before: RefMap, after: RefMap, occurs: RealExpr -> bool) {
    && (forall e | occurs(e) && e.name.Some? ::
          e.name.value in after && occurs(after[e.name.value]) && after[e.name.value].name == e.name)
    && (forall n | n in after ::
          (n in before && after[n] == before[n]) || (occurs(after[n]) && after[n].name == Some(n)))
    && (forall n | n in before :: n in after)
  }

  ghost predicate CollectedFrom(before: RefMap, after: RefMap, whole: RealExpr) {
    Collected(before, after, e => OccursIn(e, whole))
  }

  ghost predicate CollectedFromSet(before: RefMap, after: RefMap, s: SetExpr) {
    Collected(before, after, e => OccursInSet(e, s))
  }

  ghost predicate SetsCollected(before: SetRefMap, after: SetRefMap, whole: SetExpr) {
    && (forall s | SetOccursIn(s, whole) && s.name.Some? ::
          s.name.value in after && SetOccursIn(after[s.name.value], whole) && after[s.name.value].name == s.name)
    && (forall n | n in after ::
          (n in before && after[n] == before[n]) || (SetOccursIn(after[n], whole) && after[n].name == Some(n)))
    && (forall n | n in before :: n in after)
  }

  // The lists of named expressions

  lemma {:induction false} NamedOccur(e: RealExpr, whole: RealExpr)
    ensures e in Named(whole) <==> OccursIn(e, whole) && e.name.Some?
    decreases whole, 1
  {
    match whole.node
    case Unary(_, a) => NamedOccur(e, a);
    case Binary(_, a, b) =>
      NamedOccur(e, a);
      NamedOccur(e, b);
    case List(_, args) => NamedOccurInList(e, args);
    case _ =>
  }

  lemma {:induction false} NamedOccurInList(e: RealExpr, es: seq<RealExpr>)
    ensures e in NamedAll(es) <==> OccursInList(e, es) && e.name.Some?
    decreases es, 0
  {
    if es != [] {
      NamedOccur(e, es[0]);
      NamedOccurInList(e, es[1..]);
      FirstOrRest(e, es);
    }
  }

  lemma FirstOrRest(e: RealExpr, es: seq<RealExpr>)
    requires es != []
    ensures OccursInList(e, es) <==> OccursIn(e, es[0]) || OccursInList(e, es[1..])
  {
    if OccursInList(e, es[1..]) {
      var i :| 0 <= i < |es[1..]| && OccursIn(e, es[1..][i]);
      assert OccursIn(e, es[i + 1]);
    }
    if i :| 0 <= i < |es| && OccursIn(e, es[i]) {
      if i > 0 {
        assert es[1..][i - 1] == es[i];
      }
    }
  }

  lemma {:induction false} OccurInBoth(e: RealExpr, es: seq<RealExpr>, es': seq<RealExpr>)
    ensures OccursInList(e, es + es') <==> OccursInList(e, es) || OccursInList(e, es')
  {
    if es == [] {
      assert es + es' == es';
    } else {
      assert (es + es')[1..] == es[1..] + es';
      OccurInBoth(e, es[1..], es');
      FirstOrRest(e, es);
      FirstOrRest(e, es + es');
    }
  }

  lemma {:induction false} OccurInEnds(e: RealExpr, bounds: seq<(RealExpr, RealExpr)>)
    ensures OccursInList(e, Ends(bounds)) <==>
            exists i :: 0 <= i < |bounds| && (OccursIn(e, bounds[i].0) || OccursIn(e, bounds[i].1))
  {
    if bounds != [] {
      var pair, rest := [bounds[0].0, bounds[0].1], bounds[1..];
      OccurInEnds(e, rest);
      OccurInBoth(e, pair, Ends(rest));
      OccurInPair(e, bounds[0].0, bounds[0].1);
      if i :| 0 <= i < |bounds| && (OccursIn(e, bounds[i].0) || OccursIn(e, bounds[i].1)) {
        assert i > 0 ==> rest[i - 1] == bounds[i];
      }
      if i :| 0 <= i < |rest| && (OccursIn(e, rest[i].0) || OccursIn(e, rest[i].1)) {
        assert bounds[i + 1] == rest[i];
      }
    }
  }

  lemma OccurInPair(e: RealExpr, a: RealExpr, b: RealExpr)
    ensures OccursInList(e, [a, b]) <==> OccursIn(e, a) || OccursIn(e, b)
  {
    assert [a, b][0] == a && [a, b][1] == b;
  }

  lemma {:induction false} OccurInRows(e: RealExpr, rows: seq<seq<RealExpr>>)
    ensures OccursInList(e, Flatten(rows)) <==> exists i :: 0 <= i < |rows| && OccursInList(e, rows[i])
  {
    if rows != [] {
      var rest := rows[1..];
      OccurInRows(e, rest);
      OccurInBoth(e, rows[0], Flatten(rest));
      if i :| 0 <= i < |rows| && OccursInList(e, rows[i]) {
        assert i > 0 ==> rest[i - 1] == rows[i];
      }
      if i :| 0 <= i < |rest| && OccursInList(e, rest[i]) {
        assert rows[i + 1] == rest[i];
      }
    }
  }

  lemma {:induction false} NamedOccurInSet(e: RealExpr, s: SetExpr)
    ensures e in NamedInSet(s) <==> OccursInSet(e, s) && e.name.Some?
    decreases s, 1
  {
    match s.node
    case Singleton(coordinates) => NamedOccurInList(e, coordinates);
    case Ball(center, radius) =>
      NamedOccurInList(e, center + [radius]);
      OccurInBoth(e, center, [radius]);
      assert OccursInList(e, [radius]) <==> OccursIn(e, radius) by {
        assert [radius][0] == radius;
      }
    case Rectangle(bounds) =>
      NamedOccurInList(e, Ends(bounds));
      OccurInEnds(e, bounds);
    case ConvexPolytope(a, b) =>
      NamedOccurInList(e, Flatten(a) + b);
      OccurInBoth(e, Flatten(a), b);
      OccurInRows(e, a);
    case Intersection(sets) => NamedOccurInSets(e, sets);
    case SetReference(_) =>
  }

  lemma {:induction false} NamedOccurInSets(e: RealExpr, sets: seq<SetExpr>)
    ensures e in NamedInSets(sets) <==> (exists i :: 0 <= i < |sets| && OccursInSet(e, sets[i])) && e.name.Some?
    decreases sets, 0
  {
    if sets != [] {
      var rest := sets[1..];
      NamedOccurInSet(e, sets[0]);
      NamedOccurInSets(e, rest);
      if i :| 0 <= i < |sets| && OccursInSet(e, sets[i]) {
        assert i > 0 ==> rest[i - 1] == sets[i];
      }
      if i :| 0 <= i < |rest| && OccursInSet(e, rest[i]) {
        assert sets[i + 1] == rest[i];
      }
    }
  }

  lemma {:induction false} NamedSetsOccur(s: SetExpr, whole: SetExpr)
    ensures s in NamedSets(whole) <==> SetOccursIn(s, whole) && s.name.Some?
    decreases whole, 1
  {
    if whole.node.Intersection? {
      NamedSetsOccurIn(s, whole.node.sets);
    }
  }

  lemma {:induction false} NamedSetsOccurIn(s: SetExpr, sets: seq<SetExpr>)
    ensures s in NamedSetsIn(sets) <==> (exists i :: 0 <= i < |sets| && SetOccursIn(s, sets[i])) && s.name.Some?
    decreases sets, 0
  {
    if sets != [] {
      var rest := sets[1..];
      NamedSetsOccur(s, sets[0]);
      NamedSetsOccurIn(s, rest);
      if i :| 0 <= i < |sets| && SetOccursIn(s, sets[i]) {
        assert i > 0 ==> rest[i - 1] == sets[i];
      }
      if i :| 0 <= i < |rest| && SetOccursIn(s, rest[i]) {
        assert sets[i + 1] == rest[i];
      }
    }
  }

  // The maps

  /** What is in the map is the old or an entered one, and every entered name is there. */
  lemma {:induction false} Entered(refs: RefMap, es: seq<RealExpr>)
    ensures forall e | e in es && e.name.Some? :: e.name.value in Enter(refs, es)
    ensures forall n | n in refs :: n in Enter(refs, es)
    ensures forall n | n in Enter(refs, es) ::
      (n in refs && Enter(refs, es)[n] == refs[n] && forall e | e in es :: e.name != Some(n)) ||
      (Enter(refs, es)[n] in es && Enter(refs, es)[n].name == Some(n))
    decreases es
  {
    if es != [] {
      Entered(EnterOne(refs, es[0]), es[1..]);
    }
  }

  lemma {:induction false} SetsEntered(refs: SetRefMap, ss: seq<SetExpr>)
    ensures forall s | s in ss && s.name.Some? :: s.name.value in EnterSets(refs, ss)
    ensures forall n | n in refs :: n in EnterSets(refs, ss)
    ensures forall n | n in EnterSets(refs, ss) ::
      (n in refs && EnterSets(refs, ss)[n] == refs[n] && forall s | s in ss :: s.name != Some(n)) ||
      (EnterSets(refs, ss)[n] in ss && EnterSets(refs, ss)[n].name == Some(n))
    decreases ss
  {
    if ss != [] {
      SetsEntered(EnterOneSet(refs, ss[0]), ss[1..]);
    }
  }

  lemma EnterCollects(refs: RefMap, es: seq<RealExpr>, occurs: RealExpr -> bool)
    requires forall e :: e in es <==> occurs(e) && e.name.Some?
    ensures Collected(refs, Enter(refs, es), occurs)
  {
    Entered(refs, es);
  }

  /** All named expressions of an expression are collected. */
  lemma ExpressionCollected(refs: RefMap, whole: RealExpr)
    ensures CollectedFrom(refs, Enter(refs, Named(whole)), whole)
  {
    forall e ensures e in Named(whole) <==> OccursIn(e, whole) && e.name.Some? {
      NamedOccur(e, whole);
    }
    EnterCollects(refs, Named(whole), e => OccursIn(e, whole));
  }

  /** All named expressions in a set are collected ... */
  lemma SetCollected(refs: RefMap, s: SetExpr)
    ensures CollectedFromSet(refs, Enter(refs, NamedInSet(s)), s)
  {
    forall e ensures e in NamedInSet(s) <==> OccursInSet(e, s) && e.name.Some? {
      NamedOccurInSet(e, s);
    }
    EnterCollects(refs, NamedInSet(s), e => OccursInSet(e, s));
  }

  /** ... and all named sets. */
  lemma SetNamesCollected(refs: SetRefMap, whole: SetExpr)
    ensures SetsCollected(refs, EnterSets(refs, NamedSets(whole)), whole)
  {
    forall s ensures s in NamedSets(whole) <==> SetOccursIn(s, whole) && s.name.Some? {
      NamedSetsOccur(s, whole);
    }
    SetsEntered(refs, NamedSets(whole));
  }

  // The order: later occurrences win

  function Arguments(e: RealExpr): (es: seq<RealExpr>)
    ensures forall i | 0 <= i < |es| :: es[i] < e
  {
    match e.node
    case Unary(_, a) => [a]
    case Binary(_, a, b) => [a, b]
    case List(_, args) => args
    case _ => []
  }

  /** The last expression of that name, reading from left to right, an expression before its arguments. */
  ghost function LastNamed(e: RealExpr, n: string): Option<RealExpr>
    decreases e, 1
  {
    var below := LastNamedIn(Arguments(e), n, e);
    if below.Some? then below else if e.name == Some(n) then Some(e) else None
  }

  ghost function LastNamedIn(es: seq<RealExpr>, n: string, whole: RealExpr): Option<RealExpr>
    requires forall i | 0 <= i < |es| :: es[i] < whole
    decreases whole, 0, |es|
  {
    if es == [] then None
    else
      var last := LastNamed(es[|es| - 1], n);
      if last.Some? then last else LastNamedIn(es[..|es| - 1], n, whole)
  }

  lemma {:induction false} LastNamedWins(refs: RefMap, e: RealExpr, n: string)
    ensures var last := LastNamed(e, n);
      if last.Some? then n in Enter(refs, Named(e)) && Enter(refs, Named(e))[n] == last.value
      else (n in Enter(refs, Named(e)) <==> n in refs) && (n in refs ==> Enter(refs, Named(e))[n] == refs[n])
    decreases e, 1
  {
    var own := if e.name.Some? then [e] else [];
    NamedBelowIsAll(e);
    EnterConcat(refs, own, NamedAll(Arguments(e)));
    LastNamedWinsIn(Enter(refs, own), Arguments(e), n, e);
    if e.name.Some? {
      assert own[1..] == [];
      assert Enter(refs, own) == refs[e.name.value := e];
    }
  }

  lemma NamedBelowIsAll(e: RealExpr)
    ensures NamedBelow(e) == NamedAll(Arguments(e))
  {
    match e.node
    case Unary(_, a) => NamedOne(a);
    case Binary(_, a, b) =>
      assert [a, b][1..] == [b];
      NamedOne(b);
    case _ =>
  }

  lemma {:induction false} LastNamedWinsIn(refs: RefMap, es: seq<RealExpr>, n: string, whole: RealExpr)
    requires forall i | 0 <= i < |es| :: es[i] < whole
    ensures var last := LastNamedIn(es, n, whole);
      if last.Some? then n in Enter(refs, NamedAll(es)) && Enter(refs, NamedAll(es))[n] == last.value
      else (n in Enter(refs, NamedAll(es)) <==> n in refs) && (n in refs ==> Enter(refs, NamedAll(es))[n] == refs[n])
    decreases whole, 0, |es|
  {
    if es != [] {
      var k := |es| - 1;
      var init, last := es[..k], es[k];
      assert es == init + [last];
      NamedAllConcat(init, [last]);
      NamedOne(last);
      EnterConcat(refs, NamedAll(init), Named(last));
      LastNamedWinsIn(refs, init, n, whole);
      LastNamedWins(Enter(refs, NamedAll(init)), last, n);
    }
  }

  /** Without references, the visits that collecting an expression takes are those that evaluating it takes. */
  lemma {:induction false} CountIsSize(refs: RefMap, e: RealExpr, t: Tree)
    requires Unfolds(refs, e, t)
    ensures NodeCount(e) <= Size(t)
    ensures (forall r | OccursIn(r, e) :: !r.node.Reference?) ==> NodeCount(e) == Size(t)
    decreases t
  {
    assert OccursIn(e, e);
    match t
    case TUnary(_, a) =>
      CountIsSize(refs, e.node.arg, a);
    case TBinary(_, a, b) =>
      CountIsSize(refs, e.node.argA, a);
      CountIsSize(refs, e.node.argB, b);
    case TList(op, args) =>
      CountIsSizeAll(refs, e.node.args, args);
      forall i, r | 0 <= i < |args| && OccursIn(r, e.node.args[i]) ensures OccursIn(r, e) {
      }
    case _ =>
  }

  lemma {:induction false} CountIsSizeAll(refs: RefMap, es: seq<RealExpr>, ts: seq<Tree>)
    requires |es| == |ts| && forall i | 0 <= i < |ts| :: Unfolds(refs, es[i], ts[i])
    ensures NodeCountAll(es) <= SizeAll(ts)
    ensures (forall i, r | 0 <= i < |es| && OccursIn(r, es[i]) :: !r.node.Reference?) ==>
      NodeCountAll(es) == SizeAll(ts)
    decreases ts
  {
    if es != [] {
      var k := |es| - 1;
      assert es == es[..k] + [es[k]];
      NamedAllConcat(es[..k], [es[k]]);
      NamedOne(es[k]);
      CountIsSizeAll(refs, es[..k], ts[..k]);
      CountIsSize(refs, es[k], ts[k]);
    }
  }
}
