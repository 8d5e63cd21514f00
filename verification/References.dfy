/** adv-interpreter.cpp: the names that findReferences collects, as lists in the order of the traversal. */
module References {
  import opened Expressions
  import opened Wrappers

  /** The named expressions inside an expression, itself included, parents first. */
  function Named(e: RealExpr): seq<RealExpr>
    decreases e, 1
  {
    (if e.name.Some? then [e] else []) + NamedBelow(e)
  }

  function NamedBelow(e: RealExpr): seq<RealExpr>
    decreases e, 0
  {
    match e.node
    case Unary(_, a) => Named(a)
    case Binary(_, a, b) => Named(a) + Named(b)
    case List(_, args) => NamedAll(args)
    case _ => []
  }

  function NamedAll(es: seq<RealExpr>): seq<RealExpr>
    decreases es
  {
    if es == [] then [] else Named(es[0]) + NamedAll(es[1..])
  }

  function NodeCount(e: RealExpr): (n: nat)
    ensures n > 0
  {
    match e.node
    case Unary(_, a) => 1 + NodeCount(a)
    case Binary(_, a, b) => 1 + NodeCount(a) + NodeCount(b)
    case List(_, args) => 1 + NodeCountAll(args)
    case _ => 1
  }

  function NodeCountAll(es: seq<RealExpr>): nat {
    if es == [] then 0 else NodeCount(es[0]) + NodeCountAll(es[1..])
  }

  /** The real expressions directly inside a set, in the order of the traversal. */
  function Parts(s: SetExpr): seq<RealExpr> {
    match s.node
    case Singleton(es) => es
    case Ball(center, radius) => center + [radius]
    case Rectangle(bounds) => Ends(bounds)
    case ConvexPolytope(a, b) => Flatten(a) + b
    case _ => []
  }

  function Ends(bounds: seq<(RealExpr, RealExpr)>): seq<RealExpr> {
    if bounds == [] then [] else [bounds[0].0, bounds[0].1] + Ends(bounds[1..])
  }

  function Flatten(rows: seq<seq<RealExpr>>): seq<RealExpr> {
    if rows == [] then [] else rows[0] + Flatten(rows[1..])
  }

  function NamedInSet(s: SetExpr): seq<RealExpr>
    decreases s, 1
  {
    if s.node.Intersection? then NamedInSets(s.node.sets) else NamedAll(Parts(s))
  }

  function NamedInSets(ss: seq<SetExpr>): seq<RealExpr>
    decreases ss
  {
    if ss == [] then [] else NamedInSet(ss[0]) + NamedInSets(ss[1..])
  }

  function NamedSets(s: SetExpr): seq<SetExpr>
    decreases s, 1
  {
    (if s.name.Some? then [s] else []) + NamedSetsBelow(s)
  }

  function NamedSetsBelow(s: SetExpr): seq<SetExpr>
    decreases s, 0
  {
    if s.node.Intersection? then NamedSetsIn(s.node.sets) else []
  }

  function NamedSetsIn(ss: seq<SetExpr>): seq<SetExpr>
    decreases ss
  {
    if ss == [] then [] else NamedSets(ss[0]) + NamedSetsIn(ss[1..])
  }

  function SetNodeCount(s: SetExpr): (n: nat)
    ensures n > 0
  {
    1 + NodeCountAll(Parts(s)) + if s.node.Intersection? then SetNodeCountAll(s.node.sets) else 0
  }

  function SetNodeCountAll(ss: seq<SetExpr>): nat {
    if ss == [] then 0 else SetNodeCount(ss[0]) + SetNodeCountAll(ss[1..])
  }

  function EnterOne(refs: RefMap, e: RealExpr): RefMap {
    if e.name.Some? then refs[e.name.value := e] else refs
  }

  function EnterOneSet(refs: SetRefMap, s: SetExpr): SetRefMap {
    if s.name.Some? then refs[s.name.value := s] else refs
  }

  /** The map after the names have been entered one after the other: a later one replaces an earlier one. */
  function Enter(refs: RefMap, es: seq<RealExpr>): RefMap
    decreases es
  {
    if es == [] then refs
    else Enter(EnterOne(refs, es[0]), es[1..])
  }

  function EnterSets(refs: SetRefMap, ss: seq<SetExpr>): SetRefMap
    decreases ss
  {
    if ss == [] then refs
    else EnterSets(EnterOneSet(refs, ss[0]), ss[1..])
  }

  lemma {:induction false} EnterConcat(refs: RefMap, es: seq<RealExpr>, es': seq<RealExpr>)
    ensures Enter(refs, es + es') == Enter(Enter(refs, es), es')
    decreases es
  {
    if es == [] {
      assert es + es' == es';
    } else {
      assert (es + es')[1..] == es[1..] + es';
      EnterConcat(EnterOne(refs, es[0]), es[1..], es');
    }
  }

  lemma {:induction false} EnterSetsConcat(refs: SetRefMap, ss: seq<SetExpr>, ss': seq<SetExpr>)
    ensures EnterSets(refs, ss + ss') == EnterSets(EnterSets(refs, ss), ss')
    decreases ss
  {
    if ss == [] {
      assert ss + ss' == ss';
    } else {
      assert (ss + ss')[1..] == ss[1..] + ss';
      EnterSetsConcat(EnterOneSet(refs, ss[0]), ss[1..], ss');
    }
  }

  lemma {:induction false} NamedAllConcat(es: seq<RealExpr>, es': seq<RealExpr>)
    ensures NamedAll(es + es') == NamedAll(es) + NamedAll(es')
    ensures NodeCountAll(es + es') == NodeCountAll(es) + NodeCountAll(es')
  {
    if es == [] {
      assert es + es' == es';
    } else {
      assert (es + es')[1..] == es[1..] + es';
      NamedAllConcat(es[1..], es');
    }
  }

  /** Every name leads to the last expression of that name. */
  lemma {:induction false} LastWins(refs: RefMap, es: seq<RealExpr>, i: nat)
    requires i < |es| && es[i].name.Some?
    requires forall j | i < j < |es| :: es[j].name != es[i].name
    ensures es[i].name.value in Enter(refs, es) && Enter(refs, es)[es[i].name.value] == es[i]
    decreases es
  {
    var refs' := EnterOne(refs, es[0]);
    if i > 0 {
      LastWins(refs', es[1..], i - 1);
    } else {
      Untouched(refs', es[1..], es[0].name.value);
    }
  }

  lemma {:induction false} Untouched(refs: RefMap, es: seq<RealExpr>, n: string)
    requires forall j | 0 <= j < |es| :: es[j].name != Some(n)
    ensures n in Enter(refs, es) <==> n in refs
    ensures n in refs ==> Enter(refs, es)[n] == refs[n]
    decreases es
  {
    if es != [] {
      Untouched(EnterOne(refs, es[0]), es[1..], n);
    }
  }

  ghost predicate AllNamed(es: seq<RealExpr>) {
    forall i | 0 <= i < |es| :: es[i].name.Some?
  }

  /** The name of every expression leads to that expression. */
  ghost predicate AllKept(refs: RefMap, es: seq<RealExpr>)
    requires AllNamed(es)
  {
    forall i | 0 <= i < |es| :: es[i].name.value in refs && refs[es[i].name.value] == es[i]
  }

  /** The last occurrence of a name. */
  lemma {:induction false} LastOf(es: seq<RealExpr>, i: nat) returns (j: nat)
    requires i < |es|
    ensures i <= j < |es| && es[j].name == es[i].name
    ensures forall k | j < k < |es| :: es[k].name != es[i].name
    decreases |es| - i
  {
    if k :| i < k < |es| && es[k].name == es[i].name {
      j := LastOf(es, k);
    } else {
      j := i;
    }
  }

  /** No expression is lost exactly when expressions of the same name are the same. */
  lemma KeptExactly(refs: RefMap, es: seq<RealExpr>)
    requires AllNamed(es)
    ensures AllKept(Enter(refs, es), es) <==>
            forall i, j | 0 <= i < j < |es| && es[i].name == es[j].name :: es[i] == es[j]
  {
    var entered := Enter(refs, es);
    if forall i, j | 0 <= i < j < |es| && es[i].name == es[j].name :: es[i] == es[j] {
      forall i | 0 <= i < |es| ensures es[i].name.value in entered && entered[es[i].name.value] == es[i] {
        var j := LastOf(es, i);
        LastWins(refs, es, j);
        assert es[j] == es[i];
      }
    }
  }

  // The same, for what is left of a traversal

  lemma EnterRest(refs: RefMap, es: seq<RealExpr>, rest: seq<RealExpr>)
    ensures Enter(Enter(refs, NamedAll(es)), NamedAll(rest)) == Enter(refs, NamedAll(es + rest))
    ensures NodeCountAll(es) + NodeCountAll(rest) == NodeCountAll(es + rest)
  {
    NamedAllConcat(es, rest);
    EnterConcat(refs, NamedAll(es), NamedAll(rest));
  }

  lemma NamedOne(e: RealExpr)
    ensures NamedAll([e]) == Named(e) && NodeCountAll([e]) == NodeCount(e)
  {
    assert [e][1..] == [];
  }
}
