/** eval(CaseDistinction) in adv-interpreter-eval.cpp: which expression of a case distinction is evaluated, whatever the
    sets are, and what the interpreter makes of the cases of a belief. */
module CaseSelection {
  import opened Beliefs
  import opened Circles
  import opened Expressions
  import opened Interpreter
  import opened LetBinding
  import opened References
  import opened VisitCounter
  import opened Wrappers

  // What has been chosen

  lemma {:induction false} ChosenStays(got: Results, more: Results, i: nat)
    requires ChosenFrom(got, i).Some?
    ensures ChosenFrom(got + more, i) == ChosenFrom(got, i)
    decreases |got| - i
  {
    assert (got + more)[i] == got[i];
    if got[i].None? {
      ChosenStays(got, more, i + 2);
    }
  }

  lemma {:induction false} ChosenNext(got: Results, test: Option<real>, value: Option<real>, i: nat)
    requires i % 2 == 1 && i <= |got| + 1 && |got| % 2 == 0 && ChosenFrom(got, i).None?
    ensures ChosenFrom(got + [test, value], i) == value
    decreases |got| - i
  {
    var longer := got + [test, value];
    if i < |got| {
      assert longer[i] == got[i];
      ChosenNext(got, test, value, i + 2);
    } else {
      assert longer[i] == value;
    }
  }

  lemma AlternatingNext(cases: seq<(Task, Task)>)
    requires cases != []
    ensures Alternating(cases) != [] && Alternating(cases)[0] == cases[0].0
    ensures |Alternating(cases)| >= 2 && Alternating(cases)[1] == cases[0].1
    ensures Alternating(cases)[1..] != [] && Alternating(cases)[1..][1..] == Alternating(cases[1..])
  {
  }

  /** After a case has been chosen nothing else is run. */
  lemma {:induction false} RestSkipped(w: World, cases: seq<(Task, Task)>, got: Results, depth: nat, fuel: nat)
    requires |got| % 2 == 0 && Chosen(got).Some?
    ensures RunParts(w, Alternating(cases), CaseWanted, Chosen, got, depth, fuel) == Finished(Chosen(got), depth)
    decreases |cases|
  {
    if cases != [] {
      var got1 := got + [None];
      AlternatingNext(cases);
      assert !CaseWanted(got) && !CaseWanted(got1);
      assert ([cases[0].1] + Alternating(cases[1..]))[1..] == Alternating(cases[1..]);
      assert got1 + [None] == got + [None, None];
      ChosenStays(got, [None, None], 1);
      RestSkipped(w, cases[1..], got1 + [None], depth, fuel);
    }
  }

  /** The test has been run, starting with one value of the counter and ending with another, and the point is not in
      the set. */
  ghost predicate Fails(w: World, test: Task, before: nat, after: nat, fuel: nat) {
    var a := Run(w, test, before, fuel);
    a.Done? && a.value != 1.0 && a.depth == after
  }

  /** The point is in none of the first k sets, tested one after the other with these values of the counter. */
  ghost predicate Passed(w: World, cases: seq<(Task, Task)>, k: nat, depths: seq<nat>, fuel: nat) {
    && k <= |cases| && |depths| == k + 1
    && forall i | 0 <= i < k :: Fails(w, cases[i].0, depths[i], depths[i + 1], fuel)
  }

  /** After the first k sets: nothing is left, or the next test does not come to an end, or the point is in the set and
      the outcome is that of its expression. */
  ghost predicate Selected(w: World, cases: seq<(Task, Task)>, k: nat, depth: nat, fuel: nat, a: Answer) {
    if k >= |cases| then a == Raised
    else
      var test := Run(w, cases[k].0, depth, fuel);
      if test.Done? then test.value == 1.0 && a == Run(w, cases[k].1, test.depth, fuel) else a == test
  }

  lemma PassedNext(w: World, cases: seq<(Task, Task)>, k: nat, depths: seq<nat>, depth: nat, fuel: nat)
    requires cases != [] && Passed(w, cases[1..], k, depths, fuel)
    requires Fails(w, cases[0].0, depth, depths[0], fuel)
    ensures Passed(w, cases, k + 1, [depth] + depths, fuel)
  {
    var all := [depth] + depths;
    forall i | 0 <= i < k + 1 ensures Fails(w, cases[i].0, all[i], all[i + 1], fuel) {
      if i > 0 {
        assert Fails(w, cases[1..][i - 1].0, depths[i - 1], depths[i - 1 + 1], fuel);
      }
    }
  }

  lemma PartRuns(w: World, parts: seq<Task>, part: Task, rest: seq<Task>, got: Results, depth: nat, fuel: nat)
    requires parts != [] && parts[0] == part && parts[1..] == rest && CaseWanted(got)
    ensures var a := Run(w, part, depth, fuel);
      RunParts(w, parts, CaseWanted, Chosen, got, depth, fuel) ==
      if a.Done? then RunParts(w, rest, CaseWanted, Chosen, got + [Some(a.value)], a.depth, fuel) else a
  {
  }

  lemma PartSkipped(w: World, parts: seq<Task>, rest: seq<Task>, got: Results, depth: nat, fuel: nat)
    requires parts != [] && parts[1..] == rest && !CaseWanted(got)
    ensures RunParts(w, parts, CaseWanted, Chosen, got, depth, fuel) ==
            RunParts(w, rest, CaseWanted, Chosen, got + [None], depth, fuel)
  {
  }

  ghost predicate NoneYet(got: Results) {
    |got| % 2 == 0 && Chosen(got).None?
  }

  lemma TestHolds(got: Results, got1: Results, v: real, got2: Results)
    requires NoneYet(got) && got1 == got + [Some(1.0)] && got2 == got1 + [Some(v)]
    ensures CaseWanted(got1) && |got2| % 2 == 0 && Chosen(got2) == Some(v)
  {
    assert got2 == got + [Some(1.0), Some(v)];
    ChosenNext(got, Some(1.0), Some(v), 1);
  }

  lemma TestFails(got: Results, x: real, got1: Results, got2: Results)
    requires NoneYet(got) && got1 == got + [Some(x)] && x != 1.0 && got2 == got1 + [None]
    ensures !CaseWanted(got1) && NoneYet(got2)
  {
    assert got2 == got + [Some(x), None];
    ChosenNext(got, Some(x), None, 1);
  }

  /** The point is in the set of the first case. */
  lemma Holds(w: World, parts: seq<Task>, cases: seq<(Task, Task)>, got: Results, got1: Results, depth: nat, fuel: nat)
    requires NoneYet(got) && got1 == got + [Some(1.0)] && parts != [] && parts[1..] == Alternating(cases)
    ensures RunParts(w, parts, CaseWanted, Chosen, got1, depth, fuel) == Run(w, parts[0], depth, fuel)
  {
    var value := Run(w, parts[0], depth, fuel);
    var v := if value.Done? then value.value else 0.0;
    var got2 := got1 + [Some(v)];
    TestHolds(got, got1, v, got2);
    PartRuns(w, parts, parts[0], parts[1..], got1, depth, fuel);
    if value.Done? {
      RestSkipped(w, cases, got2, value.depth, fuel);
    }
  }

  lemma {:induction false} SelectedFrom(w: World, cases: seq<(Task, Task)>, got: Results, depth: nat, fuel: nat,
                                        parts: seq<Task>)
    returns (k: nat, depths: seq<nat>)
    requires NoneYet(got) && parts == Alternating(cases)
    ensures Passed(w, cases, k, depths, fuel) && depths[0] == depth
    ensures Selected(w, cases, k, depths[k], fuel, RunParts(w, parts, CaseWanted, Chosen, got, depth, fuel))
    decreases |cases|
  {
    k, depths := 0, [depth];
    if cases != [] {
      AlternatingNext(cases);
      var rest := parts[1..];
      PartRuns(w, parts, cases[0].0, rest, got, depth, fuel);
      var test := Run(w, cases[0].0, depth, fuel);
      if test.Done? && test.value == 1.0 {
        Holds(w, rest, cases[1..], got, got + [Some(1.0)], test.depth, fuel);
      } else if test.Done? {
        var got1 := got + [Some(test.value)];
        var got2 := got1 + [None];
        TestFails(got, test.value, got1, got2);
        PartSkipped(w, rest, rest[1..], got1, test.depth, fuel);
        k, depths := SelectedFrom(w, cases[1..], got2, test.depth, fuel, rest[1..]);
        PassedNext(w, cases, k, depths, depth, fuel);
        SelectedNext(w, cases, k, depths[k], fuel, RunParts(w, rest[1..], CaseWanted, Chosen, got2, test.depth, fuel));
        k, depths := k + 1, [depth] + depths;
      }
    }
  }

  lemma SelectedNext(w: World, cases: seq<(Task, Task)>, k: nat, depth: nat, fuel: nat, a: Answer)
    requires cases != [] && Selected(w, cases[1..], k, depth, fuel, a)
    ensures Selected(w, cases, k + 1, depth, fuel, a)
  {
  }

  /** A case distinction evaluates to the expression of the first set that contains the point, and nothing behind it is
      run; when no set does, to an error. */
  lemma FirstHolding(w: World, cases: seq<(Task, Task)>, depth: nat, fuel: nat) returns (k: nat, depths: seq<nat>)
    requires depth + 1 <= MAX_NESTING_DEPTH
    ensures Passed(w, cases, k, depths, fuel) && depths[0] == depth + 1
    ensures Selected(w, cases, k, depths[k], fuel, Run(w, Cases(cases), depth, fuel))
  {
    k, depths := SelectedFrom(w, cases, [], depth + 1, fuel, Alternating(cases));
  }

  // The cases of a belief

  /** The test of an interval visits the set and its two bounds. These may be infinite, which no expression of this
      model is: so the task says how the point compares with them. */
  function IntervalTest(c: Case, p: real): Task {
    Visit(OfSet, [Leaf(Some(0.0)), Leaf(Some(0.0))], got => true, got => Truth(Contains(c, p)))
  }

  function BeliefCases(lib: Library, cases: seq<Case>, p: real): (r: seq<(Task, Task)>)
    ensures |r| == |cases|
  {
    seq(|cases|, i requires 0 <= i < |cases| =>
      (IntervalTest(cases[i], p), TaskOf(lib, map["P" := p], Build(cases[i].expr))))
  }

  lemma IntervalRun(w: World, c: Case, p: real, depth: nat, fuel: nat)
    ensures var d := Counted(OfSet, depth).value;
      Run(w, IntervalTest(c, p), depth, fuel) ==
      if d + 2 <= MAX_NESTING_DEPTH then Done(if Contains(c, p) then 1.0 else 0.0, d + 2) else Raised
  {
    TwoParts(w, IntervalTest(c, p), Counted(OfSet, depth).value, fuel);
  }

  /** With finite bounds it is the test of the rectangle that the belief builds. */
  lemma IntervalIsRectangle(w: World, lib: Library, vars: ValueMap, a: real, b: real, t: Term, p: real, depth: nat,
                            fuel: nat)
    ensures var bounds := (RealExpr(None, Real(a)), RealExpr(None, Real(b)));
      Run(w, TestOf(lib, vars, SetExpr(None, Rectangle([bounds])), [p]), depth, fuel) ==
      Run(w, IntervalTest(Case(Finite(a), Finite(b), t), p), depth, fuel)
  {
    var ea, eb := RealExpr(None, Real(a)), RealExpr(None, Real(b));
    var s, d := SetExpr(None, Rectangle([(ea, eb)])), Counted(OfSet, depth).value;
    var task := TestOf(lib, vars, s, [p]);
    var bounds := [(ea, eb)];
    assert bounds[1..] == [] && Ends(bounds) == [ea, eb] + Ends([]);
    assert Parts(s) == [ea, eb];
    assert [ea, eb][1..] == [eb] && [eb][1..] == [];
    assert task.parts == TasksOf(lib, vars, [ea, eb]) == [Leaf(Some(a))] + TasksOf(lib, vars, [eb]);
    assert TasksOf(lib, vars, [eb]) == [Leaf(Some(b))];
    var none: Results := [];
    var one: Results := [Some(a)];
    var got: Results := [Some(a), Some(b)];
    assert Numbers(none) == [] && Numbers(one) == [a];
    RectangleTest(lib, vars, s, [p], none);
    RectangleTest(lib, vars, s, [p], one);
    RectangleTest(lib, vars, s, [p], got);
    TwoParts(w, task, d, fuel);
    assert Numbers(got) == [a, b];
    assert InBounds([a, b], [p]) <==> a <= p <= b || b <= p <= a;
    IntervalRun(w, Case(Finite(a), Finite(b), t), p, depth, fuel);
  }

  lemma {:induction false} FirstCaseIs(cases: seq<Case>, p: real, k: nat)
    requires k <= |cases| && forall i | 0 <= i < k :: !Contains(cases[i], p)
    requires k < |cases| ==> Contains(cases[k], p)
    ensures FirstCase(cases, p) == if k < |cases| then Some(cases[k].expr) else None
  {
    if k > 0 {
      FirstCaseIs(cases[1..], p, k - 1);
    }
  }

  lemma TreeRun(w: World, c: Context, e: RealExpr, tree: Tree, depth: nat, fuel: nat)
    requires Knows(w, c) && Unfolds(c.refs, e, tree) && Expressions.Bound(c.vars, tree) && depth <= MAX_NESTING_DEPTH
    ensures var a := Run(w, TaskOf(c.lib, c.vars, e), depth, fuel);
      (a.Pending? && fuel < Size(tree)) || a == Within(depth, Size(tree), Value(c.lib, c.vars, tree))
  {
    var enough := fuel + Size(tree);
    RunIsEvaluate(w, c, e, tree, depth, enough);
    var task := TaskOf(c.lib, c.vars, e);
    if !Run(w, task, depth, fuel).Pending? {
      MoreFuel(w, task, depth, fuel, enough);
    } else if fuel >= Size(tree) {
      RunIsEvaluate(w, c, e, tree, depth, fuel);
    }
  }

  ghost function NodesOf(t: Term): nat
    requires Closed(t)
  {
    Nodes(map[], map[], t, 0)
  }

  /** An expression of a belief, for the power p. */
  lemma ExpressionRun(w: World, lib: Library, t: Term, p: real, depth: nat, fuel: nat)
    requires Closed(t) && Plain(map["P" := p], t) && depth <= MAX_NESTING_DEPTH
    ensures var a := Run(w, TaskOf(lib, map["P" := p], Build(t)), depth, fuel);
      (a.Pending? && fuel < NodesOf(t)) || a == Within(depth, NodesOf(t), ValueOf(lib, t, p))
  {
    var vars := map["P" := p];
    var tree := Meaning(lib, vars, map[], map[], map[], t, 0, Build(t));
    TreeRun(w, Context(lib, map[], vars), Build(t), tree, depth, fuel);
  }

  ghost predicate Evaluable(cases: seq<Case>, p: real) {
    forall c | c in cases :: Closed(c.expr) && Plain(map["P" := p], c.expr)
  }

  /** Each test that has been passed took three visits, as long as the counter had not to start anew. */
  lemma {:induction false} TestVisits(w: World, cases: seq<Case>, p: real, tasks: seq<(Task, Task)>, k: nat,
                                      depths: seq<nat>, fuel: nat, i: nat)
    requires |tasks| == |cases| && forall j | 0 <= j < |cases| :: tasks[j].0 == IntervalTest(cases[j], p)
    requires Passed(w, tasks, k, depths, fuel) && i <= k && depths[0] + 3 * i <= MAX_NESTING_DEPTH
    ensures depths[i] == depths[0] + 3 * i
  {
    if i > 0 {
      var j := i - 1;
      TestVisits(w, cases, p, tasks, k, depths, fuel, j);
      assert Fails(w, tasks[j].0, depths[j], depths[j + 1], fuel);
      IntervalRun(w, cases[j], p, depths[j], fuel);
    }
  }

  ghost predicate Fits(first: Term, count: nat, depth: nat, fuel: nat)
    requires Closed(first)
  {
    depth + 1 + 3 * count + NodesOf(first) <= MAX_NESTING_DEPTH && fuel >= NodesOf(first)
  }

  /** The cases of a belief come to the meaning of the first one that contains the power, or to an error: for certain
      when there is none, and not when the visits are few enough. */
  lemma BeliefSelection(w: World, lib: Library, cases: seq<Case>, p: real, depth: nat, fuel: nat)
    requires Evaluable(cases, p) && depth + 1 <= MAX_NESTING_DEPTH
    ensures var a, first := Run(w, Cases(BeliefCases(lib, cases, p)), depth, fuel), FirstCase(cases, p);
      && (first.None? ==> a == Raised)
      && (a.Done? ==> first.Some? && Closed(first.value) && a.value == ValueOf(lib, first.value, p))
      && (first.Some? && Closed(first.value) && Fits(first.value, |cases|, depth, fuel) ==> a.Done?)
  {
    var tasks := BeliefCases(lib, cases, p);
    var k, depths := FirstHolding(w, tasks, depth, fuel);
    forall i | 0 <= i < k ensures !Contains(cases[i], p) {
      assert Fails(w, tasks[i].0, depths[i], depths[i + 1], fuel);
      IntervalRun(w, cases[i], p, depths[i], fuel);
    }
    if k < |cases| {
      IntervalRun(w, cases[k], p, depths[k], fuel);
      var test := Run(w, tasks[k].0, depths[k], fuel);
      if test.Done? {
        FirstCaseIs(cases, p, k);
        assert cases[k] in cases;
        ExpressionRun(w, lib, cases[k].expr, p, test.depth, fuel);
      }
      if depth + 1 + 3 * |cases| <= MAX_NESTING_DEPTH {
        TestVisits(w, cases, p, tasks, k, depths, fuel, k);
      }
    } else {
      FirstCaseIs(cases, p, k);
    }
  }
}
