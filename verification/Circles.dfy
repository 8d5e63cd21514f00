/** adv-interpreter-eval.cpp and adv-interpreter.hpp: what evaluating an expression, choosing among cases and testing a
    set come to as tasks, and circles of references among them. */
module Circles {
  import opened Expressions
  import opened Interpreter
  import opened References
  import opened Vectors
  import opened VisitCounter
  import opened Wrappers

  function ValueAt(got: Results, i: nat): real {
    if i < |got| && got[i].Some? then got[i].value else 0.0
  }

  /** An expression without parts. */
  function Leaf(r: Option<real>): Task {
    Visit(OfExpression, [], got => true, got => r)
  }

  function Total(op: ListOp, got: Results): real {
    if got == [] then (if op.SumAll? then 0.0 else 1.0)
    else
      var n := |got| - 1;
      if op.SumAll? then Total(op, got[..n]) + ValueAt(got, n) else Total(op, got[..n]) * ValueAt(got, n)
  }

  function ExpressionName(id: string): Name {
    Name(OfExpression, id, [])
  }

  function TaskOf(lib: Library, vars: ValueMap, e: RealExpr): Task
    decreases e
  {
    match e.node
    case Real(x) => Leaf(Some(x))
    case Poly(p) => Leaf(if forall v | v in p.variables :: v in vars then Some(PolyValue(p, vars, -1)) else None)
    case Unary(op, a) =>
      Visit(OfExpression, [TaskOf(lib, vars, a)], got => true, got => Some(ApplyUnary(lib, op, ValueAt(got, 0))))
    case Binary(op, a, b) =>
      Visit(OfExpression, [TaskOf(lib, vars, a), TaskOf(lib, vars, b)], got => true,
            got => Some(ApplyBinary(lib, op, ValueAt(got, 0), ValueAt(got, 1))))
    case List(op, args) => Visit(OfExpression, TasksOf(lib, vars, args), got => true, got => Some(Total(op, got)))
    case Reference(n) => Follow(ExpressionName(n))
    case Variable(v) => Leaf(if v in vars then Some(vars[v]) else None)
  }

  function TasksOf(lib: Library, vars: ValueMap, es: seq<RealExpr>): seq<Task>
    decreases es
  {
    if es == [] then [] else [TaskOf(lib, vars, es[0])] + TasksOf(lib, vars, es[1..])
  }

  // Sets

  predicate AllTrue(got: Results) {
    forall r | r in got :: r == Some(1.0)
  }

  function Truth(b: bool): Option<real> {
    Some(if b then 1.0 else 0.0)
  }

  /** The first set that the point is not in ends the test. */
  function Meet(tests: seq<Task>): Task {
    Visit(OfSet, tests, AllTrue, got => Truth(AllTrue(got)))
  }

  function Numbers(got: Results): (vs: seq<real>)
    ensures |vs| == |got|
  {
    seq(|got|, i requires 0 <= i < |got| => ValueAt(got, i))
  }

  /** Each pair of bounds that has been evaluated contains its coordinate. */
  predicate InBounds(vs: seq<real>, point: seq<real>) {
    if |vs| < 2 || point == [] then true
    else (vs[0] <= point[0] <= vs[1] || vs[1] <= point[0] <= vs[0]) && InBounds(vs[2..], point[1..])
  }

  predicate InHalfSpaces(a: seq<real>, b: seq<real>, point: seq<real>) {
    b == [] ||
    (|a| >= |point| && Dot(a[..|point|], point) <= b[0] && InHalfSpaces(a[|point|..], b[1..], point))
  }

  /** The comparison of a point with the numbers in a set; None where the dimensions do not fit. */
  function Compare(s: SetExpr, point: seq<real>, vs: seq<real>): Option<real> {
    var n := |point|;
    match s.node
    case Singleton(_) => if |vs| == n then Truth(point == vs) else None
    case Ball(_, _) => if |vs| == n + 1 then Truth(DistSq(vs[..n], point) <= vs[n] * vs[n]) else None
    case Rectangle(_) => if |vs| == n + n then Truth(InBounds(vs, point)) else None
    case ConvexPolytope(_, b) =>
      if |vs| >= |b| && (forall row | row in s.node.a :: |row| == n) && |s.node.a| == |b|
      then Truth(InHalfSpaces(vs[..|vs| - |b|], vs[|vs| - |b|..], point)) else None
    case _ => None
  }

  function TestOf(lib: Library, vars: ValueMap, s: SetExpr, point: seq<real>): Task
    decreases s
  {
    match s.node
    case Intersection(sets) => Meet(TestsOf(lib, vars, sets, point))
    case SetReference(n) => Follow(Name(OfSet, n, point))
    case Rectangle(_) =>
      Visit(OfSet, TasksOf(lib, vars, Parts(s)), got => InBounds(Numbers(got), point),
            got => Compare(s, point, Numbers(got)))
    case _ =>
      Visit(OfSet, TasksOf(lib, vars, Parts(s)), got => true, got => Compare(s, point, Numbers(got)))
  }

  function TestsOf(lib: Library, vars: ValueMap, sets: seq<SetExpr>, point: seq<real>): seq<Task>
    decreases sets
  {
    if sets == [] then [] else [TestOf(lib, vars, sets[0], point)] + TestsOf(lib, vars, sets[1..], point)
  }

  lemma RectangleTest(lib: Library, vars: ValueMap, s: SetExpr, point: seq<real>, got: Results)
    requires s.node.Rectangle?
    ensures var task := TestOf(lib, vars, s, point);
      && task.Visit? && task.kind == OfSet && task.parts == TasksOf(lib, vars, Parts(s))
      && task.wanted(got) == InBounds(Numbers(got), point) && task.finish(got) == Compare(s, point, Numbers(got))
  {
  }

  // Case distinctions

  function Alternating(cases: seq<(Task, Task)>): seq<Task> {
    if cases == [] then [] else [cases[0].0, cases[0].1] + Alternating(cases[1..])
  }

  /** The value of the case that has been chosen. */
  function Chosen(got: Results): Option<real> {
    ChosenFrom(got, 1)
  }

  function ChosenFrom(got: Results, i: nat): Option<real>
    decreases |got| - i
  {
    if |got| <= i then None else if got[i].Some? then got[i] else ChosenFrom(got, i + 2)
  }

  /** A set is tested as long as no case has been chosen, an expression evaluated when its set contains the point. */
  predicate CaseWanted(got: Results) {
    if |got| % 2 == 0 then Chosen(got).None? else got[|got| - 1] == Some(1.0)
  }

  /** The cases, each with the test of its set at the point that the variables give. */
  function Cases(cases: seq<(Task, Task)>): Task {
    Visit(OfExpression, Alternating(cases), CaseWanted, Chosen)
  }

  // Expressions without cases

  /** What a run amounts to that makes `size` visits of expressions and has this value. */
  function Within(depth: nat, size: nat, value: real): Answer {
    After(depth, size, Some(value))
  }

  /** The same when there need not be a value. */
  function After(depth: nat, size: nat, r: Option<real>): Answer {
    if depth + size <= MAX_NESTING_DEPTH then Finished(r, depth + size) else Raised
  }

  ghost predicate Knows(w: World, c: Context) {
    forall n | n in c.refs ::
      ExpressionName(n) in w.targets && w.targets[ExpressionName(n)] == TaskOf(c.lib, c.vars, c.refs[n])
  }

  function Somes(lib: Library, vars: ValueMap, ts: seq<Tree>): (got: Results)
    ensures |got| == |ts|
  {
    seq(|ts|, i requires 0 <= i < |ts| => Some(Value(lib, vars, ts[i])))
  }

  lemma {:induction false} SizeAllFirst(ts: seq<Tree>)
    requires ts != []
    ensures SizeAll(ts) == Size(ts[0]) + SizeAll(ts[1..])
  {
    if |ts| > 1 {
      var n := |ts| - 1;
      SizeAllFirst(ts[..n]);
      assert ts[..n][1..] == ts[1..][..n - 1];
    } else {
      assert ts[..0] == [] && ts[1..] == [];
    }
  }

  lemma {:induction false} TotalIsValue(lib: Library, vars: ValueMap, op: ListOp, ts: seq<Tree>)
    ensures Total(op, Somes(lib, vars, ts)) == if op.SumAll? then SumOf(lib, vars, ts) else ProductOf(lib, vars, ts)
  {
    if ts != [] {
      var n := |ts| - 1;
      TotalIsValue(lib, vars, op, ts[..n]);
      assert Somes(lib, vars, ts)[..n] == Somes(lib, vars, ts[..n]);
    }
  }

  lemma OnePart(w: World, task: Task, depth: nat, fuel: nat)
    requires task.Visit? && |task.parts| == 1 && task.wanted([])
    ensures var first := Run(w, task.parts[0], depth, fuel);
      RunParts(w, task.parts, task.wanted, task.finish, [], depth, fuel) ==
      if first.Done? then Finished(task.finish([Some(first.value)]), first.depth) else first
  {
    var first := Run(w, task.parts[0], depth, fuel);
    assert task.parts[1..] == [];
    if first.Done? {
      assert [] + [Some(first.value)] == [Some(first.value)];
    }
  }

  lemma LastPart(w: World, part: Task, wanted: Results -> bool, finish: Results -> Option<real>, got: Results,
                 depth: nat, fuel: nat)
    requires wanted(got)
    ensures var a := Run(w, part, depth, fuel);
      RunParts(w, [part], wanted, finish, got, depth, fuel) ==
      if a.Done? then Finished(finish(got + [Some(a.value)]), a.depth) else a
  {
    assert [part][1..] == [];
  }

  lemma TwoParts(w: World, task: Task, depth: nat, fuel: nat)
    requires task.Visit? && |task.parts| == 2 && task.wanted([])
    requires var first := Run(w, task.parts[0], depth, fuel); first.Done? ==> task.wanted([Some(first.value)])
    ensures var first := Run(w, task.parts[0], depth, fuel);
      RunParts(w, task.parts, task.wanted, task.finish, [], depth, fuel) ==
      if !first.Done? then first
      else
        var second := Run(w, task.parts[1], first.depth, fuel);
        if second.Done? then Finished(task.finish([Some(first.value), Some(second.value)]), second.depth) else second
  {
    var first := Run(w, task.parts[0], depth, fuel);
    if first.Done? {
      assert task.parts[1..] == [task.parts[1]];
      var got: Results := [Some(first.value)];
      assert [] + got == got;
      LastPart(w, task.parts[1], task.wanted, task.finish, got, first.depth, fuel);
      var second := Run(w, task.parts[1], first.depth, fuel);
      if second.Done? {
        assert got + [Some(second.value)] == [Some(first.value), Some(second.value)];
      }
    }
  }

  /** The run of an expression that has an unfolding is what the evaluator does. */
  lemma {:induction false} RunIsEvaluate(w: World, c: Context, e: RealExpr, t: Tree, depth: nat, fuel: nat)
    requires Knows(w, c) && Unfolds(c.refs, e, t) && Bound(c.vars, t)
    requires depth <= MAX_NESTING_DEPTH && fuel >= Size(t)
    ensures Run(w, TaskOf(c.lib, c.vars, e), depth, fuel) == Within(depth, Size(t), Value(c.lib, c.vars, t))
    decreases t, 0
  {
    if depth + 1 <= MAX_NESTING_DEPTH {
      match t
      case TUnary(op, a) =>
        RunIsEvaluate(w, c, e.node.arg, a, depth + 1, fuel);
        OperationRun(w, TaskOf(c.lib, c.vars, e), depth, fuel, Size(a), Value(c.lib, c.vars, a));
      case TBinary(op, a, b) =>
        RunIsEvaluate(w, c, e.node.argA, a, depth + 1, fuel);
        if depth + 1 + Size(a) <= MAX_NESTING_DEPTH {
          RunIsEvaluate(w, c, e.node.argB, b, depth + 1 + Size(a), fuel);
        }
        Operation2Run(w, TaskOf(c.lib, c.vars, e), depth, fuel, Size(a), Value(c.lib, c.vars, a),
                      Size(b), Value(c.lib, c.vars, b));
      case TList(op, args) =>
        ListIsEvaluate(w, c, e, op, args, depth, fuel);
      case TRef(n, target) =>
        RunIsEvaluate(w, c, c.refs[n], target, depth + 1, fuel - 1);
        ReferenceRun(w, ExpressionName(n), depth, fuel, Size(target), Value(c.lib, c.vars, target));
      case TReal(x) => LeafRun(w, x, depth, fuel);
      case TPoly(p) => LeafRun(w, PolyValue(p, c.vars, -1), depth, fuel);
      case TVariable(v) => LeafRun(w, c.vars[v], depth, fuel);
    } else {
      OverBudget(w, c.lib, c.vars, e, depth, fuel);
    }
  }

  lemma OverBudget(w: World, lib: Library, vars: ValueMap, e: RealExpr, depth: nat, fuel: nat)
    requires depth >= MAX_NESTING_DEPTH
    ensures Run(w, TaskOf(lib, vars, e), depth, fuel) == Raised
  {
    var task := TaskOf(lib, vars, e);
    assert (if task.Follow? then task.name.kind else task.kind) == OfExpression;
  }

  lemma ReferenceRun(w: World, n: Name, depth: nat, fuel: nat, size: nat, v: real)
    requires n in w.targets && n.kind.OfExpression? && depth + 1 <= MAX_NESTING_DEPTH && fuel > 0
    requires Run(w, w.targets[n], depth + 1, fuel - 1) == Within(depth + 1, size, v)
    ensures Run(w, Follow(n), depth, fuel) == Within(depth, 1 + size, v)
  {
  }

  lemma LeafRun(w: World, x: real, depth: nat, fuel: nat)
    requires depth <= MAX_NESTING_DEPTH
    ensures Run(w, Leaf(Some(x)), depth, fuel) == Within(depth, 1, x)
  {
  }

  lemma OperationRun(w: World, task: Task, depth: nat, fuel: nat, size: nat, v: real)
    requires task.Visit? && task.kind.OfExpression? && |task.parts| == 1 && task.wanted([])
    requires task.finish([Some(v)]).Some? && depth + 1 <= MAX_NESTING_DEPTH
    requires Run(w, task.parts[0], depth + 1, fuel) == Within(depth + 1, size, v)
    ensures Run(w, task, depth, fuel) == Within(depth, 1 + size, task.finish([Some(v)]).value)
  {
    OnePart(w, task, depth + 1, fuel);
  }

  lemma Operation2Run(w: World, task: Task, depth: nat, fuel: nat, size: nat, v: real, size': nat, v': real)
    requires task.Visit? && task.kind.OfExpression? && |task.parts| == 2 && task.wanted([]) && task.wanted([Some(v)])
    requires task.finish([Some(v), Some(v')]).Some? && depth + 1 <= MAX_NESTING_DEPTH
    requires Run(w, task.parts[0], depth + 1, fuel) == Within(depth + 1, size, v)
    requires depth + 1 + size <= MAX_NESTING_DEPTH ==>
      Run(w, task.parts[1], depth + 1 + size, fuel) == Within(depth + 1 + size, size', v')
    ensures Run(w, task, depth, fuel) == Within(depth, 1 + size + size', task.finish([Some(v), Some(v')]).value)
  {
    TwoParts(w, task, depth + 1, fuel);
  }

  lemma {:induction false} ListIsEvaluate(w: World, c: Context, e: RealExpr, op: ListOp, ts: seq<Tree>,
                                          depth: nat, fuel: nat)
    requires e.node.List? && e.node.listop == op
    requires Knows(w, c) && UnfoldAll(c, e.node.args, ts) && depth + 1 <= MAX_NESTING_DEPTH && fuel > SizeAll(ts)
    ensures Run(w, TaskOf(c.lib, c.vars, e), depth, fuel) ==
            Within(depth, 1 + SizeAll(ts), Value(c.lib, c.vars, TList(op, ts)))
    decreases ts, 1
  {
    var task := TaskOf(c.lib, c.vars, e);
    ListRuns(w, c, e.node.args, ts, task.wanted, task.finish, [], depth + 1, fuel);
    assert [] + Somes(c.lib, c.vars, ts) == Somes(c.lib, c.vars, ts);
    TotalIsValue(c.lib, c.vars, op, ts);
  }

  lemma {:induction false} ListRuns(w: World, c: Context, args: seq<RealExpr>, ts: seq<Tree>, wanted: Results -> bool,
                                    finish: Results -> Option<real>, got: Results, depth: nat, fuel: nat)
    requires Knows(w, c) && UnfoldAll(c, args, ts) && depth <= MAX_NESTING_DEPTH && fuel >= SizeAll(ts)
    requires forall r :: wanted(r)
    ensures RunParts(w, TasksOf(c.lib, c.vars, args), wanted, finish, got, depth, fuel) ==
            After(depth, SizeAll(ts), finish(got + Somes(c.lib, c.vars, ts)))
    decreases ts, 0
  {
    if ts == [] {
      assert got + Somes(c.lib, c.vars, ts) == got;
    } else {
      SizeAllFirst(ts);
      assert Unfolds(c.refs, args[0], ts[0]) && Bound(c.vars, ts[0]);
      RunIsEvaluate(w, c, args[0], ts[0], depth, fuel);
      var size, v := Size(ts[0]), Value(c.lib, c.vars, ts[0]);
      assert got + Somes(c.lib, c.vars, ts) == got + [Some(v)] + Somes(c.lib, c.vars, ts[1..]);
      var total := finish(got + Somes(c.lib, c.vars, ts));
      if depth + size <= MAX_NESTING_DEPTH {
        ListRuns(w, c, args[1..], ts[1..], wanted, finish, got + [Some(v)], depth + size, fuel);
      }
      FirstRuns(w, TaskOf(c.lib, c.vars, args[0]), TasksOf(c.lib, c.vars, args[1..]), wanted, finish, got, depth, fuel,
                size, v, SizeAll(ts[1..]), total);
    }
  }

  lemma FirstRuns(w: World, part: Task, rest: seq<Task>, wanted: Results -> bool, finish: Results -> Option<real>,
                  got: Results, depth: nat, fuel: nat, size: nat, v: real, sizes: nat, total: Option<real>)
    requires wanted(got) && Run(w, part, depth, fuel) == Within(depth, size, v)
    requires depth + size <= MAX_NESTING_DEPTH ==>
      RunParts(w, rest, wanted, finish, got + [Some(v)], depth + size, fuel) == After(depth + size, sizes, total)
    ensures RunParts(w, [part] + rest, wanted, finish, got, depth, fuel) == After(depth, size + sizes, total)
  {
    assert ([part] + rest)[1..] == rest;
  }

  lemma FirstRaised(w: World, task: Task, depth: nat, fuel: nat)
    requires task.Visit? && task.kind.OfExpression? && task.parts != [] && task.wanted([])
    requires depth + 1 <= MAX_NESTING_DEPTH && Run(w, task.parts[0], depth + 1, fuel) == Raised
    ensures Run(w, task, depth, fuel) == Raised
  {
  }

  lemma SecondRaised(w: World, task: Task, depth: nat, fuel: nat, size: nat, v: real)
    requires task.Visit? && task.kind.OfExpression? && |task.parts| == 2 && task.wanted([]) && task.wanted([Some(v)])
    requires depth + 1 <= MAX_NESTING_DEPTH && Run(w, task.parts[0], depth + 1, fuel) == Within(depth + 1, size, v)
    requires depth + 1 + size <= MAX_NESTING_DEPTH ==> Run(w, task.parts[1], depth + 1 + size, fuel) == Raised
    ensures Run(w, task, depth, fuel) == Raised
  {
    TwoParts(w, task, depth + 1, fuel);
  }

  /** A variable without a value makes it fail. */
  lemma {:induction false} UnboundRaised(w: World, c: Context, e: RealExpr, t: Tree, depth: nat, fuel: nat)
    requires Knows(w, c) && Unfolds(c.refs, e, t) && !Bound(c.vars, t)
    requires depth <= MAX_NESTING_DEPTH && fuel >= Size(t)
    ensures Run(w, TaskOf(c.lib, c.vars, e), depth, fuel) == Raised
    decreases t, 0
  {
    var task, next := TaskOf(c.lib, c.vars, e), depth + 1;
    if next > MAX_NESTING_DEPTH {
      OverBudget(w, c.lib, c.vars, e, depth, fuel);
    } else {
      match t
      case TUnary(op, a) =>
        UnboundRaised(w, c, e.node.arg, a, next, fuel);
        FirstRaised(w, task, depth, fuel);
      case TBinary(op, a, b) =>
        if Bound(c.vars, a) {
          RunIsEvaluate(w, c, e.node.argA, a, next, fuel);
          var after := next + Size(a);
          if after <= MAX_NESTING_DEPTH {
            UnboundRaised(w, c, e.node.argB, b, after, fuel);
          }
          SecondRaised(w, task, depth, fuel, Size(a), Value(c.lib, c.vars, a));
        } else {
          UnboundRaised(w, c, e.node.argA, a, next, fuel);
          FirstRaised(w, task, depth, fuel);
        }
      case TList(op, args) =>
        UnboundListRaised(w, c, e.node.args, args, task.wanted, task.finish, [], next, fuel);
      case TRef(n, target) =>
        UnboundRaised(w, c, c.refs[n], target, next, fuel - 1);
      case _ =>
    }
  }

  lemma {:induction false} UnboundListRaised(w: World, c: Context, args: seq<RealExpr>, ts: seq<Tree>,
                                             wanted: Results -> bool, finish: Results -> Option<real>, got: Results,
                                             depth: nat, fuel: nat)
    requires Knows(w, c) && |ts| == |args| && forall i | 0 <= i < |ts| :: Unfolds(c.refs, args[i], ts[i])
    requires depth <= MAX_NESTING_DEPTH && fuel >= SizeAll(ts) && forall r :: wanted(r)
    requires exists i :: 0 <= i < |ts| && !Bound(c.vars, ts[i])
    ensures RunParts(w, TasksOf(c.lib, c.vars, args), wanted, finish, got, depth, fuel) == Raised
    decreases ts, 0
  {
    SizeAllFirst(ts);
    var part, rest := TaskOf(c.lib, c.vars, args[0]), TasksOf(c.lib, c.vars, args[1..]);
    assert ([part] + rest)[1..] == rest;
    if Bound(c.vars, ts[0]) {
      RunIsEvaluate(w, c, args[0], ts[0], depth, fuel);
      var first := Run(w, part, depth, fuel);
      if first.Done? {
        var i :| 0 <= i < |ts| && !Bound(c.vars, ts[i]);
        assert ts[1..][i - 1] == ts[i];
        UnboundListRaised(w, c, args[1..], ts[1..], wanted, finish, got + [Some(first.value)], first.depth, fuel);
      }
    } else {
      UnboundRaised(w, c, args[0], ts[0], depth, fuel);
    }
  }

  ghost predicate KnowsOnly(w: World, c: Context) {
    forall n | ExpressionName(n) in w.targets :: n in c.refs
  }

  /** And only an expression that has an unfolding, with all variables bound, gets a value. */
  lemma {:induction false} DoneUnfolds(w: World, c: Context, e: RealExpr, depth: nat, fuel: nat) returns (t: Tree)
    requires Knows(w, c) && KnowsOnly(w, c) && Run(w, TaskOf(c.lib, c.vars, e), depth, fuel).Done?
    ensures Unfolds(c.refs, e, t) && Bound(c.vars, t)
    decreases fuel, e
  {
    var task := TaskOf(c.lib, c.vars, e);
    match e.node
    case Real(x) => t := TReal(x);
    case Poly(p) => t := TPoly(p);
    case Variable(v) => t := TVariable(v);
    case Unary(op, a) =>
      OnePart(w, task, depth + 1, fuel);
      t := DoneUnfolds(w, c, a, depth + 1, fuel);
      t := TUnary(op, t);
    case Binary(op, a, b) =>
      TwoParts(w, task, depth + 1, fuel);
      var ta := DoneUnfolds(w, c, a, depth + 1, fuel);
      var tb := DoneUnfolds(w, c, b, Run(w, task.parts[0], depth + 1, fuel).depth, fuel);
      t := TBinary(op, ta, tb);
    case List(op, args) =>
      var ts := DoneUnfoldsAll(w, c, args, task.wanted, task.finish, [], depth + 1, fuel, e);
      t := TList(op, ts);
    case Reference(n) =>
      t := DoneUnfolds(w, c, c.refs[n], depth + 1, fuel - 1);
      t := TRef(n, t);
  }

  lemma {:induction false} DoneUnfoldsAll(w: World, c: Context, args: seq<RealExpr>, wanted: Results -> bool,
                                          finish: Results -> Option<real>, got: Results, depth: nat, fuel: nat,
                                          whole: RealExpr) returns (ts: seq<Tree>)
    requires Knows(w, c) && KnowsOnly(w, c) && (forall r :: wanted(r)) && forall i | 0 <= i < |args| :: args[i] < whole
    requires RunParts(w, TasksOf(c.lib, c.vars, args), wanted, finish, got, depth, fuel).Done?
    ensures UnfoldAll(c, args, ts)
    decreases fuel, whole, |args|
  {
    ts := [];
    if args != [] {
      var part, rest := TaskOf(c.lib, c.vars, args[0]), TasksOf(c.lib, c.vars, args[1..]);
      assert ([part] + rest)[1..] == rest;
      var first := Run(w, part, depth, fuel);
      var t := DoneUnfolds(w, c, args[0], depth, fuel);
      ts := DoneUnfoldsAll(w, c, args[1..], wanted, finish, got + [Some(first.value)], first.depth, fuel, whole);
      ts := [t] + ts;
    }
  }

  /** No set is visited. */
  predicate NoSets(t: Task) {
    match t
    case Follow(n) => n.kind.OfExpression?
    case Visit(kind, parts, _, _) => kind.OfExpression? && forall i | 0 <= i < |parts| :: NoSets(parts[i])
  }

  /** Then the counter does what it is for: every run ends, circles or not. */
  lemma {:induction false} ExpressionsEnd(w: World, t: Task, depth: nat, fuel: nat)
    requires NoSets(t) && forall n | n in w.targets :: NoSets(w.targets[n])
    requires depth + fuel >= MAX_NESTING_DEPTH
    ensures !Run(w, t, depth, fuel).Pending?
    ensures Run(w, t, depth, fuel).Done? ==> Run(w, t, depth, fuel).depth > depth
    decreases fuel, t
  {
    var d := Counted(OfExpression, depth);
    if d.Some? {
      match t
      case Follow(n) =>
        if n in w.targets {
          ExpressionsEnd(w, w.targets[n], d.value, fuel - 1);
        }
      case Visit(_, parts, wanted, finish) => ExpressionPartsEnd(w, parts, wanted, finish, [], d.value, fuel);
    }
  }

  lemma {:induction false} ExpressionPartsEnd(w: World, parts: seq<Task>, wanted: Results -> bool,
                                              finish: Results -> Option<real>, got: Results, depth: nat, fuel: nat)
    requires forall i | 0 <= i < |parts| :: NoSets(parts[i])
    requires forall n | n in w.targets :: NoSets(w.targets[n])
    requires depth + fuel >= MAX_NESTING_DEPTH
    ensures var a := RunParts(w, parts, wanted, finish, got, depth, fuel); !a.Pending? && (a.Done? ==> a.depth >= depth)
    decreases fuel, parts
  {
    if parts != [] {
      if !wanted(got) {
        ExpressionPartsEnd(w, parts[1..], wanted, finish, got + [None], depth, fuel);
      } else {
        ExpressionsEnd(w, parts[0], depth, fuel);
        var first := Run(w, parts[0], depth, fuel);
        if first.Done? {
          ExpressionPartsEnd(w, parts[1..], wanted, finish, got + [Some(first.value)], first.depth, fuel);
        }
      }
    }
  }

  /** An expression that refers to itself has no unfolding, and so evaluating it fails. */
  lemma {:induction false} NoUnfolding(refs: RefMap, n: string, name: Option<string>, t: Tree)
    requires n in refs && refs[n] == RealExpr(name, Reference(n))
    ensures !Unfolds(refs, refs[n], t)
    decreases t
  {
    if t.TRef? {
      NoUnfolding(refs, n, name, t.target);
    }
  }

  // Circles among sets

  ghost predicate Leads(w: World, lib: Library, vars: ValueMap, n: string, point: seq<real>, s: SetExpr) {
    Name(OfSet, n, point) in w.targets && w.targets[Name(OfSet, n, point)] == TestOf(lib, vars, s, point)
  }

  /** A set that refers to itself. */
  lemma {:induction false} SelfReference(w: World, lib: Library, vars: ValueMap, n: string, point: seq<real>,
                                         s: SetExpr, depth: nat, fuel: nat)
    requires Leads(w, lib, vars, n, point, s) && s.node == SetReference(n)
    ensures Run(w, TestOf(lib, vars, s, point), depth, fuel).Pending?
    decreases fuel
  {
    if fuel > 0 {
      SelfReference(w, lib, vars, n, point, s, Counted(OfSet, depth).value, fuel - 1);
    }
  }

  /** An intersection that begins with itself, whatever follows. */
  lemma {:induction false} SelfIntersection(w: World, lib: Library, vars: ValueMap, n: string, point: seq<real>,
                                            s: SetExpr, depth: nat, fuel: nat)
    requires Leads(w, lib, vars, n, point, s) && s.node.Intersection?
    requires s.node.sets != [] && s.node.sets[0].node == SetReference(n)
    ensures Run(w, TestOf(lib, vars, s, point), depth, fuel).Pending?
    decreases fuel
  {
    var d := Counted(OfSet, depth).value;
    if fuel > 0 {
      SelfIntersection(w, lib, vars, n, point, s, Counted(OfSet, d).value, fuel - 1);
    }
    var itself := TestOf(lib, vars, s.node.sets[0], point);
    assert itself == Follow(Name(OfSet, n, point));
    assert TestsOf(lib, vars, s.node.sets, point)[0] == itself;
    assert Run(w, itself, d, fuel).Pending?;
  }

  /** The circle of an intersection of a number and itself. */
  function NumberAndItself(n: string, x: real): SetExpr {
    var number := SetExpr(None, Singleton([RealExpr(None, Real(x))]));
    SetExpr(Some(n), Intersection([number, SetExpr(None, SetReference(n))]))
  }

  function NumberTest(lib: Library, vars: ValueMap, x: real): Task {
    TestOf(lib, vars, SetExpr(None, Singleton([RealExpr(None, Real(x))])), [x])
  }

  /** Comparing a number with itself: a visit of the set and one of the expression. */
  lemma NumberRun(w: World, lib: Library, vars: ValueMap, x: real, depth: nat, fuel: nat)
    ensures Run(w, NumberTest(lib, vars, x), depth, fuel) ==
            var d := Counted(OfSet, depth).value;
            if d + 1 <= MAX_NESTING_DEPTH then Done(1.0, d + 1) else Raised
  {
    var task, e, d := NumberTest(lib, vars, x), RealExpr(None, Real(x)), Counted(OfSet, depth).value;
    assert [e][1..] == [];
    assert task.parts == TasksOf(lib, vars, [e]) == [Leaf(Some(x))];
    OnePart(w, task, d, fuel);
    var got: Results := [Some(x)];
    assert Numbers(got) == [x];
  }

  lemma NumberAndItselfParts(lib: Library, vars: ValueMap, n: string, x: real)
    ensures TestOf(lib, vars, NumberAndItself(n, x), [x]).parts ==
            [NumberTest(lib, vars, x), Follow(Name(OfSet, n, [x]))]
  {
    var number := SetExpr(None, Singleton([RealExpr(None, Real(x))]));
    var itself := SetExpr(None, SetReference(n));
    assert NumberAndItself(n, x).node.sets == [number, itself];
    assert [number, itself][1..] == [itself] && [itself][1..] == [];
    assert TestOf(lib, vars, itself, [x]) == Follow(Name(OfSet, n, [x]));
    assert TestsOf(lib, vars, [itself], [x]) == [TestOf(lib, vars, itself, [x])] + TestsOf(lib, vars, [], [x]);
  }

  /** Once round the circle, the counter is four visits on, unless it has to start anew or fails. */
  lemma OnceRound(w: World, lib: Library, vars: ValueMap, n: string, x: real, depth: nat, fuel: nat)
    requires Leads(w, lib, vars, n, [x], NumberAndItself(n, x)) && depth <= MAX_NESTING_DEPTH
    ensures var task := TestOf(lib, vars, NumberAndItself(n, x), [x]);
      Run(w, task, depth, fuel + 1) ==
      if depth == MAX_NESTING_DEPTH - 2 then Raised
      else
        var a := Run(w, task, (depth + 4) % (MAX_NESTING_DEPTH + 1), fuel);
        if a.Done? then Finished(Truth(a.value == 1.0), a.depth) else a
  {
    var task, itself := TestOf(lib, vars, NumberAndItself(n, x), [x]), Follow(Name(OfSet, n, [x]));
    var d := Counted(OfSet, depth).value;
    NumberAndItselfParts(lib, vars, n, x);
    NumberRun(w, lib, vars, x, d, fuel + 1);
    TwoParts(w, task, d, fuel + 1);
    var first := Run(w, task.parts[0], d, fuel + 1);
    if first.Done? {
      var a := Run(w, itself, first.depth, fuel + 1);
      assert a == Run(w, task, Counted(OfSet, first.depth).value, fuel);
      if a.Done? {
        BothTrue(a.value);
      }
    }
  }

  lemma BothTrue(v: real)
    ensures AllTrue([Some(1.0), Some(v)]) <==> v == 1.0
  {
    var got: Results := [Some(1.0), Some(v)];
    assert got[1] in got;
  }

  /** How often the circle is gone round before the counter stands two below its maximum. */
  function Rounds(depth: nat): (k: nat)
    requires depth <= MAX_NESTING_DEPTH
    ensures depth == MAX_NESTING_DEPTH - 2 <==> k == 0
  {
    (MAX_NESTING_DEPTH - 2 - depth + (MAX_NESTING_DEPTH + 1) * Phase(depth)) / 4
  }

  /** How often the counter starts anew until then. */
  function Phase(depth: nat): nat {
    (depth + 2) % 4
  }

  lemma OneRoundLess(depth: nat)
    requires depth <= MAX_NESTING_DEPTH && depth != MAX_NESTING_DEPTH - 2
    ensures Rounds(depth) == Rounds((depth + 4) % (MAX_NESTING_DEPTH + 1)) + 1
  {
  }

  /** Here the counter stops the circle: at its maximum it happens to meet the number, not a set. */
  lemma {:induction false} StoppedByNumber(w: World, lib: Library, vars: ValueMap, n: string, x: real, depth: nat,
                                           fuel: nat)
    requires Leads(w, lib, vars, n, [x], NumberAndItself(n, x)) && depth <= MAX_NESTING_DEPTH
    requires fuel > Rounds(depth)
    ensures Run(w, TestOf(lib, vars, NumberAndItself(n, x), [x]), depth, fuel) == Raised
    decreases fuel
  {
    OnceRound(w, lib, vars, n, x, depth, fuel - 1);
    if depth != MAX_NESTING_DEPTH - 2 {
      OneRoundLess(depth);
      StoppedByNumber(w, lib, vars, n, x, (depth + 4) % (MAX_NESTING_DEPTH + 1), fuel - 1);
    }
  }

  // Circles through cases

  /** An intersection of k intersections of nothing, which contains every point. */
  function Everything(k: nat): Task {
    Meet(seq(k, i => Meet([])))
  }

  lemma {:induction false} EverythingParts(w: World, k: nat, got: Results, depth: nat, fuel: nat)
    requires AllTrue(got) && depth + k <= MAX_NESTING_DEPTH + 1 && depth <= MAX_NESTING_DEPTH
    ensures RunParts(w, seq(k, i => Meet([])), AllTrue, r => Truth(AllTrue(r)), got, depth, fuel) ==
            Done(1.0, (depth + k) % (MAX_NESTING_DEPTH + 1))
    decreases k
  {
    var parts := seq(k, i => Meet([]));
    if k > 0 {
      var d := Counted(OfSet, depth).value;
      assert Run(w, parts[0], depth, fuel) == Done(1.0, d);
      assert parts[1..] == seq(k - 1, i => Meet([]));
      if d > 0 {
        EverythingParts(w, k - 1, got + [Some(1.0)], d, fuel);
      } else {
        assert k == 1;
      }
    }
  }

  lemma EverythingRun(w: World, k: nat, depth: nat, fuel: nat)
    requires depth + 1 + k <= MAX_NESTING_DEPTH + 1
    ensures Run(w, Everything(k), depth, fuel) == Done(1.0, (depth + 1 + k) % (MAX_NESTING_DEPTH + 1))
  {
    if depth + 1 <= MAX_NESTING_DEPTH {
      EverythingParts(w, k, [], depth + 1, fuel);
    }
  }

  /** An expression with one case: for every point, itself. */
  function CaseOfItself(k: nat, n: string): Task {
    Cases([(Everything(k), Follow(ExpressionName(n)))])
  }

  lemma CaseParts(k: nat, n: string)
    ensures CaseOfItself(k, n).parts == [Everything(k), Follow(ExpressionName(n))]
  {
    var cases := [(Everything(k), Follow(ExpressionName(n)))];
    assert cases[1..] == [];
    assert Alternating(cases) == [cases[0].0, cases[0].1] + Alternating([]);
  }

  /** Once round: the expression, k + 1 sets and the reference. */
  lemma OnceThroughCase(w: World, k: nat, n: string, depth: nat, fuel: nat)
    requires ExpressionName(n) in w.targets && w.targets[ExpressionName(n)] == CaseOfItself(k, n)
    requires depth + k + 2 <= MAX_NESTING_DEPTH + 1
    ensures Run(w, CaseOfItself(k, n), depth, fuel + 1) ==
            var d := (depth + k + 2) % (MAX_NESTING_DEPTH + 1);
            if d == MAX_NESTING_DEPTH then Raised else Run(w, CaseOfItself(k, n), d + 1, fuel)
  {
    var task, itself := CaseOfItself(k, n), Follow(ExpressionName(n));
    CaseParts(k, n);
    EverythingRun(w, k, depth + 1, fuel + 1);
    var d := (depth + k + 2) % (MAX_NESTING_DEPTH + 1);
    assert CaseWanted([]) && CaseWanted([Some(1.0)]);
    TwoParts(w, task, depth + 1, fuel + 1);
  }

  /** With 70 sets, one round takes 73 visits, and the counter starts anew after 137 of them, always at a set: the
      expression is evaluated for ever. */
  lemma {:induction false} CaseCircle(w: World, n: string, depth: nat, fuel: nat)
    requires ExpressionName(n) in w.targets && w.targets[ExpressionName(n)] == CaseOfItself(70, n)
    requires depth % 73 == 1 && depth <= MAX_NESTING_DEPTH
    ensures Run(w, CaseOfItself(70, n), depth, fuel).Pending?
    decreases fuel
  {
    if fuel > 0 {
      var less := fuel - 1;
      var d := NextOnCircle(depth);
      OnceThroughCase(w, 70, n, depth, less);
      CaseCircle(w, n, d + 1, less);
    } else {
      CaseNotDone(w, n, depth);
    }
  }

  lemma NextOnCircle(depth: nat) returns (d: nat)
    requires depth % 73 == 1 && depth <= MAX_NESTING_DEPTH
    ensures d == (depth + 70 + 2) % (MAX_NESTING_DEPTH + 1) && d != MAX_NESTING_DEPTH && (d + 1) % 73 == 1
    ensures depth + 70 + 2 <= MAX_NESTING_DEPTH + 1
  {
    d := (depth + 70 + 2) % (MAX_NESTING_DEPTH + 1);
  }

  lemma CaseNotDone(w: World, n: string, depth: nat)
    requires ExpressionName(n) in w.targets && depth % 73 == 1 && depth <= MAX_NESTING_DEPTH
    ensures Run(w, CaseOfItself(70, n), depth, 0).Pending?
  {
    CaseParts(70, n);
    EverythingRun(w, 70, depth + 1, 0);
    assert CaseWanted([]) && CaseWanted([Some(1.0)]);
    TwoParts(w, CaseOfItself(70, n), depth + 1, 0);
  }

  lemma CaseNeverEnds(w: World, n: string)
    requires ExpressionName(n) in w.targets && w.targets[ExpressionName(n)] == CaseOfItself(70, n)
    ensures NeverEnds(w, Follow(ExpressionName(n)), 0)
  {
    forall fuel: nat ensures Run(w, Follow(ExpressionName(n)), 0, fuel).Pending? {
      if fuel > 0 {
        CaseCircle(w, n, 1, fuel - 1);
      }
    }
  }

  /** With a single set the counter stops the circle: at its maximum it meets the expression. */
  lemma {:induction false} StoppedByCase(w: World, n: string, depth: nat, fuel: nat)
    requires ExpressionName(n) in w.targets && w.targets[ExpressionName(n)] == CaseOfItself(0, n)
    requires depth % 3 == 1 && depth <= MAX_NESTING_DEPTH && fuel >= MAX_NESTING_DEPTH - depth
    ensures Run(w, CaseOfItself(0, n), depth, fuel) == Raised
    decreases fuel
  {
    var less, d := fuel - 1, (depth + 0 + 2) % (MAX_NESTING_DEPTH + 1);
    if depth < MAX_NESTING_DEPTH {
      assert d == depth + 2;
      OnceThroughCase(w, 0, n, depth, less);
      StoppedByCase(w, n, d + 1, less);
    }
  }
}
