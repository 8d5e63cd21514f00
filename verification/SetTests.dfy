/** The membership functions of adv-interpreter.hpp: the run of the test of a set says whether the point lies in the set
    that its expressions evaluate to. */
module SetTests {
  import opened Circles
  import opened Expressions
  import opened Interpreter
  import opened References
  import opened Vectors
  import opened VisitCounter
  import opened Wrappers
  import P = Projections

  /** A set made of numbers, and not of other sets. */
  predicate Basic(s: SetExpr) {
    !s.node.Intersection? && !s.node.SetReference?
  }

  /** As many coordinates as the point has. */
  predicate HasDimension(s: SetExpr, n: nat)
    requires Basic(s)
  {
    match s.node
    case Singleton(es) => |es| == n
    case Ball(center, _) => |center| == n
    case Rectangle(bounds) => |bounds| == n
    case ConvexPolytope(a, b) => |a| == |b| && forall row | row in a :: |row| == n
  }

  /** The numbers in pairs. */
  function Pairs(vs: seq<real>): (r: seq<(real, real)>)
    ensures |r| == |vs| / 2
  {
    if |vs| < 2 then [] else [(vs[0], vs[1])] + Pairs(vs[2..])
  }

  /** A half-space for every row of the matrix and number on the right-hand side. */
  function HalfSpaces(rows: seq<seq<RealExpr>>, a: seq<real>, b: seq<real>): (r: seq<P.ConvexSet>)
    requires |a| == |Flatten(rows)| && |b| == |rows|
    ensures |r| == |rows|
  {
    if rows == [] then []
    else
      var n := |rows[0]|;
      [P.HalfSpace(a[..n], b[0])] + HalfSpaces(rows[1..], a[n..], b[1..])
  }

  /** The sets whose intersection is given by the values of the expressions in a set. */
  function Evaluated(s: SetExpr, vs: seq<real>): seq<P.ConvexSet>
    requires Basic(s) && |vs| == |Parts(s)|
  {
    match s.node
    case Singleton(_) => [P.Singleton(vs)]
    case Ball(center, _) => [P.Ball(vs[..|center|], vs[|center|])]
    case Rectangle(_) => [P.Rectangle(Pairs(vs))]
    case ConvexPolytope(a, b) =>
      if |a| == |b| then HalfSpaces(a, vs[..|vs| - |b|], vs[|vs| - |b|..]) else []
  }

  ghost predicate InAll(sets: seq<P.ConvexSet>, point: Vec) {
    forall h | h in sets :: P.InSet(h, point)
  }

  lemma {:induction false} EndsLength(bounds: seq<(RealExpr, RealExpr)>)
    ensures |Ends(bounds)| == |bounds| + |bounds|
  {
    if bounds != [] {
      EndsLength(bounds[1..]);
    }
  }

  lemma {:induction false} InBoundsExactly(vs: seq<real>, point: seq<real>)
    requires |vs| == |point| + |point|
    ensures InBounds(vs, point) <==> P.InSet(P.Rectangle(Pairs(vs)), point)
  {
    if point != [] {
      var all, rest := P.Rectangle(Pairs(vs)), P.Rectangle(Pairs(vs[2..]));
      InBoundsExactly(vs[2..], point[1..]);
      if P.InSet(all, point) {
        assert P.InInterval(all.bounds[0], point[0]);
        forall i | 0 <= i < |point[1..]| ensures P.InInterval(rest.bounds[i], point[1..][i]) {
          assert P.InInterval(all.bounds[i + 1], point[i + 1]);
        }
      }
      if InBounds(vs, point) {
        forall i | 0 <= i < |point| ensures P.InInterval(all.bounds[i], point[i]) {
          if i > 0 {
            assert P.InInterval(rest.bounds[i - 1], point[1..][i - 1]);
          }
        }
      }
    }
  }

  lemma {:induction false} InHalfSpacesExactly(rows: seq<seq<RealExpr>>, a: seq<real>, b: seq<real>, point: seq<real>)
    requires |a| == |Flatten(rows)| && |b| == |rows| && forall row | row in rows :: |row| == |point|
    ensures InHalfSpaces(a, b, point) <==> InAll(HalfSpaces(rows, a, b), point)
  {
    if rows != [] {
      var n := |rows[0]|;
      assert rows[0] in rows && forall row | row in rows[1..] :: row in rows;
      InHalfSpacesExactly(rows[1..], a[n..], b[1..], point);
      var first, rest := P.HalfSpace(a[..n], b[0]), HalfSpaces(rows[1..], a[n..], b[1..]);
      assert InAll([first] + rest, point) <==> P.InSet(first, point) && InAll(rest, point);
    }
  }

  lemma InOne(h: P.ConvexSet, point: Vec)
    ensures InAll([h], point) <==> P.InSet(h, point)
  {
  }

  lemma ComparePolytope(s: SetExpr, point: seq<real>, vs: seq<real>)
    requires s.node.ConvexPolytope? && |vs| == |Parts(s)| && HasDimension(s, |point|)
    ensures Compare(s, point, vs) == Truth(InAll(Evaluated(s, vs), point))
  {
    var b := |s.node.b|;
    InHalfSpacesExactly(s.node.a, vs[..|vs| - b], vs[|vs| - b..], point);
  }

  lemma CompareRectangle(s: SetExpr, point: seq<real>, vs: seq<real>)
    requires s.node.Rectangle? && |vs| == |Parts(s)|
    ensures Compare(s, point, vs) ==
            if HasDimension(s, |point|) then Truth(InAll(Evaluated(s, vs), point)) else None
  {
    EndsLength(s.node.bounds);
    if HasDimension(s, |point|) {
      InBoundsExactly(vs, point);
      InOne(P.Rectangle(Pairs(vs)), point);
    }
  }

  /** Comparing a point with the numbers in a set says whether it lies in the set of these numbers. */
  lemma CompareExactly(s: SetExpr, point: seq<real>, vs: seq<real>)
    requires Basic(s) && |vs| == |Parts(s)|
    ensures Compare(s, point, vs) ==
            if HasDimension(s, |point|) then Truth(InAll(Evaluated(s, vs), point)) else None
  {
    match s.node
    case Singleton(_) => InOne(P.Singleton(vs), point);
    case Ball(center, _) => InOne(P.Ball(vs[..|center|], vs[|center|]), point);
    case Rectangle(_) => CompareRectangle(s, point, vs);
    case ConvexPolytope(_, _) =>
      if HasDimension(s, |point|) {
        ComparePolytope(s, point, vs);
      }
  }

  // The run of a test

  /** The test says whether the point is in the set; all the expressions in it are visited, unless the point is found
      to be outside before. */
  ghost predicate Tells(a: Answer, depth: nat, size: nat, member: bool) {
    match a
    case Done(x, d) => x == (if member then 1.0 else 0.0) && d <= depth + size && (member ==> d == depth + size)
    case Raised => depth + size > MAX_NESTING_DEPTH
    case Pending => false
  }

  function ValuesOf(lib: Library, vars: ValueMap, ts: seq<Tree>): (vs: seq<real>)
    ensures |vs| == |ts|
  {
    seq(|ts|, i requires 0 <= i < |ts| => Value(lib, vars, ts[i]))
  }

  lemma {:induction false} OutOfBounds(vs: seq<real>, more: seq<real>, point: seq<real>)
    requires !InBounds(vs, point)
    ensures !InBounds(vs + more, point)
  {
    var all := vs + more;
    assert all[0] == vs[0] && all[1] == vs[1] && all[2..] == vs[2..] + more;
    if !InBounds(vs[2..], point[1..]) {
      OutOfBounds(vs[2..], more, point[1..]);
    }
  }

  /** How a rectangle is tested: a pair of bounds is evaluated as long as all pairs before contain their coordinates. */
  ghost predicate TestsBounds(s: SetExpr, point: seq<real>, wanted: Results -> bool, finish: Results -> Option<real>) {
    && s.node.Rectangle?
    && forall r: Results :: (wanted(r) <==> InBounds(Numbers(r), point)) && finish(r) == Compare(s, point, Numbers(r))
  }

  lemma {:induction false} BoundsSkipped(w: World, parts: seq<Task>, s: SetExpr, point: seq<real>,
                                         wanted: Results -> bool, finish: Results -> Option<real>, got: Results,
                                         depth: nat, fuel: nat)
    requires TestsBounds(s, point, wanted, finish) && |got| + |parts| == |point| + |point|
    requires !InBounds(Numbers(got), point)
    ensures RunParts(w, parts, wanted, finish, got, depth, fuel) == Done(0.0, depth)
    decreases |parts|
  {
    assert !wanted(got);
    if parts == [] {
      assert finish(got) == Truth(false);
    } else {
      var longer := got + [None];
      assert Numbers(longer) == Numbers(got) + [0.0];
      OutOfBounds(Numbers(got), [0.0], point);
      BoundsSkipped(w, parts[1..], s, point, wanted, finish, longer, depth, fuel);
    }
  }

  lemma PairNext(w: World, part: Task, rest: seq<Task>, wanted: Results -> bool, finish: Results -> Option<real>,
                 got: Results, depth: nat, fuel: nat, size: nat, v: real, sizes: nat, member: bool)
    requires wanted(got) && Run(w, part, depth, fuel) == Within(depth, size, v)
    requires depth + size <= MAX_NESTING_DEPTH ==>
      Tells(RunParts(w, rest, wanted, finish, got + [Some(v)], depth + size, fuel), depth + size, sizes, member)
    ensures Tells(RunParts(w, [part] + rest, wanted, finish, got, depth, fuel), depth, size + sizes, member)
  {
    assert ([part] + rest)[1..] == rest;
  }

  lemma ValuesNext(lib: Library, vars: ValueMap, ts: seq<Tree>, got: Results, longer: Results, vs: seq<real>)
    requires ts != [] && longer == got + [Some(Value(lib, vars, ts[0]))]
    requires vs == Numbers(got) + ValuesOf(lib, vars, ts)
    ensures vs == Numbers(longer) + ValuesOf(lib, vars, ts[1..])
  {
    var v := Value(lib, vars, ts[0]);
    assert ValuesOf(lib, vars, ts) == [v] + ValuesOf(lib, vars, ts[1..]);
    assert Numbers(longer) == Numbers(got) + [v];
  }

  /** Nothing is left to be run, or the point is already out of bounds. */
  lemma BoundsEnd(w: World, parts: seq<Task>, s: SetExpr, point: seq<real>, wanted: Results -> bool,
                  finish: Results -> Option<real>, got: Results, depth: nat, fuel: nat, rest: seq<real>)
    requires TestsBounds(s, point, wanted, finish) && |got| + |parts| == |point| + |point| && |rest| == |parts|
    requires parts == [] || !InBounds(Numbers(got), point)
    ensures RunParts(w, parts, wanted, finish, got, depth, fuel) ==
            Done(if InBounds(Numbers(got) + rest, point) then 1.0 else 0.0, depth)
    ensures parts != [] ==> !InBounds(Numbers(got) + rest, point)
  {
    if !InBounds(Numbers(got), point) {
      BoundsSkipped(w, parts, s, point, wanted, finish, got, depth, fuel);
      OutOfBounds(Numbers(got), rest, point);
    } else {
      assert Numbers(got) + rest == Numbers(got);
      assert finish(got) == Truth(true);
    }
  }

  lemma {:induction false} BoundsRun(w: World, c: Context, args: seq<RealExpr>, ts: seq<Tree>, s: SetExpr,
                                     point: seq<real>, wanted: Results -> bool, finish: Results -> Option<real>,
                                     got: Results, depth: nat, fuel: nat, vs: seq<real>)
    requires TestsBounds(s, point, wanted, finish) && |got| + |args| == |point| + |point|
    requires Knows(w, c) && UnfoldAll(c, args, ts) && depth <= MAX_NESTING_DEPTH && fuel >= SizeAll(ts)
    requires vs == Numbers(got) + ValuesOf(c.lib, c.vars, ts)
    ensures Tells(RunParts(w, TasksOf(c.lib, c.vars, args), wanted, finish, got, depth, fuel), depth, SizeAll(ts),
                  InBounds(vs, point))
    decreases |ts|
  {
    if ts == [] || !InBounds(Numbers(got), point) {
      TasksCount(c.lib, c.vars, args);
      BoundsEnd(w, TasksOf(c.lib, c.vars, args), s, point, wanted, finish, got, depth, fuel,
                ValuesOf(c.lib, c.vars, ts));
    } else {
      SizeAllFirst(ts);
      FirstOfAll(c, args, ts);
      RunIsEvaluate(w, c, args[0], ts[0], depth, fuel);
      var size, v, sizes := Size(ts[0]), Value(c.lib, c.vars, ts[0]), SizeAll(ts[1..]);
      var longer, depth' := got + [Some(v)], depth + size;
      if depth' <= MAX_NESTING_DEPTH {
        ValuesNext(c.lib, c.vars, ts, got, longer, vs);
        BoundsRun(w, c, args[1..], ts[1..], s, point, wanted, finish, longer, depth', fuel, vs);
      }
      PairNext(w, TaskOf(c.lib, c.vars, args[0]), TasksOf(c.lib, c.vars, args[1..]), wanted, finish, got, depth, fuel,
               size, v, sizes, InBounds(vs, point));
    }
  }

  lemma FirstOfAll(c: Context, args: seq<RealExpr>, ts: seq<Tree>)
    requires UnfoldAll(c, args, ts) && ts != []
    ensures Unfolds(c.refs, args[0], ts[0]) && Bound(c.vars, ts[0]) && UnfoldAll(c, args[1..], ts[1..])
    ensures TasksOf(c.lib, c.vars, args) == [TaskOf(c.lib, c.vars, args[0])] + TasksOf(c.lib, c.vars, args[1..])
  {
  }

  lemma {:induction false} WrongBounds(w: World, c: Context, args: seq<RealExpr>, ts: seq<Tree>, s: SetExpr,
                                       point: seq<real>, wanted: Results -> bool, finish: Results -> Option<real>,
                                       got: Results, depth: nat, fuel: nat)
    requires TestsBounds(s, point, wanted, finish) && |got| + |args| != |point| + |point|
    requires Knows(w, c) && UnfoldAll(c, args, ts) && depth <= MAX_NESTING_DEPTH && fuel >= SizeAll(ts)
    ensures RunParts(w, TasksOf(c.lib, c.vars, args), wanted, finish, got, depth, fuel) == Raised
    decreases |ts|
  {
    if ts == [] {
      assert finish(got) == None;
    } else {
      SizeAllFirst(ts);
      FirstOfAll(c, args, ts);
      var part, rest := TaskOf(c.lib, c.vars, args[0]), TasksOf(c.lib, c.vars, args[1..]);
      assert ([part] + rest)[1..] == rest;
      if wanted(got) {
        RunIsEvaluate(w, c, args[0], ts[0], depth, fuel);
        var first := Run(w, part, depth, fuel);
        if first.Done? {
          WrongBounds(w, c, args[1..], ts[1..], s, point, wanted, finish, got + [Some(first.value)], first.depth, fuel);
        }
      } else {
        WrongBounds(w, c, args[1..], ts[1..], s, point, wanted, finish, got + [None], depth, fuel);
      }
    }
  }

  lemma {:induction false} TasksCount(lib: Library, vars: ValueMap, es: seq<RealExpr>)
    ensures |TasksOf(lib, vars, es)| == |es|
  {
    if es != [] {
      TasksCount(lib, vars, es[1..]);
    }
  }

  /** The test of a set whose expressions have unfoldings. */
  lemma TestRun(w: World, c: Context, s: SetExpr, ts: seq<Tree>, point: seq<real>, depth: nat, fuel: nat)
    requires Knows(w, c) && Basic(s) && UnfoldAll(c, Parts(s), ts) && fuel >= SizeAll(ts)
    ensures var a := Run(w, TestOf(c.lib, c.vars, s, point), depth, fuel);
      if HasDimension(s, |point|)
      then Tells(a, Counted(OfSet, depth).value, SizeAll(ts), InAll(Evaluated(s, ValuesOf(c.lib, c.vars, ts)), point))
      else a == Raised
  {
    var d, vs, task := Counted(OfSet, depth).value, ValuesOf(c.lib, c.vars, ts), TestOf(c.lib, c.vars, s, point);
    var somes := Somes(c.lib, c.vars, ts);
    assert Numbers(somes) == vs && [] + somes == somes;
    CompareExactly(s, point, vs);
    if !s.node.Rectangle? {
      ListRuns(w, c, Parts(s), ts, task.wanted, task.finish, [], d, fuel);
    } else if HasDimension(s, |point|) {
      EndsLength(s.node.bounds);
      assert Numbers([]) + vs == vs;
      BoundsRun(w, c, Parts(s), ts, s, point, task.wanted, task.finish, [], d, fuel, vs);
    } else {
      EndsLength(s.node.bounds);
      WrongBounds(w, c, Parts(s), ts, s, point, task.wanted, task.finish, [], d, fuel);
    }
  }

  // Intersections

  /** The point is in the first k sets, tested one after the other with these values of the counter. */
  ghost predicate Held(w: World, tests: seq<Task>, k: nat, depths: seq<nat>, fuel: nat) {
    && k <= |tests| && |depths| == k + 1
    && forall i | 0 <= i < k :: Holds(w, tests[i], depths[i], depths[i + 1], fuel)
  }

  ghost predicate Holds(w: World, test: Task, before: nat, after: nat, fuel: nat) {
    Run(w, test, before, fuel) == Done(1.0, after)
  }

  /** After the first k sets: it is in all of them, or not in the next, or the next test does not come to an end. */
  ghost predicate Decided(w: World, tests: seq<Task>, k: nat, depth: nat, fuel: nat, a: Answer) {
    if k >= |tests| then a == Done(1.0, depth)
    else
      var test := Run(w, tests[k], depth, fuel);
      if test.Done? then test.value != 1.0 && a == Done(0.0, test.depth) else a == test
  }

  lemma {:induction false} RestSkipped(w: World, tests: seq<Task>, got: Results, depth: nat, fuel: nat)
    requires !AllTrue(got)
    ensures RunParts(w, tests, AllTrue, r => Truth(AllTrue(r)), got, depth, fuel) == Done(0.0, depth)
    decreases |tests|
  {
    if tests != [] {
      var longer := got + [None];
      var r :| r in got && r != Some(1.0);
      assert r in longer;
      RestSkipped(w, tests[1..], longer, depth, fuel);
    }
  }

  lemma HeldNext(w: World, tests: seq<Task>, k: nat, depths: seq<nat>, depth: nat, fuel: nat)
    requires tests != [] && Held(w, tests[1..], k, depths, fuel) && Holds(w, tests[0], depth, depths[0], fuel)
    ensures Held(w, tests, k + 1, [depth] + depths, fuel)
  {
    var all := [depth] + depths;
    forall i | 0 <= i < k + 1 ensures Holds(w, tests[i], all[i], all[i + 1], fuel) {
      if i > 0 {
        assert Holds(w, tests[1..][i - 1], depths[i - 1], depths[i - 1 + 1], fuel);
      }
    }
  }

  lemma {:induction false} MeetFrom(w: World, tests: seq<Task>, got: Results, depth: nat, fuel: nat)
    returns (k: nat, depths: seq<nat>)
    requires AllTrue(got)
    ensures Held(w, tests, k, depths, fuel) && depths[0] == depth
    ensures Decided(w, tests, k, depths[k], fuel,
                    RunParts(w, tests, AllTrue, r => Truth(AllTrue(r)), got, depth, fuel))
    decreases |tests|
  {
    k, depths := 0, [depth];
    if tests != [] {
      var test := Run(w, tests[0], depth, fuel);
      if test.Done? {
        var longer := got + [Some(test.value)];
        if test.value == 1.0 {
          k, depths := MeetFrom(w, tests[1..], longer, test.depth, fuel);
          HeldNext(w, tests, k, depths, depth, fuel);
          k, depths := k + 1, [depth] + depths;
        } else {
          assert longer[|got|] in longer;
          RestSkipped(w, tests[1..], longer, test.depth, fuel);
        }
      }
    }
  }

  /** The point is in an intersection when it is in all the sets, and the first set it is not in ends the test. */
  lemma MeetRun(w: World, tests: seq<Task>, depth: nat, fuel: nat) returns (k: nat, depths: seq<nat>)
    ensures Held(w, tests, k, depths, fuel) && depths[0] == Counted(OfSet, depth).value
    ensures Decided(w, tests, k, depths[k], fuel, Run(w, Meet(tests), depth, fuel))
  {
    k, depths := MeetFrom(w, tests, [], Counted(OfSet, depth).value, fuel);
  }
}
