/** adv-interpreter-eval.cpp and adv-interpreter.cpp: the evaluator. Every visit of an expression adds one to
    a counter that is not taken down again, so that following references in a circle comes to an end. */
module Interpreter {
  import opened Expressions
  import opened Derivatives
  import opened Occurrences
  import opened References
  import opened Wrappers

  const MAX_NESTING_DEPTH: nat := 10000

  datatype Error =
    | MaxNestingDepth
    | UnknownReference(ref: string)
    | UnknownVariable(variable: string)
    | OutOfRange(variable: string)

  datatype Result<T> = Ok(value: T) | Err(error: Error)

  datatype Context = Context(lib: Library, refs: RefMap, vars: ValueMap)

  /** Evaluating e, with the counter at `start` before e was entered and at `depth` afterwards, gave r: the
      value of the unfolding t, or an error, and then no unfolding fits into the rest of the budget. */
  ghost predicate Outcome(c: Context, e: RealExpr, start: nat, depth: nat, r: Result<real>, t: Tree) {
    match r
    case Ok(v) =>
      && Unfolds(c.refs, e, t) && Bound(c.vars, t)
      && depth == start + Size(t) <= MAX_NESTING_DEPTH
      && v == Value(c.lib, c.vars, t)
    case Err(error) => TooLarge(c, e, start) && Justified(c, depth, error)
  }

  ghost predicate TooLarge(c: Context, e: RealExpr, start: nat) {
    forall t | Unfolds(c.refs, e, t) && Bound(c.vars, t) :: start + Size(t) > MAX_NESTING_DEPTH
  }

  ghost predicate Justified(c: Context, depth: nat, error: Error) {
    match error
    case MaxNestingDepth => depth == MAX_NESTING_DEPTH + 1
    case UnknownReference(n) => n !in c.refs
    case UnknownVariable(v) => v !in c.vars
    case OutOfRange(v) => v !in c.vars
  }

  /** The arguments before the i-th have been evaluated, to the trees ts. */
  ghost predicate Evaluated(c: Context, args: seq<RealExpr>, start: nat, depth: nat, ts: seq<Tree>) {
    && |ts| <= |args| && depth == start + SizeAll(ts) <= MAX_NESTING_DEPTH
    && forall i | 0 <= i < |ts| :: Unfolds(c.refs, args[i], ts[i]) && Bound(c.vars, ts[i])
  }

  lemma EvaluatedNext(c: Context, args: seq<RealExpr>, start: nat, depth: nat, ts: seq<Tree>, r: Result<real>,
                      depth': nat, t: Tree)
    requires Evaluated(c, args, start, depth, ts) && |ts| < |args|
    requires Outcome(c, args[|ts|], depth, depth', r, t) && r.Ok?
    ensures Evaluated(c, args, start, depth', ts + [t])
    ensures (ts + [t])[..|ts|] == ts
  {
    var longer := ts + [t];
    assert longer[..|ts|] == ts;
    assert SizeAll(longer) == SizeAll(ts) + Size(t);
    forall i | 0 <= i < |longer| ensures Unfolds(c.refs, args[i], longer[i]) && Bound(c.vars, longer[i]) {
      assert i < |ts| ==> longer[i] == ts[i];
    }
  }

  /** When an argument fails, so does the whole list: any unfolding of it begins with the same trees. */
  lemma ListTooLarge(c: Context, op: ListOp, args: seq<RealExpr>, name: Option<string>, start: nat, depth: nat,
                     ts: seq<Tree>)
    requires Evaluated(c, args, start + 1, depth, ts) && |ts| < |args| && TooLarge(c, args[|ts|], depth)
    ensures TooLarge(c, RealExpr(name, List(op, args)), start)
  {
    VectorTooLarge(c, args, start + 1, depth, ts);
    forall t | Unfolds(c.refs, RealExpr(name, List(op, args)), t) && Bound(c.vars, t)
      ensures start + Size(t) > MAX_NESTING_DEPTH
    {
      assert UnfoldAll(c, args, t.args);
    }
  }

  /** The same for the derivative by x: when e has an unfolding, the result is decided by its cost. */
  ghost predicate DOutcome(c: Context, x: string, e: RealExpr, start: nat, depth: nat, r: Result<real>) {
    match r
    case Ok(v) =>
      && depth <= MAX_NESTING_DEPTH
      && forall t | Unfolds(c.refs, e, t) && Bound(c.vars, t) ::
           depth == start + DCost(c.lib, c.vars, t) && v == DValue(c.lib, c.vars, x, t)
    case Err(error) => DTooLarge(c, e, start) && Justified(c, depth, error)
  }

  ghost predicate DTooLarge(c: Context, e: RealExpr, start: nat) {
    forall t | Unfolds(c.refs, e, t) && Bound(c.vars, t) :: start + DCost(c.lib, c.vars, t) > MAX_NESTING_DEPTH
  }

  /** The first n arguments have been derived. */
  ghost predicate Derived(c: Context, args: seq<RealExpr>, start: nat, depth: nat, n: nat) {
    && n <= |args| && depth <= MAX_NESTING_DEPTH
    && forall ts: seq<Tree> | UnfoldAll(c, args, ts) :: depth == start + DCostTo(c.lib, c.vars, ts, n)
  }

  ghost predicate UnfoldAll(c: Context, args: seq<RealExpr>, ts: seq<Tree>) {
    |ts| == |args| && forall i | 0 <= i < |ts| :: Unfolds(c.refs, args[i], ts[i]) && Bound(c.vars, ts[i])
  }

  lemma DerivedNext(c: Context, x: string, args: seq<RealExpr>, start: nat, depth: nat, n: nat, depth': nat,
                    r: Result<real>)
    requires Derived(c, args, start, depth, n) && n < |args| && r.Ok?
    requires DOutcome(c, x, args[n], depth, depth', r)
    ensures Derived(c, args, start, depth', n + 1)
  {
    forall ts: seq<Tree> | UnfoldAll(c, args, ts) ensures depth' == start + DCostTo(c.lib, c.vars, ts, n + 1) {
      assert depth == start + DCostTo(c.lib, c.vars, ts, n);
      assert Unfolds(c.refs, args[n], ts[n]) && Bound(c.vars, ts[n]);
    }
  }

  /** When one argument fails, so does the list; `before` counts what was spent on values. */
  lemma DListTooLarge(c: Context, op: ListOp, args: seq<RealExpr>, name: Option<string>, start: nat, before: nat,
                      depth: nat, n: nat)
    requires Derived(c, args, before, depth, n) && n < |args| && DTooLarge(c, args[n], depth)
    requires forall ts: seq<Tree> | UnfoldAll(c, args, ts) ::
      before == start + 1 + (if op == ProdAll then SizeAll(ts) else 0)
    ensures DTooLarge(c, RealExpr(name, List(op, args)), start)
  {
    forall t | Unfolds(c.refs, RealExpr(name, List(op, args)), t) && Bound(c.vars, t)
      ensures start + DCost(c.lib, c.vars, t) > MAX_NESTING_DEPTH
    {
      assert UnfoldAll(c, args, t.args);
      DCostMonotone(c.lib, c.vars, t.args, n + 1, |args|);
      assert Unfolds(c.refs, args[n], t.args[n]) && Bound(c.vars, t.args[n]);
    }
  }

  /** When the values of a product's arguments cannot be had, neither can the derivative. */
  lemma ValuesTooLarge(c: Context, args: seq<RealExpr>, name: Option<string>, start: nat)
    requires forall ts: seq<Tree> | UnfoldAll(c, args, ts) :: start + 1 + SizeAll(ts) > MAX_NESTING_DEPTH
    ensures DTooLarge(c, RealExpr(name, List(ProdAll, args)), start)
  {
    forall t | Unfolds(c.refs, RealExpr(name, List(ProdAll, args)), t) && Bound(c.vars, t)
      ensures start + DCost(c.lib, c.vars, t) > MAX_NESTING_DEPTH
    {
      assert UnfoldAll(c, args, t.args);
    }
  }

  /** The two arguments of an operation, evaluated ... */
  ghost predicate BothOutcome(c: Context, argA: RealExpr, argB: RealExpr, start: nat, depth: nat,
                              r: Result<(real, real)>, ta: Tree, tb: Tree)
  {
    match r
    case Ok(v) =>
      && Unfolds(c.refs, argA, ta) && Bound(c.vars, ta) && Unfolds(c.refs, argB, tb) && Bound(c.vars, tb)
      && depth == start + Size(ta) + Size(tb) <= MAX_NESTING_DEPTH
      && v == (Value(c.lib, c.vars, ta), Value(c.lib, c.vars, tb))
    case Err(error) =>
      && Justified(c, depth, error)
      && forall ta, tb | BothUnfold(c, argA, argB, ta, tb) :: start + Size(ta) + Size(tb) > MAX_NESTING_DEPTH
  }

  ghost predicate BothUnfold(c: Context, argA: RealExpr, argB: RealExpr, ta: Tree, tb: Tree) {
    Unfolds(c.refs, argA, ta) && Bound(c.vars, ta) && Unfolds(c.refs, argB, tb) && Bound(c.vars, tb)
  }

  /** ... and derived. */
  ghost predicate BothDerived(c: Context, x: string, argA: RealExpr, argB: RealExpr, start: nat, depth: nat,
                              r: Result<(real, real)>)
  {
    match r
    case Ok(d) =>
      && depth <= MAX_NESTING_DEPTH
      && forall ta, tb | BothUnfold(c, argA, argB, ta, tb) ::
           && depth == start + DCost(c.lib, c.vars, ta) + DCost(c.lib, c.vars, tb)
           && d == (DValue(c.lib, c.vars, x, ta), DValue(c.lib, c.vars, x, tb))
    case Err(error) =>
      && Justified(c, depth, error)
      && forall ta, tb | BothUnfold(c, argA, argB, ta, tb) ::
           start + DCost(c.lib, c.vars, ta) + DCost(c.lib, c.vars, tb) > MAX_NESTING_DEPTH
  }

  /** A binary operation is derived from its arguments' values (v, vdepth), unless it is a sum, and their
      derivatives. */
  lemma UnaryDerived(c: Context, x: string, op: UnaryOp, arg: RealExpr, name: Option<string>, start: nat, depth: nat,
                     depth': nat, v: real, r: Result<real>)
    requires op != Sign && DOutcome(c, x, arg, depth, depth', r)
    requires forall ta | Unfolds(c.refs, arg, ta) && Bound(c.vars, ta) ::
      && depth == start + 1 + (if NeedsValue(op) then Size(ta) else 0)
      && (NeedsValue(op) ==> v == Value(c.lib, c.vars, ta))
    ensures DOutcome(c, x, RealExpr(name, Unary(op, arg)), start, depth',
                     if r.Ok? then Ok(DUnary(c.lib, op, v, r.value)) else r)
  {
    var e := RealExpr(name, Unary(op, arg));
    forall t | Unfolds(c.refs, e, t) && Bound(c.vars, t)
      ensures DCost(c.lib, c.vars, t) == depth - start + DCost(c.lib, c.vars, t.arg)
      ensures r.Ok? ==> DValue(c.lib, c.vars, x, t) == DUnary(c.lib, op, v, r.value)
    {
      assert Unfolds(c.refs, arg, t.arg) && Bound(c.vars, t.arg) && t == TUnary(op, t.arg);
      if r.Ok? {
        ValueUnused(c.lib, op, v, Value(c.lib, c.vars, t.arg), r.value);
      }
    }
  }

  lemma ValueUnused(lib: Library, op: UnaryOp, v: real, v': real, d: real)
    requires NeedsValue(op) ==> v == v'
    ensures DUnary(lib, op, v, d) == DUnary(lib, op, v', d)
  {
  }

  lemma UnaryValueTooLarge(c: Context, op: UnaryOp, arg: RealExpr, name: Option<string>, start: nat, start': nat)
    requires NeedsValue(op) && TooLarge(c, arg, start') && start' == start + 1
    ensures DTooLarge(c, RealExpr(name, Unary(op, arg)), start)
  {
    var e := RealExpr(name, Unary(op, arg));
    forall t | Unfolds(c.refs, e, t) && Bound(c.vars, t) ensures start + DCost(c.lib, c.vars, t) > MAX_NESTING_DEPTH {
      assert start' + Size(t.arg) > MAX_NESTING_DEPTH;
    }
  }

  lemma BinaryDerived(c: Context, x: string, op: BinaryOp, argA: RealExpr, argB: RealExpr, name: Option<string>,
                      start: nat, depth: nat, depth': nat, v: (real, real), r: Result<(real, real)>)
    requires op == Sum || op == Prod || op == Pow
    requires forall ta, tb | BothUnfold(c, argA, argB, ta, tb) ::
      && depth == start + 1 + (if op == Sum then 0 else Size(ta) + Size(tb))
      && (op != Sum ==> v == (Value(c.lib, c.vars, ta), Value(c.lib, c.vars, tb)))
    requires BothDerived(c, x, argA, argB, depth, depth', r)
    ensures DOutcome(c, x, RealExpr(name, Binary(op, argA, argB)), start, depth',
                     if r.Ok? then Ok(DBinary(c.lib, op, v.0, r.value.0, v.1, r.value.1)) else Err(r.error))
  {
    var e := RealExpr(name, Binary(op, argA, argB));
    forall t | Unfolds(c.refs, e, t) && Bound(c.vars, t)
      ensures r.Ok? ==> depth' == start + DCost(c.lib, c.vars, t) &&
                        DBinary(c.lib, op, v.0, r.value.0, v.1, r.value.1) == DValue(c.lib, c.vars, x, t)
      ensures r.Err? ==> start + DCost(c.lib, c.vars, t) > MAX_NESTING_DEPTH
    {
      assert BothUnfold(c, argA, argB, t.argA, t.argB);
      if op == Sum {
        assert DValue(c.lib, c.vars, x, t) == DValue(c.lib, c.vars, x, t.argA) + DValue(c.lib, c.vars, x, t.argB);
      }
    }
  }

  lemma ChoiceDerived(c: Context, x: string, op: BinaryOp, argA: RealExpr, argB: RealExpr, name: Option<string>,
                      start: nat, depth: nat, depth': nat, ta: Tree, tb: Tree, first: bool, r: Result<real>)
    requires (op == Min || op == Max) && BothUnfold(c, argA, argB, ta, tb)
    requires depth == start + 1 + Size(ta) + Size(tb)
    requires first == if op == Min then Value(c.lib, c.vars, ta) <= Value(c.lib, c.vars, tb)
                      else Value(c.lib, c.vars, ta) > Value(c.lib, c.vars, tb)
    requires DOutcome(c, x, if first then argA else argB, depth, depth', r)
    ensures DOutcome(c, x, RealExpr(name, Binary(op, argA, argB)), start, depth', r)
  {
    var e := RealExpr(name, Binary(op, argA, argB));
    var chosen := if first then ta else tb;
    forall t | Unfolds(c.refs, e, t) && Bound(c.vars, t)
      ensures DCost(c.lib, c.vars, t) == depth - start + DCost(c.lib, c.vars, chosen)
      ensures DValue(c.lib, c.vars, x, t) == DValue(c.lib, c.vars, x, chosen)
    {
      UnfoldsOnce(c.refs, argA, ta, t.argA);
      UnfoldsOnce(c.refs, argB, tb, t.argB);
      assert t == TBinary(op, ta, tb);
    }
  }

  class AdvFunc {
    const lib: Library
    var realExprRefs: RefMap
    var setExprRefs: SetRefMap
    var boundVars: ValueMap
    var nestingDepth: nat

    constructor (lib: Library)
      ensures this.lib == lib && realExprRefs == map[] && setExprRefs == map[]
      ensures boundVars == map[] && nestingDepth == 0
    {
      this.lib, realExprRefs, setExprRefs, boundVars, nestingDepth := lib, map[], map[], map[], 0;
    }

    ghost function Ctx(): Context
      reads this
    {
      Context(lib, realExprRefs, boundVars)
    }

    // findReferences

    method FindReferences(expr: RealExpr) returns (ok: bool)
      requires nestingDepth <= MAX_NESTING_DEPTH
      modifies this`realExprRefs, this`nestingDepth
      ensures ok <==> old(nestingDepth) + NodeCount(expr) <= MAX_NESTING_DEPTH
      ensures ok ==> nestingDepth == old(nestingDepth) + NodeCount(expr)
      ensures ok ==> realExprRefs == Enter(old(realExprRefs), Named(expr))
      ensures ok ==> CollectedFrom(old(realExprRefs), realExprRefs, expr)
      decreases expr, 0
    {
      ExpressionCollected(realExprRefs, expr);
      nestingDepth := nestingDepth + 1;
      if nestingDepth > MAX_NESTING_DEPTH {
        return false;
      }
      if expr.name.Some? {
        realExprRefs := realExprRefs[expr.name.value := expr];
      }
      EnterConcat(old(realExprRefs), if expr.name.Some? then [expr] else [], NamedBelow(expr));
      assert realExprRefs == Enter(old(realExprRefs), if expr.name.Some? then [expr] else []);
      match expr.node {
        case Unary(_, arg) =>
          ok := FindReferences(arg);
        case Binary(_, argA, argB) =>
          EnterConcat(realExprRefs, Named(argA), Named(argB));
          ok := FindReferences(argA);
          if ok {
            ok := FindReferences(argB);
          }
        case List(_, args) =>
          ok := FindReferencesInList(args);
        case _ =>
          ok := true;
      }
    }

    method FindReferencesInList(exprs: seq<RealExpr>) returns (ok: bool)
      requires nestingDepth <= MAX_NESTING_DEPTH
      modifies this`realExprRefs, this`nestingDepth
      ensures ok <==> old(nestingDepth) + NodeCountAll(exprs) <= MAX_NESTING_DEPTH
      ensures ok ==> nestingDepth == old(nestingDepth) + NodeCountAll(exprs)
      ensures ok ==> realExprRefs == Enter(old(realExprRefs), NamedAll(exprs))
      decreases exprs, 1
    {
      for i := 0 to |exprs|
        invariant nestingDepth <= MAX_NESTING_DEPTH
        invariant nestingDepth + NodeCountAll(exprs[i..]) == old(nestingDepth) + NodeCountAll(exprs)
        invariant Enter(realExprRefs, NamedAll(exprs[i..])) == Enter(old(realExprRefs), NamedAll(exprs))
      {
        assert exprs[i..][0] == exprs[i] && exprs[i..][1..] == exprs[i + 1..];
        EnterConcat(realExprRefs, Named(exprs[i]), NamedAll(exprs[i + 1..]));
        ok := FindReferences(exprs[i]);
        if !ok {
          return false;
        }
      }
      return true;
    }

    method FindSetReferences(s: SetExpr) returns (ok: bool)
      requires nestingDepth <= MAX_NESTING_DEPTH
      modifies this`realExprRefs, this`setExprRefs, this`nestingDepth
      ensures ok <==> old(nestingDepth) + SetNodeCount(s) <= MAX_NESTING_DEPTH
      ensures ok ==> nestingDepth == old(nestingDepth) + SetNodeCount(s)
      ensures ok ==> realExprRefs == Enter(old(realExprRefs), NamedInSet(s))
      ensures ok ==> setExprRefs == EnterSets(old(setExprRefs), NamedSets(s))
      ensures ok ==> CollectedFromSet(old(realExprRefs), realExprRefs, s)
      ensures ok ==> SetsCollected(old(setExprRefs), setExprRefs, s)
      decreases s, 1
    {
      SetCollected(realExprRefs, s);
      SetNamesCollected(setExprRefs, s);
      nestingDepth := nestingDepth + 1;
      if nestingDepth > MAX_NESTING_DEPTH {
        return false;
      }
      if s.name.Some? {
        setExprRefs := setExprRefs[s.name.value := s];
      }
      EnterSetsConcat(old(setExprRefs), if s.name.Some? then [s] else [], NamedSetsBelow(s));
      assert setExprRefs == EnterSets(old(setExprRefs), if s.name.Some? then [s] else []);
      ok := FindReferencesBelow(s);
    }

    method FindReferencesBelow(s: SetExpr) returns (ok: bool)
      requires nestingDepth <= MAX_NESTING_DEPTH
      modifies this`realExprRefs, this`setExprRefs, this`nestingDepth
      ensures ok <==> old(nestingDepth) + SetNodeCount(s) - 1 <= MAX_NESTING_DEPTH
      ensures ok ==> nestingDepth == old(nestingDepth) + SetNodeCount(s) - 1
      ensures ok ==> realExprRefs == Enter(old(realExprRefs), NamedInSet(s))
      ensures ok ==> setExprRefs == EnterSets(old(setExprRefs), NamedSetsBelow(s))
      ensures ok ==> CollectedFromSet(old(realExprRefs), realExprRefs, s)
      decreases s, 0
    {
      SetCollected(realExprRefs, s);
      match s.node {
        case Singleton(coordinates) =>
          ok := FindReferencesInList(coordinates);
        case Ball(center, radius) =>
          ok := FindReferencesInBall(center, radius);
        case Rectangle(bounds) =>
          ok := FindReferencesInBounds(bounds);
        case ConvexPolytope(a, b) =>
          ok := FindReferencesInPolytope(a, b);
        case Intersection(sets) =>
          ok := FindReferencesInSets(sets);
        case SetReference(_) =>
          ok := true;
      }
    }

    method FindReferencesInBall(center: seq<RealExpr>, radius: RealExpr) returns (ok: bool)
      requires nestingDepth <= MAX_NESTING_DEPTH
      modifies this`realExprRefs, this`nestingDepth
      ensures ok <==> old(nestingDepth) + NodeCountAll(center + [radius]) <= MAX_NESTING_DEPTH
      ensures ok ==> nestingDepth == old(nestingDepth) + NodeCountAll(center + [radius])
      ensures ok ==> realExprRefs == Enter(old(realExprRefs), NamedAll(center + [radius]))
    {
      NamedOne(radius);
      EnterRest(realExprRefs, center, [radius]);
      ok := FindReferencesInList(center);
      if ok {
        ok := FindReferences(radius);
      }
    }

    method FindReferencesInPolytope(a: seq<seq<RealExpr>>, b: seq<RealExpr>) returns (ok: bool)
      requires nestingDepth <= MAX_NESTING_DEPTH
      modifies this`realExprRefs, this`nestingDepth
      ensures ok <==> old(nestingDepth) + NodeCountAll(Flatten(a) + b) <= MAX_NESTING_DEPTH
      ensures ok ==> nestingDepth == old(nestingDepth) + NodeCountAll(Flatten(a) + b)
      ensures ok ==> realExprRefs == Enter(old(realExprRefs), NamedAll(Flatten(a) + b))
    {
      EnterRest(realExprRefs, Flatten(a), b);
      ok := FindReferencesInRows(a);
      if ok {
        ok := FindReferencesInList(b);
      }
    }

    method FindReferencesInBounds(bounds: seq<(RealExpr, RealExpr)>) returns (ok: bool)
      requires nestingDepth <= MAX_NESTING_DEPTH
      modifies this`realExprRefs, this`nestingDepth
      ensures ok <==> old(nestingDepth) + NodeCountAll(Ends(bounds)) <= MAX_NESTING_DEPTH
      ensures ok ==> nestingDepth == old(nestingDepth) + NodeCountAll(Ends(bounds))
      ensures ok ==> realExprRefs == Enter(old(realExprRefs), NamedAll(Ends(bounds)))
    {
      for i := 0 to |bounds|
        invariant nestingDepth <= MAX_NESTING_DEPTH
        invariant nestingDepth + NodeCountAll(Ends(bounds[i..])) == old(nestingDepth) + NodeCountAll(Ends(bounds))
        invariant Enter(realExprRefs, NamedAll(Ends(bounds[i..]))) == Enter(old(realExprRefs), NamedAll(Ends(bounds)))
      {
        ghost var pair, rest := [bounds[i].0, bounds[i].1], Ends(bounds[i + 1..]);
        assert bounds[i..][0] == bounds[i] && bounds[i..][1..] == bounds[i + 1..];
        EnterRest(realExprRefs, pair, rest);
        NamedOne(bounds[i].0);
        NamedOne(bounds[i].1);
        EnterRest(realExprRefs, [bounds[i].0], [bounds[i].1]);
        assert [bounds[i].0] + [bounds[i].1] == pair;
        ok := FindReferences(bounds[i].0);
        if ok {
          ok := FindReferences(bounds[i].1);
        }
        if !ok {
          return false;
        }
      }
      return true;
    }

    method FindReferencesInRows(rows: seq<seq<RealExpr>>) returns (ok: bool)
      requires nestingDepth <= MAX_NESTING_DEPTH
      modifies this`realExprRefs, this`nestingDepth
      ensures ok <==> old(nestingDepth) + NodeCountAll(Flatten(rows)) <= MAX_NESTING_DEPTH
      ensures ok ==> nestingDepth == old(nestingDepth) + NodeCountAll(Flatten(rows))
      ensures ok ==> realExprRefs == Enter(old(realExprRefs), NamedAll(Flatten(rows)))
    {
      for i := 0 to |rows|
        invariant nestingDepth <= MAX_NESTING_DEPTH
        invariant nestingDepth + NodeCountAll(Flatten(rows[i..])) == old(nestingDepth) + NodeCountAll(Flatten(rows))
        invariant Enter(realExprRefs, NamedAll(Flatten(rows[i..]))) == Enter(old(realExprRefs), NamedAll(Flatten(rows)))
      {
        assert rows[i..][0] == rows[i] && rows[i..][1..] == rows[i + 1..];
        EnterRest(realExprRefs, rows[i], Flatten(rows[i + 1..]));
        ok := FindReferencesInList(rows[i]);
        if !ok {
          return false;
        }
      }
      return true;
    }

    method FindReferencesInSets(sets: seq<SetExpr>) returns (ok: bool)
      requires nestingDepth <= MAX_NESTING_DEPTH
      modifies this`realExprRefs, this`setExprRefs, this`nestingDepth
      ensures ok <==> old(nestingDepth) + SetNodeCountAll(sets) <= MAX_NESTING_DEPTH
      ensures ok ==> nestingDepth == old(nestingDepth) + SetNodeCountAll(sets)
      ensures ok ==> realExprRefs == Enter(old(realExprRefs), NamedInSets(sets))
      ensures ok ==> setExprRefs == EnterSets(old(setExprRefs), NamedSetsIn(sets))
      decreases sets, 1
    {
      for i := 0 to |sets|
        invariant nestingDepth <= MAX_NESTING_DEPTH
        invariant nestingDepth + SetNodeCountAll(sets[i..]) == old(nestingDepth) + SetNodeCountAll(sets)
        invariant Enter(realExprRefs, NamedInSets(sets[i..])) == Enter(old(realExprRefs), NamedInSets(sets))
        invariant EnterSets(setExprRefs, NamedSetsIn(sets[i..])) == EnterSets(old(setExprRefs), NamedSetsIn(sets))
      {
        assert sets[i..][0] == sets[i] && sets[i..][1..] == sets[i + 1..];
        EnterConcat(realExprRefs, NamedInSet(sets[i]), NamedInSets(sets[i + 1..]));
        EnterSetsConcat(setExprRefs, NamedSets(sets[i]), NamedSetsIn(sets[i + 1..]));
        ok := FindSetReferences(sets[i]);
        if !ok {
          return false;
        }
      }
      return true;
    }

    /** evaluate: it returns exactly when all names are bound and the expression, with all references
        followed, has no more than 10000 nodes, and then it returns what the expression denotes. */
    method Evaluate(expr: RealExpr, vars: ValueMap) returns (r: Result<real>)
      modifies this`boundVars, this`nestingDepth
      ensures boundVars == vars
      ensures r.Ok? <==> exists t :: Unfolds(realExprRefs, expr, t) && Bound(vars, t) && Size(t) <= MAX_NESTING_DEPTH
      ensures forall t | Unfolds(realExprRefs, expr, t) && r.Ok? :: r.value == Value(lib, vars, t)
      ensures r.Err? ==> Justified(Ctx(), nestingDepth, r.error)
    {
      boundVars := vars;
      nestingDepth := 0;
      ghost var t;
      r, t := Eval(expr);
      if r.Ok? {
        assert Unfolds(realExprRefs, expr, t) && Bound(vars, t) && Size(t) <= MAX_NESTING_DEPTH;
        forall t' | Unfolds(realExprRefs, expr, t') ensures t' == t {
          UnfoldsOnce(realExprRefs, expr, t', t);
        }
      } else {
        assert TooLarge(Ctx(), expr, 0);
        forall t' | Unfolds(realExprRefs, expr, t') && Bound(vars, t') ensures Size(t') > MAX_NESTING_DEPTH {
          assert 0 + Size(t') > MAX_NESTING_DEPTH;
        }
      }
    }

    method Eval(expr: RealExpr) returns (r: Result<real>, ghost t: Tree)
      requires nestingDepth <= MAX_NESTING_DEPTH
      modifies this`nestingDepth
      ensures nestingDepth > old(nestingDepth)
      ensures Outcome(Ctx(), expr, old(nestingDepth), nestingDepth, r, t)
      decreases MAX_NESTING_DEPTH + 1 - nestingDepth, 1
    {
      nestingDepth := nestingDepth + 1;
      t := TReal(0.0);
      if nestingDepth > MAX_NESTING_DEPTH {
        return Err(MaxNestingDepth), t;
      }
      match expr.node {
        case Real(value) =>
          r, t := Ok(value), TReal(value);
        case Unary(op, arg) =>
          r, t := EvalUnary(op, arg, expr.name);
        case Binary(op, argA, argB) =>
          r, t := EvalBinary(op, argA, argB, expr.name);
        case List(op, args) =>
          r, t := EvalList(op, args, expr.name);
        case Poly(poly) =>
          r := EvalPolynomial(poly, -1);
          t := TPoly(poly);
        case Reference(ref) =>
          r, t := EvalRef(ref, expr.name);
        case Variable(variable) =>
          r := EvalVar(variable);
          t := TVariable(variable);
      }
    }

    method EvalUnary(op: UnaryOp, arg: RealExpr, ghost name: Option<string>) returns (r: Result<real>, ghost t: Tree)
      requires 0 < nestingDepth <= MAX_NESTING_DEPTH
      modifies this`nestingDepth
      ensures nestingDepth > old(nestingDepth)
      ensures Outcome(Ctx(), RealExpr(name, Unary(op, arg)), old(nestingDepth) - 1, nestingDepth, r, t)
      decreases MAX_NESTING_DEPTH + 1 - nestingDepth, 2
    {
      r, t := Eval(arg);
      t := TUnary(op, t);
      if r.Ok? {
        r := Ok(ApplyUnary(lib, op, r.value));
      }
    }

    method EvalBinary(op: BinaryOp, argA: RealExpr, argB: RealExpr, ghost name: Option<string>)
      returns (r: Result<real>, ghost t: Tree)
      requires 0 < nestingDepth <= MAX_NESTING_DEPTH
      modifies this`nestingDepth
      ensures nestingDepth > old(nestingDepth)
      ensures Outcome(Ctx(), RealExpr(name, Binary(op, argA, argB)), old(nestingDepth) - 1, nestingDepth, r, t)
      decreases MAX_NESTING_DEPTH + 1 - nestingDepth, 3
    {
      ghost var ta, tb;
      var v;
      v, ta, tb := EvalBoth(argA, argB);
      t := TBinary(op, ta, tb);
      if v.Err? {
        forall t' | Unfolds(realExprRefs, RealExpr(name, Binary(op, argA, argB)), t') && Bound(boundVars, t')
          ensures old(nestingDepth) - 1 + Size(t') > MAX_NESTING_DEPTH
        {
          assert BothUnfold(Ctx(), argA, argB, t'.argA, t'.argB);
        }
        return Err(v.error), t;
      }
      r := Ok(ApplyBinary(lib, op, v.value.0, v.value.1));
    }

    method EvalBoth(argA: RealExpr, argB: RealExpr) returns (r: Result<(real, real)>, ghost ta: Tree, ghost tb: Tree)
      requires 0 < nestingDepth <= MAX_NESTING_DEPTH
      modifies this`nestingDepth
      ensures nestingDepth > old(nestingDepth)
      ensures BothOutcome(Ctx(), argA, argB, old(nestingDepth), nestingDepth, r, ta, tb)
      decreases MAX_NESTING_DEPTH + 1 - nestingDepth, 2
    {
      var a, b;
      a, ta := Eval(argA);
      tb := ta;
      if a.Err? {
        return Err(a.error), ta, tb;
      }
      b, tb := Eval(argB);
      if b.Err? {
        forall ta', tb' | BothUnfold(Ctx(), argA, argB, ta', tb')
          ensures old(nestingDepth) + Size(ta') + Size(tb') > MAX_NESTING_DEPTH
        {
          UnfoldsOnce(realExprRefs, argA, ta, ta');
        }
        return Err(b.error), ta, tb;
      }
      r := Ok((a.value, b.value));
    }

    method EvalList(op: ListOp, args: seq<RealExpr>, ghost name: Option<string>)
      returns (r: Result<real>, ghost t: Tree)
      requires 0 < nestingDepth <= MAX_NESTING_DEPTH
      modifies this`nestingDepth
      ensures nestingDepth >= old(nestingDepth)
      ensures Outcome(Ctx(), RealExpr(name, List(op, args)), old(nestingDepth) - 1, nestingDepth, r, t)
      decreases MAX_NESTING_DEPTH + 1 - nestingDepth, 2
    {
      ghost var ts: seq<Tree> := [];
      var accum := if op == SumAll then 0.0 else 1.0;
      for i := 0 to |args|
        invariant |ts| == i && Evaluated(Ctx(), args, old(nestingDepth), nestingDepth, ts)
        invariant accum == if op == SumAll then SumOf(lib, boundVars, ts) else ProductOf(lib, boundVars, ts)
      {
        ghost var depth := nestingDepth;
        ghost var ti;
        var v;
        v, ti := Eval(args[i]);
        if v.Err? {
          ListTooLarge(Ctx(), op, args, name, old(nestingDepth) - 1, depth, ts);
          return v, ti;
        }
        EvaluatedNext(Ctx(), args, old(nestingDepth), depth, ts, v, nestingDepth, ti);
        accum := if op == SumAll then accum + v.value else accum * v.value;
        ts := ts + [ti];
      }
      return Ok(accum), TList(op, ts);
    }

    method EvalRef(ref: string, ghost name: Option<string>) returns (r: Result<real>, ghost t: Tree)
      requires 0 < nestingDepth <= MAX_NESTING_DEPTH
      modifies this`nestingDepth
      ensures nestingDepth >= old(nestingDepth)
      ensures Outcome(Ctx(), RealExpr(name, Reference(ref)), old(nestingDepth) - 1, nestingDepth, r, t)
      decreases MAX_NESTING_DEPTH + 1 - nestingDepth, 2
    {
      t := TReal(0.0);
      if ref in realExprRefs {
        r, t := Eval(realExprRefs[ref]);
        t := TRef(ref, t);
      } else {
        r := Err(UnknownReference(ref));
      }
    }

    method EvalVar(variable: string) returns (r: Result<real>)
      ensures r == if variable in boundVars then Ok(boundVars[variable]) else Err(UnknownVariable(variable))
    {
      if variable in boundVars {
        return Ok(boundVars[variable]);
      }
      return Err(UnknownVariable(variable));
    }

    /** The polynomial, or with dVar >= 0 its derivative by one of its variables. */
    method EvalPolynomial(poly: Polynomial, dVar: int) returns (r: Result<real>)
      ensures r.Ok? <==> forall v | v in poly.variables :: v in boundVars
      ensures r.Ok? ==> r.value == PolyValue(poly, boundVars, dVar)
      ensures r.Err? ==> r.error.OutOfRange? && r.error.variable in poly.variables && r.error.variable !in boundVars
    {
      var evalpoint: seq<real> := [];
      for i := 0 to |poly.variables|
        invariant |evalpoint| == i
        invariant forall k | 0 <= k < i ::
          poly.variables[k] in boundVars && evalpoint[k] == boundVars[poly.variables[k]]
      {
        if poly.variables[i] !in boundVars {
          return Err(OutOfRange(poly.variables[i]));
        }
        evalpoint := evalpoint + [boundVars[poly.variables[i]]];
      }
      assert evalpoint == Point(boundVars, poly.variables);
      var d := poly.maxVarDegree + 1;
      var result := 0.0;
      for i := 0 to |poly.coefficients|
        invariant result == PolyTo(poly, evalpoint, dVar, i)
      {
        var coeff := poly.coefficients[i];
        var monom := EvalMonomial(evalpoint, coeff.offset, d, dVar);
        result := result + coeff.value * monom;
      }
      return Ok(result);
    }

    method EvalMonomial(evalpoint: seq<real>, offset: nat, d: nat, dVar: int) returns (monom: real)
      requires d > 0
      ensures monom == MonomialTo(evalpoint, Exponents(offset, d, |evalpoint|), dVar, |evalpoint|)
    {
      monom := 1.0;
      var n := |evalpoint|;
      ghost var exps := Exponents(offset, d, n);
      for v := 0 to n
        invariant monom == MonomialTo(evalpoint, exps, dVar, v)
      {
        var rem := DecodeExponent(offset, d, v, n);
        if dVar == v && rem == 0 {
          MonomialVanishes(evalpoint, exps, dVar, n);
          return 0.0;
        }
        monom := MultiplyPower(monom, evalpoint, exps, v, rem, dVar);
      }
    }

    method DecodeExponent(offset: nat, d: nat, v: nat, ghost n: nat) returns (rem: nat)
      requires d > 0 && v < n
      ensures rem == Exponents(offset, d, n)[v]
    {
      rem := offset / NatPower(d, v) % d;
    }

    method MultiplyPower(factor: real, point: seq<real>, ghost exps: seq<nat>, v: nat, rem: nat, dVar: int)
      returns (monom: real)
      requires v < |point| && v < |exps| && rem == exps[v] && (dVar == v ==> rem > 0)
      requires factor == MonomialTo(point, exps, dVar, v)
      ensures monom == MonomialTo(point, exps, dVar, v + 1)
    {
      monom := factor;
      if dVar != v {
        monom := monom * Power(point[v], rem);
      } else if rem > 1 {
        monom := monom * ((rem as real) * Power(point[v], rem - 1));
      }
    }

    /** evalToVector */
    method EvalToVector(args: seq<RealExpr>) returns (r: Result<seq<real>>, ghost ts: seq<Tree>)
      requires 0 < nestingDepth <= MAX_NESTING_DEPTH
      modifies this`nestingDepth
      ensures nestingDepth >= old(nestingDepth)
      ensures r.Ok? ==>
        UnfoldAll(Ctx(), args, ts) && nestingDepth == old(nestingDepth) + SizeAll(ts) <= MAX_NESTING_DEPTH
      ensures r.Ok? ==> r.value == Values(lib, boundVars, ts)
      ensures r.Err? ==> Justified(Ctx(), nestingDepth, r.error)
      ensures r.Err? ==> forall ts: seq<Tree> | UnfoldAll(Ctx(), args, ts) ::
        old(nestingDepth) + SizeAll(ts) > MAX_NESTING_DEPTH
      decreases MAX_NESTING_DEPTH + 1 - nestingDepth, 2
    {
      ts := [];
      var result: seq<real> := [];
      for i := 0 to |args|
        invariant |ts| == i && Evaluated(Ctx(), args, old(nestingDepth), nestingDepth, ts)
        invariant result == Values(lib, boundVars, ts)
      {
        ghost var depth := nestingDepth;
        ghost var ti;
        var v;
        v, ti := Eval(args[i]);
        if v.Err? {
          VectorTooLarge(Ctx(), args, old(nestingDepth), depth, ts);
          return Err(v.error), ts;
        }
        EvaluatedNext(Ctx(), args, old(nestingDepth), depth, ts, v, nestingDepth, ti);
        result := result + [v.value];
        ts := ts + [ti];
      }
      return Ok(result), ts;
    }

    /** evalPartialDerivative: of an expression that has an unfolding with all variables bound, the result
        is decided by what deriving it costs. */
    method EvaluatePartialDerivative(expr: RealExpr, diffVariable: string, vars: ValueMap) returns (r: Result<real>)
      modifies this`boundVars, this`nestingDepth
      ensures boundVars == vars
      ensures forall t | Unfolds(realExprRefs, expr, t) && Bound(vars, t) ::
        && (r.Ok? <==> DCost(lib, vars, t) <= MAX_NESTING_DEPTH)
        && (r.Ok? ==> r.value == DValue(lib, vars, diffVariable, t))
      ensures r.Err? ==> Justified(Ctx(), nestingDepth, r.error)
    {
      boundVars := vars;
      nestingDepth := 0;
      r := EvalPartialDerivative(expr, diffVariable);
      forall t | Unfolds(realExprRefs, expr, t) && Bound(vars, t)
        ensures r.Err? ==> DCost(lib, vars, t) > MAX_NESTING_DEPTH
      {
        assert r.Err? ==> 0 + DCost(lib, vars, t) > MAX_NESTING_DEPTH;
      }
    }

    method EvalPartialDerivative(expr: RealExpr, x: string) returns (r: Result<real>)
      requires nestingDepth <= MAX_NESTING_DEPTH
      modifies this`nestingDepth
      ensures nestingDepth > old(nestingDepth)
      ensures DOutcome(Ctx(), x, expr, old(nestingDepth), nestingDepth, r)
      decreases MAX_NESTING_DEPTH + 1 - nestingDepth, 1
    {
      nestingDepth := nestingDepth + 1;
      if nestingDepth > MAX_NESTING_DEPTH {
        return Err(MaxNestingDepth);
      }
      match expr.node {
        case Real(_) =>
          r := Ok(0.0);
        case Unary(op, arg) =>
          r := DeriveUnary(op, arg, x, expr.name);
        case Binary(op, argA, argB) =>
          r := DeriveBinary(op, argA, argB, x, expr.name);
        case List(op, args) =>
          r := DeriveList(op, args, x, expr.name);
        case Poly(poly) =>
          r := DerivePolynomial(poly, x);
        case Reference(ref) =>
          r := DeriveRef(ref, x, expr.name);
        case Variable(variable) =>
          r := if variable !in boundVars then Err(UnknownVariable(variable))
               else Ok(if variable == x then 1.0 else 0.0);
      }
    }

    method DeriveUnary(op: UnaryOp, arg: RealExpr, x: string, ghost name: Option<string>) returns (r: Result<real>)
      requires 0 < nestingDepth <= MAX_NESTING_DEPTH
      modifies this`nestingDepth
      ensures nestingDepth >= old(nestingDepth)
      ensures DOutcome(Ctx(), x, RealExpr(name, Unary(op, arg)), old(nestingDepth) - 1, nestingDepth, r)
      decreases MAX_NESTING_DEPTH + 1 - nestingDepth, 2
    {
      if op == Sign {
        return Ok(0.0);
      }
      var v := Ok(0.0);
      if NeedsValue(op) {
        ghost var ta;
        v, ta := Eval(arg);
        if v.Err? {
          UnaryValueTooLarge(Ctx(), op, arg, name, old(nestingDepth) - 1, old(nestingDepth));
          return v;
        }
        forall t | Unfolds(realExprRefs, arg, t) ensures t == ta {
          UnfoldsOnce(realExprRefs, arg, t, ta);
        }
      }
      ghost var depth := nestingDepth;
      var d := EvalPartialDerivative(arg, x);
      UnaryDerived(Ctx(), x, op, arg, name, old(nestingDepth) - 1, depth, nestingDepth, v.value, d);
      r := if d.Ok? then Ok(DUnary(lib, op, v.value, d.value)) else d;
    }

    method DeriveBinary(op: BinaryOp, argA: RealExpr, argB: RealExpr, x: string, ghost name: Option<string>)
      returns (r: Result<real>)
      requires 0 < nestingDepth <= MAX_NESTING_DEPTH
      modifies this`nestingDepth
      ensures nestingDepth >= old(nestingDepth)
      ensures DOutcome(Ctx(), x, RealExpr(name, Binary(op, argA, argB)), old(nestingDepth) - 1, nestingDepth, r)
      decreases MAX_NESTING_DEPTH + 1 - nestingDepth, 4
    {
      if op == LessEqThan || op == GreaterThan {
        return Ok(0.0);
      }
      if op == Min || op == Max {
        r := DeriveChoice(op, argA, argB, x, name);
        return;
      }
      var v := (0.0, 0.0);
      if op != Sum {
        ghost var ta, tb;
        var both;
        both, ta, tb := EvalBoth(argA, argB);
        if both.Err? {
          forall t | Unfolds(realExprRefs, RealExpr(name, Binary(op, argA, argB)), t) && Bound(boundVars, t)
            ensures old(nestingDepth) - 1 + DCost(lib, boundVars, t) > MAX_NESTING_DEPTH
          {
            assert BothUnfold(Ctx(), argA, argB, t.argA, t.argB);
          }
          return Err(both.error);
        }
        forall ta', tb' | BothUnfold(Ctx(), argA, argB, ta', tb') ensures ta' == ta && tb' == tb {
          UnfoldsOnce(realExprRefs, argA, ta, ta');
          UnfoldsOnce(realExprRefs, argB, tb, tb');
        }
        v := both.value;
      }
      ghost var depth := nestingDepth;
      var d := DeriveBoth(argA, argB, x);
      BinaryDerived(Ctx(), x, op, argA, argB, name, old(nestingDepth) - 1, depth, nestingDepth, v, d);
      r := if d.Ok? then Ok(DBinary(lib, op, v.0, d.value.0, v.1, d.value.1)) else Err(d.error);
    }

    method DeriveBoth(argA: RealExpr, argB: RealExpr, x: string) returns (r: Result<(real, real)>)
      requires 0 < nestingDepth <= MAX_NESTING_DEPTH
      modifies this`nestingDepth
      ensures nestingDepth > old(nestingDepth)
      ensures BothDerived(Ctx(), x, argA, argB, old(nestingDepth), nestingDepth, r)
      decreases MAX_NESTING_DEPTH + 1 - nestingDepth, 2
    {
      var a := EvalPartialDerivative(argA, x);
      if a.Err? {
        return Err(a.error);
      }
      var b := EvalPartialDerivative(argB, x);
      if b.Err? {
        return Err(b.error);
      }
      r := Ok((a.value, b.value));
    }

    /** Of a minimum or a maximum, the argument that is chosen is derived. */
    method DeriveChoice(op: BinaryOp, argA: RealExpr, argB: RealExpr, x: string, ghost name: Option<string>)
      returns (r: Result<real>)
      requires 0 < nestingDepth <= MAX_NESTING_DEPTH && (op == Min || op == Max)
      modifies this`nestingDepth
      ensures nestingDepth >= old(nestingDepth)
      ensures DOutcome(Ctx(), x, RealExpr(name, Binary(op, argA, argB)), old(nestingDepth) - 1, nestingDepth, r)
      decreases MAX_NESTING_DEPTH + 1 - nestingDepth, 3
    {
      ghost var ta, tb;
      var both;
      both, ta, tb := EvalBoth(argA, argB);
      if both.Err? {
        forall t | Unfolds(realExprRefs, RealExpr(name, Binary(op, argA, argB)), t) && Bound(boundVars, t)
          ensures old(nestingDepth) - 1 + DCost(lib, boundVars, t) > MAX_NESTING_DEPTH
        {
          assert BothUnfold(Ctx(), argA, argB, t.argA, t.argB);
        }
        return Err(both.error);
      }
      var first := if op == Min then both.value.0 <= both.value.1 else both.value.0 > both.value.1;
      ghost var depth := nestingDepth;
      r := EvalPartialDerivative(if first then argA else argB, x);
      ChoiceDerived(Ctx(), x, op, argA, argB, name, old(nestingDepth) - 1, depth, nestingDepth, ta, tb, first, r);
    }

    method DeriveList(op: ListOp, args: seq<RealExpr>, x: string, ghost name: Option<string>) returns (r: Result<real>)
      requires 0 < nestingDepth <= MAX_NESTING_DEPTH
      modifies this`nestingDepth
      ensures nestingDepth >= old(nestingDepth)
      ensures DOutcome(Ctx(), x, RealExpr(name, List(op, args)), old(nestingDepth) - 1, nestingDepth, r)
      decreases MAX_NESTING_DEPTH + 1 - nestingDepth, 3
    {
      var evaluations := [];
      if op == ProdAll {
        ghost var ts;
        var v;
        v, ts := EvalToVector(args);
        if v.Err? {
          ValuesTooLarge(Ctx(), args, name, old(nestingDepth) - 1);
          return Err(v.error);
        }
        evaluations := v.value;
        forall ts': seq<Tree> | UnfoldAll(Ctx(), args, ts') ensures ts' == ts {
          UnfoldAllOnce(Ctx(), args, ts', ts);
        }
      }
      ghost var before := nestingDepth;
      var accum := 0.0;
      for i := 0 to |args|
        invariant Derived(Ctx(), args, before, nestingDepth, i)
        invariant nestingDepth >= before
        invariant forall ts: seq<Tree> | UnfoldAll(Ctx(), args, ts) ::
          accum == if op == SumAll then DSumTo(lib, boundVars, x, ts, i) else DProductTo(lib, boundVars, x, ts, i)
      {
        ghost var depth := nestingDepth;
        var mult := EvalPartialDerivative(args[i], x);
        if mult.Err? {
          DListTooLarge(Ctx(), op, args, name, old(nestingDepth) - 1, before, depth, i);
          return mult;
        }
        DerivedNext(Ctx(), x, args, before, depth, i, nestingDepth, mult);
        var product := mult.value;
        if op == ProdAll {
          product := AllButOne(evaluations, i, product);
        }
        forall ts: seq<Tree> | UnfoldAll(Ctx(), args, ts)
          ensures accum + product == if op == SumAll then DSumTo(lib, boundVars, x, ts, i + 1)
                                     else DProductTo(lib, boundVars, x, ts, i + 1)
        {
          assert Unfolds(realExprRefs, args[i], ts[i]) && Bound(boundVars, ts[i]);
        }
        accum := accum + product;
      }
      forall t | Unfolds(realExprRefs, RealExpr(name, List(op, args)), t) && Bound(boundVars, t)
        ensures nestingDepth == old(nestingDepth) - 1 + DCost(lib, boundVars, t)
        ensures accum == DValue(lib, boundVars, x, t)
      {
        assert UnfoldAll(Ctx(), args, t.args);
      }
      return Ok(accum);
    }

    /** The inner loop of the derivative of a product. */
    method AllButOne(evaluations: seq<real>, i: nat, factor: real) returns (mult: real)
      ensures mult == Except(evaluations, i, |evaluations|, factor)
    {
      mult := factor;
      var sz := |evaluations|;
      for j := 0 to sz
        invariant mult == Except(evaluations, i, j, factor)
      {
        if j != i {
          mult := mult * evaluations[j];
        }
      }
    }

    method DerivePolynomial(poly: Polynomial, x: string) returns (r: Result<real>)
      ensures r.Ok? ==> r.value == DPoly(poly, boundVars, x)
      ensures r.Err? <==> x in poly.variables && exists v :: v in poly.variables && v !in boundVars
      ensures r.Err? ==> r.error.OutOfRange? && r.error.variable !in boundVars
    {
      var vars := poly.variables;
      for i := 0 to |vars|
        invariant forall k | 0 <= k < i :: vars[k] != x
      {
        if x == vars[i] {
          r := EvalPolynomial(poly, i);
          return;
        }
      }
      return Ok(0.0);
    }

    method DeriveRef(ref: string, x: string, ghost name: Option<string>) returns (r: Result<real>)
      requires 0 < nestingDepth <= MAX_NESTING_DEPTH
      modifies this`nestingDepth
      ensures nestingDepth >= old(nestingDepth)
      ensures DOutcome(Ctx(), x, RealExpr(name, Reference(ref)), old(nestingDepth) - 1, nestingDepth, r)
      decreases MAX_NESTING_DEPTH + 1 - nestingDepth, 2
    {
      if ref in realExprRefs {
        r := EvalPartialDerivative(realExprRefs[ref], x);
      } else {
        r := Err(UnknownReference(ref));
      }
    }
  }

  lemma UnfoldAllOnce(c: Context, args: seq<RealExpr>, ts: seq<Tree>, ts': seq<Tree>)
    requires UnfoldAll(c, args, ts) && UnfoldAll(c, args, ts')
    ensures ts == ts'
  {
    forall i | 0 <= i < |ts| ensures ts[i] == ts'[i] {
      UnfoldsOnce(c.refs, args[i], ts[i], ts'[i]);
    }
  }

  lemma VectorTooLarge(c: Context, args: seq<RealExpr>, start: nat, depth: nat, ts: seq<Tree>)
    requires Evaluated(c, args, start, depth, ts) && |ts| < |args| && TooLarge(c, args[|ts|], depth)
    ensures forall ts': seq<Tree> | UnfoldAll(c, args, ts') :: start + SizeAll(ts') > MAX_NESTING_DEPTH
  {
    forall ts': seq<Tree> | UnfoldAll(c, args, ts') ensures start + SizeAll(ts') > MAX_NESTING_DEPTH {
      var k := |ts|;
      forall i | 0 <= i < k ensures ts[i] == ts'[i] {
        UnfoldsOnce(c.refs, args[i], ts[i], ts'[i]);
      }
      assert ts'[..k] == ts;
      assert ts'[..k + 1][..k] == ts;
      SizeAllPrefix(ts', k + 1);
      assert Unfolds(c.refs, args[k], ts'[k]) && Bound(c.vars, ts'[k]);
    }
  }
}
