/** realexpr-convenience.hpp: the expressions of the C++ interface, the messages that they build, and what
    they mean: a name stands for the expression that it has been given to, wherever that is. */
module LetBinding {
  import opened Expressions
  import opened Interpreter
  import opened References
  import opened Wrappers

  datatype Term =
    | Constant(value: real)
    | Var(variable: string)
    | Ref(ref: string)
    | Name(name: string, body: Term)
    | Call(fn: UnaryOp, arg: Term)
    | Combine(op: Operator, a: Term, b: Term)

  datatype Operator = Plus | Minus | Times | Over | Call2(fn2: BinaryOp)

  function Unnamed(node: Node): RealExpr {
    RealExpr(None, node)
  }

  /** The operation that the function of the interface of this name sets: cos sets Sin. */
  function OperationOf(fn: UnaryOp): UnaryOp {
    if fn == Cos then Sin else fn
  }

  function Build(t: Term): RealExpr {
    match t
    case Constant(x) => Unnamed(Real(x))
    case Var(v) => Unnamed(Variable(v))
    case Ref(n) => Unnamed(Reference(n))
    case Name(n, body) => var e := Build(body); RealExpr(if e.name.Some? then e.name else Some(n), e.node)
    case Call(fn, a) => Unnamed(Unary(OperationOf(fn), Build(a)))
    case Combine(op, a, b) => BuildOperator(op, Build(a), Build(b))
  }

  function BuildOperator(op: Operator, a: RealExpr, b: RealExpr): RealExpr {
    match op
    case Plus => Unnamed(Binary(Sum, a, b))
    case Minus => Unnamed(Binary(Sum, a, Unnamed(Unary(Negate, b))))
    case Times => Unnamed(Binary(Prod, a, b))
    case Over => Unnamed(Binary(Prod, a, Unnamed(Unary(MultInv, b))))
    case Call2(fn) => Unnamed(Binary(fn, a, b))
  }

  type Definitions = map<string, Term>
  type Ranks = map<string, nat>

  /** Every name referred to is defined, and has a rank below the bound. */
  predicate RefsBelow(defs: Definitions, rank: Ranks, t: Term, bound: nat) {
    match t
    case Constant(_) => true
    case Var(_) => true
    case Ref(n) => n in defs && n in rank && rank[n] < bound
    case Name(_, body) => RefsBelow(defs, rank, body, bound)
    case Call(_, a) => RefsBelow(defs, rank, a, bound)
    case Combine(_, a, b) => RefsBelow(defs, rank, a, bound) && RefsBelow(defs, rank, b, bound)
  }

  /** The definitions are not circular. */
  ghost predicate Acyclic(defs: Definitions, rank: Ranks) {
    forall n | n in defs :: n in rank && RefsBelow(defs, rank, defs[n], rank[n])
  }

  /** a/b; what C++ gives for b = 0 is left to the library. */
  function Quotient(lib: Library, a: real, b: real): real {
    if b == 0.0 then a * lib.unary(MultInv, b) else a / b
  }

  ghost function Denote(lib: Library, vars: ValueMap, defs: Definitions, rank: Ranks, t: Term, bound: nat): real
    requires Acyclic(defs, rank) && RefsBelow(defs, rank, t, bound)
    decreases bound, t
  {
    match t
    case Constant(x) => x
    case Var(v) => Lookup(vars, v)
    case Ref(n) => Denote(lib, vars, defs, rank, defs[n], rank[n])
    case Name(_, body) => Denote(lib, vars, defs, rank, body, bound)
    case Call(fn, a) => ApplyUnary(lib, fn, Denote(lib, vars, defs, rank, a, bound))
    case Combine(op, a, b) =>
      Apply(lib, op, Denote(lib, vars, defs, rank, a, bound), Denote(lib, vars, defs, rank, b, bound))
  }

  function Apply(lib: Library, op: Operator, x: real, y: real): real {
    match op
    case Plus => x + y
    case Minus => x - y
    case Times => x * y
    case Over => Quotient(lib, x, y)
    case Call2(fn) => ApplyBinary(lib, fn, x, y)
  }

  /** How many nodes are visited when every reference is followed. */
  ghost function Nodes(defs: Definitions, rank: Ranks, t: Term, bound: nat): nat
    requires Acyclic(defs, rank) && RefsBelow(defs, rank, t, bound)
    decreases bound, t
  {
    match t
    case Constant(_) => 1
    case Var(_) => 1
    case Ref(n) => 1 + Nodes(defs, rank, defs[n], rank[n])
    case Name(_, body) => Nodes(defs, rank, body, bound)
    case Call(_, a) => 1 + Nodes(defs, rank, a, bound)
    case Combine(op, a, b) =>
      (if op.Minus? || op.Over? then 2 else 1) + Nodes(defs, rank, a, bound) + Nodes(defs, rank, b, bound)
  }

  predicate UsesCos(t: Term) {
    match t
    case Constant(_) => false
    case Var(_) => false
    case Ref(_) => false
    case Name(_, body) => UsesCos(body)
    case Call(fn, a) => fn == Cos || UsesCos(a)
    case Combine(_, a, b) => UsesCos(a) || UsesCos(b)
  }

  predicate VarsIn(vars: ValueMap, t: Term) {
    match t
    case Constant(_) => true
    case Var(v) => v in vars
    case Ref(_) => true
    case Name(_, body) => VarsIn(vars, body)
    case Call(_, a) => VarsIn(vars, a)
    case Combine(_, a, b) => VarsIn(vars, a) && VarsIn(vars, b)
  }

  /** Every name leads to what has been built for its definition. */
  ghost predicate Linked(refs: RefMap, defs: Definitions) {
    forall n | n in defs :: n in refs && refs[n].node == Build(defs[n]).node
  }

  ghost predicate Plain(vars: ValueMap, t: Term) {
    !UsesCos(t) && VarsIn(vars, t)
  }

  lemma InverseTimes(lib: Library, a: real, b: real)
    ensures ApplyBinary(lib, Prod, a, ApplyUnary(lib, MultInv, b)) == Quotient(lib, a, b)
  {
    if b != 0.0 {
      var i, q := 1.0 / b, a / b;
      assert i * b == 1.0 && q * b == a;
      assert (a * i) * b == a * (i * b);
      assert (a * i - q) * b == 0.0;
    }
  }

  /** What is built for an expression unfolds, and the unfolding has the meaning of the expression. */
  lemma {:induction false} Meaning(lib: Library, vars: ValueMap, refs: RefMap, defs: Definitions, rank: Ranks,
                                   t: Term, bound: nat, e: RealExpr) returns (tree: Tree)
    requires Acyclic(defs, rank) && RefsBelow(defs, rank, t, bound) && Linked(refs, defs)
    requires Plain(vars, t) && forall n | n in defs :: Plain(vars, defs[n])
    requires e.node == Build(t).node
    ensures Unfolds(refs, e, tree) && Bound(vars, tree)
    ensures Value(lib, vars, tree) == Denote(lib, vars, defs, rank, t, bound)
    ensures Size(tree) == Nodes(defs, rank, t, bound)
    decreases bound, t
  {
    match t {
      case Constant(x) =>
        tree := TReal(x);
      case Var(v) =>
        tree := TVariable(v);
      case Ref(n) =>
        assert Plain(vars, defs[n]);
        tree := Meaning(lib, vars, refs, defs, rank, defs[n], rank[n], refs[n]);
        tree := TRef(n, tree);
      case Name(_, body) =>
        tree := Meaning(lib, vars, refs, defs, rank, body, bound, e);
      case Call(fn, a) =>
        tree := Meaning(lib, vars, refs, defs, rank, a, bound, e.node.arg);
        tree := TUnary(fn, tree);
      case Combine(op, a, b) =>
        var ea, eb := Build(a), Build(b);
        var ta := Meaning(lib, vars, refs, defs, rank, a, bound, ea);
        var tb := Meaning(lib, vars, refs, defs, rank, b, bound, eb);
        tree := OperatorMeaning(lib, vars, refs, op, ea, eb, ta, tb, e);
    }
  }

  lemma QuotientTree(lib: Library, vars: ValueMap, ta: Tree, tb: Tree)
    ensures Value(lib, vars, TBinary(Prod, ta, TUnary(MultInv, tb))) ==
            Quotient(lib, Value(lib, vars, ta), Value(lib, vars, tb))
  {
    InverseTimes(lib, Value(lib, vars, ta), Value(lib, vars, tb));
  }

  lemma OperatorMeaning(lib: Library, vars: ValueMap, refs: RefMap, op: Operator, ea: RealExpr, eb: RealExpr,
                        ta: Tree, tb: Tree, e: RealExpr) returns (tree: Tree)
    requires Unfolds(refs, ea, ta) && Unfolds(refs, eb, tb) && Bound(vars, ta) && Bound(vars, tb)
    requires e.node == BuildOperator(op, ea, eb).node
    ensures Unfolds(refs, e, tree) && Bound(vars, tree)
    ensures Value(lib, vars, tree) == Apply(lib, op, Value(lib, vars, ta), Value(lib, vars, tb))
    ensures Size(tree) == (if op.Minus? || op.Over? then 2 else 1) + Size(ta) + Size(tb)
  {
    match op
    case Plus => tree := TBinary(Sum, ta, tb);
    case Minus => tree := TBinary(Sum, ta, TUnary(Negate, tb));
    case Times => tree := TBinary(Prod, ta, tb);
    case Over =>
      tree := TBinary(Prod, ta, TUnary(MultInv, tb));
      QuotientTree(lib, vars, ta, tb);
    case Call2(fn) => tree := TBinary(fn, ta, tb);
  }

  /** cos builds a sine: of an argument without cosines, the message is worth the cosine exactly where sine and
      cosine agree. */
  lemma CosIsSine(lib: Library, vars: ValueMap, refs: RefMap, defs: Definitions, rank: Ranks, t: Term, bound: nat)
    returns (tree: Tree)
    requires Acyclic(defs, rank) && RefsBelow(defs, rank, t, bound) && Linked(refs, defs)
    requires Plain(vars, t) && forall n | n in defs :: Plain(vars, defs[n])
    ensures Unfolds(refs, Build(Call(Cos, t)), tree) && Bound(vars, tree)
    ensures var v := Denote(lib, vars, defs, rank, t, bound);
      && Value(lib, vars, tree) == lib.unary(Sin, v)
      && (Value(lib, vars, tree) == Denote(lib, vars, defs, rank, Call(Cos, t), bound) <==>
          lib.unary(Sin, v) == lib.unary(Cos, v))
  {
    var a := Meaning(lib, vars, refs, defs, rank, t, bound, Build(t));
    tree := TUnary(Sin, a);
  }

  /** The cosine of 0 is 1; the message built for it is worth 0. */
  lemma CosOfZero(lib: Library, vars: ValueMap, refs: RefMap, tree: Tree)
    requires lib.unary(Sin, 0.0) == 0.0 && lib.unary(Cos, 0.0) == 1.0
    requires Unfolds(refs, Build(Call(Cos, Constant(0.0))), tree)
    ensures Value(lib, vars, tree) == 0.0 && Denote(lib, vars, map[], map[], Call(Cos, Constant(0.0)), 0) == 1.0
  {
    var built := TUnary(Sin, TReal(0.0));
    assert Unfolds(refs, Build(Constant(0.0)), TReal(0.0));
    UnfoldsOnce(refs, Build(Call(Cos, Constant(0.0))), tree, built);
    assert Denote(lib, vars, map[], map[], Constant(0.0), 0) == 0.0;
  }

  // What findReferences collects from the messages

  /** The named parts of an expression, parents first. */
  function DefinitionsIn(t: Term): seq<(string, Term)> {
    match t
    case Name(n, body) => [(n, body)] + DefinitionsIn(body)
    case Call(_, a) => DefinitionsIn(a)
    case Combine(_, a, b) => DefinitionsIn(a) + DefinitionsIn(b)
    case _ => []
  }

  /** No expression is given two names: the second would replace the first. */
  predicate NamedOnce(t: Term) {
    match t
    case Name(_, body) => !body.Name? && NamedOnce(body)
    case Call(_, a) => NamedOnce(a)
    case Combine(_, a, b) => NamedOnce(a) && NamedOnce(b)
    case _ => true
  }

  /** The names that are in the message: where names are nested directly, the innermost one. */
  function Survivors(t: Term): seq<(string, Term)> {
    match t
    case Name(n, body) => if body.Name? then Survivors(body) else [(n, body)] + Survivors(body)
    case Call(_, a) => Survivors(a)
    case Combine(_, a, b) => Survivors(a) + Survivors(b)
    case _ => []
  }

  /** All names are in the message exactly when no expression is given two. */
  lemma {:induction false} SurvivorsExactly(t: Term)
    ensures |Survivors(t)| <= |DefinitionsIn(t)|
    ensures NamedOnce(t) ==> Survivors(t) == DefinitionsIn(t)
    ensures !NamedOnce(t) ==> |Survivors(t)| < |DefinitionsIn(t)|
  {
    match t
    case Name(_, body) => SurvivorsExactly(body);
    case Call(_, a) => SurvivorsExactly(a);
    case Combine(_, a, b) =>
      SurvivorsExactly(a);
      SurvivorsExactly(b);
    case _ =>
  }

  function BuildAll(ts: seq<Term>): (es: seq<RealExpr>)
    ensures |es| == |ts|
  {
    seq(|ts|, i requires 0 <= i < |ts| => Build(ts[i]))
  }

  function SurvivorsInAll(ts: seq<Term>): seq<(string, Term)> {
    if ts == [] then [] else Survivors(ts[0]) + SurvivorsInAll(ts[1..])
  }

  /** es are the named messages that belong to the definitions ds. */
  ghost predicate Match(ds: seq<(string, Term)>, es: seq<RealExpr>) {
    && |es| == |ds|
    && forall i | 0 <= i < |ds| :: es[i].name == Some(ds[i].0) && es[i].node == Build(ds[i].1).node
  }

  lemma OperatorNames(op: Operator, a: RealExpr, b: RealExpr)
    ensures Named(BuildOperator(op, a, b)) == Named(a) + Named(b)
  {
    assert Named(Unnamed(Unary(Negate, b))) == [] + Named(b) == Named(b);
    assert Named(Unnamed(Unary(MultInv, b))) == [] + Named(b) == Named(b);
    match op
    case Plus => assert Named(BuildOperator(op, a, b)) == [] + (Named(a) + Named(b));
    case Minus => assert Named(BuildOperator(op, a, b)) == [] + (Named(a) + Named(b));
    case Times => assert Named(BuildOperator(op, a, b)) == [] + (Named(a) + Named(b));
    case Over => assert Named(BuildOperator(op, a, b)) == [] + (Named(a) + Named(b));
    case Call2(_) => assert Named(BuildOperator(op, a, b)) == [] + (Named(a) + Named(b));
  }

  lemma Renamed(e: RealExpr, n: string)
    requires e.name.None?
    ensures Named(RealExpr(Some(n), e.node)) == [RealExpr(Some(n), e.node)] + Named(e)
  {
  }

  lemma FirstMatch(d: (string, Term), e: RealExpr, ds: seq<(string, Term)>, es: seq<RealExpr>)
    requires Match(ds, es) && e.name == Some(d.0) && e.node == Build(d.1).node
    ensures Match([d] + ds, [e] + es)
  {
  }

  lemma {:induction false} SurvivingNames(t: Term)
    ensures Match(Survivors(t), Named(Build(t)))
    ensures t.Name? <==> Build(t).name.Some?
  {
    match t
    case Name(n, body) =>
      SurvivingNames(body);
      if !body.Name? {
        Renamed(Build(body), n);
        FirstMatch((n, body), Build(t), Survivors(body), Named(Build(body)));
      }
    case Call(_, a) =>
      SurvivingNames(a);
      assert Named(Build(t)) == Named(Build(a));
    case Combine(op, a, b) =>
      SurvivingNames(a);
      SurvivingNames(b);
      OperatorNames(op, Build(a), Build(b));
      BothMatch(Survivors(a), Named(Build(a)), Survivors(b), Named(Build(b)));
    case _ =>
  }

  lemma BothMatch(ds: seq<(string, Term)>, es: seq<RealExpr>, ds': seq<(string, Term)>, es': seq<RealExpr>)
    requires Match(ds, es) && Match(ds', es')
    ensures Match(ds + ds', es + es')
  {
  }

  lemma {:induction false} BuildAllNames(ts: seq<Term>)
    ensures Match(SurvivorsInAll(ts), NamedAll(BuildAll(ts)))
  {
    if ts != [] {
      var es, first, rest := BuildAll(ts), ts[0], ts[1..];
      SurvivingNames(first);
      BuildAllNames(rest);
      assert es[0] == Build(first) && es[1..] == BuildAll(rest);
      BothMatch(Survivors(first), Named(es[0]), SurvivorsInAll(rest), NamedAll(es[1..]));
    }
  }

  /** The definitions, when no name is used twice. */
  ghost predicate DefinedBy(defs: Definitions, ds: seq<(string, Term)>) {
    && (forall i, j | 0 <= i < j < |ds| :: ds[i].0 != ds[j].0)
    && (forall n | n in defs :: exists i :: 0 <= i < |ds| && ds[i] == (n, defs[n]))
  }

  lemma CollectedLinks(refs: RefMap, defs: Definitions, ds: seq<(string, Term)>, es: seq<RealExpr>)
    requires DefinedBy(defs, ds) && Match(ds, es)
    ensures Linked(Enter(refs, es), defs)
  {
    forall n | n in defs ensures n in Enter(refs, es) && Enter(refs, es)[n].node == Build(defs[n]).node {
      var i :| 0 <= i < |ds| && ds[i] == (n, defs[n]);
      forall j | i < j < |es| ensures es[j].name != es[i].name {
        assert ds[i].0 != ds[j].0;
      }
      LastWins(refs, es, i);
    }
  }

  /** Every definition is what its name leads to, exactly when definitions of the same name build the same message. */
  lemma CollectedExactly(refs: RefMap, ds: seq<(string, Term)>, es: seq<RealExpr>)
    requires Match(ds, es)
    ensures (forall i | 0 <= i < |ds| ::
               ds[i].0 in Enter(refs, es) && Enter(refs, es)[ds[i].0].node == Build(ds[i].1).node) <==>
            forall i, j | 0 <= i < j < |ds| && ds[i].0 == ds[j].0 :: Build(ds[i].1).node == Build(ds[j].1).node
  {
    forall i | 0 <= i < |ds| ensures ds[i].0 in Enter(refs, es) && Enter(refs, es)[ds[i].0].name == es[i].name {
      var j := LastOf(es, i);
      LastWins(refs, es, j);
    }
    KeptExactly(refs, es);
    forall i | 0 <= i < |ds| ensures Enter(refs, es)[ds[i].0] == es[i] <==>
      Enter(refs, es)[ds[i].0].node == Build(ds[i].1).node
    {
    }
    forall i, j | 0 <= i < j < |ds| ensures es[i] == es[j] <==>
      ds[i].0 == ds[j].0 && Build(ds[i].1).node == Build(ds[j].1).node
    {
    }
  }

  /** Built messages, their names entered, unfold to the meaning of the expressions. */
  lemma BuildCollect(lib: Library, vars: ValueMap, ts: seq<Term>, defs: Definitions, rank: Ranks, k: nat, bound: nat)
    returns (tree: Tree)
    requires k < |ts| && Acyclic(defs, rank) && RefsBelow(defs, rank, ts[k], bound)
    requires DefinedBy(defs, SurvivorsInAll(ts))
    requires Plain(vars, ts[k]) && forall n | n in defs :: Plain(vars, defs[n])
    ensures Unfolds(Enter(map[], NamedAll(BuildAll(ts))), Build(ts[k]), tree) && Bound(vars, tree)
    ensures Value(lib, vars, tree) == Denote(lib, vars, defs, rank, ts[k], bound)
    ensures Size(tree) == Nodes(defs, rank, ts[k], bound)
  {
    BuildAllNames(ts);
    CollectedLinks(map[], defs, SurvivorsInAll(ts), NamedAll(BuildAll(ts)));
    tree := Meaning(lib, vars, Enter(map[], NamedAll(BuildAll(ts))), defs, rank, ts[k], bound, Build(ts[k]));
  }

  /** Building the messages of an advertisement, collecting their names and evaluating one of its expressions gives
      that its meaning, exactly when neither takes more than the permitted number of visits. */
  method BuildCollectEvaluate(lib: Library, vars: ValueMap, ts: seq<Term>, k: nat, ghost defs: Definitions,
                              ghost rank: Ranks, ghost bound: nat) returns (r: Result<real>)
    requires k < |ts| && Acyclic(defs, rank) && RefsBelow(defs, rank, ts[k], bound)
    requires DefinedBy(defs, SurvivorsInAll(ts))
    requires Plain(vars, ts[k]) && forall n | n in defs :: Plain(vars, defs[n])
    ensures r.Ok? <==>
      NodeCountAll(BuildAll(ts)) <= MAX_NESTING_DEPTH && Nodes(defs, rank, ts[k], bound) <= MAX_NESTING_DEPTH
    ensures r.Ok? ==> r.value == Denote(lib, vars, defs, rank, ts[k], bound)
  {
    var adv := new AdvFunc(lib);
    var es := BuildAll(ts);
    var ok := adv.FindReferencesInList(es);
    if !ok {
      return Err(MaxNestingDepth);
    }
    ghost var tree := BuildCollect(lib, vars, ts, defs, rank, k, bound);
    ghost var refs := adv.realExprRefs;
    r := adv.Evaluate(es[k], vars);
    assert adv.realExprRefs == refs && es[k] == Build(ts[k]);
    forall t | Unfolds(refs, es[k], t) ensures t == tree {
      UnfoldsOnce(refs, es[k], t, tree);
    }
  }

  /** Without the condition on names this fails: of two expressions named x, the first is lost. */
  lemma NameUsedTwice(a: real, b: real)
    ensures var refs := Enter(map[], NamedAll(BuildAll([Name("x", Constant(a)), Name("x", Constant(b))])));
            "x" in refs && refs["x"].node == Real(b)
  {
    var ts := [Name("x", Constant(a)), Name("x", Constant(b))];
    var es := BuildAll(ts);
    assert es == [Build(ts[0]), Build(ts[1])];
    assert es[1..] == [Build(ts[1])] && es[1..][1..] == [];
    assert Named(es[0]) == [es[0]] + [] && Named(es[1]) == [es[1]] + [];
    assert NamedAll(es[1..]) == Named(es[1]) + [];
    assert NamedAll(es) == [es[0], es[1]];
    LastWins(map[], NamedAll(es), 1);
  }

  /** Of two names nested directly the outer one is lost. */
  lemma OuterNameLost(n: string, m: string, a: real)
    requires n != m
    ensures var refs := Enter(map[], Named(Build(Name(n, Name(m, Constant(a))))));
      n !in refs && m in refs && refs[m].node == Real(a)
  {
    var e := RealExpr(Some(m), Real(a));
    var inner := Name(m, Constant(a));
    assert Build(inner) == e && Build(Name(n, inner)) == e;
    assert Named(e) == [e] + [] && [e][1..] == [];
    assert Enter(map[], [e]) == map[m := e];
  }
}
