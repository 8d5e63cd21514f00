/** schema.capnp, RealExpr and its parts, and what they denote. An expression may refer to other expressions
    by name, also in a circle; a Tree is what is left when every reference is replaced by its target. */
module Expressions {
  import opened Wrappers

  datatype UnaryOp =
    | Negate | Abs | Sign | MultInv | Square | Sqrt | Sin | Cos | Tan | Exp | Ln | Log10 | Round | Floor | Ceil

  datatype BinaryOp = Sum | Prod | Pow | Min | Max | LessEqThan | GreaterThan

  datatype ListOp = SumAll | ProdAll

  datatype SparseCoeff = SparseCoeff(offset: nat, value: real)

  datatype Polynomial = Polynomial(variables: seq<string>, maxVarDegree: nat, coefficients: seq<SparseCoeff>)

  datatype RealExpr = RealExpr(name: Option<string>, node: Node)

  datatype Node =
    | Real(value: real)
    | Poly(poly: Polynomial)
    | Unary(unop: UnaryOp, arg: RealExpr)
    | Binary(binop: BinaryOp, argA: RealExpr, argB: RealExpr)
    | List(listop: ListOp, args: seq<RealExpr>)
    | Reference(ref: string)
    | Variable(variable: string)

  datatype SetExpr = SetExpr(name: Option<string>, node: SetNode)

  datatype SetNode =
    | Singleton(coordinates: seq<RealExpr>)
    | Ball(center: seq<RealExpr>, radius: RealExpr)
    | Rectangle(bounds: seq<(RealExpr, RealExpr)>)
    | ConvexPolytope(a: seq<seq<RealExpr>>, b: seq<RealExpr>)
    | Intersection(sets: seq<SetExpr>)
    | SetReference(ref: string)

  type SetRefMap = map<string, SetExpr>
  type RefMap = map<string, RealExpr>
  type ValueMap = map<string, real>

  /** The C++ mathematics library, where it does more than arithmetic. `unary` also gives what dividing by
      zero, the root of a negative number and the like come to. */
  datatype Library = Library(unary: (UnaryOp, real) -> real, pow: (real, real) -> real)

  datatype Tree =
    | TReal(value: real)
    | TPoly(poly: Polynomial)
    | TUnary(unop: UnaryOp, arg: Tree)
    | TBinary(binop: BinaryOp, argA: Tree, argB: Tree)
    | TList(listop: ListOp, args: seq<Tree>)
    | TRef(ref: string, target: Tree)
    | TVariable(variable: string)

  /** t is the expression with every reference followed. */
  ghost predicate Unfolds(refs: RefMap, e: RealExpr, t: Tree)
    decreases t
  {
    match (e.node, t)
    case (Real(x), TReal(y)) => x == y
    case (Poly(p), TPoly(q)) => p == q
    case (Unary(op, a), TUnary(top, ta)) => op == top && Unfolds(refs, a, ta)
    case (Binary(op, a, b), TBinary(top, ta, tb)) => op == top && Unfolds(refs, a, ta) && Unfolds(refs, b, tb)
    case (List(op, args), TList(top, targs)) =>
      op == top && |args| == |targs| && forall i | 0 <= i < |args| :: Unfolds(refs, args[i], targs[i])
    case (Reference(n), TRef(tn, target)) => n == tn && n in refs && Unfolds(refs, refs[n], target)
    case (Variable(v), TVariable(tv)) => v == tv
    case _ => false
  }

  /** Every variable has a value. */
  ghost predicate Bound(vars: ValueMap, t: Tree) {
    match t
    case TReal(_) => true
    case TPoly(p) => forall v | v in p.variables :: v in vars
    case TUnary(_, a) => Bound(vars, a)
    case TBinary(_, a, b) => Bound(vars, a) && Bound(vars, b)
    case TList(_, args) => forall i | 0 <= i < |args| :: Bound(vars, args[i])
    case TRef(_, target) => Bound(vars, target)
    case TVariable(v) => v in vars
  }

  /** An expression has one unfolding at most. */
  lemma {:induction false} UnfoldsOnce(refs: RefMap, e: RealExpr, t: Tree, t': Tree)
    requires Unfolds(refs, e, t) && Unfolds(refs, e, t')
    ensures t == t'
    decreases t
  {
    match t
    case TUnary(_, a) => UnfoldsOnce(refs, e.node.arg, a, t'.arg);
    case TBinary(_, a, b) =>
      UnfoldsOnce(refs, e.node.argA, a, t'.argA);
      UnfoldsOnce(refs, e.node.argB, b, t'.argB);
    case TList(_, args) =>
      forall i | 0 <= i < |args| ensures args[i] == t'.args[i] {
        UnfoldsOnce(refs, e.node.args[i], args[i], t'.args[i]);
      }
      assert args == t'.args;
    case TRef(n, target) => UnfoldsOnce(refs, refs[n], target, t'.target);
    case _ =>
  }

  // Arithmetic

  function Power(x: real, n: nat): real {
    if n == 0 then 1.0 else x * Power(x, n - 1)
  }

  function NatPower(d: nat, n: nat): (r: nat)
    ensures d > 0 ==> r > 0
  {
    if n == 0 then 1 else PositiveTimes(d, NatPower(d, n - 1))
  }

  function PositiveTimes(a: nat, b: nat): (r: nat)
    ensures r == a * b && (a > 0 && b > 0 ==> r > 0)
  {
    a * b
  }

  /** Halves away from zero, as std::round does. */
  function RoundHalfAway(x: real): int {
    if x >= 0.0 then (x + 0.5).Floor else -(0.5 - x).Floor
  }

  function Signum(x: real): real {
    if x > 0.0 then 1.0 else if x < 0.0 then -1.0 else 0.0
  }

  function ApplyUnary(lib: Library, op: UnaryOp, x: real): real {
    match op
    case Negate => -x
    case Abs => if x < 0.0 then -x else x
    case Sign => Signum(x)
    case MultInv => if x == 0.0 then lib.unary(MultInv, x) else 1.0 / x
    case Square => x * x
    case Round => RoundHalfAway(x) as real
    case Floor => x.Floor as real
    case Ceil => -((-x).Floor as real)
    case _ => lib.unary(op, x)
  }

  function ApplyBinary(lib: Library, op: BinaryOp, a: real, b: real): real {
    match op
    case Sum => a + b
    case Prod => a * b
    case Pow => lib.pow(a, b)
    case Min => if b < a then b else a
    case Max => if a < b then b else a
    case LessEqThan => if a <= b then 1.0 else 0.0
    case GreaterThan => if a > b then 1.0 else 0.0
  }

  /** Rounding down, up and to the nearest integer, halves away from 0. */
  lemma RoundingExactly(lib: Library, x: real, n: int)
    ensures ApplyUnary(lib, Floor, x) == n as real <==> n as real <= x < n as real + 1.0
    ensures ApplyUnary(lib, Ceil, x) == n as real <==> n as real - 1.0 < x <= n as real
    ensures ApplyUnary(lib, Round, x) == n as real <==>
            -0.5 < x - n as real < 0.5 || (n > 0 && x == n as real - 0.5) || (n < 0 && x == n as real + 0.5)
  {
    assert ApplyUnary(lib, Floor, x) == n as real <==> x.Floor == n;
    assert ApplyUnary(lib, Ceil, x) == n as real <==> (-x).Floor == -n;
    assert ApplyUnary(lib, Round, x) == n as real <==> RoundHalfAway(x) == n;
  }

  /** Of the two comparisons exactly one holds; the smaller and the greater value are the two values. */
  lemma ComparisonsExclude(lib: Library, a: real, b: real)
    ensures ApplyBinary(lib, LessEqThan, a, b) == 1.0 - ApplyBinary(lib, GreaterThan, a, b)
    ensures ApplyBinary(lib, GreaterThan, a, b) == 1.0 <==> b < a
    ensures ApplyBinary(lib, LessEqThan, a, b) == 1.0 <==> ApplyBinary(lib, Min, a, b) == a
    ensures ApplyBinary(lib, GreaterThan, a, b) == 1.0 ==> ApplyBinary(lib, Max, a, b) == a
    ensures ApplyBinary(lib, Min, a, b) + ApplyBinary(lib, Max, a, b) == a + b
  {
  }

  // Polynomials: the exponents of a monomial are the digits of its offset to the base d

  function Exponent(offset: nat, d: nat, v: nat): nat
    requires d > 0
  {
    offset / NatPower(d, v) % d
  }

  function Exponents(offset: nat, d: nat, n: nat): (exps: seq<nat>)
    requires d > 0
    ensures |exps| == n
  {
    seq(n, v requires 0 <= v < n => Exponent(offset, d, v))
  }

  /** x^e, or its derivative. */
  function Factor(x: real, e: nat, derive: bool): real {
    if !derive then Power(x, e)
    else if e == 0 then 0.0
    else (e as real) * Power(x, e - 1)
  }

  /** The product of the first n factors, the one at dVar derived. */
  function MonomialTo(point: seq<real>, exps: seq<nat>, dVar: int, n: nat): real
    requires n <= |point| && n <= |exps|
  {
    if n == 0 then 1.0
    else MonomialTo(point, exps, dVar, n - 1) * Factor(point[n - 1], exps[n - 1], dVar == n - 1)
  }

  lemma {:induction false} MonomialVanishes(point: seq<real>, exps: seq<nat>, dVar: nat, n: nat)
    requires dVar < n <= |point| && n <= |exps| && exps[dVar] == 0
    ensures MonomialTo(point, exps, dVar, n) == 0.0
  {
    if dVar < n - 1 {
      MonomialVanishes(point, exps, dVar, n - 1);
    }
  }

  function PolyTo(poly: Polynomial, point: seq<real>, dVar: int, n: nat): real
    requires n <= |poly.coefficients|
  {
    if n == 0 then 0.0
    else PolyTo(poly, point, dVar, n - 1) + Term(poly, point, dVar, n - 1)
  }

  function Term(poly: Polynomial, point: seq<real>, dVar: int, k: nat): real
    requires k < |poly.coefficients|
  {
    var c := poly.coefficients[k];
    c.value * MonomialTo(point, Exponents(c.offset, poly.maxVarDegree + 1, |point|), dVar, |point|)
  }

  function Lookup(vars: ValueMap, v: string): real {
    if v in vars then vars[v] else 0.0
  }

  function Point(vars: ValueMap, names: seq<string>): (point: seq<real>)
    ensures |point| == |names|
  {
    seq(|names|, i requires 0 <= i < |names| => Lookup(vars, names[i]))
  }

  /** The polynomial (dVar = -1), or its derivative by its dVar-th variable. */
  function PolyValue(poly: Polynomial, vars: ValueMap, dVar: int): real {
    PolyTo(poly, Point(vars, poly.variables), dVar, |poly.coefficients|)
  }

  // What a tree denotes, and what evaluating it costs

  function Value(lib: Library, vars: ValueMap, t: Tree): real {
    match t
    case TReal(x) => x
    case TPoly(p) => PolyValue(p, vars, -1)
    case TUnary(op, a) => ApplyUnary(lib, op, Value(lib, vars, a))
    case TBinary(op, a, b) => ApplyBinary(lib, op, Value(lib, vars, a), Value(lib, vars, b))
    case TList(SumAll, args) => SumOf(lib, vars, args)
    case TList(ProdAll, args) => ProductOf(lib, vars, args)
    case TRef(_, target) => Value(lib, vars, target)
    case TVariable(v) => Lookup(vars, v)
  }

  function SumOf(lib: Library, vars: ValueMap, ts: seq<Tree>): real {
    if ts == [] then 0.0 else SumOf(lib, vars, ts[..|ts| - 1]) + Value(lib, vars, ts[|ts| - 1])
  }

  function ProductOf(lib: Library, vars: ValueMap, ts: seq<Tree>): real {
    if ts == [] then 1.0 else ProductOf(lib, vars, ts[..|ts| - 1]) * Value(lib, vars, ts[|ts| - 1])
  }

  function Size(t: Tree): (n: nat)
    ensures n > 0
  {
    match t
    case TUnary(_, a) => 1 + Size(a)
    case TBinary(_, a, b) => 1 + Size(a) + Size(b)
    case TList(_, args) => 1 + SizeAll(args)
    case TRef(_, target) => 1 + Size(target)
    case _ => 1
  }

  function SizeAll(ts: seq<Tree>): nat {
    if ts == [] then 0 else SizeAll(ts[..|ts| - 1]) + Size(ts[|ts| - 1])
  }

  lemma {:induction false} SizeAllPrefix(ts: seq<Tree>, n: nat)
    requires n <= |ts|
    ensures SizeAll(ts[..n]) <= SizeAll(ts)
  {
    if n < |ts| {
      SizeAllPrefix(ts[..|ts| - 1], n);
      assert ts[..|ts| - 1][..n] == ts[..n];
    } else {
      assert ts[..n] == ts;
    }
  }
}
