/** adv-interpreter-eval.cpp: what evalPartialDerivative computes, on unfolded expressions, and when this is
    the derivative.

    As a function of the step h, the value of an algebraic expression at the shifted point is a polynomial in
    h with coefficients that do not depend on h; the derivative is its coefficient of h. */
module Derivatives {
  import opened Expressions

  const LOG10E: real := 0.43429448190325182765

  function Divide(lib: Library, a: real, b: real): real {
    if b == 0.0 then a * lib.unary(MultInv, b) else a / b
  }

  /** Rules for the operations of one argument, of value v and derivative d. */
  function DUnary(lib: Library, op: UnaryOp, v: real, d: real): real {
    match op
    case Negate => -d
    case Exp => lib.unary(Exp, v) * d
    case Sin => lib.unary(Cos, v) * d
    case Cos => -lib.unary(Sin, v) * d
    case Tan => Divide(lib, 1.0, lib.unary(Cos, v) * lib.unary(Cos, v)) * d
    case Square => 2.0 * d
    case Sqrt => Divide(lib, 1.0, 2.0 * lib.unary(Sqrt, v)) * d
    case Log10 => Divide(lib, LOG10E, v) * d
    case Ln => Divide(lib, 1.0, v) * d
    case MultInv => Divide(lib, -1.0, v * v) * d
    case Round => d
    case Floor => d
    case Ceil => d
    case Abs => Signum(v) * d
    case Sign => 0.0
  }

  predicate NeedsValue(op: UnaryOp) {
    op in {Exp, Sin, Cos, Tan, Sqrt, Log10, Ln, MultInv, Abs}
  }

  /** Rules for the operations of two arguments. */
  function DBinary(lib: Library, op: BinaryOp, a: real, da: real, b: real, db: real): real {
    match op
    case Sum => da + db
    case Prod => a * db + b * da
    case LessEqThan => 0.0
    case GreaterThan => 0.0
    case Min => if a <= b then da else db
    case Max => if a > b then da else db
    case Pow => lib.pow(a, b - 1.0) * (b * da + a * lib.unary(Ln, a) * db)
  }

  /** m times the product of vs[0], ..., vs[n - 1] but vs[i]. */
  function Except(vs: seq<real>, i: nat, n: nat, m: real): real
    requires n <= |vs|
  {
    if n == 0 then m else if n - 1 == i then Except(vs, i, n - 1, m) else Except(vs, i, n - 1, m) * vs[n - 1]
  }

  function Values(lib: Library, vars: ValueMap, ts: seq<Tree>): (vs: seq<real>)
    ensures |vs| == |ts|
  {
    seq(|ts|, i requires 0 <= i < |ts| => Value(lib, vars, ts[i]))
  }

  /** The index of the first occurrence, or -1. */
  function IndexOf(names: seq<string>, x: string): (i: int)
    ensures -1 <= i < |names| && (i >= 0 ==> names[i] == x) && (x in names ==> i >= 0)
    ensures forall k | 0 <= k < (if i >= 0 then i else |names|) :: names[k] != x
    decreases |names|
  {
    if names == [] then -1
    else if names[0] == x then 0
    else var i := IndexOf(names[1..], x); if i >= 0 then i + 1 else -1
  }

  function DPoly(poly: Polynomial, vars: ValueMap, x: string): real {
    var i := IndexOf(poly.variables, x);
    if i >= 0 then PolyValue(poly, vars, i) else 0.0
  }

  function DValue(lib: Library, vars: ValueMap, x: string, t: Tree): real
    decreases t, 0
  {
    match t
    case TReal(_) => 0.0
    case TPoly(p) => DPoly(p, vars, x)
    case TUnary(op, a) => DUnary(lib, op, Value(lib, vars, a), DValue(lib, vars, x, a))
    case TBinary(op, a, b) =>
      DBinary(lib, op, Value(lib, vars, a), DValue(lib, vars, x, a), Value(lib, vars, b), DValue(lib, vars, x, b))
    case TList(SumAll, args) => DSumTo(lib, vars, x, args, |args|)
    case TList(ProdAll, args) => DProductTo(lib, vars, x, args, |args|)
    case TRef(_, target) => DValue(lib, vars, x, target)
    case TVariable(v) => if v == x then 1.0 else 0.0
  }

  function DSumTo(lib: Library, vars: ValueMap, x: string, ts: seq<Tree>, n: nat): real
    requires n <= |ts|
    decreases ts, n
  {
    if n == 0 then 0.0 else DSumTo(lib, vars, x, ts, n - 1) + DValue(lib, vars, x, ts[n - 1])
  }

  /** The sum, over the first n factors, of the derivative of the factor times all other factors. */
  function DProductTo(lib: Library, vars: ValueMap, x: string, ts: seq<Tree>, n: nat): real
    requires n <= |ts|
    decreases ts, n
  {
    if n == 0 then 0.0
    else DProductTo(lib, vars, x, ts, n - 1) +
         Except(Values(lib, vars, ts), n - 1, |ts|, DValue(lib, vars, x, ts[n - 1]))
  }

  /** The number of visits: where a rule needs the value of an argument, that is evaluated too. */
  function DCost(lib: Library, vars: ValueMap, t: Tree): (n: nat)
    ensures n > 0
    decreases t, 0
  {
    match t
    case TUnary(op, a) =>
      if op == Sign then 1 else 1 + (if NeedsValue(op) then Size(a) else 0) + DCost(lib, vars, a)
    case TBinary(op, a, b) => (
      match op
      case Sum => 1 + DCost(lib, vars, a) + DCost(lib, vars, b)
      case LessEqThan => 1
      case GreaterThan => 1
      case Min =>
        1 + Size(a) + Size(b) + DCost(lib, vars, if Value(lib, vars, a) <= Value(lib, vars, b) then a else b)
      case Max =>
        1 + Size(a) + Size(b) + DCost(lib, vars, if Value(lib, vars, a) > Value(lib, vars, b) then a else b)
      case _ => 1 + Size(a) + Size(b) + DCost(lib, vars, a) + DCost(lib, vars, b))
    case TList(op, args) => 1 + (if op == ProdAll then SizeAll(args) else 0) + DCostTo(lib, vars, args, |args|)
    case TRef(_, target) => 1 + DCost(lib, vars, target)
    case _ => 1
  }

  function DCostTo(lib: Library, vars: ValueMap, ts: seq<Tree>, n: nat): nat
    requires n <= |ts|
    decreases ts, n
  {
    if n == 0 then 0 else DCostTo(lib, vars, ts, n - 1) + DCost(lib, vars, ts[n - 1])
  }

  lemma SquareOfSum(a: nat, b: nat, n: nat)
    requires n == a + b
    ensures a * a + b * b <= n * n
  {
    assert n * n == a * a + b * b + 2 * (a * b);
  }

  lemma SquareOfNext(a: nat, n: nat)
    requires n == 1 + a
    ensures 1 + a + a * a <= n * n
  {
  }

  /** Deriving takes at most the square of the visits that evaluating takes. */
  lemma {:induction false} DCostAtMostSquare(lib: Library, vars: ValueMap, t: Tree)
    ensures DCost(lib, vars, t) <= Size(t) * Size(t)
    decreases t, 0
  {
    match t
    case TUnary(op, a) =>
      DCostAtMostSquare(lib, vars, a);
      SquareOfNext(Size(a), Size(t));
    case TBinary(op, a, b) =>
      DCostAtMostSquare(lib, vars, a);
      DCostAtMostSquare(lib, vars, b);
      var n := Size(a) + Size(b);
      SquareOfSum(Size(a), Size(b), n);
      SquareOfNext(n, Size(t));
    case TList(op, args) =>
      DCostToAtMostSquare(lib, vars, args, |args|);
      assert args[..|args|] == args;
      SquareOfNext(SizeAll(args), Size(t));
    case TRef(_, target) =>
      DCostAtMostSquare(lib, vars, target);
      SquareOfNext(Size(target), Size(t));
    case _ =>
  }

  lemma {:induction false} DCostToAtMostSquare(lib: Library, vars: ValueMap, ts: seq<Tree>, n: nat)
    requires n <= |ts|
    ensures DCostTo(lib, vars, ts, n) <= SizeAll(ts[..n]) * SizeAll(ts[..n])
    decreases ts, n
  {
    if n > 0 {
      DCostToAtMostSquare(lib, vars, ts, n - 1);
      DCostAtMostSquare(lib, vars, ts[n - 1]);
      assert ts[..n][..n - 1] == ts[..n - 1];
      SquareOfSum(SizeAll(ts[..n - 1]), Size(ts[n - 1]), SizeAll(ts[..n]));
    }
  }

  lemma {:induction false} DCostMonotone(lib: Library, vars: ValueMap, ts: seq<Tree>, k: nat, n: nat)
    requires k <= n <= |ts|
    ensures DCostTo(lib, vars, ts, k) <= DCostTo(lib, vars, ts, n)
  {
    if k < n {
      DCostMonotone(lib, vars, ts, k, n - 1);
    }
  }
}
