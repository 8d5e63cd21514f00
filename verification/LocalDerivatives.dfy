/** evalPartialDerivative in adv-interpreter-eval.cpp, for expressions that are no polynomials: its rules against the
    derivative of the value along the step, in a neighbourhood of the point. */
module LocalDerivatives {
  import opened Calculus
  import opened Derivatives
  import opened DerivativeTheorems
  import opened Expressions
  import opened Interpreter
  import opened Slopes
  import opened Vectors

  /** The value at a step h from the point is the value there plus h*d, up to b*h^2, for all steps up to some r. */
  ghost predicate HasSlope(lib: Library, vars: ValueMap, x: string, t: Tree, d: real) {
    Slope(Along(lib, vars, x, t), Value(lib, vars, t), d)
  }

  // Operations of one argument

  ghost function OpAt(lib: Library, op: UnaryOp, v: real): real -> real {
    k => ApplyUnary(lib, op, v + k)
  }

  /** The operation has the derivative s at v. */
  ghost predicate OpSlope(lib: Library, op: UnaryOp, v: real, s: real) {
    Slope(OpAt(lib, op, v), ApplyUnary(lib, op, v), s)
  }

  lemma SlopeOfOp(lib: Library, vars: ValueMap, x: string, op: UnaryOp, a: Tree, d: real, s: real, c: real)
    requires HasSlope(lib, vars, x, a, d) && OpSlope(lib, op, Value(lib, vars, a), s) && IsTimes(c, s, d)
    ensures HasSlope(lib, vars, x, TUnary(op, a), c)
  {
    var f, g, v := Along(lib, vars, x, a), OpAt(lib, op, Value(lib, vars, a)), Value(lib, vars, a);
    var k := Along(lib, vars, x, TUnary(op, a));
    forall h: real ensures k(h) == g(f(h) - v) {
      BackAgain(v, f(h));
    }
    SlopeChain(f, v, d, g, ApplyUnary(lib, op, v), s, k, c);
  }

  lemma BackAgain(v: real, y: real)
    ensures v + (y - v) == y
  {
  }

  lemma InverseOp(lib: Library, v: real, w: real, ww: real)
    requires v != 0.0 && IsTimes(1.0, w, v) && IsTimes(ww, w, w)
    ensures OpSlope(lib, MultInv, v, -ww)
  {
    var g := OpAt(lib, MultInv, v);
    forall k: real | v + k != 0.0 ensures IsTimes(1.0, g(k), v + k) {
      InverseIs(lib, v + k, g(k));
    }
    InverseUnique(lib, v, w);
    InverseSlope(g, v, w, ww);
  }

  lemma InverseIs(lib: Library, v: real, w: real)
    requires v != 0.0 && w == ApplyUnary(lib, MultInv, v)
    ensures IsTimes(1.0, w, v)
  {
  }

  lemma InverseUnique(lib: Library, v: real, w: real)
    requires v != 0.0 && IsTimes(1.0, w, v)
    ensures ApplyUnary(lib, MultInv, v) == w
  {
  }

  lemma AbsOp(lib: Library, v: real)
    requires v != 0.0
    ensures OpSlope(lib, UnaryOp.Abs, v, Signum(v)) && OpSlope(lib, Sign, v, 0.0)
  {
    var r, f, g := Vectors.Abs(v) / 2.0, OpAt(lib, UnaryOp.Abs, v), OpAt(lib, Sign, v);
    var a := ApplyUnary(lib, UnaryOp.Abs, v);
    forall k: real | -r <= k <= r ensures f(k) == a + k * Signum(v) && g(k) == Signum(v) + k * 0.0 {
      SameSign(lib, v, k, f(k), g(k));
    }
    LinearSlope(f, a, Signum(v), r);
    LinearSlope(g, Signum(v), 0.0, r);
  }

  lemma SameSign(lib: Library, v: real, k: real, y: real, z: real)
    requires v != 0.0 && 2.0 * Vectors.Abs(k) <= Vectors.Abs(v)
    requires y == ApplyUnary(lib, UnaryOp.Abs, v + k) && z == ApplyUnary(lib, Sign, v + k)
    ensures y == ApplyUnary(lib, UnaryOp.Abs, v) + k * Signum(v) && z == Signum(v) + k * 0.0
  {
    if v > 0.0 {
      assert v + k > 0.0 && k * Signum(v) == k;
    } else {
      assert v + k < 0.0 && k * Signum(v) == -k;
    }
  }

  /** The places where rounding jumps. */
  predicate Jumps(op: UnaryOp, v: real) {
    match op
    case Floor => v == v.Floor as real
    case Ceil => v == v.Floor as real
    case Round => v + 0.5 == (v + 0.5).Floor as real
    case _ => false
  }

  predicate IsStep(op: UnaryOp) {
    op == Round || op == Floor || op == Ceil
  }

  lemma StepOp(lib: Library, op: UnaryOp, v: real)
    requires IsStep(op) && !Jumps(op, v)
    ensures OpSlope(lib, op, v, 0.0)
  {
    var u := if op == Round then v + 0.5 else v;
    var n := u.Floor;
    var below, above := u - n as real, n as real + 1.0 - u;
    var r := (if below <= above then below else above) / 2.0;
    var g, w := OpAt(lib, op, v), ApplyUnary(lib, op, v);
    forall k: real | -r <= k <= r ensures g(k) == w + k * 0.0 {
      SameStep(lib, op, v, k, u, n);
    }
    LinearSlope(g, w, 0.0, r);
  }

  lemma FloorIs(x: real, n: int)
    requires n as real <= x < n as real + 1.0
    ensures x.Floor == n
  {
  }

  lemma SameStep(lib: Library, op: UnaryOp, v: real, k: real, u: real, n: int)
    requires IsStep(op) && u == (if op == Round then v + 0.5 else v)
    requires n as real < u < n as real + 1.0 && n as real < u + k < n as real + 1.0
    ensures ApplyUnary(lib, op, v + k) == ApplyUnary(lib, op, v)
  {
    StepIs(lib, op, v, u, n);
    StepIs(lib, op, v + k, u + k, n);
  }

  lemma StepIs(lib: Library, op: UnaryOp, v: real, u: real, n: int)
    requires IsStep(op) && u == (if op == Round then v + 0.5 else v) && n as real < u < n as real + 1.0
    ensures ApplyUnary(lib, op, v) == (if op == Ceil then (n + 1) as real else n as real)
  {
    FloorIs(u, n);
    FloorIs(-u, -n - 1);
    if op == Round {
      assert 0.5 - v == -u + 1.0;
      FloorIs(0.5 - v, -n);
    }
  }

  lemma NegateOp(lib: Library, v: real)
    ensures OpSlope(lib, Negate, v, -1.0)
  {
    var g := OpAt(lib, Negate, v);
    forall k: real ensures g(k) == -v + k * -1.0 {
      assert g(k) == ApplyUnary(lib, Negate, v + k);
    }
    LinearSlope(g, -v, -1.0, 1.0);
  }

  lemma SquareOp(lib: Library, v: real, s: real)
    requires s == 2.0 * v
    ensures OpSlope(lib, Square, v, s)
  {
    var g, w := OpAt(lib, Square, v), ApplyUnary(lib, Square, v);
    forall k: real | -1.0 <= k <= 1.0 ensures FirstOrder(g(k), w, s, k, 1.0) {
      SquareNear(lib, v, s, k, g(k), w);
    }
    assert Near(g, w, s, 1.0, 1.0);
  }

  lemma SquareNear(lib: Library, v: real, s: real, k: real, y: real, w: real)
    requires s == 2.0 * v && y == ApplyUnary(lib, Square, v + k) && w == ApplyUnary(lib, Square, v)
    ensures FirstOrder(y, w, s, k, 1.0)
  {
    assert y - (w + k * s) == k * k;
    SquarePositive(k, k * k);
  }

  /** b*s = a */
  ghost predicate IsQuotient(s: real, a: real, b: real) {
    b != 0.0 && IsTimes(a, b, s)
  }

  lemma DivideIs(lib: Library, a: real, b: real, s: real)
    requires IsQuotient(s, a, b)
    ensures Divide(lib, a, b) == s
  {
  }

  /** s is the derivative at v that a table of derivatives gives for the operation. */
  ghost predicate Textbook(lib: Library, op: UnaryOp, v: real, s: real) {
    match op
    case Negate => s == -1.0
    case Exp => s == lib.unary(Exp, v)
    case Sin => s == lib.unary(Cos, v)
    case Cos => s == -lib.unary(Sin, v)
    case Tan => IsQuotient(s, 1.0, lib.unary(Cos, v) * lib.unary(Cos, v))
    case Square => s == 2.0 * v
    case Sqrt => IsQuotient(s, 1.0, 2.0 * lib.unary(Sqrt, v))
    case Log10 => IsQuotient(s, LOG10E, v)
    case Ln => IsQuotient(s, 1.0, v)
    case MultInv => v != 0.0 && IsQuotient(s, -1.0, v * v)
    case Abs => v != 0.0 && s == Signum(v)
    case Sign => v != 0.0 && s == 0.0
    case _ => !Jumps(op, v) && s == 0.0
  }

  /** The functions that the model takes from the library; of these it is a condition that their derivatives are
      those of the table. */
  predicate FromLibrary(op: UnaryOp) {
    op in {Exp, Sin, Cos, Tan, Sqrt, Log10, Ln}
  }

  ghost predicate Smooth(lib: Library, op: UnaryOp, v: real, s: real) {
    Textbook(lib, op, v, s) && (FromLibrary(op) ==> Slope(LibraryAt(lib, op, v), lib.unary(op, v), s))
  }

  ghost function LibraryAt(lib: Library, op: UnaryOp, v: real): real -> real {
    k => lib.unary(op, v + k)
  }

  lemma LibraryOp(lib: Library, op: UnaryOp, v: real, s: real)
    requires FromLibrary(op) && Slope(LibraryAt(lib, op, v), lib.unary(op, v), s)
    ensures OpSlope(lib, op, v, s)
  {
    var f, g := LibraryAt(lib, op, v), OpAt(lib, op, v);
    forall k: real ensures f(k) == g(k) {
      FromLibraryIs(lib, op, v + k);
    }
    FromLibraryIs(lib, op, v);
    SlopeSame(f, g, lib.unary(op, v), s, 1.0);
  }

  lemma FromLibraryIs(lib: Library, op: UnaryOp, v: real)
    requires FromLibrary(op)
    ensures ApplyUnary(lib, op, v) == lib.unary(op, v)
  {
  }

  /** The table is right for the operations that are not the library's. */
  lemma TextbookRight(lib: Library, op: UnaryOp, v: real, s: real)
    requires Smooth(lib, op, v, s)
    ensures OpSlope(lib, op, v, s)
  {
    match op
    case Negate => NegateOp(lib, v);
    case Square => SquareOp(lib, v, s);
    case MultInv =>
      var w := ApplyUnary(lib, MultInv, v);
      InverseIs(lib, v, w);
      SquareOfInverse(v, w, s);
      InverseOp(lib, v, w, -s);
    case Abs => AbsOp(lib, v);
    case Sign => AbsOp(lib, v);
    case Round => StepOp(lib, op, v);
    case Floor => StepOp(lib, op, v);
    case Ceil => StepOp(lib, op, v);
    case _ => LibraryOp(lib, op, v, s);
  }

  lemma SquareOfInverse(v: real, w: real, s: real)
    requires v != 0.0 && IsTimes(1.0, w, v) && IsQuotient(s, -1.0, v * v)
    ensures IsTimes(-s, w, w)
  {
    var p := w * w;
    assert p * (v * v) == 1.0;
    assert (p + s) * (v * v) == 0.0;
  }

  /** Rounding is passed over, and 2*f' computed for a square. */
  predicate RuleHolds(op: UnaryOp, v: real, d: real) {
    match op
    case Square => d == 0.0 || v == 1.0
    case Round => d == 0.0
    case Floor => d == 0.0
    case Ceil => d == 0.0
    case _ => true
  }

  /** How the interpreter takes up a quotient q. */
  lemma QuotientRule(lib: Library, a: real, b: real, q: real, s: real, d: real, c: real)
    requires q == Divide(lib, a, b) && IsQuotient(s, a, b) && IsTimes(c, s, d)
    ensures IsTimes(c, q, d)
  {
    DivideIs(lib, a, b, s);
  }

  lemma QuotientOps(lib: Library, op: UnaryOp, v: real, d: real, s: real, c: real, a: real, b: real)
    requires Textbook(lib, op, v, s) && IsTimes(c, s, d) && op in {Tan, Sqrt, Log10, Ln, MultInv}
    requires a == (if op == Log10 then LOG10E else if op == MultInv then -1.0 else 1.0)
    requires b == match op
                  case Tan => lib.unary(Cos, v) * lib.unary(Cos, v)
                  case Sqrt => 2.0 * lib.unary(Sqrt, v)
                  case MultInv => v * v
                  case _ => v
    ensures DUnary(lib, op, v, d) == c
  {
    QuotientRule(lib, a, b, Divide(lib, a, b), s, d, c);
    assert IsTimes(DUnary(lib, op, v, d), Divide(lib, a, b), d);
  }

  lemma RuleIsChain(lib: Library, op: UnaryOp, v: real, d: real, s: real, c: real)
    requires Textbook(lib, op, v, s) && IsTimes(c, s, d)
    ensures DUnary(lib, op, v, d) == c <==> RuleHolds(op, v, d)
  {
    match op
    case Tan => QuotientOps(lib, op, v, d, s, c, 1.0, lib.unary(Cos, v) * lib.unary(Cos, v));
    case Sqrt => QuotientOps(lib, op, v, d, s, c, 1.0, 2.0 * lib.unary(Sqrt, v));
    case Log10 => QuotientOps(lib, op, v, d, s, c, LOG10E, v);
    case Ln => QuotientOps(lib, op, v, d, s, c, 1.0, v);
    case MultInv => QuotientOps(lib, op, v, d, s, c, -1.0, v * v);
    case Square => Doubled(v, d, Twice(v, d), 2.0 * d);
    case _ =>
  }

  /** Every rule for one argument is the chain rule with the derivative from the table: where there is one, what the
      interpreter computes is the derivative, but for squares and rounding, where this is so exactly when stated. */
  lemma UnaryRuleExact(lib: Library, vars: ValueMap, x: string, op: UnaryOp, a: Tree, d: real, s: real)
    requires HasSlope(lib, vars, x, a, d) && Smooth(lib, op, Value(lib, vars, a), s)
    ensures HasSlope(lib, vars, x, TUnary(op, a), DUnary(lib, op, Value(lib, vars, a), d)) <==>
            RuleHolds(op, Value(lib, vars, a), d)
  {
    var v, c, t := Value(lib, vars, a), Times(s, d), TUnary(op, a);
    TextbookRight(lib, op, v, s);
    SlopeOfOp(lib, vars, x, op, a, d, s, c);
    RuleIsChain(lib, op, v, d, s, c);
    if HasSlope(lib, vars, x, t, DUnary(lib, op, v, d)) {
      SlopeOnce(Along(lib, vars, x, t), Value(lib, vars, t), c, DUnary(lib, op, v, d));
    }
  }

  ghost predicate AbsAlong(f: real -> real, k: real -> real) {
    forall h: real :: k(h) == if f(h) < 0.0 then -f(h) else f(h)
  }

  lemma AbsFunction(f: real -> real, d: real, k: real -> real)
    requires Slope(f, 0.0, d) && AbsAlong(f, k)
    ensures Slope(k, 0.0, 0.0) <==> d == 0.0
  {
    if d == 0.0 {
      var g := PartAlong(-1.0, f, 0.0);
      PartSlope(-1.0, f, 0.0, 0.0, 0.0);
      forall h: real ensures g(h) == -f(h) {
        PartAt(-1.0, f, 0.0, h);
      }
      EitherSlope(f, g, k, 0.0, 0.0);
    }
    if Slope(k, 0.0, 0.0) {
      var e := Difference(k, f);
      SlopeMinus(k, 0.0, 0.0, f, 0.0, d, e, 0.0, -d);
      LeastSlope(e, -d, 1.0);
    }
  }

  /** Where the argument is 0 the absolute value has a derivative exactly when that of the argument is 0, and then
      what the interpreter computes is right too. */
  lemma AbsAtZero(lib: Library, vars: ValueMap, x: string, a: Tree, d: real)
    requires HasSlope(lib, vars, x, a, d) && Value(lib, vars, a) == 0.0
    ensures HasSlope(lib, vars, x, TUnary(UnaryOp.Abs, a), DUnary(lib, UnaryOp.Abs, 0.0, d)) <==> d == 0.0
  {
    AbsFunction(Along(lib, vars, x, a), d, Along(lib, vars, x, TUnary(UnaryOp.Abs, a)));
    assert DUnary(lib, UnaryOp.Abs, 0.0, d) == 0.0;
  }

  ghost function Difference(f: real -> real, g: real -> real): real -> real {
    h => f(h) - g(h)
  }

  // Operations of two arguments

  /** Where the smaller or the greater of two values is chosen. */
  lemma Ahead(lib: Library, vars: ValueMap, x: string, a: Tree, da: real, b: Tree, db: real) returns (r: real)
    requires HasSlope(lib, vars, x, a, da) && HasSlope(lib, vars, x, b, db)
    requires Value(lib, vars, a) < Value(lib, vars, b)
    ensures LessNear(Along(lib, vars, x, a), Along(lib, vars, x, b), r)
  {
    var f, g := Along(lib, vars, x, a), Along(lib, vars, x, b);
    var e, v, d := Difference(g, f), Value(lib, vars, b) - Value(lib, vars, a), db - da;
    SlopeMinus(g, Value(lib, vars, b), db, f, Value(lib, vars, a), da, e, v, d);
    r := StaysPositive(e, v, d);
    forall h: real | -r <= h <= r ensures f(h) < g(h) {
      assert e(h) > 0.0;
    }
  }

  ghost predicate Chooses(op: BinaryOp) {
    op == Min || op == Max
  }

  ghost predicate Applied(lib: Library, op: BinaryOp, f: real -> real, g: real -> real, k: real -> real) {
    forall h: real :: k(h) == ApplyBinary(lib, op, f(h), g(h))
  }

  ghost predicate LessNear(f: real -> real, g: real -> real, r: real) {
    r > 0.0 && forall h: real | -r <= h <= r :: f(h) < g(h)
  }

  /** Where f is less than g. */
  lemma Chosen(lib: Library, op: BinaryOp, f: real -> real, va: real, da: real, g: real -> real, vb: real, db: real,
               k: real -> real, r: real)
    requires Chooses(op) && (Applied(lib, op, f, g, k) || Applied(lib, op, g, f, k)) && LessNear(f, g, r)
    requires Slope(f, va, da) && Slope(g, vb, db)
    ensures if op == Min then Slope(k, va, da) else Slope(k, vb, db)
  {
    if op == Min {
      SlopeSame(f, k, va, da, r);
    } else {
      SlopeSame(g, k, vb, db, r);
    }
  }

  lemma Compared(lib: Library, op: BinaryOp, f: real -> real, g: real -> real, k: real -> real, v: real, r: real)
    requires Applied(lib, op, f, g, k) && (LessNear(f, g, r) || LessNear(g, f, r)) && k(0.0) == v
    requires op == LessEqThan || op == GreaterThan
    ensures Slope(k, v, 0.0)
  {
    assert LessNear(f, g, r) ==> f(0.0) < g(0.0);
    assert LessNear(g, f, r) ==> g(0.0) < f(0.0);
    ConstantSlope(v);
    SlopeSame(ConstantAlong(v), k, v, 0.0, r);
  }

  /** The comparison of different values does not change near the point. */
  lemma Apart(lib: Library, vars: ValueMap, x: string, op: BinaryOp, a: Tree, da: real, b: Tree, db: real)
    requires HasSlope(lib, vars, x, a, da) && HasSlope(lib, vars, x, b, db) && op != Sum && op != Prod && op != Pow
    requires Value(lib, vars, a) != Value(lib, vars, b)
    ensures HasSlope(lib, vars, x, TBinary(op, a, b),
                     DBinary(lib, op, Value(lib, vars, a), da, Value(lib, vars, b), db))
  {
    var f, g, k := Along(lib, vars, x, a), Along(lib, vars, x, b), Along(lib, vars, x, TBinary(op, a, b));
    var va, vb, v := Value(lib, vars, a), Value(lib, vars, b), Value(lib, vars, TBinary(op, a, b));
    NotShifted(vars, x);
    assert Applied(lib, op, f, g, k);
    if va < vb {
      var r := Ahead(lib, vars, x, a, da, b, db);
      if Chooses(op) {
        Chosen(lib, op, f, va, da, g, vb, db, k, r);
      } else {
        Compared(lib, op, f, g, k, v, r);
      }
    } else {
      var r := Ahead(lib, vars, x, b, db, a, da);
      if Chooses(op) {
        Chosen(lib, op, g, vb, db, f, va, da, k, r);
      } else {
        Compared(lib, op, f, g, k, v, r);
      }
    }
  }

  /** Where two functions are equal, the derivative of the smaller or the greater one can only be that of both. */
  lemma ChosenLevel(lib: Library, op: BinaryOp, f: real -> real, v: real, da: real, g: real -> real, db: real,
                    k: real -> real, e: real)
    requires Slope(f, v, da) && Slope(g, v, db) && Chooses(op) && Applied(lib, op, f, g, k)
    requires e == (if op == Min then da else db)
    ensures Slope(k, v, e) <==> da == db
  {
    if da == db {
      EitherSlope(f, g, k, v, da);
    }
    if Slope(k, v, e) {
      var upper, lower := if op == Min then g else k, if op == Min then k else f;
      var rest := Difference(upper, lower);
      SlopeMinus(upper, v, db, lower, v, da, rest, 0.0, db - da);
      LeastSlope(rest, db - da, 1.0);
    }
  }

  /** Where the values are equal, the smaller and the greater have a derivative exactly when those of the arguments are
      equal, and then the interpreter computes that. */
  lemma Level(lib: Library, vars: ValueMap, x: string, op: BinaryOp, a: Tree, da: real, b: Tree, db: real)
    requires HasSlope(lib, vars, x, a, da) && HasSlope(lib, vars, x, b, db) && Chooses(op)
    requires Value(lib, vars, a) == Value(lib, vars, b)
    ensures
      HasSlope(lib, vars, x, TBinary(op, a, b), DBinary(lib, op, Value(lib, vars, a), da, Value(lib, vars, b), db)) <==>
      da == db
  {
    var f, g, k := Along(lib, vars, x, a), Along(lib, vars, x, b), Along(lib, vars, x, TBinary(op, a, b));
    var v, e := Value(lib, vars, a), DBinary(lib, op, Value(lib, vars, a), da, Value(lib, vars, b), db);
    assert Applied(lib, op, f, g, k);
    ChosenLevel(lib, op, f, v, da, g, db, k, e);
  }

  /** The derivatives p and q of the power by its base and by its exponent are b*a^(b - 1) and a^b*ln a. */
  ghost predicate PowerAt(lib: Library, a: real, b: real, p: real, q: real, c: real, r: real) {
    && IsTimes(lib.pow(a, b), a, lib.pow(a, b - 1.0))
    && IsTimes(p, b, lib.pow(a, b - 1.0)) && IsTimes(q, lib.pow(a, b), lib.unary(Ln, a))
    && Plane(lib.pow, a, b, p, q, c, r)
  }

  lemma PowSlope(lib: Library, vars: ValueMap, x: string, a: Tree, da: real, b: Tree, db: real, p: real, q: real,
                 c: real, r: real)
    requires HasSlope(lib, vars, x, a, da) && HasSlope(lib, vars, x, b, db)
    requires PowerAt(lib, Value(lib, vars, a), Value(lib, vars, b), p, q, c, r)
    ensures HasSlope(lib, vars, x, TBinary(Pow, a, b),
                     DBinary(lib, Pow, Value(lib, vars, a), da, Value(lib, vars, b), db))
  {
    var f, g, k := Along(lib, vars, x, a), Along(lib, vars, x, b), Along(lib, vars, x, TBinary(Pow, a, b));
    assert Applied(lib, Pow, f, g, k) && IsComposite(k, lib.pow, f, g);
    PowFunctions(lib, f, Value(lib, vars, a), da, g, Value(lib, vars, b), db, k, p, q, c, r);
  }

  lemma PowFunctions(lib: Library, f: real -> real, va: real, da: real, g: real -> real, vb: real, db: real,
                     k: real -> real, p: real, q: real, c: real, r: real)
    requires Slope(f, va, da) && Slope(g, vb, db) && PowerAt(lib, va, vb, p, q, c, r)
    requires IsComposite(k, lib.pow, f, g)
    ensures Slope(k, lib.pow(va, vb), DBinary(lib, Pow, va, da, vb, db))
  {
    var d1, d2 := Times(p, da), Times(q, db);
    PowRule(lib, va, da, vb, db, p, q, d1, d2);
    SlopeChain2(f, va, da, g, vb, db, lib.pow, p, q, c, r, k, lib.pow(va, vb), d1, d2,
                DBinary(lib, Pow, va, da, vb, db));
  }

  lemma PowRule(lib: Library, a: real, da: real, b: real, db: real, p: real, q: real, d1: real, d2: real)
    requires IsTimes(lib.pow(a, b), a, lib.pow(a, b - 1.0)) && IsTimes(d1, p, da) && IsTimes(d2, q, db)
    requires IsTimes(p, b, lib.pow(a, b - 1.0)) && IsTimes(q, lib.pow(a, b), lib.unary(Ln, a))
    ensures DBinary(lib, Pow, a, da, b, db) == d1 + d2
  {
    PowNumbers(lib.pow(a, b - 1.0), lib.pow(a, b), lib.unary(Ln, a), a, da, b, db, p, q, d1, d2);
  }

  lemma PowNumbers(m: real, n: real, l: real, a: real, da: real, b: real, db: real, p: real, q: real, d1: real,
                   d2: real)
    requires n == a * m && p == b * m && q == n * l && d1 == p * da && d2 == q * db
    ensures m * (b * da + a * l * db) == d1 + d2
  {
    assert m * (b * da) == d1;
    assert m * (a * l * db) == d2;
  }

  // Lists

  ghost predicate AllHaveSlopes(lib: Library, vars: ValueMap, x: string, ts: seq<Tree>) {
    forall i | 0 <= i < |ts| :: HasSlope(lib, vars, x, ts[i], DValue(lib, vars, x, ts[i]))
  }

  lemma {:induction false} SumSlope(lib: Library, vars: ValueMap, x: string, ts: seq<Tree>, n': nat)
    requires n' <= |ts| && AllHaveSlopes(lib, vars, x, ts)
    ensures Slope(SumAlong(lib, vars, x, ts[..n']), SumOf(lib, vars, ts[..n']), DSumTo(lib, vars, x, ts, n'))
  {
    var k := SumAlong(lib, vars, x, ts[..n']);
    if n' == 0 {
      JetConstant(k, 0.0);
      JetSlope(k, 0.0, 0.0);
    } else {
      var n := n' - 1;
      SumSlope(lib, vars, x, ts, n);
      assert ts[..n'][..n] == ts[..n];
      SlopeSum(SumAlong(lib, vars, x, ts[..n]), SumOf(lib, vars, ts[..n]), DSumTo(lib, vars, x, ts, n),
               Along(lib, vars, x, ts[n]), Value(lib, vars, ts[n]), DValue(lib, vars, x, ts[n]),
               k, SumOf(lib, vars, ts[..n']), DSumTo(lib, vars, x, ts, n'));
    }
  }

  lemma {:induction false} ProductSlope(lib: Library, vars: ValueMap, x: string, ts: seq<Tree>, n': nat)
    returns (c0: real, c1: real)
    requires n' <= |ts| && AllHaveSlopes(lib, vars, x, ts)
    ensures IsProductOf(lib, vars, x, ts, n', c0, c1) && Slope(ProductAlong(lib, vars, x, ts[..n']), c0, c1)
  {
    var k := ProductAlong(lib, vars, x, ts[..n']);
    if n' == 0 {
      c0, c1 := 1.0, 0.0;
      JetConstant(k, 1.0);
      JetSlope(k, 1.0, 0.0);
    } else {
      var n := n' - 1;
      var a0, a1 := ProductSlope(lib, vars, x, ts, n);
      var f, g := ProductAlong(lib, vars, x, ts[..n]), Along(lib, vars, x, ts[n]);
      forall h: real ensures IsTimes(k(h), f(h), g(h)) {
        ProductStep(lib, Shifted(vars, x, h), ts, n, n', f(h), g(h), k(h));
      }
      var b0, b1 := Value(lib, vars, ts[n]), DValue(lib, vars, x, ts[n]);
      c0, c1 := ProductNumbers(lib, vars, x, ts, n, n', a0, a1, b0, b1);
      SlopeProduct(f, a0, a1, g, b0, b1, k, c0, c1);
    }
  }

  // Whole expressions

  ghost predicate Equal(f: real -> real, g: real -> real) {
    forall h: real :: f(h) == g(h)
  }

  lemma EqualSlope(f: real -> real, g: real -> real, v: real, d: real)
    requires Slope(f, v, d) && Equal(f, g)
    ensures Slope(g, v, d)
  {
    SlopeSame(f, g, v, d, 1.0);
  }

  /** The rule for one argument applies at the point. */
  ghost predicate UnaryRegular(lib: Library, op: UnaryOp, v: real, d: real) {
    if op.Abs? && v == 0.0 then d == 0.0 else RuleHolds(op, v, d) && exists s :: Smooth(lib, op, v, s)
  }

  ghost predicate BinaryRegular(lib: Library, op: BinaryOp, a: real, da: real, b: real, db: real) {
    match op
    case Sum => true
    case Prod => true
    case Min => a != b || da == db
    case Max => a != b || da == db
    case LessEqThan => a != b
    case GreaterThan => a != b
    case Pow => exists p, q, c, r :: PowerAt(lib, a, b, p, q, c, r)
  }

  /** At no node of the expression one of the rules fails, nor is there a jump or a kink. */
  ghost predicate Regular(lib: Library, vars: ValueMap, x: string, t: Tree)
    decreases t
  {
    match t
    case TReal(_) => true
    case TPoly(p) => LaterSlots(p, vars, x) == 0.0
    case TUnary(op, a) =>
      Regular(lib, vars, x, a) && UnaryRegular(lib, op, Value(lib, vars, a), DValue(lib, vars, x, a))
    case TBinary(op, a, b) =>
      && Regular(lib, vars, x, a) && Regular(lib, vars, x, b)
      && BinaryRegular(lib, op, Value(lib, vars, a), DValue(lib, vars, x, a), Value(lib, vars, b),
                       DValue(lib, vars, x, b))
    case TList(_, args) => forall i | 0 <= i < |args| :: Regular(lib, vars, x, args[i])
    case TRef(_, target) => Regular(lib, vars, x, target)
    case TVariable(_) => true
  }

  lemma UnarySlope(lib: Library, vars: ValueMap, x: string, op: UnaryOp, a: Tree, d: real)
    requires HasSlope(lib, vars, x, a, d) && UnaryRegular(lib, op, Value(lib, vars, a), d)
    ensures HasSlope(lib, vars, x, TUnary(op, a), DUnary(lib, op, Value(lib, vars, a), d))
  {
    var v := Value(lib, vars, a);
    if op.Abs? && v == 0.0 {
      AbsAtZero(lib, vars, x, a, d);
    } else {
      var s :| Smooth(lib, op, v, s);
      UnaryRuleExact(lib, vars, x, op, a, d, s);
    }
  }

  lemma BinarySlope(lib: Library, vars: ValueMap, x: string, op: BinaryOp, a: Tree, da: real, b: Tree, db: real)
    requires HasSlope(lib, vars, x, a, da) && HasSlope(lib, vars, x, b, db)
    requires BinaryRegular(lib, op, Value(lib, vars, a), da, Value(lib, vars, b), db)
    ensures HasSlope(lib, vars, x, TBinary(op, a, b),
                     DBinary(lib, op, Value(lib, vars, a), da, Value(lib, vars, b), db))
  {
    var f, g, k := Along(lib, vars, x, a), Along(lib, vars, x, b), Along(lib, vars, x, TBinary(op, a, b));
    var va, vb, v := Value(lib, vars, a), Value(lib, vars, b), Value(lib, vars, TBinary(op, a, b));
    var d := DBinary(lib, op, va, da, vb, db);
    if op == Sum {
      SlopeSum(f, va, da, g, vb, db, k, v, d);
    } else if op == Prod {
      forall h: real ensures IsTimes(k(h), f(h), g(h)) {
        BinaryTimes(lib, f(h), g(h), k(h));
      }
      BinaryRule(lib, va, da, vb, db, v, d);
      SlopeProduct(f, va, da, g, vb, db, k, v, d);
    } else if op == Pow {
      var p, q, c, r :| PowerAt(lib, va, vb, p, q, c, r);
      PowSlope(lib, vars, x, a, da, b, db, p, q, c, r);
    } else if va != vb {
      Apart(lib, vars, x, op, a, da, b, db);
    } else {
      Level(lib, vars, x, op, a, da, b, db);
    }
  }

  /** What the interpreter computes is the derivative, wherever the rules apply. */
  lemma {:induction false} DerivativeNearby(lib: Library, vars: ValueMap, x: string, t: Tree)
    requires Regular(lib, vars, x, t) && Bound(vars, t)
    ensures HasSlope(lib, vars, x, t, DValue(lib, vars, x, t))
    decreases t
  {
    var f, v, d := Along(lib, vars, x, t), Value(lib, vars, t), DValue(lib, vars, x, t);
    match t
    case TReal(c) =>
      JetConstant(f, c);
      JetSlope(f, v, d);
    case TPoly(p) =>
      PolynomialDerivativeExact(lib, vars, x, p);
      JetSlope(f, v, d);
    case TUnary(op, a) =>
      DerivativeNearby(lib, vars, x, a);
      UnarySlope(lib, vars, x, op, a, DValue(lib, vars, x, a));
    case TBinary(op, a, b) =>
      DerivativeNearby(lib, vars, x, a);
      DerivativeNearby(lib, vars, x, b);
      BinarySlope(lib, vars, x, op, a, DValue(lib, vars, x, a), b, DValue(lib, vars, x, b));
    case TList(op, args) =>
      forall i | 0 <= i < |args| ensures HasSlope(lib, vars, x, args[i], DValue(lib, vars, x, args[i])) {
        DerivativeNearby(lib, vars, x, args[i]);
      }
      assert args[..|args|] == args;
      if op == SumAll {
        SumSlope(lib, vars, x, args, |args|);
        EqualSlope(SumAlong(lib, vars, x, args), f, v, d);
      } else {
        var c0, c1 := ProductSlope(lib, vars, x, args, |args|);
        PartialToIsProductRule(lib, vars, x, args, |args|);
        EqualSlope(ProductAlong(lib, vars, x, args), f, c0, c1);
      }
    case TRef(_, target) =>
      DerivativeNearby(lib, vars, x, target);
      EqualSlope(Along(lib, vars, x, target), f, v, d);
    case TVariable(n) =>
      CoordinateJet(vars, x, n);
      JetSame(CoordinateAlong(vars, x, n), f, v, d);
      JetSlope(f, v, d);
  }

  /** In other words: the value at a small step is the value at the point plus the step times the derivative, up to a
      multiple of the square of the step. */
  lemma SlopeBound(lib: Library, vars: ValueMap, x: string, t: Tree) returns (b: real, r: real)
    requires Regular(lib, vars, x, t) && Bound(vars, t)
    ensures b >= 0.0 && r > 0.0
    ensures forall h: real | -r <= h <= r ::
      FirstOrder(Value(lib, Shifted(vars, x, h), t), Value(lib, vars, t), DValue(lib, vars, x, t), h, b)
  {
    DerivativeNearby(lib, vars, x, t);
    var f, v, d := Along(lib, vars, x, t), Value(lib, vars, t), DValue(lib, vars, x, t);
    b, r :| Near(f, v, d, b, r);
    forall h: real | -r <= h <= r ensures FirstOrder(Value(lib, Shifted(vars, x, h), t), v, d, h, b) {
      assert FirstOrder(f(h), v, d, h, b);
    }
  }

  /** And no other number is. */
  lemma DerivativeOnce(lib: Library, vars: ValueMap, x: string, t: Tree, d: real)
    requires Regular(lib, vars, x, t) && Bound(vars, t) && HasSlope(lib, vars, x, t, d)
    ensures d == DValue(lib, vars, x, t)
  {
    DerivativeNearby(lib, vars, x, t);
    SlopeOnce(Along(lib, vars, x, t), Value(lib, vars, t), d, DValue(lib, vars, x, t));
  }

  lemma {:induction false} AlgebraicRegular(lib: Library, vars: ValueMap, x: string, t: Tree)
    requires Algebraic(t) && Bound(vars, t)
    ensures Regular(lib, vars, x, t)
    decreases t
  {
    match t
    case TPoly(p) => PolynomialDerivativeExact(lib, vars, x, p);
    case TUnary(op, a) =>
      AlgebraicRegular(lib, vars, x, a);
      assert Smooth(lib, Negate, Value(lib, vars, a), -1.0);
    case TBinary(op, a, b) =>
      AlgebraicRegular(lib, vars, x, a);
      AlgebraicRegular(lib, vars, x, b);
    case TList(_, args) =>
      forall i | 0 <= i < |args| ensures Regular(lib, vars, x, args[i]) {
        AlgebraicRegular(lib, vars, x, args[i]);
      }
    case TRef(_, target) => AlgebraicRegular(lib, vars, x, target);
    case _ =>
  }

  /** 1/x at x = 2: the derivative is -1/4. */
  lemma InverseOfTwo(lib: Library)
    ensures HasSlope(lib, map["x" := 2.0], "x", TUnary(MultInv, TVariable("x")), -0.25)
    ensures DValue(lib, map["x" := 2.0], "x", TUnary(MultInv, TVariable("x"))) == -0.25
  {
    var t := TUnary(MultInv, TVariable("x"));
    assert Smooth(lib, MultInv, 2.0, -0.25);
    DerivativeNearby(lib, map["x" := 2.0], "x", t);
  }

  lemma VariableSlope(lib: Library, v: real)
    ensures HasSlope(lib, map["x" := v], "x", TVariable("x"), 1.0)
  {
    DerivativeNearby(lib, map["x" := v], "x", TVariable("x"));
  }

  /** |x| at 0: computed is 0, and there is no derivative. */
  lemma KinkOfAbs(lib: Library)
    ensures var t := TUnary(UnaryOp.Abs, TVariable("x"));
      !HasSlope(lib, map["x" := 0.0], "x", t, DValue(lib, map["x" := 0.0], "x", t))
  {
    VariableSlope(lib, 0.0);
    AbsAtZero(lib, map["x" := 0.0], "x", TVariable("x"), 1.0);
  }

  /** The floor of x at 1/2: the derivative is 0, computed is 1. */
  lemma FloorOfHalf(lib: Library)
    ensures var t := TUnary(Floor, TVariable("x"));
      HasSlope(lib, map["x" := 0.5], "x", t, 0.0) && DValue(lib, map["x" := 0.5], "x", t) == 1.0
  {
    VariableSlope(lib, 0.5);
    StepOp(lib, Floor, 0.5);
    SlopeOfOp(lib, map["x" := 0.5], "x", Floor, TVariable("x"), 1.0, 0.0, 0.0);
  }

  /** The value and the derivative that the interpreter computes belong together, each within its budget of visits; an
      expression of at most 100 nodes is always within both. */
  method ValueAndSlope(adv: AdvFunc, expr: RealExpr, x: string, vars: ValueMap, ghost t: Tree)
    returns (v: Result<real>, d: Result<real>)
    requires Unfolds(adv.realExprRefs, expr, t) && Bound(vars, t) && Regular(adv.lib, vars, x, t)
    modifies adv`boundVars, adv`nestingDepth
    ensures v.Ok? <==> Size(t) <= MAX_NESTING_DEPTH
    ensures d.Ok? <==> DCost(adv.lib, vars, t) <= MAX_NESTING_DEPTH
    ensures Size(t) <= 100 ==> v.Ok? && d.Ok?
    ensures v.Ok? && d.Ok? ==> Slope(Along(adv.lib, vars, x, t), v.value, d.value)
  {
    v := adv.Evaluate(expr, vars);
    ghost var refs := adv.realExprRefs;
    forall t' | Unfolds(refs, expr, t') ensures t' == t {
      UnfoldsOnce(refs, expr, t', t);
    }
    d := adv.EvaluatePartialDerivative(expr, x, vars);
    DerivativeNearby(adv.lib, vars, x, t);
    DCostAtMostSquare(adv.lib, vars, t);
    HundredSquared(Size(t));
  }

  lemma HundredSquared(n: nat)
    ensures n <= 100 ==> n * n <= MAX_NESTING_DEPTH
  {
    if n <= 100 {
      assert (100 - n) * (100 + n) >= 0;
    }
  }
}
