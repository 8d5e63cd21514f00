/** Derivatives in a neighbourhood of a point, for functions that are no polynomials: what keeps them, and those of the
    operations. */
module Slopes {
  import opened Calculus
  import opened Vectors

  /** f(h) = v + h*d, up to b*h^2, for all h up to r. */
  ghost predicate Near(f: real -> real, v: real, d: real, b: real, r: real) {
    && b >= 0.0 && 0.0 < r <= 1.0
    && forall h: real {:trigger FirstOrder(f(h), v, d, h, b)} | -r <= h <= r :: FirstOrder(f(h), v, d, h, b)
  }

  /** At 0 the function has the value v and the derivative d. */
  ghost predicate Slope(f: real -> real, v: real, d: real) {
    exists b, r :: Near(f, v, d, b, r)
  }

  lemma JetSlope(f: real -> real, v: real, d: real)
    requires Jet(f, v, d)
    ensures Slope(f, v, d)
  {
    var b := JetBound(f, v, d);
    assert Near(f, v, d, b, 1.0);
  }

  ghost predicate SameNear(f: real -> real, g: real -> real, r: real) {
    r > 0.0 && forall h: real | -r <= h <= r :: f(h) == g(h)
  }

  /** Only the values close to the point matter. */
  lemma SlopeSame(f: real -> real, g: real -> real, v: real, d: real, r: real)
    requires Slope(f, v, d) && SameNear(f, g, r)
    ensures Slope(g, v, d)
  {
    var b, r1 :| Near(f, v, d, b, r1);
    var r2 := if r <= r1 then r else r1;
    forall h: real | -r2 <= h <= r2 ensures FirstOrder(g(h), v, d, h, b) {
      assert f(h) == g(h);
    }
    assert Near(g, v, d, b, r2);
  }

  // Bounds at one point

  lemma AbsTimes(x: real, y: real)
    ensures Abs(x * y) == Abs(x) * Abs(y)
  {
  }

  lemma SquareOfAbs(h: real)
    ensures h * h == Abs(h) * Abs(h)
  {
  }

  /** What is left of y when the linear part is taken away. */
  ghost function Rest(y: real, v: real, d: real, h: real): real {
    y - (v + h * d)
  }

  lemma RestBound(y: real, v: real, d: real, h: real, b: real)
    ensures FirstOrder(y, v, d, h, b) <==> Abs(Rest(y, v, d, h)) <= b * (h * h)
  {
  }

  /** The square of a step is at most the step. */
  lemma ShortSquare(h: real, b: real)
    requires -1.0 <= h <= 1.0 && b >= 0.0
    ensures b * (h * h) <= b * Abs(h)
  {
    var a := Abs(h);
    SquareOfAbs(h);
    NonNegativeProduct(a, 1.0 - a, a * (1.0 - a));
    NonNegativeProduct(b, a - a * a, b * (a - a * a));
  }

  lemma Lipschitz(y: real, v: real, d: real, h: real, b: real, m: real)
    requires FirstOrder(y, v, d, h, b) && b >= 0.0 && -1.0 <= h <= 1.0 && m == Abs(d) + b
    ensures Abs(y - v) <= m * Abs(h)
  {
    var a, p := Abs(h), h * d;
    RestShort(y, v, d, h, b, a);
    AbsTimes(h, d);
    SumOfBounds(y - v, p, Rest(y, v, d, h), a * Abs(d), b * a);
    Distribute(a, Abs(d), b);
  }

  lemma RestShort(y: real, v: real, d: real, h: real, b: real, a: real)
    requires FirstOrder(y, v, d, h, b) && b >= 0.0 && -1.0 <= h <= 1.0 && a == Abs(h)
    ensures Abs(Rest(y, v, d, h)) <= b * a && y - v == h * d + Rest(y, v, d, h)
  {
    RestBound(y, v, d, h, b);
    ShortSquare(h, b);
  }

  lemma SumOfBounds(x: real, p: real, e: real, a: real, b: real)
    requires x == p + e && Abs(p) == a && Abs(e) <= b
    ensures Abs(x) <= a + b
  {
  }

  /** A function keeps away from the values that it does not have at the point. */
  lemma StaysPositive(f: real -> real, v: real, d: real) returns (r: real)
    requires Slope(f, v, d) && v > 0.0
    ensures 0.0 < r <= 1.0 && forall h: real | -r <= h <= r :: f(h) > 0.0
  {
    var b, r1 :| Near(f, v, d, b, r1);
    var m := Abs(d) + b;
    var r2 := SmallStep(v, m);
    r := if r1 <= r2 then r1 else r2;
    forall h: real | -r <= h <= r ensures f(h) > 0.0 {
      assert FirstOrder(f(h), v, d, h, b);
      PositiveAt(f(h), v, d, h, b, m, r2);
    }
  }

  lemma PositiveAt(y: real, v: real, d: real, h: real, b: real, m: real, r: real)
    requires FirstOrder(y, v, d, h, b) && b >= 0.0 && -1.0 <= h <= 1.0 && m == Abs(d) + b
    requires -r <= h <= r && r * m < v
    ensures y > 0.0
  {
    Lipschitz(y, v, d, h, b, m);
    NonNegativeProduct(m, r - Abs(h), m * (r - Abs(h)));
    Distribute(m, r, -Abs(h));
  }

  /** The derivative is determined by the function. */
  lemma SlopeOnce(f: real -> real, v: real, d: real, d': real)
    requires Slope(f, v, d) && Slope(f, v, d')
    ensures d == d'
  {
    var b, r :| Near(f, v, d, b, r);
    var b', r' :| Near(f, v, d', b', r');
    var c := Abs(d - d');
    if c > 0.0 {
      var h := SmallStepWithin(c, b + b', r, r');
      assert FirstOrder(f(h), v, d, h, b) && FirstOrder(f(h), v, d', h, b');
      TwoSlopes(f(h), v, d, d', h, b, b', c);
    }
  }

  lemma SmallStepWithin(c: real, b: real, r: real, r': real) returns (h: real)
    requires c > 0.0 && b >= 0.0 && r > 0.0 && r' > 0.0
    ensures 0.0 < h <= r && h <= r' && h <= 1.0 && h * b < c
  {
    var s := SmallStep(c, b);
    h := if s <= r && s <= r' then s else if r <= r' then r else r';
    NonNegativeProduct(b, s - h, b * (s - h));
    Distribute(b, s, -h);
  }

  lemma TwoSlopes(y: real, v: real, d: real, d': real, h: real, b: real, b': real, c: real)
    requires FirstOrder(y, v, d, h, b) && FirstOrder(y, v, d', h, b') && h > 0.0 && h * (b + b') < c
    ensures Abs(d - d') < c
  {
    var e, e' := Rest(y, v, d, h), Rest(y, v, d', h);
    RestBound(y, v, d, h, b);
    RestBound(y, v, d', h, b');
    assert e' - e == h * (d - d');
    AbsTimes(h, d - d');
    var u := h * (b + b');
    assert b * (h * h) + b' * (h * h) == h * u;
    NonNegativeFactor(h, u - Abs(d - d'));
  }

  // Sums and products

  lemma SlopeSum(f: real -> real, a0: real, a1: real, g: real -> real, b0: real, b1: real, k: real -> real,
                  c0: real, c1: real)
    requires Slope(f, a0, a1) && Slope(g, b0, b1) && forall h: real :: k(h) == f(h) + g(h)
    requires c0 == a0 + b0 && c1 == a1 + b1
    ensures Slope(k, c0, c1)
  {
    var b, r :| Near(f, a0, a1, b, r);
    var b', r' :| Near(g, b0, b1, b', r');
    var r0 := if r <= r' then r else r';
    forall h: real | -r0 <= h <= r0 ensures FirstOrder(k(h), c0, c1, h, b + b') {
      assert FirstOrder(f(h), a0, a1, h, b) && FirstOrder(g(h), b0, b1, h, b');
      SumAt(f(h), a0, a1, g(h), b0, b1, h, b, b');
    }
    assert Near(k, c0, c1, b + b', r0);
  }

  lemma SumAt(x: real, a0: real, a1: real, y: real, b0: real, b1: real, h: real, b: real, b': real)
    requires FirstOrder(x, a0, a1, h, b) && FirstOrder(y, b0, b1, h, b')
    ensures FirstOrder(x + y, a0 + b0, a1 + b1, h, b + b')
  {
    assert Rest(x + y, a0 + b0, a1 + b1, h) == Rest(x, a0, a1, h) + Rest(y, b0, b1, h);
    assert (b + b') * (h * h) == b * (h * h) + b' * (h * h);
  }

  lemma SlopeProduct(f: real -> real, a0: real, a1: real, g: real -> real, b0: real, b1: real, k: real -> real,
                     c0: real, c1: real)
    requires Slope(f, a0, a1) && Slope(g, b0, b1) && IsProduct(k, f, g) && ProductRule(a0, a1, b0, b1, c0, c1)
    ensures Slope(k, c0, c1)
  {
    var b, r :| Near(f, a0, a1, b, r);
    var b', r' :| Near(g, b0, b1, b', r');
    var r0 := if r <= r' then r else r';
    var m, m' := Abs(a0) + Abs(a1), Abs(b0) + Abs(b1) + b';
    var al, mb, mb' := Times(Abs(a1), Abs(b1)), Times(m, b'), Times(m', b);
    var c := al + mb + mb';
    NonNegativeProduct(Abs(a1), Abs(b1), al);
    NonNegativeProduct(m, b', mb);
    NonNegativeProduct(m', b, mb');
    forall h: real | -r0 <= h <= r0 ensures FirstOrder(k(h), c0, c1, h, c) {
      assert FirstOrder(f(h), a0, a1, h, b) && FirstOrder(g(h), b0, b1, h, b');
      assert IsTimes(k(h), f(h), g(h));
      ProductNear(f(h), a0, a1, g(h), b0, b1, k(h), c0, c1, h, b, b', m, m', al, mb, mb', c);
    }
    assert Near(k, c0, c1, c, r0);
  }

  /** With e and e' what is left of the factors, x*y - (c0 + h*c1) = h^2*a1*b1 + (a0 + h*a1)*e' + e*y. */
  lemma ProductNear(x: real, a0: real, a1: real, y: real, b0: real, b1: real, z: real, c0: real, c1: real, h: real,
                    b: real, b': real, m: real, m': real, al: real, mb: real, mb': real, c: real)
    requires FirstOrder(x, a0, a1, h, b) && FirstOrder(y, b0, b1, h, b') && IsTimes(z, x, y)
    requires ProductRule(a0, a1, b0, b1, c0, c1) && -1.0 <= h <= 1.0 && b >= 0.0 && b' >= 0.0
    requires m == Abs(a0) + Abs(a1) && m' == Abs(b0) + Abs(b1) + b' && c == al + mb + mb'
    requires IsTimes(al, Abs(a1), Abs(b1)) && IsTimes(mb, m, b') && IsTimes(mb', m', b)
    ensures FirstOrder(z, c0, c1, h, c)
  {
    var s := Times(h, h);
    var u, q, t := Split(x, a0, a1, y, b0, b1, h, z, c0, c1, s);
    SecondOrderPart(h, a1, b1, s, u, al);
    LinearTimes(a0, a1, h, m, y, b0, b1, b', s, q, mb);
    ValueTimes(x, a0, a1, h, b, s, y, b0, b1, b', m', t, mb');
    ThreeBounds(z, c0, c1, h, u, q, t, s, al, mb, mb', c);
  }

  lemma SecondOrderPart(h: real, a: real, b: real, s: real, u: real, al: real)
    requires IsTimes(s, h, h) && u == s * (a * b) && IsTimes(al, Abs(a), Abs(b))
    ensures Abs(u) <= al * s
  {
    AbsTimes(a, b);
    AbsTimes(s, a * b);
    SquarePositive(h, s);
  }

  lemma LinearTimes(a0: real, a1: real, h: real, m: real, y: real, b0: real, b1: real, b: real, s: real, q: real,
                    mb: real)
    requires FirstOrder(y, b0, b1, h, b) && IsTimes(s, h, h) && m == Abs(a0) + Abs(a1) && -1.0 <= h <= 1.0
    requires IsTimes(q, a0 + h * a1, Rest(y, b0, b1, h)) && IsTimes(mb, m, b)
    ensures Abs(q) <= mb * s
  {
    LinearBound(a0, a1, h, m);
    RestTimes(y, b0, b1, h, b, s, a0 + h * a1, m, q, mb);
  }

  lemma ValueTimes(x: real, a0: real, a1: real, h: real, b: real, s: real, y: real, b0: real, b1: real, b': real,
                   m: real, t: real, mb: real)
    requires FirstOrder(x, a0, a1, h, b) && FirstOrder(y, b0, b1, h, b') && b' >= 0.0 && IsTimes(s, h, h)
    requires -1.0 <= h <= 1.0 && m == Abs(b0) + Abs(b1) + b' && IsTimes(t, y, Rest(x, a0, a1, h)) && IsTimes(mb, m, b)
    ensures Abs(t) <= mb * s
  {
    ValueBound(y, b0, b1, h, b', m);
    RestTimes(x, a0, a1, h, b, s, y, m, t, mb);
  }

  lemma RestTimes(y: real, v: real, d: real, h: real, b: real, s: real, l: real, m: real, q: real, mb: real)
    requires FirstOrder(y, v, d, h, b) && IsTimes(s, h, h) && Abs(l) <= m
    requires IsTimes(q, l, Rest(y, v, d, h)) && IsTimes(mb, m, b)
    ensures Abs(q) <= mb * s
  {
    RestBound(y, v, d, h, b);
    TimesAtMost(l, Rest(y, v, d, h), m, b, s, q);
  }

  lemma ThreeBounds(z: real, c0: real, c1: real, h: real, p: real, q: real, t: real, s: real, a: real, b: real,
                    d: real, c: real)
    requires Rest(z, c0, c1, h) == p + q + t && s == h * h && c == a + b + d
    requires Abs(p) <= a * s && Abs(q) <= b * s && Abs(t) <= d * s
    ensures FirstOrder(z, c0, c1, h, c)
  {
    assert c * s == a * s + b * s + d * s;
    RestBound(z, c0, c1, h, c);
  }

  lemma ValueBound(y: real, b0: real, b1: real, h: real, b: real, m: real)
    requires FirstOrder(y, b0, b1, h, b) && b >= 0.0 && -1.0 <= h <= 1.0 && m == Abs(b0) + Abs(b1) + b
    ensures Abs(y) <= m
  {
    var l := Abs(b1) + b;
    Lipschitz(y, b0, b1, h, b, l);
    NonNegativeProduct(l, 1.0 - Abs(h), l * (1.0 - Abs(h)));
  }

  lemma LinearBound(a0: real, a1: real, h: real, m: real)
    requires -1.0 <= h <= 1.0 && m == Abs(a0) + Abs(a1)
    ensures Abs(a0 + h * a1) <= m
  {
    AbsTimes(h, a1);
    NonNegativeProduct(Abs(a1), 1.0 - Abs(h), Abs(a1) * (1.0 - Abs(h)));
  }

  lemma TimesAtMost(l: real, e: real, m: real, b: real, s: real, q: real)
    requires Abs(l) <= m && Abs(e) <= b * s && q == l * e
    ensures Abs(q) <= m * b * s
  {
    AbsTimes(l, e);
    NonNegativeProduct(m - Abs(l), Abs(e), (m - Abs(l)) * Abs(e));
    NonNegativeProduct(m, b * s - Abs(e), m * (b * s - Abs(e)));
  }

  lemma Split(x: real, a0: real, a1: real, y: real, b0: real, b1: real, h: real, z: real, c0: real, c1: real, s: real)
    returns (u: real, q: real, t: real)
    requires IsTimes(s, h, h) && IsTimes(z, x, y) && ProductRule(a0, a1, b0, b1, c0, c1)
    ensures Rest(z, c0, c1, h) == u + q + t && u == s * (a1 * b1)
    ensures IsTimes(q, a0 + h * a1, Rest(y, b0, b1, h)) && IsTimes(t, y, Rest(x, a0, a1, h))
  {
    var e, e', l, l' := Rest(x, a0, a1, h), Rest(y, b0, b1, h), a0 + h * a1, b0 + h * b1;
    u, q, t := s * (a1 * b1), l * e', y * e;
    assert x == l + e && y == l' + e';
    assert z == l * l' + q + t;
    assert l * l' == c0 + h * c1 + u;
  }

  // The chain rule

  lemma SlopeChain(f: real -> real, v: real, d: real, g: real -> real, w: real, e: real, k: real -> real, c: real)
    requires Slope(f, v, d) && Slope(g, w, e) && IsTimes(c, e, d) && forall h: real :: k(h) == g(f(h) - v)
    ensures Slope(k, w, c)
  {
    var b, r :| Near(f, v, d, b, r);
    var b', r' :| Near(g, w, e, b', r');
    var m := Abs(d) + b;
    var r0 := SmallStepWithin(r', m, r, 1.0);
    var mm := m * m;
    var a, a' := b' * mm, Abs(e) * b;
    SquarePositive(m, mm);
    NonNegativeProduct(b', mm, a);
    NonNegativeProduct(Abs(e), b, a');
    forall h: real | -r0 <= h <= r0 ensures FirstOrder(k(h), w, c, h, a + a') {
      var y := f(h);
      assert FirstOrder(y, v, d, h, b);
      StaysWithin(y, v, d, h, b, m, r0, r');
      assert FirstOrder(g(y - v), w, e, y - v, b');
      ChainNear(y, v, d, h, b, m, mm, g(y - v), w, e, b', c, a, a');
    }
    assert Near(k, w, c, a + a', r0);
  }

  lemma StaysWithin(y: real, v: real, d: real, h: real, b: real, m: real, r0: real, r: real)
    requires FirstOrder(y, v, d, h, b) && b >= 0.0 && -1.0 <= h <= 1.0 && m == Abs(d) + b
    requires -r0 <= h <= r0 && r0 * m < r
    ensures -r <= y - v <= r
  {
    Lipschitz(y, v, d, h, b, m);
    NonNegativeProduct(m, r0 - Abs(h), m * (r0 - Abs(h)));
    Distribute(m, r0, -Abs(h));
  }

  lemma ChainNear(y: real, v: real, d: real, h: real, b: real, m: real, mm: real, z: real, w: real, e: real, b': real,
                  c: real, a: real, a': real)
    requires FirstOrder(y, v, d, h, b) && b >= 0.0 && -1.0 <= h <= 1.0 && m == Abs(d) + b && mm == m * m
    requires FirstOrder(z, w, e, y - v, b') && b' >= 0.0 && IsTimes(c, e, d) && a == b' * mm && a' == Abs(e) * b
    ensures FirstOrder(z, w, c, h, a + a')
  {
    var s, q, t := h * h, Rest(z, w, e, y - v), e * Rest(y, v, d, h);
    ChainRest(y, v, d, h, z, w, e, c);
    OuterRest(y, v, d, h, b, m, mm, z, w, e, b', a, s);
    RestTimes(y, v, d, h, b, s, e, Abs(e), t, a');
    ThreeBounds(z, w, c, h, 0.0, q, t, s, 0.0, a, a', a + a');
  }

  lemma ChainRest(y: real, v: real, d: real, h: real, z: real, w: real, e: real, c: real)
    requires IsTimes(c, e, d)
    ensures Rest(z, w, c, h) == Rest(z, w, e, y - v) + e * Rest(y, v, d, h)
  {
    assert e * Rest(y, v, d, h) == e * (y - v) - h * c;
  }

  lemma OuterRest(y: real, v: real, d: real, h: real, b: real, m: real, mm: real, z: real, w: real, e: real, b': real,
                  a: real, s: real)
    requires FirstOrder(y, v, d, h, b) && b >= 0.0 && -1.0 <= h <= 1.0 && m == Abs(d) + b && mm == m * m
    requires FirstOrder(z, w, e, y - v, b') && b' >= 0.0 && a == b' * mm && s == h * h
    ensures Abs(Rest(z, w, e, y - v)) <= a * s
  {
    var k := y - v;
    var t := k * k;
    SquareWithin(y, v, d, h, b, m, mm, s, k, t);
    RestBound(z, w, e, k, b');
    Enlarge(b', t, mm, s, a);
  }

  lemma SquareWithin(y: real, v: real, d: real, h: real, b: real, m: real, mm: real, s: real, k: real, t: real)
    requires FirstOrder(y, v, d, h, b) && b >= 0.0 && -1.0 <= h <= 1.0 && m == Abs(d) + b && mm == m * m
    requires s == h * h && k == y - v && t == k * k
    ensures t <= mm * s
  {
    Lipschitz(y, v, d, h, b, m);
    StepSquare(k, h, m, mm, s, t);
  }

  lemma Enlarge(b: real, t: real, mm: real, s: real, a: real)
    requires b >= 0.0 && t <= mm * s && a == b * mm
    ensures b * t <= a * s
  {
    var u := mm * s;
    NonNegativeProduct(b, u - t, b * (u - t));
    Distribute(b, u, -t);
    assert b * u == a * s;
  }

  lemma StepSquare(k: real, h: real, m: real, mm: real, s: real, t: real)
    requires Abs(k) <= m * Abs(h) && mm == m * m && s == h * h && t == k * k
    ensures t <= mm * s
  {
    var u := m * Abs(h);
    SquareOfAbs(k);
    SquareOfAbs(h);
    SquareMonotone(Abs(k), u);
    assert u * u == mm * s;
  }

  // Operations at a point

  /** The inverse: 1/(v + k) - 1/v + k/v^2 = k^2/(v^2*(v + k)). */
  lemma InverseSlope(g: real -> real, v: real, w: real, ww: real)
    requires v != 0.0 && IsTimes(1.0, w, v) && IsTimes(ww, w, w)
    requires forall k: real | v + k != 0.0 :: IsTimes(1.0, g(k), v + k)
    ensures Slope(g, w, -ww)
  {
    var a, c := Abs(v), Abs(w) * ww;
    var r, b := if a <= 1.0 then a / 2.0 else 0.5, 2.0 * c;
    SquarePositive(w, ww);
    NonNegativeProduct(Abs(w), ww, c);
    forall k: real | -r <= k <= r ensures FirstOrder(g(k), w, -ww, k, b) {
      assert IsTimes(1.0, g(k), v + k);
      InverseNear(v, w, ww, k, g(k), k * k, c, b);
    }
    assert Near(g, w, -ww, b, r);
  }

  lemma InverseNear(v: real, w: real, ww: real, k: real, y: real, s: real, c: real, b: real)
    requires v != 0.0 && IsTimes(1.0, w, v) && IsTimes(ww, w, w) && 2.0 * Abs(k) <= Abs(v)
    requires IsTimes(1.0, y, v + k) && IsTimes(s, k, k) && IsTimes(c, Abs(w), ww) && b == 2.0 * c
    ensures FirstOrder(y, w, -ww, k, b)
  {
    var u := InverseRest(v, w, ww, k, y, s);
    InverseTwice(v, w, k, y);
    InverseBound(w, ww, k, y, s, u, c, b);
    WithinRest(y, w, -ww, k, b, u * y, s);
  }

  lemma WithinRest(y: real, v: real, d: real, h: real, b: real, x: real, s: real)
    requires Rest(y, v, d, h) == x && Abs(x) <= b * s && IsTimes(s, h, h)
    ensures FirstOrder(y, v, d, h, b)
  {
  }

  lemma InverseRest(v: real, w: real, ww: real, k: real, y: real, s: real) returns (u: real)
    requires IsTimes(1.0, w, v) && IsTimes(ww, w, w) && IsTimes(1.0, y, v + k) && IsTimes(s, k, k)
    ensures IsTimes(u, ww, s) && Rest(y, w, -ww, k) == u * y
  {
    u := ww * s;
    var p := w * y;
    assert w == p * (v + k) && y == p * v;
    assert w - y == p * k;
    assert y - w + k * (w * w) == k * w * (w - y);
  }

  lemma InverseTwice(v: real, w: real, k: real, y: real)
    requires v != 0.0 && IsTimes(1.0, w, v) && 2.0 * Abs(k) <= Abs(v) && IsTimes(1.0, y, v + k)
    ensures Abs(y) <= 2.0 * Abs(w)
  {
    var a, c := Abs(v), Abs(v + k);
    AbsTimes(y, v + k);
    AbsTimes(w, v);
    NonNegativeProduct(Abs(y), 2.0 * c - a, Abs(y) * (2.0 * c - a));
    Distribute(Abs(y), 2.0 * c, -a);
    Distribute(a, 2.0 * Abs(w), -Abs(y));
    NonNegativeFactor(a, 2.0 * Abs(w) - Abs(y));
  }

  lemma InverseBound(w: real, ww: real, k: real, y: real, s: real, u: real, c: real, b: real)
    requires Abs(y) <= 2.0 * Abs(w) && IsTimes(ww, w, w) && IsTimes(s, k, k) && IsTimes(u, ww, s)
    requires IsTimes(c, Abs(w), ww) && b == 2.0 * c
    ensures Abs(u * y) <= b * s
  {
    SquarePositive(k, s);
    SquarePositive(w, ww);
    NonNegativeProduct(ww, s, u);
    AbsTimes(u, y);
    Enlarge(u, Abs(y), 2.0, Abs(w), 2.0 * u);
    assert 2.0 * u * Abs(w) == b * s;
  }

  /** Away from its jumps a step function is constant, and the absolute value is linear away from 0. */
  lemma LinearSlope(g: real -> real, v: real, d: real, r: real)
    requires r > 0.0 && forall h: real | -r <= h <= r :: g(h) == v + h * d
    ensures Slope(g, v, d)
  {
    var r' := if r <= 1.0 then r else 1.0;
    forall h: real | -r' <= h <= r' ensures FirstOrder(g(h), v, d, h, 0.0) {
      assert Rest(g(h), v, d, h) == 0.0;
    }
    assert Near(g, v, d, 0.0, r');
  }

  ghost predicate NonNegativeNear(f: real -> real, r: real) {
    r > 0.0 && forall h: real | -r <= h <= r :: f(h) >= 0.0
  }

  /** Where a function is least its derivative is 0. */
  lemma LeastSlope(f: real -> real, d: real, r: real)
    requires Slope(f, 0.0, d) && NonNegativeNear(f, r)
    ensures d == 0.0
  {
    var b, r' :| Near(f, 0.0, d, b, r');
    if d != 0.0 {
      var h := SmallStepWithin(Abs(d), b, r, r');
      var k := if d > 0.0 then -h else h;
      assert FirstOrder(f(k), 0.0, d, k, b) && f(k) >= 0.0;
      Falls(f(k), d, h, k, b);
    }
  }

  lemma Falls(y: real, d: real, h: real, k: real, b: real)
    requires d != 0.0 && k == (if d > 0.0 then -h else h) && h > 0.0 && h * b < Abs(d) && b >= 0.0
    requires FirstOrder(y, 0.0, d, k, b)
    ensures y < 0.0
  {
    var u := Abs(d) - h * b;
    RestBound(y, 0.0, d, k, b);
    ProductPositive(h, u, h * u);
    Distribute(h, Abs(d), -(h * b));
    assert k * d == -(h * Abs(d));
    assert b * (k * k) == h * (h * b);
  }

  lemma SlopeMinus(f: real -> real, a0: real, a1: real, g: real -> real, b0: real, b1: real, k: real -> real,
                    c0: real, c1: real)
    requires Slope(f, a0, a1) && Slope(g, b0, b1) && forall h: real :: k(h) == f(h) - g(h)
    requires c0 == a0 - b0 && c1 == a1 - b1
    ensures Slope(k, c0, c1)
  {
    var b, r :| Near(f, a0, a1, b, r);
    var b', r' :| Near(g, b0, b1, b', r');
    var r0 := if r <= r' then r else r';
    forall h: real | -r0 <= h <= r0 ensures FirstOrder(k(h), c0, c1, h, b + b') {
      assert FirstOrder(f(h), a0, a1, h, b) && FirstOrder(g(h), b0, b1, h, b');
      MinusAt(f(h), a0, a1, g(h), b0, b1, h, b, b');
    }
    assert Near(k, c0, c1, b + b', r0);
  }

  lemma MinusAt(x: real, a0: real, a1: real, y: real, b0: real, b1: real, h: real, b: real, b': real)
    requires FirstOrder(x, a0, a1, h, b) && FirstOrder(y, b0, b1, h, b')
    ensures FirstOrder(x - y, a0 - b0, a1 - b1, h, b + b')
  {
    assert Rest(x - y, a0 - b0, a1 - b1, h) == Rest(x, a0, a1, h) - Rest(y, b0, b1, h);
    assert (b + b') * (h * h) == b * (h * h) + b' * (h * h);
  }

  /** At every step one function is taken or the other, and at 0 they agree up to the first order. */
  lemma EitherSlope(f: real -> real, g: real -> real, k: real -> real, v: real, d: real)
    requires Slope(f, v, d) && Slope(g, v, d) && forall h: real :: k(h) == f(h) || k(h) == g(h)
    ensures Slope(k, v, d)
  {
    var b, r :| Near(f, v, d, b, r);
    var b', r' :| Near(g, v, d, b', r');
    var r0 := if r <= r' then r else r';
    forall h: real | -r0 <= h <= r0 ensures FirstOrder(k(h), v, d, h, b + b') {
      assert FirstOrder(f(h), v, d, h, b) && FirstOrder(g(h), v, d, h, b');
      SquarePositive(h, h * h);
      Looser(f(h), v, d, h, b, b + b');
      Looser(g(h), v, d, h, b', b + b');
    }
    assert Near(k, v, d, b + b', r0);
  }

  lemma Looser(y: real, v: real, d: real, h: real, b: real, b': real)
    requires FirstOrder(y, v, d, h, b) && b <= b'
    ensures FirstOrder(y, v, d, h, b')
  {
    var s := h * h;
    SquarePositive(h, s);
    NonNegativeProduct(b' - b, s, (b' - b) * s);
  }

  // Two arguments

  /** z = w + k*p + l*q, up to c*(k^2 + l^2). */
  ghost predicate LinearAt(z: real, w: real, p: real, q: real, k: real, l: real, c: real) {
    Abs(Rest2(z, w, p, q, k, l)) <= c * SquareSum(k, l)
  }

  ghost function SquareSum(k: real, l: real): (s: real)
    ensures s >= 0.0
  {
    SquarePositive(k, k * k);
    SquarePositive(l, l * l);
    k * k + l * l
  }

  ghost function Rest2(z: real, w: real, p: real, q: real, k: real, l: real): real {
    z - (w + k * p + l * q)
  }

  ghost predicate Plane(F: (real, real) -> real, a: real, b: real, p: real, q: real, c: real, r: real) {
    && c >= 0.0 && r > 0.0
    && forall x: real, y: real | a - r <= x <= a + r && b - r <= y <= b + r :: LinearTo(F, a, b, p, q, x, y, c)
  }

  ghost predicate LinearTo(F: (real, real) -> real, a: real, b: real, p: real, q: real, x: real, y: real, c: real) {
    LinearAt(F(x, y), F(a, b), p, q, x - a, y - b, c)
  }

  lemma TwoRadii(r: real, m: real, r1: real, m': real, r2: real) returns (r0: real)
    requires r > 0.0 && m >= 0.0 && r1 > 0.0 && m' >= 0.0 && r2 > 0.0
    ensures 0.0 < r0 <= 1.0 && r0 <= r1 && r0 <= r2 && r0 * m < r && r0 * m' < r
  {
    var s := SmallStepWithin(r, m, r1, r2);
    r0 := SmallStepWithin(r, m', s, s);
    NonNegativeProduct(s - r0, m, (s - r0) * m);
  }

  ghost predicate SquareAtMost(k: real, mm: real, s: real) {
    k * k <= mm * s
  }

  lemma SquareWithin2(x: real, a: real, a1: real, h: real, b: real, m: real, mm: real, s: real, k: real)
    requires FirstOrder(x, a, a1, h, b) && b >= 0.0 && m == Abs(a1) + b && -1.0 <= h <= 1.0
    requires mm == m * m && s == h * h && k == x - a
    ensures SquareAtMost(k, mm, s)
  {
    SquareWithin(x, a, a1, h, b, m, mm, s, k, k * k);
  }

  lemma SumWithin(x: real, a: real, a1: real, b2: real, m: real, y: real, b: real, b1: real, b3: real, m': real,
                  h: real, s: real, mm: real, k: real, l: real)
    requires FirstOrder(x, a, a1, h, b2) && b2 >= 0.0 && m == Abs(a1) + b2 && -1.0 <= h <= 1.0 && k == x - a
    requires FirstOrder(y, b, b1, h, b3) && b3 >= 0.0 && m' == Abs(b1) + b3 && l == y - b
    requires mm == SquareSum(m, m') && s == h * h
    ensures SquareSum(k, l) <= mm * s
  {
    SquareWithin2(x, a, a1, h, b2, m, m * m, s, k);
    SquareWithin2(y, b, b1, h, b3, m', m' * m', s, l);
    Distribute(s, m * m, m' * m');
  }

  ghost function RemainderAlong(F: (real, real) -> real, f: real -> real, a: real, g: real -> real, b: real, p: real,
                                q: real): real -> real
  {
    h => RestOf(F, f(h), a, g(h), b, p, q)
  }

  ghost function RestOf(F: (real, real) -> real, x: real, a: real, y: real, b: real, p: real, q: real): real {
    Rest2(F(x, y), F(a, b), p, q, x - a, y - b)
  }

  lemma RemainderSlope(f: real -> real, a: real, a1: real, g: real -> real, b: real, b1: real,
                       F: (real, real) -> real, p: real, q: real, c: real, r: real)
    requires Slope(f, a, a1) && Slope(g, b, b1) && Plane(F, a, b, p, q, c, r)
    ensures Slope(RemainderAlong(F, f, a, g, b, p, q), 0.0, 0.0)
  {
    var b2, r1 :| Near(f, a, a1, b2, r1);
    var b3, r2 :| Near(g, b, b1, b3, r2);
    var n, r0 := RemainderNear(f, a, a1, b2, r1, g, b, b1, b3, r2, F, p, q, c, r);
  }

  lemma RemainderNear(f: real -> real, a: real, a1: real, b2: real, r1: real, g: real -> real, b: real, b1: real,
                      b3: real, r2: real, F: (real, real) -> real, p: real, q: real, c: real, r: real)
    returns (n: real, r0: real)
    requires Near(f, a, a1, b2, r1) && Near(g, b, b1, b3, r2) && Plane(F, a, b, p, q, c, r)
    ensures Near(RemainderAlong(F, f, a, g, b, p, q), 0.0, 0.0, n, r0)
  {
    var m, m' := Abs(a1) + b2, Abs(b1) + b3;
    r0 := TwoRadii(r, m, r1, m', r2);
    var mm := SquareSum(m, m');
    n := Times(c, mm);
    NonNegativeProduct(c, mm, n);
    forall h: real | -r0 <= h <= r0 ensures FirstOrder(RemainderAlong(F, f, a, g, b, p, q)(h), 0.0, 0.0, h, n) {
      RemainderAlongAt(f, a, a1, b2, r1, m, g, b, b1, b3, r2, m', F, p, q, c, r, mm, n, r0, h);
    }
  }

  lemma RemainderAlongAt(f: real -> real, a: real, a1: real, b2: real, r1: real, m: real, g: real -> real, b: real,
                         b1: real, b3: real, r2: real, m': real, F: (real, real) -> real, p: real, q: real, c: real,
                         r: real, mm: real, n: real, r0: real, h: real)
    requires Near(f, a, a1, b2, r1) && Near(g, b, b1, b3, r2) && Plane(F, a, b, p, q, c, r)
    requires -r0 <= h <= r0 <= 1.0 && r0 <= r1 && r0 <= r2 && m == Abs(a1) + b2 && m' == Abs(b1) + b3
    requires r0 * m < r && r0 * m' < r && mm == SquareSum(m, m') && IsTimes(n, c, mm)
    ensures FirstOrder(RemainderAlong(F, f, a, g, b, p, q)(h), 0.0, 0.0, h, n)
  {
    assert FirstOrder(f(h), a, a1, h, b2) && FirstOrder(g(h), b, b1, h, b3);
    RemainderAt(f(h), a, a1, b2, m, g(h), b, b1, b3, m', F, p, q, c, r, mm, n, r0, h);
  }

  lemma RemainderAt(x: real, a: real, a1: real, b2: real, m: real, y: real, b: real, b1: real, b3: real, m': real,
                    F: (real, real) -> real, p: real, q: real, c: real, r: real, mm: real, n: real, r0: real, h: real)
    requires FirstOrder(x, a, a1, h, b2) && FirstOrder(y, b, b1, h, b3) && b2 >= 0.0 && b3 >= 0.0
    requires Plane(F, a, b, p, q, c, r) && -r0 <= h <= r0 <= 1.0 && m == Abs(a1) + b2 && m' == Abs(b1) + b3
    requires r0 * m < r && r0 * m' < r && mm == SquareSum(m, m') && IsTimes(n, c, mm)
    ensures FirstOrder(RestOf(F, x, a, y, b, p, q), 0.0, 0.0, h, n)
  {
    StaysWithin(x, a, a1, h, b2, m, r0, r);
    StaysWithin(y, b, b1, h, b3, m', r0, r);
    var k, l := x - a, y - b;
    PlaneAt(F, a, b, p, q, c, r, x, y, k, l);
    var s, t := h * h, SquareSum(k, l);
    SumWithin(x, a, a1, b2, m, y, b, b1, b3, m', h, s, mm, k, l);
    NoLinearPart(RestOf(F, x, a, y, b, p, q), h, c, t, mm, n, s);
  }

  lemma PlaneAt(F: (real, real) -> real, a: real, b: real, p: real, q: real, c: real, r: real, x: real, y: real,
                k: real, l: real)
    requires Plane(F, a, b, p, q, c, r) && k == x - a && l == y - b && -r <= k <= r && -r <= l <= r
    ensures Abs(RestOf(F, x, a, y, b, p, q)) <= c * SquareSum(k, l)
  {
    assert LinearTo(F, a, b, p, q, x, y, c);
  }

  lemma NoLinearPart(y: real, h: real, c: real, t: real, mm: real, n: real, s: real)
    requires Abs(y) <= c * t && c >= 0.0 && t <= mm * s && IsTimes(n, c, mm) && s == h * h
    ensures FirstOrder(y, 0.0, 0.0, h, n)
  {
    Enlarge(c, t, mm, s, n);
  }

  // Linear combinations of functions

  ghost function PlusAlong(f: real -> real, g: real -> real): real -> real {
    h => f(h) + g(h)
  }

  lemma ConstantSlope(c: real)
    ensures Slope(ConstantAlong(c), c, 0.0)
  {
    JetConstant(ConstantAlong(c), c);
    JetSlope(ConstantAlong(c), c, 0.0);
  }

  ghost function PartAlong(p: real, f: real -> real, a: real): real -> real {
    h => Times(p, f(h) - a)
  }

  lemma PartSlope(p: real, f: real -> real, a: real, d: real, c: real)
    requires Slope(f, a, d) && IsTimes(c, p, d)
    ensures Slope(PartAlong(p, f, a), 0.0, c)
  {
    var b, r :| Near(f, a, d, b, r);
    var k, n := PartAlong(p, f, a), Times(Abs(p), b);
    NonNegativeProduct(Abs(p), b, n);
    forall h: real | -r <= h <= r ensures FirstOrder(k(h), 0.0, c, h, n) {
      assert FirstOrder(f(h), a, d, h, b);
      PartAt(p, f, a, h);
      PartNear(p, f(h), a, d, h, b, n, k(h), c);
    }
    assert Near(k, 0.0, c, n, r);
  }

  lemma PartNear(p: real, y: real, a: real, d: real, h: real, b: real, n: real, u: real, c: real)
    requires FirstOrder(y, a, d, h, b) && IsTimes(u, p, y - a) && IsTimes(c, p, d) && IsTimes(n, Abs(p), b)
    ensures FirstOrder(u, 0.0, c, h, n)
  {
    var e, s := Rest(y, a, d, h), h * h;
    RestTimes(y, a, d, h, b, s, p, Abs(p), p * e, n);
    PartRest(p, y, a, d, h, u, c, e);
    WithinRest(u, 0.0, c, h, n, p * e, s);
  }

  lemma PartRest(p: real, y: real, a: real, d: real, h: real, u: real, c: real, e: real)
    requires IsTimes(u, p, y - a) && IsTimes(c, p, d) && e == Rest(y, a, d, h)
    ensures Rest(u, 0.0, c, h) == p * e
  {
    assert h * c == p * (h * d);
    Distribute(p, y - a, -(h * d));
  }

  lemma PartAt(p: real, f: real -> real, a: real, h: real)
    ensures IsTimes(PartAlong(p, f, a)(h), p, f(h) - a)
  {
  }

  ghost predicate IsPart(k: real -> real, p: real, f: real -> real, a: real) {
    forall h: real :: IsTimes(k(h), p, f(h) - a)
  }

  ghost predicate IsRemainder(k: real -> real, F: (real, real) -> real, f: real -> real, a: real, g: real -> real,
                              b: real, p: real, q: real)
  {
    forall h: real :: k(h) == RestOf(F, f(h), a, g(h), b, p, q)
  }

  ghost predicate IsComposite(k: real -> real, F: (real, real) -> real, f: real -> real, g: real -> real) {
    forall h: real :: k(h) == F(f(h), g(h))
  }

  ghost predicate IsSum(k: real -> real, f: real -> real, g: real -> real, rest: real -> real, w: real) {
    forall h: real :: k(h) == f(h) + g(h) + rest(h) + w
  }

  /** The chain rule for two arguments. */
  lemma SlopeChain2(f: real -> real, a: real, a1: real, g: real -> real, b: real, b1: real, F: (real, real) -> real,
                    p: real, q: real, c: real, r: real, k: real -> real, w: real, d1: real, d2: real, d: real)
    requires Slope(f, a, a1) && Slope(g, b, b1) && Plane(F, a, b, p, q, c, r) && w == F(a, b)
    requires IsTimes(d1, p, a1) && IsTimes(d2, q, b1) && d == d1 + d2 && IsComposite(k, F, f, g)
    ensures Slope(k, w, d)
  {
    RemainderSlope(f, a, a1, g, b, b1, F, p, q, c, r);
    PartSlope(p, f, a, a1, d1);
    PartSlope(q, g, b, b1, d2);
    SlopeFromParts(f, a, g, b, F, p, q, k, w, d1, d2, d);
  }

  lemma SlopeFromParts(f: real -> real, a: real, g: real -> real, b: real, F: (real, real) -> real, p: real, q: real,
                       k: real -> real, w: real, d1: real, d2: real, d: real)
    requires Slope(PartAlong(p, f, a), 0.0, d1) && Slope(PartAlong(q, g, b), 0.0, d2) && d == d1 + d2
    requires Slope(RemainderAlong(F, f, a, g, b, p, q), 0.0, 0.0)
    requires w == F(a, b) && IsComposite(k, F, f, g)
    ensures Slope(k, w, d)
  {
    PartsSum(F, f, a, g, b, p, q, k, w);
    SlopeOfSum(PartAlong(p, f, a), d1, PartAlong(q, g, b), d2, RemainderAlong(F, f, a, g, b, p, q), w, k, d);
  }

  lemma PartsSum(F: (real, real) -> real, f: real -> real, a: real, g: real -> real, b: real, p: real, q: real,
                 k: real -> real, w: real)
    requires w == F(a, b) && IsComposite(k, F, f, g)
    ensures IsSum(k, PartAlong(p, f, a), PartAlong(q, g, b), RemainderAlong(F, f, a, g, b, p, q), w)
  {
    PartsAre(f, a, g, b, F, p, q);
    Recombined(F, f, a, g, b, p, q, PartAlong(p, f, a), PartAlong(q, g, b), RemainderAlong(F, f, a, g, b, p, q), k, w);
  }

  lemma PartsAre(f: real -> real, a: real, g: real -> real, b: real, F: (real, real) -> real, p: real, q: real)
    ensures IsPart(PartAlong(p, f, a), p, f, a) && IsPart(PartAlong(q, g, b), q, g, b)
    ensures IsRemainder(RemainderAlong(F, f, a, g, b, p, q), F, f, a, g, b, p, q)
  {
    forall h: real ensures IsTimes(PartAlong(p, f, a)(h), p, f(h) - a) && IsTimes(PartAlong(q, g, b)(h), q, g(h) - b) {
      PartAt(p, f, a, h);
      PartAt(q, g, b, h);
    }
  }

  lemma Recombined(F: (real, real) -> real, f: real -> real, a: real, g: real -> real, b: real, p: real, q: real,
                   f': real -> real, g': real -> real, rest: real -> real, k: real -> real, w: real)
    requires IsPart(f', p, f, a) && IsPart(g', q, g, b) && IsRemainder(rest, F, f, a, g, b, p, q)
    requires w == F(a, b) && IsComposite(k, F, f, g)
    ensures IsSum(k, f', g', rest, w)
  {
    forall h: real ensures k(h) == f'(h) + g'(h) + rest(h) + w {
      RecombinedAt(F, f(h), a, g(h), b, p, q, f'(h), g'(h), rest(h));
    }
  }

  lemma RecombinedAt(F: (real, real) -> real, x: real, a: real, y: real, b: real, p: real, q: real, u: real, u': real,
                     e: real)
    requires e == RestOf(F, x, a, y, b, p, q) && IsTimes(u, p, x - a) && IsTimes(u', q, y - b)
    ensures F(x, y) == u + u' + e + F(a, b)
  {
  }

  lemma SlopeOfSum(f: real -> real, d1: real, g: real -> real, d2: real, rest: real -> real, w: real, k: real -> real,
                   d: real)
    requires Slope(f, 0.0, d1) && Slope(g, 0.0, d2) && Slope(rest, 0.0, 0.0) && d == d1 + d2 && IsSum(k, f, g, rest, w)
    ensures Slope(k, w, d)
  {
    var linear, constant := PlusAlong(f, g), ConstantAlong(w);
    SlopeSum(f, 0.0, d1, g, 0.0, d2, linear, 0.0, d);
    var change := PlusAlong(linear, rest);
    SlopeSum(linear, 0.0, d, rest, 0.0, 0.0, change, 0.0, d);
    ConstantSlope(w);
    forall h: real ensures k(h) == change(h) + constant(h) {
    }
    SlopeSum(change, 0.0, d, constant, w, 0.0, k, w, d);
  }
}
