/** adv-interpreter.hpp and adv-interpreter-proj.cpp: membership in, and projection onto, the basic sets.
    The square root of the C++ library is a parameter, of which only its defining property is used. */
module Projections {
  import opened Vectors

  datatype ConvexSet =
    | HalfSpace(a: Vec, b: real)
    | Rectangle(bounds: seq<(real, real)>)
    | Singleton(p: Vec)
    | Ball(center: Vec, radius: real)
  {
    function Dimension(): nat {
      match this
      case HalfSpace(a, _) => |a|
      case Rectangle(bounds) => |bounds|
      case Singleton(p) => |p|
      case Ball(center, _) => |center|
    }

    /** The formula divides by the norm of the normal, except for a member: there must be none that is no member. */
    predicate HasFormula() {
      this.HalfSpace? ==> !IsZero(a) || b >= 0.0
    }

    /** The sets whose formula gives the projection of every point: no ball with a negative radius. */
    predicate Proper() {
      HasFormula() && (this.Ball? ==> radius >= 0.0)
    }
  }

  function Min(a: real, b: real): real { if b < a then b else a }

  function Max(a: real, b: real): real { if a < b then b else a }

  predicate InInterval(bound: (real, real), x: real) {
    Min(bound.0, bound.1) <= x <= Max(bound.0, bound.1)
  }

  ghost predicate InSet(s: ConvexSet, x: Vec) {
    && |x| == s.Dimension()
    && match s
       case HalfSpace(a, b) => Dot(a, x) <= b
       case Rectangle(bounds) => forall i | 0 <= i < |x| :: InInterval(bounds[i], x[i])
       case Singleton(p) => x == p
       case Ball(center, radius) => DistSq(center, x) <= radius * radius
  }

  ghost predicate IsRootOf(x: real, t: real) {
    x >= 0.0 && x * x == t
  }

  ghost predicate IsSquareRoot(sqrt: real -> real) {
    forall t: real {:trigger IsRootOf(sqrt(t), t)} | t >= 0.0 :: IsRootOf(sqrt(t), t)
  }

  /** q is the point of the set at which p - q is normal to the set. */
  ghost predicate Projection(s: ConvexSet, p: Vec, q: Vec) {
    && InSet(s, q) && |p| == |q|
    && forall w: Vec | InSet(s, w) :: Dot(Sub(p, q), Sub(w, q)) <= 0.0
  }

  // What a projection is good for

  /** |p-w|^2 = |p-q|^2 + |q-w|^2 - 2 (p-q).(w-q) */
  lemma Cosine(p: Vec, q: Vec, w: Vec)
    requires |p| == |q| == |w|
    ensures DistSq(p, w) == DistSq(p, q) + DistSq(q, w) - 2.0 * Dot(Sub(p, q), Sub(w, q))
  {
    var u, v := Sub(p, q), Sub(w, q);
    assert Sub(p, w) == Sub(u, v);
    DotSub(Sub(u, v), u, v);
    DotSub(u, u, v);
    DotSub(v, u, v);
    DotCommutes(u, v);
    DistSymmetric(q, w);
  }

  lemma DistSymmetric(p: Vec, q: Vec)
    requires |p| == |q|
    ensures DistSq(p, q) == DistSq(q, p)
  {
    assert Sub(q, p) == Scale(-1.0, Sub(p, q));
    DotScale(Sub(p, q), -1.0, Sub(p, q));
    DotCommutes(Sub(p, q), Sub(q, p));
    DotScale(Sub(q, p), -1.0, Sub(p, q));
  }

  /** Going to the projection brings a point nearer to every point of the set. */
  lemma ProjectionApproaches(s: ConvexSet, p: Vec, q: Vec, w: Vec)
    requires Projection(s, p, q) && InSet(s, w)
    ensures DistSq(q, w) + DistSq(p, q) <= DistSq(p, w)
  {
    Cosine(p, q, w);
  }

  /** In particular the projection is the nearest point of the set, and the only one. */
  lemma ProjectionNearest(s: ConvexSet, p: Vec, q: Vec, w: Vec)
    requires Projection(s, p, q) && InSet(s, w)
    ensures DistSq(p, q) <= DistSq(p, w)
    ensures DistSq(p, w) <= DistSq(p, q) ==> w == q
  {
    ProjectionApproaches(s, p, q, w);
    NormSqDefinite(Sub(q, w));
    if w != q {
      assert !IsZero(Sub(q, w)) by {
        var i :| 0 <= i < |w| && w[i] != q[i];
        assert Sub(q, w)[i] != 0.0;
      }
    }
  }

  lemma ProjectionFixesMembers(s: ConvexSet, p: Vec, q: Vec)
    requires Projection(s, p, q) && InSet(s, p)
    ensures q == p
  {
    ProjectionNearest(s, p, q, p);
    assert IsZero(Sub(p, p));
    NormSqDefinite(Sub(p, p));
    NormSqDefinite(Sub(p, q));
  }

  /** Projecting two points does not take them further apart. */
  lemma ProjectionNonexpansive(s: ConvexSet, p: Vec, q: Vec, p': Vec, q': Vec)
    requires Projection(s, p, q) && Projection(s, p', q')
    ensures DistSq(q, q') <= DistSq(p, p')
  {
    var u, v, g := Sub(p, q), Sub(p', q'), Sub(q, q');
    assert Dot(u, Sub(q', q)) <= 0.0;
    assert Dot(v, Sub(q, q')) <= 0.0;
    assert Sub(q', q) == Scale(-1.0, g);
    DotScale(u, -1.0, g);
    var h := Sub(u, v);
    assert Sub(p, p') == Add(g, h);
    DotAdd(Add(g, h), g, h);
    DotAdd(g, g, h);
    DotAdd(h, g, h);
    DotCommutes(g, h);
    DotSub(g, u, v);
    NormSqDefinite(h);
    DotCommutes(u, g);
    DotCommutes(v, g);
  }

  // Half-spaces

  lemma HalfSpaceProjection(a: Vec, b: real, p: Vec, q: Vec)
    requires |a| == |p| == |q| && NormSq(a) != 0.0 && Dot(a, p) > b
    requires q == Combine(1.0, p, -((Dot(a, p) - b) / NormSq(a)), a)
    ensures Projection(HalfSpace(a, b), p, q)
  {
    NormSqDefinite(a);
    var t := (Dot(a, p) - b) / NormSq(a);
    DotCombine(a, 1.0, p, -t, a);
    assert t * NormSq(a) == Dot(a, p) - b;
    assert Dot(a, q) == b;
    assert t >= 0.0 by {
      NonNegativeFactor(NormSq(a), t);
    }
    var u := Sub(p, q);
    forall i | 0 <= i < |p| ensures u[i] == Scale(t, a)[i] {
      assert q[i] == 1.0 * p[i] + -t * a[i];
    }
    assert u == Scale(t, a);
    forall w: Vec | InSet(HalfSpace(a, b), w) ensures Dot(u, Sub(w, q)) <= 0.0 {
      DotSub(a, w, q);
      DotScale(Sub(w, q), t, a);
      DotCommutes(Sub(w, q), a);
      DotCommutes(Sub(w, q), u);
      NonPositiveProduct(t, Dot(a, Sub(w, q)));
    }
  }

  lemma NonPositiveProduct(t: real, x: real)
    requires t >= 0.0 && x <= 0.0
    ensures t * x <= 0.0
  {
  }

  lemma MemberProjection(s: ConvexSet, p: Vec)
    requires InSet(s, p)
    ensures Projection(s, p, p)
  {
    forall w: Vec | InSet(s, w) ensures Dot(Sub(p, p), Sub(w, p)) <= 0.0 {
      assert IsZero(Sub(p, p));
      DotZero(Sub(w, p), Sub(p, p));
    }
  }

  // Rectangles

  function ProjInterval(x: real, min: real, max: real): (r: real)
    requires min <= max
  {
    if x <= min then min else if x >= max then max else x
  }

  lemma IntervalObtuse(x: real, min: real, max: real, w: real)
    requires min <= w <= max
    ensures min <= ProjInterval(x, min, max) <= max
    ensures (x - ProjInterval(x, min, max)) * (w - ProjInterval(x, min, max)) <= 0.0
  {
    if x <= min {
      NonPositiveProduct(w - min, x - min);
    } else if x >= max {
      NonPositiveProduct(x - max, w - max);
    }
  }

  lemma {:induction false} DotToNonPositive(a: Vec, b: Vec, n: nat)
    requires n <= |a| && n <= |b|
    requires forall i | 0 <= i < n :: a[i] * b[i] <= 0.0
    ensures DotTo(a, b, n) <= 0.0
  {
    if n > 0 {
      DotToNonPositive(a, b, n - 1);
    }
  }

  lemma RectangleProjection(bounds: seq<(real, real)>, p: Vec, q: Vec)
    requires |bounds| == |p| == |q|
    requires forall i | 0 <= i < |p| ::
      q[i] == ProjInterval(p[i], Min(bounds[i].0, bounds[i].1), Max(bounds[i].0, bounds[i].1))
    ensures Projection(Rectangle(bounds), p, q)
  {
    forall w: Vec | InSet(Rectangle(bounds), w) ensures Dot(Sub(p, q), Sub(w, q)) <= 0.0 {
      var u, v := Sub(p, q), Sub(w, q);
      forall i | 0 <= i < |p| ensures u[i] * v[i] <= 0.0 {
        var min, max := Min(bounds[i].0, bounds[i].1), Max(bounds[i].0, bounds[i].1);
        assert InInterval(bounds[i], w[i]);
        IntervalObtuse(p[i], min, max, w[i]);
      }
      DotToNonPositive(u, v, |p|);
    }
  }

  // Balls

  lemma AbsLeSqrt(x: real, r: real)
    requires r >= 0.0 && x * x <= r * r
    ensures x <= r
  {
    if x > r {
      ProductPositive(x - r, x + r, x * x - r * r);
    }
  }

  /** The point at distance k*rho from the centre, in the direction of p. */
  lemma BallRay(c: Vec, p: Vec, q: Vec, rho: real, k: real)
    requires |c| == |p| == |q| && rho * rho == NormSq(Sub(p, c))
    requires q == Combine(1.0, c, k, Sub(p, c))
    ensures DistSq(c, q) == (k * rho) * (k * rho)
  {
    var v := Sub(p, c);
    forall i | 0 <= i < |p| ensures Sub(c, q)[i] == Scale(-k, v)[i] {
      assert q[i] == 1.0 * c[i] + k * v[i];
    }
    assert Sub(c, q) == Scale(-k, v);
    DotScale(Scale(-k, v), -k, v);
    DotScale(v, -k, v);
    DotCommutes(v, Scale(-k, v));
    assert DistSq(c, q) == (k * k) * (rho * rho);
    assert (k * k) * (rho * rho) == (k * rho) * (k * rho);
  }

  lemma BallFactor(r: real, rho: real, k: real)
    requires 0.0 <= r && 0.0 <= rho && rho * rho > r * r && (rho != 0.0 ==> k == r / rho)
    ensures rho > 0.0 && k * rho == r && 0.0 <= k <= 1.0
  {
    if rho <= r {
      SquareMonotone(rho, r);
    }
    assert k * rho == r;
    NonNegativeFactor(rho, k);
    NonNegativeFactor(rho, 1.0 - k);
  }

  lemma BallProjection(c: Vec, r: real, p: Vec, q: Vec, rho: real)
    requires |c| == |p| == |q| && r >= 0.0 && rho > 0.0
    requires rho * rho == NormSq(Sub(p, c)) && NormSq(Sub(p, c)) > r * r
    requires q == Combine(1.0, c, r / rho, Sub(p, c))
    ensures Projection(Ball(c, r), p, q)
  {
    var k := r / rho;
    BallFactor(r, rho, k);
    BallRay(c, p, q, rho, k);
    forall w: Vec | InSet(Ball(c, r), w) ensures Dot(Sub(p, q), Sub(w, q)) <= 0.0 {
      BallObtuse(c, r, p, q, rho, k, w);
    }
  }

  lemma BallObtuse(c: Vec, r: real, p: Vec, q: Vec, rho: real, k: real, w: Vec)
    requires |c| == |p| == |q| == |w| && r >= 0.0 && rho > 0.0 && 0.0 <= k <= 1.0 && k * rho == r
    requires rho * rho == NormSq(Sub(p, c)) && q == Combine(1.0, c, k, Sub(p, c))
    requires DistSq(c, w) <= r * r
    ensures Dot(Sub(p, q), Sub(w, q)) <= 0.0
  {
    var v, u := Sub(p, c), Sub(w, c);
    assert Sub(p, q) == Scale(1.0 - k, v);
    assert Sub(w, q) == Combine(1.0, u, -k, v);
    DotCombine(v, 1.0, u, -k, v);
    DotScale(Sub(w, q), 1.0 - k, v);
    DotCommutes(Sub(w, q), Scale(1.0 - k, v));
    DotCommutes(Sub(w, q), v);
    CauchySchwarz(v, u);
    DistSymmetric(c, w);
    BallBound(Dot(v, u), rho, r, NormSq(u));
    assert k * (rho * rho) == r * rho;
    NonPositiveProduct(1.0 - k, Dot(v, Sub(w, q)));
  }

  lemma BallBound(d: real, rho: real, r: real, n: real)
    requires rho >= 0.0 && r >= 0.0 && n <= r * r && d * d <= (rho * rho) * n
    ensures d <= r * rho
  {
    assert (rho * rho) * (r * r - n) >= 0.0;
    assert (rho * rho) * (r * r) == (r * rho) * (r * rho);
    assert r * rho >= 0.0;
    AbsLeSqrt(d, r * rho);
  }

  /** Two vectors in the direction of v. */
  lemma SameDirection(v: Vec, s: real, t: real, u: Vec, w: Vec)
    requires u == Scale(s, v) && w == Scale(t, v) && s > 0.0 && t > 0.0 && NormSq(v) > 0.0
    ensures Dot(u, w) > 0.0
  {
    DotScale(u, t, v);
    DotScale(v, s, v);
    DotCommutes(v, u);
    ProductPositive(s, NormSq(v), s * NormSq(v));
    ProductPositive(t, s * NormSq(v), t * (s * NormSq(v)));
  }

  lemma RayDifference(c: Vec, v: Vec, k: real, l: real, q: Vec, w: Vec)
    requires |c| == |v| && q == Combine(1.0, c, k, v) && w == Combine(1.0, c, l, v)
    ensures Sub(w, q) == Scale(l - k, v)
  {
    forall i | 0 <= i < |c| ensures Sub(w, q)[i] == Scale(l - k, v)[i] {
      assert q[i] == 1.0 * c[i] + k * v[i] && w[i] == 1.0 * c[i] + l * v[i];
    }
  }

  lemma NegativeFactor(k: real, rho: real, r: real)
    requires rho > 0.0 && r < 0.0 && k == r / rho
    ensures k < 0.0 && k * rho == r
  {
    assert k * rho == r;
    if k >= 0.0 {
      NonNegativeProduct(k, rho, k * rho);
    }
  }

  /** Outside a ball with a negative radius the formula gives a point of the ball, but not the nearest:
      it lies on the far side of the centre. */
  lemma NegativeRadius(c: Vec, r: real, p: Vec, q: Vec, rho: real)
    requires |c| == |p| == |q| && r < 0.0 && rho > 0.0
    requires rho * rho == NormSq(Sub(p, c)) && NormSq(Sub(p, c)) > r * r
    requires q == Combine(1.0, c, r / rho, Sub(p, c))
    ensures InSet(Ball(c, r), q) && !Projection(Ball(c, r), p, q)
  {
    var v, k := Sub(p, c), r / rho;
    NegativeFactor(k, rho, r);
    BallRay(c, p, q, rho, k);
    var l := -k;
    var w := Combine(1.0, c, l, v);
    BallRay(c, p, w, rho, l);
    assert l * rho == -r;
    assert InSet(Ball(c, r), w);
    assert p == Combine(1.0, c, 1.0, v);
    RayDifference(c, v, k, 1.0, q, p);
    RayDifference(c, v, k, l, q, w);
    SquarePositive(rho, rho * rho);
    SameDirection(v, 1.0 - k, l - k, Sub(p, q), Sub(w, q));
  }

  /** So for a point outside, the formula for balls is right exactly when the radius is not negative. */
  lemma BallFormulaExact(c: Vec, r: real, p: Vec, q: Vec, rho: real)
    requires |c| == |p| == |q| && rho > 0.0
    requires rho * rho == NormSq(Sub(p, c)) && NormSq(Sub(p, c)) > r * r
    requires q == Combine(1.0, c, r / rho, Sub(p, c))
    ensures Projection(Ball(c, r), p, q) <==> r >= 0.0
  {
    if r >= 0.0 {
      BallProjection(c, r, p, q, rho);
    } else {
      NegativeRadius(c, r, p, q, rho);
    }
  }

  /** p seen from the other side of c. */
  function Mirrored(c: Vec, p: Vec): (r: Vec)
    requires |c| == |p|
    ensures |r| == |p|
  {
    Combine(2.0, c, -1.0, p)
  }

  /** q lies in the set, and is the projection of p, unless p lies outside a ball with a negative radius: then it is the
      projection of the point on the other side of the centre. */
  ghost predicate LeadsTo(s: ConvexSet, p: Vec, q: Vec) {
    && InSet(s, q) && |q| == |p|
    && (Projection(s, p, q) <==> s.Proper() || InSet(s, p))
    && (s.Ball? && s.radius < 0.0 && !InSet(s, p) ==> Projection(s, Mirrored(s.center, p), q))
  }

  lemma MirroredProjection(c: Vec, r: real, p: Vec, q: Vec, rho: real)
    requires |c| == |p| == |q| && r < 0.0 && rho > 0.0
    requires rho * rho == NormSq(Sub(p, c)) && NormSq(Sub(p, c)) > r * r
    requires q == Combine(1.0, c, r / rho, Sub(p, c))
    ensures Projection(Ball(c, r), Mirrored(c, p), q)
  {
    var m, v, s := Mirrored(c, p), Sub(p, c), -r;
    var w := Sub(m, c);
    assert w == Scale(-1.0, v);
    DotScale(v, -1.0, v);
    DotCommutes(v, w);
    DotScale(w, -1.0, v);
    assert NormSq(w) == NormSq(v) && s * s == r * r;
    NegativeFactor(r / rho, rho, r);
    var k := s / rho;
    assert k * rho == s;
    assert (k + r / rho) * rho == 0.0;
    assert k == -(r / rho);
    forall i | 0 <= i < |p| ensures q[i] == Combine(1.0, c, k, w)[i] {
      assert q[i] == 1.0 * c[i] + (r / rho) * v[i] && w[i] == -1.0 * v[i];
    }
    assert q == Combine(1.0, c, k, w);
    BallProjection(c, s, m, q, rho);
    SameBall(c, r, s, m, q);
  }

  lemma SameBall(c: Vec, r: real, s: real, p: Vec, q: Vec)
    requires r * r == s * s && Projection(Ball(c, s), p, q)
    ensures Projection(Ball(c, r), p, q)
  {
    forall w: Vec ensures InSet(Ball(c, r), w) <==> InSet(Ball(c, s), w) {
    }
  }

  // The routines

  method Membership(s: ConvexSet, x: Vec) returns (member: bool)
    requires |x| == s.Dimension()
    ensures member <==> InSet(s, x)
  {
    match s {
      case HalfSpace(a, b) =>
        member := Dot(a, x) <= b;
      case Rectangle(bounds) =>
        for i := 0 to |bounds|
          invariant forall k | 0 <= k < i :: InInterval(bounds[k], x[k])
        {
          var minVal, maxVal := Min(bounds[i].0, bounds[i].1), Max(bounds[i].0, bounds[i].1);
          if x[i] < minVal || x[i] > maxVal {
            return false;
          }
        }
        member := true;
      case Singleton(p) =>
        member := x == p;
      case Ball(center, radius) =>
        member := DistSq(center, x) <= radius * radius;
    }
  }

  /** The logical and over a list of sets. */
  method MembershipAll(sets: seq<ConvexSet>, x: Vec) returns (member: bool)
    requires forall s | s in sets :: |x| == s.Dimension()
    ensures member <==> forall i | 0 <= i < |sets| :: InSet(sets[i], x)
  {
    for i := 0 to |sets|
      invariant forall k | 0 <= k < i :: InSet(sets[k], x)
    {
      var one := Membership(sets[i], x);
      if !one {
        return false;
      }
    }
    return true;
  }

  method ProjectRectangle(bounds: seq<(real, real)>, p: Vec) returns (q: Vec)
    requires |p| == |bounds|
    ensures Projection(Rectangle(bounds), p, q)
  {
    q := [];
    for i := 0 to |bounds|
      invariant |q| == i
      invariant forall k | 0 <= k < i ::
        q[k] == ProjInterval(p[k], Min(bounds[k].0, bounds[k].1), Max(bounds[k].0, bounds[k].1))
    {
      var minVal, maxVal := Min(bounds[i].0, bounds[i].1), Max(bounds[i].0, bounds[i].1);
      q := q + [ProjInterval(p[i], minVal, maxVal)];
    }
    RectangleProjection(bounds, p, q);
  }

  method ProjectHalfSpace(a: Vec, b: real, p: Vec) returns (q: Vec)
    requires |p| == |a| && (!IsZero(a) || b >= 0.0)
    ensures Projection(HalfSpace(a, b), p, q)
  {
    var member := Membership(HalfSpace(a, b), p);
    if member {
      MemberProjection(HalfSpace(a, b), p);
      return p;
    }
    if IsZero(a) {
      DotZero(p, a);
    }
    NormSqDefinite(a);
    q := Combine(1.0, p, -((Dot(a, p) - b) / NormSq(a)), a);
    HalfSpaceProjection(a, b, p, q);
  }

  method ProjectBall(center: Vec, radius: real, p: Vec, sqrt: real -> real) returns (q: Vec)
    requires |p| == |center| && IsSquareRoot(sqrt)
    ensures InSet(Ball(center, radius), q)
    ensures Projection(Ball(center, radius), p, q) <==> radius >= 0.0 || InSet(Ball(center, radius), p)
    ensures radius < 0.0 && !InSet(Ball(center, radius), p) ==>
            Projection(Ball(center, radius), Mirrored(center, p), q)
  {
    var member := Membership(Ball(center, radius), p);
    if member {
      MemberProjection(Ball(center, radius), p);
      return p;
    }
    DistSymmetric(center, p);
    var v := Sub(p, center);
    NormSqDefinite(v);
    SquarePositive(radius, radius * radius);
    var rho := sqrt(NormSq(v));
    assert IsRootOf(rho, NormSq(v));
    assert rho > 0.0;
    q := Combine(1.0, center, radius / rho, v);
    BallFormulaExact(center, radius, p, q, rho);
    if radius < 0.0 {
      NegativeRadius(center, radius, p, q, rho);
      MirroredProjection(center, radius, p, q, rho);
    }
  }

  /** proj, for the sets whose projection is given by a formula. The result is in the set; it is the projection, unless
      the point lies outside a ball with a negative radius. */
  method Project(s: ConvexSet, p: Vec, sqrt: real -> real) returns (q: Vec)
    requires |p| == s.Dimension() && s.HasFormula() && IsSquareRoot(sqrt)
    ensures LeadsTo(s, p, q)
  {
    match s {
      case HalfSpace(a, b) =>
        q := ProjectHalfSpace(a, b, p);
      case Rectangle(bounds) =>
        q := ProjectRectangle(bounds, p);
      case Singleton(single) =>
        q := single;
        forall w: Vec | InSet(s, w) ensures Dot(Sub(p, q), Sub(w, q)) <= 0.0 {
          assert IsZero(Sub(w, q));
          DotZero(Sub(p, q), Sub(w, q));
        }
      case Ball(center, radius) =>
        q := ProjectBall(center, radius, p, sqrt);
    }
  }

  // Alternating projections

  ghost predicate InAll(sets: seq<ConvexSet>, x: Vec) {
    forall i | 0 <= i < |sets| :: InSet(sets[i], x)
  }

  ghost predicate AllProper(sets: seq<ConvexSet>) {
    forall s | s in sets :: s.Proper()
  }

  /** Without a ball of negative radius, every step brings the point nearer to all common points. */
  ghost predicate Nearer(sets: seq<ConvexSet>, point: Vec, x: Vec) {
    && |x| == |point|
    && (AllProper(sets) ==>
        forall w: Vec | |w| == |point| && InAll(sets, w) :: DistSq(x, w) <= DistSq(point, w))
  }

  lemma NearerStill(sets: seq<ConvexSet>, point: Vec, x: Vec, i: nat, x': Vec)
    requires Nearer(sets, point, x) && i < |sets| && |x'| == |point|
    requires sets[i].Proper() ==> Projection(sets[i], x, x')
    ensures Nearer(sets, point, x')
  {
    if AllProper(sets) {
      forall w: Vec | |w| == |point| && InAll(sets, w) ensures DistSq(x', w) <= DistSq(point, w) {
        ProjectionApproaches(sets[i], x, x', w);
        NormSqDefinite(Sub(x, x'));
      }
    }
  }

  /** The points of a round: where it begins, and the projections onto the first sets, each of the one before. */
  ghost predicate IsRound(sets: seq<ConvexSet>, points: seq<Vec>) {
    && 0 < |points| <= |sets| + 1
    && forall l | 0 < l < |points| :: LeadsTo(sets[l - 1], points[l - 1], points[l])
  }

  /** None of the projections of a round is a common point. */
  ghost predicate NoneCommon(sets: seq<ConvexSet>, points: seq<Vec>) {
    forall l | 0 < l < |points| :: !InAll(sets, points[l])
  }

  /** Whole rounds, the first from the point and each from the end of the one before, without a common point. */
  ghost predicate AreRounds(sets: seq<ConvexSet>, point: Vec, rounds: seq<seq<Vec>>) {
    && (forall k | 0 <= k < |rounds| ::
          IsRound(sets, rounds[k]) && |rounds[k]| == |sets| + 1 && NoneCommon(sets, rounds[k]))
    && (forall k | 0 <= k < |rounds| :: rounds[k][0] == EndOf(sets, point, rounds[..k]))
  }

  ghost function EndOf(sets: seq<ConvexSet>, point: Vec, rounds: seq<seq<Vec>>): Vec {
    if rounds == [] || |rounds[|rounds| - 1]| <= |sets| then point else rounds[|rounds| - 1][|sets|]
  }

  lemma AnotherRound(sets: seq<ConvexSet>, point: Vec, rounds: seq<seq<Vec>>, points: seq<Vec>)
    requires AreRounds(sets, point, rounds) && IsRound(sets, points) && |points| == |sets| + 1
    requires NoneCommon(sets, points) && points[0] == EndOf(sets, point, rounds)
    ensures AreRounds(sets, point, rounds + [points])
    ensures EndOf(sets, point, rounds + [points]) == points[|sets|]
  {
    var rounds' := rounds + [points];
    forall k | 0 <= k < |rounds'| ensures rounds'[k][0] == EndOf(sets, point, rounds'[..k]) {
      if k < |rounds| {
        assert rounds'[..k] == rounds[..k];
      } else {
        assert rounds'[..k] == rounds;
      }
    }
  }

  lemma RoundNext(sets: seq<ConvexSet>, points: seq<Vec>, i: nat, x: Vec)
    requires IsRound(sets, points) && |points| == i + 1 && i < |sets| && LeadsTo(sets[i], points[i], x)
    requires NoneCommon(sets, points)
    ensures IsRound(sets, points + [x]) && (!InAll(sets, x) ==> NoneCommon(sets, points + [x]))
  {
  }

  /** alternatingProjectionAlgorithm. Without convergence the result is not written, and none of the projections has
      been a common point; otherwise the last one is the first that is. */
  method AlternatingProjection(sets: seq<ConvexSet>, point: Vec, maxIterations: int, sqrt: real -> real)
    returns (converged: bool, result: Vec, ghost rounds: seq<seq<Vec>>, ghost last: seq<Vec>)
    requires forall s | s in sets :: |point| == s.Dimension() && s.HasFormula()
    requires IsSquareRoot(sqrt)
    ensures AreRounds(sets, point, rounds)
    ensures !converged ==> |rounds| == if maxIterations < 0 then 0 else maxIterations
    ensures converged ==> |rounds| < maxIterations && IsRound(sets, last) && |last| > 1 &&
                          last[0] == EndOf(sets, point, rounds) && NoneCommon(sets, last[..|last| - 1]) &&
                          result == last[|last| - 1]
    ensures converged ==> |result| == |point| && InAll(sets, result)
    ensures converged ==> Nearer(sets, point, result)
    ensures sets == [] ==> !converged
    ensures sets != [] && maxIterations > 0 && InAll(sets, point) ==> converged && result == point
  {
    result, rounds, last := [], [], [];
    var x := point;
    var iter := 0;
    while iter < maxIterations
      invariant AreRounds(sets, point, rounds) && EndOf(sets, point, rounds) == x
      invariant iter == |rounds| && (iter <= maxIterations || (maxIterations < 0 && iter == 0))
      invariant Nearer(sets, point, x)
      invariant sets != [] && InAll(sets, point) ==> iter == 0 && x == point
    {
      last := [x];
      for i := 0 to |sets|
        invariant IsRound(sets, last) && |last| == i + 1 && NoneCommon(sets, last)
        invariant last[0] == EndOf(sets, point, rounds) && last[i] == x
        invariant Nearer(sets, point, x)
        invariant sets != [] && InAll(sets, point) ==> i == 0 && iter == 0 && x == point
      {
        var x' := Project(sets[i], x, sqrt);
        NearerStill(sets, point, x, i, x');
        if InAll(sets, point) {
          ProjectionFixesMembers(sets[i], x, x');
        }
        RoundNext(sets, last, i, x');
        assert (last + [x'])[..i + 1] == last;
        last := last + [x'];
        x := x';
        var done := MembershipAll(sets, x);
        if done {
          return true, x, rounds, last;
        }
      }
      AnotherRound(sets, point, rounds, last);
      rounds := rounds + [last];
      iter := iter + 1;
    }
    return false, [], rounds, [];
  }
}
