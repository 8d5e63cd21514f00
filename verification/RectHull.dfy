/** adv-interpreter-recthull.cpp: bounding boxes of sets in the plane whose expressions have been evaluated. */
module RectHull {
  import opened Arcs
  import opened BoundingBox
  import opened Projections
  import opened Vectors
  import opened Wrappers

  datatype PlaneSet =
    | Point(p: V2)
    | Disk(center: V2, radius: real)
    | Rect(a: V2, b: V2)
    | Polytope(rows: seq<V2>, bounds: seq<real>)
    | Meet(sets: seq<PlaneSet>)
    | Unsupported

  predicate InDisk(c: V2, r: real, p: V2) {
    (c.x - p.x) * (c.x - p.x) + (c.y - p.y) * (c.y - p.y) <= r * r
  }

  predicate InRect(a: V2, b: V2, p: V2) {
    InInterval((a.x, b.x), p.x) && InInterval((a.y, b.y), p.y)
  }

  /** The dimensions of a polytope's matrix and vector agree. */
  predicate WellFormed(s: PlaneSet) {
    match s
    case Polytope(rows, bounds) => |rows| == |bounds| >= 1
    case Meet(sets) => forall i | 0 <= i < |sets| :: WellFormed(sets[i])
    case _ => true
  }

  /** No ball has a negative radius. */
  predicate Proper(s: PlaneSet) {
    match s
    case Disk(_, r) => r >= 0.0
    case Meet(sets) => forall i | 0 <= i < |sets| :: Proper(sets[i])
    case _ => true
  }

  ghost predicate Member(s: PlaneSet, p: V2)
    requires WellFormed(s)
  {
    match s
    case Point(q) => p == q
    case Disk(c, r) => InDisk(c, r, p)
    case Rect(a, b) => InRect(a, b, p)
    case Polytope(rows, bounds) => InPolygon(rows, bounds, p)
    case Meet(sets) => forall i | 0 <= i < |sets| :: Member(sets[i], p)
    case Unsupported => false
  }

  datatype HullResult =
    | Boxed(box: Box)
    | NoSets                   // the intersection of no sets: a box without dimensions
    | LpFailed(error: LpError)
    | WrongSet

  ghost predicate Contains(box: Box, s: PlaneSet)
    requires WellFormed(s)
  {
    forall p: V2 | Member(s, p) :: InBox(box, p)
  }

  /** Every side of the box touches the set. */
  ghost predicate Touches(box: Box, s: PlaneSet)
    requires WellFormed(s)
  {
    && (exists p: V2 :: Member(s, p) && p.x == box.min.x)
    && (exists p: V2 :: Member(s, p) && p.x == box.max.x)
    && (exists p: V2 :: Member(s, p) && p.y == box.min.y)
    && (exists p: V2 :: Member(s, p) && p.y == box.max.y)
  }

  // Disks

  function DiskBox(c: V2, r: real): Box {
    Box(V2(c.x - r, c.y - r), V2(c.x + r, c.y + r))
  }

  lemma DiskInBox(c: V2, r: real, p: V2)
    requires r >= 0.0 && InDisk(c, r, p)
    ensures InBox(DiskBox(c, r), p)
  {
    var dx, dy := c.x - p.x, c.y - p.y;
    SquareNonNegative(dx);
    SquareNonNegative(dy);
    AbsLeSqrt(dx, r);
    AbsLeSqrt(-dx, r);
    AbsLeSqrt(dy, r);
    AbsLeSqrt(-dy, r);
  }

  lemma SquareNonNegative(x: real)
    ensures x * x >= 0.0
  {
    SquarePositive(x, x * x);
  }

  lemma DiskTouches(c: V2, r: real)
    requires r >= 0.0
    ensures Touches(DiskBox(c, r), Disk(c, r))
  {
    OnDisk(c, r, V2(c.x - r, c.y));
    OnDisk(c, r, V2(c.x + r, c.y));
    OnDisk(c, r, V2(c.x, c.y - r));
    OnDisk(c, r, V2(c.x, c.y + r));
  }

  lemma OnDisk(c: V2, r: real, p: V2)
    requires (p.y == c.y && (p.x == c.x - r || p.x == c.x + r)) || (p.x == c.x && (p.y == c.y - r || p.y == c.y + r))
    ensures Member(Disk(c, r), p)
  {
    var dx, dy := c.x - p.x, c.y - p.y;
    assert (dx == 0.0 || dx == r || dx == -r) && (dy == 0.0 || dy == r || dy == -r);
  }

  /** The box of a ball contains the ball exactly when its radius is not negative. */
  lemma DiskExact(c: V2, r: real)
    ensures Contains(DiskBox(c, r), Disk(c, r)) <==> r >= 0.0
  {
    if r >= 0.0 {
      forall p: V2 | Member(Disk(c, r), p) ensures InBox(DiskBox(c, r), p) {
        DiskInBox(c, r, p);
      }
    } else {
      SquareNonNegative(r);
      assert Member(Disk(c, r), c) && !InBox(DiskBox(c, r), c);
    }
  }

  lemma RectTouches(a: V2, b: V2, box: Box)
    requires box == Box(V2(Min(a.x, b.x), Min(a.y, b.y)), V2(Max(a.x, b.x), Max(a.y, b.y)))
    ensures Touches(box, Rect(a, b))
  {
    assert Member(Rect(a, b), box.min) && Member(Rect(a, b), box.max);
  }

  // Intersections

  /** AlignedBox::intersection */
  function Common(b: Box, c: Box): Box {
    Box(V2(Max(b.min.x, c.min.x), Max(b.min.y, c.min.y)), V2(Min(b.max.x, c.max.x), Min(b.max.y, c.max.y)))
  }

  lemma CommonIsIntersection(b: Box, c: Box, p: V2)
    ensures InBox(Common(b, c), p) <==> InBox(b, p) && InBox(c, p)
  {
  }

  lemma PolygonConcat(rows: seq<V2>, bounds: seq<real>, rows': seq<V2>, bounds': seq<real>, p: V2)
    requires |rows| == |bounds| && |rows'| == |bounds'|
    ensures InPolygon(rows + rows', bounds + bounds', p) <==> InPolygon(rows, bounds, p) && InPolygon(rows', bounds', p)
  {
    var a, b := rows + rows', bounds + bounds';
    if InPolygon(a, b, p) {
      forall i | 0 <= i < |rows| ensures Dot2(rows[i], p) <= bounds[i] {
        assert a[i] == rows[i] && b[i] == bounds[i];
      }
      forall i | 0 <= i < |rows'| ensures Dot2(rows'[i], p) <= bounds'[i] {
        assert a[|rows| + i] == rows'[i] && b[|rows| + i] == bounds'[i];
      }
    }
  }

  /** The identity and its negative, with the corners of a box: a box as a polygon. */
  function BoxRows(): seq<V2> {
    [V2(1.0, 0.0), V2(0.0, 1.0), V2(-1.0, 0.0), V2(0.0, -1.0)]
  }

  function BoxBounds(box: Box): seq<real> {
    [box.max.x, box.max.y, -box.min.x, -box.min.y]
  }

  lemma BoxIsPolygon(box: Box, p: V2)
    ensures InPolygon(BoxRows(), BoxBounds(box), p) <==> InBox(box, p)
  {
    var a, b := BoxRows(), BoxBounds(box);
    assert Dot2(a[0], p) == p.x && Dot2(a[1], p) == p.y && Dot2(a[2], p) == -p.x && Dot2(a[3], p) == -p.y;
    if InPolygon(a, b, p) {
      assert Dot2(a[0], p) <= b[0] && Dot2(a[1], p) <= b[1] && Dot2(a[2], p) <= b[2] && Dot2(a[3], p) <= b[3];
    }
  }

  /** p satisfies the constraints of all polytopes in the list ... */
  ghost predicate InPolytopes(sets: seq<PlaneSet>, p: V2)
    requires forall i | 0 <= i < |sets| :: WellFormed(sets[i])
  {
    forall i | 0 <= i < |sets| && sets[i].Polytope? :: Member(sets[i], p)
  }

  /** ... and belongs to all other sets. */
  ghost predicate InOthers(sets: seq<PlaneSet>, p: V2)
    requires forall i | 0 <= i < |sets| :: WellFormed(sets[i])
  {
    forall i | 0 <= i < |sets| && !sets[i].Polytope? :: Member(sets[i], p)
  }

  ghost predicate AllFormed(sets: seq<PlaneSet>) {
    forall i | 0 <= i < |sets| :: WellFormed(sets[i])
  }

  /** The merged constraints are those of all polytopes. */
  ghost predicate IsMerged(sets: seq<PlaneSet>, rows: seq<V2>, bounds: seq<real>)
    requires AllFormed(sets)
  {
    |rows| == |bounds| >= 1 && forall p: V2 :: InPolygon(rows, bounds, p) <==> InPolytopes(sets, p)
  }

  lemma InPolytopesNext(sets: seq<PlaneSet>, s: PlaneSet, p: V2)
    requires AllFormed(sets) && WellFormed(s)
    ensures AllFormed(sets + [s])
    ensures InPolytopes(sets + [s], p) <==> InPolytopes(sets, p) && (s.Polytope? ==> Member(s, p))
    ensures InOthers(sets + [s], p) <==> InOthers(sets, p) && (!s.Polytope? ==> Member(s, p))
  {
    var sets' := sets + [s];
    assert sets'[|sets|] == s;
    forall i | 0 <= i < |sets| ensures sets'[i] == sets[i] {
    }
  }

  /** Appending the constraints of another polytope. */
  lemma MergedNext(sets: seq<PlaneSet>, rows: seq<V2>, bounds: seq<real>, s: PlaneSet)
    requires AllFormed(sets) && IsMerged(sets, rows, bounds) && s.Polytope? && WellFormed(s)
    ensures AllFormed(sets + [s]) && IsMerged(sets + [s], rows + s.rows, bounds + s.bounds)
  {
    forall p: V2 ensures InPolygon(rows + s.rows, bounds + s.bounds, p) <==> InPolytopes(sets + [s], p) {
      PolygonConcat(rows, bounds, s.rows, s.bounds, p);
      InPolytopesNext(sets, s, p);
    }
    InPolytopesNext(sets, s, ORIGIN);
  }

  lemma MergedFirst(sets: seq<PlaneSet>, s: PlaneSet)
    requires AllFormed(sets) && s.Polytope? && WellFormed(s)
    requires forall i | 0 <= i < |sets| :: !sets[i].Polytope?
    ensures AllFormed(sets + [s]) && IsMerged(sets + [s], s.rows, s.bounds)
  {
    forall p: V2 ensures InPolygon(s.rows, s.bounds, p) <==> InPolytopes(sets + [s], p) {
      InPolytopesNext(sets, s, p);
    }
    InPolytopesNext(sets, s, ORIGIN);
  }

  ghost predicate BoxesOthers(box: Box, sets: seq<PlaneSet>)
    requires AllFormed(sets)
  {
    forall p: V2 | InOthers(sets, p) :: InBox(box, p)
  }

  predicate AtMostOnePolytope(sets: seq<PlaneSet>) {
    forall i, j | 0 <= i < j < |sets| :: !(sets[i].Polytope? && sets[j].Polytope?)
  }

  /** No intersection lists two polytopes. */
  predicate SinglePolytopes(s: PlaneSet) {
    s.Meet? ==> AtMostOnePolytope(s.sets) && forall i | 0 <= i < |s.sets| :: SinglePolytopes(s.sets[i])
  }

  /** The sets whose constraints are not lost: `keeps` says that a matrix keeps its contents when it is resized. */
  predicate Mergeable(keeps: bool, s: PlaneSet) {
    keeps || SinglePolytopes(s)
  }

  predicate AllMergeable(keeps: bool, sets: seq<PlaneSet>) {
    forall i | 0 <= i < |sets| :: Mergeable(keeps, sets[i])
  }

  /** What the loop over an intersection has computed from its first sets. */
  ghost predicate Gathered(keeps: bool, sets: seq<PlaneSet>, merged: Option<(seq<V2>, seq<real>)>, temp: Option<Box>)
    requires AllFormed(sets)
  {
    && (match merged
        case Some(m) =>
          && |m.0| == |m.1| >= 1 && (exists i :: 0 <= i < |sets| && sets[i].Polytope?)
          && (keeps || AtMostOnePolytope(sets) ==> IsMerged(sets, m.0, m.1))
        case None => forall i | 0 <= i < |sets| :: !sets[i].Polytope?)
    && (temp.Some? && AllMergeable(keeps, sets) && AllProper(sets) ==> BoxesOthers(temp.value, sets))
  }

  /** The first polytope's constraints are copied; those of another are appended, or else its arrival leaves as many
      arbitrary ones. */
  ghost predicate Merged(keeps: bool, before: Option<(seq<V2>, seq<real>)>, s: PlaneSet, after: (seq<V2>, seq<real>))
    requires s.Polytope? && WellFormed(s)
  {
    match before
    case None => after == (s.rows, s.bounds)
    case Some(m) =>
      && (keeps ==> after == (m.0 + s.rows, m.1 + s.bounds))
      && |after.0| == |m.0| + |s.rows| && |after.1| == |m.1| + |s.bounds|
  }

  ghost predicate AllProper(sets: seq<PlaneSet>) {
    forall i | 0 <= i < |sets| :: Proper(sets[i])
  }

  lemma MergedKept(sets: seq<PlaneSet>, rows: seq<V2>, bounds: seq<real>, s: PlaneSet)
    requires AllFormed(sets) && IsMerged(sets, rows, bounds) && !s.Polytope? && WellFormed(s)
    ensures AllFormed(sets + [s]) && IsMerged(sets + [s], rows, bounds)
  {
    InPolytopesNext(sets, s, ORIGIN);
    forall p: V2 ensures InPolygon(rows, bounds, p) <==> InPolytopes(sets + [s], p) {
      InPolytopesNext(sets, s, p);
    }
  }

  lemma BoxKept(box: Box, sets: seq<PlaneSet>, s: PlaneSet)
    requires AllFormed(sets) && BoxesOthers(box, sets) && s.Polytope? && WellFormed(s)
    ensures AllFormed(sets + [s]) && BoxesOthers(box, sets + [s])
  {
    InPolytopesNext(sets, s, ORIGIN);
    forall p: V2 | InOthers(sets + [s], p) ensures InBox(box, p) {
      InPolytopesNext(sets, s, p);
    }
  }

  lemma BoxNext(sets: seq<PlaneSet>, temp: Option<Box>, s: PlaneSet, box: Box, temp': Box)
    requires AllFormed(sets) && (temp.Some? ==> BoxesOthers(temp.value, sets)) && !s.Polytope? && WellFormed(s)
    requires Contains(box, s) && temp' == if temp.None? then box else Common(temp.value, box)
    ensures AllFormed(sets + [s]) && BoxesOthers(temp', sets + [s])
  {
    InPolytopesNext(sets, s, ORIGIN);
    forall p: V2 | InOthers(sets + [s], p) ensures InBox(temp', p) {
      InPolytopesNext(sets, s, p);
      if temp.Some? {
        CommonIsIntersection(temp.value, box, p);
      }
    }
  }

  /** What holds of a longer list holds of the list without its last set. */
  lemma Shorter(keeps: bool, sets: seq<PlaneSet>, s: PlaneSet)
    ensures AllProper(sets + [s]) <==> AllProper(sets) && Proper(s)
    ensures AllMergeable(keeps, sets + [s]) <==> AllMergeable(keeps, sets) && Mergeable(keeps, s)
    ensures AtMostOnePolytope(sets + [s]) ==> AtMostOnePolytope(sets)
    ensures AtMostOnePolytope(sets + [s]) && s.Polytope? ==> forall i | 0 <= i < |sets| :: !sets[i].Polytope?
  {
    var sets' := sets + [s];
    assert sets'[|sets|] == s && forall i | 0 <= i < |sets| :: sets'[i] == sets[i];
  }

  lemma GatheredPolytope(keeps: bool, sets: seq<PlaneSet>, merged: Option<(seq<V2>, seq<real>)>, temp: Option<Box>,
                         s: PlaneSet, merged': (seq<V2>, seq<real>))
    requires AllFormed(sets) && Gathered(keeps, sets, merged, temp) && s.Polytope? && WellFormed(s)
    requires Merged(keeps, merged, s, merged')
    ensures AllFormed(sets + [s]) && Gathered(keeps, sets + [s], Some(merged'), temp)
  {
    Shorter(keeps, sets, s);
    InPolytopesNext(sets, s, ORIGIN);
    assert (sets + [s])[|sets|].Polytope?;
    if merged.None? {
      MergedFirst(sets, s);
    } else if keeps {
      MergedNext(sets, merged.value.0, merged.value.1, s);
    }
    if temp.Some? && AllMergeable(keeps, sets + [s]) && AllProper(sets + [s]) {
      BoxKept(temp.value, sets, s);
    }
  }

  lemma GatheredOther(keeps: bool, sets: seq<PlaneSet>, merged: Option<(seq<V2>, seq<real>)>, temp: Option<Box>,
                      s: PlaneSet, box: Box, temp': Box)
    requires AllFormed(sets) && Gathered(keeps, sets, merged, temp) && !s.Polytope? && WellFormed(s)
    requires Proper(s) && Mergeable(keeps, s) ==> Contains(box, s)
    requires temp' == if temp.None? then box else Common(temp.value, box)
    ensures AllFormed(sets + [s]) && Gathered(keeps, sets + [s], merged, Some(temp'))
  {
    Shorter(keeps, sets, s);
    InPolytopesNext(sets, s, ORIGIN);
    assert forall i | 0 <= i < |sets| :: (sets + [s])[i] == sets[i];
    if merged.Some? && (keeps || AtMostOnePolytope(sets + [s])) {
      MergedKept(sets, merged.value.0, merged.value.1, s);
    }
    if AllMergeable(keeps, sets + [s]) && AllProper(sets + [s]) {
      BoxNext(sets, temp, s, box, temp');
    }
  }

  // What the boxes are

  /** The box is tight around the points of s: it contains them, and each side touches one. */
  ghost predicate Tight(box: Box, s: PlaneSet)
    requires WellFormed(s)
  {
    Contains(box, s) && Touches(box, s)
  }

  /** A ball of negative radius gets its box with the corners exchanged. */
  function Exchanged(box: Box): Box {
    Box(box.max, box.min)
  }

  lemma ExchangedTight(c: V2, r: real)
    requires r < 0.0
    ensures Tight(Exchanged(DiskBox(c, r)), Disk(c, r))
  {
    var box, s := DiskBox(c, -r), -r;
    assert box == Exchanged(DiskBox(c, r)) && s * s == r * r;
    forall p: V2 ensures Member(Disk(c, r), p) <==> Member(Disk(c, s), p) {
    }
    DiskTouches(c, s);
    DiskExact(c, s);
    assert Touches(box, Disk(c, r));
  }

  /** One box lies within the other, side by side. */
  predicate Within(inner: Box, outer: Box) {
    && outer.min.x <= inner.min.x && inner.max.x <= outer.max.x
    && outer.min.y <= inner.min.y && inner.max.y <= outer.max.y
  }

  /** The box is the innermost of the boxes of the sets that are no polytopes: it lies within each of them, and each of
      its sides is a side of one. */
  ghost predicate Innermost(sets: seq<PlaneSet>, boxes: seq<Box>, box: Box)
    requires |boxes| == |sets|
  {
    && (forall i | 0 <= i < |sets| && !sets[i].Polytope? :: Within(box, boxes[i]))
    && (exists i :: 0 <= i < |sets| && !sets[i].Polytope? && boxes[i].min.x == box.min.x)
    && (exists i :: 0 <= i < |sets| && !sets[i].Polytope? && boxes[i].max.x == box.max.x)
    && (exists i :: 0 <= i < |sets| && !sets[i].Polytope? && boxes[i].min.y == box.min.y)
    && (exists i :: 0 <= i < |sets| && !sets[i].Polytope? && boxes[i].max.y == box.max.y)
  }

  predicate NoPolytope(sets: seq<PlaneSet>) {
    forall i | 0 <= i < |sets| :: !sets[i].Polytope?
  }

  predicate OnlyPolytopes(sets: seq<PlaneSet>) {
    forall i | 0 <= i < |sets| :: sets[i].Polytope?
  }

  /** p satisfies all polytopes and lies in the boxes of the other sets. */
  ghost predicate InPolytopesAndBoxes(sets: seq<PlaneSet>, boxes: seq<Box>, p: V2)
    requires AllFormed(sets) && |boxes| == |sets|
  {
    InPolytopes(sets, p) && forall i | 0 <= i < |sets| && !sets[i].Polytope? :: InBox(boxes[i], p)
  }

  /** The box is tight around the points in the polytopes and the boxes of the other sets. */
  ghost predicate TightAround(sets: seq<PlaneSet>, boxes: seq<Box>, box: Box)
    requires AllFormed(sets) && |boxes| == |sets|
  {
    && (forall p: V2 | InPolytopesAndBoxes(sets, boxes, p) :: InBox(box, p))
    && (exists p: V2 :: InPolytopesAndBoxes(sets, boxes, p) && p.x == box.min.x)
    && (exists p: V2 :: InPolytopesAndBoxes(sets, boxes, p) && p.x == box.max.x)
    && (exists p: V2 :: InPolytopesAndBoxes(sets, boxes, p) && p.y == box.min.y)
    && (exists p: V2 :: InPolytopesAndBoxes(sets, boxes, p) && p.y == box.max.y)
  }

  /** The box that a set is to get; where polytopes have got lost, any. */
  ghost predicate IsHull(keeps: bool, s: PlaneSet, box: Box)
    requires WellFormed(s)
    decreases s
  {
    match s
    case Meet(sets) =>
      (keeps || AtMostOnePolytope(sets)) ==>
        exists boxes: seq<Box> :: AreHulls(keeps, sets, boxes) && sets != [] &&
          if NoPolytope(sets) then Innermost(sets, boxes, box) else TightAround(sets, boxes, box)
    case Unsupported => false
    case _ => Tight(if Proper(s) then box else Exchanged(box), s)
  }

  ghost predicate AreHulls(keeps: bool, sets: seq<PlaneSet>, boxes: seq<Box>)
    requires AllFormed(sets)
    decreases sets
  {
    |boxes| == |sets| && forall i | 0 <= i < |sets| && !sets[i].Polytope? :: IsHull(keeps, sets[i], boxes[i])
  }

  lemma HullsNext(keeps: bool, sets: seq<PlaneSet>, boxes: seq<Box>, s: PlaneSet, box: Box)
    requires AllFormed(sets) && WellFormed(s) && AreHulls(keeps, sets, boxes)
    requires !s.Polytope? ==> IsHull(keeps, s, box)
    ensures AllFormed(sets + [s]) && AreHulls(keeps, sets + [s], boxes + [box])
  {
    var sets', boxes' := sets + [s], boxes + [box];
    assert AllFormed(sets') by {
      InPolytopesNext(sets, s, ORIGIN);
    }
    forall i | 0 <= i < |sets'| && !sets'[i].Polytope? ensures IsHull(keeps, sets'[i], boxes'[i]) {
      if i < |sets| {
        assert sets'[i] == sets[i] && boxes'[i] == boxes[i];
      }
    }
  }

  /** What the loop has made of the boxes of the sets so far. */
  ghost predicate Narrowed(sets: seq<PlaneSet>, boxes: seq<Box>, temp: Option<Box>) {
    |boxes| == |sets| && if temp.Some? then Innermost(sets, boxes, temp.value) else OnlyPolytopes(sets)
  }

  lemma NarrowedPolytope(sets: seq<PlaneSet>, boxes: seq<Box>, temp: Option<Box>, s: PlaneSet, box: Box)
    requires Narrowed(sets, boxes, temp) && s.Polytope?
    ensures Narrowed(sets + [s], boxes + [box], temp)
  {
    if temp.Some? {
      InnermostKept(sets, boxes, temp.value, s, box);
    }
  }

  lemma InnermostKept(sets: seq<PlaneSet>, boxes: seq<Box>, temp: Box, s: PlaneSet, box: Box)
    requires |boxes| == |sets| && Innermost(sets, boxes, temp) && s.Polytope?
    ensures Innermost(sets + [s], boxes + [box], temp)
  {
    var sets', boxes' := sets + [s], boxes + [box];
    assert forall i | 0 <= i < |sets| :: sets'[i] == sets[i] && boxes'[i] == boxes[i];
  }

  lemma NarrowedOther(sets: seq<PlaneSet>, boxes: seq<Box>, temp: Option<Box>, s: PlaneSet, box: Box, temp': Box)
    requires Narrowed(sets, boxes, temp) && !s.Polytope?
    requires temp' == if temp.None? then box else Common(temp.value, box)
    ensures Narrowed(sets + [s], boxes + [box], Some(temp'))
  {
    var sets', boxes', n := sets + [s], boxes + [box], |sets|;
    assert forall i | 0 <= i < n :: sets'[i] == sets[i] && boxes'[i] == boxes[i];
    assert sets'[n] == s && boxes'[n] == box;
    if temp.Some? {
      InnermostNext(sets, boxes, temp.value, s, box);
    }
  }

  lemma InnermostNext(sets: seq<PlaneSet>, boxes: seq<Box>, temp: Box, s: PlaneSet, box: Box)
    requires |boxes| == |sets| && Innermost(sets, boxes, temp) && !s.Polytope?
    ensures Innermost(sets + [s], boxes + [box], Common(temp, box))
  {
    var sets', boxes', n, c := sets + [s], boxes + [box], |sets|, Common(temp, box);
    assert forall i | 0 <= i < n :: sets'[i] == sets[i] && boxes'[i] == boxes[i];
    assert sets'[n] == s && boxes'[n] == box;
    forall i | 0 <= i < |sets'| && !sets'[i].Polytope? ensures Within(c, boxes'[i]) {
      if i < n {
        assert Within(temp, boxes[i]);
      }
    }
    var a :| 0 <= a < n && !sets[a].Polytope? && boxes[a].min.x == temp.min.x;
    var b :| 0 <= b < n && !sets[b].Polytope? && boxes[b].max.x == temp.max.x;
    var d :| 0 <= d < n && !sets[d].Polytope? && boxes[d].min.y == temp.min.y;
    var e :| 0 <= e < n && !sets[e].Polytope? && boxes[e].max.y == temp.max.y;
    assert boxes'[a].min.x == c.min.x || boxes'[n].min.x == c.min.x;
    assert boxes'[b].max.x == c.max.x || boxes'[n].max.x == c.max.x;
    assert boxes'[d].min.y == c.min.y || boxes'[n].min.y == c.min.y;
    assert boxes'[e].max.y == c.max.y || boxes'[n].max.y == c.max.y;
  }

  /** The innermost box has just the points that all boxes have. */
  lemma InnermostPoints(sets: seq<PlaneSet>, boxes: seq<Box>, box: Box, p: V2)
    requires |boxes| == |sets| && Innermost(sets, boxes, box)
    ensures InBox(box, p) <==> forall i | 0 <= i < |sets| && !sets[i].Polytope? :: InBox(boxes[i], p)
  {
    if forall i | 0 <= i < |sets| && !sets[i].Polytope? :: InBox(boxes[i], p) {
      var a :| 0 <= a < |sets| && !sets[a].Polytope? && boxes[a].min.x == box.min.x;
      var b :| 0 <= b < |sets| && !sets[b].Polytope? && boxes[b].max.x == box.max.x;
      var d :| 0 <= d < |sets| && !sets[d].Polytope? && boxes[d].min.y == box.min.y;
      var e :| 0 <= e < |sets| && !sets[e].Polytope? && boxes[e].max.y == box.max.y;
      assert InBox(boxes[a], p) && InBox(boxes[b], p) && InBox(boxes[d], p) && InBox(boxes[e], p);
    }
    if InBox(box, p) {
      forall i | 0 <= i < |sets| && !sets[i].Polytope? ensures InBox(boxes[i], p) {
        assert Within(box, boxes[i]);
      }
    }
  }

  /** The points of the final constraint system. */
  lemma FinalPoints(sets: seq<PlaneSet>, rows: seq<V2>, bounds: seq<real>, boxes: seq<Box>, temp: Option<Box>, p: V2)
    requires AllFormed(sets) && IsMerged(sets, rows, bounds) && Narrowed(sets, boxes, temp)
    ensures var m := FinalSystem(rows, bounds, temp); InPolygon(m.0, m.1, p) <==> InPolytopesAndBoxes(sets, boxes, p)
  {
    if temp.Some? {
      PolygonConcat(rows, bounds, BoxRows(), BoxBounds(temp.value), p);
      BoxIsPolygon(temp.value, p);
      InnermostPoints(sets, boxes, temp.value, p);
    }
  }

  lemma FinalTight(sets: seq<PlaneSet>, rows: seq<V2>, bounds: seq<real>, boxes: seq<Box>, temp: Option<Box>, box: Box)
    requires AllFormed(sets) && IsMerged(sets, rows, bounds) && Narrowed(sets, boxes, temp)
    requires var m := FinalSystem(rows, bounds, temp); IsTight(m.0, m.1, box)
    ensures TightAround(sets, boxes, box)
  {
    var m := FinalSystem(rows, bounds, temp);
    forall p: V2 ensures InPolygon(m.0, m.1, p) <==> InPolytopesAndBoxes(sets, boxes, p) {
      FinalPoints(sets, rows, bounds, boxes, temp, p);
    }
    var left: V2 :| InPolygon(m.0, m.1, left) && left.x == box.min.x;
    var right: V2 :| InPolygon(m.0, m.1, right) && right.x == box.max.x;
    var bottom: V2 :| InPolygon(m.0, m.1, bottom) && bottom.y == box.min.y;
    var top: V2 :| InPolygon(m.0, m.1, top) && top.y == box.max.y;
  }

  /** When a box must be found: not for the intersection of nothing, and with polytopes if there is a common point and
      something bounds it, and no polytope got lost. */
  ghost predicate Findable(keeps: bool, s: PlaneSet)
    requires WellFormed(s)
    decreases s
  {
    match s
    case Unsupported => false
    case Polytope(rows, bounds) =>
      exists p: V2, bound: real :: InPolygon(rows, bounds, p) && PolygonWithin(rows, bounds, bound)
    case Meet(sets) =>
      && sets != [] && (forall i | 0 <= i < |sets| && !sets[i].Polytope? :: Findable(keeps, sets[i]))
      && (!NoPolytope(sets) ==>
            Proper(s) && Mergeable(keeps, s) && (exists p: V2 :: Member(s, p)) &&
            (OnlyPolytopes(sets) ==> exists bound: real :: PolytopesWithin(sets, bound)))
    case _ => true
  }

  ghost predicate PolytopesWithin(sets: seq<PlaneSet>, bound: real)
    requires AllFormed(sets)
  {
    forall p: V2 | InPolytopes(sets, p) :: -bound <= p.x <= bound && -bound <= p.y <= bound
  }

  lemma BoxWithin(rows: seq<V2>, bounds: seq<real>, b: Box) returns (bound: real)
    requires |rows| == |bounds|
    ensures var m := FinalSystem(rows, bounds, Some(b)); PolygonWithin(m.0, m.1, bound)
  {
    bound := Abs(b.min.x) + Abs(b.max.x) + Abs(b.min.y) + Abs(b.max.y);
    var m := FinalSystem(rows, bounds, Some(b));
    forall p: V2 | InPolygon(m.0, m.1, p) ensures -bound <= p.x <= bound && -bound <= p.y <= bound {
      PolygonConcat(rows, bounds, BoxRows(), BoxBounds(b), p);
      BoxIsPolygon(b, p);
    }
  }

  /** With a common point, and something that bounds it, the final system has a box. */
  lemma FinalFindable(keeps: bool, sets: seq<PlaneSet>, rows: seq<V2>, bounds: seq<real>, temp: Option<Box>)
    returns (p: V2, bound: real)
    requires AllFormed(sets) && Gathered(keeps, sets, Some((rows, bounds)), temp) && Findable(keeps, Meet(sets))
    requires temp.None? ==> OnlyPolytopes(sets)
    ensures var m := FinalSystem(rows, bounds, temp); InPolygon(m.0, m.1, p) && PolygonWithin(m.0, m.1, bound)
  {
    var i :| 0 <= i < |sets| && sets[i].Polytope?;
    p :| Member(Meet(sets), p);
    FinalConstraints(keeps, sets, rows, bounds, temp, p);
    if temp.Some? {
      bound := BoxWithin(rows, bounds, temp.value);
    } else {
      bound :| PolytopesWithin(sets, bound);
      forall q: V2 | InPolygon(rows, bounds, q) ensures -bound <= q.x <= bound && -bound <= q.y <= bound {
        FinalConstraints(keeps, sets, rows, bounds, temp, q);
      }
    }
  }

  /** rectHull: the box contains the set, unless polytopes have got lost; that of a set without intersections also
      touches it on every side. The code does not keep the contents of a matrix that is resized. */
  method HullOf(keeps: bool, s: PlaneSet) returns (r: HullResult)
    requires WellFormed(s)
    ensures r.Boxed? && Proper(s) && Mergeable(keeps, s) ==> Contains(r.box, s) && (!s.Meet? ==> Touches(r.box, s))
    ensures r.Boxed? ==> IsHull(keeps, s, r.box)
    ensures Findable(keeps, s) ==> r.Boxed?
    ensures s.Unsupported? <==> r.WrongSet? && !s.Meet?
    ensures s.Polytope? ==> forall p: V2, bound: real ::
      Member(s, p) && PolygonWithin(s.rows, s.bounds, bound) ==> r.Boxed?
    decreases s, 1
  {
    match s {
      case Point(p) =>
        r := Boxed(Box(p, p));
        assert Member(s, p);
      case Disk(c, radius) =>
        r := Boxed(DiskBox(c, radius));
        DiskExact(c, radius);
        if radius >= 0.0 {
          DiskTouches(c, radius);
        } else {
          ExchangedTight(c, radius);
        }
      case Rect(a, b) =>
        r := Boxed(Box(V2(Min(a.x, b.x), Min(a.y, b.y)), V2(Max(a.x, b.x), Max(a.y, b.y))));
        RectTouches(a, b, r.box);
      case Polytope(rows, bounds) =>
        r := PolytopeHull(rows, bounds);
      case Meet(sets) =>
        r := MeetHull(keeps, sets);
      case Unsupported =>
        r := WrongSet;
    }
  }

  method PolytopeHull(rows: seq<V2>, bounds: seq<real>) returns (r: HullResult)
    requires |rows| == |bounds| >= 1
    ensures r.Boxed? || r.LpFailed?
    ensures r.Boxed? ==> IsTight(rows, bounds, r.box)
    ensures r.Boxed? ==> Contains(r.box, Polytope(rows, bounds)) && Touches(r.box, Polytope(rows, bounds))
    ensures forall p: V2, bound: real :: InPolygon(rows, bounds, p) && PolygonWithin(rows, bounds, bound) ==> r.Boxed?
  {
    var h := ComputeAABB(rows, bounds);
    match h {
      case NoHull(error) =>
        return LpFailed(error);
      case Hull(box) =>
        TightTouches(rows, bounds, box);
        return Boxed(box);
    }
  }

  lemma TightTouches(rows: seq<V2>, bounds: seq<real>, box: Box)
    requires |rows| == |bounds| >= 1 && IsTight(rows, bounds, box)
    ensures Contains(box, Polytope(rows, bounds)) && Touches(box, Polytope(rows, bounds))
  {
    var s := Polytope(rows, bounds);
    var left: V2 :| InPolygon(rows, bounds, left) && left.x == box.min.x;
    var right: V2 :| InPolygon(rows, bounds, right) && right.x == box.max.x;
    var bottom: V2 :| InPolygon(rows, bounds, bottom) && bottom.y == box.min.y;
    var top: V2 :| InPolygon(rows, bounds, top) && top.y == box.max.y;
    assert Member(s, left) && Member(s, right) && Member(s, bottom) && Member(s, top);
  }

  /** A matrix and a vector of n rows, with any contents. */
  method Resized(n: nat) returns (rows: seq<V2>, bounds: seq<real>)
    ensures |rows| == |bounds| == n
  {
    rows, bounds := [], [];
    for i := 0 to n
      invariant |rows| == |bounds| == i
    {
      var row: V2, bound: real := *, *;
      rows, bounds := rows + [row], bounds + [bound];
    }
  }

  method MergePolytope(keeps: bool, merged: Option<(seq<V2>, seq<real>)>, s: PlaneSet)
    returns (merged': (seq<V2>, seq<real>))
    requires s.Polytope? && WellFormed(s) && (merged.Some? ==> |merged.value.0| == |merged.value.1|)
    ensures Merged(keeps, merged, s, merged')
  {
    if merged.None? {
      return (s.rows, s.bounds);
    }
    if keeps {
      return (merged.value.0 + s.rows, merged.value.1 + s.bounds);
    }
    var rows, bounds := Resized(|merged.value.0| + |s.rows|);
    return (rows, bounds);
  }

  method MeetHull(keeps: bool, sets: seq<PlaneSet>) returns (r: HullResult)
    requires AllFormed(sets)
    ensures r.Boxed? && Proper(Meet(sets)) && Mergeable(keeps, Meet(sets)) ==> Contains(r.box, Meet(sets))
    ensures r.Boxed? ==> IsHull(keeps, Meet(sets), r.box)
    ensures Findable(keeps, Meet(sets)) ==> r.Boxed?
    ensures sets == [] ==> r.NoSets?
    decreases sets, 0
  {
    var merged: Option<(seq<V2>, seq<real>)> := None;
    var temp: Option<Box> := None;
    ghost var boxes: seq<Box> := [];
    for i := 0 to |sets|
      invariant Gathered(keeps, sets[..i], merged, temp)
      invariant AreHulls(keeps, sets[..i], boxes) && Narrowed(sets[..i], boxes, temp)
    {
      var s := sets[i];
      assert sets[..i + 1] == sets[..i] + [s];
      assert AllFormed(sets[..i]);
      if s.Polytope? {
        var merged' := MergePolytope(keeps, merged, s);
        GatheredPolytope(keeps, sets[..i], merged, temp, s, merged');
        merged := Some(merged');
        ghost var none := Box(ORIGIN, ORIGIN);
        HullsNext(keeps, sets[..i], boxes, s, none);
        NarrowedPolytope(sets[..i], boxes, temp, s, none);
        boxes := boxes + [none];
      } else {
        var h := HullOf(keeps, s);
        if !h.Boxed? {
          return h;
        }
        ghost var before := temp;
        temp := Some(if temp.None? then h.box else Common(temp.value, h.box));
        GatheredOther(keeps, sets[..i], merged, before, s, h.box, temp.value);
        HullsNext(keeps, sets[..i], boxes, s, h.box);
        NarrowedOther(sets[..i], boxes, before, s, h.box, temp.value);
        boxes := boxes + [h.box];
      }
    }
    assert sets[..|sets|] == sets;
    r := MergedHull(keeps, sets, merged, temp, boxes);
  }

  /** The box of what has been gathered from the whole list. */
  method MergedHull(keeps: bool, ghost sets: seq<PlaneSet>, merged: Option<(seq<V2>, seq<real>)>, temp: Option<Box>,
                    ghost boxes: seq<Box>)
    returns (r: HullResult)
    requires AllFormed(sets) && Gathered(keeps, sets, merged, temp)
    requires AreHulls(keeps, sets, boxes) && Narrowed(sets, boxes, temp)
    ensures r.Boxed? && Proper(Meet(sets)) && Mergeable(keeps, Meet(sets)) ==> Contains(r.box, Meet(sets))
    ensures r.Boxed? ==> IsHull(keeps, Meet(sets), r.box)
    ensures Findable(keeps, Meet(sets)) ==> r.Boxed?
    ensures sets == [] ==> r.NoSets?
    ensures merged.Some? && r.Boxed? ==>
            var m := FinalSystem(merged.value.0, merged.value.1, temp); IsTight(m.0, m.1, r.box)
  {
    if merged.None? {
      if temp.None? {
        if sets != [] {
          HasPolytope(sets);
        }
        return NoSets;
      }
      if Proper(Meet(sets)) && Mergeable(keeps, Meet(sets)) {
        NoPolytopes(keeps, sets, temp.value);
      }
      BoxesOnly(keeps, sets, boxes, temp.value);
      return Boxed(temp.value);
    }
    var m := FinalSystem(merged.value.0, merged.value.1, temp);
    r := PolytopeHull(m.0, m.1);
    if r.Boxed? && Proper(Meet(sets)) && Mergeable(keeps, Meet(sets)) {
      forall p: V2 | Member(Meet(sets), p) ensures InBox(r.box, p) {
        FinalConstraints(keeps, sets, merged.value.0, merged.value.1, temp, p);
        assert InPolygon(m.0, m.1, p);
      }
    }
    if r.Boxed? {
      MergedIsHull(keeps, sets, merged.value.0, merged.value.1, boxes, temp, r.box);
    }
    if Findable(keeps, Meet(sets)) {
      var p, bound := FinalFindable(keeps, sets, merged.value.0, merged.value.1, temp);
      assert r.Boxed?;
    }
  }

  lemma HasPolytope(sets: seq<PlaneSet>)
    requires OnlyPolytopes(sets) && sets != []
    ensures !NoPolytope(sets)
  {
    assert sets[0].Polytope?;
  }

  lemma BoxesOnly(keeps: bool, sets: seq<PlaneSet>, boxes: seq<Box>, box: Box)
    requires AllFormed(sets) && AreHulls(keeps, sets, boxes) && NoPolytope(sets) && Innermost(sets, boxes, box)
    ensures IsHull(keeps, Meet(sets), box)
  {
  }

  lemma MergedIsHull(keeps: bool, sets: seq<PlaneSet>, rows: seq<V2>, bounds: seq<real>, boxes: seq<Box>,
                     temp: Option<Box>, box: Box)
    requires AllFormed(sets) && Gathered(keeps, sets, Some((rows, bounds)), temp)
    requires AreHulls(keeps, sets, boxes) && Narrowed(sets, boxes, temp)
    requires var m := FinalSystem(rows, bounds, temp); IsTight(m.0, m.1, box)
    ensures IsHull(keeps, Meet(sets), box)
  {
    var i :| 0 <= i < |sets| && sets[i].Polytope?;
    if keeps || AtMostOnePolytope(sets) {
      FinalTight(sets, rows, bounds, boxes, temp, box);
      assert !NoPolytope(sets);
    }
  }

  /** The merged constraints, and those of the box of the other sets. */
  function FinalSystem(rows: seq<V2>, bounds: seq<real>, temp: Option<Box>): (m: (seq<V2>, seq<real>))
    ensures |rows| == |bounds| ==> |m.0| == |m.1| >= |rows|
  {
    if temp.None? then (rows, bounds) else (rows + BoxRows(), bounds + BoxBounds(temp.value))
  }

  lemma NoPolytopes(keeps: bool, sets: seq<PlaneSet>, box: Box)
    requires AllFormed(sets) && Gathered(keeps, sets, None, Some(box))
    requires Proper(Meet(sets)) && Mergeable(keeps, Meet(sets))
    ensures Contains(box, Meet(sets))
  {
    forall p: V2 | Member(Meet(sets), p) ensures InBox(box, p) {
      assert InOthers(sets, p);
    }
  }

  /** The final constraint system holds exactly in the polytopes and the box of the other sets, and so in every
      common point. */
  lemma FinalConstraints(keeps: bool, sets: seq<PlaneSet>, rows: seq<V2>, bounds: seq<real>, temp: Option<Box>, p: V2)
    requires AllFormed(sets) && Gathered(keeps, sets, Some((rows, bounds)), temp) && Mergeable(keeps, Meet(sets))
    ensures var m := FinalSystem(rows, bounds, temp);
      InPolygon(m.0, m.1, p) <==> InPolytopes(sets, p) && (temp.Some? ==> InBox(temp.value, p))
    ensures Proper(Meet(sets)) && Member(Meet(sets), p) ==>
            InPolytopes(sets, p) && (temp.Some? ==> InBox(temp.value, p))
  {
    assert InPolygon(rows, bounds, p) <==> InPolytopes(sets, p);
    if temp.Some? {
      PolygonConcat(rows, bounds, BoxRows(), BoxBounds(temp.value), p);
      BoxIsPolygon(temp.value, p);
    }
    if Proper(Meet(sets)) && Member(Meet(sets), p) {
      assert InOthers(sets, p);
    }
  }

  // Two polytopes: which contents of the matrix make the box miss a common point

  /** The box is the solver's answer for n merged rows with these contents, and misses p. */
  ghost predicate Misses(n: nat, rows: seq<V2>, bounds: seq<real>, temp: Option<Box>, box: Box, p: V2) {
    && |rows| == |bounds| == n
    && (var m := FinalSystem(rows, bounds, temp); IsTight(m.0, m.1, box))
    && !InBox(box, p)
  }

  /** A polygon that is a box is tight in that box. */
  lemma BoxTight(rows: seq<V2>, bounds: seq<real>, box: Box)
    requires |rows| == |bounds| && forall q: V2 :: InPolygon(rows, bounds, q) <==> InBox(box, q)
    requires box.min.x <= box.max.x && box.min.y <= box.max.y
    ensures IsTight(rows, bounds, box)
  {
    assert InPolygon(rows, bounds, box.min) && InPolygon(rows, bounds, box.max);
  }

  lemma SameRows(n: nat, row: V2, bound: real, q: V2)
    requires n > 0
    ensures InPolygon(seq(n, i => row), seq(n, i => bound), q) <==> Dot2(row, q) <= bound
  {
    var rows, bounds := seq(n, i => row), seq(n, i => bound);
    if InPolygon(rows, bounds, q) {
      assert Dot2(rows[0], q) <= bounds[0];
    }
  }

  /** One constraint, n times over, leaves a side of the box. */
  lemma SideLeft(n: nat, b: Box, row: V2, bound: real, side: Box, p: V2)
    requires n > 0 && side.min.x <= side.max.x && side.min.y <= side.max.y && !InBox(side, p)
    requires forall q: V2 :: InBox(side, q) <==> InBox(b, q) && Dot2(row, q) <= bound
    ensures Misses(n, seq(n, i => row), seq(n, i => bound), Some(b), side, p)
  {
    var rows, bounds := seq(n, i => row), seq(n, i => bound);
    var m := FinalSystem(rows, bounds, Some(b));
    forall q: V2 ensures InPolygon(m.0, m.1, q) <==> InBox(side, q) {
      SameRows(n, row, bound, q);
      PolygonConcat(rows, bounds, BoxRows(), BoxBounds(b), q);
      BoxIsPolygon(b, q);
    }
    BoxTight(m.0, m.1, side);
  }

  /** Beside other sets, whose box is more than a point: the side on which p does not lie. */
  lemma BoxedMiss(n: nat, b: Box, p: V2) returns (rows: seq<V2>, bounds: seq<real>, box: Box)
    requires n > 0 && InBox(b, p) && b.min != b.max
    ensures Misses(n, rows, bounds, Some(b), box, p)
  {
    var row: V2, bound: real;
    if p.x > b.min.x {
      row, bound, box := V2(1.0, 0.0), b.min.x, Box(b.min, V2(b.min.x, b.max.y));
    } else if b.min.x < b.max.x {
      row, bound, box := V2(-1.0, 0.0), -b.max.x, Box(V2(b.max.x, b.min.y), b.max);
    } else if p.y > b.min.y {
      row, bound, box := V2(0.0, 1.0), b.min.y, Box(b.min, V2(b.max.x, b.min.y));
    } else {
      row, bound, box := V2(0.0, -1.0), -b.max.y, Box(V2(b.min.x, b.max.y), b.max);
    }
    forall q: V2 ensures InBox(box, q) <==> InBox(b, q) && Dot2(row, q) <= bound {
      Axes(q);
    }
    SideLeft(n, b, row, bound, box, p);
    rows, bounds := seq(n, i => row), seq(n, i => bound);
  }

  /** A box that is a point has to be contained in every answer. */
  lemma PointBoxMet(rows: seq<V2>, bounds: seq<real>, b: Box, box: Box, p: V2)
    requires |rows| == |bounds| && InBox(b, p) && b.min == b.max
    requires var m := FinalSystem(rows, bounds, Some(b)); IsTight(m.0, m.1, box)
    ensures InBox(box, p)
  {
    var m := FinalSystem(rows, bounds, Some(b));
    var left: V2 :| InPolygon(m.0, m.1, left) && left.x == box.min.x;
    PolygonConcat(rows, bounds, BoxRows(), BoxBounds(b), left);
    BoxIsPolygon(b, left);
    assert left == p;
  }

  /** The triangle with the corners (1, -1), (1, 1) and (2, 0), seen from p. */
  function Triangle(n: nat, p: V2): (m: (seq<V2>, seq<real>))
    requires n >= 3
    ensures |m.0| == |m.1| == n
  {
    (seq(n, i => if i == 0 then V2(-1.0, 0.0) else if i == 1 then V2(1.0, 1.0) else V2(1.0, -1.0)),
     seq(n, i => if i == 0 then -p.x - 1.0 else if i == 1 then p.x + p.y + 2.0 else p.x - p.y + 2.0))
  }

  lemma InTriangle(n: nat, p: V2, q: V2)
    requires n >= 3
    ensures InPolygon(Triangle(n, p).0, Triangle(n, p).1, q) <==>
            q.x >= p.x + 1.0 && q.x + q.y <= p.x + p.y + 2.0 && q.x - q.y <= p.x - p.y + 2.0
  {
    var rows, bounds := Triangle(n, p).0, Triangle(n, p).1;
    assert Dot2(rows[0], q) == -q.x && Dot2(rows[1], q) == q.x + q.y && Dot2(rows[2], q) == q.x - q.y;
    if InPolygon(rows, bounds, q) {
      assert Dot2(rows[0], q) <= bounds[0] && Dot2(rows[1], q) <= bounds[1] && Dot2(rows[2], q) <= bounds[2];
    }
  }

  /** Without other sets, three rows are enough to miss p ... */
  lemma TriangleMisses(n: nat, p: V2)
    requires n >= 3
    ensures Misses(n, Triangle(n, p).0, Triangle(n, p).1, None,
                   Box(V2(p.x + 1.0, p.y - 1.0), V2(p.x + 2.0, p.y + 1.0)), p)
  {
    var rows, bounds := Triangle(n, p).0, Triangle(n, p).1;
    forall q: V2 ensures InPolygon(rows, bounds, q) <==>
      q.x >= p.x + 1.0 && q.x + q.y <= p.x + p.y + 2.0 && q.x - q.y <= p.x - p.y + 2.0
    {
      InTriangle(n, p, q);
    }
    assert InPolygon(rows, bounds, V2(p.x + 1.0, p.y - 1.0)) && InPolygon(rows, bounds, V2(p.x + 1.0, p.y + 1.0));
    assert InPolygon(rows, bounds, V2(p.x + 2.0, p.y));
  }

  /** A direction in which two half-planes never end. */
  lemma NeverEnding(rows: seq<V2>) returns (u: V2)
    requires |rows| == 2
    ensures u != ORIGIN && Dot2(rows[0], u) <= 0.0 && Dot2(rows[1], u) <= 0.0
  {
    var r, s := rows[0], rows[1];
    if r == ORIGIN && s == ORIGIN {
      u := V2(1.0, 0.0);
    } else {
      var a, b := if r == ORIGIN then s else r, if r == ORIGIN then r else s;
      u := Clockwise(a);
      assert Dot2(a, u) == 0.0;
      if Dot2(b, u) > 0.0 {
        assert Dot2(b, Minus(u)) == -Dot2(b, u) && Dot2(a, Minus(u)) == -Dot2(a, u);
        u := Minus(u);
      }
    }
  }

  lemma Farther(row: V2, bound: real, p: V2, t: real, u: V2)
    requires Dot2(row, p) <= bound && t >= 0.0 && Dot2(row, u) <= 0.0
    ensures Dot2(row, Along(p, t, u)) <= bound
  {
    NonNegativeProduct(t, -Dot2(row, u), t * -Dot2(row, u));
    assert Dot2(row, Along(p, t, u)) == Dot2(row, p) - t * -Dot2(row, u);
  }

  /** Every direction leads out of a box. */
  lemma LeavesBox(box: Box, p: V2, u: V2) returns (t: real)
    requires InBox(box, p) && u != ORIGIN
    ensures t >= 0.0 && !InBox(box, Along(p, t, u))
  {
    var s;
    if u.x != 0.0 {
      t, s := FarAlong(u.x, box.max.x - box.min.x);
      assert Along(p, t, u).x == p.x + s;
    } else {
      assert u.y != 0.0;
      t, s := FarAlong(u.y, box.max.y - box.min.y);
      assert Along(p, t, u).y == p.y + s;
    }
  }

  /** ... and two are not: no box contains what they leave. */
  lemma TwoRowsUnbounded(rows: seq<V2>, bounds: seq<real>, box: Box)
    requires |rows| == |bounds| == 2
    ensures !IsTight(rows, bounds, box)
  {
    if IsTight(rows, bounds, box) {
      var p: V2 :| InPolygon(rows, bounds, p) && p.x == box.min.x;
      var u := NeverEnding(rows);
      assert InBox(box, p);
      var t := LeavesBox(box, p, u);
      Farther(rows[0], bounds[0], p, t, u);
      Farther(rows[1], bounds[1], p, t, u);
      assert InPolygon(rows, bounds, Along(p, t, u));
    }
  }

  /** What two polytopes can leave in the matrix, and an answer for it that misses the common point p. */
  ghost predicate Lost(sets: seq<PlaneSet>, n: nat, rows: seq<V2>, bounds: seq<real>, temp: Option<Box>, box: Box,
                       p: V2)
    requires AllFormed(sets)
  {
    Gathered(false, sets, Some((rows, bounds)), temp) && Misses(n, rows, bounds, temp, box, p)
  }

  lemma AnyContents(sets: seq<PlaneSet>, n: nat, rows: seq<V2>, bounds: seq<real>, temp: Option<Box>, box: Box, p: V2)
    requires AllFormed(sets) && !AtMostOnePolytope(sets) && n > 0
    requires temp.Some? ==> BoxesOthers(temp.value, sets)
    requires Misses(n, rows, bounds, temp, box, p)
    ensures Lost(sets, n, rows, bounds, temp, box, p)
  {
    var i, j :| 0 <= i < j < |sets| && sets[i].Polytope? && sets[j].Polytope?;
  }

  /** When an intersection lists two polytopes, of n rows together, the contents of the matrix can be such that the box
      returned misses a common point, exactly when the box of the other sets is more than a point, or, without other
      sets, when there are three rows or more. */
  lemma SecondPolytopeExact(sets: seq<PlaneSet>, n: nat, temp: Option<Box>, p: V2)
    requires AllFormed(sets) && !AtMostOnePolytope(sets) && n >= 2 && Member(Meet(sets), p)
    requires temp.Some? ==> BoxesOthers(temp.value, sets)
    ensures (exists rows, bounds, box :: Lost(sets, n, rows, bounds, temp, box, p)) <==>
            if temp.Some? then temp.value.min != temp.value.max else n >= 3
  {
    assert InOthers(sets, p);
    if temp.Some? && temp.value.min != temp.value.max {
      var rows, bounds, box := BoxedMiss(n, temp.value, p);
      AnyContents(sets, n, rows, bounds, temp, box, p);
    }
    if temp.None? && n >= 3 {
      TriangleMisses(n, p);
      AnyContents(sets, n, Triangle(n, p).0, Triangle(n, p).1, temp,
                  Box(V2(p.x + 1.0, p.y - 1.0), V2(p.x + 2.0, p.y + 1.0)), p);
    }
    forall rows, bounds, box | Lost(sets, n, rows, bounds, temp, box, p)
      ensures if temp.Some? then temp.value.min != temp.value.max else n >= 3
    {
      if temp.Some? {
        if temp.value.min == temp.value.max {
          PointBoxMet(rows, bounds, temp.value, box, p);
        }
      } else if n == 2 {
        TwoRowsUnbounded(rows, bounds, box);
      }
    }
  }

  /** Half-planes x <= 1 and y <= 1, and the unit square. */
  function TwoPolytopes(): seq<PlaneSet> {
    [Polytope([V2(1.0, 0.0)], [1.0]), Polytope([V2(0.0, 1.0)], [1.0]), Rect(V2(0.0, 0.0), V2(1.0, 1.0))]
  }

  lemma OnHalfPlane(row: V2, bound: real, p: V2)
    requires row.x * p.x + row.y * p.y <= bound
    ensures Member(Polytope([row], [bound]), p)
  {
    assert Dot2(row, p) == row.x * p.x + row.y * p.y;
  }

  lemma CommonPoint(a: PlaneSet, b: PlaneSet, c: PlaneSet, p: V2)
    requires WellFormed(a) && WellFormed(b) && WellFormed(c) && Member(a, p) && Member(b, p) && Member(c, p)
    ensures AllFormed([a, b, c]) && Member(Meet([a, b, c]), p)
  {
  }

  lemma CornerCommon()
    ensures AllFormed(TwoPolytopes()) && Member(Meet(TwoPolytopes()), V2(1.0, 1.0))
  {
    var corner := V2(1.0, 1.0);
    OnHalfPlane(V2(1.0, 0.0), 1.0, corner);
    OnHalfPlane(V2(0.0, 1.0), 1.0, corner);
    CommonPoint(Polytope([V2(1.0, 0.0)], [1.0]), Polytope([V2(0.0, 1.0)], [1.0]), Rect(V2(0.0, 0.0), corner), corner);
  }

  lemma LeftHalf(p: V2)
    ensures InPolygon([V2(1.0, 0.0), V2(1.0, 0.0)], [0.0, 0.0], p) <==> p.x <= 0.0
  {
    var rows, bounds := [V2(1.0, 0.0), V2(1.0, 0.0)], [0.0, 0.0];
    assert Dot2(rows[0], p) == p.x;
    if InPolygon(rows, bounds, p) {
      assert Dot2(rows[0], p) <= bounds[0];
    }
  }

  /** With the second polytope, the contents of the matrix may turn out as x <= 0, twice: then the box is the left side
      of the square, and misses the corner (1, 1) that all three sets have in common. */
  lemma SecondPolytopeMisses()
    ensures AllFormed(TwoPolytopes()) && Member(Meet(TwoPolytopes()), V2(1.0, 1.0))
    ensures var m := FinalSystem([V2(1.0, 0.0), V2(1.0, 0.0)], [0.0, 0.0], Some(Box(V2(0.0, 0.0), V2(1.0, 1.0))));
      IsTight(m.0, m.1, Box(V2(0.0, 0.0), V2(0.0, 1.0)))
    ensures !InBox(Box(V2(0.0, 0.0), V2(0.0, 1.0)), V2(1.0, 1.0))
  {
    CornerCommon();
    var rows, bounds, square := [V2(1.0, 0.0), V2(1.0, 0.0)], [0.0, 0.0], Box(V2(0.0, 0.0), V2(1.0, 1.0));
    var m := FinalSystem(rows, bounds, Some(square));
    forall p: V2 ensures InPolygon(m.0, m.1, p) <==> p.x == 0.0 && 0.0 <= p.y <= 1.0 {
      PolygonConcat(rows, bounds, BoxRows(), BoxBounds(square), p);
      BoxIsPolygon(square, p);
      LeftHalf(p);
    }
    assert InPolygon(m.0, m.1, V2(0.0, 0.0)) && InPolygon(m.0, m.1, V2(0.0, 1.0));
  }

  /** No references and case distinctions. */
  predicate Supported(s: PlaneSet) {
    match s
    case Unsupported => false
    case Meet(sets) => forall i | 0 <= i < |sets| :: Supported(sets[i])
    case _ => true
  }

  /** testMembership, for evaluated sets; None is the exception. */
  method TestMembership(s: PlaneSet, p: V2) returns (member: Option<bool>)
    requires WellFormed(s)
    ensures member.Some? ==> (member.value <==> Member(s, p))
    ensures Supported(s) ==> member.Some?
    decreases s
  {
    match s {
      case Point(q) =>
        member := Some(p == q);
      case Disk(c, r) =>
        member := Some(InDisk(c, r, p));
      case Rect(a, b) =>
        member := Some(InRect(a, b, p));
      case Polytope(rows, bounds) =>
        for i := 0 to |rows|
          invariant forall k | 0 <= k < i :: Dot2(rows[k], p) <= bounds[k]
        {
          if Dot2(rows[i], p) > bounds[i] {
            return Some(false);
          }
        }
        member := Some(true);
      case Meet(sets) =>
        for i := 0 to |sets|
          invariant forall k | 0 <= k < i :: Member(sets[k], p)
        {
          var one := TestMembership(sets[i], p);
          if one != Some(true) {
            return one;
          }
        }
        member := Some(true);
      case Unsupported =>
        member := None;
    }
  }
}
