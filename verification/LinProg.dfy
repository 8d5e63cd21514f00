/** linprog.c: Seidel's incremental linear program, with the planes in a linked list that the inner
    problems reorder, and with all buffers of the inner problems carved out of one work area. */
module LinProg {
  import opened Vectors
  import opened Elimination
  import opened LinkedOrder
  import opened LpTheory
  import opened Store
  import opened LinProgParts
  import opened BaseCase
  import opened Wedges

  /** The cells that a problem of dimension `d` and all problems below it use. */
  function WorkCells(max: nat, d: nat): nat {
    if d <= 1 then 0 else 3 * d + Cells(max, d) + WorkCells(max, d - 1)
  }

  /** The closed form of the source's comment, exactly. */
  lemma {:induction false} WorkCellsClosedForm(max: nat, d: nat)
    requires d >= 1
    ensures 2 * WorkCells(max, d) == (max + 3) * (d + 2) * (d - 1)
    ensures WorkCells(max, d) == (max + 3) * (d + 2) * (d - 1) / 2
  {
    if d > 1 {
      WorkCellsClosedForm(max, d - 1);
      CellsIsProduct(max, d);
      Associate(max + 3, d + 1, d - 2);
      LevelCells(max, d, (d + 2) * (d - 1), (d + 1) * (d - 2));
    }
    Associate(max + 3, d + 2, d - 1);
  }

  lemma LevelCells(max: int, d: int, t: int, t': int)
    requires t == (d + 2) * (d - 1) && t' == (d + 1) * (d - 2)
    ensures (max + 3) * t == 2 * (3 * d + max * d) + (max + 3) * t'
  {
    assert t == t' + 2 * d;
    assert (max + 3) * (t' + 2 * d) == (max + 3) * t' + (max + 3) * (2 * d);
  }

  lemma Associate(a: int, b: int, c: int)
    ensures a * b * c == a * (b * c)
  {
  }

  /** Where the arguments of dlinprog lie in the store: `max` rows of half-spaces and two vectors to read,
      the optimum and the work area to write. */
  datatype Buffers = Buffers(halves: nat, nVec: nat, dVec: nat, d: nat, w: nat, opt: nat, work: nat, max: nat) {

    ghost predicate Laid(size: nat) {
      var cells := WorkCells(max, d);
      && d >= 1 && w == d + 1
      && halves + Cells(max, w) <= size && nVec + w <= size && dVec + w <= size
        && opt + w <= size && work + cells <= size
        && Apart(opt, w, halves, Cells(max, w)) && Apart(opt, w, nVec, w) && Apart(opt, w, dVec, w)
        && Apart(work, cells, halves, Cells(max, w)) && Apart(work, cells, nVec, w) && Apart(work, cells, dVec, w)
        && Apart(work, cells, opt, w)
    }

    /** Only the optimum and the work area may differ. */
    ghost predicate Kept(s: Vec, s': Vec) {
        && |s| == |s'|
        && forall k | 0 <= k < |s| && !(opt <= k < opt + w) && !(work <= k < work + WorkCells(max, d)) ::
             s'[k] == s[k]
    }

    /** The optimum in place. */
    ghost function Opt(s: Vec): (o: Vec)
      requires opt + w <= |s|
      ensures |o| == w
    {
      Slice(s, opt, w)
    }
  }

  /** What the buffers hold: a linear program. */
  datatype Program = Program(hs: seq<Vec>, n: Vec, den: Vec) {

    ghost predicate StoredAt(s: Vec, b: Buffers) {
        && b.Laid(|s|)
        && hs == Rows(s, b.halves, b.w, b.max)
        && n == Slice(s, b.nVec, b.w) && den == Slice(s, b.dVec, b.w)
    }

    /** The state of a run that has seen the planes `js`: unconstrained at first, then solved. */
    ghost predicate SolvedFor(status: Status, js: set<int>, o: Vec) {
        && |n| == |den| == |o| && |hs| > 0 && |hs[0]| == |o| && status != UNBOUNDED
        && if js == {} then status != INFEASIBLE && !IsZero(o) && Minimal(n, den, o) && Unconstrained(n, den, o)
           else Solved(status, n, den, hs, js, o)
    }
  }

  lemma StaysStored(p: Program, s: Vec, s': Vec, b: Buffers)
    requires p.StoredAt(s, b) && b.Kept(s, s')
    ensures p.StoredAt(s', b)
  {
    var w := b.w;
    forall j | 0 <= j < b.max ensures Row(s', b.halves, w, b.max, j) == Row(s, b.halves, w, b.max, j) {
      RowsApart(j, b.max, w);
    }
  }

  lemma KeptThen(s: Vec, s': Vec, s'': Vec, b: Buffers)
    requires b.Kept(s, s') && b.Kept(s', s'')
    ensures b.Kept(s, s'')
  {
  }

  lemma OtherRowsKept(before: Vec, after: Vec, base: nat, w: nat, max: nat, j: nat, l: nat)
    requires base + Cells(max, w) <= |before| && j < max && l < max && l != j
    requires OnlyWrites(before, after, base + Cells(j, w), base + Cells(j, w) + w)
    ensures Row(after, base, w, max, l) == Row(before, base, w, max, l)
  {
    RowsApart(j, max, w);
    RowsApart(l, max, w);
    if l < j {
      RowsApart(l, j, w);
    } else {
      RowsApart(j, l, w);
    }
  }

  lemma RowWriteInside(before: Vec, after: Vec, base: nat, w: nat, max: nat, j: nat)
    requires base + Cells(max, w) <= |before| && j < max
    requires OnlyWrites(before, after, base + Cells(j, w), base + Cells(j, w) + w)
    ensures OnlyWrites(before, after, base, base + Cells(max, w))
  {
    RowsApart(j, max, w);
  }

  lemma ProjectedNext(hs: seq<Vec>, before: Vec, after: Vec, base: nat, w: nat, max: nat,
                      js: set<int>, j: nat, e: Vec, iv: nat)
    requires base + Cells(max, w) <= |before| && |hs| == max && j < max
    requires OnlyWrites(before, after, base + Cells(j, w), base + Cells(j, w) + w)
    requires Projected(hs, Rows(before, base, w, max), js, e, iv) && |hs[j]| == |e|
    requires Rows(after, base, w, max)[j] == Down(e, iv, hs[j])
    ensures Projected(hs, Rows(after, base, w, max), js + {j}, e, iv)
  {
    forall l | l in js + {j}
      ensures 0 <= l < |hs| && |hs[l]| == |e| && Rows(after, base, w, max)[l] == Down(e, iv, hs[l])
    {
      if l != j {
        assert l in js;
        OtherRowsKept(before, after, base, w, max, j, l);
        assert Rows(before, base, w, max)[l] == Row(before, base, w, max, l);
      }
    }
  }

  lemma RowsInside(s: Vec, base: nat, w: nat, max: nat, j: nat, at: nat)
    requires base + Cells(max, w) <= |s| && j < max && at == base + Cells(j, w)
    ensures base <= at && at + w <= base + Cells(max, w)
    ensures Rows(s, base, w, max)[j] == Slice(s, at, w)
  {
    RowsApart(j, max, w);
  }

  /** The plane with index `i` starts at `plane`, apart from everything that is written. */
  lemma PlaneLaid(s: Vec, b: Buffers, p: Program, i: nat, plane: nat)
    requires p.StoredAt(s, b) && i < b.max && plane == b.halves + Cells(i, b.w)
    ensures plane + b.w <= |s| && p.hs[i] == Slice(s, plane, b.w)
    ensures Apart(plane, b.w, b.opt, b.w)
    ensures Apart(plane, b.w, b.work, WorkCells(b.max, b.d))
  {
    RowsInside(s, b.halves, b.w, b.max, i, plane);
  }

  lemma RowsLieApart(halves: nat, plane: nat, oldPlane: nat, newHalves: nat, newPlane: nat,
                     max: nat, d: nat, w: nat, i: nat, j: nat)
    requires Apart(halves, Cells(max, w), newHalves, Cells(max, d)) && i < max && j < max
    requires plane == halves + Cells(i, w) && oldPlane == halves + Cells(j, w)
    requires newPlane == newHalves + Cells(j, d)
    ensures Apart(plane, w, newPlane, d) && Apart(oldPlane, w, newPlane, d)
    ensures plane + w <= halves + Cells(max, w) && oldPlane + w <= halves + Cells(max, w)
    ensures newPlane + d <= newHalves + Cells(max, d)
  {
    RowsApart(i, max, w);
    RowsApart(j, max, w);
    RowsApart(j, max, d);
  }

  /** One plane of the inner problem: row `j` of the new matrix. */
  method ProjectRow(mem: array<real>, halves: nat, plane: nat, j: nat, imax: nat, d: nat, w: nat,
                    newHalves: nat, max: nat,
                    ghost s: Vec, ghost hs: seq<Vec>, ghost i: nat, ghost js: set<int>)
    requires d >= 1 && imax <= d && w == d + 1 && halves + Cells(max, w) <= |s| && newHalves + Cells(max, d) <= |s|
    requires Apart(halves, Cells(max, w), newHalves, Cells(max, d))
    requires hs == Rows(s, halves, w, max) && i < max && j < max && plane == halves + Cells(i, w)
    requires OnlyWrites(s, mem[..], newHalves, newHalves + Cells(max, d))
    requires Projected(hs, Rows(mem[..], newHalves, d, max), js, hs[i], imax)
    modifies mem
    ensures OnlyWrites(s, mem[..], newHalves, newHalves + Cells(max, d))
    ensures Projected(hs, Rows(mem[..], newHalves, d, max), js + {j}, hs[i], imax)
  {
    ghost var s' := mem[..];
    var oldPlane := RowPointer(halves, j, w);
    var newPlane := RowPointer(newHalves, j, d);
    RowsKept(s, s', newHalves, newHalves + Cells(max, d), halves, w, max);
    RowsInside(s', halves, w, max, i, plane);
    RowsInside(s', halves, w, max, j, oldPlane);
    RowsLieApart(halves, plane, oldPlane, newHalves, newPlane, max, d, w, i, j);
    assert mem[plane + imax] == hs[i][imax];
    PlaneDown(mem, plane, imax, d, w, oldPlane, newPlane);
    RowsInside(mem[..], newHalves, d, max, j, newPlane);
    RowWriteInside(s', mem[..], newHalves, d, max, j);
    ProjectedNext(hs, s', mem[..], newHalves, d, max, js, j, hs[i], imax);
  }

  /** The planes before plane `i` on the list, projected onto plane `i`. There are none before plane 0,
      where the source skips the loop. */
  method ProjectPlanes(mem: array<real>, halves: nat, i: nat, plane: nat, imax: nat, d: nat, w: nat, newHalves: nat,
                       next: array<int>, prev: array<int>, max: nat,
                       ghost hs: seq<Vec>, ghost cur: seq<int>, ghost p: nat)
    requires d >= 1 && imax <= d && w == d + 1
    requires halves + Cells(max, w) <= mem.Length && newHalves + Cells(max, d) <= mem.Length
    requires Apart(halves, Cells(max, w), newHalves, Cells(max, d))
    requires hs == Rows(mem[..], halves, w, max)
    requires Linked(next, prev, cur, max) && p < |cur| && i == cur[p] && plane == halves + Cells(i, w)
    requires hs[i][imax] != 0.0
    modifies mem
    ensures OnlyWrites(old(mem[..]), mem[..], newHalves, newHalves + Cells(max, d))
    ensures Projected(hs, Rows(mem[..], newHalves, d, max), Planes(cur[..p]), hs[i], imax)
  {
    var j := 0;
    ghost var q, js, s, top := 0, {}, mem[..], newHalves + Cells(max, d);
    AtInjective(cur, max, 0, p);
    while j != i
      invariant q <= p && j == cur[q] && (j == i <==> q == p) && js == Planes(cur[..q])
      invariant Linked(next, prev, cur, max)
      invariant OnlyWrites(s, mem[..], newHalves, top)
      invariant Projected(hs, Rows(mem[..], newHalves, d, max), js, hs[i], imax)
      decreases p - q
    {
      ProjectRow(mem, halves, plane, j, imax, d, w, newHalves, max, s, hs, i, js);
      PlanesNext(cur, q);
      js := js + {j};
      j := next[j];
      q := q + 1;
      AtInjective(cur, max, q, p);
    }
  }

  lemma Wider(before: Vec, after: Vec, lo: nat, hi: nat, lo': nat, hi': nat)
    requires OnlyWrites(before, after, lo, hi) && lo' <= lo && hi <= hi'
    ensures OnlyWrites(before, after, lo', hi')
  {
  }

  /** Clears the denominator of the inner problem. */
  method ZeroVector(mem: array<real>, a: nat, len: nat)
    requires a + len <= mem.Length
    modifies mem
    ensures OnlyWrites(old(mem[..]), mem[..], a, a + len) && Slice(mem[..], a, len) == Zero(len)
  {
    ghost var s := mem[..];
    for j := 0 to len
      invariant Wrote(s, a, Zero(len), j, mem[..])
    {
      ghost var s' := mem[..];
      mem[a + j] := 0.0;
      assert mem[..] == s'[a + j := Zero(len)[j]];
      WroteNext(s, a, Zero(len), j, s', mem[..]);
    }
    WroteAll(s, a, Zero(len), mem[..]);
  }

  lemma DownZero(e: Vec, iv: nat, v: Vec)
    requires iv < |v| == |e| && e[iv] != 0.0 && IsZero(v)
    ensures Down(e, iv, v) == Zero(|v| - 1)
  {
    assert v[iv] / e[iv] == 0.0;
    var c := Combine(1.0, v, -(v[iv] / e[iv]), e);
    assert forall k | 0 <= k < |v| :: c[k] == 0.0;
    assert forall k | 0 <= k < |v| - 1 :: Drop(c, iv)[k] == 0.0;
    assert Drop(c, iv) == Zero(|v| - 1);
  }

  /** The objective of the inner problem. */
  method ProjectObjective(mem: array<real>, plane: nat, imax: nat, nVec: nat, dVec: nat, d: nat, w: nat,
                          newN: nat, newD: nat, dVecZero: bool, ghost e: Vec, ghost n: Vec, ghost dv: Vec)
    requires imax <= d && w == d + 1 && plane + w <= mem.Length && nVec + w <= mem.Length && dVec + w <= mem.Length
    requires newD == newN + d && newD + d <= mem.Length
    requires Apart(plane, w, newN, 2 * d) && Apart(nVec, w, newN, 2 * d) && Apart(dVec, w, newN, 2 * d)
    requires e == Slice(mem[..], plane, w) && e[imax] != 0.0
    requires n == Slice(mem[..], nVec, w) && dv == Slice(mem[..], dVec, w)
    requires dVecZero <==> IsZero(dv)
    modifies mem
    ensures OnlyWrites(old(mem[..]), mem[..], newN, newD + d)
    ensures Slice(mem[..], newD, d) == Down(e, imax, dv)
    ensures NormSq(e) != 0.0
    ensures Slice(mem[..], newN, d) == if dVecZero then Across(e, imax, n) else Down(e, imax, n)
  {
    ghost var s := mem[..];
    assert mem[plane + imax] == e[imax];
    NormSqDefinite(e);
    if dVecZero {
      DownZero(e, imax, dv);
      VectorDown(mem, plane, imax, d, w, nVec, newN);
      Wider(s, mem[..], newN, newN + d, newN, newD + d);
      ghost var s' := mem[..];
      ZeroVector(mem, newD, d);
      SliceKept(s', mem[..], newD, newD + d, newN, d);
      assert Slice(mem[..], newD, d) == Down(e, imax, dv);
      Wider(s', mem[..], newD, newD + d, newN, newD + d);
    } else {
      PlaneDown(mem, plane, imax, d, w, nVec, newN);
      ghost var s' := mem[..];
      SliceKept(s, s', newN, newN + d, plane, w);
      SliceKept(s, s', newN, newN + d, dVec, w);
      assert s'[plane + imax] == s[plane + imax];
      PlaneDown(mem, plane, imax, d, w, dVec, newD);
      SliceKept(s', mem[..], newD, newD + d, newN, d);
      assert Slice(mem[..], newD, d) == Down(e, imax, dv);
      Wider(s, s', newN, newN + d, newN, newD + d);
      Wider(s', mem[..], newD, newD + d, newN, newD + d);
    }
  }

  /** The whole inner problem on plane `i`: the planes before it and the objective. */
  method ProjectProblem(mem: array<real>, halves: nat, i: nat, plane: nat, imax: nat,
                        nVec: nat, dVec: nat, d: nat, w: nat, newN: nat, newD: nat, newHalves: nat,
                        next: array<int>, prev: array<int>, max: nat, dVecZero: bool,
                        ghost hs: seq<Vec>, ghost n: Vec, ghost dv: Vec, ghost cur: seq<int>, ghost p: nat)
    requires d >= 1 && imax <= d && w == d + 1 && halves + Cells(max, w) <= mem.Length
    requires nVec + w <= mem.Length && dVec + w <= mem.Length
    requires newD == newN + d && newHalves == newD + d && newHalves <= mem.Length
    requires newHalves + Cells(max, d) <= mem.Length
    requires Apart(halves, Cells(max, w), newN, 2 * d + Cells(max, d))
    requires Apart(nVec, w, newN, 2 * d + Cells(max, d)) && Apart(dVec, w, newN, 2 * d + Cells(max, d))
    requires hs == Rows(mem[..], halves, w, max)
    requires n == Slice(mem[..], nVec, w) && dv == Slice(mem[..], dVec, w)
    requires Linked(next, prev, cur, max) && p < |cur| && i == cur[p] && plane == halves + Cells(i, w)
    requires hs[i][imax] != 0.0 && (dVecZero <==> IsZero(dv))
    modifies mem
    ensures OnlyWrites(old(mem[..]), mem[..], newN, newHalves + Cells(max, d))
    ensures Projected(hs, Rows(mem[..], newHalves, d, max), Planes(cur[..p]), hs[i], imax)
    ensures Slice(mem[..], newD, d) == Down(hs[i], imax, dv)
    ensures !dVecZero ==> Slice(mem[..], newN, d) == Down(hs[i], imax, n)
  {
    ghost var s, top := mem[..], newHalves + Cells(max, d);
    RowsInside(s, halves, w, max, i, plane);
    ProjectPlanes(mem, halves, i, plane, imax, d, w, newHalves, next, prev, max, hs, cur, p);
    ghost var s' := mem[..];
    SliceKept(s, s', newHalves, top, nVec, w);
    SliceKept(s, s', newHalves, top, dVec, w);
    SliceKept(s, s', newHalves, top, plane, w);
    ProjectObjective(mem, plane, imax, nVec, dVec, d, w, newN, newD, dVecZero, hs[i], n, dv);
    RowsKept(s', mem[..], newN, newHalves, newHalves, d, max);
    Wider(s, s', newHalves, top, newN, top);
    Wider(s', mem[..], newN, newHalves, newN, top);
  }

  lemma ZeroDenominator(n: Vec, d: Vec, hs: seq<Vec>, js: set<int>, o: Vec)
    requires |n| == |d| == |o| && IsZero(d)
    ensures Optimal(n, d, hs, js, o)
  {
    forall x: Vec | |x| == |o| ensures Dot(d, x) == 0.0 {
      DotZero(x, d);
    }
  }

  /** The lifted and normalised optimum of the inner problem solves the problem up to plane `i`. */
  lemma SolvedStep(sofar: Status, status: Status, pr: Program, inner: Program, js: set<int>, i: int,
                   iv: nat, o: Vec, y: Vec, factor: real)
    requires pr.SolvedFor(sofar, js, o) && sofar != INFEASIBLE
    requires inner.SolvedFor(status, js, y) && status != INFEASIBLE && |o| == |y| + 1
    requires 0 <= i < |pr.hs| && |pr.hs[i]| == |o| && Dot(pr.hs[i], o) < 0.0 && factor > 0.0
    requires Projected(pr.hs, inner.hs, js, pr.hs[i], iv)
    requires inner.den == Down(pr.hs[i], iv, pr.den) && (!IsZero(pr.den) ==> inner.n == Down(pr.hs[i], iv, pr.n))
    requires if js == {} then i == 0 else 0 in js
    ensures pr.SolvedFor(status, js + {i}, Scale(factor, Up(pr.hs[i], iv, y)))
  {
    var e, n, d := pr.hs[i], pr.n, pr.den;
    var o' := Up(e, iv, y);
    FeasibleStep(pr.hs, inner.hs, js, i, iv, y);
    if pr.hs[0] == d {
      if IsZero(d) {
        ZeroDenominator(n, d, pr.hs, js + {i}, o');
      } else if js == {} {
        FirstStep(n, d, pr.hs, js + {i}, o, o');
      } else {
        assert inner.hs[0] == Down(e, iv, d);
        OptimalStep(n, d, pr.hs, inner.hs, js, i, iv, o, y);
      }
    }
    PositiveMultiple(n, d, pr.hs, js + {i}, factor, o');
  }

  /** A plane that the current optimum satisfies changes nothing. */
  lemma SatisfiedStep(status: Status, pr: Program, js: set<int>, i: int, o: Vec)
    requires pr.SolvedFor(status, js, o) && status != INFEASIBLE
    requires 0 <= i < |pr.hs| && |pr.hs[i]| == |o| && Dot(o, pr.hs[i]) >= 0.0
    ensures pr.SolvedFor(status, js + {i}, o)
  {
    var n, d := pr.n, pr.den;
    DotCommutes(o, pr.hs[i]);
    assert js != {} ==> Feasible(pr.hs, js, o);
    assert Feasible(pr.hs, js + {i}, o);
    if pr.hs[0] == d {
      forall x: Vec | |x| == |o| && Feasible(pr.hs, js + {i}, x) && Dot(d, x) > 0.0 ensures NoWorse(n, d, o, x) {
        assert Feasible(pr.hs, js, x) by {
          assert forall j | j in js :: j in js + {i};
        }
      }
    }
  }

  /** The buffers carved out of the work area are laid out apart from one another and from the outer
      ones, and what is left of the area suffices for the problems further down. */
  lemma InnerLaid(size: nat, b: Buffers, inner: Buffers)
    requires b.Laid(size) && Carved(b, inner)
    ensures inner.Laid(size) && inner.halves <= inner.work <= size
    ensures Apart(b.halves, Cells(b.max, b.w), inner.nVec, 2 * b.d + Cells(b.max, b.d))
    ensures Apart(b.nVec, b.w, inner.nVec, 2 * b.d + Cells(b.max, b.d))
    ensures Apart(b.dVec, b.w, inner.nVec, 2 * b.d + Cells(b.max, b.d))
    ensures Apart(b.work, b.d, b.opt, b.w)
    ensures Apart(inner.nVec, inner.w, inner.dVec, inner.w)
    ensures Apart(inner.nVec, inner.w, inner.halves, Cells(inner.max, inner.w))
    ensures Apart(inner.dVec, inner.w, inner.halves, Cells(inner.max, inner.w))
  {
    assert WorkCells(b.max, b.d) == 3 * b.d + Cells(b.max, b.d) + WorkCells(b.max, b.d - 1);
  }

  lemma InnerKept(s: Vec, s': Vec, s'': Vec, b: Buffers, inner: Buffers)
    requires Carved(b, inner) && OnlyWrites(s, s', inner.nVec, inner.work) && inner.Kept(s', s'')
    requires b.Laid(|s|)
    ensures b.work + b.d <= |s''| && Slice(s'', b.work, b.d) == Slice(s'', inner.opt, inner.w)
    ensures OnlyWrites(s, s'', b.work, b.work + WorkCells(b.max, b.d))
  {
    assert WorkCells(b.max, b.d) == 3 * b.d + Cells(b.max, b.d) + WorkCells(b.max, b.d - 1);
  }

  /** How the work area is carved up for the problem on a plane. */
  ghost predicate Carved(b: Buffers, inner: Buffers) {
    && b.d >= 2 && inner.d == b.d - 1 && inner.w == b.d && inner.max == b.max
    && inner.opt == b.work && inner.nVec == inner.opt + b.d && inner.dVec == inner.nVec + b.d
    && inner.halves == inner.dVec + b.d && inner.work == inner.halves + Cells(b.max, b.d)
  }

  method SetUpInner(mem: array<real>, b: Buffers, ib: Buffers, i: nat, plane: nat, imax: nat,
                    next: array<int>, prev: array<int>, dVecZero: bool,
                    ghost pr: Program, ghost cur: seq<int>, ghost p: nat)
    returns (ghost inner: Program)
    requires pr.StoredAt(mem[..], b) && Carved(b, ib) && imax <= b.d
    requires Linked(next, prev, cur, b.max) && p < |cur| && i == cur[p] && plane == b.halves + Cells(i, b.w)
    requires pr.hs[i][imax] != 0.0 && (dVecZero <==> IsZero(pr.den))
    modifies mem
    ensures OnlyWrites(old(mem[..]), mem[..], ib.nVec, ib.work)
    ensures inner.StoredAt(mem[..], ib)
    ensures Projected(pr.hs, inner.hs, Planes(cur[..p]), pr.hs[i], imax)
    ensures inner.den == Down(pr.hs[i], imax, pr.den) && (!IsZero(pr.den) ==> inner.n == Down(pr.hs[i], imax, pr.n))
  {
    InnerLaid(mem.Length, b, ib);
    ProjectProblem(mem, b.halves, i, plane, imax, b.nVec, b.dVec, b.d, b.w, ib.nVec, ib.dVec, ib.halves,
                   next, prev, b.max, dVecZero, pr.hs, pr.n, pr.den, cur, p);
    inner := Program(Rows(mem[..], ib.halves, ib.w, ib.max), Slice(mem[..], ib.nVec, ib.w),
                     Slice(mem[..], ib.dVec, ib.w));
  }

  /** The problem on plane `i`, set up in the work area and solved there. */
  method InnerProblem(mem: array<real>, b: Buffers, i: nat, plane: nat, imax: nat,
                      next: array<int>, prev: array<int>, dVecZero: bool,
                      ghost pr: Program, ghost cur: seq<int>, ghost p: nat)
    returns (status: Status, ghost after: seq<int>, ghost inner: Program, ghost y: Vec)
    requires pr.StoredAt(mem[..], b) && b.d >= 2 && imax <= b.d
    requires Linked(next, prev, cur, b.max) && p < |cur| && i == cur[p] && plane == b.halves + Cells(i, b.w)
    requires pr.hs[i][imax] != 0.0 && (dVecZero <==> IsZero(pr.den))
    modifies mem, next, prev
    ensures OnlyWrites(old(mem[..]), mem[..], b.work, b.work + WorkCells(b.max, b.d))
    ensures Linked(next, prev, after, b.max) && PermutesPrefix(cur, after, p, b.max)
    ensures Projected(pr.hs, inner.hs, Planes(cur[..p]), pr.hs[i], imax)
    ensures inner.den == Down(pr.hs[i], imax, pr.den) && (!IsZero(pr.den) ==> inner.n == Down(pr.hs[i], imax, pr.n))
    ensures inner.SolvedFor(status, Planes(cur[..p]), y)
    ensures |y| == b.d && b.work + b.d <= mem.Length && y == Slice(mem[..], b.work, b.d)
    decreases b.d, 0
  {
    var newOpt := b.work;
    var newNVec := newOpt + b.d;
    var newDVec := newNVec + b.d;
    var newHalves := newDVec + b.d;
    var newWork := RowPointer(newHalves, b.max, b.d);
    var ib := Buffers(newHalves, newNVec, newDVec, b.d - 1, b.d, newOpt, newWork, b.max);
    ghost var s := mem[..];
    inner := SetUpInner(mem, b, ib, i, plane, imax, next, prev, dVecZero, pr, cur, p);
    ghost var s' := mem[..];
    status, after := Linprog(mem, ib, 0, i, next, prev, inner, cur, 0, p);
    InnerKept(s, s', mem[..], b, ib);
    y := ib.Opt(mem[..]);
  }

  /** Back substitution and the in line code for unit. */
  method LiftBack(mem: array<real>, plane: nat, imax: nat, d: nat, w: nat, low: nat, opt: nat,
                  ghost e: Vec, ghost y: Vec)
    returns (ghost factor: real)
    requires plane + w <= mem.Length && low + d <= mem.Length && opt + w <= mem.Length && imax <= d && w == d + 1
    requires Apart(plane, w, opt, w) && Apart(low, d, opt, w)
    requires e == Slice(mem[..], plane, w) && y == Slice(mem[..], low, d)
    requires e[imax] != 0.0 && !IsZero(y)
    modifies mem
    ensures OnlyWrites(old(mem[..]), mem[..], opt, opt + w)
    ensures factor > 0.0 && Slice(mem[..], opt, w) == Scale(factor, Up(e, imax, y))
  {
    assert mem[plane + imax] == e[imax];
    VectorUp(mem, plane, imax, d, w, low, opt);
    var size := DotAt(mem, opt, opt, w);
    UpNonzero(e, imax, y);
    NormSqDefinite(Up(e, imax, y));
    var s := PositiveFactor(size);
    ScaleInPlace(mem, opt, w, s);
    factor := s;
  }

  lemma LiftLaid(s: Vec, s': Vec, b: Buffers, pr: Program, i: nat, plane: nat)
    requires pr.StoredAt(s, b) && b.d >= 2 && i < b.max && plane == b.halves + Cells(i, b.w)
    requires OnlyWrites(s, s', b.work, b.work + WorkCells(b.max, b.d))
    ensures plane + b.w <= |s'| && b.work + b.d <= |s'| && b.opt + b.w <= |s'|
    ensures Slice(s', plane, b.w) == pr.hs[i]
    ensures Apart(plane, b.w, b.opt, b.w) && Apart(b.work, b.d, b.opt, b.w)
  {
    PlaneLaid(s, b, pr, i, plane);
    SliceKept(s, s', b.work, b.work + WorkCells(b.max, b.d), plane, b.w);
    assert WorkCells(b.max, b.d) == 3 * b.d + Cells(b.max, b.d) + WorkCells(b.max, b.d - 1);
  }

  lemma KeptInner(s: Vec, s': Vec, s'': Vec, b: Buffers)
    requires OnlyWrites(s, s', b.work, b.work + WorkCells(b.max, b.d)) && OnlyWrites(s', s'', b.opt, b.opt + b.w)
    ensures b.Kept(s, s'')
  {
  }

  lemma KeptWork(s: Vec, s': Vec, b: Buffers)
    requires OnlyWrites(s, s', b.work, b.work + WorkCells(b.max, b.d))
    ensures b.Kept(s, s')
  {
  }

  /** No solution on plane `i` means no solution up to plane `i`. */
  lemma InfeasibleSolved(sofar: Status, pr: Program, inner: Program, js: set<int>, i: int, iv: nat,
                          o: Vec, y: Vec, o': Vec)
    requires pr.SolvedFor(sofar, js, o) && sofar != INFEASIBLE
    requires inner.SolvedFor(INFEASIBLE, js, y) && |o| == |y| + 1 == |o'|
    requires 0 <= i < |pr.hs| && |pr.hs[i]| == |o| && Dot(pr.hs[i], o) < 0.0
    requires Projected(pr.hs, inner.hs, js, pr.hs[i], iv)
    requires js != {} ==> 0 in js
    ensures pr.SolvedFor(INFEASIBLE, js + {i}, o')
  {
    InfeasibleStep(pr.hs, inner.hs, js, i, iv, o);
  }

  /** What follows the inner problem: the solution found there becomes the optimum. */
  method LiftSolution(mem: array<real>, b: Buffers, i: nat, plane: nat, imax: nat, ghost s: Vec,
                      ghost sofar: Status, ghost status: Status, ghost pr: Program, ghost inner: Program,
                      ghost js: set<int>, ghost y: Vec)
    requires pr.StoredAt(s, b) && b.d >= 2 && i < b.max && plane == b.halves + Cells(i, b.w) && imax <= b.d
    requires OnlyWrites(s, mem[..], b.work, b.work + WorkCells(b.max, b.d))
    requires b.opt + b.w <= |s| && pr.SolvedFor(sofar, js, b.Opt(s)) && sofar != INFEASIBLE
    requires inner.SolvedFor(status, js, y) && status != INFEASIBLE
    requires |y| == b.d && b.work + b.d <= mem.Length && y == Slice(mem[..], b.work, b.d)
    requires Dot(pr.hs[i], b.Opt(s)) < 0.0 && Projected(pr.hs, inner.hs, js, pr.hs[i], imax)
    requires inner.den == Down(pr.hs[i], imax, pr.den) && (!IsZero(pr.den) ==> inner.n == Down(pr.hs[i], imax, pr.n))
    requires if js == {} then i == 0 else 0 in js
    modifies mem
    ensures b.Kept(s, mem[..])
    ensures pr.SolvedFor(status, js + {i}, b.Opt(mem[..]))
  {
    ghost var s' := mem[..];
    LiftLaid(s, s', b, pr, i, plane);
    assert !IsZero(y);
    ghost var factor := LiftBack(mem, plane, imax, b.d, b.w, b.work, b.opt, pr.hs[i], y);
    KeptInner(s, s', mem[..], b);
    SolvedStep(sofar, status, pr, inner, js, i, imax, b.Opt(s), y, factor);
  }

  /** Find the largest of the coefficients to eliminate. */
  method FindPivot(mem: array<real>, b: Buffers, i: nat, plane: nat, ghost pr: Program, ghost o: Vec)
    returns (imax: nat)
    requires pr.StoredAt(mem[..], b) && i < b.max && plane == b.halves + Cells(i, b.w)
    requires |o| == |pr.hs[i]| && Dot(pr.hs[i], o) != 0.0
    ensures imax <= b.d && pr.hs[i][imax] != 0.0
  {
    PlaneLaid(mem[..], b, pr, i, plane);
    imax := FindIMax(mem, plane, b.d);
    PivotFound(mem[..], plane, b.d, b.w, imax, pr.hs[i], o);
  }

  /** The body of the main loop for a plane that the current optimum violates: project the problem
      onto that plane, solve it there, and lift the solution back. */
  method SolveOnPlane(mem: array<real>, b: Buffers, i: nat, plane: nat, next: array<int>, prev: array<int>,
                      dVecZero: bool, ghost sofar: Status, ghost pr: Program, ghost cur: seq<int>, ghost p: nat)
    returns (status: Status, ghost after: seq<int>)
    requires pr.StoredAt(mem[..], b) && b.d >= 2 && b.opt + b.w <= mem.Length
    requires Linked(next, prev, cur, b.max) && p < |cur| && i == cur[p] && plane == b.halves + Cells(i, b.w)
    requires dVecZero <==> IsZero(pr.den)
    requires sofar != INFEASIBLE && pr.SolvedFor(sofar, Planes(cur[..p]), b.Opt(mem[..]))
    requires Dot(pr.hs[i], b.Opt(mem[..])) < 0.0
    modifies mem, next, prev
    ensures b.Kept(old(mem[..]), mem[..])
    ensures Linked(next, prev, after, b.max) && PermutesPrefix(cur, after, p, b.max)
    ensures pr.SolvedFor(status, Planes(cur[..p]) + {i}, b.Opt(mem[..]))
    decreases b.d, 1
  {
    ghost var s, js, o := mem[..], Planes(cur[..p]), b.Opt(mem[..]);
    EmptyPrefix(cur, p, b.max);
    var imax := FindPivot(mem, b, i, plane, pr, o);
    ghost var inner, y;
    status, after, inner, y := InnerProblem(mem, b, i, plane, imax, next, prev, dVecZero, pr, cur, p);
    if status == INFEASIBLE {
      KeptWork(s, mem[..], b);
      InfeasibleSolved(sofar, pr, inner, js, i, imax, o, y, b.Opt(mem[..]));
      return;
    }
    LiftSolution(mem, b, i, plane, imax, s, sofar, status, pr, inner, js, y);
  }

  lemma PivotFound(s: Vec, plane: nat, d: nat, w: nat, imax: nat, e: Vec, o: Vec)
    requires plane + w <= |s| && e == Slice(s, plane, w) && |o| == w && imax <= d && w == d + 1
    requires forall k | plane <= k < plane + w :: Abs(s[k]) <= Abs(s[plane + imax])
    requires Dot(e, o) != 0.0
    ensures e[imax] != 0.0
  {
    DotCommutes(e, o);
    forall k | 0 <= k < |e| ensures Abs(e[k]) <= Abs(e[imax]) {
      assert e[k] == s[plane + k];
    }
    ViolatedHasPivot(e, o, imax);
  }

  lemma EmptyPrefix(cur: seq<int>, p: nat, max: int)
    requires ValidOrder(cur, max) && p <= |cur|
    ensures Planes(cur[..p]) == {} <==> p == 0
    ensures p > 0 ==> 0 in Planes(cur[..p])
    ensures p < |cur| ==> (p == 0 <==> cur[p] == 0)
  {
    if p > 0 {
      assert cur[..p][0] == 0;
      assert 0 in Planes(cur[..p]);
      assert p < |cur| ==> cur[0] != cur[p];
    }
  }

  lemma StillEmpty(hs: seq<Vec>, js: set<int>, all: set<int>, w: nat)
    requires |hs| > 0 && |hs[0]| == w && js <= all && Empty(hs, js, w)
    ensures Empty(hs, all, w)
  {
    forall x: Vec | |x| == w && Feasible(hs, all, x) ensures Dot(hs[0], x) <= 0.0 {
      assert Feasible(hs, js, x);
    }
  }

  /** An inner run has permuted the planes before position `p` only, and the walk stands where it stood. */
  lemma WalkAfterInner(order: seq<int>, cur: seq<int>, after: seq<int>, p: nat, pos: nat, max: int)
    requires p < pos && PermutesPrefix(order, cur, pos, max) && PermutesPrefix(cur, after, p, max)
    ensures PermutesPrefix(order, after, pos, max)
    ensures after[p] == cur[p] && At(after, max, p) == At(cur, max, p)
    ensures Planes(after[..p]) == Planes(cur[..p])
  {
    PermutesLonger(cur, after, p, pos, max);
    assert after[p] == after[p..][0] == cur[p..][0];
  }

  /** The body of the main loop up to where the list is reordered. */
  method AddPlane(mem: array<real>, b: Buffers, i: nat, next: array<int>, prev: array<int>, dVecZero: bool,
                  sofar: Status, ghost pr: Program,
                  ghost order: seq<int>, ghost cur: seq<int>, ghost p: nat, ghost pos: nat)
    returns (status: Status, offensive: bool, ghost after: seq<int>)
    requires pr.StoredAt(mem[..], b) && b.d >= 2
    requires dVecZero <==> IsZero(pr.den)
    requires Walking(next, prev, Walk(order, cur, i, p, pos, b.max)) && p < pos
    requires sofar != INFEASIBLE && pr.SolvedFor(sofar, Planes(cur[..p]), b.Opt(mem[..]))
    modifies mem, next, prev
    ensures b.Kept(old(mem[..]), mem[..])
    ensures Walking(next, prev, Walk(order, after, i, p, pos, b.max)) && Planes(after[..p]) == Planes(cur[..p])
    ensures pr.SolvedFor(status, if status == INFEASIBLE then Planes(order[..pos]) else Planes(cur[..p]) + {i},
                         b.Opt(mem[..]))
    decreases b.d, 2
  {
    var plane := RowPointer(b.halves, i, b.w);
    PlaneLaid(mem[..], b, pr, i, plane);
    ghost var o := b.Opt(mem[..]);
    status, after := sofar, cur;
    var val := DotAt(mem, b.opt, plane, b.w);
    offensive := val < 0.0;
    if offensive {
      DotCommutes(o, pr.hs[i]);
      status, after := SolveOnPlane(mem, b, i, plane, next, prev, dVecZero, sofar, pr, cur, p);
      WalkAfterInner(order, cur, after, p, pos, b.max);
      if status == INFEASIBLE {
        StillSeen(order, cur, p, pos, b.max);
        StillEmpty(pr.hs, Planes(cur[..p]) + {i}, Planes(order[..pos]), b.w);
      }
    } else {
      SatisfiedStep(status, pr, Planes(cur[..p]), i, o);
    }
  }

  /** The whole body of the main loop. `s` is the store before the loop. */
  method Step(mem: array<real>, b: Buffers, i: nat, m: int, next: array<int>, prev: array<int>, dVecZero: bool,
              sofar: Status, ghost s: Vec, ghost pr: Program,
              ghost order: seq<int>, ghost cur: seq<int>, ghost p: nat, ghost pos: nat)
    returns (status: Status, i': int, ghost after: seq<int>, ghost p': nat)
    requires pr.StoredAt(s, b) && b.Kept(s, mem[..]) && b.d >= 2
    requires dVecZero <==> IsZero(pr.den)
    requires Walking(next, prev, Walk(order, cur, i, p, pos, b.max)) && p < pos && m == At(order, b.max, pos)
    requires sofar != INFEASIBLE && pr.SolvedFor(sofar, Planes(cur[..p]), b.Opt(mem[..]))
    modifies mem, next, prev
    ensures b.Kept(s, mem[..])
    ensures Linked(next, prev, after, b.max) && PermutesPrefix(order, after, pos, b.max)
    ensures status == INFEASIBLE ==> pr.SolvedFor(status, Planes(order[..pos]), b.Opt(mem[..]))
    ensures status != INFEASIBLE ==>
              && Walking(next, prev, Walk(order, after, i', p', pos, b.max)) && (i' == m <==> p' == pos)
              && pr.SolvedFor(status, Planes(after[..p']), b.Opt(mem[..])) && p' == p + 1
    decreases b.d, 3
  {
    i', p' := i, p + 1;
    ghost var s' := mem[..];
    StaysStored(pr, s, s', b);
    var offensive;
    status, offensive, after := AddPlane(mem, b, i, next, prev, dVecZero, sofar, pr, order, cur, p, pos);
    KeptThen(s, s', mem[..], b);
    if status != INFEASIBLE {
      i', after := Advance(i, offensive, m, next, prev, b.max, order, after, p, p', pos);
    }
  }

  /** The main loop of dlinprog. `s` is a store that differs from the current one at most in what the
      routine writes. */
  method AddPlanes(mem: array<real>, b: Buffers, istart: int, m: int, next: array<int>, prev: array<int>,
                   dVecZero: bool, before: Status, ghost s: Vec, ghost pr: Program,
                   ghost order: seq<int>, ghost start: nat, ghost pos: nat)
    returns (status: Status, ghost after: seq<int>)
    requires pr.StoredAt(s, b) && b.Kept(s, mem[..]) && b.d >= 2
    requires dVecZero <==> IsZero(pr.den)
    requires Linked(next, prev, order, b.max)
    requires start <= pos <= |order| && istart == At(order, b.max, start) && m == At(order, b.max, pos)
    requires before != INFEASIBLE && pr.SolvedFor(before, Planes(order[..start]), b.Opt(mem[..]))
    modifies mem, next, prev
    ensures b.Kept(s, mem[..])
    ensures Linked(next, prev, after, b.max) && PermutesPrefix(order, after, pos, b.max)
    ensures pr.SolvedFor(status, Planes(order[..pos]), b.Opt(mem[..]))
    decreases b.d, 4
  {
    ghost var p := start;
    var i := istart;
    status, after := before, order;
    AtInjective(order, b.max, p, pos);
    while i != m
      invariant Walking(next, prev, Walk(order, after, i, p, pos, b.max)) && (i == m <==> p == pos)
      invariant b.Kept(s, mem[..])
      invariant status != INFEASIBLE && pr.SolvedFor(status, Planes(after[..p]), b.Opt(mem[..]))
      decreases pos - p
    {
      status, i, after, p := Step(mem, b, i, m, next, prev, dVecZero, status, s, pr, order, after, p, pos);
      if status == INFEASIBLE {
        return;
      }
    }
  }

  /** The start of dlinprog: the unconstrained minimum, unless an optimum is already in place. */
  method StartOptimum(mem: array<real>, b: Buffers, istart: int, ghost pr: Program, ghost js: set<int>)
    returns (status: Status)
    requires pr.StoredAt(mem[..], b) && b.max > 0
    requires istart == 0 <==> js == {}
    requires istart != 0 ==> pr.SolvedFor(MINIMUM, js, b.Opt(mem[..]))
    modifies mem
    ensures b.Kept(old(mem[..]), mem[..])
    ensures status != INFEASIBLE && pr.SolvedFor(status, js, b.Opt(mem[..]))
  {
    if istart == 0 {
      status := LpNoConstraints(mem, b.d, b.w, b.nVec, b.dVec, b.opt, pr.n, pr.den);
    } else {
      status := MINIMUM;
    }
  }

  /** dlinprog. The planes of `order` before position `pos` are the problem and `m` marks its end; an
      optimum for the planes before `istart` is already in place. The program `pr` is solved for those
      planes, nothing but the optimum and the work area is written, and the list is permuted before
      the marker only. */
  method Linprog(mem: array<real>, b: Buffers, istart: int, m: int, next: array<int>, prev: array<int>,
                 ghost pr: Program, ghost order: seq<int>, ghost start: nat, ghost pos: nat)
    returns (status: Status, ghost after: seq<int>)
    requires pr.StoredAt(mem[..], b)
    requires Linked(next, prev, order, b.max)
    requires start <= pos <= |order| && istart == At(order, b.max, start) && m == At(order, b.max, pos)
    requires start > 0 && b.d > 1 ==> pr.SolvedFor(MINIMUM, Planes(order[..start]), b.Opt(mem[..]))
    modifies mem, next, prev
    ensures b.Kept(old(mem[..]), mem[..])
    ensures Linked(next, prev, after, b.max) && PermutesPrefix(order, after, pos, b.max)
    ensures pr.SolvedFor(status, Planes(order[..pos]), b.Opt(mem[..]))
    decreases b.d, 5
  {
    AtInjective(order, b.max, 0, pos);
    AtInjective(order, b.max, 0, start);
    EmptyPrefix(order, pos, b.max);
    EmptyPrefix(order, start, b.max);
    after := order;
    if b.d == 1 && m != 0 {
      status, after := LpBaseCase(mem, b.halves, m, b.nVec, b.dVec, b.opt, next, prev, b.max, pr.hs, order, pos);
      return;
    }
    ghost var s := mem[..];
    var val := DotAt(mem, b.dVec, b.dVec, b.w);
    NormSqDefinite(pr.den);
    var dVecZero := val == 0.0;
    status := StartOptimum(mem, b, istart, pr, Planes(order[..start]));
    if m == 0 {
      return;
    }
    status, after := AddPlanes(mem, b, istart, m, next, prev, dVecZero, status, s, pr, order, start, pos);
  }
}
