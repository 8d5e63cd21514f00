/** lp_base_case.c: wedge. The feasible directions of a list of half-lines, found by walking over
    the list once while every half-line that matters is moved to the front. */
module Wedges {
  import opened Arcs
  import opened LinkedOrder
  import opened LpTheory

  /** Row `i` of a matrix of half-lines stored from `halves` on. */
  function HalfLine(mem: array<real>, halves: nat, i: nat): V2
    requires halves + 2 * i + 1 < mem.Length
    reads mem
  {
    V2(mem[halves + 2 * i], mem[halves + 2 * i + 1])
  }

  ghost predicate Stored(mem: array<real>, halves: nat, hs: seq<V2>)
    reads mem
  {
    && halves + 2 * |hs| <= mem.Length
    && forall i | 0 <= i < |hs| :: hs[i] == HalfLine(mem, halves, i)
  }

  /** Stands for 1/sqrt(size): the model only relies on the sign of a normalisation factor. */
  method PositiveFactor(size: real) returns (factor: real)
    requires size > 0.0
    ensures factor > 0.0
  {
    factor := *;
    if factor <= 0.0 {
      factor := 1.0;
    }
  }

  /** unit2: `zero` is set and the result left open when there is nothing to normalise. */
  method Unit2(a: V2) returns (zero: bool, b: V2, ghost factor: real)
    ensures zero <==> a == ORIGIN
    ensures !zero ==> factor > 0.0 && b == Times(factor, a)
  {
    var size := a.x * a.x + a.y * a.y;
    if a == ORIGIN {
      return true, a, 1.0;
    }
    NonzeroNorm(a);
    var s := PositiveFactor(size);
    return false, V2(s * a.x, s * a.y), s;
  }

  lemma InMore(hs: seq<V2>, js: set<int>, i: int, x: V2)
    requires 0 <= i < |hs|
    ensures In(hs, js + {i}, x) <==> In(hs, js, x) && Dot2(hs[i], x) >= 0.0
  {
    assert i in js + {i};
    assert forall j | j in js :: j in js + {i};
  }

  lemma TimesRay(s: real, c: V2, x: V2)
    requires s > 0.0
    ensures OnRay(Times(s, c), x) <==> OnRay(c, x)
    ensures c != ORIGIN ==> Times(s, c) != ORIGIN
  {
    assert Cross2(Times(s, c), x) == s * Cross2(c, x);
    assert Dot2(Times(s, c), x) == s * Dot2(c, x);
    ScaledSign(s, Dot2(c, x));
    if s * Cross2(c, x) == 0.0 {
      ZeroProduct(s, Cross2(c, x));
    }
    if c != ORIGIN {
      ZeroProductPair(s, c);
    }
  }

  lemma StartArc(hs: seq<V2>, f: int, s: real)
    requires 0 <= f < |hs| && hs[f] != ORIGIN && s > 0.0
    ensures ArcIs(hs, {f}, Clockwise(Times(s, hs[f])), Minus(Clockwise(Times(s, hs[f]))))
  {
    forall x: V2
      ensures In(hs, {f}, x) <==> InArc(Clockwise(Times(s, hs[f])), Minus(Clockwise(Times(s, hs[f]))), x)
    {
      HalfTurn(hs[f], s, x);
      assert f in {f};
    }
    HalfTurn(hs[f], s, ORIGIN);
  }

  lemma NarrowClockwise(hs: seq<V2>, js: set<int>, i: int, cw: V2, ccw: V2, s: real)
    requires 0 <= i < |hs| && s > 0.0 && ArcIs(hs, js, cw, ccw)
    requires Dot2(hs[i], ccw) > 0.0 && Dot2(hs[i], cw) < 0.0
    ensures ArcIs(hs, js + {i}, Clockwise(Times(s, hs[i])), ccw)
  {
    var c := Clockwise(Times(s, hs[i]));
    NormalSigns(hs[i], s, ccw);
    NormalSigns(hs[i], s, cw);
    NonzeroCross(c, ccw);
    forall x: V2 ensures In(hs, js + {i}, x) <==> InArc(c, ccw, x) {
      InMore(hs, js, i, x);
      NormalSigns(hs[i], s, x);
      CutClockwise(cw, ccw, hs[i], c, x);
    }
  }

  lemma NarrowCounterClockwise(hs: seq<V2>, js: set<int>, i: int, cw: V2, ccw: V2, s: real)
    requires 0 <= i < |hs| && s > 0.0 && ArcIs(hs, js, cw, ccw)
    requires Dot2(hs[i], cw) > 0.0 && Dot2(hs[i], ccw) < 0.0
    ensures ArcIs(hs, js + {i}, cw, Minus(Clockwise(Times(s, hs[i]))))
  {
    var c := Minus(Clockwise(Times(s, hs[i])));
    NormalSigns(hs[i], s, ccw);
    NormalSigns(hs[i], s, cw);
    NonzeroCross(cw, c);
    forall x: V2 ensures In(hs, js + {i}, x) <==> InArc(cw, c, x) {
      InMore(hs, js, i, x);
      NormalSigns(hs[i], s, x);
      CutCounterClockwise(cw, ccw, hs[i], c, x);
    }
  }

  lemma KeepArc(hs: seq<V2>, js: set<int>, i: int, cw: V2, ccw: V2)
    requires 0 <= i < |hs| && ArcIs(hs, js, cw, ccw)
    requires Dot2(cw, hs[i]) >= 0.0 && Dot2(ccw, hs[i]) >= 0.0
    requires Dot2(cw, hs[i]) > 0.0 || Dot2(ccw, hs[i]) > 0.0 || Cross2(cw, hs[i]) >= 0.0
    ensures ArcIs(hs, js + {i}, cw, ccw)
  {
    forall x: V2 ensures In(hs, js + {i}, x) <==> InArc(cw, ccw, x) {
      InMore(hs, js, i, x);
      if InArc(cw, ccw, x) {
        if Dot2(cw, hs[i]) > 0.0 || Dot2(ccw, hs[i]) > 0.0 {
          KeepsArc(cw, ccw, hs[i], x);
        } else {
          KeepsHalfTurn(cw, ccw, hs[i], x);
        }
      }
    }
  }

  lemma MissArc(hs: seq<V2>, js: set<int>, i: int, cw: V2, ccw: V2)
    requires 0 <= i < |hs| && ArcIs(hs, js, cw, ccw)
    requires Dot2(cw, hs[i]) < 0.0 && Dot2(ccw, hs[i]) < 0.0
    ensures OnlyOrigin(hs, js + {i})
  {
    forall x: V2 | In(hs, js + {i}, x) ensures x == ORIGIN {
      InMore(hs, js, i, x);
      MissesArc(cw, ccw, hs[i], x);
    }
  }

  /** The degenerate cases of the walk: only the rays of the two (new) bounds are left. */
  lemma LeaveRays(hs: seq<V2>, js: set<int>, i: int, cw: V2, ccw: V2, cw': V2, ccw': V2, s: real)
    requires 0 <= i < |hs| && s > 0.0 && ArcIs(hs, js, cw, ccw)
    requires Dot2(cw, hs[i]) <= 0.0 && Dot2(ccw, hs[i]) <= 0.0
    requires Dot2(cw, hs[i]) == 0.0 || Dot2(ccw, hs[i]) == 0.0
    requires Dot2(cw, hs[i]) < 0.0 || Dot2(ccw, hs[i]) < 0.0 || Cross2(cw, hs[i]) < 0.0
    requires cw' == if Dot2(cw, hs[i]) < 0.0 then Times(s, ccw) else cw
    requires ccw' == if Dot2(ccw, hs[i]) < 0.0 then Times(s, cw) else ccw
    ensures RaysAre(hs, js + {i}, cw', ccw')
  {
    forall x: V2 ensures In(hs, js + {i}, x) <==> OnRay(cw', x) || OnRay(ccw', x) {
      InMore(hs, js, i, x);
      TimesRay(s, cw, x);
      TimesRay(s, ccw, x);
      if Dot2(cw, hs[i]) < 0.0 {
        LeavesCounterClockwiseRay(cw, ccw, hs[i], x);
      } else if Dot2(ccw, hs[i]) < 0.0 {
        LeavesClockwiseRay(cw, ccw, hs[i], x);
      } else {
        LeavesBothRays(cw, ccw, hs[i], x);
      }
    }
    TimesRay(s, cw, ORIGIN);
    TimesRay(s, ccw, ORIGIN);
    assert Cross2(cw, Times(s, cw)) == 0.0 && Cross2(Times(s, ccw), ccw) == 0.0;
    if Dot2(cw, hs[i]) == 0.0 && Dot2(ccw, hs[i]) == 0.0 {
      TightBothEnds(cw, ccw, hs[i]);
    }
  }

  lemma MissRays(hs: seq<V2>, js: set<int>, i: int, cw: V2, ccw: V2)
    requires 0 <= i < |hs| && RaysAre(hs, js, cw, ccw)
    requires Dot2(cw, hs[i]) < 0.0 && Dot2(ccw, hs[i]) < 0.0
    ensures OnlyOrigin(hs, js + {i})
  {
    forall x: V2 | In(hs, js + {i}, x) ensures x == ORIGIN {
      InMore(hs, js, i, x);
      RaySign(if OnRay(cw, x) then cw else ccw, hs[i], x);
    }
  }

  lemma FilterRays(hs: seq<V2>, js: set<int>, i: int, cw: V2, ccw: V2)
    requires 0 <= i < |hs| && RaysAre(hs, js, cw, ccw)
    requires Dot2(cw, hs[i]) >= 0.0 || Dot2(ccw, hs[i]) >= 0.0
    ensures RaysAre(hs, js + {i}, if Dot2(cw, hs[i]) < 0.0 then ccw else cw,
                                  if Dot2(ccw, hs[i]) < 0.0 then cw else ccw)
  {
    var a := if Dot2(cw, hs[i]) < 0.0 then ccw else cw;
    var b := if Dot2(ccw, hs[i]) < 0.0 then cw else ccw;
    assert Cross2(cw, cw) == 0.0 && Cross2(ccw, ccw) == 0.0;
    forall x: V2 ensures In(hs, js + {i}, x) <==> OnRay(a, x) || OnRay(b, x) {
      InMore(hs, js, i, x);
      if OnRay(cw, x) {
        RaySign(cw, hs[i], x);
      }
      if OnRay(ccw, x) {
        RaySign(ccw, hs[i], x);
      }
    }
  }

  /** What the walk has found out once the half-lines `js` have been seen. */
  ghost predicate WedgeIs(hs: seq<V2>, js: set<int>, cw: V2, ccw: V2, degen: bool) {
    if degen then RaysAre(hs, js, cw, ccw) else ArcIs(hs, js, cw, ccw)
  }

  /** The first half-line that is not zero, if there is one. */
  method FirstNonzero(mem: array<real>, halves: nat, m: int, next: array<int>, prev: array<int>, max: nat,
                      ghost hs: seq<V2>, ghost order: seq<int>, ghost pos: nat)
    returns (i: int, u: V2, ghost factor: real, ghost q: nat)
    requires Stored(mem, halves, hs) && |hs| == max
    requires Linked(next, prev, order, max) && pos <= |order| && m == At(order, max, pos)
    ensures q <= pos && i == At(order, max, q)
    ensures forall j | j in Planes(order[..q]) :: hs[j] == ORIGIN
    ensures i != m ==> q < pos && hs[i] != ORIGIN && factor > 0.0 && u == Times(factor, hs[i])
  {
    i, q, factor, u := 0, 0, 1.0, ORIGIN;
    AtInjective(order, max, 0, pos);
    while i != m
      invariant q <= pos && i == At(order, max, q)
      invariant forall j | j in Planes(order[..q]) :: hs[j] == ORIGIN
      decreases pos - q
    {
      AtInjective(order, max, q, pos);
      var zero;
      zero, u, factor := Unit2(HalfLine(mem, halves, i));
      if !zero {
        return;
      }
      PlanesNext(order, q);
      i := next[i];
      q := q + 1;
    }
    AtInjective(order, max, q, pos);
  }

  /** One half-line while the region is an arc. */
  method WedgeStep(h: V2, cwIn: V2, ccwIn: V2, ghost hs: seq<V2>, ghost js: set<int>, ghost i: int)
    returns (infeasible: bool, cw: V2, ccw: V2, degen: bool, offensive: bool)
    requires 0 <= i < |hs| && h == hs[i] && ArcIs(hs, js, cwIn, ccwIn)
    ensures infeasible ==> OnlyOrigin(hs, js + {i})
    ensures !infeasible ==> WedgeIs(hs, js + {i}, cw, ccw, degen)
  {
    infeasible, cw, ccw, degen, offensive := false, cwIn, ccwIn, false, false;
    var dCw, dCcw := Dot2(cw, h), Dot2(ccw, h);
    if dCcw > 0.0 {
      if dCw < 0.0 {
        var zero, u;
        ghost var s;
        zero, u, s := Unit2(V2(h.y, -h.x));
        NarrowClockwise(hs, js, i, cw, ccw, s);
        assert u == Clockwise(Times(s, h));
        cw := u;
        offensive := true;
      } else {
        KeepArc(hs, js, i, cw, ccw);
      }
    } else if dCw > 0.0 {
      if dCcw < 0.0 {
        var zero, u;
        ghost var s;
        zero, u, s := Unit2(V2(-h.y, h.x));
        NarrowCounterClockwise(hs, js, i, cw, ccw, s);
        assert u == Minus(Clockwise(Times(s, h)));
        ccw := u;
        offensive := true;
      } else {
        KeepArc(hs, js, i, cw, ccw);
      }
    } else if dCcw < 0.0 && dCw < 0.0 {
      MissArc(hs, js, i, cw, ccw);
      infeasible := true;
    } else if dCw < 0.0 || dCcw < 0.0 || Cross2(cw, h) < 0.0 {
      var zero;
      ghost var s := 1.0;
      if dCw < 0.0 {
        zero, cw, s := Unit2(ccw);
      } else if dCcw < 0.0 {
        zero, ccw, s := Unit2(cw);
      }
      LeaveRays(hs, js, i, cwIn, ccwIn, cw, ccw, s);
      degen := true;
      offensive := true;
    } else {
      KeepArc(hs, js, i, cw, ccw);
    }
  }

  /** One half-line once only the rays of the two bounds are left. */
  method DegenerateStep(h: V2, cwIn: V2, ccwIn: V2, ghost hs: seq<V2>, ghost js: set<int>, ghost i: int)
    returns (infeasible: bool, cw: V2, ccw: V2)
    requires 0 <= i < |hs| && h == hs[i] && RaysAre(hs, js, cwIn, ccwIn)
    ensures infeasible ==> OnlyOrigin(hs, js + {i})
    ensures !infeasible ==> RaysAre(hs, js + {i}, cw, ccw)
  {
    infeasible, cw, ccw := false, cwIn, ccwIn;
    var dCw, dCcw := Dot2(cw, h), Dot2(ccw, h);
    if dCw < 0.0 && dCcw < 0.0 {
      MissRays(hs, js, i, cw, ccw);
      infeasible := true;
      return;
    }
    FilterRays(hs, js, i, cw, ccw);
    if dCw < 0.0 {
      cw := ccw;
    } else if dCcw < 0.0 {
      ccw := cw;
    }
  }

  lemma StillOnlyOrigin(hs: seq<V2>, js: set<int>, all: set<int>)
    requires js <= all && OnlyOrigin(hs, js)
    ensures OnlyOrigin(hs, all)
  {
    forall x: V2 | In(hs, all, x) ensures x == ORIGIN {
      assert In(hs, js, x);
    }
  }

  lemma BoundsAreFeasible(hs: seq<V2>, js: set<int>, cw: V2, ccw: V2, degen: bool)
    requires WedgeIs(hs, js, cw, ccw, degen)
    ensures cw != ORIGIN && ccw != ORIGIN
    ensures In(hs, js, cw) && In(hs, js, ccw)
    ensures !OnlyOrigin(hs, js)
  {
    NonzeroNorm(cw);
    NonzeroNorm(ccw);
    assert Cross2(cw, cw) == 0.0 && Cross2(ccw, ccw) == 0.0;
    if degen {
      assert OnRay(cw, cw) && OnRay(ccw, ccw);
    } else {
      assert InArc(cw, ccw, cw) && InArc(cw, ccw, ccw);
    }
  }

  lemma AllZeroAdmitsAll(hs: seq<V2>, js: set<int>, x: V2)
    requires forall j | j in js :: 0 <= j < |hs| && hs[j] == ORIGIN
    ensures In(hs, js, x)
  {
  }

  /** The walk while the region is an arc, from the front of the list up to the end or up to
      the half-line that leaves only rays. */
  method WalkArc(mem: array<real>, halves: nat, m: int, next: array<int>, prev: array<int>, max: nat,
                 cwIn: V2, ccwIn: V2,
                 ghost hs: seq<V2>, ghost order: seq<int>, ghost pos: nat, ghost f: int)
    returns (infeasible: bool, cw: V2, ccw: V2, degen: bool, i: int,
             ghost q: nat, ghost after: seq<int>, ghost seen: set<int>)
    requires Stored(mem, halves, hs) && |hs| == max
    requires Linked(next, prev, order, max) && 0 < pos <= |order| && m == At(order, max, pos)
    requires f in Planes(order[..pos]) && ArcIs(hs, {f}, cwIn, ccwIn)
    modifies next, prev
    ensures Walking(next, prev, Walk(order, after, i, q, pos, max))
    ensures infeasible ==> OnlyOrigin(hs, Planes(order[..pos]))
    ensures !infeasible ==> seen == Planes(after[..q]) + {f} && WedgeIs(hs, seen, cw, ccw, degen)
    ensures !infeasible && !degen ==> q == pos
  {
    infeasible, cw, ccw, degen, after := false, cwIn, ccwIn, false, order;
    i, q, seen := 0, 0, {f};
    AtInjective(order, max, 0, pos);
    while i != m
      invariant Walking(next, prev, Walk(order, after, i, q, pos, max))
      invariant i == m <==> q == pos
      invariant seen == Planes(after[..q]) + {f}
      invariant ArcIs(hs, seen, cw, ccw) && !infeasible && !degen
      decreases pos - q
    {
      StillSeen(order, after, q, pos, max);
      var offensive;
      infeasible, cw, ccw, degen, offensive := WedgeStep(HalfLine(mem, halves, i), cw, ccw, hs, seen, i);
      if infeasible {
        StillOnlyOrigin(hs, seen + {i}, Planes(order[..pos]));
        return;
      }
      seen := seen + {i};
      ghost var before := Planes(after[..q]) + {i};
      ghost var q' := q + 1;
      i, after := Advance(i, offensive, m, next, prev, max, order, after, q, q', pos);
      assert seen == before + {f};
      q := q';
      if degen {
        break;
      }
    }
  }

  /** The rest of the walk once only rays are left. The list is not reordered any more. */
  method WalkRays(mem: array<real>, halves: nat, m: int, next: array<int>, prev: array<int>, max: nat,
                  start: int, cwIn: V2, ccwIn: V2,
                  ghost hs: seq<V2>, ghost order: seq<int>, ghost after: seq<int>,
                  ghost from: nat, ghost pos: nat, ghost f: int)
    returns (infeasible: bool, cw: V2, ccw: V2)
    requires Stored(mem, halves, hs) && |hs| == max
    requires Walking(next, prev, Walk(order, after, start, from, pos, max)) && m == At(order, max, pos)
    requires f in Planes(order[..pos]) && RaysAre(hs, Planes(after[..from]) + {f}, cwIn, ccwIn)
    ensures infeasible ==> OnlyOrigin(hs, Planes(order[..pos]))
    ensures !infeasible ==> RaysAre(hs, Planes(order[..pos]) + {f}, cw, ccw)
  {
    infeasible, cw, ccw := false, cwIn, ccwIn;
    var i := start;
    ghost var q := from;
    assert m == At(after, max, pos);
    AtInjective(after, max, q, pos);
    while i != m
      invariant Walking(next, prev, Walk(order, after, i, q, pos, max))
      invariant i == m <==> q == pos
      invariant RaysAre(hs, Planes(after[..q]) + {f}, cw, ccw) && !infeasible
      decreases pos - q
    {
      StillSeen(order, after, q, pos, max);
      WalkOnBeside(order, after, q, pos, max, f);
      infeasible, cw, ccw := DegenerateStep(HalfLine(mem, halves, i), cw, ccw, hs, Planes(after[..q]) + {f}, i);
      if infeasible {
        StillOnlyOrigin(hs, Planes(after[..q]) + {f} + {i}, Planes(order[..pos]));
        return;
      }
      i := next[i];
      q := q + 1;
      AtInjective(after, max, q, pos);
    }
  }

  /** The feasible directions of the half-lines before the terminal marker `m`. */
  method Wedge(mem: array<real>, halves: nat, m: int, next: array<int>, prev: array<int>, max: nat,
               ghost hs: seq<V2>, ghost order: seq<int>, ghost pos: nat)
    returns (status: Status, cw: V2, ccw: V2, degen: bool, ghost after: seq<int>)
    requires Stored(mem, halves, hs) && |hs| == max
    requires Linked(next, prev, order, max) && 0 < pos <= |order| && m == At(order, max, pos)
    modifies next, prev
    ensures Linked(next, prev, after, max) && PermutesPrefix(order, after, pos, max)
    ensures status == UNBOUNDED <==> forall j | j in Planes(order[..pos]) :: hs[j] == ORIGIN
    ensures status == INFEASIBLE <==> OnlyOrigin(hs, Planes(order[..pos]))
    ensures status == UNBOUNDED || status == INFEASIBLE || status == MINIMUM
    ensures status == MINIMUM ==> WedgeIs(hs, Planes(order[..pos]), cw, ccw, degen)
  {
    degen, after, cw, ccw := false, order, ORIGIN, ORIGIN;
    ghost var all := Planes(order[..pos]);
    var i, u;
    ghost var factor, q, seen;
    i, u, factor, q := FirstNonzero(mem, halves, m, next, prev, max, hs, order, pos);
    AtInjective(order, max, q, pos);
    if i == m {
      AllZeroAdmitsAll(hs, all, V2(1.0, 0.0));
      status := UNBOUNDED;
      return;
    }
    ghost var f := i;
    assert f in all by { assert order[..pos][q] == f; }
    assert all + {f} == all;
    cw := V2(u.y, -u.x);
    ccw := V2(-cw.x, -cw.y);
    StartArc(hs, f, factor);
    var infeasible;
    infeasible, cw, ccw, degen, i, q, after, seen :=
      WalkArc(mem, halves, m, next, prev, max, cw, ccw, hs, order, pos, f);
    if !infeasible && degen {
      infeasible, cw, ccw := WalkRays(mem, halves, m, next, prev, max, i, cw, ccw, hs, order, after, q, pos, f);
    }
    if infeasible {
      status := INFEASIBLE;
      return;
    }
    BoundsAreFeasible(hs, all, cw, ccw, degen);
    status := MINIMUM;
  }
}
