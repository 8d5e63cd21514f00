/** The order of the half-spaces: a doubly linked list kept in two index arrays.
    Plane 0 always comes first, and `max` is the terminal marker behind the last plane. */
module LinkedOrder {

  ghost predicate NoDuplicates(s: seq<int>) {
    forall k, l | 0 <= k < l < |s| :: s[k] != s[l]
  }

  /** What follows position `k - 1`: a plane, or the terminal marker. */
  ghost function At(order: seq<int>, max: int, k: nat): int
    requires k <= |order|
  {
    if k < |order| then order[k] else max
  }

  ghost function Planes(s: seq<int>): set<int> {
    set j | j in s
  }

  /** An order of distinct planes below `max` that starts with plane 0. */
  ghost predicate ValidOrder(order: seq<int>, max: int) {
    && |order| > 0
    && order[0] == 0
    && (forall k | 0 <= k < |order| :: 0 <= order[k] < max)
    && NoDuplicates(order)
  }

  /** `next` and `prev` link exactly the planes of `order`, in that order. */
  ghost predicate Linked(next: array<int>, prev: array<int>, order: seq<int>, max: int)
    reads next, prev
  {
    next != prev && Links(next[..], prev[..], order, max)
  }

  ghost predicate Links(next: seq<int>, prev: seq<int>, order: seq<int>, max: int) {
    && |next| >= max && |prev| >= max
    && ValidOrder(order, max)
    && (forall k {:trigger next[order[k]]} | 0 <= k < |order| :: next[order[k]] == At(order, max, k + 1))
    && (forall k {:trigger prev[order[k]]} | 0 < k < |order| :: prev[order[k]] == order[k - 1])
  }

  /** The order with the plane at position `p` put in second place. */
  ghost function MovedToFront(order: seq<int>, p: nat): (r: seq<int>)
    requires p < |order|
    ensures |r| == |order|
  {
    if p <= 1 then order else [order[0], order[p]] + order[1..p] + order[p + 1..]
  }

  /** `after` permutes the first `p` planes of `before`, keeps plane 0 first and
      leaves the rest of the order alone. */
  ghost predicate PermutesPrefix(before: seq<int>, after: seq<int>, p: nat, max: int) {
    && p <= |before| == |after|
    && ValidOrder(before, max) && ValidOrder(after, max)
    && after[p..] == before[p..]
    && Planes(after[..p]) == Planes(before[..p])
  }

  lemma MovedAt(order: seq<int>, p: nat, k: nat)
    requires p < |order| && k < |order|
    ensures MovedToFront(order, p)[k] ==
            if p <= 1 || k > p || k == 0 then order[k] else if k == 1 then order[p] else order[k - 1]
  {
  }

  lemma MovedPermutes(order: seq<int>, p: nat, max: int)
    requires p < |order| && ValidOrder(order, max)
    ensures PermutesPrefix(order, MovedToFront(order, p), p + 1, max)
  {
    var r := MovedToFront(order, p);
    if p > 1 {
      forall k | 0 <= k < |order|
        ensures r[k] == if k > p || k == 0 then order[k] else if k == 1 then order[p] else order[k - 1]
      {
        MovedAt(order, p, k);
      }
      assert NoDuplicates(r);
      assert ValidOrder(r, max);
      assert r[p + 1..] == order[p + 1..];
      SamePlanes(order, r, p);
    }
  }

  lemma SamePlanes(order: seq<int>, r: seq<int>, p: nat)
    requires 1 < p < |order| && r == MovedToFront(order, p)
    ensures Planes(r[..p + 1]) == Planes(order[..p + 1])
  {
    assert order[..p + 1] == [order[0]] + order[1..p] + [order[p]];
    assert r[..p + 1] == [order[0], order[p]] + order[1..p];
  }

  lemma PlanesConcat(s: seq<int>, t: seq<int>)
    ensures Planes(s + t) == Planes(s) + Planes(t)
  {
  }

  lemma PermutesLonger(a: seq<int>, b: seq<int>, p: nat, q: nat, max: int)
    requires PermutesPrefix(a, b, p, max) && p <= q <= |a|
    ensures PermutesPrefix(a, b, q, max)
  {
    assert b[q..] == b[p..][q - p..] == a[p..][q - p..] == a[q..];
    assert b[p..q] == b[p..][..q - p] == a[p..][..q - p] == a[p..q];
    assert b[..q] == b[..p] + b[p..q];
    assert a[..q] == a[..p] + a[p..q];
    PlanesConcat(b[..p], b[p..q]);
    PlanesConcat(a[..p], a[p..q]);
  }

  ghost function RelinkedPrev(v: seq<int>, order: seq<int>, p: nat): seq<int>
    requires 1 < p < |order| && forall k | 0 <= k < |order| :: 0 <= order[k] < |v|
  {
    (if p + 1 < |order| then v[order[p + 1] := order[p - 1]] else v)[order[p] := 0][order[1] := order[p]]
  }

  ghost function RelinkedNext(n: seq<int>, order: seq<int>, p: nat, max: int): seq<int>
    requires 1 < p < |order| && forall k | 0 <= k < |order| :: 0 <= order[k] < |n|
  {
    n[order[p - 1] := At(order, max, p + 1)][order[p] := order[1]][order[0] := order[p]]
  }

  lemma RelinkedNextAt(n: seq<int>, order: seq<int>, p: nat, max: int, k: nat)
    requires ValidOrder(order, max) && 1 < p < |order| && max <= |n| && k < |order|
    requires forall l {:trigger n[order[l]]} | 0 <= l < |order| :: n[order[l]] == At(order, max, l + 1)
    ensures RelinkedNext(n, order, p, max)[MovedToFront(order, p)[k]] == At(MovedToFront(order, p), max, k + 1)
  {
    MovedAt(order, p, k);
    if k + 1 < |order| {
      MovedAt(order, p, k + 1);
    }
    var j := if k == 0 || k > p then k else if k == 1 then p else k - 1;
    assert order[j] == order[0] <==> j == 0;
    assert order[j] == order[p] <==> j == p;
    assert order[j] == order[p - 1] <==> j == p - 1;
  }

  lemma RelinkedPrevAt(v: seq<int>, order: seq<int>, p: nat, max: int, j: nat)
    requires ValidOrder(order, max) && 1 < p < |order| && max <= |v| && 0 < j < |order|
    requires v[order[j]] == order[j - 1]
    ensures RelinkedPrev(v, order, p)[order[j]] ==
            if j == 1 then order[p] else if j == p then order[0]
            else if j == p + 1 then order[p - 1] else order[j - 1]
  {
    assert order[j] == order[1] <==> j == 1;
    assert order[j] == order[p] <==> j == p;
    assert p + 1 < |order| ==> (order[j] == order[p + 1] <==> j == p + 1);
  }

  /** Taking the plane out of position `p` and putting it behind plane 0 links the moved order. */
  lemma Relinked(n: seq<int>, v: seq<int>, order: seq<int>, p: nat, max: int)
    requires Links(n, v, order, max) && 1 < p < |order|
    ensures Links(RelinkedNext(n, order, p, max), RelinkedPrev(v, order, p), MovedToFront(order, p), max)
  {
    var moved := MovedToFront(order, p);
    MovedPermutes(order, p, max);
    forall k | 0 <= k < |moved| ensures RelinkedNext(n, order, p, max)[moved[k]] == At(moved, max, k + 1) {
      RelinkedNextAt(n, order, p, max, k);
    }
    forall k | 0 < k < |moved| ensures RelinkedPrev(v, order, p)[moved[k]] == moved[k - 1] {
      RelinkedPrevMoved(n, v, order, p, max, k, k - 1, moved);
    }
  }

  lemma RelinkedPrevMoved(n: seq<int>, v: seq<int>, order: seq<int>, p: nat, max: int, k: nat, l: nat, moved: seq<int>)
    requires Links(n, v, order, max) && 1 < p < |order| && k == l + 1 && k < |order| && moved == MovedToFront(order, p)
    ensures RelinkedPrev(v, order, p)[moved[k]] == moved[l]
  {
    MovedAt(order, p, k);
    MovedAt(order, p, l);
    var j := if k > p then k else if k == 1 then p else l;
    assert v[order[j]] == order[j - 1];
    RelinkedPrevAt(v, order, p, max, j);
  }

  /** linprog.c: move_to_front. The result is a plane whose successor is the old successor of `i`,
      so the walk over the list goes on where it was. */
  method MoveToFront(i: int, next: array<int>, prev: array<int>, maxHalves: int,
                     ghost order: seq<int>, ghost p: nat)
    returns (r: int)
    requires Linked(next, prev, order, maxHalves)
    requires p < |order| && order[p] == i
    modifies next, prev
    ensures Linked(next, prev, MovedToFront(order, p), maxHalves)
    ensures PermutesPrefix(order, MovedToFront(order, p), p + 1, maxHalves)
    ensures r == MovedToFront(order, p)[p]
    ensures 0 <= r < maxHalves && next[r] == At(order, maxHalves, p + 1)
  {
    ghost var n, v := next[..], prev[..];
    ghost var succ := At(order, maxHalves, p + 1);
    assert n[0] == n[order[0]] == At(order, maxHalves, 1);
    assert n[i] == n[order[p]] == succ;
    MovedPermutes(order, p, maxHalves);
    if i == 0 || i == next[0] {
      assert p <= 1;
      return i;
    }
    assert p > 1;
    assert v[order[p]] == order[p - 1];
    var previ := prev[i];
    next[prev[i]] := next[i];
    if next[i] != maxHalves {
      prev[next[i]] := prev[i];
    }
    next[i] := next[0];
    prev[i] := 0;
    prev[next[i]] := i;
    next[0] := i;
    assert next[..] == RelinkedNext(n, order, p, maxHalves);
    assert prev[..] == RelinkedPrev(v, order, p);
    Relinked(n, v, order, p, maxHalves);
    MovedAt(order, p, p);
    return previ;
  }

  /** Position `q` of the order has been seen as well. */
  lemma PlanesNext(order: seq<int>, q: nat)
    requires q < |order|
    ensures Planes(order[..q + 1]) == Planes(order[..q]) + {order[q]}
  {
    assert order[..q + 1] == order[..q] + [order[q]];
    PlanesConcat(order[..q], [order[q]]);
  }

  /** A walk over the planes of `order` before position `pos`. The list is by now in the order `cur`, and
      the walk stands at its position `q`, that is at plane or marker `i`. */
  datatype Walk = Walk(order: seq<int>, cur: seq<int>, i: int, q: nat, pos: nat, max: int)

  ghost predicate Walking(next: array<int>, prev: array<int>, w: Walk)
    reads next, prev
  {
    && Linked(next, prev, w.cur, w.max)
    && PermutesPrefix(w.order, w.cur, w.pos, w.max)
    && w.q <= w.pos && w.i == At(w.cur, w.max, w.q)
  }

  /** Moving the plane at position `q` to the front leaves the walk over planes up to `pos` intact. */
  lemma WalkOn(order: seq<int>, cur: seq<int>, q: nat, pos: nat, max: int)
    requires q < pos && PermutesPrefix(order, cur, pos, max)
    ensures PermutesPrefix(order, MovedToFront(cur, q), pos, max)
    ensures Planes(MovedToFront(cur, q)[..q + 1]) == Planes(cur[..q]) + {cur[q]}
    ensures Planes(cur[..q + 1]) == Planes(cur[..q]) + {cur[q]}
  {
    MovedPermutes(cur, q, max);
    PermutesLonger(cur, MovedToFront(cur, q), q + 1, pos, max);
    PlanesNext(cur, q);
  }

  /** The same when one plane `f` has been seen ahead of the walk. */
  lemma WalkOnBeside(order: seq<int>, cur: seq<int>, q: nat, pos: nat, max: int, f: int)
    requires q < pos && PermutesPrefix(order, cur, pos, max)
    ensures Planes(cur[..q + 1]) + {f} == Planes(cur[..q]) + {f} + {cur[q]}
  {
    WalkOn(order, cur, q, pos, max);
  }

  lemma StillSeen(order: seq<int>, cur: seq<int>, q: nat, pos: nat, max: int)
    requires q < pos && PermutesPrefix(order, cur, pos, max)
    ensures Planes(cur[..q]) + {cur[q]} <= Planes(order[..pos])
  {
    PlanesNext(cur, q);
    assert cur[..pos] == cur[..q + 1] + cur[q + 1..pos];
    PlanesConcat(cur[..q + 1], cur[q + 1..pos]);
  }

  lemma AtInjective(order: seq<int>, max: int, k: nat, l: nat)
    requires ValidOrder(order, max) && k <= |order| && l <= |order|
    ensures At(order, max, k) == At(order, max, l) <==> k == l
  {
  }

  /** One step of a walk over the list: an offensive plane is put in second place, and the walk
      goes on behind it. */
  method Advance(i: int, offensive: bool, m: int, next: array<int>, prev: array<int>, max: int,
                 ghost order: seq<int>, ghost cur: seq<int>, ghost q: nat, ghost q': nat, ghost pos: nat)
    returns (i': int, ghost cur': seq<int>)
    requires Walking(next, prev, Walk(order, cur, i, q, pos, max)) && q < pos && q' == q + 1
    requires m == At(order, max, pos)
    modifies next, prev
    ensures Walking(next, prev, Walk(order, cur', i', q', pos, max))
    ensures Planes(cur'[..q']) == Planes(cur[..q]) + {i}
    ensures i' == m <==> q' == pos
  {
    WalkOn(order, cur, q, pos, max);
    cur' := cur;
    if offensive {
      i' := MoveToFront(i, next, prev, max, cur, q);
      cur' := MovedToFront(cur, q);
    } else {
      i' := i;
    }
    i' := next[i'];
    assert At(cur', max, pos) == m;
    AtInjective(cur', max, q + 1, pos);
  }
}
