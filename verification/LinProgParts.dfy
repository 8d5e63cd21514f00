/** The loops of linprog.c and vector_up.c, each against the vector function it computes in place. */
module LinProgParts {
  import opened Vectors
  import opened Elimination
  import opened LpTheory
  import opened Store
  import opened Wedges

  /** One coordinate of plane_down or vector_down. */
  method LessOneAt(mem: array<real>, elim: nat, ivar: nat, idim: nat, w: nat, before: nat, after: nat,
                   fac: real, i: nat, ghost s: Vec)
    requires i <= idim && i != ivar <= idim && w == idim + 1
    requires elim + w <= |s| && before + w <= |s| && after + idim <= |s|
    requires Apart(elim, w, after, idim) && Apart(before, w, after, idim)
    requires Wrote(s, after, Less(Slice(s, elim, w), ivar, Slice(s, before, w), fac),
                   if i < ivar then i else i - 1, mem[..])
    modifies mem
    ensures Wrote(s, after, Less(Slice(s, elim, w), ivar, Slice(s, before, w), fac),
                  if i < ivar then i + 1 else i, mem[..])
  {
    ghost var e, v := Slice(s, elim, w), Slice(s, before, w);
    ghost var target, s' := Less(e, ivar, v, fac), mem[..];
    var at := if i < ivar then i else i - 1;
    ReadBeside(s, after, target, at, s', before, w, i);
    ReadBeside(s, after, target, at, s', elim, w, i);
    var oldCoord, elimCoord := mem[before + i], mem[elim + i];
    LessAt(e, ivar, v, fac, i, oldCoord, elimCoord);
    mem[after + at] := oldCoord - elimCoord * fac;
    assert mem[..] == s'[after + at := target[at]];
    WroteNext(s, after, target, at, s', mem[..]);
  }

  /** The two loops that plane_down and vector_down end with. */
  method WriteLess(mem: array<real>, elim: nat, ivar: nat, idim: nat, w: nat, before: nat, after: nat, fac: real)
    requires ivar <= idim && w == idim + 1 && elim + w <= mem.Length && before + w <= mem.Length
    requires after + idim <= mem.Length && Apart(elim, w, after, idim) && Apart(before, w, after, idim)
    modifies mem
    ensures OnlyWrites(old(mem[..]), mem[..], after, after + idim)
    ensures Slice(mem[..], after, idim) ==
            Less(old(Slice(mem[..], elim, w)), ivar, old(Slice(mem[..], before, w)), fac)
  {
    ghost var s := mem[..];
    ghost var target := Less(Slice(s, elim, w), ivar, Slice(s, before, w), fac);
    var i := 0;
    while i < ivar
      invariant 0 <= i <= ivar
      invariant Wrote(s, after, target, i, mem[..])
    {
      LessOneAt(mem, elim, ivar, idim, w, before, after, fac, i, s);
      i := i + 1;
    }
    i := ivar + 1;
    while i <= idim
      invariant ivar + 1 <= i <= w
      invariant Wrote(s, after, target, i - 1, mem[..])
    {
      LessOneAt(mem, elim, ivar, idim, w, before, after, fac, i, s);
      i := i + 1;
    }
    WroteAll(s, after, target, mem[..]);
  }

  /** plane_down, and the loop in dlinprog that writes the same thing out. */
  method PlaneDown(mem: array<real>, elim: nat, ivar: nat, idim: nat, w: nat, oldPlane: nat, newPlane: nat)
    requires ivar <= idim && w == idim + 1 && elim + w <= mem.Length && oldPlane + w <= mem.Length
    requires newPlane + idim <= mem.Length && mem[elim + ivar] != 0.0
    requires Apart(elim, w, newPlane, idim) && Apart(oldPlane, w, newPlane, idim)
    modifies mem
    ensures OnlyWrites(old(mem[..]), mem[..], newPlane, newPlane + idim)
    ensures Slice(mem[..], newPlane, idim) ==
            Down(old(Slice(mem[..], elim, w)), ivar, old(Slice(mem[..], oldPlane, w)))
  {
    var crit := mem[oldPlane + ivar] / mem[elim + ivar];
    WriteLess(mem, elim, ivar, idim, w, oldPlane, newPlane, crit);
  }

  /** vector_down: the part of a vector within the plane, without coordinate `ivar`. */
  method VectorDown(mem: array<real>, elim: nat, ivar: nat, idim: nat, w: nat, oldVec: nat, newVec: nat)
    requires ivar <= idim && w == idim + 1 && elim + w <= mem.Length && oldVec + w <= mem.Length
    requires newVec + idim <= mem.Length && NormSq(Slice(mem[..], elim, w)) != 0.0
    requires Apart(elim, w, newVec, idim) && Apart(oldVec, w, newVec, idim)
    modifies mem
    ensures OnlyWrites(old(mem[..]), mem[..], newVec, newVec + idim)
    ensures Slice(mem[..], newVec, idim) ==
            Across(old(Slice(mem[..], elim, w)), ivar, old(Slice(mem[..], oldVec, w)))
  {
    var ve := DotAt(mem, oldVec, elim, w);
    var ee := DotAt(mem, elim, elim, w);
    var fac := ve / ee;
    WriteLess(mem, elim, ivar, idim, w, oldVec, newVec, fac);
  }

  /** vector_up has dealt with the coordinates before `i`: they are in place, and the accumulator is at
      minus the first `at` terms of the dot product. */
  ghost predicate Lifting(s: Vec, s': Vec, equation: nat, ivar: nat, idim: nat, w: nat, low: nat, vector: nat,
                          i: nat, at: nat)
  {
    && ivar <= idim && w == idim + 1 && at <= idim && i <= w
    && equation + w <= |s| && low + idim <= |s| && vector + w <= |s|
    && Apart(equation, w, vector, w) && Apart(low, idim, vector, w)
    && s[equation + ivar] != 0.0
    && var e, y := Slice(s, equation, w), Slice(s, low, idim);
       UpWritten(s, vector, Up(e, ivar, y), ivar, i, -DotTo(Drop(e, ivar), y, at), s')
  }

  /** One coordinate of vector_up. */
  method VectorUpAt(mem: array<real>, equation: nat, ivar: nat, idim: nat, w: nat, low: nat, vector: nat,
                    i: nat, at: nat, ghost s: Vec)
    returns (i': nat, at': nat)
    requires i <= idim && i != ivar && w == idim + 1 && at == if i < ivar then i else i - 1
    requires Lifting(s, mem[..], equation, ivar, idim, w, low, vector, i, at)
    modifies mem
    ensures i' == i + 1 && at' == at + 1
    ensures Lifting(s, mem[..], equation, ivar, idim, w, low, vector, i', at')
  {
    i', at' := i + 1, at + 1;
    ghost var s' := mem[..];
    var lowCoord, coefficient := mem[low + at], mem[equation + i];
    var term := coefficient * lowCoord;
    LiftingNext(s, s', equation, ivar, idim, w, low, vector, i, at, i', at', lowCoord, coefficient, term);
    mem[vector + i] := lowCoord;
    ghost var s1 := mem[..];
    assert s1 == s'[vector + i := lowCoord];
    var sum := mem[vector + ivar] - term;
    mem[vector + ivar] := sum;
    assert mem[..] == s1[vector + ivar := sum];
  }

  lemma LiftingNext(s: Vec, s': Vec, equation: nat, ivar: nat, idim: nat, w: nat, low: nat, vector: nat,
                    i: nat, at: nat, i': nat, at': nat, lowCoord: real, coefficient: real, term: real)
    requires i <= idim && i != ivar && w == idim + 1 && at == (if i < ivar then i else i - 1)
    requires Lifting(s, s', equation, ivar, idim, w, low, vector, i, at) && i' == i + 1 && at' == at + 1
    requires lowCoord == s'[low + at] && coefficient == s'[equation + i] && term == coefficient * lowCoord
    ensures Lifting(s, s'[vector + i := lowCoord][vector + ivar := s'[vector + ivar] - term],
                    equation, ivar, idim, w, low, vector, i', at')
  {
    var e, y := Slice(s, equation, w), Slice(s, low, idim);
    var r, x, acc := Drop(e, ivar), Up(e, ivar, y), -DotTo(Drop(e, ivar), y, at);
    UpRead(s, vector, x, ivar, i, acc, s', low, idim, at);
    UpRead(s, vector, x, ivar, i, acc, s', equation, w, i);
    DropAt(e, ivar, i);
    UpAt(e, ivar, y, i);
    DotToNext(r, y, at, at', coefficient, lowCoord);
    var acc' := -DotTo(r, y, at');
    assert acc' == s'[vector + ivar] - term && lowCoord == x[i];
    UpNext(s, vector, x, ivar, i, i', acc, acc', s', s'[vector + i := lowCoord][vector + ivar := acc']);
  }

  lemma LiftingStarts(s: Vec, s': Vec, equation: nat, ivar: nat, idim: nat, w: nat, low: nat, vector: nat)
    requires ivar <= idim && w == idim + 1 && equation + w <= |s| && low + idim <= |s| && vector + w <= |s|
    requires Apart(equation, w, vector, w) && Apart(low, idim, vector, w)
    requires s[equation + ivar] != 0.0 && s' == s[vector + ivar := 0.0]
    ensures Lifting(s, s', equation, ivar, idim, w, low, vector, 0, 0)
  {
  }

  lemma LiftingSkips(s: Vec, s': Vec, equation: nat, ivar: nat, idim: nat, w: nat, low: nat, vector: nat)
    requires Lifting(s, s', equation, ivar, idim, w, low, vector, ivar, ivar)
    ensures Lifting(s, s', equation, ivar, idim, w, low, vector, ivar + 1, ivar)
  {
  }

  /** The last step of vector_up: the accumulator divided by the eliminated coefficient. */
  method VectorUpLast(mem: array<real>, equation: nat, ivar: nat, idim: nat, w: nat, low: nat, vector: nat,
                      ghost s: Vec)
    requires Lifting(s, mem[..], equation, ivar, idim, w, low, vector, w, idim)
    modifies mem
    ensures OnlyWrites(s, mem[..], vector, vector + w)
    ensures Slice(mem[..], vector, w) == Up(Slice(s, equation, w), ivar, Slice(s, low, idim))
  {
    ghost var e, y, s' := Slice(s, equation, w), Slice(s, low, idim), mem[..];
    ghost var x, acc := Up(e, ivar, y), -DotTo(Drop(e, ivar), y, idim);
    UpRead(s, vector, x, ivar, w, acc, s', equation, w, ivar);
    UpAt(e, ivar, y, ivar);
    var top, pivot := mem[vector + ivar], mem[equation + ivar];
    assert top == acc && pivot == e[ivar];
    mem[vector + ivar] := top / pivot;
    assert mem[..] == s'[vector + ivar := x[ivar]];
    UpDone(s, vector, x, ivar, acc, s', mem[..]);
  }

  /** The second loop of vector_up. */
  method VectorUpAbove(mem: array<real>, equation: nat, ivar: nat, idim: nat, w: nat, low: nat, vector: nat,
                       ghost s: Vec)
    requires Lifting(s, mem[..], equation, ivar, idim, w, low, vector, ivar, ivar)
    modifies mem
    ensures Lifting(s, mem[..], equation, ivar, idim, w, low, vector, w, idim)
  {
    LiftingSkips(s, mem[..], equation, ivar, idim, w, low, vector);
    var i, at := ivar + 1, ivar;
    while i <= idim
      invariant ivar + 1 <= i <= w && at == i - 1
      invariant Lifting(s, mem[..], equation, ivar, idim, w, low, vector, i, at)
    {
      i, at := VectorUpAt(mem, equation, ivar, idim, w, low, vector, i, at, s);
    }
    assert i == w && at == idim;
  }

  /** vector_up: back substitution, with the eliminated coordinate accumulated in place. */
  method VectorUp(mem: array<real>, equation: nat, ivar: nat, idim: nat, w: nat, low: nat, vector: nat)
    requires ivar <= idim && w == idim + 1 && equation + w <= mem.Length && low + idim <= mem.Length
    requires vector + w <= mem.Length && mem[equation + ivar] != 0.0
    requires Apart(equation, w, vector, w) && Apart(low, idim, vector, w)
    modifies mem
    ensures OnlyWrites(old(mem[..]), mem[..], vector, vector + w)
    ensures Slice(mem[..], vector, w) ==
            Up(old(Slice(mem[..], equation, w)), ivar, old(Slice(mem[..], low, idim)))
  {
    ghost var s := mem[..];
    mem[vector + ivar] := 0.0;
    LiftingStarts(s, mem[..], equation, ivar, idim, w, low, vector);
    var i, at := 0, 0;
    while i < ivar
      invariant 0 <= i <= ivar && at == i
      invariant Lifting(s, mem[..], equation, ivar, idim, w, low, vector, i, at)
    {
      i, at := VectorUpAt(mem, equation, ivar, idim, w, low, vector, i, at, s);
    }
    VectorUpAbove(mem, equation, ivar, idim, w, low, vector, s);
    VectorUpLast(mem, equation, ivar, idim, w, low, vector, s);
  }

  lemma UpDone(s: Vec, off: nat, x: Vec, p: nat, acc: real, s': Vec, s'': Vec)
    requires UpWritten(s, off, x, p, |x|, acc, s') && s'' == s'[off + p := x[p]]
    ensures OnlyWrites(s, s'', off, off + |x|) && Slice(s'', off, |x|) == x
  {
    assert Wrote(s, off, x, |x|, s'');
    WroteAll(s, off, x, s'');
  }

  /** Cells before `i` hold the lifted point, except for the accumulator at `p`. */
  ghost predicate UpWritten(s: Vec, off: nat, x: Vec, p: nat, i: nat, acc: real, s': Vec) {
    && i <= |x| && p < |x| && off + |x| <= |s| == |s'|
    && s'[off + p] == acc
    && forall k | 0 <= k < |s| && k != off + p :: s'[k] == if off <= k < off + i then x[k - off] else s[k]
  }

  lemma UpRead(s: Vec, off: nat, x: Vec, p: nat, i: nat, acc: real, s': Vec, from: nat, len: nat, k: nat)
    requires UpWritten(s, off, x, p, i, acc, s') && k < len && from + len <= |s|
    requires Apart(from, len, off, |x|)
    ensures s'[from + k] == Slice(s, from, len)[k]
  {
  }

  lemma UpNext(s: Vec, off: nat, x: Vec, p: nat, i: nat, i': nat, acc: real, acc': real, s': Vec, s'': Vec)
    requires UpWritten(s, off, x, p, i, acc, s') && i < |x| && i != p && i' == i + 1
    requires s'' == s'[off + i := x[i]][off + p := acc']
    ensures UpWritten(s, off, x, p, i', acc', s'')
  {
  }

  lemma DotToNext(r: Vec, y: Vec, i: nat, i': nat, rk: real, yk: real)
    requires i < |r| && i < |y| && i' == i + 1 && rk == r[i] && yk == y[i]
    ensures DotTo(r, y, i') == DotTo(r, y, i) + rk * yk
  {
  }

  /** findimax: the first coefficient of largest absolute value. */
  method FindIMax(mem: array<real>, pln: nat, idim: nat) returns (imax: nat)
    requires pln + idim + 1 <= mem.Length
    ensures imax <= idim
    ensures forall k | pln <= k < pln + idim + 1 :: Abs(mem[k]) <= Abs(mem[pln + imax])
    ensures forall k | pln <= k < pln + imax :: Abs(mem[k]) < Abs(mem[pln + imax])
  {
    imax := 0;
    var rmax := Abs(mem[pln]);
    for i := 1 to idim + 1
      invariant imax < i && rmax == Abs(mem[pln + imax])
      invariant forall k | pln <= k < pln + i :: Abs(mem[k]) <= rmax
      invariant forall k | pln <= k < pln + imax :: Abs(mem[k]) < rmax
    {
      var ab := Abs(mem[pln + i]);
      if ab > rmax {
        imax := i;
        rmax := ab;
      }
    }
  }

  /** A plane that the point violates has a coefficient to eliminate. */
  lemma ViolatedHasPivot(e: Vec, o: Vec, imax: nat)
    requires |e| == |o| && imax < |e| && Dot(o, e) != 0.0
    requires forall k | 0 <= k < |e| :: Abs(e[k]) <= Abs(e[imax])
    ensures e[imax] != 0.0
  {
    if e[imax] == 0.0 {
      assert IsZero(e) by {
        forall k | 0 <= k < |e| ensures e[k] == 0.0 {
          assert Abs(e[k]) <= 0.0;
        }
      }
      DotZero(o, e);
    }
  }

  /** Multiplying a buffer by a factor in place. */
  method ScaleInPlace(mem: array<real>, a: nat, len: nat, factor: real)
    requires a + len <= mem.Length
    modifies mem
    ensures OnlyWrites(old(mem[..]), mem[..], a, a + len)
    ensures Slice(mem[..], a, len) == Scale(factor, old(Slice(mem[..], a, len)))
  {
    ghost var s, t := mem[..], Scale(factor, Slice(mem[..], a, len));
    for j := 0 to len
      invariant Wrote(s, a, t, j, mem[..])
    {
      ghost var s' := mem[..];
      assert mem[a + j] == s[a + j];
      assert mem[a + j] * factor == t[j];
      mem[a + j] := mem[a + j] * factor;
      assert mem[..] == s'[a + j := t[j]];
      WroteNext(s, a, t, j, s', mem[..]);
    }
    WroteAll(s, a, t, mem[..]);
  }

  /** The code in line for unit: a nonzero vector is multiplied by a positive factor. */
  method Unit(mem: array<real>, a: nat, len: nat) returns (zero: bool, ghost factor: real)
    requires a + len <= mem.Length
    modifies mem
    ensures zero <==> old(IsZero(Slice(mem[..], a, len)))
    ensures zero ==> mem[..] == old(mem[..])
    ensures !zero ==> factor > 0.0 && OnlyWrites(old(mem[..]), mem[..], a, a + len)
    ensures !zero ==> Slice(mem[..], a, len) == Scale(factor, old(Slice(mem[..], a, len)))
  {
    var size := DotAt(mem, a, a, len);
    NormSqDefinite(Slice(mem[..], a, len));
    if size == 0.0 {
      return true, 1.0;
    }
    var s := PositiveFactor(size);
    ScaleInPlace(mem, a, len, s);
    return false, s;
  }

  /** What lp_no_constraints computes before it normalises: the part of -n orthogonal to d. */
  ghost function Steepest(n: Vec, d: Vec): Vec
    requires |n| == |d|
  {
    if NormSq(d) == 0.0 then Scale(-1.0, n) else Combine(-1.0, n, Dot(n, d) / NormSq(d), d)
  }

  lemma SteepestAt(n: Vec, d: Vec, nd: real, dd: real, k: nat, nk: real, dk: real)
    requires |n| == |d| && k < |n| && dd != 0.0 && nk == n[k] && dk == d[k]
    requires if NormSq(d) == 0.0 then nd == 0.0 && dd == 1.0 else nd == Dot(n, d) && dd == NormSq(d)
    ensures Steepest(n, d)[k] == -nk + dk * nd / dd
  {
    if NormSq(d) == 0.0 {
    } else {
      assert Steepest(n, d)[k] == -1.0 * n[k] + (nd / dd) * d[k];
      QuotientProduct(d[k], nd, dd);
    }
  }

  lemma QuotientProduct(x: real, p: real, q: real)
    requires q != 0.0
    ensures x * p / q == (p / q) * x
  {
    var c := p / q;
    assert c * q == p;
    assert x * p == (c * x) * q;
  }

  lemma SteepestDots(n: Vec, d: Vec)
    requires |n| == |d|
    ensures Dot(d, Steepest(n, d)) == 0.0
    ensures Dot(n, Steepest(n, d)) <= 0.0
  {
    DotCommutes(n, d);
    NormSqDefinite(d);
    if NormSq(d) == 0.0 {
      DotZero(Steepest(n, d), d);
      DotScale(n, -1.0, n);
      NormSqDefinite(n);
    } else {
      var c := Dot(n, d) / NormSq(d);
      DotCombine(d, -1.0, n, c, d);
      DotCombine(n, -1.0, n, c, d);
      assert c * NormSq(d) == Dot(n, d);
      CauchySchwarz(n, d);
      QuotientBound(NormSq(n), NormSq(d), Dot(n, d), c);
    }
  }

  lemma QuotientBound(p: real, q: real, r: real, c: real)
    requires q > 0.0 && c * q == r && r * r <= p * q
    ensures c * r <= p
  {
    assert q * (p - c * r) == p * q - r * (c * q);
    NonNegativeFactor(q, p - c * r);
  }

  /** Without constraints the objective is least in that direction, at infinity. */
  lemma SteepestMinimal(n: Vec, d: Vec)
    requires |n| == |d|
    ensures Minimal(n, d, Steepest(n, d)) && Unconstrained(n, d, Steepest(n, d))
  {
    var o := Steepest(n, d);
    SteepestDots(n, d);
    forall x: Vec | |x| == |o| && Dot(d, x) > 0.0 ensures NoWorse(n, d, o, x) {
      NonNegativeProduct(-Dot(n, o), Dot(d, x), -Dot(n, o) * Dot(d, x));
      assert Dot(n, x) * Dot(d, o) == 0.0;
    }
  }

  /** If there is no such direction, the objective is constant and any point will do. */
  lemma ConstantObjective(n: Vec, d: Vec, o: Vec)
    requires |n| == |d| == |o| && IsZero(Steepest(n, d))
    ensures Minimal(n, d, o) && Unconstrained(n, d, o)
  {
    forall x: Vec, y: Vec | |x| == |y| == |o| ensures NoWorse(n, d, x, y) {
      NormSqDefinite(d);
      if NormSq(d) == 0.0 {
        DotZero(x, d);
        DotZero(y, d);
      } else {
        var c := Dot(n, d) / NormSq(d);
        forall k | 0 <= k < |n| ensures n[k] == c * d[k] {
          assert Steepest(n, d)[k] == -1.0 * n[k] + c * d[k];
        }
        var m := Scale(c, d);
        assert forall k | 0 <= k < |n| :: m[k] == n[k];
        assert n == m;
        DotScale(x, c, d);
        DotScale(y, c, d);
        DotCommutes(x, n);
        DotCommutes(y, n);
        DotCommutes(x, d);
        DotCommutes(y, d);
        assert c * Dot(d, x) * Dot(d, y) == c * Dot(d, y) * Dot(d, x);
      }
    }
  }

  lemma ScaledMinimal(n: Vec, d: Vec, s: real, o: Vec)
    requires s > 0.0 && |n| == |d| == |o| && Minimal(n, d, o) && Unconstrained(n, d, o)
    ensures Minimal(n, d, Scale(s, o)) && Unconstrained(n, d, Scale(s, o))
  {
    DotScale(d, s, o);
    forall x: Vec | |x| == |o| && Dot(d, x) > 0.0 ensures NoWorse(n, d, Scale(s, o), x) {
      assert NoWorse(n, d, o, x);
      ScaledNoWorse(n, d, s, o, x);
    }
  }

  /** The loop of lp_no_constraints. */
  method SteepestInto(mem: array<real>, d: nat, w: nat, nVec: nat, dVec: nat, opt: nat, nd: real, dd: real,
                      ghost n: Vec, ghost dv: Vec)
    requires w == d + 1 && nVec + w <= mem.Length && dVec + w <= mem.Length && opt + w <= mem.Length
    requires Apart(nVec, w, opt, w) && Apart(dVec, w, opt, w)
    requires n == Slice(mem[..], nVec, w) && dv == Slice(mem[..], dVec, w) && dd != 0.0
    requires if NormSq(dv) == 0.0 then nd == 0.0 && dd == 1.0 else nd == Dot(n, dv) && dd == NormSq(dv)
    modifies mem
    ensures OnlyWrites(old(mem[..]), mem[..], opt, opt + w)
    ensures Slice(mem[..], opt, w) == Steepest(n, dv)
  {
    ghost var s, target := mem[..], Steepest(n, dv);
    for i := 0 to w
      invariant Wrote(s, opt, target, i, mem[..])
    {
      ghost var s' := mem[..];
      ReadBeside(s, opt, target, i, s', nVec, w, i);
      ReadBeside(s, opt, target, i, s', dVec, w, i);
      var nCoord, dCoord := mem[nVec + i], mem[dVec + i];
      SteepestAt(n, dv, nd, dd, i, nCoord, dCoord);
      mem[opt + i] := -nCoord + dCoord * nd / dd;
      assert mem[..] == s'[opt + i := target[i]];
      WroteNext(s, opt, target, i, s', mem[..]);
    }
    WroteAll(s, opt, target, mem[..]);
  }

  /** lp_no_constraints. */
  method LpNoConstraints(mem: array<real>, d: nat, w: nat, nVec: nat, dVec: nat, opt: nat,
                         ghost n: Vec, ghost dv: Vec)
    returns (status: Status)
    requires w == d + 1 && nVec + w <= mem.Length && dVec + w <= mem.Length && opt + w <= mem.Length
    requires Apart(nVec, w, opt, w) && Apart(dVec, w, opt, w)
    requires n == Slice(mem[..], nVec, w) && dv == Slice(mem[..], dVec, w)
    modifies mem
    ensures OnlyWrites(old(mem[..]), mem[..], opt, opt + w)
    ensures !IsZero(Slice(mem[..], opt, w))
    ensures status == if IsZero(Steepest(n, dv)) then AMBIGUOUS else MINIMUM
    ensures Minimal(n, dv, Slice(mem[..], opt, w)) && Unconstrained(n, dv, Slice(mem[..], opt, w))
  {
    var nDotD := DotAt(mem, nVec, dVec, w);
    var dDotD := DotAt(mem, dVec, dVec, w);
    if dDotD == 0.0 {
      dDotD := 1.0;
      nDotD := 0.0;
    }
    SteepestInto(mem, d, w, nVec, dVec, opt, nDotD, dDotD, n, dv);
    var zero;
    ghost var factor;
    zero, factor := Unit(mem, opt, w);
    if zero {
      mem[opt + d] := 1.0;
      status := AMBIGUOUS;
      ghost var o := Slice(mem[..], opt, w);
      assert o[d] == 1.0;
      ConstantObjective(n, dv, o);
    } else {
      status := MINIMUM;
      SteepestMinimal(n, dv);
      ScaledMinimal(n, dv, factor, Steepest(n, dv));
      ScaledNonzero(factor, Steepest(n, dv));
    }
  }
}
