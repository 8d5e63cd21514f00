/** The C routines work on buffers given by pointers, and carve the buffers of a recursive call out
    of one work area. Here all buffers lie in one array, and a pointer is an offset into it. */
module Store {
  import opened Vectors

  ghost function Slice(s: Vec, off: nat, len: nat): (r: Vec)
    requires off + len <= |s|
    ensures |r| == len
  {
    s[off..off + len]
  }

  /** The cells that `rows` rows of `width` cells take up. */
  function Cells(rows: nat, width: nat): nat {
    if rows == 0 then 0 else Cells(rows - 1, width) + width
  }

  /** The product that the sources write, see RowPointer. */
  lemma {:induction false} CellsIsProduct(rows: nat, width: nat)
    ensures Cells(rows, width) == rows * width
  {
    if rows > 0 {
      CellsIsProduct(rows - 1, width);
      assert rows * width == (rows - 1) * width + width;
    }
  }

  /** Pointer arithmetic: base + i*width. */
  method RowPointer(base: nat, i: nat, width: nat) returns (p: nat)
    ensures p == base + Cells(i, width)
  {
    CellsIsProduct(i, width);
    p := base + i * width;
  }

  /** Different rows do not overlap. */
  lemma {:induction false} RowsApart(i: nat, j: nat, w: nat)
    requires i < j
    ensures Cells(i, w) + w <= Cells(j, w)
  {
    if i < j - 1 {
      RowsApart(i, j - 1, w);
    }
  }

  /** Row `j` of the matrix with `max` rows of width `w` stored from `base` on. */
  ghost function Row(s: Vec, base: nat, w: nat, max: nat, j: nat): (r: Vec)
    requires j < max && base + Cells(max, w) <= |s|
    ensures |r| == w
  {
    RowsApart(j, max, w);
    s[base + Cells(j, w)..base + Cells(j, w) + w]
  }

  ghost function Rows(s: Vec, base: nat, w: nat, max: nat): (r: seq<Vec>)
    requires base + Cells(max, w) <= |s|
    ensures |r| == max && forall j | 0 <= j < max :: |r[j]| == w
  {
    seq(max, j requires 0 <= j < max => Row(s, base, w, max, j))
  }

  /** Only cells from `lo` up to `hi` may differ. */
  ghost predicate OnlyWrites(before: Vec, after: Vec, lo: nat, hi: nat) {
    |before| == |after| && forall k | 0 <= k < |before| && !(lo <= k < hi) :: after[k] == before[k]
  }

  ghost predicate Apart(a: nat, la: nat, b: nat, lb: nat) {
    a + la <= b || b + lb <= a
  }

  /** `s'` is `s` with the first `i` cells from `off` on overwritten by those of `t`. */
  ghost predicate Wrote(s: Vec, off: nat, t: Vec, i: nat, s': Vec) {
    && i <= |t| && off + |t| <= |s| == |s'|
    && forall k | 0 <= k < |s| :: s'[k] == if off <= k < off + i then t[k - off] else s[k]
  }

  lemma WroteNext(s: Vec, off: nat, t: Vec, i: nat, s': Vec, s'': Vec)
    requires Wrote(s, off, t, i, s') && i < |t| && s'' == s'[off + i := t[i]]
    ensures Wrote(s, off, t, i + 1, s'')
  {
  }

  lemma WroteAll(s: Vec, off: nat, t: Vec, s': Vec)
    requires Wrote(s, off, t, |t|, s')
    ensures OnlyWrites(s, s', off, off + |t|)
    ensures Slice(s', off, |t|) == t
  {
  }

  lemma ReadBeside(s: Vec, off: nat, t: Vec, i: nat, s': Vec, from: nat, len: nat, k: nat)
    requires Wrote(s, off, t, i, s') && k < len && from + len <= |s|
    requires Apart(from, len, off, |t|)
    ensures s'[from + k] == Slice(s, from, len)[k]
  {
  }

  lemma SliceKept(before: Vec, after: Vec, lo: nat, hi: nat, off: nat, len: nat)
    requires OnlyWrites(before, after, lo, hi) && off + len <= |before|
    requires off + len <= lo || hi <= off
    ensures Slice(after, off, len) == Slice(before, off, len)
  {
  }

  lemma RowsKept(before: Vec, after: Vec, lo: nat, hi: nat, base: nat, w: nat, max: nat)
    requires OnlyWrites(before, after, lo, hi) && base + Cells(max, w) <= |before|
    requires base + Cells(max, w) <= lo || hi <= base
    ensures Rows(after, base, w, max) == Rows(before, base, w, max)
  {
    forall j | 0 <= j < max ensures Row(after, base, w, max, j) == Row(before, base, w, max, j) {
      RowsApart(j, max, w);
    }
  }

  /** val = sum of a[j]*b[j], the loop that linprog.c writes out wherever it needs a dot product. */
  method DotAt(mem: array<real>, a: nat, b: nat, len: nat) returns (val: real)
    requires a + len <= mem.Length && b + len <= mem.Length
    ensures val == Dot(Slice(mem[..], a, len), Slice(mem[..], b, len))
  {
    val := 0.0;
    ghost var va, vb := Slice(mem[..], a, len), Slice(mem[..], b, len);
    for j := 0 to len
      invariant val == DotTo(va, vb, j)
    {
      val := val + mem[a + j] * mem[b + j];
    }
  }
}
