/**
 * The lwIP heap seen as a sequence of blocks (core/mem.c, heap variant).
 *
 * A layout lists the blocks in address order, each with its start offset, the offset of the
 * block behind it and its used flag. The functions here say what mem_free, mem_trim and
 * mem_malloc do to a layout; module Heap proves that the pointer code does exactly that.
 */
module HeapLayout {
  /** x is a multiple of n, said without division so that the solver need not reason about it. */
  ghost predicate OnGrid(x: nat, n: nat)
    requires n > 0
  {
    x == 0 || (n <= x && OnGrid(x - n, n))
  }

  lemma {:induction false} GridIsMod(x: nat, n: nat)
    requires n > 0
    ensures OnGrid(x, n) <==> x % n == 0
  {
    if x >= n {
      GridIsMod(x - n, n);
      ModMinus(x, n);
    }
  }

  lemma ModMinus(x: nat, n: nat)
    requires 0 < n <= x
    ensures (x - n) % n == x % n
  {
    var z: int := x / n - (x - n) / n - 1;
    assert (x - n) % n - x % n == n * z;
    assert z >= 1 ==> n * z >= n;
    assert z <= -1 ==> n * z <= -1 * n;
  }

  /** MEM_SIZE_ALIGNED, SIZEOF_STRUCT_MEM, MIN_SIZE_ALIGNED and MEM_ALIGNMENT. */
  datatype Config = Config(size: nat, hdr: nat, min: nat, align: nat) {
    ghost predicate Valid() {
      && 0 < align && 0 < hdr && 0 < min
      && OnGrid(size, align) && OnGrid(hdr, align) && OnGrid(min, align)
      && hdr + min <= size < SIZE_T_MOD
      && OnGrid(SIZE_T_MOD, align)
    }
  }

  /** mem_size_t is u32_t here, because MEM_SIZE exceeds 64000. */
  const SIZE_T_MOD: nat := 0x1_0000_0000

  datatype Block = Block(start: nat, end: nat, used: bool)
  type Layout = seq<Block>

  // ---------------------------------------------------------------- well-formedness

  /** Block i ends where block i + 1 starts. */
  ghost predicate Touches(L: Layout, i: int) {
    0 <= i < |L| - 1 ==> L[i].end == L[i + 1].start
  }

  /** Blocks i and i + 1 are not both free. */
  ghost predicate Apart(L: Layout, i: int) {
    0 <= i < |L| - 1 ==> L[i].used || L[i + 1].used
  }

  /** The blocks cover [0, size) without gap or overlap. */
  ghost predicate Tiles(c: Config, L: Layout) {
    && |L| > 0
    && L[0].start == 0
    && L[|L| - 1].end == c.size
    && forall i :: Touches(L, i)
  }

  /** Every block holds a header and at least the minimum of data. */
  ghost predicate Sized(c: Config, L: Layout) {
    forall i :: 0 <= i < |L| ==> L[i].start + c.hdr + c.min <= L[i].end
  }

  ghost predicate GridAt(c: Config, L: Layout, i: int)
    requires c.align > 0
  {
    0 <= i < |L| ==> OnGrid(L[i].start, c.align)
  }

  ghost predicate Aligned(c: Config, L: Layout)
    requires c.align > 0
  {
    forall i :: GridAt(c, L, i)
  }

  /** No two free blocks are neighbours. */
  ghost predicate Coalesced(L: Layout) {
    forall i :: Apart(L, i)
  }

  /** Everything but coalescing: what holds in the middle of mem_free. */
  ghost predicate Chained(c: Config, L: Layout) {
    Tiles(c, L) && Sized(c, L)
  }

  ghost predicate WellFormed(c: Config, L: Layout) {
    Chained(c, L) && Coalesced(L)
  }

  /** Blocks are ordered and disjoint, not just next to each other. */
  lemma {:induction false} Ordered(c: Config, L: Layout, i: nat, j: nat)
    requires Tiles(c, L) && Sized(c, L)
    requires i < j < |L|
    ensures L[i].end <= L[j].start
    decreases j
  {
    assert Touches(L, j - 1);
    if i + 1 < j {
      Ordered(c, L, i, j - 1);
    }
  }

  lemma OrderedAll(c: Config, L: Layout)
    requires Tiles(c, L) && Sized(c, L)
    ensures forall i, j :: 0 <= i < j < |L| ==> L[i].end <= L[j].start
    ensures forall i :: 0 <= i < |L| ==> L[i].end <= c.size
  {
    forall i, j | 0 <= i < j < |L| ensures L[i].end <= L[j].start {
      Ordered(c, L, i, j);
    }
    forall i | 0 <= i < |L| ensures L[i].end <= c.size {
      if i < |L| - 1 { Ordered(c, L, i, |L| - 1); }
    }
  }

  // ---------------------------------------------------------------- operations

  /** The layout after mem_init. */
  function InitLayout(c: Config): Layout {
    [Block(0, c.size, false)]
  }

  /** Block i swallows the block behind it. */
  function JoinNext(L: Layout, i: nat): Layout
    requires i + 1 < |L|
  {
    L[..i] + [L[i].(end := L[i + 1].end)] + L[i + 2..]
  }

  /** plug_holes: join a free block with a free successor, then with a free predecessor. */
  function PlugForward(L: Layout, i: nat): (r: Layout)
    requires i < |L|
    ensures i < |r| && r[i].start == L[i].start && r[i].used == L[i].used
    ensures r[..i] == L[..i]
  {
    if i + 1 < |L| && !L[i + 1].used then JoinNext(L, i) else L
  }

  function PlugBackward(L: Layout, i: nat): Layout
    requires i < |L|
  {
    if i > 0 && !L[i - 1].used then JoinNext(L, i - 1) else L
  }

  function PlugHoles(L: Layout, i: nat): Layout
    requires i < |L|
  {
    PlugBackward(PlugForward(L, i), i)
  }

  function MarkFree(L: Layout, i: nat): Layout
    requires i < |L|
  {
    L[i := L[i].(used := false)]
  }

  function FreeAt(L: Layout, i: nat): Layout
    requires i < |L|
  {
    PlugHoles(MarkFree(L, i), i)
  }

  /** Cut block i at offset p: the front part is used, the rest free. */
  function SplitAt(L: Layout, i: nat, p: nat): Layout
    requires i < |L|
  {
    L[..i] + [Block(L[i].start, p, true), Block(p, L[i].end, false)] + L[i + 1..]
  }

  /** Move the border between block i and the block behind it to offset p. */
  function MoveBorder(L: Layout, i: nat, p: nat): Layout
    requires i + 1 < |L|
  {
    L[i := L[i].(end := p)][i + 1 := L[i + 1].(start := p)]
  }

  function DataSize(c: Config, b: Block): int {
    b.end - b.start - c.hdr
  }

  function TrimAt(c: Config, L: Layout, i: nat, newsize: nat): Layout
    requires i < |L|
  {
    var p := L[i].start + c.hdr + newsize;
    if newsize >= DataSize(c, L[i]) then L
    else if i + 1 < |L| && !L[i + 1].used then MoveBorder(L, i, p)
    else if newsize + c.hdr + c.min <= DataSize(c, L[i]) then SplitAt(L, i, p)
    else L
  }

  predicate Fits(c: Config, b: Block, size: nat) {
    !b.used && DataSize(c, b) >= size
  }

  function AllocAt(c: Config, L: Layout, i: nat, size: nat): Layout
    requires i < |L|
  {
    if DataSize(c, L[i]) >= size + c.hdr + c.min
    then SplitAt(L, i, L[i].start + c.hdr + size)
    else L[i := L[i].(used := true)]
  }

  /** First-fit over the whole heap: the reference that the scan from lfree has to agree with. */
  function FirstFit(c: Config, L: Layout, size: nat): (r: nat)
    ensures r <= |L|
    ensures r < |L| ==> Fits(c, L[r], size)
    ensures forall i :: 0 <= i < r ==> !Fits(c, L[i], size)
  {
    if L == [] then 0
    else if Fits(c, L[0], size) then 0
    else 1 + FirstFit(c, L[1..], size)
  }

  /** Index of the lowest free block, or |L|. */
  function FirstFree(L: Layout): (r: nat)
    ensures r <= |L|
    ensures r < |L| ==> !L[r].used
    ensures forall i :: 0 <= i < r ==> L[i].used
  {
    if L == [] then 0
    else if !L[0].used then 0
    else 1 + FirstFree(L[1..])
  }

  /** Offset of block k, with ram_end standing behind the last block. */
  function StartOf(c: Config, L: Layout, k: nat): nat
    requires k <= |L|
  {
    if k < |L| then L[k].start else c.size
  }

  /** Where lfree has to point: the lowest free block or ram_end. */
  function Lowest(c: Config, L: Layout): nat {
    StartOf(c, L, FirstFree(L))
  }

  lemma LowestIs(c: Config, L: Layout, k: nat)
    requires k <= |L|
    requires k < |L| ==> !L[k].used
    requires forall i :: 0 <= i < k ==> L[i].used
    ensures Lowest(c, L) == StartOf(c, L, k)
  {
    var f := FirstFree(L);
    assert !(f < k) && !(k < f);
  }

  // ---------------------------------------------------------------- preservation

  lemma {:induction false} GridAdd(a: nat, b: nat, n: nat)
    requires n > 0 && OnGrid(a, n) && OnGrid(b, n)
    ensures OnGrid(a + b, n)
  {
    if a > 0 {
      GridAdd(a - n, b, n);
      assert a + b - n == a - n + b;
    }
  }

  /** Where block k of the joined layout comes from. */
  lemma JoinBlock(L: Layout, i: nat, k: nat)
    requires i + 1 < |L| && k < |L| - 1
    ensures |JoinNext(L, i)| == |L| - 1
    ensures JoinNext(L, i)[k] ==
            if k < i then L[k] else if k == i then Block(L[i].start, L[i + 1].end, L[i].used) else L[k + 1]
  {
  }

  lemma JoinChained(c: Config, L: Layout, i: nat)
    requires Chained(c, L) && i + 1 < |L|
    ensures Chained(c, JoinNext(L, i))
  {
    var M := JoinNext(L, i);
    JoinBlock(L, i, 0);
    JoinBlock(L, i, |M| - 1);
    assert Touches(L, i);
    forall k | 0 <= k < |M| ensures M[k].start + c.hdr + c.min <= M[k].end {
      JoinBlock(L, i, k);
    }
    forall k ensures Touches(M, k) {
      if 0 <= k < |M| - 1 {
        JoinBlock(L, i, k);
        JoinBlock(L, i, k + 1);
        assert Touches(L, k) && Touches(L, k + 1);
      }
    }
  }

  lemma SplitBlock(L: Layout, i: nat, p: nat, k: nat)
    requires i < |L| && k <= |L|
    ensures |SplitAt(L, i, p)| == |L| + 1
    ensures SplitAt(L, i, p)[k] ==
            if k < i then L[k] else if k == i then Block(L[i].start, p, true)
            else if k == i + 1 then Block(p, L[i].end, false) else L[k - 1]
  {
  }

  lemma SplitChained(c: Config, L: Layout, i: nat, p: nat)
    requires Chained(c, L) && i < |L|
    requires L[i].start + c.hdr + c.min <= p && p + c.hdr + c.min <= L[i].end
    ensures Chained(c, SplitAt(L, i, p))
  {
    var M := SplitAt(L, i, p);
    SplitBlock(L, i, p, 0);
    SplitBlock(L, i, p, |L|);
    forall k | 0 <= k < |M| ensures M[k].start + c.hdr + c.min <= M[k].end {
      SplitBlock(L, i, p, k);
    }
    forall k ensures Touches(M, k) {
      if 0 <= k < |M| - 1 {
        SplitBlock(L, i, p, k);
        SplitBlock(L, i, p, k + 1);
        assert Touches(L, k) && Touches(L, k - 1);
      }
    }
  }

  lemma MoveChained(c: Config, L: Layout, i: nat, p: nat)
    requires Chained(c, L) && i + 1 < |L|
    requires L[i].start + c.hdr + c.min <= p <= L[i].end
    ensures Chained(c, MoveBorder(L, i, p))
  {
    assert Touches(L, i);
    forall k ensures Touches(MoveBorder(L, i, p), k) {
      assert Touches(L, k);
    }
  }

  lemma InitWellFormed(c: Config)
    requires c.Valid()
    ensures WellFormed(c, InitLayout(c)) && Aligned(c, InitLayout(c))
    ensures Lowest(c, InitLayout(c)) == 0
  {
  }

  /** Neighbouring free blocks occur at most around block i: the state plug_holes is called in. */
  ghost predicate CoalescedExcept(L: Layout, lo: int, hi: int) {
    forall i :: lo <= i <= hi || Apart(L, i)
  }

  lemma PlugForwardOk(c: Config, L: Layout, i: nat)
    requires Chained(c, L) && i < |L| && !L[i].used && CoalescedExcept(L, i - 1, i)
    ensures var M := PlugForward(L, i); Chained(c, M) && !M[i].used && CoalescedExcept(M, i - 1, i - 1)
  {
    var M := PlugForward(L, i);
    if i + 1 < |L| && !L[i + 1].used {
      JoinChained(c, L, i);
      forall k | k != i - 1 ensures Apart(M, k) {
        if 0 <= k < |M| - 1 {
          JoinBlock(L, i, k);
          JoinBlock(L, i, k + 1);
          assert if k < i then Apart(L, k) else Apart(L, k + 1);
        }
      }
    } else {
      assert Apart(L, i);
    }
  }

  lemma PlugBackwardOk(c: Config, M: Layout, i: nat)
    requires Chained(c, M) && i < |M| && !M[i].used && CoalescedExcept(M, i - 1, i - 1)
    ensures WellFormed(c, PlugBackward(M, i))
  {
    var N := PlugBackward(M, i);
    if i > 0 && !M[i - 1].used {
      JoinChained(c, M, i - 1);
      forall k ensures Apart(N, k) {
        if 0 <= k < |N| - 1 {
          JoinBlock(M, i - 1, k);
          JoinBlock(M, i - 1, k + 1);
          assert if k < i - 1 then Apart(M, k) else Apart(M, k + 1);
        }
      }
    } else {
      assert Apart(M, i - 1);
    }
  }

  lemma MarkChained(c: Config, L: Layout, i: nat)
    requires Chained(c, L) && i < |L|
    ensures Chained(c, MarkFree(L, i))
  {
    forall k ensures Touches(MarkFree(L, i), k) {
      assert Touches(L, k);
    }
  }

  /** mem_free keeps the heap well formed. */
  lemma FreeWellFormed(c: Config, L: Layout, i: nat)
    requires WellFormed(c, L) && i < |L|
    ensures WellFormed(c, FreeAt(L, i))
  {
    MarkChained(c, L, i);
    assert CoalescedExcept(MarkFree(L, i), i - 1, i) by {
      forall k | !(i - 1 <= k <= i) ensures Apart(MarkFree(L, i), k) {
        assert Apart(L, k);
      }
    }
    PlugForwardOk(c, MarkFree(L, i), i);
    PlugBackwardOk(c, PlugForward(MarkFree(L, i), i), i);
  }

  lemma SplitCoalesced(L: Layout, i: nat, p: nat)
    requires Coalesced(L) && i < |L|
    requires i + 1 < |L| ==> L[i + 1].used
    ensures Coalesced(SplitAt(L, i, p))
  {
    var M := SplitAt(L, i, p);
    forall k ensures Apart(M, k) {
      if 0 <= k < |M| - 1 {
        SplitBlock(L, i, p, k);
        SplitBlock(L, i, p, k + 1);
        assert Apart(L, k) && Apart(L, k - 1);
      }
    }
  }

  lemma SplitWellFormed(c: Config, L: Layout, i: nat, p: nat)
    requires WellFormed(c, L) && i < |L|
    requires i + 1 < |L| ==> L[i + 1].used
    requires L[i].start + c.hdr + c.min <= p && p + c.hdr + c.min <= L[i].end
    ensures WellFormed(c, SplitAt(L, i, p))
  {
    SplitChained(c, L, i, p);
    SplitCoalesced(L, i, p);
  }

  lemma MoveWellFormed(c: Config, L: Layout, i: nat, p: nat)
    requires WellFormed(c, L) && i + 1 < |L|
    requires L[i].start + c.hdr + c.min <= p <= L[i].end
    ensures WellFormed(c, MoveBorder(L, i, p))
  {
    MoveChained(c, L, i, p);
    forall k ensures Apart(MoveBorder(L, i, p), k) {
      assert Apart(L, k);
    }
  }

  /** mem_trim keeps the heap well formed, for every new size of at least the minimum. */
  lemma TrimWellFormed(c: Config, L: Layout, i: nat, newsize: nat)
    requires WellFormed(c, L) && i < |L| && L[i].used
    requires c.min <= newsize
    ensures WellFormed(c, TrimAt(c, L, i, newsize))
  {
    var p := L[i].start + c.hdr + newsize;
    if newsize >= DataSize(c, L[i]) {
    } else if i + 1 < |L| && !L[i + 1].used {
      MoveWellFormed(c, L, i, p);
    } else if newsize + c.hdr + c.min <= DataSize(c, L[i]) {
      SplitWellFormed(c, L, i, p);
    }
  }

  lemma MarkUsedWellFormed(c: Config, L: Layout, i: nat)
    requires WellFormed(c, L) && i < |L|
    ensures WellFormed(c, L[i := L[i].(used := true)])
  {
    var M := L[i := L[i].(used := true)];
    forall k ensures Touches(M, k) && Apart(M, k) {
      assert Touches(L, k) && Apart(L, k);
    }
  }

  /** mem_malloc keeps the heap well formed. */
  lemma AllocWellFormed(c: Config, L: Layout, i: nat, size: nat)
    requires WellFormed(c, L) && i < |L| && Fits(c, L[i], size)
    requires c.min <= size
    ensures WellFormed(c, AllocAt(c, L, i, size))
  {
    if DataSize(c, L[i]) >= size + c.hdr + c.min {
      var p := L[i].start + c.hdr + size;
      assert Apart(L, i);
      SplitWellFormed(c, L, i, p);
    } else {
      MarkUsedWellFormed(c, L, i);
    }
  }

  // ---------------------------------------------------------------- alignment

  /** Every block start of M is a block start of L or the offset p. */
  ghost predicate StartsFrom(M: Layout, L: Layout, p: nat) {
    forall k :: 0 <= k < |M| ==> M[k].start == p || exists j :: 0 <= j < |L| && L[j].start == M[k].start
  }

  lemma AlignedFrom(c: Config, M: Layout, L: Layout, p: nat)
    requires c.align > 0 && Aligned(c, L) && StartsFrom(M, L, p) && OnGrid(p, c.align)
    ensures Aligned(c, M)
  {
    forall k ensures GridAt(c, M, k) {
      if 0 <= k < |M| && M[k].start != p {
        var j :| 0 <= j < |L| && L[j].start == M[k].start;
        assert GridAt(c, L, j);
      }
    }
  }

  lemma JoinStarts(L: Layout, i: nat)
    requires i + 1 < |L|
    ensures StartsFrom(JoinNext(L, i), L, 0)
  {
    var M := JoinNext(L, i);
    forall k | 0 <= k < |M| ensures exists j :: 0 <= j < |L| && L[j].start == M[k].start {
      assert M[k].start == L[if k <= i then k else k + 1].start;
    }
  }

  lemma SplitStarts(L: Layout, i: nat, p: nat)
    requires i < |L|
    ensures StartsFrom(SplitAt(L, i, p), L, p)
  {
    var M := SplitAt(L, i, p);
    forall k | 0 <= k < |M| && k != i + 1 ensures exists j :: 0 <= j < |L| && L[j].start == M[k].start {
      assert M[k].start == L[if k <= i then k else k - 1].start;
    }
  }

  lemma FreeAligned(c: Config, L: Layout, i: nat)
    requires c.align > 0 && Aligned(c, L) && i < |L|
    ensures Aligned(c, FreeAt(L, i))
  {
    var M := MarkFree(L, i);
    forall k ensures GridAt(c, M, k) {
      assert GridAt(c, L, k);
    }
    var N := PlugForward(M, i);
    if i + 1 < |M| && !M[i + 1].used {
      JoinStarts(M, i);
      AlignedFrom(c, N, M, 0);
    }
    if i > 0 && !N[i - 1].used {
      JoinStarts(N, i - 1);
      AlignedFrom(c, FreeAt(L, i), N, 0);
    }
  }

  lemma TrimAligned(c: Config, L: Layout, i: nat, newsize: nat)
    requires c.Valid() && Aligned(c, L) && i < |L| && OnGrid(newsize, c.align)
    ensures Aligned(c, TrimAt(c, L, i, newsize))
  {
    var p := L[i].start + c.hdr + newsize;
    var M := TrimAt(c, L, i, newsize);
    CutAligned(c, L, i, newsize);
    if i + 1 < |L| && M == MoveBorder(L, i, p) {
      forall k ensures GridAt(c, M, k) {
        assert GridAt(c, L, k);
      }
    }
  }

  /** The header of a split-off remainder is aligned. */
  lemma CutAligned(c: Config, L: Layout, i: nat, size: nat)
    requires c.Valid() && Aligned(c, L) && i < |L| && OnGrid(size, c.align)
    ensures OnGrid(L[i].start + c.hdr + size, c.align)
    ensures Aligned(c, SplitAt(L, i, L[i].start + c.hdr + size))
  {
    var p := L[i].start + c.hdr + size;
    assert GridAt(c, L, i);
    GridAdd(L[i].start, c.hdr, c.align);
    GridAdd(L[i].start + c.hdr, size, c.align);
    SplitStarts(L, i, p);
    AlignedFrom(c, SplitAt(L, i, p), L, p);
  }

  lemma AllocAligned(c: Config, L: Layout, i: nat, size: nat)
    requires c.Valid() && Aligned(c, L) && i < |L| && OnGrid(size, c.align)
    ensures Aligned(c, AllocAt(c, L, i, size))
  {
    CutAligned(c, L, i, size);
    var M := L[i := L[i].(used := true)];
    forall k ensures GridAt(c, M, k) {
      assert GridAt(c, L, k);
    }
  }
}
