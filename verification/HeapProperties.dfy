/**
 * What the layout operations of HeapLayout promise together: where the lowest free block is,
 * which blocks survive, how many bytes are in use, and what whole runs leave behind.
 */
module HeapProperties {
  import opened Basics
  import opened Wrappers
  import opened HeapLayout

  // ---------------------------------------------------------------- shape of a freed layout

  /** FreeAt replaces blocks lo..hi by one free block. */
  lemma FreeShape(L: Layout, i: nat) returns (lo: nat, hi: nat)
    requires i < |L|
    ensures lo == (if i > 0 && !L[i - 1].used then i - 1 else i)
    ensures hi == (if i + 1 < |L| && !L[i + 1].used then i + 1 else i)
    ensures FreeAt(L, i) == L[..lo] + [Block(L[lo].start, L[hi].end, false)] + L[hi + 1..]
  {
    lo := if i > 0 && !L[i - 1].used then i - 1 else i;
    hi := if i + 1 < |L| && !L[i + 1].used then i + 1 else i;
    var M := MarkFree(L, i);
    var N := PlugForward(M, i);
    assert N == L[..i] + [Block(L[i].start, L[hi].end, false)] + L[hi + 1..];
    if lo < i {
      assert N[lo] == L[lo] && N[i].end == L[hi].end;
      assert N[i + 1..] == L[hi + 1..];
      assert N[..lo] == L[..lo];
    }
  }

  /** Freeing moves the lowest free offset down to the freed block, or leaves it. */
  lemma FreeLowest(c: Config, L: Layout, i: nat)
    requires WellFormed(c, L) && i < |L| && L[i].used
    ensures Lowest(c, FreeAt(L, i)) == Least(L[i].start, Lowest(c, L))
  {
    var f := FirstFree(L);
    var lo, hi := FreeShape(L, i);
    var M := FreeAt(L, i);
    if i < f {
      if f < |L| { Ordered(c, L, i, f); } else { OrderedAll(c, L); }
      assert M[i].start == L[i].start && !M[i].used;
      LowestIs(c, M, i);
    } else {
      Ordered(c, L, f, i);
      assert f <= lo;
      assert M[f].start == L[f].start && !M[f].used;
      LowestIs(c, M, f);
    }
  }

  /** Lowest is below every free block and never the start of a used one. */
  lemma LowestBounds(c: Config, L: Layout, k: nat)
    requires WellFormed(c, L) && 0 < c.hdr && k < |L|
    ensures !L[k].used ==> Lowest(c, L) <= L[k].start
    ensures L[k].used ==> Lowest(c, L) != L[k].start
  {
    OrderedAll(c, L);
  }

  /** mem->next is the end of the heap exactly for the last block. */
  lemma NextIsEnd(c: Config, L: Layout, i: nat)
    requires Chained(c, L) && 0 < c.hdr && i < |L|
    ensures L[i].end == c.size <==> i == |L| - 1
  {
    OrderedAll(c, L);
  }

  /** mem_trim cuts it there when a block that takes the whole heap is trimmed. */
  lemma LastBlockTrimmed(c: Config, newsize: nat)
    requires 0 < c.hdr && 0 < c.min <= newsize && newsize + 2 * c.hdr + c.min <= c.size
    ensures var L := AllocAt(c, InitLayout(c), FirstFit(c, InitLayout(c), c.size - c.hdr), c.size - c.hdr);
            && L[0].used && L[0].end == c.size
            && TrimAt(c, L, 0, newsize) == SplitAt(L, 0, c.hdr + newsize)
  {
  }

  lemma TrimLowest(c: Config, L: Layout, i: nat, newsize: nat)
    requires WellFormed(c, L) && i < |L| && L[i].used && newsize < DataSize(c, L[i])
    ensures var p := L[i].start + c.hdr + newsize;
            Lowest(c, TrimAt(c, L, i, newsize)) ==
            if i + 1 < |L| && !L[i + 1].used then (if Lowest(c, L) == L[i + 1].start then p else Lowest(c, L))
            else if newsize + c.hdr + c.min <= DataSize(c, L[i]) then Least(p, Lowest(c, L))
            else Lowest(c, L)
  {
    var f := FirstFree(L);
    var p := L[i].start + c.hdr + newsize;
    var M := TrimAt(c, L, i, newsize);
    OrderedAll(c, L);
    if i + 1 < |L| && !L[i + 1].used {
      LowestIs(c, M, f);
    } else if newsize + c.hdr + c.min <= DataSize(c, L[i]) {
      if i < f {
        SplitBlock(L, i, p, i + 1);
        forall k | 0 <= k <= i ensures M[k].used { SplitBlock(L, i, p, k); }
        LowestIs(c, M, i + 1);
      } else {
        SplitBlock(L, i, p, f);
        forall k | 0 <= k < f ensures M[k].used { SplitBlock(L, i, p, k); }
        LowestIs(c, M, f);
      }
    }
  }

  // ---------------------------------------------------------------- conservation

  function Extent(b: Block): int { b.end - b.start }

  /** Bytes, headers included, in the used blocks among the first n. */
  function UsedUpTo(L: Layout, n: nat): int
    requires n <= |L|
  {
    if n == 0 then 0 else UsedUpTo(L, n - 1) + (if L[n - 1].used then Extent(L[n - 1]) else 0)
  }

  function FreeUpTo(L: Layout, n: nat): int
    requires n <= |L|
  {
    if n == 0 then 0 else FreeUpTo(L, n - 1) + (if L[n - 1].used then 0 else Extent(L[n - 1]))
  }

  /** Bytes held by used blocks: what the `used` statistic should say. */
  function UsedBytes(L: Layout): int { UsedUpTo(L, |L|) }

  function FreeBytes(L: Layout): int { FreeUpTo(L, |L|) }

  lemma {:induction false} UsedSuffix(A: Layout, B: Layout, AB: Layout, n: nat)
    requires n <= |B| && AB == A + B
    ensures UsedUpTo(AB, |A| + n) == UsedUpTo(A, |A|) + UsedUpTo(B, n)
  {
    if n == 0 {
      UsedPrefix(A, AB, |A|);
    } else {
      UsedSuffix(A, B, AB, n - 1);
    }
  }

  lemma {:induction false} UsedPrefix(A: Layout, B: Layout, n: nat)
    requires n <= |A| && n <= |B| && forall k :: 0 <= k < n ==> A[k] == B[k]
    ensures UsedUpTo(A, n) == UsedUpTo(B, n)
  {
    if n > 0 { UsedPrefix(A, B, n - 1); }
  }

  lemma UsedConcat(A: Layout, B: Layout)
    ensures UsedBytes(A + B) == UsedBytes(A) + UsedBytes(B)
  {
    UsedSuffix(A, B, A + B, |B|);
  }

  lemma UsedThree(A: Layout, M: Layout, B: Layout)
    ensures UsedBytes(A + M + B) == UsedBytes(A) + UsedBytes(M) + UsedBytes(B)
  {
    UsedConcat(A + M, B);
    UsedConcat(A, M);
  }

  lemma UsedSingle(b: Block)
    ensures UsedBytes([b]) == if b.used then Extent(b) else 0
  {
    assert UsedUpTo([b], 0) == 0;
  }

  lemma UsedPair(a: Block, b: Block)
    ensures UsedBytes([a, b]) == UsedBytes([a]) + UsedBytes([b])
  {
    UsedConcat([a], [b]);
    assert [a] + [b] == [a, b];
  }

  /** Replacing block i changes the sum by the difference. */
  lemma UsedReplace(L: Layout, i: nat, mid: Layout)
    requires i < |L|
    ensures UsedBytes(L[..i] + mid + L[i + 1..]) == UsedBytes(L) - UsedBytes([L[i]]) + UsedBytes(mid)
  {
    UsedThree(L[..i], mid, L[i + 1..]);
    assert L == L[..i] + [L[i]] + L[i + 1..];
    UsedThree(L[..i], [L[i]], L[i + 1..]);
  }

  lemma UsedUpdate(L: Layout, i: nat, b: Block)
    requires i < |L|
    ensures UsedBytes(L[i := b]) == UsedBytes(L) - UsedBytes([L[i]]) + UsedBytes([b])
  {
    assert L[i := b] == L[..i] + [b] + L[i + 1..];
    UsedReplace(L, i, [b]);
  }

  lemma JoinUsed(L: Layout, i: nat)
    requires i + 1 < |L| && !L[i].used && !L[i + 1].used
    ensures UsedBytes(JoinNext(L, i)) == UsedBytes(L)
  {
    var b := L[i].(end := L[i + 1].end);
    UsedThree(L[..i], [b], L[i + 2..]);
    assert L == L[..i] + [L[i], L[i + 1]] + L[i + 2..];
    UsedThree(L[..i], [L[i], L[i + 1]], L[i + 2..]);
    UsedPair(L[i], L[i + 1]);
    UsedSingle(L[i]);
    UsedSingle(L[i + 1]);
    UsedSingle(b);
  }

  lemma FreeUsed(L: Layout, i: nat)
    requires i < |L| && L[i].used
    ensures UsedBytes(FreeAt(L, i)) == UsedBytes(L) - Extent(L[i])
  {
    var M := MarkFree(L, i);
    UsedUpdate(L, i, L[i].(used := false));
    UsedSingle(L[i]);
    UsedSingle(L[i].(used := false));
    var N := PlugForward(M, i);
    if i + 1 < |M| && !M[i + 1].used {
      JoinUsed(M, i);
    }
    if i > 0 && !N[i - 1].used {
      JoinUsed(N, i - 1);
    }
  }

  lemma UsedCut(a: nat, p: nat, b: nat)
    ensures UsedBytes([Block(a, p, true), Block(p, b, false)]) == p - a
  {
    UsedPair(Block(a, p, true), Block(p, b, false));
    UsedSingle(Block(a, p, true));
    UsedSingle(Block(p, b, false));
  }

  lemma SplitUsed(L: Layout, i: nat, p: nat)
    requires i < |L|
    ensures UsedBytes(SplitAt(L, i, p)) == UsedBytes(L) - UsedBytes([L[i]]) + (p - L[i].start)
  {
    UsedReplace(L, i, [Block(L[i].start, p, true), Block(p, L[i].end, false)]);
    UsedCut(L[i].start, p, L[i].end);
  }

  lemma MoveUsed(L: Layout, i: nat, p: nat)
    requires i + 1 < |L| && L[i].used && !L[i + 1].used
    ensures UsedBytes(MoveBorder(L, i, p)) == UsedBytes(L) - (L[i].end - p)
  {
    var a, b := L[i].(end := p), L[i + 1].(start := p);
    var M := L[i := a];
    UsedUpdate(L, i, a);
    UsedUpdate(M, i + 1, b);
    UsedSingle(L[i]);
    UsedSingle(a);
    UsedSingle(b);
    UsedSingle(M[i + 1]);
  }

  predicate TrimChanges(c: Config, L: Layout, i: nat, newsize: nat)
    requires i < |L|
  {
    && newsize < DataSize(c, L[i])
    && ((i + 1 < |L| && !L[i + 1].used) || newsize + c.hdr + c.min <= DataSize(c, L[i]))
  }

  lemma TrimUsed(c: Config, L: Layout, i: nat, newsize: nat)
    requires i < |L| && L[i].used
    ensures UsedBytes(TrimAt(c, L, i, newsize)) ==
            UsedBytes(L) - (if TrimChanges(c, L, i, newsize) then DataSize(c, L[i]) - newsize else 0)
  {
    var M := TrimAt(c, L, i, newsize);
    var p := L[i].start + c.hdr + newsize;
    if !TrimChanges(c, L, i, newsize) {
      assert M == L;
    } else if i + 1 < |L| && !L[i + 1].used {
      assert M == MoveBorder(L, i, p);
      MoveUsed(L, i, p);
    } else {
      assert M == SplitAt(L, i, p);
      SplitUsed(L, i, p);
      UsedSingle(L[i]);
    }
  }

  lemma AllocUsed(c: Config, L: Layout, i: nat, size: nat)
    requires i < |L| && !L[i].used
    ensures UsedBytes(AllocAt(c, L, i, size)) ==
            UsedBytes(L) + (if DataSize(c, L[i]) >= size + c.hdr + c.min then size + c.hdr else Extent(L[i]))
  {
    if DataSize(c, L[i]) >= size + c.hdr + c.min {
      SplitFreeUsed(L, i, L[i].start + c.hdr + size);
    } else {
      TakenUsed(L, i);
    }
  }

  lemma SplitFreeUsed(L: Layout, i: nat, p: nat)
    requires i < |L| && !L[i].used
    ensures UsedBytes(SplitAt(L, i, p)) == UsedBytes(L) + (p - L[i].start)
  {
    UsedSingle(L[i]);
    SplitUsed(L, i, p);
  }

  lemma TakenUsed(L: Layout, i: nat)
    requires i < |L| && !L[i].used
    ensures UsedBytes(L[i := L[i].(used := true)]) == UsedBytes(L) + Extent(L[i])
  {
    var b := L[i].(used := true);
    UsedUpdate(L, i, b);
    UsedSingle(L[i]);
    UsedSingle(b);
  }

  /** Used and free bytes always add up to MEM_SIZE_ALIGNED. */
  lemma {:induction false} BytesUpTo(c: Config, L: Layout, n: nat)
    requires Tiles(c, L) && Sized(c, L) && n <= |L|
    ensures UsedUpTo(L, n) + FreeUpTo(L, n) == StartOf(c, L, n)
    ensures UsedUpTo(L, n) >= 0 && FreeUpTo(L, n) >= 0
  {
    if n > 0 {
      assert Touches(L, n - 1);
      BytesUpTo(c, L, n - 1);
    }
  }

  lemma Conservation(c: Config, L: Layout)
    requires WellFormed(c, L)
    ensures UsedBytes(L) + FreeBytes(L) == c.size
    ensures 0 <= UsedBytes(L) <= c.size
  {
    BytesUpTo(c, L, |L|);
  }

  // ---------------------------------------------------------------- request sizes

  /** LWIP_MEM_ALIGN_SIZE in mem_size_t arithmetic. */
  function AlignSize(c: Config, x: nat): nat
    requires c.align > 0
  {
    var y := (x + c.align - 1) % SIZE_T_MOD;
    y - y % c.align
  }

  /** The size adjustment shared by mem_malloc and mem_trim; None is their early NULL. */
  function RequestSize(c: Config, x: nat): Option<nat>
    requires c.align > 0
  {
    var aligned := AlignSize(c, x);
    var size := if aligned < c.min then c.min else aligned;
    if size > c.size || size < x then None else Some(size)
  }

  lemma {:induction false} GridMul(k: nat, n: nat)
    requires n > 0
    ensures OnGrid(k * n, n)
  {
    if k > 0 {
      GridMul(k - 1, n);
      assert k * n - n == (k - 1) * n;
    }
  }

  /** Rounding up stays between x and x + align - 1 when the sum does not wrap. */
  lemma AlignSizeBounds(c: Config, x: nat)
    requires c.align > 0 && x + c.align - 1 < SIZE_T_MOD
    ensures x <= AlignSize(c, x) < x + c.align
  {
    var y := x + c.align - 1;
    assert y == y / c.align * c.align + y % c.align;
  }

  lemma {:induction false} AlignedGap(a: nat, b: nat, n: nat)
    requires n > 0 && OnGrid(a, n) && OnGrid(b, n) && a < b
    ensures a + n <= b
  {
    if a > 0 {
      AlignedGap(a - n, b - n, n);
    }
  }

  lemma AlignSizeAligned(c: Config, x: nat)
    requires c.align > 0
    ensures OnGrid(AlignSize(c, x), c.align)
  {
    var y := (x + c.align - 1) % SIZE_T_MOD;
    RoundedOnGrid(y, c.align);
  }

  lemma RoundedOnGrid(y: nat, n: nat)
    requires n > 0
    ensures OnGrid(y - y % n, n)
  {
    assert y - y % n == y / n * n;
    GridMul(y / n, n);
  }

  lemma AlignSizeWraps(c: Config, x: nat)
    requires c.align > 0 && x < SIZE_T_MOD <= x + c.align - 1 && c.align <= SIZE_T_MOD
    ensures AlignSize(c, x) == 0
  {
    var y := (x + c.align - 1) % SIZE_T_MOD;
    assert y == x + c.align - 1 - SIZE_T_MOD;
    assert y < c.align;
    assert y / c.align == 0;
  }

  /** An aligned size not below x is not below x rounded up. */
  lemma AlignedAbove(c: Config, x: nat, s: nat)
    requires c.align > 0 && OnGrid(s, c.align) && x <= s && x + c.align - 1 < SIZE_T_MOD
    ensures AlignSize(c, x) <= s
  {
    AlignSizeBounds(c, x);
    AlignSizeAligned(c, x);
    if s < AlignSize(c, x) {
      AlignedGap(s, AlignSize(c, x), c.align);
    }
  }

  /** The overflow test is exact: a request is refused early if and only if it exceeds the heap. */
  lemma RequestSizeExact(c: Config, x: nat)
    requires c.Valid() && x < SIZE_T_MOD
    ensures RequestSize(c, x).None? <==> x > c.size
    ensures RequestSize(c, x).Some? ==>
              var s := RequestSize(c, x).value;
              OnGrid(s, c.align) && x <= s <= c.size && c.min <= s
  {
    AlignSizeAligned(c, x);
    AlignedGap(c.size, SIZE_T_MOD, c.align);
    if x + c.align - 1 < SIZE_T_MOD {
      AlignSizeBounds(c, x);
      if x <= c.size {
        AlignedAbove(c, x, c.size);
      }
    } else {
      AlignSizeWraps(c, x);
    }
  }

  /** s is a size that mem_malloc can grant to a request for x bytes. */
  ghost predicate Suits(c: Config, x: nat, s: nat)
    requires c.align > 0
  {
    OnGrid(s, c.align) && x <= s && c.min <= s
  }

  /** The adjusted size is the smallest one that suits the request. */
  lemma RequestSizeLeast(c: Config, x: nat, s: nat)
    requires c.Valid() && x < SIZE_T_MOD && RequestSize(c, x).Some? && Suits(c, x, s)
    ensures Suits(c, x, RequestSize(c, x).value) && RequestSize(c, x).value <= s
  {
    RequestSizeExact(c, x);
    if x + c.align - 1 < SIZE_T_MOD {
      AlignedAbove(c, x, s);
    } else {
      AlignSizeWraps(c, x);
    }
  }

  /** The data bytes of a block are a multiple of the alignment, and at least the minimum. */
  lemma DataSuits(c: Config, L: Layout, i: nat, x: nat)
    requires Sound(c, L) && i < |L| && x <= DataSize(c, L[i])
    ensures Suits(c, x, DataSize(c, L[i])) && DataSize(c, L[i]) <= c.size
  {
    OrderedAll(c, L);
    assert GridAt(c, L, i) && GridAt(c, L, i + 1) && Touches(L, i);
    GridMinus(L[i].end, L[i].start, c.align);
    GridMinus(L[i].end - L[i].start, c.hdr, c.align);
  }

  lemma {:induction false} GridMinus(a: nat, b: nat, n: nat)
    requires n > 0 && OnGrid(a, n) && OnGrid(b, n) && b <= a
    ensures OnGrid(a - b, n)
  {
    if b > 0 { GridMinus(a - n, b - n, n); }
  }

  /** A block can hold the adjusted size exactly if it can hold the size asked for. */
  lemma AdjustedFits(c: Config, L: Layout, i: nat, x: nat)
    requires Sound(c, L) && i < |L| && x < SIZE_T_MOD
    ensures DataSize(c, L[i]) >= x <==>
            RequestSize(c, x).Some? && DataSize(c, L[i]) >= RequestSize(c, x).value
  {
    RequestSizeExact(c, x);
    OrderedAll(c, L);
    if DataSize(c, L[i]) >= x {
      DataSuits(c, L, i, x);
      RequestSizeLeast(c, x, DataSize(c, L[i]));
    }
  }

  /** So the first fit for the adjusted size is the first free block with x bytes of data. */
  lemma FirstFitExact(c: Config, L: Layout, x: nat, i: nat)
    requires Sound(c, L) && x < SIZE_T_MOD && RequestSize(c, x).Some? && i == FirstFit(c, L, RequestSize(c, x).value)
    ensures i < |L| ==> !L[i].used && DataSize(c, L[i]) >= x
    ensures forall j :: 0 <= j < i ==> L[j].used || DataSize(c, L[j]) < x
  {
    forall j | 0 <= j < |L| ensures DataSize(c, L[j]) >= x <==> DataSize(c, L[j]) >= RequestSize(c, x).value {
      AdjustedFits(c, L, j, x);
    }
  }

  // ---------------------------------------------------------------- operations by other contexts

  /** A mem_free or mem_trim call made by somebody else, naming the block whose data pointer it passes. */
  datatype Op = FreeOp(block: nat) | TrimOp(block: nat, newSize: nat)

  function IndexOf(L: Layout, start: nat): (r: nat)
    ensures r <= |L|
    ensures r < |L| ==> L[r].start == start
    ensures r == |L| ==> forall i :: 0 <= i < |L| ==> L[i].start != start
  {
    if L == [] then 0 else if L[0].start == start then 0 else 1 + IndexOf(L[1..], start)
  }

  /** A caller owns the block and it is not the one mem_malloc is about to hand out. */
  predicate Owned(L: Layout, held: Option<nat>, block: nat) {
    var i := IndexOf(L, block);
    i < |L| && L[i].used && held != Some(block)
  }

  function Apply(c: Config, L: Layout, held: Option<nat>, op: Op): Layout
    requires c.align > 0
  {
    if !Owned(L, held, op.block) then L
    else
      var i := IndexOf(L, op.block);
      match op
      case FreeOp(_) => FreeAt(L, i)
      case TrimOp(_, n) =>
        var s := RequestSize(c, n);
        if s.None? then L else TrimAt(c, L, i, s.value)
  }

  /** The layout after a whole history of such calls. */
  function Run(c: Config, L: Layout, held: Option<nat>, ops: seq<Op>): Layout
    requires c.align > 0
  {
    if ops == [] then L
    else Apply(c, Run(c, L, held, ops[..|ops| - 1]), held, ops[|ops| - 1])
  }

  /** The invariant of the block list. */
  ghost predicate Sound(c: Config, L: Layout) {
    c.Valid() && WellFormed(c, L) && Aligned(c, L)
  }

  ghost predicate ValidOp(op: Op) {
    op.TrimOp? ==> op.newSize < SIZE_T_MOD
  }

  lemma ApplySound(c: Config, L: Layout, held: Option<nat>, op: Op)
    requires Sound(c, L) && ValidOp(op)
    ensures Sound(c, Apply(c, L, held, op))
  {
    if Owned(L, held, op.block) {
      var i := IndexOf(L, op.block);
      match op
      case FreeOp(_) =>
        FreeWellFormed(c, L, i);
        FreeAligned(c, L, i);
      case TrimOp(_, n) =>
        RequestSizeExact(c, n);
        if RequestSize(c, n).Some? {
          TrimWellFormed(c, L, i, RequestSize(c, n).value);
          TrimAligned(c, L, i, RequestSize(c, n).value);
        }
    }
  }

  /** Every history of frees and trims keeps the heap sound. */
  lemma {:induction false} RunSound(c: Config, L: Layout, held: Option<nat>, ops: seq<Op>)
    requires Sound(c, L) && forall op :: op in ops ==> ValidOp(op)
    ensures Sound(c, Run(c, L, held, ops))
  {
    if ops != [] {
      var k := |ops| - 1;
      RunSound(c, L, held, ops[..k]);
      assert ops[k] in ops;
      ApplySound(c, Run(c, L, held, ops[..k]), held, ops[k]);
    }
  }

  // ---------------------------------------------------------------- which used blocks survive

  lemma UniqueStarts(c: Config, L: Layout, i: nat, j: nat)
    requires Tiles(c, L) && Sized(c, L) && i < |L| && j < |L| && L[i].start == L[j].start
    requires 0 < c.hdr
    ensures i == j
  {
    if i < j { Ordered(c, L, i, j); }
    if j < i { Ordered(c, L, j, i); }
  }

  /** mem_free takes away the freed block and no other used block. */
  lemma FreeSurvivors(c: Config, L: Layout, i: nat, b: Block)
    requires WellFormed(c, L) && 0 < c.hdr && i < |L| && L[i].used && b.used
    ensures b in FreeAt(L, i) <==> b in L && b != L[i]
  {
    var lo, hi := FreeShape(L, i);
    assert b in FreeAt(L, i) <==> b in L[..lo] || b in L[hi + 1..];
    ReplacedRange(c, L, lo, i, hi, b);
  }

  lemma ReplacedRange(c: Config, L: Layout, lo: nat, i: nat, hi: nat, b: Block)
    requires WellFormed(c, L) && 0 < c.hdr && lo <= i <= hi < |L| && i <= lo + 1 && hi <= i + 1 && b.used
    requires (lo < i ==> !L[lo].used) && (i < hi ==> !L[hi].used)
    ensures b in L[..lo] || b in L[hi + 1..] <==> b in L && b != L[i]
  {
    if b in L[..lo] || b in L[hi + 1..] {
      var j :| 0 <= j < |L| && L[j] == b && j != i;
      if b == L[i] { UniqueStarts(c, L, i, j); }
    }
    if b in L && b != L[i] {
      var j :| 0 <= j < |L| && L[j] == b;
      assert j < lo ==> L[..lo][j] == b;
      assert j > hi ==> L[hi + 1..][j - hi - 1] == b;
    }
  }

  /** mem_trim only shortens the trimmed block. */
  lemma TrimSurvivors(c: Config, L: Layout, i: nat, newsize: nat, b: Block)
    requires WellFormed(c, L) && 0 < c.hdr && i < |L| && L[i].used && b.used
    ensures b in TrimAt(c, L, i, newsize) <==>
            (b in L && b != L[i]) ||
            b == (if TrimChanges(c, L, i, newsize) then L[i].(end := L[i].start + c.hdr + newsize) else L[i])
  {
    var M := TrimAt(c, L, i, newsize);
    var p := L[i].start + c.hdr + newsize;
    if !TrimChanges(c, L, i, newsize) {
      assert M == L;
    } else if i + 1 < |L| && !L[i + 1].used {
      MoveSurvivors(c, L, i, p, b);
    } else {
      SplitSurvivors(c, L, i, p, b);
    }
  }

  lemma MoveSurvivors(c: Config, L: Layout, i: nat, p: nat, b: Block)
    requires WellFormed(c, L) && 0 < c.hdr && i + 1 < |L| && L[i].used && !L[i + 1].used && b.used
    ensures b in MoveBorder(L, i, p) <==> (b in L && b != L[i]) || b == L[i].(end := p)
  {
    var M := MoveBorder(L, i, p);
    if b in M {
      var j :| 0 <= j < |M| && M[j] == b;
      if j != i && b == L[i] { UniqueStarts(c, L, i, j); }
    }
    if b in L && b != L[i] {
      var j :| 0 <= j < |L| && L[j] == b;
      assert M[j] == b;
    }
    assert M[i] == L[i].(end := p);
  }

  lemma SplitSurvivors(c: Config, L: Layout, i: nat, p: nat, b: Block)
    requires WellFormed(c, L) && 0 < c.hdr && i < |L| && b.used
    ensures b in SplitAt(L, i, p) <==> (b in L && b != L[i]) || b == Block(L[i].start, p, true)
  {
    var nb := Block(L[i].start, p, true);
    assert b in SplitAt(L, i, p) <==> b in L[..i] || b == nb || b in L[i + 1..];
    assert L == L[..i] + [L[i]] + L[i + 1..];
    if b == L[i] && (b in L[..i] || b in L[i + 1..]) {
      var j :| 0 <= j < |L| && j != i && L[j] == b;
      UniqueStarts(c, L, i, j);
    }
  }

  /** mem_malloc adds the new block and keeps every used block as it is. */
  lemma AllocSurvivors(c: Config, L: Layout, i: nat, size: nat, b: Block)
    requires WellFormed(c, L) && 0 < c.hdr && i < |L| && Fits(c, L[i], size) && b.used
    ensures i < |AllocAt(c, L, i, size)|
    ensures b in AllocAt(c, L, i, size) <==> b in L || b == AllocAt(c, L, i, size)[i]
    ensures var n := AllocAt(c, L, i, size)[i]; n.start == L[i].start && n.used && DataSize(c, n) >= size
  {
    var M := AllocAt(c, L, i, size);
    if DataSize(c, L[i]) >= size + c.hdr + c.min {
      SplitBlock(L, i, L[i].start + c.hdr + size, i);
      SplitSurvivors(c, L, i, L[i].start + c.hdr + size, b);
    } else {
      if b in M {
        var j :| 0 <= j < |M| && M[j] == b;
        assert j != i ==> L[j] == b;
      }
      if b in L {
        var j :| 0 <= j < |L| && L[j] == b;
        assert M[j] == b;
      }
    }
  }

  // ---------------------------------------------------------------- who owns what

  ghost predicate UsedAt(L: Layout, s: nat) {
    exists b :: b in L && b.used && b.start == s
  }

  ghost predicate OwnerAt(L: Layout, held: Option<nat>, live: set<nat>, s: nat) {
    s in live <==> UsedAt(L, s) && held != Some(s)
  }

  /** The blocks in `live` are exactly the used blocks other than the held one. */
  ghost predicate Owners(L: Layout, held: Option<nat>, live: set<nat>) {
    && (forall s :: OwnerAt(L, held, live, s))
    && (held.Some? ==> UsedAt(L, held.value))
  }

  lemma UsedAtIndex(c: Config, L: Layout, i: nat, s: nat)
    requires WellFormed(c, L) && 0 < c.hdr && i < |L| && L[i].start == s
    ensures UsedAt(L, s) <==> L[i].used
  {
    if UsedAt(L, s) {
      var b :| b in L && b.used && b.start == s;
      var j :| 0 <= j < |L| && L[j] == b;
      UniqueStarts(c, L, i, j);
    } else {
      assert L[i] in L;
    }
  }

  lemma OwnedIffLive(c: Config, L: Layout, held: Option<nat>, live: set<nat>, block: nat)
    requires WellFormed(c, L) && 0 < c.hdr && Owners(L, held, live)
    ensures block in live <==> Owned(L, held, block)
  {
    var i := IndexOf(L, block);
    assert OwnerAt(L, held, live, block);
    if i < |L| {
      UsedAtIndex(c, L, i, block);
    }
  }

  lemma FreeUsedAt(c: Config, L: Layout, i: nat, s: nat)
    requires WellFormed(c, L) && 0 < c.hdr && i < |L| && L[i].used
    ensures UsedAt(FreeAt(L, i), s) <==> UsedAt(L, s) && s != L[i].start
  {
    if UsedAt(FreeAt(L, i), s) {
      var b :| b in FreeAt(L, i) && b.used && b.start == s;
      FreeSurvivors(c, L, i, b);
      var j :| 0 <= j < |L| && L[j] == b;
      if s == L[i].start { UniqueStarts(c, L, i, j); }
    }
    if UsedAt(L, s) && s != L[i].start {
      var b :| b in L && b.used && b.start == s;
      FreeSurvivors(c, L, i, b);
    }
  }

  lemma FreeOwners(c: Config, L: Layout, held: Option<nat>, live: set<nat>, i: nat)
    requires WellFormed(c, L) && 0 < c.hdr && Owners(L, held, live)
    requires i < |L| && L[i].used && held != Some(L[i].start)
    ensures Owners(FreeAt(L, i), held, live - {L[i].start})
  {
    var M := FreeAt(L, i);
    forall s: nat ensures OwnerAt(M, held, live - {L[i].start}, s) {
      assert OwnerAt(L, held, live, s);
      FreeUsedAt(c, L, i, s);
    }
    if held.Some? { FreeUsedAt(c, L, i, held.value); }
  }

  lemma TrimUsedAt(c: Config, L: Layout, i: nat, newsize: nat, s: nat)
    requires WellFormed(c, L) && 0 < c.hdr && i < |L| && L[i].used
    ensures UsedAt(TrimAt(c, L, i, newsize), s) <==> UsedAt(L, s)
  {
    var M := TrimAt(c, L, i, newsize);
    var nb := if TrimChanges(c, L, i, newsize) then L[i].(end := L[i].start + c.hdr + newsize) else L[i];
    TrimSurvivors(c, L, i, newsize, nb);
    if UsedAt(M, s) {
      var b :| b in M && b.used && b.start == s;
      TrimSurvivors(c, L, i, newsize, b);
      assert L[i] in L;
    }
    if UsedAt(L, s) {
      var b :| b in L && b.used && b.start == s;
      TrimSurvivors(c, L, i, newsize, b);
      assert b in M || nb.start == s;
    }
  }

  lemma TrimOwners(c: Config, L: Layout, held: Option<nat>, live: set<nat>, i: nat, newsize: nat)
    requires WellFormed(c, L) && 0 < c.hdr && Owners(L, held, live)
    requires i < |L| && L[i].used
    ensures Owners(TrimAt(c, L, i, newsize), held, live)
  {
    var M := TrimAt(c, L, i, newsize);
    forall s: nat ensures OwnerAt(M, held, live, s) {
      assert OwnerAt(L, held, live, s);
      TrimUsedAt(c, L, i, newsize, s);
    }
    if held.Some? { TrimUsedAt(c, L, i, newsize, held.value); }
  }

  lemma AllocUsedAt(c: Config, L: Layout, i: nat, size: nat, s: nat)
    requires WellFormed(c, L) && 0 < c.hdr && i < |L| && Fits(c, L[i], size)
    ensures UsedAt(AllocAt(c, L, i, size), s) <==> UsedAt(L, s) || s == L[i].start
  {
    var M := AllocAt(c, L, i, size);
    AllocSurvivors(c, L, i, size, L[i].(used := true));
    assert M[i] in M;
    if UsedAt(M, s) {
      var b :| b in M && b.used && b.start == s;
      AllocSurvivors(c, L, i, size, b);
    }
    if UsedAt(L, s) {
      var b :| b in L && b.used && b.start == s;
      AllocSurvivors(c, L, i, size, b);
    }
  }

  lemma AllocOwners(c: Config, L: Layout, live: set<nat>, i: nat, size: nat)
    requires WellFormed(c, L) && 0 < c.hdr && Owners(L, None, live)
    requires i < |L| && Fits(c, L[i], size)
    ensures Owners(AllocAt(c, L, i, size), Some(L[i].start), live)
  {
    var M := AllocAt(c, L, i, size);
    UsedAtIndex(c, L, i, L[i].start);
    forall s: nat ensures OwnerAt(M, Some(L[i].start), live, s) {
      assert OwnerAt(L, None, live, s);
      AllocUsedAt(c, L, i, size, s);
    }
    AllocUsedAt(c, L, i, size, L[i].start);
  }

  // ---------------------------------------------------------------- histories and first fit

  /** The calls made in the first windows of a schedule, in order. */
  function Flatten(windows: seq<seq<Op>>): seq<Op> {
    if windows == [] then [] else Flatten(windows[..|windows| - 1]) + windows[|windows| - 1]
  }

  lemma {:induction false} RunConcat(c: Config, L: Layout, held: Option<nat>, a: seq<Op>, b: seq<Op>)
    requires c.align > 0
    ensures Run(c, L, held, a + b) == Run(c, Run(c, L, held, a), held, b)
    decreases |b|
  {
    if b == [] {
      assert a + b == a;
    } else {
      var k := |b| - 1;
      assert (a + b)[..|a + b| - 1] == a + b[..k];
      RunConcat(c, L, held, a, b[..k]);
    }
  }

  /** One more window appends its calls to the history. */
  lemma RunWindow(c: Config, L: Layout, held: Option<nat>, windows: seq<seq<Op>>, lo: nat, hi: nat)
    requires c.align > 0 && lo <= hi < |windows|
    ensures Run(c, L, held, Flatten(windows[lo..hi + 1])) ==
            Run(c, Run(c, L, held, Flatten(windows[lo..hi])), held, windows[hi])
  {
    assert windows[lo..hi + 1][..hi - lo] == windows[lo..hi];
    RunConcat(c, L, held, Flatten(windows[lo..hi]), windows[hi]);
  }

  /** The same, with nothing happening behind the last window. */
  lemma RunNext(c: Config, L: Layout, held: Option<nat>, windows: seq<seq<Op>>, lo: nat, hi: nat, hi': nat, ops: seq<Op>)
    requires c.align > 0 && lo <= hi <= |windows|
    requires hi' == (if hi < |windows| then hi + 1 else hi) && ops == (if hi < |windows| then windows[hi] else [])
    ensures Run(c, L, held, Flatten(windows[lo..hi'])) == Run(c, Run(c, L, held, Flatten(windows[lo..hi])), held, ops)
  {
    if hi < |windows| { RunWindow(c, L, held, windows, lo, hi); }
  }

  lemma FirstFitIs(c: Config, L: Layout, size: nat, k: nat)
    requires k <= |L| && (k < |L| ==> Fits(c, L[k], size))
    requires forall i :: 0 <= i < k ==> !Fits(c, L[i], size)
    ensures FirstFit(c, L, size) == k
  {
    var f := FirstFit(c, L, size);
    assert !(f < k) && !(k < f);
  }

  /** The scan may stop at MEM_SIZE_ALIGNED - size: no block from there on is large enough. */
  lemma NothingBeyond(c: Config, L: Layout, size: nat, k: nat)
    requires WellFormed(c, L) && 0 < c.hdr && k <= |L| && StartOf(c, L, k) >= c.size - size
    requires forall i :: 0 <= i < k ==> !Fits(c, L[i], size)
    ensures FirstFit(c, L, size) == |L|
  {
    forall i | k <= i < |L| ensures !Fits(c, L[i], size) {
      OrderedAll(c, L);
    }
    FirstFitIs(c, L, size, |L|);
  }

  // ---------------------------------------------------------------- what whole histories do to a block

  /** A used block after one call was there before, and may only have lost its tail. */
  lemma ApplyShrinks(c: Config, L: Layout, held: Option<nat>, op: Op, b: Block) returns (b0: Block)
    requires Sound(c, L) && ValidOp(op) && b.used && b in Apply(c, L, held, op)
    ensures b0 in L && b0.used && b0.start == b.start && b.end <= b0.end
    ensures op.block != b.start || held == Some(b.start) ==> b0 == b
  {
    b0 := b;
    if Owned(L, held, op.block) {
      var i := IndexOf(L, op.block);
      match op
      case FreeOp(_) => FreeSurvivors(c, L, i, b);
      case TrimOp(_, n) =>
        var s := RequestSize(c, n);
        if s.Some? {
          TrimSurvivors(c, L, i, s.value, b);
          if !(b in L && b != L[i]) { b0 := L[i]; }
        }
    }
  }

  /** A call leaves every used block alone that it does not name or that is held. */
  lemma ApplyKeeps(c: Config, L: Layout, held: Option<nat>, op: Op, b: Block)
    requires Sound(c, L) && ValidOp(op) && b.used && b in L
    requires op.block != b.start || held == Some(b.start)
    ensures b in Apply(c, L, held, op)
  {
    if Owned(L, held, op.block) {
      var i := IndexOf(L, op.block);
      match op
      case FreeOp(_) => FreeSurvivors(c, L, i, b);
      case TrimOp(_, n) =>
        var s := RequestSize(c, n);
        if s.Some? { TrimSurvivors(c, L, i, s.value, b); }
    }
  }

  lemma {:induction false} RunShrinks(c: Config, L: Layout, held: Option<nat>, ops: seq<Op>, b: Block) returns (b0: Block)
    requires Sound(c, L) && (forall op :: op in ops ==> ValidOp(op)) && b.used && b in Run(c, L, held, ops)
    ensures b0 in L && b0.used && b0.start == b.start && b.end <= b0.end
    decreases |ops|
  {
    b0 := b;
    if ops != [] {
      var k := |ops| - 1;
      RunSound(c, L, held, ops[..k]);
      assert ops[k] in ops;
      var b1 := ApplyShrinks(c, Run(c, L, held, ops[..k]), held, ops[k], b);
      b0 := RunShrinks(c, L, held, ops[..k], b1);
    }
  }

  lemma {:induction false} RunKeeps(c: Config, L: Layout, held: Option<nat>, ops: seq<Op>, b: Block)
    requires Sound(c, L) && (forall op :: op in ops ==> ValidOp(op)) && b.used && b in L
    requires held == Some(b.start) || forall op :: op in ops ==> op.block != b.start
    ensures b in Run(c, L, held, ops)
    decreases |ops|
  {
    if ops != [] {
      var k := |ops| - 1;
      RunSound(c, L, held, ops[..k]);
      assert ops[k] in ops;
      RunKeeps(c, L, held, ops[..k], b);
      ApplyKeeps(c, Run(c, L, held, ops[..k]), held, ops[k], b);
    }
  }

  /** Two different blocks of a sound layout never overlap. */
  lemma BlocksDisjoint(c: Config, L: Layout, a: Block, b: Block)
    requires WellFormed(c, L) && a in L && b in L && a != b
    ensures a.end <= b.start || b.end <= a.start
  {
    var i :| 0 <= i < |L| && L[i] == a;
    var j :| 0 <= j < |L| && L[j] == b;
    if i < j { Ordered(c, L, i, j); } else { Ordered(c, L, j, i); }
  }

  // ---------------------------------------------------------------- freeing everything

  function FreeOps(order: seq<nat>): seq<Op> {
    seq(|order|, i requires 0 <= i < |order| => FreeOp(order[i]))
  }

  /** Every block named by the order is used, and named once. */
  ghost predicate FreeOrder(L: Layout, order: seq<nat>) {
    && (forall i :: 0 <= i < |order| ==> UsedAt(L, order[i]))
    && (forall i, j :: 0 <= i < j < |order| ==> order[i] != order[j])
  }

  lemma FreeLast(L: Layout, order: seq<nat>, rest: seq<nat>, last: nat)
    requires FreeOrder(L, order) && order != [] && rest == order[..|order| - 1] && last == order[|order| - 1]
    ensures FreeOrder(L, rest) && UsedAt(L, last) && last !in rest
    ensures FreeOps(order)[..|order| - 1] == FreeOps(rest) && FreeOps(order)[|order| - 1] == FreeOp(last)
    ensures forall s :: s in order <==> s in rest || s == last
  {
    assert order == rest + [last];
  }

  lemma {:induction false} FreeSeveral(c: Config, L: Layout, order: seq<nat>, s: nat)
    requires Sound(c, L) && FreeOrder(L, order)
    ensures Sound(c, Run(c, L, None, FreeOps(order)))
    ensures UsedAt(Run(c, L, None, FreeOps(order)), s) <==> UsedAt(L, s) && s !in order
    decreases |order|
  {
    if order != [] {
      var rest, last := order[..|order| - 1], order[|order| - 1];
      FreeLast(L, order, rest, last);
      FreeSeveral(c, L, rest, s);
      FreeSeveral(c, L, rest, last);
      FreeOneOf(c, Run(c, L, None, FreeOps(rest)), last, s);
    }
  }

  lemma FreeOneOf(c: Config, M: Layout, block: nat, s: nat)
    requires Sound(c, M) && UsedAt(M, block)
    ensures Sound(c, Apply(c, M, None, FreeOp(block)))
    ensures UsedAt(Apply(c, M, None, FreeOp(block)), s) <==> UsedAt(M, s) && s != block
  {
    ApplySound(c, M, None, FreeOp(block));
    var i := IndexOf(M, block);
    if i < |M| { UsedAtIndex(c, M, i, block); }
    FreeUsedAt(c, M, i, s);
  }

  /** A heap without used blocks is the heap mem_init made. */
  lemma NothingUsed(c: Config, L: Layout)
    requires Sound(c, L) && forall s :: !UsedAt(L, s)
    ensures L == InitLayout(c)
  {
    forall i | 0 <= i < |L| ensures !L[i].used {
      assert L[i] in L;
      assert !UsedAt(L, L[i].start);
    }
    assert Apart(L, 0);
    assert L == [L[0]];
  }

  /** Freeing every used block, in any order, leaves the single free block of mem_init. */
  lemma FreeAllAnyOrder(c: Config, L: Layout, order: seq<nat>)
    requires Sound(c, L) && FreeOrder(L, order)
    requires forall s :: UsedAt(L, s) ==> s in order
    ensures Run(c, L, None, FreeOps(order)) == InitLayout(c)
  {
    FreeSeveral(c, L, order, 0);
    forall s: nat ensures !UsedAt(Run(c, L, None, FreeOps(order)), s) {
      FreeSeveral(c, L, order, s);
    }
    NothingUsed(c, Run(c, L, None, FreeOps(order)));
  }
}
