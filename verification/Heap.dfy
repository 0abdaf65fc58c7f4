/**
 * The lwIP heap allocator (core/mem.c, heap variant, LWIP_ALLOW_MEM_FREE_FROM_OTHER_CONTEXT).
 *
 * `ram` holds one struct mem per byte offset at which one may lie; a data pointer is the offset
 * of its block plus the header size. `layout` is the block list the headers stand for, `live`
 * the blocks that callers own. Every method is proved against the layout functions.
 */
module Heap {
  import opened Wrappers
  import opened HeapLayout
  import opened HeapProperties
  import opened HeapHeaders

  /** How plug_holes redirects lfree when the block it points at is swallowed. */
  function LfreeForward(L: Layout, i: nat, lfree: nat): nat
    requires i < |L|
  {
    if i + 1 < |L| && !L[i + 1].used && lfree == L[i + 1].start then L[i].start else lfree
  }

  function LfreeBackward(L: Layout, i: nat, lfree: nat): nat
    requires i < |L|
  {
    if i > 0 && !L[i - 1].used && lfree == L[i].start then L[i - 1].start else lfree
  }

  /** lfree is right, or still names the block that mem_malloc holds. */
  ghost predicate LfreeOk(c: Config, L: Layout, held: Option<nat>, lfree: nat) {
    lfree == Lowest(c, L) || (held == Some(lfree) && lfree < Lowest(c, L))
  }

  /** mem_free: lowering lfree first makes both corrections in plug_holes unnecessary. */
  lemma FreeLfree(c: Config, L: Layout, held: Option<nat>, i: nat, lfree: nat)
    requires WellFormed(c, L) && 0 < c.hdr && i < |L| && L[i].used && held != Some(L[i].start)
    requires LfreeOk(c, L, held, lfree)
    ensures var lowered := if L[i].start < lfree then L[i].start else lfree;
            var M := MarkFree(L, i);
            LfreeBackward(M, i, LfreeForward(M, i, lowered)) == lowered &&
            LfreeOk(c, FreeAt(L, i), held, lowered)
  {
    FreeLowest(c, L, i);
    OrderedAll(c, L);
    LowestBounds(c, L, i);
    if i > 0 {
      LowestBounds(c, L, i - 1);
    }
  }

  /** What mem_free leaves behind. */
  lemma FreeFacts(c: Config, L: Layout, held: Option<nat>, live: set<nat>, lfree: nat, i: nat)
    requires Sound(c, L) && Owners(L, held, live) && LfreeOk(c, L, held, lfree)
    requires i < |L| && L[i].used && held != Some(L[i].start)
    ensures L[i].start < c.size
    ensures Sound(c, FreeAt(L, i))
    ensures Owners(FreeAt(L, i), held, live - {L[i].start})
    ensures UsedBytes(FreeAt(L, i)) == UsedBytes(L) - (L[i].end - L[i].start)
    ensures var lowered := if L[i].start < lfree then L[i].start else lfree;
            LfreeBackward(MarkFree(L, i), i, LfreeForward(MarkFree(L, i), i, lowered)) == lowered &&
            LfreeOk(c, FreeAt(L, i), held, lowered)
  {
    OrderedAll(c, L);
    FreeLfree(c, L, held, i, lfree);
    FreeWellFormed(c, L, i);
    FreeAligned(c, L, i);
    FreeUsed(L, i);
    FreeOwners(c, L, held, live, i);
  }

  /** How mem_trim adjusts lfree. */
  function TrimLfree(c: Config, L: Layout, i: nat, newsize: nat, lfree: nat): nat
    requires i < |L|
  {
    var p := L[i].start + c.hdr + newsize;
    if newsize >= DataSize(c, L[i]) then lfree
    else if i + 1 < |L| && !L[i + 1].used then (if lfree == L[i + 1].start then p else lfree)
    else if newsize + c.hdr + c.min <= DataSize(c, L[i]) then (if p < lfree then p else lfree)
    else lfree
  }

  lemma TrimLfreeOk(c: Config, L: Layout, held: Option<nat>, i: nat, newsize: nat, lfree: nat)
    requires WellFormed(c, L) && 0 < c.hdr && i < |L| && L[i].used && newsize < DataSize(c, L[i])
    requires LfreeOk(c, L, held, lfree) && (held.Some? ==> UsedAt(L, held.value))
    ensures LfreeOk(c, TrimAt(c, L, i, newsize), held, TrimLfree(c, L, i, newsize, lfree))
  {
    TrimLowest(c, L, i, newsize);
    if lfree != Lowest(c, L) {
      var b :| b in L && b.used && b.start == lfree;
      var k :| 0 <= k < |L| && L[k] == b;
      if i + 1 < |L| { LowestBounds(c, L, i + 1); }
      if k < i { Ordered(c, L, k, i); }
      if i < k { Ordered(c, L, i, k); }
      if i + 1 < k { Ordered(c, L, i + 1, k); }
    }
  }

  /** What mem_trim leaves behind. */
  lemma TrimFacts(c: Config, L: Layout, held: Option<nat>, live: set<nat>, lfree: nat, i: nat, newsize: nat)
    requires Sound(c, L) && Owners(L, held, live) && LfreeOk(c, L, held, lfree)
    requires i < |L| && L[i].used && newsize < DataSize(c, L[i]) && c.min <= newsize && OnGrid(newsize, c.align)
    ensures Sound(c, TrimAt(c, L, i, newsize))
    ensures Owners(TrimAt(c, L, i, newsize), held, live)
    ensures UsedBytes(TrimAt(c, L, i, newsize)) ==
            UsedBytes(L) - (if TrimChanges(c, L, i, newsize) then DataSize(c, L[i]) - newsize else 0)
    ensures LfreeOk(c, TrimAt(c, L, i, newsize), held, TrimLfree(c, L, i, newsize, lfree))
  {
    TrimLfreeOk(c, L, held, i, newsize, lfree);
    TrimWellFormed(c, L, i, newsize);
    TrimAligned(c, L, i, newsize);
    TrimUsed(c, L, i, newsize);
    TrimOwners(c, L, held, live, i, newsize);
  }

  /** The struct mem in front of a data pointer. */
  function BlockOf(c: Config, rmem: int): nat {
    if rmem < c.hdr then 0 else rmem - c.hdr
  }

  ghost predicate ValidSchedule(schedule: seq<seq<Op>>) {
    forall w, op :: w in schedule && op in w ==> ValidOp(op)
  }

  /** What taking block i leaves behind while the block is not yet handed out. */
  lemma TakeFacts(c: Config, L: Layout, live: set<nat>, i: nat, size: nat)
    requires Sound(c, L) && Owners(L, None, live)
    requires i == FirstFit(c, L, size) && i < |L| && c.min <= size && OnGrid(size, c.align)
    ensures L[i].start < c.size && L[i].end <= c.size && !L[i].used
    ensures Sound(c, AllocAt(c, L, i, size))
    ensures Owners(AllocAt(c, L, i, size), Some(L[i].start), live)
    ensures UsedBytes(AllocAt(c, L, i, size)) ==
            UsedBytes(L) + (if DataSize(c, L[i]) >= size + c.hdr + c.min then size + c.hdr else L[i].end - L[i].start)
    ensures LfreeOk(c, AllocAt(c, L, i, size), Some(L[i].start), Lowest(c, L))
  {
    OrderedAll(c, L);
    AllocWellFormed(c, L, i, size);
    AllocAligned(c, L, i, size);
    AllocUsed(c, L, i, size);
    AllocOwners(c, L, live, i, size);
    AllocLfree(c, L, i, size);
  }

  /** Taking a block leaves lfree right, unless the block was the lowest free one. */
  lemma AllocLfree(c: Config, L: Layout, i: nat, size: nat)
    requires WellFormed(c, L) && 0 < c.hdr && i < |L| && Fits(c, L[i], size) && c.min <= size
    ensures LfreeOk(c, AllocAt(c, L, i, size), Some(L[i].start), Lowest(c, L))
  {
    var f := FirstFree(L);
    var M := AllocAt(c, L, i, size);
    var p := L[i].start + c.hdr + size;
    AllocWellFormed(c, L, i, size);
    forall k | 0 <= k < |M| ensures k < i ==> M[k] == L[k] {
      if DataSize(c, L[i]) >= size + c.hdr + c.min { SplitBlock(L, i, p, k); }
    }
    if f < i {
      LowestIs(c, M, f);
    } else {
      assert f == i;
      var g := FirstFree(M);
      assert M[i].used && M[i].start == L[i].start by {
        if DataSize(c, L[i]) >= size + c.hdr + c.min { SplitBlock(L, i, p, i); }
      }
      assert g > i;
      OrderedAll(c, M);
    }
  }

  /**
   * The outcome of mem_malloc among the calls of other contexts: after `before`, either no block
   * fits, or the lowest fitting block is taken and only the calls `after` follow.
   */
  ghost predicate Allocated(c: Config, old_: Layout, new_: Layout, size: nat,
                            before: seq<Op>, after: seq<Op>, r: Option<nat>)
    requires c.align > 0
  {
    AllocatedNow(c, Run(c, old_, None, before), new_, size, after, r)
  }

  /** The first fit of the layout `mid` has been granted, and then came the calls `after`. */
  ghost predicate AllocatedNow(c: Config, mid: Layout, new_: Layout, size: nat, after: seq<Op>, r: Option<nat>)
    requires c.align > 0
  {
    var i := FirstFit(c, mid, size);
    match r
    case None => i == |mid| && after == [] && new_ == mid
    case Some(p) =>
      && i < |mid| && p == mid[i].start + c.hdr
      && new_ == Run(c, AllocAt(c, mid, i, size), Some(mid[i].start), after)
  }

  /** Block i is free and has at least x bytes of data. */
  predicate Holds(c: Config, L: Layout, i: nat, x: nat)
    requires i < |L|
  {
    !L[i].used && DataSize(c, L[i]) >= x
  }

  /** What a caller of mem_malloc gets: the lowest free block with x bytes of data, NULL if there is none. */
  ghost predicate Served(c: Config, L: Layout, x: nat, r: Option<nat>) {
    match r
    case None => forall j :: 0 <= j < |L| ==> !Holds(c, L, j, x)
    case Some(p) =>
      exists i :: 0 <= i < |L| && p == L[i].start + c.hdr && Holds(c, L, i, x)
                  && forall j :: 0 <= j < i ==> !Holds(c, L, j, x)
  }

  /** A request of any size above 0 succeeds exactly if there is a free block with that many data bytes. */
  lemma ServedExact(c: Config, old_: Layout, new_: Layout, x: nat, before: seq<Op>, after: seq<Op>, r: Option<nat>)
    requires Sound(c, old_) && x < SIZE_T_MOD && ValidOps(before)
    requires RequestSize(c, x).Some? ==> Allocated(c, old_, new_, RequestSize(c, x).value, before, after, r)
    requires RequestSize(c, x).None? ==> r.None?
    ensures Served(c, Run(c, old_, None, before), x, r)
  {
    var mid := Run(c, old_, None, before);
    RunSound(c, old_, None, before);
    if RequestSize(c, x).Some? {
      var i := FirstFit(c, mid, RequestSize(c, x).value);
      FirstFitExact(c, mid, x, i);
    } else {
      forall j | 0 <= j < |mid| ensures !Holds(c, mid, j, x) { AdjustedFits(c, mid, j, x); }
    }
  }

  /**
   * mem_trim in terms of the size x asked for: NULL exactly if the block is shorter than that. Otherwise the
   * block keeps its start; it keeps its end too, or it gets the smallest size that suits, and keeping its end
   * means that less than a header and a minimal block would have been won and nothing free is behind it.
   */
  ghost predicate TrimmedTo(c: Config, mem: nat, x: nat, before: Layout, after: Layout, r: Option<int>)
    requires c.align > 0
  {
    var i := IndexOf(before, mem);
    && i < |before|
    && (r.None? <==> x > DataSize(c, before[i]))
    && (r.Some? ==> r.value == mem + c.hdr)
    && (r.None? ==> after == before)
    && (r.Some? ==> i < |after| && after[i].start == mem && after[i].used && Cut(c, x, before, i, after[i]))
  }

  /** Block i has become b. */
  ghost predicate Cut(c: Config, x: nat, before: Layout, i: nat, b: Block)
    requires c.align > 0 && i < |before|
  {
    && DataSize(c, b) >= 0 && Suits(c, x, DataSize(c, b))
    && forall s: nat :: Suits(c, x, s) && s < DataSize(c, b) ==>
         b == before[i] && (i + 1 < |before| ==> before[i + 1].used) && DataSize(c, b) < s + c.hdr + c.min
  }

  lemma ShortenedRefused(c: Config, L: Layout, mem: nat, x: nat)
    requires Sound(c, L) && x < SIZE_T_MOD && RequestSize(c, x).None? && IndexOf(L, mem) < |L|
    ensures TrimmedTo(c, mem, x, L, L, None)
  {
    AdjustedFits(c, L, IndexOf(L, mem), x);
  }

  lemma ShortenedBy(c: Config, L: Layout, M: Layout, mem: nat, x: nat, size: nat, r: Option<int>)
    requires Sound(c, L) && x < SIZE_T_MOD && RequestSize(c, x) == Some(size)
    requires IndexOf(L, mem) < |L| && L[IndexOf(L, mem)].used && M == TrimAt(c, L, IndexOf(L, mem), size)
    requires r == (if size > DataSize(c, L[IndexOf(L, mem)]) then None else Some(mem + c.hdr))
    ensures TrimmedTo(c, mem, x, L, M, r)
  {
    var i := IndexOf(L, mem);
    AdjustedFits(c, L, i, x);
    RequestSizeExact(c, x);
    if r.Some? {
      DataSuits(c, L, i, x);
      forall s: nat | Suits(c, x, s) ensures size <= s { RequestSizeLeast(c, x, s); }
    }
  }

  lemma {:induction false} FlattenValid(w: seq<seq<Op>>)
    requires ValidSchedule(w)
    ensures ValidOps(Flatten(w))
  {
    if w != [] {
      var n := |w| - 1;
      assert forall v :: v in w[..n] ==> v in w;
      FlattenValid(w[..n]);
      assert w[n] in w;
    }
  }

  /** The calls of the first windows are valid, and so are those among them that come first. */
  lemma CallsValid(schedule: seq<seq<Op>>, k: nat, before: seq<Op>, after: seq<Op>)
    requires ValidSchedule(schedule) && k <= |schedule| && before + after == Flatten(schedule[..k])
    ensures ValidOps(before) && ValidOps(after)
  {
    assert forall v :: v in schedule[..k] ==> v in schedule;
    FlattenValid(schedule[..k]);
    forall op | op in before ensures ValidOp(op) { assert op in before + after; }
    forall op | op in after ensures ValidOp(op) { assert op in before + after; }
  }

  /** Block b was in L, perhaps with a longer tail. */
  ghost predicate ShrunkFrom(L: Layout, b: Block) {
    exists b0 :: b0 in L && b0.used && b0.start == b.start && b.end <= b0.end
  }

  /** No call names the block. */
  ghost predicate Unnamed(ops: seq<Op>, b: Block) {
    forall op :: op in ops ==> op.block != b.start
  }

  ghost predicate ValidOps(ops: seq<Op>) {
    forall op :: op in ops ==> ValidOp(op)
  }

  /** The two layouts on either side of the allocation are sound, and the new block survives. */
  lemma GrantedBlock(c: Config, mid: Layout, size: nat, after: seq<Op>, i: nat) returns (nb: Block)
    requires Sound(c, mid) && ValidOps(after) && c.min <= size && OnGrid(size, c.align)
    requires i < |mid| && Fits(c, mid[i], size)
    ensures Sound(c, AllocAt(c, mid, i, size))
    ensures Sound(c, Run(c, AllocAt(c, mid, i, size), Some(mid[i].start), after))
    ensures i < |AllocAt(c, mid, i, size)| && nb == AllocAt(c, mid, i, size)[i]
    ensures nb in Run(c, AllocAt(c, mid, i, size), Some(mid[i].start), after)
    ensures nb.used && nb.start == mid[i].start && size <= DataSize(c, nb) < size + c.hdr + c.min
    ensures OnGrid(nb.start + c.hdr, c.align)
  {
    var taken := AllocAt(c, mid, i, size);
    AllocWellFormed(c, mid, i, size);
    AllocAligned(c, mid, i, size);
    RunSound(c, taken, Some(mid[i].start), after);
    AllocSurvivors(c, mid, i, size, mid[i].(used := true));
    nb := taken[i];
    RunKeeps(c, taken, Some(mid[i].start), after, nb);
    assert GridAt(c, mid, i);
    GridAdd(mid[i].start, c.hdr, c.align);
  }

  /** Every other used block comes from the layout in front of the allocation. */
  lemma OtherBlock(c: Config, mid: Layout, size: nat, after: seq<Op>, i: nat, nb: Block, b: Block) returns (b1: Block)
    requires Sound(c, mid) && ValidOps(after) && i < |mid| && Fits(c, mid[i], size)
    requires Sound(c, AllocAt(c, mid, i, size))
    requires i < |AllocAt(c, mid, i, size)| && nb == AllocAt(c, mid, i, size)[i]
    requires var new_ := Run(c, AllocAt(c, mid, i, size), Some(mid[i].start), after);
             WellFormed(c, new_) && nb in new_ && b in new_ && b.used && b != nb
    ensures b1 in mid && b1.used && b1.start == b.start && b.end <= b1.end
  {
    var taken := AllocAt(c, mid, i, size);
    var new_ := Run(c, taken, Some(mid[i].start), after);
    b1 := RunShrinks(c, taken, Some(mid[i].start), after, b);
    AllocSurvivors(c, mid, i, size, b1);
    DistinctStarts(c, new_, b, nb);
  }

  lemma DistinctStarts(c: Config, L: Layout, a: Block, b: Block)
    requires WellFormed(c, L) && 0 < c.hdr && a in L && b in L && a != b
    ensures a.start != b.start
  {
    var i :| 0 <= i < |L| && L[i] == a;
    var j :| 0 <= j < |L| && L[j] == b;
    if a.start == b.start { UniqueStarts(c, L, i, j); }
  }

  /**
   * Safety of mem_malloc under interference: the returned block is used, aligned and large enough,
   * overlaps no other block, every other used block was there before and has at most lost its tail
   * to a mem_trim of its owner, and a used block that no call names is still there unchanged.
   */
  lemma AllocatedSafe(c: Config, old_: Layout, new_: Layout, sizeIn: nat, before: seq<Op>, after: seq<Op>,
                      p: nat) returns (nb: Block)
    requires Sound(c, old_) && 0 < sizeIn <= c.size < SIZE_T_MOD && ValidOps(before) && ValidOps(after)
    requires RequestSize(c, sizeIn).Some? && Allocated(c, old_, new_, RequestSize(c, sizeIn).value, before, after, Some(p))
    ensures Sound(c, new_)
    ensures nb in new_ && nb.used && p == nb.start + c.hdr && OnGrid(p, c.align) && p + sizeIn <= nb.end
    ensures forall s: nat :: Suits(c, sizeIn, s) ==> DataSize(c, nb) < s + c.hdr + c.min
    ensures forall b :: b in new_ && b != nb ==> b.end <= nb.start || nb.end <= b.start
    ensures forall b :: b in new_ && b.used && b != nb ==> ShrunkFrom(old_, b)
    ensures forall b :: b in old_ && b.used && Unnamed(before, b) && Unnamed(after, b) ==> b in new_
  {
    var size := RequestSize(c, sizeIn).value;
    RequestSizeExact(c, sizeIn);
    LeastSize(c, sizeIn);
    nb := SafeFor(c, old_, new_, sizeIn, size, before, after, p);
  }

  lemma LeastSize(c: Config, x: nat)
    requires c.Valid() && x < SIZE_T_MOD && RequestSize(c, x).Some?
    ensures forall s: nat :: Suits(c, x, s) ==> RequestSize(c, x).value <= s
  {
    forall s: nat | Suits(c, x, s) ensures RequestSize(c, x).value <= s { RequestSizeLeast(c, x, s); }
  }

  /** The same for an adjusted size. */
  lemma SafeFor(c: Config, old_: Layout, new_: Layout, x: nat, size: nat, before: seq<Op>, after: seq<Op>, p: nat)
    returns (nb: Block)
    requires Sound(c, old_) && ValidOps(before) && ValidOps(after)
    requires Suits(c, x, size) && forall s: nat :: Suits(c, x, s) ==> size <= s
    requires Allocated(c, old_, new_, size, before, after, Some(p))
    ensures Sound(c, new_)
    ensures nb in new_ && nb.used && p == nb.start + c.hdr && OnGrid(p, c.align) && p + x <= nb.end
    ensures forall s: nat :: Suits(c, x, s) ==> DataSize(c, nb) < s + c.hdr + c.min
    ensures forall b :: b in new_ && b != nb ==> b.end <= nb.start || nb.end <= b.start
    ensures forall b :: b in new_ && b.used && b != nb ==> ShrunkFrom(old_, b)
    ensures forall b :: b in old_ && b.used && Unnamed(before, b) && Unnamed(after, b) ==> b in new_
  {
    var mid := Run(c, old_, None, before);
    var i := FirstFit(c, mid, size);
    RunSound(c, old_, None, before);
    nb := GrantedBlock(c, mid, size, after, i);
    AllDisjoint(c, new_, nb);
    AllShrunk(c, old_, before, size, after, i, nb);
    AllKept(c, old_, before, size, after, i);
  }

  lemma AllDisjoint(c: Config, L: Layout, nb: Block)
    requires WellFormed(c, L) && nb in L
    ensures forall b :: b in L && b != nb ==> b.end <= nb.start || nb.end <= b.start
  {
    forall b | b in L && b != nb ensures b.end <= nb.start || nb.end <= b.start {
      BlocksDisjoint(c, L, b, nb);
    }
  }

  /** The layouts around the allocation, for the lemmas about its outcome. */
  ghost predicate Outcomes(c: Config, old_: Layout, before: seq<Op>, size: nat, after: seq<Op>, i: nat) {
    && Sound(c, old_) && ValidOps(before) && ValidOps(after) && c.min <= size && OnGrid(size, c.align)
    && var mid := Run(c, old_, None, before);
       i < |mid| && Fits(c, mid[i], size)
  }

  lemma AllShrunk(c: Config, old_: Layout, before: seq<Op>, size: nat, after: seq<Op>, i: nat, nb: Block)
    requires Outcomes(c, old_, before, size, after, i)
    requires var taken := AllocAt(c, Run(c, old_, None, before), i, size);
             i < |taken| && nb == taken[i] && nb in Run(c, taken, Some(Run(c, old_, None, before)[i].start), after)
    ensures var mid := Run(c, old_, None, before);
            forall b :: b in Run(c, AllocAt(c, mid, i, size), Some(mid[i].start), after) && b.used && b != nb ==>
              ShrunkFrom(old_, b)
  {
    var mid := Run(c, old_, None, before);
    var new_ := Run(c, AllocAt(c, mid, i, size), Some(mid[i].start), after);
    RunSound(c, old_, None, before);
    AllocWellFormed(c, mid, i, size);
    AllocAligned(c, mid, i, size);
    RunSound(c, AllocAt(c, mid, i, size), Some(mid[i].start), after);
    forall b: Block | b in new_ && b.used && b != nb ensures ShrunkFrom(old_, b) {
      var b1 := OtherBlock(c, mid, size, after, i, nb, b);
      var b0 := RunShrinks(c, old_, None, before, b1);
    }
  }

  lemma AllKept(c: Config, old_: Layout, before: seq<Op>, size: nat, after: seq<Op>, i: nat)
    requires Outcomes(c, old_, before, size, after, i)
    ensures var mid := Run(c, old_, None, before);
            forall b :: b in old_ && b.used && Unnamed(before, b) && Unnamed(after, b) ==>
              b in Run(c, AllocAt(c, mid, i, size), Some(mid[i].start), after)
  {
    forall b: Block | b in old_ && b.used && Unnamed(before, b) && Unnamed(after, b)
      ensures var mid := Run(c, old_, None, before);
              b in Run(c, AllocAt(c, mid, i, size), Some(mid[i].start), after)
    {
      OldBlock(c, old_, before, size, after, i, b);
    }
  }

  /** A block that nobody names stays as it is. */
  lemma OldBlock(c: Config, old_: Layout, before: seq<Op>, size: nat, after: seq<Op>, i: nat, b: Block)
    requires Sound(c, old_) && ValidOps(before) && ValidOps(after) && c.min <= size && OnGrid(size, c.align)
    requires var mid := Run(c, old_, None, before); i < |mid| && Fits(c, mid[i], size)
    requires b in old_ && b.used && Unnamed(before, b) && Unnamed(after, b)
    ensures var mid := Run(c, old_, None, before);
            b in Run(c, AllocAt(c, mid, i, size), Some(mid[i].start), after)
  {
    var mid := Run(c, old_, None, before);
    RunSound(c, old_, None, before);
    RunKeeps(c, old_, None, before, b);
    AllocWellFormed(c, mid, i, size);
    AllocAligned(c, mid, i, size);
    AllocSurvivors(c, mid, i, size, b);
    RunKeeps(c, AllocAt(c, mid, i, size), Some(mid[i].start), after, b);
  }

  /** Without interference mem_malloc is exactly first fit over the whole heap: lfree hides no block. */
  lemma SequentialMalloc(c: Config, L: Layout, M: Layout, size: nat, r: Option<nat>)
    requires Sound(c, L) && Allocated(c, L, M, size, [], [], r)
    ensures r.None? <==> forall b :: b in L ==> !Fits(c, b, size)
    ensures r.None? ==> M == L
    ensures r.Some? ==>
              exists i :: 0 <= i < |L| && Fits(c, L[i], size) && r.value == L[i].start + c.hdr
                          && (forall j :: 0 <= j < i ==> !Fits(c, L[j], size))
                          && M == AllocAt(c, L, i, size)
  {
    var i := FirstFit(c, L, size);
    if i < |L| { assert L[i] in L; }
  }

  lemma {:induction false} FlattenSplit(w: seq<seq<Op>>, k: nat)
    requires k <= |w|
    ensures Flatten(w) == Flatten(w[..k]) + Flatten(w[k..])
    decreases |w|
  {
    if k == |w| {
      assert w[..k] == w;
    } else {
      var n := |w| - 1;
      FlattenSplit(w[..n], k);
      assert w[..n][..k] == w[..k] && w[..n][k..] == w[k..][..|w[k..]| - 1];
      assert w[k..][|w[k..]| - 1] == w[n];
    }
  }

  lemma JoinWindows(schedule: seq<seq<Op>>, k: nat, n: nat)
    requires k <= n <= |schedule|
    ensures Flatten(schedule[0..k]) + Flatten(schedule[k..n]) == Flatten(schedule[..n])
    ensures Flatten(schedule[k..k]) == []
  {
    FlattenSplit(schedule[..n], k);
    assert schedule[..n][..k] == schedule[0..k] && schedule[..n][k..] == schedule[k..n];
  }

  /** The held block becomes one that a caller owns. */
  lemma HandOut(L: Layout, mem: nat, live: set<nat>)
    requires Owners(L, Some(mem), live)
    ensures Owners(L, None, live + {mem})
  {
    forall s: nat ensures OwnerAt(L, None, live + {mem}, s) {
      assert OwnerAt(L, Some(mem), live, s);
    }
  }

  /** How a pass of the search ends. */
  datatype Outcome = Found(mem: nat) | Exhausted | Disturbed

  /** One call made on the heap. */
  datatype Call = Alloc(size: nat, schedule: seq<seq<Op>>) | Other(op: Op)

  ghost predicate ValidCall(call: Call) {
    match call
    case Alloc(size, schedule) => size < SIZE_T_MOD && ValidSchedule(schedule)
    case Other(op) => ValidOp(op)
  }

  class Heap {
    const c: Config
    const ram: array<Header>
    var lfree: nat
    var memFreeCount: bool
    var used: int
    var live: set<nat>
    ghost var layout: Layout

    /** The block list is sound and stored in `ram`; the statistic and the owners agree with it. */
    ghost predicate Structured(held: Option<nat>)
      reads this, ram
    {
      && Sound(c, layout)
      && Represents(ram[..], c, layout)
      && used == UsedBytes(layout)
      && Owners(layout, held, live)
    }

    /**
     * The invariant between two critical sections. While mem_malloc holds a block that it has
     * marked used but not yet returned, lfree may still point at that block.
     */
    ghost predicate ValidFor(held: Option<nat>)
      reads this, ram
    {
      && Structured(held)
      && LfreeOk(c, layout, held, lfree)
    }

    ghost predicate Valid()
      reads this, ram
    {
      ValidFor(None)
    }

    /** mem_init */
    constructor (config: Config)
      requires config.Valid()
      ensures Valid() && fresh(ram)
      ensures c == config && layout == InitLayout(config) && live == {}
    {
      c := config;
      ram := new Header[config.size + 1](_ => Header(0, 0, false));
      lfree := 0;
      memFreeCount := false;
      used := 0;
      live := {};
      layout := InitLayout(config);
      new;
      ram[0] := Header(c.size, 0, false);
      ram[c.size] := Header(c.size, c.size, true);
      InitWellFormed(c);
      UsedSingle(layout[0]);
      assert Headed(ram[..], layout, 0);
    }

    /** Where block i of the layout is stored. */
    lemma BlockAt(held: Option<nat>, i: nat)
      requires Structured(held) && i < |layout|
      ensures layout[i].start + c.hdr + c.min <= layout[i].end <= c.size
      ensures layout[i].start < c.size
      ensures ram[layout[i].start] == HeaderOf(layout, i)
      ensures layout[i].end == StartOf(c, layout, i + 1)
    {
      assert Headed(ram[..], layout, i);
      OrderedAll(c, layout);
      assert Touches(layout, i);
    }

    /** plug_holes: combine the free block at mem with free neighbours. */
    method PlugHolesAt(mem: nat, ghost i: nat)
      requires Chained(c, layout) && 0 < c.hdr && Represents(ram[..], c, layout)
      requires i < |layout| && layout[i].start == mem < c.size && !layout[i].used
      modifies ram, `layout, `lfree
      ensures layout == PlugHoles(old(layout), i)
      ensures Represents(ram[..], c, layout)
      ensures lfree == LfreeBackward(old(layout), i, LfreeForward(old(layout), i, old(lfree)))
    {
      var nmem, _ := NextOf(mem, i);
      if mem != nmem && !ram[nmem].used && nmem != c.size {
        ghost var h := ram[..];
        assert Headed(h, layout, i + 1);
        RepJoin(h, c, layout, i);
        JoinChained(c, layout, i);
        if lfree == nmem {
          lfree := mem;
        }
        ram[mem] := ram[mem].(next := ram[nmem].next);
        if ram[nmem].next != c.size {
          ram[ram[nmem].next] := ram[ram[nmem].next].(prev := mem);
        }
        assert ram[..] == JoinHeaders(h, c.size, mem, h[nmem].next);
        layout := JoinNext(layout, i);
      }
      assert layout == PlugForward(old(layout), i);
      PlugBack(mem, i);
    }

    /** The backward half of plug_holes. */
    method PlugBack(mem: nat, ghost i: nat)
      requires Chained(c, layout) && 0 < c.hdr && Represents(ram[..], c, layout)
      requires i < |layout| && layout[i].start == mem < c.size && layout[i].end <= c.size && !layout[i].used
      modifies ram, `layout, `lfree
      ensures layout == PlugBackward(old(layout), i)
      ensures Represents(ram[..], c, layout)
      ensures lfree == LfreeBackward(old(layout), i, old(lfree))
    {
      assert Headed(ram[..], layout, i);
      assert i > 0 ==> Headed(ram[..], layout, i - 1) && Touches(layout, i - 1);
      var pmem := ram[mem].prev;
      if pmem != mem && !ram[pmem].used {
        ghost var h := ram[..];
        RepJoin(h, c, layout, i - 1);
        if lfree == mem {
          lfree := pmem;
        }
        ram[pmem] := ram[pmem].(next := ram[mem].next);
        if ram[mem].next != c.size {
          ram[ram[mem].next] := ram[ram[mem].next].(prev := pmem);
        }
        assert ram[..] == JoinHeaders(h, c.size, pmem, h[mem].next);
        layout := JoinNext(layout, i - 1);
      }
    }

    /**
     * mem_free. The source trusts that a pointer whose header looks used and correctly linked is
     * the data pointer of a block the caller owns; every other pointer is refused.
     */
    method Free(rmem: Option<int>, ghost held: Option<nat>)
      requires ValidFor(held)
      requires Accepts(rmem) ==> BlockOf(c, rmem.value) in live
      modifies this, ram
      ensures ValidFor(held)
      ensures old(Accepts(rmem)) ==>
                && layout == Apply(c, old(layout), held, FreeOp(BlockOf(c, rmem.value)))
                && live == old(live) - {BlockOf(c, rmem.value)}
                && memFreeCount
      ensures !old(Accepts(rmem)) ==> unchanged(this) && unchanged(ram)
    {
      if rmem.None? {
        return;
      }
      if rmem.value % c.align != 0 {
        return;
      }
      if rmem.value - c.hdr < 0 || rmem.value + c.min > c.size {
        return;
      }
      var mem := BlockOf(c, rmem.value);
      if !ram[mem].used {
        return;
      }
      if !LinkValid(ram[..], c.size, mem) {
        return;
      }
      FreeBlock(mem, held);
    }

    /** The pointer passes the checks of mem_free. */
    ghost predicate Accepts(rmem: Option<int>)
      requires 0 < c.align && ram.Length == c.size + 1
      reads ram
    {
      && rmem.Some?
      && rmem.value % c.align == 0
      && 0 <= rmem.value - c.hdr && rmem.value + c.min <= c.size
      && ram[BlockOf(c, rmem.value)].used
      && LinkValid(ram[..], c.size, BlockOf(c, rmem.value))
    }

    /** No owned block is ever refused. */
    lemma OwnedAccepted(held: Option<nat>, m: nat)
      requires ValidFor(held) && m in live
      ensures Accepts(Some(m + c.hdr))
    {
      OwnedIffLive(c, layout, held, live, m);
      var i := IndexOf(layout, m);
      BlockAt(held, i);
      BlocksLinkValid(ram[..], c, layout, i);
      assert GridAt(c, layout, i);
      GridAdd(m, c.hdr, c.align);
      GridIsMod(m + c.hdr, c.align);
    }

    /** The critical section of mem_free on the block list alone. */
    method ReleaseBlock(mem: nat, ghost i: nat)
      requires Chained(c, layout) && 0 < c.hdr && Represents(ram[..], c, layout)
      requires i < |layout| && layout[i].start == mem < c.size
      modifies this, ram
      ensures layout == FreeAt(old(layout), i)
      ensures Represents(ram[..], c, layout)
      ensures live == old(live) - {mem} && memFreeCount
      ensures used == old(used) - (old(layout)[i].end - mem)
      ensures var lowered := if mem < old(lfree) then mem else old(lfree);
              var M := MarkFree(old(layout), i);
              lfree == LfreeBackward(M, i, LfreeForward(M, i, lowered))
    {
      ghost var h := ram[..];
      ghost var M := MarkFree(layout, i);
      RepMark(h, c, layout, i, false);
      MarkChained(c, layout, i);
      assert Headed(h, layout, i);

      ram[mem] := ram[mem].(used := false);
      assert ram[..] == h[mem := h[mem].(used := false)];
      layout := M;
      if mem < lfree {
        lfree := mem;
      }
      used := used - (ram[mem].next - mem);
      PlugHolesAt(mem, i);
      memFreeCount := true;
      live := live - {mem};
    }

    /** The critical section of mem_free. */
    method FreeBlock(mem: nat, ghost held: Option<nat>)
      requires ValidFor(held) && mem in live
      modifies this, ram
      ensures ValidFor(held)
      ensures layout == Apply(c, old(layout), held, FreeOp(mem))
      ensures live == old(live) - {mem}
      ensures memFreeCount
    {
      OwnedIffLive(c, layout, held, live, mem);
      ghost var i := IndexOf(layout, mem);
      FreeFacts(c, layout, held, live, lfree, i);
      ReleaseBlock(mem, i);
    }

    /** Create a free struct mem at ptr2 in the middle of the block at mem, and mark that block used. */
    method CutAt(mem: nat, ptr2: nat, ghost i: nat)
      requires Chained(c, layout) && 0 < c.hdr && Represents(ram[..], c, layout)
      requires i < |layout| && layout[i].start == mem < ptr2 < layout[i].end <= c.size
      modifies ram, `layout
      ensures layout == SplitAt(old(layout), i, ptr2)
      ensures Represents(ram[..], c, layout)
    {
      ghost var h, L := ram[..], layout;
      assert Headed(h, L, i);
      assert Touches(L, i);
      RepSplit(h, c, L, i, ptr2);
      var next := ram[mem].next;
      ram[ptr2] := Header(next, mem, false);
      ram[mem] := ram[mem].(next := ptr2, used := true);
      if next != c.size {
        ram[next] := ram[next].(prev := ptr2);
      }
      assert ram[..] == SplitHeaders(h, c.size, mem, ptr2, next);
      layout := SplitAt(layout, i, ptr2);
    }

    /** Move the free struct mem behind the block at mem down to ptr2. */
    method MoveDown(mem: nat, ptr2: nat, ghost i: nat)
      requires Chained(c, layout) && 0 < c.hdr && Represents(ram[..], c, layout)
      requires i + 1 < |layout| && layout[i].start == mem < ptr2 < layout[i].end
      requires !layout[i + 1].used && layout[i].end < c.size && layout[i + 1].end <= c.size
      modifies ram, `layout
      ensures layout == MoveBorder(old(layout), i, ptr2)
      ensures Represents(ram[..], c, layout)
    {
      ghost var h, L := ram[..], layout;
      assert Headed(h, L, i) && Headed(h, L, i + 1);
      assert Touches(L, i);
      RepMove(h, c, L, i, ptr2);
      var next := ram[ram[mem].next].next;
      ram[ptr2] := Header(next, mem, false);
      ram[mem] := ram[mem].(next := ptr2);
      if next != c.size {
        ram[next] := ram[next].(prev := ptr2);
      }
      assert ram[..] == MoveHeaders(h, c.size, mem, ptr2, next);
      layout := MoveBorder(layout, i, ptr2);
    }

    /** The critical section of mem_trim on the block list alone. */
    method ShrinkBlock(mem: nat, newsize: nat, ghost i: nat)
      requires Chained(c, layout) && 0 < c.hdr && 0 < newsize && Represents(ram[..], c, layout)
      requires i < |layout| && layout[i].start == mem < c.size && layout[i].used
      requires newsize < DataSize(c, layout[i])
      modifies ram, `layout, `lfree, `used, `memFreeCount
      ensures layout == TrimAt(c, old(layout), i, newsize)
      ensures Represents(ram[..], c, layout)
      ensures memFreeCount
      ensures used == old(used) -
              (if TrimChanges(c, old(layout), i, newsize) then DataSize(c, old(layout)[i]) - newsize else 0)
      ensures lfree == TrimLfree(c, old(layout), i, newsize, old(lfree))
    {
      var mem2, size := NextOf(mem, i);
      var ptr2 := mem + c.hdr + newsize;
      if !ram[mem2].used {
        if lfree == mem2 {
          lfree := ptr2;
        }
        MoveDown(mem, ptr2, i);
        used := used - (size - newsize);
      } else if newsize + c.hdr + c.min <= size {
        if ptr2 < lfree {
          lfree := ptr2;
        }
        CutAt(mem, ptr2, i);
        used := used - (size - newsize);
      }
      memFreeCount := true;
    }

    /** Follow mem->next, and compute the data size of the block at mem. */
    method NextOf(mem: nat, ghost i: nat) returns (next: nat, size: int)
      requires Chained(c, layout) && Represents(ram[..], c, layout)
      requires i < |layout| && layout[i].start == mem < c.size
      ensures next == StartOf(c, layout, i + 1) == layout[i].end <= c.size
      ensures size == DataSize(c, layout[i])
      ensures ram[next].used <==> (i + 1 < |layout| ==> layout[i + 1].used)
      ensures i + 1 < |layout| ==> layout[i].end < layout[i + 1].end <= c.size || c.hdr + c.min == 0
      ensures i + 1 < |layout| && 0 < c.hdr ==> layout[i].end < c.size
    {
      OrderedAll(c, layout);
      assert Headed(ram[..], layout, i);
      assert Touches(layout, i);
      assert i + 1 < |layout| ==> Headed(ram[..], layout, i + 1);
      next := ram[mem].next;
      size := next - mem - c.hdr;
    }

    /** mem_trim. A pointer inside the heap has to belong to a block the caller owns. */
    method Trim(rmem: int, newSize: nat, ghost held: Option<nat>) returns (r: Option<int>)
      requires ValidFor(held) && newSize < SIZE_T_MOD
      requires 0 <= rmem < c.size ==> c.hdr <= rmem && BlockOf(c, rmem) in live
      modifies this, ram
      ensures ValidFor(held) && live == old(live)
      ensures var s := RequestSize(c, newSize);
              s.Some? && 0 <= rmem < c.size ==>
                && layout == Apply(c, old(layout), held, TrimOp(BlockOf(c, rmem), newSize))
                && Trimmed(BlockOf(c, rmem), s.value, old(layout), layout, old(memFreeCount), memFreeCount, r)
      ensures memFreeCount || (unchanged(this) && unchanged(ram))
      ensures 0 <= rmem < c.size ==> TrimmedTo(c, BlockOf(c, rmem), newSize, old(layout), layout, r)
      ensures RequestSize(c, newSize).None? ==> r == None && unchanged(this) && unchanged(ram)
      ensures RequestSize(c, newSize).Some? && !(0 <= rmem < c.size) ==>
                r == Some(rmem) && unchanged(this) && unchanged(ram)
    {
      var adjusted := RequestSize(c, newSize);
      if 0 <= rmem < c.size {
        OwnedIffLive(c, layout, held, live, BlockOf(c, rmem));
      }
      if adjusted.None? {
        if 0 <= rmem < c.size { ShortenedRefused(c, layout, BlockOf(c, rmem), newSize); }
        return None;
      }
      if rmem < 0 || rmem >= c.size {
        return Some(rmem);
      }
      RequestSizeExact(c, newSize);
      r := TrimOwned(BlockOf(c, rmem), adjusted.value, held);
      ShortenedBy(c, old(layout), layout, BlockOf(c, rmem), newSize, adjusted.value, r);
    }

    /** The layout is trimmed; NULL is returned if and only if the block would have to grow. */
    ghost predicate Trimmed(mem: nat, newsize: nat, before: Layout, after: Layout,
                            flagBefore: bool, flagAfter: bool, r: Option<int>)
    {
      var i := IndexOf(before, mem);
      && i < |before|
      && after == TrimAt(c, before, i, newsize)
      && r == (if newsize > DataSize(c, before[i]) then None else Some(mem + c.hdr))
      && flagAfter == (flagBefore || newsize < DataSize(c, before[i]))
    }

    /** mem_trim on the block at mem, for an adjusted size. */
    method TrimOwned(mem: nat, newsize: nat, ghost held: Option<nat>) returns (r: Option<int>)
      requires ValidFor(held) && mem in live
      requires c.min <= newsize && OnGrid(newsize, c.align)
      modifies this, ram
      ensures ValidFor(held) && live == old(live)
      ensures memFreeCount || (unchanged(this) && unchanged(ram))
      ensures Trimmed(mem, newsize, old(layout), layout, old(memFreeCount), memFreeCount, r)
    {
      ghost var i := IndexOf(layout, mem);
      OwnedIffLive(c, layout, held, live, mem);
      BlockAt(held, i);
      var _, size := NextOf(mem, i);
      if newsize > size {
        r := None;
      } else {
        r := Some(mem + c.hdr);
        if newsize != size {
          TrimBlock(mem, newsize, held, i);
        }
      }
    }

    method TrimBlock(mem: nat, newsize: nat, ghost held: Option<nat>, ghost i: nat)
      requires ValidFor(held)
      requires i < |layout| && layout[i].start == mem < c.size && layout[i].used && newsize < DataSize(c, layout[i])
      requires c.min <= newsize && OnGrid(newsize, c.align)
      modifies this, ram
      ensures ValidFor(held) && live == old(live)
      ensures layout == TrimAt(c, old(layout), i, newsize) && memFreeCount
    {
      TrimFacts(c, layout, held, live, lfree, i, newsize);
      ShrinkBlock(mem, newsize, i);
    }

    // -------------------------------------------------------------- mem_malloc

    /** The data pointer of an owned block lies inside the heap. */
    lemma OwnedInside(held: Option<nat>, m: nat)
      requires ValidFor(held) && m in live
      ensures m + c.hdr < c.size
    {
      OwnedIffLive(c, layout, held, live, m);
      BlockAt(held, IndexOf(layout, m));
    }

    /** Another context makes one call, if it owns the block it names. */
    method OtherCall(op: Op, ghost held: Option<nat>)
      requires ValidFor(held) && ValidOp(op)
      modifies this, ram
      ensures ValidFor(held)
      ensures layout == Apply(c, old(layout), held, op)
      ensures memFreeCount || (unchanged(this) && unchanged(ram))
    {
      OwnedIffLive(c, layout, held, live, op.block);
      if op.block in live {
        match op
        case FreeOp(block) =>
          OwnedAccepted(held, block);
          Free(Some(block + c.hdr), held);
        case TrimOp(block, newSize) =>
          OwnedInside(held, block);
          var _ := Trim(block + c.hdr, newSize, held);
      }
    }

    /** The unprotected window: other contexts call mem_free and mem_trim any number of times. */
    method Window(ops: seq<Op>, ghost held: Option<nat>)
      requires ValidFor(held) && forall op :: op in ops ==> ValidOp(op)
      modifies this, ram
      ensures ValidFor(held)
      ensures layout == Run(c, old(layout), held, ops)
      ensures memFreeCount ==> ops != []
      ensures !memFreeCount ==> lfree == old(lfree) && layout == old(layout) && unchanged(ram)
    {
      memFreeCount := false;
      for k := 0 to |ops|
        invariant ValidFor(held)
        invariant layout == Run(c, old(layout), held, ops[..k])
        invariant memFreeCount ==> k > 0
        invariant !memFreeCount ==> lfree == old(lfree) && layout == old(layout) && unchanged(ram)
      {
        assert ops[..k + 1][..k] == ops[..k];
        OtherCall(ops[k], held);
      }
      assert ops[..|ops|] == ops;
    }

    /** Is the block at ptr free and large enough, and where is the next one? */
    method LookAt(ptr: nat, size: nat, ghost i: nat) returns (fits: bool, next: nat)
      requires Structured(None) && i < |layout| && ptr == layout[i].start
      ensures ptr < next == StartOf(c, layout, i + 1) <= c.size
      ensures fits <==> Fits(c, layout[i], size)
    {
      BlockAt(None, i);
      fits := !ram[ptr].used && ram[ptr].next - (ptr + c.hdr) >= size;
      next := ram[ptr].next;
    }

    /**
     * One pass of the search loop of mem_malloc: scan from lfree and open a window before looking
     * at each block; give up the pass when a call went through in a window.
     */
    method ScanOnce(size: nat, schedule: seq<seq<Op>>, k: nat, ghost start: Layout)
      returns (outcome: Outcome, k': nat)
      requires Valid() && size <= c.size && k <= |schedule| && ValidSchedule(schedule)
      requires layout == Run(c, start, None, Flatten(schedule[0..k]))
      modifies this, ram
      ensures Valid() && k <= k' <= |schedule|
      ensures layout == Run(c, start, None, Flatten(schedule[0..k']))
      ensures outcome.Disturbed? ==> k < k'
      ensures outcome.Found? ==> FirstFit(c, layout, size) < |layout|
                                 && outcome.mem == layout[FirstFit(c, layout, size)].start
      ensures outcome.Exhausted? ==> FirstFit(c, layout, size) == |layout|
    {
      ghost var i: nat;
      outcome, k', i := Pass(size, schedule, k, start);
      if outcome.Found? {
        FirstFitIs(c, layout, size, i);
      } else if outcome.Exhausted? {
        NothingBeyond(c, layout, size, i);
      }
    }

    ghost predicate NoneBefore(i: nat, size: nat)
      reads this
    {
      i <= |layout| && forall j :: 0 <= j < i ==> !Fits(c, layout[j], size)
    }

    /** The loop itself; i is the block at which it ends. */
    method Pass(size: nat, schedule: seq<seq<Op>>, k: nat, ghost start: Layout)
      returns (outcome: Outcome, k': nat, ghost i: nat)
      requires Valid() && size <= c.size && k <= |schedule| && ValidSchedule(schedule)
      requires layout == Run(c, start, None, Flatten(schedule[0..k]))
      modifies this, ram
      ensures Valid() && k <= k' <= |schedule|
      ensures layout == Run(c, start, None, Flatten(schedule[0..k']))
      ensures outcome.Disturbed? ==> k < k'
      ensures !outcome.Disturbed? ==> NoneBefore(i, size)
      ensures outcome.Found? ==> i < |layout| && outcome.mem == layout[i].start && Fits(c, layout[i], size)
      ensures outcome.Exhausted? ==> StartOf(c, layout, i) >= c.size - size
    {
      k' := k;
      var ptr := lfree;
      i := FirstFree(layout);
      ScanStart(size);
      while ptr < c.size - size
        invariant Valid() && k <= k' <= |schedule|
        invariant layout == Run(c, start, None, Flatten(schedule[0..k']))
        invariant NoneBefore(i, size) && ptr == StartOf(c, layout, i)
        decreases c.size - ptr
      {
        var next;
        outcome, next, k', i := ScanRound(ptr, size, schedule, k', start, i);
        if !outcome.Exhausted? {
          return;
        }
        ptr := next;
      }
      outcome := Exhausted;
    }

    /** One round of the search loop; Exhausted: it goes on, with block i' at next. */
    method ScanRound(ptr: nat, size: nat, schedule: seq<seq<Op>>, k: nat, ghost start: Layout, ghost i: nat)
      returns (outcome: Outcome, next: nat, k': nat, ghost i': nat)
      requires Valid() && k <= |schedule| && ValidSchedule(schedule)
      requires layout == Run(c, start, None, Flatten(schedule[0..k]))
      requires NoneBefore(i, size) && ptr == StartOf(c, layout, i) && ptr < c.size
      modifies this, ram
      ensures Valid() && k <= k' <= |schedule|
      ensures layout == Run(c, start, None, Flatten(schedule[0..k']))
      ensures outcome.Disturbed? ==> k < k'
      ensures !outcome.Disturbed? ==> NoneBefore(i', size)
      ensures outcome.Found? ==> i' < |layout| && outcome.mem == layout[i'].start && Fits(c, layout[i'], size)
      ensures outcome.Exhausted? ==> next == StartOf(c, layout, i') && ptr < next <= c.size
    {
      var disturbed, fits;
      disturbed, fits, next, k' := ScanStep(ptr, size, schedule, k, start, i);
      i' := if disturbed || fits then i else i + 1;
      outcome := if disturbed then Disturbed else if fits then Found(ptr) else Exhausted;
    }

    lemma NoneBeforeNext(i: nat, size: nat)
      requires NoneBefore(i, size) && i < |layout| && !Fits(c, layout[i], size)
      ensures NoneBefore(i + 1, size)
    {
    }

    /** No block in front of lfree fits. */
    lemma ScanStart(size: nat)
      requires Valid()
      ensures NoneBefore(FirstFree(layout), size) && lfree == StartOf(c, layout, FirstFree(layout))
    {
    }

    /** The window, and a look at the block at ptr. */
    method ScanStep(ptr: nat, size: nat, schedule: seq<seq<Op>>, k: nat, ghost start: Layout, ghost i: nat)
      returns (disturbed: bool, fits: bool, next: nat, k': nat)
      requires Valid() && k <= |schedule| && ValidSchedule(schedule)
      requires layout == Run(c, start, None, Flatten(schedule[0..k]))
      requires NoneBefore(i, size) && ptr == StartOf(c, layout, i) && ptr < c.size
      modifies this, ram
      ensures Valid() && k <= k' <= |schedule|
      ensures layout == Run(c, start, None, Flatten(schedule[0..k']))
      ensures disturbed ==> k < k'
      ensures !disturbed && fits ==>
                NoneBefore(i, size) && i < |layout| && ptr == layout[i].start && Fits(c, layout[i], size)
      ensures !disturbed && !fits ==> NoneBefore(i + 1, size) && ptr < next == StartOf(c, layout, i + 1) <= c.size
    {
      fits, next := false, ptr;
      k' := NextWindow(schedule, 0, k, start, None);
      disturbed := memFreeCount;
      if !disturbed {
        fits, next := LookAt(ptr, size, i);
        if !fits { NoneBeforeNext(i, size); }
      }
    }

    /** The outer loop of mem_malloc: start over as long as a pass was disturbed. */
    method Scan(size: nat, schedule: seq<seq<Op>>) returns (outcome: Outcome, k: nat, ghost before: seq<Op>)
      requires Valid() && size <= c.size && ValidSchedule(schedule)
      modifies this, ram
      ensures Valid() && k <= |schedule|
      ensures before == Flatten(schedule[0..k]) && before + [] == Flatten(schedule[..k])
      ensures layout == Run(c, old(layout), None, before)
      ensures outcome.Found? ==> FirstFit(c, layout, size) < |layout|
                                 && outcome.mem == layout[FirstFit(c, layout, size)].start
      ensures !outcome.Found? ==> FirstFit(c, layout, size) == |layout|
    {
      k := 0;
      assert schedule[0..0] == [];
      outcome := Disturbed;
      while outcome.Disturbed?
        invariant Valid() && k <= |schedule|
        invariant layout == Run(c, old(layout), None, Flatten(schedule[0..k]))
        invariant outcome.Found? ==> FirstFit(c, layout, size) < |layout|
                                     && outcome.mem == layout[FirstFit(c, layout, size)].start
        invariant outcome.Exhausted? ==> FirstFit(c, layout, size) == |layout|
        decreases |schedule| - k, outcome.Disturbed?
      {
        outcome, k := ScanOnce(size, schedule, k, old(layout));
      }
      before := Flatten(schedule[0..k]);
      JoinWindows(schedule, k, k);
    }

    /** Run window number k, if the schedule has one, and extend the history since window lo. */
    method NextWindow(schedule: seq<seq<Op>>, ghost lo: nat, k: nat, ghost start: Layout, ghost held: Option<nat>)
      returns (k': nat)
      requires ValidFor(held) && lo <= k <= |schedule| && ValidSchedule(schedule)
      requires layout == Run(c, start, held, Flatten(schedule[lo..k]))
      modifies this, ram
      ensures ValidFor(held) && k <= k' <= |schedule|
      ensures layout == Run(c, start, held, Flatten(schedule[lo..k']))
      ensures memFreeCount ==> k < k'
      ensures !memFreeCount ==> lfree == old(lfree) && layout == old(layout) && unchanged(ram)
    {
      var ops := if k < |schedule| then schedule[k] else [];
      k' := if k < |schedule| then k + 1 else k;
      RunNext(c, start, held, schedule, lo, k, k', ops);
      Window(ops, held);
    }

    /** mem_malloc marks the block it found as used, splitting off the remainder if that is worth it. */
    method TakeBlock(mem: nat, size: nat, ghost i: nat)
      requires Chained(c, layout) && 0 < c.hdr && 0 < size && Represents(ram[..], c, layout)
      requires i < |layout| && layout[i].start == mem < c.size && layout[i].end <= c.size && !layout[i].used
      requires DataSize(c, layout[i]) >= size
      modifies ram, `layout, `used
      ensures layout == AllocAt(c, old(layout), i, size)
      ensures Represents(ram[..], c, layout)
      ensures var b := old(layout)[i];
              used == old(used) +
              (if DataSize(c, b) >= size + c.hdr + c.min then size + c.hdr else b.end - b.start)
    {
      ghost var h := ram[..];
      assert Headed(h, layout, i);
      if ram[mem].next - (mem + c.hdr) >= size + c.hdr + c.min {
        CutAt(mem, mem + c.hdr + size, i);
        used := used + (size + c.hdr);
      } else {
        RepMark(h, c, layout, i, true);
        ram[mem] := ram[mem].(used := true);
        assert ram[..] == h[mem := h[mem].(used := true)];
        used := used + (ram[mem].next - mem);
        layout := layout[i := layout[i].(used := true)];
      }
    }

    /** The part of mem_malloc behind label mem_malloc_adjust_lfree. */
    method AdjustLfree(mem: nat, schedule: seq<seq<Op>>, k0: nat) returns (k: nat)
      requires ValidFor(Some(mem)) && k0 <= |schedule| && ValidSchedule(schedule)
      modifies this, ram
      ensures ValidFor(Some(mem)) && lfree == Lowest(c, layout)
      ensures k0 <= k <= |schedule|
      ensures layout == Run(c, old(layout), Some(mem), Flatten(schedule[k0..k]))
    {
      k := k0;
      var again := true;
      assert schedule[k0..k0] == [];
      while again
        invariant ValidFor(Some(mem)) && k0 <= k <= |schedule|
        invariant layout == Run(c, old(layout), Some(mem), Flatten(schedule[k0..k]))
        invariant !again ==> lfree == Lowest(c, layout)
        decreases |schedule| - k, again
      {
        again := false;
        if mem == lfree {
          again, k := FindNextFree(mem, schedule, k0, k, old(layout));
        }
      }
    }

    /** Walk up from the held block to the next free one; stop early if a call went through. */
    method WalkUp(mem: nat, schedule: seq<seq<Op>>, ghost k0: nat, k: nat, ghost start: Layout)
      returns (again: bool, cur: nat, k': nat)
      requires ValidFor(Some(mem)) && mem == lfree && k0 <= k <= |schedule| && ValidSchedule(schedule)
      requires layout == Run(c, start, Some(mem), Flatten(schedule[k0..k]))
      modifies this, ram
      ensures ValidFor(Some(mem)) && k <= k' <= |schedule|
      ensures layout == Run(c, start, Some(mem), Flatten(schedule[k0..k']))
      ensures if again then k < k' else cur == Lowest(c, layout)
    {
      k', again, cur := k, false, lfree;
      ghost var i: nat := HeldIndex(mem);
      BlockAt(Some(mem), i);
      while ram[cur].used && cur != c.size
        invariant ValidFor(Some(mem)) && k <= k' <= |schedule|
        invariant layout == Run(c, start, Some(mem), Flatten(schedule[k0..k']))
        invariant i <= FirstFree(layout) && cur == StartOf(c, layout, i) && cur <= c.size
        decreases c.size - cur
      {
        k' := NextWindow(schedule, k0, k', start, Some(mem));
        if memFreeCount {
          again := true;
          return;
        }
        cur := StepUp(cur, i, Some(mem));
        i := i + 1;
      }
      ReachedLowest(Some(mem), i);
    }

    method StepUp(cur: nat, ghost i: nat, ghost held: Option<nat>) returns (next: nat)
      requires Structured(held) && i <= FirstFree(layout) && cur == StartOf(c, layout, i)
      requires cur < c.size && ram[cur].used
      ensures i + 1 <= FirstFree(layout) && next == StartOf(c, layout, i + 1) && cur < next <= c.size
    {
      BlockAt(held, i);
      next := ram[cur].next;
    }

    /** A walk over used blocks that stops at a free one, or at ram_end, is at the lowest free block. */
    lemma ReachedLowest(held: Option<nat>, i: nat)
      requires Structured(held) && i <= FirstFree(layout)
      requires StartOf(c, layout, i) <= c.size
      requires !ram[StartOf(c, layout, i)].used || StartOf(c, layout, i) == c.size
      ensures StartOf(c, layout, i) == Lowest(c, layout)
    {
      if i < |layout| {
        BlockAt(held, i);
      }
    }

    method FindNextFree(mem: nat, schedule: seq<seq<Op>>, ghost k0: nat, k: nat, ghost start: Layout)
      returns (again: bool, k': nat)
      requires ValidFor(Some(mem)) && mem == lfree && k0 <= k <= |schedule| && ValidSchedule(schedule)
      requires layout == Run(c, start, Some(mem), Flatten(schedule[k0..k]))
      modifies this, ram
      ensures ValidFor(Some(mem)) && k <= k' <= |schedule|
      ensures layout == Run(c, start, Some(mem), Flatten(schedule[k0..k']))
      ensures if again then k < k' else lfree == Lowest(c, layout)
    {
      var cur;
      again, cur, k' := WalkUp(mem, schedule, k0, k, start);
      if !again {
        lfree := cur;
      }
    }

    /** The held block and everything in front of it is used. */
    lemma HeldIndex(mem: nat) returns (i: nat)
      requires ValidFor(Some(mem)) && lfree == mem
      ensures i < |layout| && layout[i].start == mem && i < FirstFree(layout)
    {
      var b :| b in layout && b.used && b.start == mem;
      i :| 0 <= i < |layout| && layout[i] == b;
      LowestBounds(c, layout, i);
      var f := FirstFree(layout);
      if f < i { Ordered(c, layout, f, i); }
    }

    /**
     * mem_malloc with other contexts calling mem_free and mem_trim in its windows. Whatever they do,
     * the outcome is that of one atomic first-fit allocation between two of their calls: `before`
     * are the calls that come first, `after` those that come later.
     */
    method Malloc(sizeIn: nat, schedule: seq<seq<Op>>)
      returns (r: Option<nat>, ghost before: seq<Op>, ghost after: seq<Op>, ghost windows: nat)
      requires Valid() && sizeIn < SIZE_T_MOD && ValidSchedule(schedule)
      modifies this, ram
      ensures Valid()
      ensures windows <= |schedule| && before + after == Flatten(schedule[..windows])
      ensures sizeIn == 0 || sizeIn > c.size ==> r == None && unchanged(this) && unchanged(ram) && windows == 0
      ensures 0 < sizeIn <= c.size ==>
                && RequestSize(c, sizeIn).Some?
                && Allocated(c, old(layout), layout, RequestSize(c, sizeIn).value, before, after, r)
      ensures 0 < sizeIn ==> Served(c, Run(c, old(layout), None, before), sizeIn, r)
      ensures r.Some? ==> BlockOf(c, r.value) in live
    {
      before, after, windows := [], [], 0;
      RequestSizeExact(c, sizeIn);
      if sizeIn == 0 {
        return None, [], [], 0;
      }
      var request := RequestSize(c, sizeIn);
      if request.None? {
        ServedExact(c, layout, layout, sizeIn, [], [], None);
        return None, [], [], 0;
      }
      r, before, after, windows := MallocSized(request.value, schedule);
      CallsValid(schedule, windows, before, after);
      ServedExact(c, old(layout), layout, sizeIn, before, after, r);
    }

    /** mem_malloc for an adjusted size. */
    method MallocSized(size: nat, schedule: seq<seq<Op>>)
      returns (r: Option<nat>, ghost before: seq<Op>, ghost after: seq<Op>, ghost windows: nat)
      requires Valid() && ValidSchedule(schedule) && c.min <= size <= c.size && OnGrid(size, c.align)
      modifies this, ram
      ensures Valid()
      ensures windows <= |schedule| && before + after == Flatten(schedule[..windows])
      ensures Allocated(c, old(layout), layout, size, before, after, r)
      ensures r.Some? ==> BlockOf(c, r.value) in live
    {
      var outcome, k, calls := Scan(size, schedule);
      before := calls;
      r, after, windows := Answer(outcome, size, schedule, k, before);
    }

    /** The end of mem_malloc, when the search is over. */
    method Answer(outcome: Outcome, size: nat, schedule: seq<seq<Op>>, k: nat, ghost before: seq<Op>)
      returns (r: Option<nat>, ghost after: seq<Op>, ghost windows: nat)
      requires Valid() && ValidSchedule(schedule) && c.min <= size <= c.size && OnGrid(size, c.align)
      requires k <= |schedule| && before == Flatten(schedule[0..k]) && before + [] == Flatten(schedule[..k])
      requires outcome.Found? ==> FirstFit(c, layout, size) < |layout|
                                  && outcome.mem == layout[FirstFit(c, layout, size)].start
      requires !outcome.Found? ==> FirstFit(c, layout, size) == |layout|
      modifies this, ram
      ensures Valid()
      ensures windows <= |schedule| && before + after == Flatten(schedule[..windows])
      ensures AllocatedNow(c, old(layout), layout, size, after, r)
      ensures r.Some? ==> BlockOf(c, r.value) in live
    {
      if outcome.Found? {
        windows, after := Grant(outcome.mem, size, schedule, k, before);
        r := Some(outcome.mem + c.hdr);
      } else {
        r, after, windows := None, [], k;
      }
    }

    /** Take the block the search found, put lfree right and hand the block to the caller. */
    method Grant(mem: nat, size: nat, schedule: seq<seq<Op>>, k: nat, ghost before: seq<Op>)
      returns (k': nat, ghost after: seq<Op>)
      requires k <= |schedule| && before == Flatten(schedule[0..k])
      requires Valid() && k <= |schedule| && ValidSchedule(schedule) && c.min <= size && OnGrid(size, c.align)
      requires FirstFit(c, layout, size) < |layout| && mem == layout[FirstFit(c, layout, size)].start
      modifies this, ram
      ensures Valid() && mem in live && k <= k' <= |schedule|
      ensures before + after == Flatten(schedule[..k'])
      ensures layout == Run(c, AllocAt(c, old(layout), FirstFit(c, old(layout), size), size), Some(mem), after)
    {
      ghost var i := FirstFit(c, layout, size);
      TakeFacts(c, layout, live, i, size);
      TakeBlock(mem, size, i);
      k' := AdjustLfree(mem, schedule, k);
      after := Flatten(schedule[k..k']);
      JoinWindows(schedule, k, k');
      HandOut(layout, mem, live);
      live := live + {mem};
    }

    /** The next pointers lead through the blocks of the layout, upwards to the end; nothing else need be right. */
    ghost predicate Walkable()
      reads this, ram
    {
      && 0 < c.align && ram.Length == c.size + 1 && Tiles(c, layout)
      && forall i :: WalkAt(i)
    }

    ghost predicate WalkAt(i: int)
      reads this, ram
    {
      0 <= i < |layout| ==>
        && layout[i].start < layout[i].end <= c.size && c.size < ram.Length
        && ram[layout[i].start].next == layout[i].end && ram[layout[i].start].used == layout[i].used
    }

    /** Block i is on the grid, and it and the one in front of it are not both free. */
    ghost predicate SaneAt(i: int)
      requires 0 < c.align
      reads this
    {
      1 <= i < |layout| ==> layout[i].start % c.align == 0 && (layout[i - 1].used || layout[i].used)
    }

    /** Block i knows the one in front of it; about the second block mem_sanity is content with less. */
    ghost predicate BackAt(i: int)
      requires ram.Length == c.size + 1
      reads this, ram
    {
      1 <= i < |layout| && layout[i].start <= c.size ==>
        var p := ram[layout[i].start].prev;
        if i == 1 then p <= c.size && (p == layout[1].start || ram[p].next == layout[1].start)
        else p == layout[i - 1].start
    }

    /** What mem_sanity checks, up to block i. */
    ghost predicate SaneUpTo(i: nat)
      requires 0 < c.align && ram.Length == c.size + 1
      reads this, ram
    {
      && ram[0].prev == 0
      && (forall j :: j < i ==> SaneAt(j))
      && (i > 1 ==> BackAt(1)) && (forall j :: 2 <= j <= i ==> BackAt(j))
    }

    ghost predicate Sane()
      requires 0 < c.align && ram.Length == c.size + 1
      reads this, ram
    {
      SaneUpTo(|layout|) && ram[c.size] == Header(c.size, c.size, true)
    }

    /** In a valid heap nothing is wrong. */
    lemma ValidSane()
      requires Valid()
      ensures Walkable() && Sane()
    {
      forall i ensures WalkAt(i) && SaneAt(i) && BackAt(i) {
        if 0 <= i < |layout| {
          BlockAt(None, i);
          assert GridAt(c, layout, i);
          GridIsMod(layout[i].start, c.align);
          if i > 0 {
            BlockAt(None, i - 1);
            assert Apart(layout, i - 1);
          }
        }
      }
      BlockAt(None, 0);
    }

    /** What is wrong up to block i is wrong. */
    lemma SaneOnly(i: nat)
      requires Walkable() && 1 <= i <= |layout|
      ensures Sane() ==> SaneUpTo(i)
    {
    }

    lemma SaneNext(i: nat)
      requires Walkable() && 1 <= i < |layout|
      ensures SaneUpTo(i + 1) <==> SaneUpTo(i) && SaneAt(i) && (i == 1 ==> BackAt(1)) && BackAt(i + 1)
    {
      if SaneUpTo(i) && SaneAt(i) && (i == 1 ==> BackAt(1)) && BackAt(i + 1) {
        forall j | j < i + 1 ensures SaneAt(j) { if j < i { assert SaneAt(j); } }
        forall j | 2 <= j <= i + 1 ensures BackAt(j) { if j <= i { assert BackAt(j); } }
      }
      if SaneUpTo(i + 1) {
        assert SaneAt(i) && BackAt(i + 1);
      }
    }

    /** One round of the walk: the struct at mem, which is that of block i. */
    method SaneRound(mem: nat, lastUsed: bool, ghost i: nat) returns (ok: bool)
      requires Walkable() && 1 <= i < |layout| && mem == layout[i].start && lastUsed == layout[i - 1].used
      requires i >= 2 ==> BackAt(i)
      ensures ok <==> SaneAt(i) && (i == 1 ==> BackAt(1)) && BackAt(i + 1)
    {
      assert WalkAt(i) && WalkAt(i - 1) && Touches(layout, i) && Touches(layout, i - 1);
      assert WalkAt(i + 1);
      var h := ram[mem];
      ok := mem % c.align == 0 && h.prev <= c.size && h.next <= c.size;
      if !lastUsed {
        ok := ok && h.used;
      }
      ok := ok && LinkValid(ram[..], c.size, mem);
    }

    /**
     * mem_sanity, on a heap of which only the next pointers are known to be right: it finds nothing wrong
     * exactly if all blocks are on the grid, no two neighbours are free, the links back are right and the end
     * mark is in place.
     */
    method Sanity() returns (ok: bool)
      requires Walkable()
      ensures ok <==> Sane()
    {
      assert WalkAt(0) && Touches(layout, 0);
      var mem := 0;
      var lastUsed := ram[mem].used;
      ok := ram[mem].prev == 0 && ram[mem].next <= c.size;
      mem := ram[mem].next;
      ghost var i := 1;
      while 0 < mem < c.size
        invariant 1 <= i <= |layout| && mem == StartOf(c, layout, i) && lastUsed == layout[i - 1].used
        invariant ok <==> SaneUpTo(i)
        decreases c.size - mem, ok
      {
        assert WalkAt(i) && Touches(layout, i);
        if !ok {
          SaneOnly(i);
          return;
        }
        SaneNext(i);
        ok := SaneRound(mem, lastUsed, i);
        lastUsed := ram[mem].used;
        mem := ram[mem].next;
        i := i + 1;
      }
      assert WalkAt(i) && Touches(layout, i - 1) && WalkAt(i - 1);
      ok := ok && mem == c.size && ram[mem] == Header(c.size, c.size, true);
    }

    /** The data pointer of a free block is refused: a block is not freed twice as long as its header is there. */
    lemma FreeRefused(held: Option<nat>, i: nat)
      requires ValidFor(held) && i < |layout| && !layout[i].used
      ensures !Accepts(Some(layout[i].start + c.hdr))
    {
      BlockAt(held, i);
    }

    /** So is one behind old header bytes inside a block that point to a block: that one does not point back. */
    lemma StaleRefused(held: Option<nat>, mem: nat, i: nat)
      requires ValidFor(held) && mem < c.size && i < |layout| && ram[mem].next == layout[i].start
      requires forall j :: 0 <= j < |layout| ==> layout[j].start != mem
      ensures !Accepts(Some(mem + c.hdr))
    {
      BlockAt(held, i);
      BlockAt(held, 0);
      if i > 0 { BlockAt(held, i - 1); }
    }

    /** Any sequence of calls, each with its own interference, keeps the heap valid. */
    method Replay(calls: seq<Call>)
      requires Valid()
      requires forall call :: call in calls ==> ValidCall(call)
      modifies this, ram
      ensures Valid()
      ensures used + FreeBytes(layout) == c.size
    {
      for k := 0 to |calls|
        invariant Valid()
      {
        assert calls[k] in calls;
        match calls[k]
        case Alloc(size, schedule) => var _, _, _, _ := Malloc(size, schedule);
        case Other(op) => OtherCall(op, None);
      }
      Conservation(c, layout);
    }
  }
}
