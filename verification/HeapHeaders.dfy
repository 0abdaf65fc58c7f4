/**
 * The block list as mem.c stores it: one struct mem per block, linked by offsets into `ram`.
 * Each lemma says that one group of header writes realises one layout operation.
 */
module HeapHeaders {
  import opened HeapLayout

  datatype Header = Header(next: nat, prev: nat, used: bool)

  function PrevOf(L: Layout, i: nat): nat
    requires i < |L|
  {
    if i == 0 then 0 else L[i - 1].start
  }

  /** The header of block i. */
  function HeaderOf(L: Layout, i: nat): Header
    requires i < |L|
  {
    Header(L[i].end, PrevOf(L, i), L[i].used)
  }

  /** Block i has its header where it should be. */
  ghost predicate Headed(h: seq<Header>, L: Layout, i: int) {
    0 <= i < |L| && L[i].start < |h| - 1 && h[L[i].start] == HeaderOf(L, i)
  }

  /** Headers h describe layout L; the struct at ram_end is never touched. */
  ghost predicate Represents(h: seq<Header>, c: Config, L: Layout) {
    && |h| == c.size + 1
    && h[c.size] == Header(c.size, c.size, true)
    && forall i :: 0 <= i < |L| ==> Headed(h, L, i)
  }

  /** Let the block behind offset a know its new predecessor, unless that block is ram_end. */
  function SetPrev(h: seq<Header>, size: nat, at: nat, a: nat): seq<Header>
    requires size < |h| && at <= size
  {
    if at != size then h[at := h[at].(prev := a)] else h
  }

  lemma RepMark(h: seq<Header>, c: Config, L: Layout, i: nat, used: bool)
    requires Chained(c, L) && 0 < c.hdr && Represents(h, c, L) && i < |L| && L[i].start < c.size
    ensures Represents(h[L[i].start := h[L[i].start].(used := used)], c, L[i := L[i].(used := used)])
  {
    OrderedAll(c, L);
    var M := L[i := L[i].(used := used)];
    var h' := h[L[i].start := h[L[i].start].(used := used)];
    assert Headed(h, L, i);
    forall k | 0 <= k < |M| ensures Headed(h', M, k) {
      assert Headed(h, L, k);
    }
  }

  /** mem->next = nmem->next and the back link. */
  function JoinHeaders(h: seq<Header>, size: nat, a: nat, n: nat): seq<Header>
    requires a <= size < |h| && n <= size
  {
    SetPrev(h[a := h[a].(next := n)], size, n, a)
  }

  lemma RepJoinAt(h: seq<Header>, c: Config, L: Layout, i: nat, k: nat)
    requires Chained(c, L) && 0 < c.hdr && Represents(h, c, L)
    requires i + 1 < |L| && L[i + 1].end <= c.size && L[i].start < c.size
    requires k + 1 < |L|
    ensures Headed(JoinHeaders(h, c.size, L[i].start, L[i + 1].end), JoinNext(L, i), k)
  {
    JoinBlock(L, i, k);
    if k < i {
      assert Headed(h, L, k);
      Ordered(c, L, k, i);
      Ordered(c, L, k, i + 1);
      if k > 0 { JoinBlock(L, i, k - 1); }
    } else if k == i {
      assert Headed(h, L, i);
      assert Touches(L, i);
      if k > 0 { JoinBlock(L, i, k - 1); }
    } else {
      assert Headed(h, L, k + 1);
      JoinBlock(L, i, k - 1);
      Ordered(c, L, i, k + 1);
      assert Touches(L, i + 1);
      if k > i + 1 { Ordered(c, L, i + 2, k + 1); }
    }
  }

  lemma RepJoin(h: seq<Header>, c: Config, L: Layout, i: nat)
    requires Chained(c, L) && 0 < c.hdr && Represents(h, c, L)
    requires i + 1 < |L| && L[i + 1].end <= c.size && L[i].start < c.size
    ensures Represents(JoinHeaders(h, c.size, L[i].start, L[i + 1].end), c, JoinNext(L, i))
  {
    var h' := JoinHeaders(h, c.size, L[i].start, L[i + 1].end);
    var M := JoinNext(L, i);
    forall k | 0 <= k < |M| ensures Headed(h', M, k) {
      RepJoinAt(h, c, L, i, k);
    }
  }

  /** A new struct mem at offset p in the middle of the block at a, which ends at n. */
  function SplitHeaders(h: seq<Header>, size: nat, a: nat, p: nat, n: nat): seq<Header>
    requires a <= size < |h| && p <= size && n <= size
  {
    SetPrev(h[p := Header(n, a, false)][a := Header(p, h[a].prev, true)], size, n, p)
  }

  lemma RepSplitAt(h: seq<Header>, c: Config, L: Layout, i: nat, p: nat, k: nat)
    requires Chained(c, L) && 0 < c.hdr && Represents(h, c, L) && i < |L|
    requires L[i].start < p < L[i].end <= c.size
    requires k <= |L|
    ensures Headed(SplitHeaders(h, c.size, L[i].start, p, L[i].end), SplitAt(L, i, p), k)
  {
    SplitBlock(L, i, p, k);
    if k > 0 { SplitBlock(L, i, p, k - 1); }
    if k < i {
      assert Headed(h, L, k);
      Ordered(c, L, k, i);
    } else if k <= i + 1 {
      assert Headed(h, L, i);
    } else {
      assert Headed(h, L, k - 1);
      Ordered(c, L, i, k - 1);
      assert Touches(L, i);
      if k > i + 2 { Ordered(c, L, i + 1, k - 1); }
    }
  }

  lemma RepSplit(h: seq<Header>, c: Config, L: Layout, i: nat, p: nat)
    requires Chained(c, L) && 0 < c.hdr && Represents(h, c, L) && i < |L|
    requires L[i].start < p < L[i].end <= c.size
    ensures Represents(SplitHeaders(h, c.size, L[i].start, p, L[i].end), c, SplitAt(L, i, p))
  {
    var h' := SplitHeaders(h, c.size, L[i].start, p, L[i].end);
    var M := SplitAt(L, i, p);
    forall k | 0 <= k < |M| ensures Headed(h', M, k) {
      RepSplitAt(h, c, L, i, p, k);
    }
  }

  /** The free struct mem behind the block at a, reaching to n, moves down to offset p. */
  function MoveHeaders(h: seq<Header>, size: nat, a: nat, p: nat, n: nat): seq<Header>
    requires a <= size < |h| && p <= size && n <= size
  {
    SetPrev(h[p := Header(n, a, false)][a := h[a].(next := p)], size, n, p)
  }

  lemma RepMoveAt(h: seq<Header>, c: Config, L: Layout, i: nat, p: nat, k: nat)
    requires Chained(c, L) && 0 < c.hdr && Represents(h, c, L) && i + 1 < |L| && !L[i + 1].used
    requires L[i].start < p < L[i].end && L[i + 1].end <= c.size
    requires p < c.size && k < |L|
    ensures Headed(MoveHeaders(h, c.size, L[i].start, p, L[i + 1].end), MoveBorder(L, i, p), k)
  {
    assert Headed(h, L, k);
    assert Touches(L, i);
    if k < i {
      Ordered(c, L, k, i);
    } else if k > i + 1 {
      Ordered(c, L, i + 1, k);
      assert Touches(L, i + 1);
      if k > i + 2 { Ordered(c, L, i + 2, k); }
    }
  }

  lemma RepMove(h: seq<Header>, c: Config, L: Layout, i: nat, p: nat)
    requires Chained(c, L) && 0 < c.hdr && Represents(h, c, L) && i + 1 < |L| && !L[i + 1].used
    requires L[i].start < p < L[i].end && L[i + 1].end <= c.size && p < c.size
    ensures Represents(MoveHeaders(h, c.size, L[i].start, p, L[i + 1].end), c, MoveBorder(L, i, p))
  {
    var h' := MoveHeaders(h, c.size, L[i].start, p, L[i + 1].end);
    var M := MoveBorder(L, i, p);
    forall k | 0 <= k < |M| ensures Headed(h', M, k) {
      RepMoveAt(h, c, L, i, p, k);
    }
  }

  /** mem_link_valid: the neighbours of the struct at offset m agree with it. */
  predicate LinkValid(h: seq<Header>, size: nat, m: nat)
    requires size < |h| && m <= size
  {
    !(|| h[m].next > size || h[m].prev > size
      || (h[m].prev != m && h[h[m].prev].next != m)
      || (h[m].next != size && h[h[m].next].prev != m))
  }

  lemma BlocksLinkValid(h: seq<Header>, c: Config, L: Layout, i: nat)
    requires Chained(c, L) && Represents(h, c, L) && i < |L| && L[i].start < c.size
    ensures LinkValid(h, c.size, L[i].start)
  {
    OrderedAll(c, L);
    assert Headed(h, L, i);
    if i > 0 { assert Headed(h, L, i - 1) && Touches(L, i - 1); }
    if i + 1 < |L| { assert Headed(h, L, i + 1) && Touches(L, i); }
  }
}
