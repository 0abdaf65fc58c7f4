/**
 * The Internet checksum (core/inet_chksum.c, LWIP_CHKSUM_ALGORITHM 3) on a little-endian host.
 *
 * The reference is the definition in section 1 of RFC 1071: pair the bytes into 16-bit words, an
 * odd last byte being padded with zero, and add the words in one's complement arithmetic.
 */
module Checksum {
  import opened Basics

  const U16: nat := 0x1_0000
  const U32: nat := 0x1_0000_0000

  /** The modulus of 16-bit one's complement addition. */
  const M: nat := 0xffff

  // ---------------------------------------------------------------- reference

  /** One's complement addition: the carry is added back in. */
  function OnesAdd(a: nat, b: nat): nat {
    if a + b > M then a + b - M else a + b
  }

  /** The i-th 16-bit word as the host reads it from memory. */
  function Word(lo: Byte, hi: Byte): nat { lo + 256 * hi }

  /** Section 1 of RFC 1071. */
  function OnesSum(b: seq<Byte>): (r: nat)
    ensures r <= M
  {
    if |b| == 0 then 0
    else if |b| == 1 then Word(b[0], 0)
    else OnesAdd(Word(b[0], b[1]), OnesSum(b[2..]))
  }

  // ---------------------------------------------------------------- sums without carry

  /** Sum of the little-endian words: even positions count 1, odd positions 256. */
  function LE(b: seq<Byte>): nat {
    if |b| == 0 then 0
    else if |b| == 1 then b[0]
    else b[0] + 256 * b[1] + LE(b[2..])
  }

  /** Sum of the big-endian words: even positions count 256, odd positions 1. */
  function BE(b: seq<Byte>): nat {
    if |b| == 0 then 0
    else if |b| == 1 then 256 * b[0]
    else 256 * b[0] + b[1] + BE(b[2..])
  }

  predicate Off(x: int, y: int, k: int) { x == y + 0xffff * k }

  /** x and y fold to the same 16-bit value: equal modulo 0xffff, and zero only together. */
  ghost predicate Same(x: nat, y: nat) {
    (exists k :: Off(x, y, k)) && (x == 0 <==> y == 0)
  }

  lemma SameBy(x: nat, y: nat, k: int)
    requires Off(x, y, k) && (x == 0 <==> y == 0)
    ensures Same(x, y)
  {
  }

  lemma SameAdd(x: nat, y: nat, d: nat, e: nat)
    requires Same(x, y) && Same(d, e)
    ensures Same(x + d, y + e)
  {
    var k :| Off(x, y, k);
    var j :| Off(d, e, j);
    SameBy(x + d, y + e, k + j);
  }

  lemma SameTrans(x: nat, y: nat, z: nat)
    requires Same(x, y) && Same(y, z)
    ensures Same(x, z)
  {
    var k :| Off(x, y, k);
    var j :| Off(y, z, j);
    SameBy(x, z, k + j);
  }

  lemma SameRefl(x: nat)
    ensures Same(x, x)
  {
    SameBy(x, x, 0);
  }

  lemma SameScale(x: nat, y: nat)
    requires Same(x, y)
    ensures Same(256 * x, 256 * y)
  {
    var k :| Off(x, y, k);
    SameBy(256 * x, 256 * y, 256 * k);
  }

  lemma AddTo(x: nat, y: nat, d: nat, z: nat)
    requires Same(x, y) && z == y + d
    ensures Same(x + d, z)
  {
    SameRefl(d);
    SameAdd(x, y, d, d);
  }

  /** A 16-bit value is determined by what it folds from. */
  lemma SameUnique(r: nat, s: nat, x: nat)
    requires r <= 0xffff && s <= 0xffff && Same(r, x) && Same(s, x)
    ensures r == s
  {
    var k :| Off(r, x, k);
    var j :| Off(s, x, j);
    assert r - s == 0xffff * (k - j);
  }

  lemma OnesAddSame(a: nat, b: nat)
    ensures Same(OnesAdd(a, b), a + b)
  {
    SameBy(OnesAdd(a, b), a + b, if a + b > 0xffff then -1 else 0);
  }

  /** The one's complement sum is what the plain sum folds to. */
  lemma {:induction false} OnesSumSame(b: seq<Byte>)
    ensures Same(OnesSum(b), LE(b))
  {
    if |b| < 2 {
      SameRefl(LE(b));
    } else {
      OnesSumSame(b[2..]);
      var w := Word(b[0], b[1]);
      AddTo(OnesSum(b[2..]), LE(b[2..]), w, LE(b));
      OnesAddSame(w, OnesSum(b[2..]));
      SameTrans(OnesSum(b), w + OnesSum(b[2..]), LE(b));
    }
  }

  /** A 16-bit value that folds from the plain sum is the one's complement sum. */
  lemma IsOnesSum(r: nat, b: seq<Byte>)
    requires r <= 0xffff && Same(r, LE(b))
    ensures r == OnesSum(b)
  {
    OnesSumSame(b);
    SameUnique(r, OnesSum(b), LE(b));
  }

  // ---------------------------------------------------------------- fold and swap

  /** FOLD_U32T */
  function Fold(u: nat): nat { u / 0x1_0000 + u % 0x1_0000 }

  lemma FoldBounds(u: nat)
    ensures u < U32 ==> Fold(u) <= 0x1_fffe
    ensures u <= 0x1_fffe ==> Fold(u) <= 0xffff
  {
  }

  lemma FoldSame(u: nat)
    ensures Same(Fold(u), u)
  {
    SameBy(Fold(u), u, -(u / 0x1_0000));
  }

  /** Two folds bring any 32-bit sum down to 16 bits. */
  lemma FoldTwice(u: nat, x: nat)
    requires u < U32 && Same(u, x)
    ensures Fold(Fold(u)) <= 0xffff && Same(Fold(Fold(u)), x)
  {
    FoldBounds(u);
    FoldBounds(Fold(u));
    FoldSame(u);
    FoldSame(Fold(u));
    SameTrans(Fold(u), u, x);
    SameTrans(Fold(Fold(u)), Fold(u), x);
  }

  /** SWAP_BYTES_IN_WORD, and lwip_htons */
  function Swap(w: nat): nat { (w % 256) * 256 + (w / 256) % 256 }

  /** Swapping multiplies by 256 in one's complement arithmetic (section 2(B) of RFC 1071). */
  lemma SwapSame(w: nat)
    requires w <= 0xffff
    ensures Swap(w) <= 0xffff && Same(Swap(w), 256 * w)
  {
    SameBy(Swap(w), 256 * w, -(w / 256));
  }

  /** Exchanging the byte order of all words multiplies the sum by 256. */
  lemma {:induction false} BytesSwap(b: seq<Byte>)
    ensures Same(256 * BE(b), LE(b)) && Same(256 * LE(b), BE(b))
  {
    if |b| == 0 {
      SameRefl(0);
    } else if |b| == 1 {
      var b0: nat := b[0];
      SameBy(256 * (256 * b0), b0, b0);
      SameRefl(256 * b0);
    } else {
      BytesSwap(b[2..]);
      var b0: nat, b1: nat := b[0], b[1];
      var x, y := 256 * b0 + b1, b0 + 256 * b1;
      SameBy(256 * x, y, b0);
      SameBy(256 * y, x, b1);
      SameAdd(256 * x, y, 256 * BE(b[2..]), LE(b[2..]));
      SameAdd(256 * y, x, 256 * LE(b[2..]), BE(b[2..]));
    }
  }

  /** Swapping a folded sum exchanges the two byte orders. */
  lemma SwapOrder(w: nat, b: seq<Byte>)
    requires w <= 0xffff
    ensures Swap(w) <= 0xffff
    ensures Same(w, BE(b)) ==> Same(Swap(w), LE(b))
    ensures Same(w, LE(b)) ==> Same(Swap(w), BE(b))
  {
    SwapSame(w);
    BytesSwap(b);
    if Same(w, BE(b)) {
      SameScale(w, BE(b));
      SameTrans(256 * w, 256 * BE(b), LE(b));
      SameTrans(Swap(w), 256 * w, LE(b));
    }
    if Same(w, LE(b)) {
      SameScale(w, LE(b));
      SameTrans(256 * w, 256 * LE(b), BE(b));
      SameTrans(Swap(w), 256 * w, BE(b));
    }
  }

  // ---------------------------------------------------------------- sums of concatenations

  lemma {:induction false} LEConcat(a: seq<Byte>, b: seq<Byte>)
    requires |a| % 2 == 0
    ensures LE(a + b) == LE(a) + LE(b)
  {
    if |a| == 0 {
      assert a + b == b;
    } else {
      assert (a + b)[2..] == a[2..] + b;
      LEConcat(a[2..], b);
    }
  }

  lemma {:induction false} BEConcat(a: seq<Byte>, b: seq<Byte>)
    requires |a| % 2 == 1
    ensures BE(a + b) == BE(a) + LE(b)
  {
    if |a| == 1 {
      BEFirst(a + b);
      assert (a + b)[1..] == b;
    } else {
      assert (a + b)[2..] == a[2..] + b;
      BEConcat(a[2..], b);
    }
  }

  /** Taking away the first byte turns one byte order into the other. */
  lemma {:induction false} BEFirst(b: seq<Byte>)
    requires |b| > 0
    ensures BE(b) == 256 * b[0] + LE(b[1..])
  {
    if |b| > 2 {
      BEFirst(b[2..]);
      assert b[1..][2..] == b[2..][1..];
    }
  }

  // ---------------------------------------------------------------- lwip_standard_chksum

  /** u32_t addition. */
  function Add32(a: nat, b: nat): nat { (a + b) % 0x1_0000_0000 }

  /** One ping or pong of the unrolled loop: no carry is lost in the 32-bit accumulator. */
  method AddCarry(sum: nat, w: nat, ghost x: nat, ghost y: nat) returns (tmp: nat)
    requires sum < U32 && w < U32 && Same(sum, x) && Same(w, y)
    ensures tmp < U32 && Same(tmp, x + y)
  {
    tmp := Add32(sum, w);
    if tmp < sum {
      tmp := Add32(tmp, 1);
    }
    assert tmp == if sum + w < U32 then sum + w else sum + w - 0xffff_ffff;
    SameBy(tmp, sum + w, if sum + w < U32 then 0 else -65537);
    SameAdd(sum, x, w, y);
    SameTrans(tmp, sum + w, x + y);
  }

  /** *(u16_t *)p */
  function Load16(data: seq<Byte>, p: nat): (w: nat)
    requires p + 2 <= |data|
    ensures w <= 0xffff && w == LE(data[p..p + 2])
  {
    Word(data[p], data[p + 1])
  }

  /** *(u32_t *)p */
  function Load32(data: seq<Byte>, p: nat): (w: nat)
    requires p + 4 <= |data|
    ensures w < U32
  {
    Load16(data, p) + 0x1_0000 * Load16(data, p + 2)
  }

  lemma Load32Same(data: seq<Byte>, p: nat)
    requires p + 4 <= |data|
    ensures Same(Load32(data, p), LE(data[p..p + 4]))
  {
    LEExtend(data, p, p + 2, p + 4);
    SameBy(Load32(data, p), LE(data[p..p + 4]), Load16(data, p + 2));
  }

  lemma LEExtend(data: seq<Byte>, lo: nat, p: nat, q: nat)
    requires lo <= p <= q <= |data| && (p - lo) % 2 == 0
    ensures LE(data[lo..q]) == LE(data[lo..p]) + LE(data[p..q])
  {
    assert data[lo..q] == data[lo..p] + data[p..q];
    LEConcat(data[lo..p], data[p..q]);
  }

  lemma NoWrap(a: nat, b: nat)
    ensures a + b < U32 ==> Add32(a, b) == a + b
  {
  }

  /** Algorithm 1: two bytes at a time, most significant first. */
  method Chksum1(data: seq<Byte>) returns (r: nat)
    requires |data| <= 0x2_0000
    ensures r == OnesSum(data)
  {
    var acc: nat, p, len := 0, 0, |data|;
    ghost var n := 0;
    while len > 1
      invariant 0 <= len && p + len == |data| && p == 2 * n
      invariant acc + BE(data[p..]) == BE(data)
      invariant acc <= 0xffff * n
    {
      var src: nat := data[p] as nat * 256 + data[p + 1] as nat;
      assert data[p..][2..] == data[p + 2..];
      NoWrap(acc, src);
      acc := Add32(acc, src);
      p := p + 2;
      len := len - 2;
      n := n + 1;
    }
    if len > 0 {
      NoWrap(acc, data[p] as nat * 256);
      acc := Add32(acc, data[p] as nat * 256);
    }
    assert acc == BE(data);
    r := FoldAndSwap(acc, data);
  }

  /** The end of algorithm 1. */
  method FoldAndSwap(acc: nat, ghost data: seq<Byte>) returns (r: nat)
    requires acc < U32 && acc == BE(data)
    ensures r == OnesSum(data)
  {
    var folded := Fold(acc);
    FoldBounds(acc);
    FoldBounds(folded);
    FoldSame(acc);
    if folded >= U16 {
      FoldSame(folded);
      SameTrans(Fold(folded), folded, acc);
      folded := Fold(folded);
    }
    r := Swap(folded);
    SwapOrder(folded, data);
    IsOnesSum(r, data);
  }

  /** The head of algorithm 3: bring the pointer to a 4-byte boundary. */
  method Head(data: seq<Byte>, addr: nat) returns (t: nat, sum: nat, p: nat, ghost lo: nat)
    ensures lo == (if addr % 2 == 1 && |data| > 0 then 1 else 0)
    ensures t == (if lo == 1 then 256 * data[0] as nat else 0)
    ensures lo <= p <= |data| && (p - lo) % 2 == 0
    ensures sum <= 0xffff && sum == LE(data[lo..p])
    ensures |data| - p > 1 ==> OnWord(addr + p)
  {
    t, sum, p, lo := 0, 0, 0, 0;
    var len := |data|;
    if addr % 2 == 1 && len > 0 {
      t := 256 * data[0] as nat;
      p, lo := 1, 1;
      len := len - 1;
    }
    if !OnWord(addr + p) && len > 1 {
      HalfWord(addr, p);
      sum := Load16(data, p);
      p := p + 2;
    }
  }

  /** Behind the odd byte, a pointer that is not on a 4-byte boundary is two bytes in front of one. */
  lemma HalfWord(addr: nat, p: nat)
    requires p == addr % 2 && !OnWord(addr + p)
    ensures OnWord(addr + (p + 2))
  {
    var q, r := addr / 4, addr % 4;
    Mod2(addr, 2 * q + (if r >= 2 then 1 else 0), if r == 1 || r == 3 then 1 else 0);
    if r == 3 {
      Mod4(addr + p, q + 1, 0);
    } else {
      Mod4(addr + p, q, r + p);
      Mod4(addr + (p + 2), q + 1, r + p - 2);
    }
  }

  lemma Mod4(a: nat, q: nat, r: nat)
    requires a == 4 * q + r && r < 4
    ensures a % 4 == r
  {
    var d: int := a / 4 - q;
    assert r - a % 4 == 4 * d;
  }

  lemma Mod2(a: nat, q: nat, r: nat)
    requires a == 2 * q + r && r < 2
    ensures a % 2 == r
  {
    var d: int := a / 2 - q;
    assert r - a % 2 == 2 * d;
  }

  /** A 4-byte boundary. */
  predicate OnWord(a: nat) { a % 4 == 0 }

  lemma NextWord(a: nat)
    requires OnWord(a)
    ensures OnWord(a + 4) && OnWord(a + 8)
  {
  }

  /** An even distance. */
  predicate Even(lo: nat, p: nat) { lo <= p && (p - lo) % 2 == 0 }

  lemma NextEven(lo: nat, p: nat)
    requires Even(lo, p)
    ensures Even(lo, p + 4) && Even(lo, p + 8)
  {
  }

  /** The unrolled loop of algorithm 3: eight bytes at a time, loads on 4-byte boundaries. */
  method Unrolled(data: seq<Byte>, addr: nat, sum0: nat, p0: nat, ghost lo: nat) returns (sum: nat, p: nat)
    requires p0 <= |data| && Even(lo, p0)
    requires sum0 < U32 && Same(sum0, LE(data[lo..p0]))
    requires |data| - p0 > 1 ==> OnWord(addr + p0)
    ensures p0 <= p <= |data| < p + 8 && Even(lo, p)
    ensures sum < U32 && Same(sum, LE(data[lo..p]))
    ensures |data| - p0 > 1 ==> OnWord(addr + p)
  {
    sum, p := sum0, p0;
    while |data| - p > 7
      invariant p0 <= p <= |data| && Even(lo, p)
      invariant sum < U32 && Same(sum, LE(data[lo..p]))
      invariant |data| - p0 > 1 ==> OnWord(addr + p)
    {
      NextWord(addr + p);
      NextEven(lo, p);
      sum := AddFour(data, addr, p, sum, lo);
      sum := AddFour(data, addr, p + 4, sum, lo);
      p := p + 8;
    }
  }

  /** One 32-bit load, which must be on a 4-byte boundary, and its addition. */
  method AddFour(data: seq<Byte>, addr: nat, p: nat, sum: nat, ghost lo: nat) returns (tmp: nat)
    requires OnWord(addr + p)
    requires p + 4 <= |data| && Even(lo, p)
    requires sum < U32 && Same(sum, LE(data[lo..p]))
    ensures tmp < U32 && Same(tmp, LE(data[lo..p + 4]))
  {
    Load32Same(data, p);
    LEExtend(data, lo, p, p + 4);
    tmp := AddCarry(sum, Load32(data, p), LE(data[lo..p]), LE(data[p..p + 4]));
  }

  /** The tail of algorithm 3: the remaining words, at most three of them. */
  method Tail(data: seq<Byte>, sum0: nat, p0: nat, ghost lo: nat) returns (sum: nat, p: nat)
    requires lo <= p0 <= |data| < p0 + 8 && (p0 - lo) % 2 == 0
    requires sum0 <= 0x1_fffe && Same(sum0, LE(data[lo..p0]))
    ensures p0 <= p <= |data| < p + 2 && (p - lo) % 2 == 0
    ensures sum <= 0x4_fffb && Same(sum, LE(data[lo..p]))
  {
    sum, p := sum0, p0;
    ghost var n := 0;
    while |data| - p > 1
      invariant p <= |data| && p == p0 + 2 * n
      invariant sum <= 0x1_fffe + 0xffff * n && Same(sum, LE(data[lo..p]))
    {
      LEExtend(data, lo, p, p + 2);
      AddTo(sum, LE(data[lo..p]), Load16(data, p), LE(data[lo..p + 2]));
      sum := sum + Load16(data, p);
      p := p + 2;
      n := n + 1;
    }
  }

  /**
   * Algorithm 3 agrees with the reference for every content, every length and every alignment of
   * the start address.
   */
  method Chksum3(data: seq<Byte>, addr: nat) returns (r: nat)
    ensures r == OnesSum(data)
  {
    var odd := addr % 2 == 1;
    var t, sum, p, lo := Words(data, addr);
    if p < |data| {
      t := t + data[p] as nat;
    }
    ghost var z := if odd then BE(data) else LE(data);
    if lo == 1 {
      AssembledOdd(data, p, sum, t);
      assert z == BE(data);
    } else {
      AssembledEven(data, p, sum, t);
      assert z == LE(data);
    }
    r := Finish(sum + t, odd, data, z);
  }

  /** Everything between the first byte at an odd address and a last single byte; t is that first byte. */
  method Words(data: seq<Byte>, addr: nat) returns (t: nat, sum: nat, p: nat, ghost lo: nat)
    ensures lo == (if addr % 2 == 1 && |data| > 0 then 1 else 0)
    ensures t == (if lo == 1 then 256 * data[0] as nat else 0)
    ensures lo <= p <= |data| < p + 2 && (p - lo) % 2 == 0
    ensures sum <= 0x4_fffb && Same(sum, LE(data[lo..p]))
  {
    t, sum, p, lo := Head(data, addr);
    SameRefl(sum);
    sum, p := Unrolled(data, addr, sum, p, lo);
    FoldSame(sum);
    FoldBounds(sum);
    SameTrans(Fold(sum), sum, LE(data[lo..p]));
    sum := Fold(sum);
    sum, p := Tail(data, sum, p, lo);
  }

  /** The words and the last byte are the sum of all bytes. */
  lemma AssembledEven(data: seq<Byte>, p: nat, sum: nat, t: nat)
    requires p <= |data| < p + 2 && p % 2 == 0
    requires Same(sum, LE(data[0..p])) && t == LastByte(data, p)
    ensures Same(sum + t, LE(data))
  {
    LastByteSum(data, 0, p);
    assert data[0..] == data;
    AddTo(sum, LE(data[0..p]), t, LE(data));
  }

  /** Behind a first byte at an odd address, in the other byte order. */
  lemma AssembledOdd(data: seq<Byte>, p: nat, sum: nat, t: nat)
    requires 1 <= p <= |data| < p + 2 && (p - 1) % 2 == 0
    requires Same(sum, LE(data[1..p])) && t == 256 * data[0] as nat + LastByte(data, p)
    ensures Same(sum + t, BE(data))
  {
    LastByteSum(data, 1, p);
    BEFirst(data);
    AddTo(sum, LE(data[1..p]), t, BE(data));
  }

  /** The end of algorithm 3. */
  method Finish(total: nat, odd: bool, ghost data: seq<Byte>, ghost z: nat) returns (r: nat)
    requires total < U32 && Same(total, z) && z == (if odd then BE(data) else LE(data))
    ensures r == OnesSum(data)
  {
    FoldTwice(total, z);
    r := Fold(Fold(total));
    if odd {
      SwapOrder(r, data);
      r := Swap(r);
    }
    IsOnesSum(r, data);
  }

  /** What is left behind the last whole word. */
  function LastByte(data: seq<Byte>, p: nat): nat
    requires p <= |data| < p + 2
  {
    if p < |data| then data[p] else 0
  }

  lemma LastByteSum(data: seq<Byte>, lo: nat, p: nat)
    requires lo <= p <= |data| < p + 2 && (p - lo) % 2 == 0
    ensures LE(data[lo..]) == LE(data[lo..p]) + LastByte(data, p)
  {
    assert data[lo..|data|] == data[lo..];
    LEExtend(data, lo, p, |data|);
    assert p < |data| ==> data[p..|data|] == [data[p]];
  }

  // ---------------------------------------------------------------- buffer chains

  /** One pbuf: where its payload lies and what it holds. */
  datatype Pbuf = Pbuf(addr: nat, payload: seq<Byte>)

  function Concat(chain: seq<Pbuf>): seq<Byte> {
    if chain == [] then [] else Concat(chain[..|chain| - 1]) + chain[|chain| - 1].payload
  }

  /** The sum of the bytes in the byte order the accumulator is in. */
  function Order(swapped: bool, b: seq<Byte>): nat {
    if swapped then BE(b) else LE(b)
  }

  /** acc holds the sum of the bytes done so far, byte-swapped if `swapped`. */
  ghost predicate Holds(acc: nat, swapped: bool, done: seq<Byte>) {
    acc <= 0xffff && Same(acc, Order(swapped, done))
  }

  lemma OrderConcat(done: seq<Byte>, buf: seq<Byte>)
    ensures var swapped := |done| % 2 == 1;
            Order(swapped, done + buf) == Order(swapped, done) + LE(buf)
  {
    if |done| % 2 == 1 {
      BEConcat(done, buf);
    } else {
      LEConcat(done, buf);
    }
  }

  lemma FoldOnce(u: nat, x: nat)
    requires u <= 0x1_fffe && Same(u, x)
    ensures Fold(u) <= 0xffff && Same(Fold(u), x)
  {
    FoldBounds(u);
    FoldSame(u);
    SameTrans(Fold(u), u, x);
  }

  lemma AddFolded(a: nat, x: nat, d: nat, e: nat, z: nat)
    requires a <= 0xffff && d <= 0xffff && Same(a, x) && Same(d, e) && z == x + e
    ensures Fold(a + d) <= 0xffff && Same(Fold(a + d), z)
  {
    SameAdd(a, x, d, e);
    FoldOnce(a + d, z);
  }

  /** Add the sum of one buffer; the accumulator fits 16 bits again before it may be swapped. */
  method AddBuffer(acc: nat, swapped: bool, buf: seq<Byte>, addr: nat, ghost done: seq<Byte>) returns (acc': nat)
    requires Holds(acc, swapped, done) && swapped == (|done| % 2 == 1)
    ensures Holds(acc', swapped, done + buf)
  {
    var sum := Chksum3(buf, addr);
    acc' := Fold(acc + sum);
    ghost var z := Order(swapped, done + buf);
    OnesSumSame(buf);
    OrderConcat(done, buf);
    AddFolded(acc, Order(swapped, done), sum, LE(buf), z);
  }

  /** Behind a buffer of odd length the bytes of the accumulator are exchanged, which loses nothing. */
  method SwapIf(cond: bool, acc: nat, swapped: bool, ghost done: seq<Byte>) returns (acc': nat, swapped': bool)
    requires Holds(acc, swapped, done)
    ensures Holds(acc', swapped', done) && swapped' == (swapped != cond)
  {
    acc', swapped' := acc, swapped;
    if cond {
      SwapOrder(acc, done);
      swapped' := !swapped;
      acc' := Swap(acc);
    }
  }

  /** The loop shared by inet_chksum_pbuf and inet_cksum_pseudo_base, started with an even prefix. */
  method SumChain(acc0: nat, chain: seq<Pbuf>, ghost prefix: seq<Byte>) returns (acc: nat)
    requires |prefix| % 2 == 0 && Holds(acc0, false, prefix)
    ensures acc <= 0xffff && Same(acc, LE(prefix + Concat(chain)))
  {
    acc := acc0;
    var swapped := false;
    ghost var done := prefix;
    for i := 0 to |chain|
      invariant done == prefix + Concat(chain[..i])
      invariant Holds(acc, swapped, done) && swapped == (|done| % 2 == 1)
    {
      var q := chain[i];
      acc := AddBuffer(acc, swapped, q.payload, q.addr, done);
      done := done + q.payload;
      acc, swapped := SwapIf(|q.payload| % 2 != 0, acc, swapped, done);
      assert chain[..i + 1][..i] == chain[..i];
    }
    assert chain[..|chain|] == chain;
    acc, swapped := SwapIf(swapped, acc, swapped, done);
  }

  /** ~x on 16 bits. */
  function Invert(x: nat): nat
    requires x <= 0xffff
  {
    0xffff - x
  }

  /** inet_chksum */
  method InetChksum(data: seq<Byte>, addr: nat) returns (r: nat)
    ensures r == Invert(OnesSum(data))
  {
    var sum := Chksum3(data, addr);
    r := Invert(sum);
  }

  /** inet_chksum_pbuf: the checksum of a chain is that of the concatenated bytes. */
  method InetChksumPbuf(chain: seq<Pbuf>) returns (r: nat)
    ensures r == Invert(OnesSum(Concat(chain)))
  {
    SameRefl(0);
    var acc := SumChain(0, chain, []);
    assert [] + Concat(chain) == Concat(chain);
    IsOnesSum(acc, Concat(chain));
    r := Invert(acc);
  }

  // ---------------------------------------------------------------- pseudo headers

  /** A 16-bit number in network byte order. */
  function Bytes16(n: nat): seq<Byte>
    requires n <= 0xffff
  {
    [n / 256, n % 256]
  }

  /** The end of the pseudo header: a zero byte, the protocol and the length. */
  function ProtoBytes(proto: Byte, len: nat): seq<Byte>
    requires len <= 0xffff
  {
    [0, proto] + Bytes16(len)
  }

  lemma WordSum(a: Byte, b: Byte)
    ensures LE([a, b]) == a + 256 * b
  {
    assert [a, b][2..] == [];
  }

  lemma ProtoSum(proto: Byte, len: nat)
    requires len <= 0xffff
    ensures LE(ProtoBytes(proto, len)) == Swap(proto) + Swap(len)
  {
    LEConcat([0, proto], Bytes16(len));
    WordSum(0, proto);
    WordSum(len / 256, len % 256);
  }

  /** Put the protocol words in front of the data instead of behind it. */
  lemma ProtoInFront(prefix: seq<Byte>, proto: Byte, len: nat, data: seq<Byte>)
    requires len <= 0xffff && |prefix| % 2 == 0
    ensures LE(prefix + ProtoBytes(proto, len) + data) == LE(prefix + data) + (Swap(proto) + Swap(len))
  {
    LEConcat(prefix + ProtoBytes(proto, len), data);
    LEConcat(prefix, ProtoBytes(proto, len));
    LEConcat(prefix, data);
    ProtoSum(proto, len);
  }

  /** The end of inet_cksum_pseudo_base: add protocol and length, fold twice, invert. */
  method PseudoEnd(acc: nat, proto: Byte, len: nat, ghost prefix: seq<Byte>, ghost data: seq<Byte>) returns (r: nat)
    requires len <= 0xffff && |prefix| % 2 == 0
    requires acc <= 0xffff && Same(acc, LE(prefix + data))
    ensures r == Invert(OnesSum(prefix + ProtoBytes(proto, len) + data))
  {
    ghost var whole := prefix + ProtoBytes(proto, len) + data;
    ProtoInFront(prefix, proto, len, data);
    SwapSame(proto);
    SwapSame(len);
    var total := acc + (Swap(proto) + Swap(len));
    AddTo(acc, LE(prefix + data), Swap(proto) + Swap(len), LE(whole));
    FoldTwice(total, LE(whole));
    IsOnesSum(Fold(Fold(total)), whole);
    r := Invert(Fold(Fold(total)));
  }

  /** inet_cksum_pseudo_base, for an accumulator holding the address words. */
  method PseudoBase(acc0: nat, chain: seq<Pbuf>, proto: Byte, len: nat, ghost addrs: seq<Byte>) returns (r: nat)
    requires len <= 0xffff && |addrs| % 2 == 0 && Holds(acc0, false, addrs)
    ensures r == Invert(OnesSum(addrs + ProtoBytes(proto, len) + Concat(chain)))
  {
    var acc := SumChain(acc0, chain, addrs);
    r := PseudoEnd(acc, proto, len, addrs, Concat(chain));
  }

  /** A 32-bit word added in two halves. */
  method AddWords(acc: nat, addr: nat, ghost lo: nat, ghost hi: nat) returns (r: nat)
    requires lo <= 0xffff && hi <= 0xffff && addr == lo + 0x1_0000 * hi
    ensures r == acc + lo + hi
  {
    Halves(lo, hi);
    r := acc + addr % 0x1_0000;
    r := r + addr / 0x1_0000;
  }

  lemma Halves(lo: nat, hi: nat)
    requires lo <= 0xffff && hi <= 0xffff
    ensures (lo + 0x1_0000 * hi) % 0x1_0000 == lo && (lo + 0x1_0000 * hi) / 0x1_0000 == hi
  {
  }

  /** The two 16-bit words of an address word. */
  lemma TwoWords(bytes: seq<Byte>, p: nat)
    requires p + 4 <= |bytes|
    ensures LE(bytes[p..p + 4]) == Load16(bytes, p) + Load16(bytes, p + 2)
  {
    LEExtend(bytes, p, p + 2, p + 4);
  }

  /** An address word in memory order. */
  method AddHalves(acc: nat, bytes: seq<Byte>, p: nat) returns (r: nat)
    requires p + 4 <= |bytes|
    ensures r == acc + LE(bytes[p..p + 4]) <= acc + 0x1_fffe
  {
    TwoWords(bytes, p);
    r := AddWords(acc, Load32(bytes, p), Load16(bytes, p), Load16(bytes, p + 2));
  }

  /** inet_chksum_pseudo: the checksum over the IPv4 pseudo header and the chain. */
  method InetChksumPseudo(chain: seq<Pbuf>, proto: Byte, len: nat, src: seq<Byte>, dest: seq<Byte>) returns (r: nat)
    requires |src| == 4 && |dest| == 4 && len <= 0xffff
    ensures r == Invert(OnesSum(src + dest + ProtoBytes(proto, len) + Concat(chain)))
  {
    var acc := Ip4Words(src, dest);
    r := PseudoBase(acc, chain, proto, len, src + dest);
  }

  method Ip4Words(src: seq<Byte>, dest: seq<Byte>) returns (acc: nat)
    requires |src| == 4 && |dest| == 4
    ensures Holds(acc, false, src + dest)
  {
    acc := AddHalves(0, src, 0);
    acc := AddHalves(acc, dest, 0);
    assert src[0..4] == src && dest[0..4] == dest;
    AddressSum(acc, src, dest);
    acc := Fold(Fold(acc));
  }

  /** Two folds of the added address words. */
  lemma AddressSum(acc: nat, src: seq<Byte>, dest: seq<Byte>)
    requires |src| % 2 == 0 && acc == LE(src) + LE(dest) && acc < U32
    ensures Holds(Fold(Fold(acc)), false, src + dest)
  {
    LEConcat(src, dest);
    SameRefl(acc);
    FoldTwice(acc, LE(src + dest));
  }

  /** One word more of the address. */
  lemma TakeWord(b: seq<Byte>, p: nat, q: nat)
    requires p % 2 == 0 && q == p + 4 <= |b|
    ensures LE(b[..q]) == LE(b[..p]) + LE(b[p..q])
  {
    assert b[0..p] == b[..p] && b[0..q] == b[..q];
    LEExtend(b, 0, p, q);
  }

  /** ip6_chksum_pseudo: the same over the IPv6 addresses, whose words are added alternately. */
  method Ip6ChksumPseudo(chain: seq<Pbuf>, proto: Byte, len: nat, src: seq<Byte>, dest: seq<Byte>) returns (r: nat)
    requires |src| == 16 && |dest| == 16 && len <= 0xffff
    ensures r == Invert(OnesSum(src + dest + ProtoBytes(proto, len) + Concat(chain)))
  {
    var acc := Ip6Words(src, dest);
    r := PseudoBase(acc, chain, proto, len, src + dest);
  }

  method Ip6Words(src: seq<Byte>, dest: seq<Byte>) returns (acc: nat)
    requires |src| == 16 && |dest| == 16
    ensures Holds(acc, false, src + dest)
  {
    acc := 0;
    for part := 0 to 4
      invariant acc == LE(src[..4 * part]) + LE(dest[..4 * part])
      invariant acc <= 0x3_fffc * part
    {
      TakeWord(src, 4 * part, 4 * (part + 1));
      TakeWord(dest, 4 * part, 4 * (part + 1));
      acc := AddHalves(acc, src, 4 * part);
      acc := AddHalves(acc, dest, 4 * part);
    }
    TakeAll(src);
    TakeAll(dest);
    AddressSum(acc, src, dest);
    acc := Fold(Fold(acc));
  }

  // ---------------------------------------------------------------- partial checksums

  /**
   * The loop of inet_cksum_pseudo_partial_base. It swaps by the length of the whole buffer even
   * where only a part was summed; that can only happen in the last round, where it is harmless.
   */
  method SumPart(acc0: nat, chain: seq<Pbuf>, chksumLen: nat, ghost prefix: seq<Byte>) returns (acc: nat)
    requires |prefix| % 2 == 0 && Holds(acc0, false, prefix)
    ensures acc <= 0xffff
    ensures Same(acc, LE(prefix + Concat(chain)[..Least(chksumLen, |Concat(chain)|)]))
  {
    acc := acc0;
    var swapped, left: nat, i := false, chksumLen, 0;
    ghost var part: seq<Byte> := [];
    assert prefix + part == prefix;
    while i < |chain| && left > 0
      invariant 0 <= i <= |chain| && left + |part| == chksumLen
      invariant part <= Concat(chain[..i])
      invariant left > 0 ==> part == Concat(chain[..i]) && swapped == (|prefix + part| % 2 == 1)
      invariant Holds(acc, swapped, prefix + part)
    {
      var q := chain[i];
      var chklen := if |q.payload| > left then left else |q.payload|;
      acc := AddBuffer(acc, swapped, q.payload[..chklen], q.addr, prefix + part);
      left := left - chklen;
      assert prefix + part + q.payload[..chklen] == prefix + (part + q.payload[..chklen]);
      part := part + q.payload[..chklen];
      acc, swapped := SwapIf(|q.payload| % 2 != 0, acc, swapped, prefix + part);
      assert chain[..i + 1][..i] == chain[..i];
      i := i + 1;
    }
    PartOf(chain, i, part, left, chksumLen);
    acc, swapped := SwapIf(swapped, acc, swapped, prefix + part);
  }

  lemma {:induction false} ConcatPrefix(chain: seq<Pbuf>, i: nat)
    requires i <= |chain|
    ensures Concat(chain[..i]) <= Concat(chain)
    decreases |chain| - i
  {
    if i == |chain| {
      assert chain[..i] == chain;
    } else {
      assert chain[..i + 1][..i] == chain[..i];
      ConcatPrefix(chain, i + 1);
    }
  }

  lemma PartOf(chain: seq<Pbuf>, i: nat, part: seq<Byte>, left: nat, chksumLen: nat)
    requires i <= |chain| && left + |part| == chksumLen && part <= Concat(chain[..i])
    requires left > 0 ==> i == |chain| && part == Concat(chain[..i])
    ensures part == Concat(chain)[..Least(chksumLen, |Concat(chain)|)]
  {
    ConcatPrefix(chain, i);
    if i == |chain| { assert chain[..i] == chain; }
  }

  /** inet_chksum_pseudo_partial: only the first chksumLen bytes of the chain count. */
  method InetChksumPseudoPartial(chain: seq<Pbuf>, proto: Byte, len: nat, chksumLen: nat, src: seq<Byte>, dest: seq<Byte>)
    returns (r: nat)
    requires |src| == 4 && |dest| == 4 && len <= 0xffff
    ensures var n := Least(chksumLen, |Concat(chain)|);
            r == Invert(OnesSum(src + dest + ProtoBytes(proto, len) + Concat(chain)[..n]))
  {
    var acc := Ip4Words(src, dest);
    acc := SumPart(acc, chain, chksumLen, src + dest);
    r := PseudoEnd(acc, proto, len, src + dest, Concat(chain)[..Least(chksumLen, |Concat(chain)|)]);
  }

  // ---------------------------------------------------------------- what the checksum is for

  /** Store a 16-bit value at an even offset, as the host does. */
  function Store16(data: seq<Byte>, k: nat, c: nat): seq<Byte>
    requires k + 2 <= |data| && c <= 0xffff
  {
    data[k := c % 256][k + 1 := c / 256]
  }

  /**
   * A packet whose zero checksum field is filled with the computed checksum sums to 0xffff, so the
   * receiver computes zero.
   */
  lemma FilledInVerifies(data: seq<Byte>, k: nat)
    requires k % 2 == 0 && k + 2 <= |data| && data[k] == 0 && data[k + 1] == 0
    ensures Invert(OnesSum(Store16(data, k, Invert(OnesSum(data))))) == 0
  {
    var s := OnesSum(data);
    var c := Invert(s);
    var lo: Byte, hi: Byte := c % 256, c / 256;
    var stored := Store16(data, k, c);
    Stored(data, k, lo, hi, stored);
    WordSum(lo, hi);
    OnesSumSame(data);
    AddTo(s, LE(data), c, LE(stored));
    IsOnesSum(s + c, stored);
  }

  /** What storing a word over two zero bytes adds. */
  lemma Stored(data: seq<Byte>, k: nat, lo: Byte, hi: Byte, stored: seq<Byte>)
    requires k % 2 == 0 && k + 2 <= |data| && data[k] == 0 && data[k + 1] == 0
    requires stored == data[k := lo][k + 1 := hi]
    ensures LE(stored) == LE(data) + LE([lo, hi])
  {
    var front, back := data[..k], data[k + 2..];
    assert data == front + [0, 0] + back;
    assert stored == front + [lo, hi] + back;
    LEConcat(front + [0, 0], back);
    LEConcat(front, [0, 0]);
    LEConcat(front + [lo, hi], back);
    LEConcat(front, [lo, hi]);
    WordSum(0, 0);
  }
}
