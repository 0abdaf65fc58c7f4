/** Host names (core/dns.c): encoding, case-insensitive comparison and skipping of encoded names. */
module DnsNames {
  import opened Basics

  /** lwip_tolower */
  function Lower(c: Byte): Byte {
    if 65 <= c <= 90 then c + 32 else c
  }

  /** The same byte, or the same letter of the English alphabet in the other case. */
  predicate SameLetter(a: Byte, b: Byte) {
    a == b || (65 <= a <= 90 && b == a + 32) || (65 <= b <= 90 && a == b + 32)
  }

  /** lwip_tolower makes letters equal that differ in case, and nothing else. */
  lemma LowerExact(a: Byte, b: Byte)
    ensures Lower(a) == Lower(b) <==> SameLetter(a, b)
  {
  }

  /** Names that differ at most in the case of letters. */
  predicate SameName(a: seq<Byte>, b: seq<Byte>) {
    |a| == |b| && forall k :: 0 <= k < |a| ==> SameLetter(a[k], b[k])
  }

  // ---------------------------------------------------------------- names and their encoding

  /** The length of the label that starts at i. */
  function LabelLength(name: seq<Byte>, i: nat): (d: nat)
    requires i <= |name|
    ensures i + d <= |name| && (i + d < |name| ==> name[i + d] == 46)
    ensures forall k :: i <= k < i + d ==> name[k] != 46
    decreases |name| - i
  {
    if i == |name| || name[i] == 46 then 0 else 1 + LabelLength(name, i + 1)
  }

  /** From i on there is at least one label, and every label has 1 to 63 bytes. */
  predicate ValidFrom(name: seq<Byte>, i: nat)
    requires i <= |name|
    decreases |name| - i
  {
    var d := LabelLength(name, i);
    1 <= d <= 63 && (i + d == |name| || ValidFrom(name, i + d + 1))
  }

  /**
   * Byte j of the question name of section 4.1.2 of RFC 1035: the name, with the length of a label in
   * front of it, in place of a dot or at the beginning, and an end mark.
   */
  function EncodedByte(name: seq<Byte>, j: nat): Byte
    requires j <= |name| + 1 && |name| <= 255
  {
    if j == |name| + 1 then 0
    else if j == 0 || name[j - 1] == 46 then LabelLength(name, j)
    else name[j - 1]
  }

  /** The labels of the name, without the end mark, are in p from off on. */
  ghost predicate LabelsAt(p: seq<Byte>, off: nat, name: seq<Byte>) {
    |name| <= 255 && off + |name| < |p| && forall j :: 0 <= j <= |name| ==> p[off + j] == EncodedByte(name, j)
  }

  ghost predicate EncodedAt(p: seq<Byte>, off: nat, name: seq<Byte>) {
    LabelsAt(p, off, name) && off + |name| + 1 < |p| && p[off + |name| + 1] == 0
  }

  /**
   * The conversion loop of dns_send, on the packet p from start on, in which strlen(name) + 2 bytes are
   * reserved for the name; false: the name does not fit 16-bit offsets.
   */
  method Encode(name: seq<Byte>, p: array<Byte>, start: nat) returns (ok: bool)
    requires |name| <= 255 && start <= 0xFFFF && start + |name| + 2 <= p.Length
    modifies p
    ensures ok <==> start + |name| + 1 <= 0xFFFF
    ensures ok ==> EncodedAt(p[..], start, name)
    ensures p[..start] == old(p[..start]) && p[start + |name| + 2..] == old(p[start + |name| + 2..])
  {
    var queryIdx, hostname := start, 0;
    while true
      invariant hostname <= |name| && queryIdx == start + hostname <= 0xFFFF
      invariant hostname == 0 || name[hostname - 1] == 46
      invariant forall j :: 0 <= j < hostname ==> p[start + j] == EncodedByte(name, j)
      invariant p[..start] == old(p[..start]) && p[start + |name| + 2..] == old(p[start + |name| + 2..])
      decreases |name| - hostname
    {
      var part := hostname;
      var n := CountLabel(name, part);
      hostname := hostname + n;
      if queryIdx + n + 1 > 0xFFFF {
        return false;
      }
      p[queryIdx] := n;
      for k := 0 to n
        invariant forall j :: 0 <= j < part + 1 + k ==> p[start + j] == EncodedByte(name, j)
        invariant p[..start] == old(p[..start]) && p[start + |name| + 2..] == old(p[start + |name| + 2..])
      {
        assert EncodedByte(name, part + 1 + k) == name[part + k];
        p[queryIdx + 1 + k] := name[part + k];
      }
      queryIdx := queryIdx + n + 1;
      if hostname == |name| {
        break;
      }
      hostname := hostname + 1;
    }
    p[queryIdx] := 0;
    ok := true;
  }

  /** The inner loop: up to the next dot or the end of the name. */
  method CountLabel(name: seq<Byte>, part: nat) returns (n: nat)
    requires part <= |name|
    ensures n == LabelLength(name, part)
  {
    var hostname := part;
    n := 0;
    while hostname < |name| && name[hostname] != 46
      invariant part <= hostname <= |name| && n == hostname - part
      invariant LabelLength(name, part) == n + LabelLength(name, hostname)
      decreases |name| - hostname
    {
      n := n + 1;
      hostname := hostname + 1;
    }
  }

  // ---------------------------------------------------------------- comparing

  /** pbuf_try_get_at */
  function At(p: seq<Byte>, i: nat): int {
    if i < |p| then p[i] else -1
  }

  /** n bytes at off agree with the query's from qi on, apart from case; query is all of memory there. */
  predicate LabelMatches(query: nat -> Byte, qi: nat, p: seq<Byte>, off: nat, n: nat)
    decreases n
  {
    n == 0 || (At(p, off) >= 0 && Lower(query(qi)) == Lower(p[off]) && off != 0xFFFF &&
               LabelMatches(query, qi + 1, p, off + 1, n - 1))
  }

  /** dns_compare_name from a label on; 0xFFFF: different, or an error. */
  function CompareFrom(query: nat -> Byte, qi: nat, p: seq<Byte>, off: nat): nat
    decreases |p| - off
  {
    var n := At(p, off);
    if n < 0 || off == 0xFFFF || n >= 192 || !LabelMatches(query, qi, p, off + 1, n) then 0xFFFF
    else
      var next := off + 1 + n;
      var m := At(p, next);
      if m < 0 then 0xFFFF
      else if m != 0 then CompareFrom(query, qi + n + 1, p, next)
      else if next == 0xFFFF then 0xFFFF else next + 1
  }

  /** dns_compare_name */
  method CompareName(query: nat -> Byte, p: seq<Byte>, start: nat) returns (r: nat)
    requires start <= 0xFFFF
    ensures r == CompareFrom(query, 0, p, start)
  {
    var off, qi := start, 0;
    while true
      invariant off <= 0xFFFF && CompareFrom(query, qi, p, off) == CompareFrom(query, 0, p, start)
      decreases |p| - off
    {
      var n := At(p, off);
      if n < 0 || off == 0xFFFF {
        return 0xFFFF;
      }
      if n >= 192 {
        return 0xFFFF;
      }
      off := off + 1;
      ghost var off0, qi0, n0 := off, qi, n;
      while n > 0
        invariant 0 <= n <= n0 && off == off0 + (n0 - n) && qi == qi0 + (n0 - n) && off <= 0xFFFF
        invariant LabelMatches(query, qi0, p, off0, n0) == LabelMatches(query, qi, p, off, n)
      {
        var c := At(p, off);
        if c < 0 {
          return 0xFFFF;
        }
        if Lower(query(qi)) != Lower(c) {
          return 0xFFFF;
        }
        if off == 0xFFFF {
          return 0xFFFF;
        }
        off, qi, n := off + 1, qi + 1, n - 1;
      }
      qi := qi + 1;
      var m := At(p, off);
      if m < 0 {
        return 0xFFFF;
      }
      if m == 0 {
        break;
      }
    }
    r := if off == 0xFFFF then 0xFFFF else off + 1;
  }

  ghost predicate AgreesAt(query: nat -> Byte, name: seq<Byte>, k: nat) {
    k < |name| && name[k] != 46 ==> SameLetter(query(k), name[k])
  }

  /** What the comparison really checks: every byte of the name in the packet except the dots. */
  ghost predicate Agrees(query: nat -> Byte, name: seq<Byte>, i: nat, end: nat) {
    forall k: nat :: i <= k < end ==> AgreesAt(query, name, k)
  }

  /** A label in the packet, from its byte i on. */
  lemma {:induction false} LabelExact(query: nat -> Byte, p: seq<Byte>, start: nat, name: seq<Byte>, i: nat, end: nat)
    requires LabelsAt(p, start, name) && start + |name| + 1 < 0xFFFF
    requires i <= end <= |name| && forall k :: i <= k < end ==> name[k] != 46
    ensures LabelMatches(query, i, p, start + 1 + i, end - i) <==> Agrees(query, name, i, end)
    decreases end - i
  {
    if i < end {
      assert p[start + (i + 1)] == EncodedByte(name, i + 1);
      LabelExact(query, p, start, name, i + 1, end);
      if Agrees(query, name, i, end) {
        assert AgreesAt(query, name, i);
      }
    }
  }

  lemma AgreesSplit(query: nat -> Byte, name: seq<Byte>, i: nat, dot: nat, end: nat)
    requires i <= dot < end <= |name| && name[dot] == 46
    ensures Agrees(query, name, i, end) <==> Agrees(query, name, i, dot) && Agrees(query, name, dot + 1, end)
  {
    assert AgreesAt(query, name, dot);
  }

  /** dns_compare_name on the label at i, of length d. */
  lemma CompareLabel(query: nat -> Byte, p: seq<Byte>, start: nat, name: seq<Byte>, i: nat, d: nat)
    requires EncodedAt(p, start, name) && start + |name| + 2 <= 0xFFFF
    requires i <= |name| && (i == 0 || name[i - 1] == 46) && ValidFrom(name, i) && d == LabelLength(name, i)
    ensures i + d <= |name|
    ensures CompareFrom(query, i, p, start + i) ==
            if !LabelMatches(query, i, p, start + i + 1, d) then 0xFFFF
            else if i + d < |name| then CompareFrom(query, i + d + 1, p, start + i + d + 1)
            else start + |name| + 2
  {
    assert p[start + i] == EncodedByte(name, i) == d;
    if i + d < |name| {
      assert p[start + (i + d + 1)] == EncodedByte(name, i + d + 1) == LabelLength(name, i + d + 1);
    }
  }

  /** The same in terms of the bytes of the name. */
  lemma LabelAgrees(query: nat -> Byte, p: seq<Byte>, start: nat, name: seq<Byte>, i: nat, d: nat)
    requires EncodedAt(p, start, name) && start + |name| + 2 <= 0xFFFF
    requires i <= |name| && (i == 0 || name[i - 1] == 46) && ValidFrom(name, i) && d == LabelLength(name, i)
    ensures CompareFrom(query, i, p, start + i) ==
            if !Agrees(query, name, i, i + d) then 0xFFFF
            else if i + d < |name| then CompareFrom(query, i + d + 1, p, start + i + d + 1)
            else start + |name| + 2
  {
    CompareLabel(query, p, start, name, i, d);
    LabelExact(query, p, start, name, i, i + d);
  }

  /**
   * dns_compare_name on a packet that holds the encoding of a valid name, from its label at i on: it
   * accepts exactly if the query agrees with the name at every byte that is not a dot, and returns the
   * offset behind the encoding.
   */
  lemma {:induction false} CompareExact(query: nat -> Byte, p: seq<Byte>, start: nat, name: seq<Byte>, i: nat)
    requires EncodedAt(p, start, name) && start + |name| + 2 <= 0xFFFF
    requires i <= |name| && (i == 0 || name[i - 1] == 46) && ValidFrom(name, i)
    ensures CompareFrom(query, i, p, start + i) ==
            if Agrees(query, name, i, |name|) then start + |name| + 2 else 0xFFFF
    decreases |name| - i
  {
    var d := LabelLength(name, i);
    LabelAgrees(query, p, start, name, i, d);
    if i + d < |name| {
      AgreesSplit(query, name, i, i + d, |name|);
      CompareExact(query, p, start, name, i + d + 1);
    }
  }

  /** The query is the name. */
  ghost predicate Holds(query: nat -> Byte, name: seq<Byte>) {
    forall k :: 0 <= k < |name| ==> query(k) == name[k]
  }

  /** Changing the case of letters does not change the labels. */
  lemma {:induction false} RecasedLength(name: seq<Byte>, other: seq<Byte>, i: nat)
    requires SameName(name, other) && i <= |name|
    ensures LabelLength(name, i) == LabelLength(other, i)
    decreases |name| - i
  {
    if i < |name| { RecasedLength(name, other, i + 1); }
  }

  lemma {:induction false} RecasedValid(name: seq<Byte>, other: seq<Byte>, i: nat)
    requires SameName(name, other) && i <= |name| && ValidFrom(name, i)
    ensures ValidFrom(other, i)
    decreases |name| - i
  {
    var d := LabelLength(name, i);
    RecasedLength(name, other, i);
    if i + d < |name| { RecasedValid(name, other, i + d + 1); }
  }

  /**
   * Round trip: the name that was encoded is recognised again in a packet, whatever has happened to the
   * case of its letters, and the offset behind it is returned.
   */
  lemma CompareRoundTrip(query: nat -> Byte, name: seq<Byte>, other: seq<Byte>, p: seq<Byte>, start: nat)
    requires Holds(query, name) && ValidFrom(name, 0) && SameName(name, other)
    requires EncodedAt(p, start, other) && start + |name| + 2 <= 0xFFFF
    ensures CompareFrom(query, 0, p, start) == start + |name| + 2
  {
    RecasedValid(name, other, 0);
    CompareExact(query, p, start, other, 0);
    forall k: nat | k < |other| ensures AgreesAt(query, other, k) {
    }
  }

  /** Dots and the end of the query are not compared: "axbc" is taken for "a.b". */
  lemma SeparatorsIgnored(query: nat -> Byte)
    requires Holds(query, [97, 120, 98, 99])
    ensures CompareFrom(query, 0, [1, 97, 1, 98, 0], 0) == 5
  {
    var name: seq<Byte> := [97, 46, 98];
    var p: seq<Byte> := [1, 97, 1, 98, 0];
    assert LabelLength(name, 0) == 1 && LabelLength(name, 2) == 1;
    assert ValidFrom(name, 2);
    assert query(0) == [97, 120, 98, 99][0] && query(2) == [97, 120, 98, 99][2];
    CompareExact(query, p, 0, name, 0);
  }

  /** From off on there are labels without compression, and behind the end mark comes offset r. */
  predicate LabelsEnd(p: seq<Byte>, off: nat, r: nat)
    decreases |p| - off
  {
    && off < |p| && p[off] < 192
    && var next := off + 1 + p[off];
       && next < |p|
       && if p[next] == 0 then r == next + 1 else LabelsEnd(p, next, r)
  }

  /**
   * Whatever the packet and the query, a name is accepted only if it consists of labels without compression
   * inside the packet, and the offset behind its end mark is returned; all offsets fit 16 bits.
   */
  lemma {:induction false} CompareSound(query: nat -> Byte, qi: nat, p: seq<Byte>, off: nat)
    requires off <= 0xFFFF && CompareFrom(query, qi, p, off) != 0xFFFF
    ensures LabelsEnd(p, off, CompareFrom(query, qi, p, off)) && CompareFrom(query, qi, p, off) < 0xFFFF
    decreases |p| - off
  {
    var next := off + 1 + p[off];
    LabelFits(query, qi, p, off + 1, p[off]);
    if p[next] != 0 {
      CompareSound(query, qi + p[off] + 1, p, next);
    }
  }

  /** A label that matches does not reach beyond 16-bit offsets. */
  lemma {:induction false} LabelFits(query: nat -> Byte, qi: nat, p: seq<Byte>, off: nat, n: nat)
    requires off <= 0xFFFF && LabelMatches(query, qi, p, off, n)
    ensures off + n <= 0xFFFF
    decreases n
  {
    if n > 0 { LabelFits(query, qi + 1, p, off + 1, n - 1); }
  }

  // ---------------------------------------------------------------- skipping

  /** dns_skip_name from a label on. */
  function SkipFrom(p: seq<Byte>, off: nat): nat
    decreases |p| - off
  {
    var n := At(p, off);
    if n < 0 || off == 0xFFFF then 0xFFFF
    else if n >= 192 then if off + 1 == 0xFFFF then 0xFFFF else off + 2
    else if off + 1 + n >= |p| then 0xFFFF
    else
      var next := off + 1 + n;
      if p[next] != 0 then SkipFrom(p, next)
      else if next == 0xFFFF then 0xFFFF else next + 1
  }

  /** dns_skip_name; the length of a packet has 16 bits. */
  method SkipName(p: seq<Byte>, start: nat) returns (r: nat)
    requires start <= 0xFFFF && |p| <= 0xFFFF
    ensures r == SkipFrom(p, start)
  {
    var off := start;
    while true
      invariant off <= 0xFFFF && SkipFrom(p, off) == SkipFrom(p, start)
      decreases |p| - off
    {
      var n := At(p, off);
      off := (off + 1) % 0x10000;
      if n < 0 || off == 0 {
        return 0xFFFF;
      }
      if n >= 192 {
        break;
      }
      if off + n >= |p| {
        return 0xFFFF;
      }
      off := (off + n) % 0x10000;
      n := At(p, off);
      if n == 0 {
        break;
      }
    }
    r := if off == 0xFFFF then 0xFFFF else off + 1;
  }

  /** What dns_skip_name finds behind the labels of a name: the end mark or a compression pointer. */
  lemma {:induction false} SkipLabels(p: seq<Byte>, start: nat, name: seq<Byte>, i: nat)
    requires LabelsAt(p, start, name) && start + |name| + 1 < |p| <= 0xFFFF
    requires i <= |name| && (i == 0 || name[i - 1] == 46) && ValidFrom(name, i)
    ensures SkipFrom(p, start + i) == if p[start + |name| + 1] == 0 then start + |name| + 2
                                      else SkipFrom(p, start + |name| + 1)
    decreases |name| - i
  {
    var d := LabelLength(name, i);
    assert p[start + i] == EncodedByte(name, i) == d;
    if i + d < |name| {
      assert p[start + (i + d + 1)] == EncodedByte(name, i + d + 1) == LabelLength(name, i + d + 1);
      SkipLabels(p, start, name, i + d + 1);
    }
  }

  /** The offset that dns_compare_name returns for a name is the one dns_skip_name returns. */
  lemma SkipCompare(query: nat -> Byte, name: seq<Byte>, other: seq<Byte>, p: seq<Byte>, start: nat)
    requires Holds(query, name) && ValidFrom(name, 0) && SameName(name, other)
    requires EncodedAt(p, start, other) && |p| <= 0xFFFF
    ensures SkipFrom(p, start) == CompareFrom(query, 0, p, start) == start + |name| + 2
  {
    RecasedValid(name, other, 0);
    SkipLabels(p, start, other, 0);
    CompareRoundTrip(query, name, other, p, start);
  }

  /** A name that ends in a compression pointer (section 4.1.4 of RFC 1035) ends behind its two bytes. */
  lemma SkipPointer(p: seq<Byte>, start: nat, name: seq<Byte>)
    requires LabelsAt(p, start, name) && ValidFrom(name, 0) && start + |name| + 2 < |p| <= 0xFFFF
    requires p[start + |name| + 1] >= 192
    ensures SkipFrom(p, start) == start + |name| + 3
  {
    SkipLabels(p, start, name, 0);
  }

  /** From off on there are labels, and then an end mark or a compression pointer; behind that comes r. */
  predicate NameEnd(p: seq<Byte>, off: nat, r: nat)
    decreases |p| - off
  {
    && off < |p|
    && if p[off] >= 192 then r == off + 2
       else
         var next := off + 1 + p[off];
         && next < |p|
         && if p[next] == 0 then r == next + 1 else NameEnd(p, next, r)
  }

  /** Whatever the packet, skipping finds the end of a name that lies in it, and gives up exactly if there is none. */
  lemma {:induction false} SkipExact(p: seq<Byte>, off: nat)
    requires |p| <= 0xFFFD
    ensures SkipFrom(p, off) != 0xFFFF ==> NameEnd(p, off, SkipFrom(p, off))
    ensures SkipFrom(p, off) == 0xFFFF ==> forall r :: !NameEnd(p, off, r)
    decreases |p| - off
  {
    if off < |p| && p[off] < 192 && off + 1 + p[off] < |p| && p[off + 1 + p[off]] != 0 {
      SkipExact(p, off + 1 + p[off]);
    }
  }
}
