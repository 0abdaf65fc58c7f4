/**
 * The resumable vectored write on a TCP connection: netconn_write_vectors_partly (api/api_lib.c),
 * lwip_netconn_do_write, lwip_netconn_do_writemore and the callbacks that resume it (api/api_msg.c).
 */
module VectorWrite {
  import opened Basics
  import opened Wrappers

  // ---------------------------------------------------------------- vectors and positions

  function Concat(vs: seq<seq<Byte>>): seq<Byte> {
    if vs == [] then [] else vs[0] + Concat(vs[1..])
  }

  /** Where vector v starts in the concatenation. */
  function Pos(vs: seq<seq<Byte>>, v: nat): nat
    requires v <= |vs|
  {
    if v == 0 then 0 else |vs[0]| + Pos(vs[1..], v - 1)
  }

  lemma {:induction false} PosNext(vs: seq<seq<Byte>>, v: nat)
    requires v < |vs|
    ensures Pos(vs, v + 1) == Pos(vs, v) + |vs[v]|
  {
    if v > 0 { PosNext(vs[1..], v - 1); }
  }

  lemma {:induction false} PosEnd(vs: seq<seq<Byte>>)
    ensures Pos(vs, |vs|) == |Concat(vs)|
  {
    if vs != [] { PosEnd(vs[1..]); }
  }

  /** A part of one vector is a part of the concatenation. */
  lemma {:induction false} Slice(vs: seq<seq<Byte>>, v: nat, off: nat, n: nat)
    requires v < |vs| && off + n <= |vs[v]|
    ensures Pos(vs, v) + off + n <= |Concat(vs)|
    ensures Concat(vs)[Pos(vs, v) + off..Pos(vs, v) + off + n] == vs[v][off..off + n]
  {
    if v > 0 {
      Slice(vs[1..], v - 1, off, n);
      var p := Pos(vs[1..], v - 1) + off;
      assert Concat(vs)[|vs[0]| + p..|vs[0]| + p + n] == Concat(vs[1..])[p..p + n];
    }
  }

  lemma {:induction false} PosBound(vs: seq<seq<Byte>>, v: nat)
    requires v <= |vs|
    ensures Pos(vs, v) <= |Concat(vs)|
  {
    if v > 0 { PosBound(vs[1..], v - 1); }
  }

  lemma PrefixGrows(all: seq<Byte>, at: nat, n: nat)
    requires at + n <= |all|
    ensures all[..at] + all[at..at + n] == all[..at + n]
  {
  }

  // ---------------------------------------------------------------- one round of the loop

  datatype Err = Ok | Mem | WouldBlock | Val | InProgress | Conn | Rte | Other(code: nat)

  /** tcp_write takes all it is given or nothing. */
  datatype TcpWrite = Taken | NoMemory | Fails(code: nat)

  /** tcpwnd_size_t, as tcp_sndbuf is used here. */
  type U16 = n: nat | n <= 0xffff

  /** What TCP answers in one round: tcp_sndbuf, tcp_write, and whether tcp_output finds a route. */
  datatype Answer = Answer(sndbuf: U16, write: TcpWrite, route: bool)

  /** vector index, vector_cnt, vector_off and offset of the message. */
  datatype Cursor = Cursor(vec: nat, cnt: nat, off: nat, offset: nat)

  function Start(vs: seq<seq<Byte>>): Cursor { Cursor(0, |vs|, 0, 0) }

  ghost predicate CursorOk(vs: seq<seq<Byte>>, c: Cursor) {
    && c.vec < |vs| && c.off <= |vs[c.vec]| && c.offset == Pos(vs, c.vec) + c.off
    && (c.cnt == |vs| - c.vec || (c.cnt == 0 && c.vec == |vs| - 1 && c.off == |vs[c.vec]|))
  }

  /** The vector pointer has left the array, and its counter has wrapped around. */
  ghost predicate Beyond(vs: seq<seq<Byte>>, c: Cursor) {
    c == Cursor(|vs|, 0xffff, 0, |Concat(vs)|)
  }

  ghost predicate Known(vs: seq<seq<Byte>>, c: Cursor) {
    CursorOk(vs, c) || Beyond(vs, c)
  }

  /** How much is passed to tcp_write: at most 65535 bytes and what fits the send buffer. */
  function Chunk(diff: nat, available: nat): (len: nat)
    ensures len <= diff && len <= available && len <= 0xffff
    ensures len == diff || len == available || len == 0xffff
  {
    var len := if diff > 0xffff then 0xffff else diff;
    if available < len then available else len
  }

  /** x in 16 bits. */
  function Low16(x: nat): nat {
    if x < 65536 then x else Low16(x - 65536)
  }

  lemma {:induction false} Low16Exact(x: nat)
    ensures Low16(x) == x % 65536
  {
    if x >= 65536 { Low16Exact(x - 65536); }
  }

  /** write_more: the length is compared with the remainder of the vector truncated to 16 bits. */
  predicate WriteMore(diff: nat, len: nat, cnt: nat) {
    (len == 0xffff && diff > 0xffff) || (len == Low16(diff) && cnt > 1)
  }

  /** vector_cnt, counted down in 16 bits. */
  function Down(cnt: nat): nat {
    if cnt == 0 then 0xffff else cnt - 1
  }

  /** The cursor after a successful tcp_write of len bytes. */
  function Advance(vs: seq<seq<Byte>>, c: Cursor, len: nat): Cursor
    requires c.vec < |vs|
  {
    var off := c.off + len;
    if off != |vs[c.vec]| then c.(off := off, offset := c.offset + len)
    else if Down(c.cnt) > 0 then Cursor(c.vec + 1, Down(c.cnt), 0, c.offset + len)
    else Cursor(c.vec, 0, off, c.offset + len)
  }

  lemma AdvanceOk(vs: seq<seq<Byte>>, c: Cursor, len: nat)
    requires CursorOk(vs, c) && c.cnt > 0 && len <= |vs[c.vec]| - c.off
    ensures CursorOk(vs, Advance(vs, c, len))
    ensures c.offset + len <= |Concat(vs)|
    ensures Concat(vs)[..c.offset] + vs[c.vec][c.off..c.off + len] == Concat(vs)[..Advance(vs, c, len).offset]
    ensures Advance(vs, c, len).cnt == 0 ==> Advance(vs, c, len).offset == |Concat(vs)|
  {
    Slice(vs, c.vec, c.off, len);
    PrefixGrows(Concat(vs), c.offset, len);
    PosNext(vs, c.vec);
    PosEnd(vs);
  }

  /** Nothing is left at the end: a further tcp_write of no bytes moves the cursor out of the array. */
  lemma AdvanceBeyond(vs: seq<seq<Byte>>, c: Cursor)
    requires CursorOk(vs, c) && c.cnt == 0
    ensures |vs[c.vec]| == c.off && Beyond(vs, Advance(vs, c, 0)) && c.offset == |Concat(vs)|
  {
    PosNext(vs, c.vec);
    PosEnd(vs);
  }

  lemma AdvanceKnown(vs: seq<seq<Byte>>, c: Cursor, len: nat)
    requires CursorOk(vs, c) && len <= |vs[c.vec]| - c.off
    ensures var d := Advance(vs, c, len);
            && Known(vs, d) && d.offset <= |Concat(vs)| && c.offset <= |Concat(vs)|
            && Concat(vs)[..c.offset] + vs[c.vec][c.off..c.off + len] == Concat(vs)[..d.offset]
  {
    if c.cnt > 0 { AdvanceOk(vs, c, len); } else { AdvanceBeyond(vs, c); }
  }

  /** How a round of the loop ends: it goes round again, or the loop is left with an error code. */
  datatype RoundEnd = Again(c: Cursor) | Ends(c: Cursor, e: Err)

  function Round(vs: seq<seq<Byte>>, c: Cursor, dontblock: bool, a: Answer): RoundEnd
    requires c.vec < |vs| && c.off <= |vs[c.vec]|
  {
    var diff := |vs[c.vec]| - c.off;
    var n := Chunk(diff, a.sndbuf);
    if dontblock && a.sndbuf < diff && n == 0 then Ends(c, if c.offset == 0 then WouldBlock else Ok)
    else match a.write
      case Taken =>
        if WriteMore(diff, n, c.cnt) then Again(Advance(vs, c, n)) else Ends(Advance(vs, c, n), Ok)
      case NoMemory => Ends(c, Mem)
      case Fails(code) => Ends(c, Other(code))
  }

  lemma RoundOk(vs: seq<seq<Byte>>, c: Cursor, dontblock: bool, a: Answer)
    requires CursorOk(vs, c)
    ensures var r := Round(vs, c, dontblock, a);
            && (if r.Again? || c.cnt > 0 then CursorOk(vs, r.c) else Known(vs, r.c))
            && (r.Again? ==> c.cnt > 0 && r.c.cnt > 0)
  {
    if c.cnt > 0 {
      AdvanceOk(vs, c, Chunk(|vs[c.vec]| - c.off, a.sndbuf));
    } else {
      AdvanceBeyond(vs, c);
    }
  }

  /** What TCP answers next: once the list is used up, that it has no room. */
  function Next(world: seq<Answer>): Answer {
    if world == [] then Answer(0, NoMemory, true) else world[0]
  }

  function Rest(world: seq<Answer>): seq<Answer> {
    if world == [] then [] else world[1..]
  }

  /** The loop: the cursor and error code it ends with, whether tcp_output finds a route, and what TCP answers then. */
  ghost function Loops(vs: seq<seq<Byte>>, c: Cursor, dontblock: bool, world: seq<Answer>)
    : (Cursor, Err, bool, seq<Answer>)
    requires CursorOk(vs, c)
    decreases |world|
  {
    RoundOk(vs, c, dontblock, Next(world));
    match Round(vs, c, dontblock, Next(world))
    case Ends(c', e) => (c', e, Next(world).route, Rest(world))
    case Again(c') => Loops(vs, c', dontblock, Rest(world))
  }

  /** What the error code says about how far a round has got. */
  ghost predicate Honest(vs: seq<seq<Byte>>, dontblock: bool, c: Cursor, e: Err) {
    && c.offset <= |Concat(vs)|
    && (c.cnt == 0 ==> e.Ok? && c.offset == |Concat(vs)|)
    && (e.Ok? || e.Mem? || e.Other? || (e.WouldBlock? && dontblock && c.offset == 0))
    && (dontblock && e.Ok? ==> c.offset > 0)
  }

  lemma RoundEnds(vs: seq<seq<Byte>>, c: Cursor, dontblock: bool, a: Answer)
    requires CursorOk(vs, c) && c.cnt > 0 && |Concat(vs)| > 0
    ensures var r := Round(vs, c, dontblock, a); r.Ends? ==> Honest(vs, dontblock, r.c, r.e)
  {
    var diff := |vs[c.vec]| - c.off;
    var n := Chunk(diff, a.sndbuf);
    AdvanceOk(vs, c, 0);
    if a.write.Taken? && !(dontblock && a.sndbuf < diff && n == 0) && !WriteMore(diff, n, c.cnt) {
      TakenEnds(vs, c, dontblock, a.sndbuf, n);
    }
  }

  lemma TakenEnds(vs: seq<seq<Byte>>, c: Cursor, dontblock: bool, sndbuf: nat, n: nat)
    requires CursorOk(vs, c) && c.cnt > 0 && |Concat(vs)| > 0 && n == Chunk(|vs[c.vec]| - c.off, sndbuf)
    requires !(dontblock && sndbuf < |vs[c.vec]| - c.off && n == 0) && !WriteMore(|vs[c.vec]| - c.off, n, c.cnt)
    ensures Honest(vs, dontblock, Advance(vs, c, n), Ok)
  {
    AdvanceOk(vs, c, n);
    if c.cnt == 1 && |vs[c.vec]| == c.off { LastEmpty(vs, c); }
    assert Advance(vs, c, n).offset == c.offset + n;
  }

  /** An empty vector at the very beginning is not the last one. */
  lemma LastEmpty(vs: seq<seq<Byte>>, c: Cursor)
    requires CursorOk(vs, c) && c.cnt == 1 && |Concat(vs)| > 0 && |vs[c.vec]| == c.off
    ensures c.offset > 0
  {
    PosNext(vs, c.vec);
    PosEnd(vs);
  }

  lemma {:induction false} LoopEnds(vs: seq<seq<Byte>>, c: Cursor, dontblock: bool, world: seq<Answer>)
    requires CursorOk(vs, c) && c.cnt > 0 && |Concat(vs)| > 0
    ensures Honest(vs, dontblock, Loops(vs, c, dontblock, world).0, Loops(vs, c, dontblock, world).1)
    decreases |world|
  {
    var a := Next(world);
    RoundOk(vs, c, dontblock, a);
    RoundEnds(vs, c, dontblock, a);
    if Round(vs, c, dontblock, a).Again? {
      LoopEnds(vs, Round(vs, c, dontblock, a).c, dontblock, Rest(world));
    }
  }

  /** With nothing left at the start there is one round, and nothing is handed over. */
  lemma LoopsEmpty(vs: seq<seq<Byte>>, c: Cursor, world: seq<Answer>)
    requires CursorOk(vs, c) && c.cnt == 0
    ensures var r := Loops(vs, c, false, world);
            && Known(vs, r.0) && r.0.offset == |Concat(vs)| && !r.1.WouldBlock?
            && (Next(world).write.Taken? ==> Beyond(vs, r.0) && r.1.Ok?)
            && (r.1.Ok? || r.1.Mem? || r.1.Other?) && r.2 == Next(world).route
  {
    AdvanceBeyond(vs, c);
  }

  /** The write is blocking, and a positive multiple of 65536 bytes of the vector and further vectors are left. */
  predicate Stuck(vs: seq<seq<Byte>>, c: Cursor, dontblock: bool)
    requires c.vec < |vs|
  {
    !dontblock && c.off < |vs[c.vec]| && (|vs[c.vec]| - c.off) % 65536 == 0 && c.cnt > 1
  }

  /**
   * A round goes round again without progress in exactly one case: a blocking write is stuck as above, the
   * send buffer is full, and tcp_write accepts its zero bytes. The truncated comparison then takes nothing
   * for everything.
   */
  lemma SpinExact(vs: seq<seq<Byte>>, c: Cursor, dontblock: bool, a: Answer)
    requires CursorOk(vs, c) && c.cnt > 0
    ensures Round(vs, c, dontblock, a) == Again(c) <==> Stuck(vs, c, dontblock) && a.sndbuf == 0 && a.write.Taken?
  {
    var diff := |vs[c.vec]| - c.off;
    var n := Chunk(diff, a.sndbuf);
    Low16Exact(diff);
    if a.write.Taken? && n > 0 {
      assert Advance(vs, c, n).offset == c.offset + n;
    }
  }

  /** Bytes and vectors that are left. */
  ghost function LeftOver(vs: seq<seq<Byte>>, c: Cursor): int {
    |Concat(vs)| - c.offset + c.cnt
  }

  /** In every other round that goes round again, less is left afterwards. */
  lemma RoundAdvances(vs: seq<seq<Byte>>, c: Cursor, dontblock: bool, a: Answer)
    requires CursorOk(vs, c) && c.cnt > 0
    ensures var r := Round(vs, c, dontblock, a);
            r.Again? ==> r.c == c || 0 <= LeftOver(vs, r.c) < LeftOver(vs, c)
  {
    AdvanceOk(vs, c, Chunk(|vs[c.vec]| - c.off, a.sndbuf));
  }

  /** And so in every round for which there is room. */
  lemma RoundGains(vs: seq<seq<Byte>>, c: Cursor, dontblock: bool, a: Answer)
    requires CursorOk(vs, c) && c.cnt > 0 && a.sndbuf > 0 && a.write.Taken?
    ensures var r := Round(vs, c, dontblock, a);
            && 0 <= LeftOver(vs, r.c) < LeftOver(vs, c) && (r.Ends? ==> r.e.Ok?)
            && (r.Ends? && r.c.cnt == 0 ==> r.c.offset == |Concat(vs)|)
  {
    AdvanceOk(vs, c, Chunk(|vs[c.vec]| - c.off, a.sndbuf));
  }

  /**
   * The loop then makes no progress as long as the send buffer stays full: whatever number of rounds it
   * makes, it is where it was.
   */
  lemma {:induction false} SpinsOn(vs: seq<seq<Byte>>, c: Cursor, full: seq<Answer>, world: seq<Answer>)
    requires CursorOk(vs, c) && Stuck(vs, c, false)
    requires forall a :: a in full ==> a.sndbuf == 0 && a.write.Taken?
    ensures Loops(vs, c, false, full + world) == Loops(vs, c, false, world)
    decreases |full|
  {
    if full == [] {
      NothingBefore(world);
    } else {
      SpinExact(vs, c, false, full[0]);
      SpinsOn(vs, c, full[1..], world);
      assert (full + world)[1..] == full[1..] + world;
    }
  }

  /** A write that is stuck from the start: the first of several vectors has 65536 bytes. */
  lemma StuckAtStart(vs: seq<seq<Byte>>)
    requires |vs| > 1 && |vs[0]| == 65536
    ensures CursorOk(vs, Start(vs)) && Stuck(vs, Start(vs), false)
  {
  }

  datatype Event = Resume | Fails(code: nat)

  // ---------------------------------------------------------------- one call, and all calls of a write

  /** The end of lwip_netconn_do_writemore; None: the write goes on. */
  function Finish(c: Cursor, e: Err, route: bool, len: nat, dontblock: bool): Option<Err> {
    match e
    case Ok => if !route then Some(Rte) else if c.offset == len || dontblock then Some(Ok) else None
    case Mem =>
      if !route then Some(Rte)
      else if dontblock then Some(if c.offset == 0 then WouldBlock else Ok)
      else None
    case _ => Some(e)
  }

  /** One call of lwip_netconn_do_writemore, for a message of len bytes. */
  ghost function Call(vs: seq<seq<Byte>>, c: Cursor, len: nat, dontblock: bool, world: seq<Answer>)
    : (Cursor, Option<Err>, seq<Answer>)
    requires CursorOk(vs, c)
  {
    var (c', e, route, rest) := Loops(vs, c, dontblock, world);
    (c', Finish(c', e, route, len, dontblock), rest)
  }

  /** A blocking write behind its first call: sent and poll callbacks resume it, an error callback ends it. */
  ghost function Course(vs: seq<seq<Byte>>, c: Cursor, len: nat, world: seq<Answer>, events: seq<Event>)
    : (Cursor, Option<Err>)
    decreases |events|
  {
    if events == [] || !CursorOk(vs, c) then (c, None)
    else match events[0]
      case Fails(code) => (c, Some(Other(code)))
      case Resume =>
        var (c', r, rest) := Call(vs, c, len, false, world);
        if r.Some? then (c', r) else Course(vs, c', len, rest, events[1..])
  }

  /** A whole write: how far it gets, and its error code if it ends. */
  ghost function WholeWrite(vs: seq<seq<Byte>>, len: nat, dontblock: bool, world: seq<Answer>, events: seq<Event>)
    : (Cursor, Option<Err>)
    requires |vs| > 0
  {
    PosBound(vs, 0);
    var (c, r, rest) := Call(vs, Start(vs), len, dontblock, world);
    if r.Some? then (c, r) else Course(vs, c, len, rest, events)
  }

  /** There is something left, unless a blocking write is cut off by len. */
  ghost predicate Sound(vs: seq<seq<Byte>>, c: Cursor, len: nat, dontblock: bool) {
    && 0 < len <= |Concat(vs)| && CursorOk(vs, c)
    && (dontblock || len == |Concat(vs)| ==> c.cnt > 0)
  }

  lemma CallEnds(vs: seq<seq<Byte>>, c: Cursor, len: nat, dontblock: bool, world: seq<Answer>)
    requires Sound(vs, c, len, dontblock)
    ensures var r := Call(vs, c, len, dontblock, world);
            && Known(vs, r.0) && r.0.offset <= |Concat(vs)|
            && (r.1.None? ==> !dontblock && (Sound(vs, r.0, len, false) || (len < |Concat(vs)| && Beyond(vs, r.0))))
            && (r.1 == Some(Ok) ==> r.0.offset == len || (dontblock && r.0.offset > 0))
            && (r.1 == Some(WouldBlock) ==> dontblock && r.0.offset == 0)
            && (r.1.Some? ==> r.1.value.Ok? || r.1.value.WouldBlock? || r.1.value.Rte? || r.1.value.Other?)
  {
    if c.cnt > 0 {
      LoopEnds(vs, c, dontblock, world);
      LoopsStay(vs, c, dontblock, world);
    } else {
      LoopsEmpty(vs, c, world);
    }
  }

  /** As long as something is left at the start, the loop stays inside the array. */
  lemma {:induction false} LoopsStay(vs: seq<seq<Byte>>, c: Cursor, dontblock: bool, world: seq<Answer>)
    requires CursorOk(vs, c) && c.cnt > 0
    ensures CursorOk(vs, Loops(vs, c, dontblock, world).0)
    decreases |world|
  {
    var a := Next(world);
    RoundOk(vs, c, dontblock, a);
    if Round(vs, c, dontblock, a).Again? {
      LoopsStay(vs, Round(vs, c, dontblock, a).c, dontblock, Rest(world));
    }
  }

  // ---------------------------------------------------------------- totals above SSIZE_MAX

  /** The length of the message: the socket layer cannot report more than ssizeMax. */
  function Limit(total: nat, ssizeMax: nat): nat {
    if total > ssizeMax then ssizeMax else total
  }

  /** Room for 65535 bytes. */
  const Plenty := Answer(0xffff, Taken, true)

  predicate AllPlenty(world: seq<Answer>) {
    forall a :: a in world ==> a == Plenty
  }

  /** With such answers the loop hands over all vectors, whatever the length of the message. */
  lemma {:induction false} Drains(vs: seq<seq<Byte>>, c: Cursor, dontblock: bool, world: seq<Answer>)
    requires CursorOk(vs, c) && c.cnt > 0 && |world| > LeftOver(vs, c) && AllPlenty(world)
    ensures var r := Loops(vs, c, dontblock, world);
            && r.0.cnt == 0 && CursorOk(vs, r.0) && r.1.Ok? && r.2
            && |r.3| > 0 && r.3[0] == Plenty
    decreases |world|
  {
    RoundOk(vs, c, dontblock, Plenty);
    RoundGains(vs, c, dontblock, Plenty);
    assert world[0] in world && world[1] in world;
    forall a | a in world[1..] ensures a == Plenty { assert a in world; }
    var r := Round(vs, c, dontblock, Plenty);
    if r.Again? {
      Drains(vs, r.c, dontblock, world[1..]);
    }
  }

  /** Without such a total, and in every non-blocking write, the vector pointer stays inside the array. */
  lemma {:induction false} CourseStays(vs: seq<seq<Byte>>, c: Cursor, world: seq<Answer>, events: seq<Event>)
    requires Sound(vs, c, |Concat(vs)|, false)
    ensures CursorOk(vs, Course(vs, c, |Concat(vs)|, world, events).0)
    decreases |events|
  {
    if events != [] && events[0].Resume? {
      var len := |Concat(vs)|;
      var (c', r, rest) := Call(vs, c, len, false, world);
      CallEnds(vs, c, len, false, world);
      LoopsStay(vs, c, false, world);
      if r.None? {
        CourseStays(vs, c', rest, events[1..]);
      }
    }
  }

  ghost predicate Overruns(vs: seq<seq<Byte>>, dontblock: bool, ssizeMax: nat, world: seq<Answer>, events: seq<Event>)
    requires |vs| > 0
  {
    var r := WholeWrite(vs, Limit(|Concat(vs)|, ssizeMax), dontblock, world, events);
    r.1.None? && Beyond(vs, r.0)
  }

  /** The witness: TCP takes everything at once, and a sent callback comes. */
  lemma OverrunHappens(vs: seq<seq<Byte>>, ssizeMax: nat) returns (world: seq<Answer>)
    requires 0 < ssizeMax < |Concat(vs)|
    ensures Overruns(vs, false, ssizeMax, world, [Resume])
  {
    PosBound(vs, 0);
    var c := Start(vs);
    world := seq(LeftOver(vs, c) + 1, _ => Plenty);
    Drains(vs, c, false, world);
    var (c', r, rest) := Call(vs, c, ssizeMax, false, world);
    AdvanceBeyond(vs, c');
    LoopsEmpty(vs, c', rest);
  }

  /**
   * A write runs past the end of the array of vectors, for some answers of TCP and some callbacks, exactly
   * if it is blocking and has more than ssizeMax bytes.
   */
  lemma OverrunExact(vs: seq<seq<Byte>>, dontblock: bool, ssizeMax: nat)
    requires |Concat(vs)| > 0 && ssizeMax > 0
    ensures (exists world, events :: Overruns(vs, dontblock, ssizeMax, world, events)) <==>
            !dontblock && |Concat(vs)| > ssizeMax
  {
    if !dontblock && |Concat(vs)| > ssizeMax {
      var world := OverrunHappens(vs, ssizeMax);
    } else {
      forall world, events ensures !Overruns(vs, dontblock, ssizeMax, world, events) {
        PosBound(vs, 0);
        var len := Limit(|Concat(vs)|, ssizeMax);
        var (c, r, rest) := Call(vs, Start(vs), len, dontblock, world);
        CallEnds(vs, Start(vs), len, dontblock, world);
        if r.None? {
          CourseStays(vs, c, rest, events);
        }
      }
    }
  }

  /** What a non-blocking write reports can be more than ssizeMax exactly if there are more bytes than that. */
  lemma ReportExact(vs: seq<seq<Byte>>, ssizeMax: nat)
    requires |Concat(vs)| > 0 && ssizeMax > 0
    ensures (exists world :: Reports(vs, ssizeMax, world)) <==> |Concat(vs)| > ssizeMax
  {
    PosBound(vs, 0);
    var c, len := Start(vs), Limit(|Concat(vs)|, ssizeMax);
    if |Concat(vs)| > ssizeMax {
      var world := seq(LeftOver(vs, c) + 1, _ => Plenty);
      Drains(vs, c, true, world);
      AdvanceBeyond(vs, Loops(vs, c, true, world).0);
      assert Reports(vs, ssizeMax, world);
    } else {
      forall world ensures !Reports(vs, ssizeMax, world) { CallEnds(vs, c, len, true, world); }
    }
  }

  /** A non-blocking write ends with ERR_OK and more than ssizeMax bytes written. */
  ghost predicate Reports(vs: seq<seq<Byte>>, ssizeMax: nat, world: seq<Answer>)
    requires |vs| > 0
  {
    var r := WholeWrite(vs, Limit(|Concat(vs)|, ssizeMax), true, world, []);
    r.1 == Some(Ok) && r.0.offset > ssizeMax
  }

  // ---------------------------------------------------------------- why a write ends

  ghost predicate NoRoute(world: seq<Answer>) { exists a :: a in world && !a.route }

  ghost predicate Failing(world: seq<Answer>, code: nat) { exists a :: a in world && a.write == TcpWrite.Fails(code) }

  /** The answers of `rest` are among those of `world`. */
  ghost predicate Within(rest: seq<Answer>, world: seq<Answer>) { forall a :: a in rest ==> a in world }

  /** An error code has a cause among the answers of TCP. */
  ghost predicate Caused(e: Err, world: seq<Answer>) {
    match e
    case Rte => NoRoute(world)
    case Other(code) => Failing(world, code)
    case _ => true
  }

  lemma {:induction false} LoopsCause(vs: seq<seq<Byte>>, c: Cursor, dontblock: bool, world: seq<Answer>)
    requires CursorOk(vs, c)
    ensures var r := Loops(vs, c, dontblock, world);
            && (!r.2 ==> NoRoute(world)) && Caused(r.1, world) && !r.1.Rte? && Within(r.3, world)
    decreases |world|
  {
    RoundOk(vs, c, dontblock, Next(world));
    if world != [] { assert world[0] in world; }
    match Round(vs, c, dontblock, Next(world))
    case Again(c') =>
      LoopsCause(vs, c', dontblock, Rest(world));
    case Ends(_, _) =>
  }

  lemma CallCause(vs: seq<seq<Byte>>, c: Cursor, len: nat, dontblock: bool, world: seq<Answer>)
    requires CursorOk(vs, c)
    ensures var r := Call(vs, c, len, dontblock, world);
            (r.1.Some? ==> Caused(r.1.value, world)) && Within(r.2, world)
  {
    LoopsCause(vs, c, dontblock, world);
  }

  lemma CausedMore(e: Err, rest: seq<Answer>, world: seq<Answer>)
    requires Caused(e, rest) && Within(rest, world)
    ensures Caused(e, world)
  {
  }

  lemma {:induction false} CourseCause(vs: seq<seq<Byte>>, c: Cursor, len: nat, world: seq<Answer>, events: seq<Event>)
    requires Known(vs, c)
    ensures var r := Course(vs, c, len, world, events);
            r.1.Some? ==> Caused(r.1.value, world) || (r.1.value.Other? && Event.Fails(r.1.value.code) in events)
    decreases |events|
  {
    if events != [] && CursorOk(vs, c) && events[0].Resume? {
      var (c', r, rest) := Call(vs, c, len, false, world);
      CallCause(vs, c, len, false, world);
      if r.None? && CursorOk(vs, c') {
        CourseCause(vs, c', len, rest, events[1..]);
        var o := Course(vs, c', len, rest, events[1..]);
        if o.1.Some? && Caused(o.1.value, rest) { CausedMore(o.1.value, rest, world); }
      }
    }
  }

  /**
   * A write ends with ERR_RTE only if tcp_output has found no route, and with another error only if tcp_write or
   * an error callback has reported it.
   */
  lemma WriteCause(vs: seq<seq<Byte>>, len: nat, dontblock: bool, world: seq<Answer>, events: seq<Event>)
    requires 0 < len <= |Concat(vs)|
    ensures var r := WholeWrite(vs, len, dontblock, world, events);
            r.1.Some? ==> Caused(r.1.value, world) || (r.1.value.Other? && Event.Fails(r.1.value.code) in events)
  {
    PosBound(vs, 0);
    var (c, r, rest) := Call(vs, Start(vs), len, dontblock, world);
    CallCause(vs, Start(vs), len, dontblock, world);
    CallEnds(vs, Start(vs), len, dontblock, world);
    if r.None? {
      CourseCause(vs, c, len, rest, events);
      var o := Course(vs, c, len, rest, events);
      if o.1.Some? && Caused(o.1.value, rest) { CausedMore(o.1.value, rest, world); }
    }
  }

  lemma {:induction false} CourseCodes(vs: seq<seq<Byte>>, c: Cursor, len: nat, world: seq<Answer>, events: seq<Event>)
    requires Sound(vs, c, len, false) || (len < |Concat(vs)| && Beyond(vs, c))
    ensures var r := Course(vs, c, len, world, events);
            r.1.Some? ==> (r.1.value.Ok? && r.0.offset == len) || r.1.value.Rte? || r.1.value.Other?
    decreases |events|
  {
    if events != [] && CursorOk(vs, c) && events[0].Resume? {
      var (c', r, rest) := Call(vs, c, len, false, world);
      CallEnds(vs, c, len, false, world);
      if r.None? {
        CourseCodes(vs, c', len, rest, events[1..]);
      }
    }
  }

  /**
   * Only the last answer that a call has used can be other than a success, and it decides how the call ends:
   * `full` is the full send buffer, in front of which a non-blocking write gives up.
   */
  ghost predicate Decides(a: Answer, full: bool, c: Cursor, len: nat, dontblock: bool, r: Option<Err>) {
    if full && c.offset == 0 then r == Some(WouldBlock)
    else if a.write.Fails? && !full then r == Some(Other(a.write.code))
    else if !a.route then r == Some(Rte)
    else if dontblock then r == Some(if c.offset == 0 then WouldBlock else Ok)
    else if a.write.Taken? && c.offset == len then r == Some(Ok)
    else r == None
  }

  ghost predicate Full(vs: seq<seq<Byte>>, c: Cursor, dontblock: bool, a: Answer) {
    dontblock && a.sndbuf == 0 && c.vec < |vs| && c.off < |vs[c.vec]|
  }

  lemma {:induction false} LoopsLast(vs: seq<seq<Byte>>, c: Cursor, dontblock: bool, world: seq<Answer>) returns (k: nat)
    requires CursorOk(vs, c) && c.cnt > 0 && |Concat(vs)| > 0
    ensures var r := Loops(vs, c, dontblock, world);
            && (k < |world| ==> r.3 == world[k + 1..]) && (k >= |world| ==> r.3 == [])
            && (forall i :: 0 <= i < k && i < |world| ==> world[i].write.Taken?)
            && var a := if k < |world| then world[k] else Next([]);
               && r.2 == a.route
               && (if Full(vs, r.0, dontblock, a) then r.1 == (if r.0.offset == 0 then WouldBlock else Ok)
                   else r.1 == (match a.write case Taken => Ok case NoMemory => Mem case Fails(code) => Other(code)))
    decreases |world|
  {
    RoundOk(vs, c, dontblock, Next(world));
    match Round(vs, c, dontblock, Next(world))
    case Ends(_, _) =>
      k := 0;
    case Again(c') =>
      k := LoopsLast(vs, c', dontblock, Rest(world));
      k := k + 1;
  }

  lemma CallExact(vs: seq<seq<Byte>>, c: Cursor, len: nat, dontblock: bool, world: seq<Answer>) returns (k: nat)
    requires CursorOk(vs, c) && c.cnt > 0 && |Concat(vs)| > 0
    ensures var r := Call(vs, c, len, dontblock, world);
            && (k < |world| ==> r.2 == world[k + 1..])
            && (forall i :: 0 <= i < k && i < |world| ==> world[i].write.Taken?)
            && (k < |world| ==> Decides(world[k], Full(vs, r.0, dontblock, world[k]), r.0, len, dontblock, r.1))
  {
    LoopEnds(vs, c, dontblock, world);
    k := LoopsLast(vs, c, dontblock, world);
  }

  /** TCP has a route and reports no failure, though it may lack room or memory at any time. */
  predicate Working(world: seq<Answer>, events: seq<Event>) {
    (forall a :: a in world ==> a.route && !a.write.Fails?) && forall e :: e in events ==> e.Resume?
  }

  /** Then a blocking write goes on until all of its length has been written, whatever memory lacks meanwhile. */
  lemma BlockingGoesOn(vs: seq<seq<Byte>>, len: nat, world: seq<Answer>, events: seq<Event>)
    requires 0 < len <= |Concat(vs)| && Working(world, events)
    ensures var r := WholeWrite(vs, len, false, world, events); r.1 == None || (r.1 == Some(Ok) && r.0.offset == len)
  {
    WriteCause(vs, len, false, world, events);
    PosBound(vs, 0);
    var (c, r, rest) := Call(vs, Start(vs), len, false, world);
    CallEnds(vs, Start(vs), len, false, world);
    if r.None? {
      CourseCodes(vs, c, len, rest, events);
    }
  }

  /** And a non-blocking write ends at once: ERR_OK if anything was written, else ERR_WOULDBLOCK. */
  lemma NonBlockingEnds(vs: seq<seq<Byte>>, len: nat, world: seq<Answer>, events: seq<Event>)
    requires 0 < len <= |Concat(vs)| && Working(world, events)
    ensures var r := WholeWrite(vs, len, true, world, events);
            r.1 == Some(if r.0.offset == 0 then WouldBlock else Ok)
  {
    WriteCause(vs, len, true, world, events);
    PosBound(vs, 0);
    CallEnds(vs, Start(vs), len, true, world);
  }

  // ---------------------------------------------------------------- progress

  /** How many of the answers of tcp_write take what they are given. */
  function Takers(world: seq<Answer>): (n: nat)
    ensures n <= |world|
  {
    if world == [] then 0 else (if world[0].write.Taken? then 1 else 0) + Takers(world[1..])
  }

  /** TCP always has some room and a route; tcp_write may lack memory. */
  predicate Generous(world: seq<Answer>) {
    forall a :: a in world ==> a.sndbuf > 0 && !a.write.Fails? && a.route
  }

  /** The loop uses up no more answers that take something than it gets on, and it gets on or lacks memory. */
  lemma {:induction false} LoopsForward(vs: seq<seq<Byte>>, c: Cursor, world: seq<Answer>)
    requires CursorOk(vs, c) && c.cnt > 0 && Generous(world) && Takers(world) >= LeftOver(vs, c)
    ensures var r := Loops(vs, c, false, world);
            && CursorOk(vs, r.0) && (r.1.Ok? || r.1.Mem?) && r.2 && Generous(r.3)
            && LeftOver(vs, r.0) <= LeftOver(vs, c)
            && Takers(r.3) - LeftOver(vs, r.0) >= Takers(world) - LeftOver(vs, c)
            && LeftOver(vs, r.0) + (|r.3| - Takers(r.3)) < LeftOver(vs, c) + (|world| - Takers(world))
    decreases |world|
  {
    AdvanceOk(vs, c, 0);
    RoundOk(vs, c, false, world[0]);
    if world[0].write.Taken? { RoundGains(vs, c, false, world[0]); }
    assert world[0] in world && Generous(world[1..]);
    var r := Round(vs, c, false, world[0]);
    if r.Again? {
      LoopsForward(vs, r.c, world[1..]);
    }
  }

  lemma {:induction false} CourseEnds(vs: seq<seq<Byte>>, c: Cursor, world: seq<Answer>, events: seq<Event>)
    requires Sound(vs, c, |Concat(vs)|, false) && Generous(world) && Takers(world) >= LeftOver(vs, c)
    requires |events| >= LeftOver(vs, c) + (|world| - Takers(world)) && forall e :: e in events ==> e.Resume?
    ensures var r := Course(vs, c, |Concat(vs)|, world, events); r.1 == Some(Ok) && r.0.offset == |Concat(vs)|
    decreases |events|
  {
    var len := |Concat(vs)|;
    var (c', r, rest) := Call(vs, c, len, false, world);
    LoopsForward(vs, c, world);
    CallEnds(vs, c, len, false, world);
    assert events[0] in events;
    if r.None? {
      CourseEnds(vs, c', rest, events[1..]);
    }
  }

  /**
   * Every blocking write of at most ssizeMax bytes ends with everything written if TCP makes room, however
   * little, before each round and keeps calling back; tcp_write may lack memory any finite number of times.
   */
  lemma WriteEnds(vs: seq<seq<Byte>>, ssizeMax: nat, world: seq<Answer>, events: seq<Event>)
    requires 0 < |Concat(vs)| <= ssizeMax && Generous(world) && forall e :: e in events ==> e.Resume?
    requires Takers(world) >= |Concat(vs)| + |vs|
    requires |events| >= |Concat(vs)| + |vs| + (|world| - Takers(world))
    ensures var r := WholeWrite(vs, Limit(|Concat(vs)|, ssizeMax), false, world, events);
            r.1 == Some(Ok) && r.0.offset == |Concat(vs)|
  {
    PosBound(vs, 0);
    var len := |Concat(vs)|;
    var (c, r, rest) := Call(vs, Start(vs), len, false, world);
    LoopsForward(vs, Start(vs), world);
    CallEnds(vs, Start(vs), len, false, world);
    if r.None? {
      CourseEnds(vs, c, rest, events);
    }
  }

  // ---------------------------------------------------------------- the connection

  class Connection {
    const nonblocking: bool
    /** conn->state is NETCONN_WRITE and conn->current_msg is set. */
    var writing: bool
    var alive: bool
    var pendingErr: Err
    var vectors: seq<seq<Byte>>
    var cur: Cursor
    var len: nat
    var dontblock: bool
    /** err of the message, once it has been completed. */
    var err: Err
    /** What TCP will answer; a send buffer without room once the list is used up. */
    var world: seq<Answer>
    /** All bytes passed to successful calls of tcp_write. */
    var stream: seq<Byte>
    ghost var before: seq<Byte>

    ghost predicate Valid()
      reads this
    {
      && vectors != [] && Known(vectors, cur)
      && cur.offset <= |Concat(vectors)| && stream == before + Concat(vectors)[..cur.offset]
      && (writing ==> alive && !dontblock && (Sound(vectors, cur, len, false) || Outside()))
    }

    /** The write is in progress, and the vector pointer has run past the array. */
    ghost predicate Outside()
      reads this
    {
      0 < len < |Concat(vectors)| && Beyond(vectors, cur)
    }

    constructor (nonblocking: bool, world: seq<Answer>)
      ensures Valid() && !writing && alive && stream == [] && pendingErr == Ok
    {
      this.nonblocking, this.world := nonblocking, world;
      writing, alive, pendingErr, err := false, true, Ok, Ok;
      vectors, cur, len, dontblock := [[]], Cursor(0, 1, 0, 0), 0, false;
      stream, before := [], [];
    }

    /** During a call of lwip_netconn_do_writemore. */
    ghost predicate Busy()
      reads this
    {
      && vectors != [] && Known(vectors, cur) && alive
      && cur.offset <= |Concat(vectors)| && stream == before + Concat(vectors)[..cur.offset]
    }

    /** tcp_write succeeds: all len bytes are taken, and the cursor moves on. */
    method Write(n: nat)
      requires Busy() && CursorOk(vectors, cur) && n <= |vectors[cur.vec]| - cur.off
      modifies this`stream, this`cur
      ensures Busy() && cur == Advance(vectors, old(cur), n)
    {
      AdvanceKnown(vectors, cur, n);
      var data := vectors[cur.vec][cur.off..cur.off + n];
      Assoc(before, Concat(vectors)[..cur.offset], data);
      stream := stream + data;
      cur := Advance(vectors, cur, n);
    }

    /** One round of the do loop. */
    method WriteRound(a: Answer) returns (again: bool, e: Err)
      requires Busy() && CursorOk(vectors, cur)
      modifies this`stream, this`cur
      ensures Busy() && Round(vectors, old(cur), dontblock, a) == if again then Again(cur) else Ends(cur, e)
    {
      var diff := |vectors[cur.vec]| - cur.off;
      var n := Chunk(diff, a.sndbuf);
      if dontblock && a.sndbuf < diff && n == 0 {
        return false, if cur.offset == 0 then WouldBlock else Ok;
      }
      match a.write
      case Taken =>
        again, e := WriteMore(diff, n, cur.cnt), Ok;
        Write(n);
      case NoMemory =>
        again, e := false, Mem;
      case Fails(code) =>
        again, e := false, Other(code);
    }

    /** The do loop: the err it ends with, and whether the following tcp_output finds a route. */
    method Loop() returns (e: Err, route: bool)
      requires Busy() && CursorOk(vectors, cur)
      modifies this`stream, this`cur, this`world
      ensures Busy()
      ensures (cur, e, route, world) == Loops(vectors, old(cur), dontblock, old(world))
    {
      while true
        invariant Busy() && CursorOk(vectors, cur)
        invariant Loops(vectors, cur, dontblock, world) == Loops(vectors, old(cur), dontblock, old(world))
        decreases |world|
      {
        var a := Next(world);
        RoundOk(vectors, cur, dontblock, a);
        var again;
        again, e := WriteRound(a);
        route, world := a.route, Rest(world);
        if !again {
          return;
        }
      }
    }

    /** What a call of lwip_netconn_do_writemore leaves behind, as Call gives it. */
    ghost function Left(): (Cursor, Option<Err>, seq<Answer>)
      reads this
    {
      (cur, if writing then None else Some(err), world)
    }

    /** lwip_netconn_do_writemore */
    method DoWriteMore()
      requires Busy() && Sound(vectors, cur, len, dontblock) && writing
      modifies this`stream, this`cur, this`world, this`writing, this`err
      ensures Valid() && Left() == Call(vectors, old(cur), len, dontblock, old(world))
    {
      CallEnds(vectors, cur, len, dontblock, world);
      var e, route := Loop();
      var finished := false;
      if e.Ok? {
        if cur.offset == len || dontblock {
          finished := true;
        }
        if !route {
          e, finished := Rte, true;
        }
      } else if e.Mem? {
        if !route {
          e, finished := Rte, true;
        } else if dontblock {
          e, finished := if cur.offset == 0 then WouldBlock else Ok, true;
        }
      } else {
        finished := true;
      }
      if finished {
        err, writing := e, false;
      }
    }

    /** lwip_netconn_do_write gets as far as starting to write. */
    predicate Free()
      reads this
    {
      pendingErr.Ok? && !writing && alive
    }

    /** lwip_netconn_do_write; None: the write has been started and is not finished. */
    method DoWrite(vs: seq<seq<Byte>>, size: nat, flagged: bool) returns (r: Option<Err>)
      requires Valid() && 0 < size <= |Concat(vs)|
      modifies this
      ensures Valid()
      ensures old(Free()) ==> Started(vs, size, nonblocking || flagged) && r == Left().1
      ensures pendingErr == Ok
      ensures !old(Free()) ==>
                && r == Some(old(if !pendingErr.Ok? then pendingErr else if writing then InProgress else Conn))
                && !r.value.Ok? && stream == old(stream) && writing == old(writing)
                && cur == old(cur) && vectors == old(vectors) && before == old(before)
    {
      var pending := pendingErr;
      pendingErr := Ok;
      if !pending.Ok? {
        return Some(pending);
      }
      if writing {
        return Some(InProgress);
      }
      if !alive {
        return Some(Conn);
      }
      r := StartWrite(vs, size, nonblocking || flagged);
    }

    /** The first call of lwip_netconn_do_writemore for these vectors has been made. */
    twostate predicate Started(vs: seq<seq<Byte>>, size: nat, dont: bool)
      reads this
    {
      && vs != [] && CursorOk(vs, Start(vs))
      && vectors == vs && before == old(stream) && len == size && dontblock == dont
      && Left() == Call(vs, Start(vs), size, dont, old(world))
    }

    /** The message becomes the current one, and as much as possible is written at once. */
    method StartWrite(vs: seq<seq<Byte>>, size: nat, dont: bool) returns (r: Option<Err>)
      requires Valid() && 0 < size <= |Concat(vs)| && !writing && alive
      modifies this
      ensures Valid() && Started(vs, size, dont) && r == Left().1 && pendingErr == old(pendingErr)
    {
      PosBound(vs, 0);
      writing := true;
      vectors, cur, len := vs, Start(vs), size;
      dontblock := dont;
      before := stream;
      assert before + Concat(vectors)[..0] == stream;
      DoWriteMore();
      r := if writing then None else Some(err);
    }

    /**
     * sent_tcp and poll_tcp resume a write in progress; err_tcp ends it. A resumed write reads the vector
     * that the cursor points to.
     */
    method Callback(c: Event)
      requires Valid() && (writing && c.Resume? ==> CursorOk(vectors, cur))
      modifies this
      ensures Valid() && vectors == old(vectors) && before == old(before) && len == old(len)
      ensures !old(writing) ==>
                !writing && stream == old(stream) && cur == old(cur) && err == old(err) && world == old(world)
      ensures old(writing) ==>
                match c
                case Resume => Left() == Call(vectors, old(cur), len, false, old(world))
                case Fails(code) => !writing && err == Other(code) && cur == old(cur) && stream == old(stream)
      ensures c.Fails? ==> !alive && pendingErr == Other(c.code)
      ensures c.Resume? ==> alive == old(alive) && pendingErr == old(pendingErr)
    {
      match c
      case Resume =>
        if writing { DoWriteMore(); }
      case Fails(code) =>
        alive, pendingErr := false, Other(code);
        if writing {
          err, writing := Other(code), false;
        }
    }

    /** The callbacks until the write ends, or would read behind the array. */
    method Callbacks(events: seq<Event>)
      requires Valid() && writing
      modifies this
      ensures Valid() && vectors == old(vectors) && before == old(before) && len == old(len)
      ensures (cur, Left().1) == Course(vectors, old(cur), len, old(world), events)
      ensures !writing ==> (err.Ok? && cur.offset == len) || err.Rte? || err.Other?
    {
      var i := 0;
      assert events[0..] == events;
      while writing && i < |events| && cur.vec < |vectors|
        invariant i <= |events| && Valid() && vectors == old(vectors) && before == old(before) && len == old(len)
        invariant Course(vectors, old(cur), len, old(world), events) ==
                  if writing then Course(vectors, cur, len, world, events[i..]) else (cur, Some(err))
        invariant !writing ==> (err.Ok? && cur.offset == len) || err.Rte? || err.Other?
        decreases |events| - i
      {
        assert events[i..][1..] == events[i + 1..];
        if CursorOk(vectors, cur) { CallEnds(vectors, cur, len, false, world); }
        Callback(events[i]);
        i := i + 1;
      }
    }

    /**
     * netconn_write_vectors_partly, with everything TCP does until the write ends. What was handed to TCP,
     * k bytes, is a prefix of the concatenated vectors; with ERR_OK a blocking write has handed over as much
     * as the socket layer can report, and a non-blocking one the reported number of bytes.
     */
    method WriteVectors(vs: seq<seq<Byte>>, flagged: bool, counted: bool, sizeMax: nat, ssizeMax: nat,
                        events: seq<Event>)
      returns (r: Result, ghost k: nat)
      requires Valid() && 0 < ssizeMax <= sizeMax
      requires forall v :: v in vs ==> |v| <= sizeMax
      modifies this
      ensures Valid() && k <= |Concat(vs)| && stream == old(stream) + Concat(vs)[..k]
      ensures r.Done? && r.err.Ok? ==> r.written == k
      ensures r.Done? && r.err.Ok? && !(nonblocking || flagged) ==> k == Limit(|Concat(vs)|, ssizeMax)
      ensures r.Done? && r.err.Ok? && |Concat(vs)| > 0 ==> k > 0
      ensures r.Done? && (r.err.WouldBlock? || r.err.InProgress? || r.err.Val?) ==> k == 0
      ensures r.Waiting? ==> writing && !(nonblocking || flagged)
      ensures r.Overrun? ==> !(nonblocking || flagged) && k == |Concat(vs)| > ssizeMax
      ensures !Refused(vs, flagged, counted, sizeMax, ssizeMax) && |Concat(vs)| > 0 && old(Free()) ==>
                && vs != []
                && var w := WholeWrite(vs, Limit(|Concat(vs)|, ssizeMax), nonblocking || flagged, old(world), events);
                   && k == w.0.offset && r == Told(vs, w)
      ensures Refused(vs, flagged, counted, sizeMax, ssizeMax) ==> r == Done(Val, 0)
      ensures !Refused(vs, flagged, counted, sizeMax, ssizeMax) && |Concat(vs)| == 0 ==> r == Done(Ok, 0)
      ensures !Refused(vs, flagged, counted, sizeMax, ssizeMax) && |Concat(vs)| > 0 && !old(Free()) ==>
                r == Done(old(if !pendingErr.Ok? then pendingErr else if writing then InProgress else Conn), 0)
    {
      k := 0;
      assert stream == stream + Concat(vs)[..0];
      if (nonblocking || flagged) && !counted {
        return Done(Val, 0), 0;
      }
      var total := TotalSize(vs, sizeMax);
      if total.None? {
        return Done(Val, 0), 0;
      }
      if total.value == 0 {
        return Done(Ok, 0), 0;
      }
      if total.value > ssizeMax && !counted {
        return Done(Val, 0), 0;
      }
      r, k := WriteSized(vs, flagged, if total.value > ssizeMax then ssizeMax else total.value, events);
    }

    /** ERR_VAL: nobody would be told how much was written, or the total size overflows. */
    predicate Refused(vs: seq<seq<Byte>>, flagged: bool, counted: bool, sizeMax: nat, ssizeMax: nat) {
      (!counted && (nonblocking || flagged || |Concat(vs)| > ssizeMax)) || |Concat(vs)| > sizeMax
    }

    /** The message is passed to the TCP/IP thread, which completes it. */
    method WriteSized(vs: seq<seq<Byte>>, flagged: bool, size: nat, events: seq<Event>)
      returns (r: Result, ghost k: nat)
      requires Valid() && 0 < size <= |Concat(vs)|
      modifies this
      ensures Valid() && k <= |Concat(vs)| && stream == old(stream) + Concat(vs)[..k]
      ensures r.Done? && r.err.Ok? ==> r.written == k > 0 && (!(nonblocking || flagged) ==> k == size)
      ensures r.Done? && (r.err.WouldBlock? || r.err.InProgress? || r.err.Val?) ==> k == 0
      ensures r.Waiting? ==> writing && !(nonblocking || flagged)
      ensures r.Overrun? ==> !(nonblocking || flagged) && k == |Concat(vs)| > size
      ensures !old(Free()) ==>
                r == Done(old(if !pendingErr.Ok? then pendingErr else if writing then InProgress else Conn), 0)
      ensures old(Free()) ==>
                && vs != []
                && var w := WholeWrite(vs, size, nonblocking || flagged, old(world), events);
                   && k == w.0.offset && r == Told(vs, w)
    {
      k := 0;
      assert stream == stream + Concat(vs)[..0];
      ghost var free := Free();
      PosBound(vs, 0);
      CallEnds(vs, Start(vs), size, nonblocking || flagged, world);
      var e := DoWrite(vs, size, flagged);
      if e.Some? {
        if free { k := cur.offset; }
        return Done(e.value, if e.value.Ok? then cur.offset else 0), k;
      }
      Callbacks(events);
      k := cur.offset;
      r := if !writing then Done(err, if err.Ok? then cur.offset else 0)
           else if cur.vec < |vectors| then Waiting else Overrun;
    }
  }

  /**
   * The outcome of a write; Waiting: it is still in progress; Overrun: it is in progress, and the next callback
   * reads behind the array of vectors.
   */
  datatype Result = Done(err: Err, written: nat) | Waiting | Overrun

  ghost function Told(vs: seq<seq<Byte>>, w: (Cursor, Option<Err>)): Result {
    match w.1
    case Some(e) => Done(e, if e.Ok? then w.0.offset else 0)
    case None => if CursorOk(vs, w.0) then Waiting else Overrun
  }

  /** Addition in size_t. */
  function AddSize(a: nat, b: nat, sizeMax: nat): nat
    requires a <= sizeMax && b <= sizeMax
  {
    if a + b > sizeMax then a + b - (sizeMax + 1) else a + b
  }

  /** The total size, or the overflow of size_t as the loop detects it. */
  method TotalSize(vs: seq<seq<Byte>>, sizeMax: nat) returns (size: Option<nat>)
    requires forall v :: v in vs ==> |v| <= sizeMax
    ensures size == if |Concat(vs)| <= sizeMax then Some(|Concat(vs)|) else None
  {
    var sum := 0;
    PosEnd(vs);
    for i := 0 to |vs|
      invariant sum == Pos(vs, i) <= sizeMax
    {
      PosNext(vs, i);
      PosBound(vs, i + 1);
      assert vs[i] in vs;
      sum := AddSize(sum, |vs[i]|, sizeMax);
      if sum < |vs[i]| {
        return None;
      }
    }
    size := Some(sum);
  }
}
