/**
 * Receiving from a TCP socket: lwip_recv_tcp (api/sockets.c) on top of netconn_recv_data_tcp
 * (api/api_lib.c) and lwip_netconn_do_recv (api/api_msg.c), while the TCP/IP thread may post data, a
 * FIN or an error to the connection's mailbox in every window between two steps.
 */
module TcpRecv {
  import opened Basics
  import opened Wrappers

  /** The errors err_tcp is called with. */
  datatype ConnError = Aborted | Reset | ClosedError

  /** What is in the mailbox: a pbuf, or one of the addresses that stand for errors. */
  datatype Msg = Data(p: seq<Byte>) | Closed | Failed(e: ConnError)

  /** What the TCP/IP thread does: recv_tcp with a pbuf or NULL, or err_tcp. */
  datatype Env = Arrives(p: seq<Byte>) | Fin | Fails(e: ConnError, posted: bool)

  datatype RecvError = ErrConn | ErrWouldBlock | ErrClosed | ErrFatal(e: ConnError)

  /** Result of fetching from the mailbox; StillWaiting: the call blocks. */
  datatype Fetch = GotData(p: seq<Byte>) | GotFin | NoData(e: RecvError) | StillWaiting

  /** How netconn_close_shutdown(SHUT_RD) ends: not done, receiving side closed, or all closed. */
  datatype Closing = NotClosed | ReadClosed | AllClosed

  /** What the application sees. A FIN and an empty read both return 0. */
  datatype Outcome = Got(bytes: seq<Byte>) | Eof | Error(e: RecvError) | Blocked

  // ---------------------------------------------------------------- mailbox contents

  function Left(l: Option<seq<Byte>>): seq<Byte> {
    if l.Some? then l.value else []
  }

  function Bytes(q: seq<Msg>): seq<Byte> {
    if q == [] then []
    else if q[0].Data? then q[0].p + Bytes(q[1..])
    else Bytes(q[1..])
  }

  /** pbufs are not empty and their length fits 16 bits; no data follow a FIN or an error. */
  predicate Ordered(q: seq<Msg>) {
    q == [] || (if q[0].Data? then 1 <= |q[0].p| <= 65535 && Ordered(q[1..])
                else q[0] != Failed(ClosedError) && Bytes(q[1..]) == [] && Ordered(q[1..]))
  }

  predicate OnlyData(q: seq<Msg>) {
    q == [] || (q[0].Data? && OnlyData(q[1..]))
  }

  predicate HasClosed(q: seq<Msg>) {
    q != [] && (q[0].Closed? || HasClosed(q[1..]))
  }

  lemma {:induction false} AppendData(q: seq<Msg>, p: seq<Byte>)
    requires Ordered(q) && OnlyData(q) && 1 <= |p| <= 65535
    ensures var q' := q + [Data(p)];
            Bytes(q') == Bytes(q) + p && Ordered(q') && OnlyData(q') && HasClosed(q') == HasClosed(q)
  {
    var q' := q + [Data(p)];
    if q == [] {
      assert q' == [Data(p)];
      assert q'[1..] == [];
    } else {
      AppendData(q[1..], p);
      assert q'[1..] == q[1..] + [Data(p)];
    }
  }

  lemma {:induction false} AppendMark(q: seq<Msg>, m: Msg)
    requires Ordered(q) && !m.Data? && m != Failed(ClosedError)
    ensures var q' := q + [m];
            Bytes(q') == Bytes(q) && Ordered(q') && (HasClosed(q') <==> HasClosed(q) || m.Closed?)
  {
    var q' := q + [m];
    if q == [] {
      assert q' == [m];
      assert q'[1..] == [];
    } else {
      AppendMark(q[1..], m);
      assert q'[1..] == q[1..] + [m];
    }
  }

  lemma Regroup(done: seq<Byte>, p: seq<Byte>, n: nat, queued: seq<Byte>)
    requires n <= |p|
    ensures done + (p + queued) == (done + p[..n]) + (p[n..] + queued)
  {
    assert p == p[..n] + p[n..];
  }

  predicate Plus(a: seq<Byte>, d: seq<Byte>, b: seq<Byte>) { b == a + d }

  /** b is a, with something appended. */
  ghost predicate Grown(a: seq<Byte>, b: seq<Byte>) {
    a == b || exists d :: Plus(a, d, b)
  }

  lemma GrownBy(a: seq<Byte>, d: seq<Byte>)
    ensures Grown(a, a + d)
  {
    assert Plus(a, d, a + d);
  }

  lemma GrownTrans(a: seq<Byte>, b: seq<Byte>, c: seq<Byte>)
    requires Grown(a, b) && Grown(b, c)
    ensures Grown(a, c) && |a| <= |b|
  {
    if a != b && b != c {
      var d :| Plus(a, d, b);
      var e :| Plus(b, e, c);
      Assoc(a, d, e);
      assert Plus(a, d + e, c);
    }
  }

  // ---------------------------------------------------------------- what the other thread does

  /** The connection as far as recv_tcp and err_tcp depend on it, and what they leave for the reader. */
  datatype Line = Line(alive: bool, fin: bool, arrived: seq<Byte>, pending: Option<ConnError>, mbox: seq<Msg>,
                       mboxValid: bool, mboxClosed: bool)

  /**
   * recv_tcp or err_tcp. TCP hands over no data after a FIN and calls nothing once the pcb is gone. ERR_CLSD
   * ends the stream too; a FIN that came before it may not have been handed over.
   */
  function Happens(l: Line, e: Env): Line {
    if !l.alive then l
    else match e
      case Arrives(p) =>
        if !l.fin && l.mboxValid && 1 <= |p| <= 65535 then l.(arrived := l.arrived + p, mbox := l.mbox + [Data(p)]) else l
      case Fin => if !l.fin && l.mboxValid then l.(fin := true, mbox := l.mbox + [Closed]) else l
      case Fails(err, posted) =>
        l.(alive := false, pending := Some(err), fin := l.fin || err.ClosedError?, mboxClosed := true,
           mbox := if l.mboxValid && posted then l.mbox + [Mark(err)] else l.mbox)
  }

  /** lwip_netconn_err_to_msg */
  function Mark(err: ConnError): Msg {
    if err.ClosedError? then Closed else Failed(err)
  }

  function After(l: Line, batch: seq<Env>): Line {
    if batch == [] then l else Happens(After(l, batch[..|batch| - 1]), batch[|batch| - 1])
  }

  lemma AfterMore(l: Line, batch: seq<Env>, i: nat)
    requires i < |batch|
    ensures After(l, batch[..i + 1]) == Happens(After(l, batch[..i]), batch[i])
  {
    assert batch[..i + 1][..i] == batch[..i];
  }

  /** A dead pcb receives nothing, and nothing follows a FIN. */
  lemma {:induction false} AfterEnd(l: Line, batch: seq<Env>)
    ensures !l.alive ==> After(l, batch) == l
    ensures l.fin ==> After(l, batch).fin && After(l, batch).arrived == l.arrived
  {
    if batch != [] { AfterEnd(l, batch[..|batch| - 1]); }
  }

  /** What happens in the k-th window from now. */
  function Batch(world: seq<seq<Env>>, k: nat): seq<Env> {
    if k < |world| then world[k] else []
  }

  function Rest(world: seq<seq<Env>>): seq<seq<Env>> {
    if world == [] then [] else world[1..]
  }

  // ---------------------------------------------------------------- the socket

  /** The state of the socket between two calls, as far as the end of the stream depends on it. */
  datatype View = View(line: Line, delivered: seq<Byte>, lastdata: Option<seq<Byte>>, finPending: bool,
                       nonblocking: bool, world: seq<seq<Env>>)

  /**
   * The race in which the end of the stream is reported early: nothing is there, nothing happens before
   * the look into the mailbox, and between that look and netconn_err come data and ERR_CLSD. TCP reports
   * ERR_CLSD in state LAST_ACK, that is, when the sending side has been shut down as well.
   */
  predicate Racing(v: View, dontBlock: bool) {
    v.lastdata.None? && v.line.mboxValid && !v.finPending && (v.nonblocking || dontBlock) && RacingPoll(v)
  }

  predicate RacingPoll(v: View) {
    && v.line.mbox == [] && v.line.alive
    && After(v.line, Batch(v.world, 0)) == v.line
    && After(v.line, Batch(v.world, 1)).pending == Some(ClosedError)
    && After(v.line, Batch(v.world, 1)).arrived != v.line.arrived
  }

  /** All that has arrived after that race. */
  function RaceEnd(v: View): seq<Byte> {
    After(v.line, Batch(v.world, 1)).arrived
  }

  /** A call that begins behind the end of the stream never runs into it. */
  lemma EndedNoRace(v: View, dontBlock: bool)
    requires v.line.fin
    ensures !Racing(v, dontBlock)
  {
    AfterEnd(v.line, Batch(v.world, 1));
  }

  // ---------------------------------------------------------------- what a call has to answer

  /**
   * What there is for a call that reads: data, the end of the stream (with the connection as it is when that
   * is reported), an error, or nothing at all, so that it waits.
   */
  datatype Reply = Delivers | Ended(at: Line) | Refused(e: RecvError) | Waits

  /** The first message decides; at: the connection without it. */
  function FirstOf(m: Msg, at: Line, world: seq<seq<Env>>): Reply {
    match m
    case Data(_) => Delivers
    case Closed => Ended(After(at, Batch(world, 0)))
    case Failed(e) => Refused(ErrFatal(e))
  }

  function FirstMsg(l: Line, world: seq<seq<Env>>): Reply
    requires l.mbox != []
  {
    FirstOf(l.mbox[0], l.(mbox := l.mbox[1..]), world)
  }

  /** Why there is nothing: a pending error, else a connection that is gone, else no data yet. */
  function Why(l: Line): RecvError {
    match l.pending
    case Some(e) => ErrFatal(e)
    case None => if l.mboxClosed then ErrConn else ErrWouldBlock
  }

  /** The connection and what is still going to happen when something is there, or when nothing more happens. */
  function Awaited(l: Line, world: seq<seq<Env>>): (Line, seq<seq<Env>>)
    decreases |world|
  {
    if l.mbox != [] || world == [] then (l, world) else Awaited(After(l, world[0]), world[1..])
  }

  function Replies(v: View, dontBlock: bool): Reply {
    if v.lastdata.Some? then Delivers
    else if !v.line.mboxValid then Refused(ErrConn)
    else if v.finPending then Ended(After(v.line, Batch(v.world, 0)))
    else if v.nonblocking || dontBlock || v.line.mboxClosed || v.line.pending.Some? then
      var l := After(v.line, Batch(v.world, 0));
      if l.mbox == [] then Refused(Why(After(l, Batch(v.world, 1)))) else FirstMsg(l, Rest(v.world))
    else
      var (l, world) := Awaited(v.line, v.world);
      if l.mbox == [] then Waits else FirstMsg(l, world)
  }

  /** The error for the end of the stream: none of its own as long as the pcb is there. */
  function EndError(l: Line): RecvError {
    if l.alive then ErrClosed else ErrFatal(if l.pending.Some? then l.pending.value else Reset)
  }

  /** What netconn_recv_data_tcp returns then. */
  predicate Fetches(r: Reply, f: Fetch) {
    match r
    case Delivers => f.GotData?
    case Ended(l) => f == NoData(EndError(l))
    case Refused(e) => f == NoData(e)
    case Waits => f == StillWaiting
  }

  /** What lwip_recv_tcp returns then. */
  predicate Answers(r: Reply, out: Outcome) {
    match r
    case Delivers => out.Got?
    case Ended(l) => out == if l.alive || l.pending == Some(ClosedError) then Eof else Error(EndError(l))
    case Refused(e) => out == if e == ErrFatal(ClosedError) then Eof else Error(e)
    case Waits => out == Blocked
  }

  /** No error in this window. */
  ghost predicate Calm(batch: seq<Env>) {
    forall e :: e in batch ==> !e.Fails?
  }

  lemma {:induction false} CalmAfter(l: Line, batch: seq<Env>)
    requires Calm(batch)
    ensures After(l, batch).alive == l.alive && After(l, batch).pending == l.pending
    ensures l.mbox <= After(l, batch).mbox && After(l, batch).mboxValid == l.mboxValid
    ensures After(l, batch).mboxClosed == l.mboxClosed
  {
    if batch != [] { CalmAfter(l, batch[..|batch| - 1]); }
  }

  lemma {:induction false} MailAfter(l: Line, batch: seq<Env>)
    ensures l.mbox <= After(l, batch).mbox
  {
    if batch != [] { MailAfter(l, batch[..|batch| - 1]); }
  }

  /** The peer has closed its side, and all data have been read. */
  predicate AtEnd(v: View) {
    v.lastdata.None? && v.line.mboxValid && (v.finPending || (v.line.mbox != [] && v.line.mbox[0].Closed?))
  }

  /** A FIN is reported as the end of the stream if no error comes meanwhile. */
  lemma OrderlyEnd(v: View, dontBlock: bool, out: Outcome)
    requires AtEnd(v) && v.line.alive && Calm(Batch(v.world, 0)) && Calm(Batch(v.world, 1))
    requires Answers(Replies(v, dontBlock), out)
    ensures out == Eof
  {
    var l := After(v.line, Batch(v.world, 0));
    CalmAfter(v.line, Batch(v.world, 0));
    if !v.finPending {
      CalmAfter(l.(mbox := l.mbox[1..]), Batch(v.world, 1));
      CalmAfter(v.line.(mbox := v.line.mbox[1..]), Batch(v.world, 0));
    }
  }

  /** On a connection that is gone, the end of the stream is replaced by the pending error, or by a reset. */
  lemma BrokenEnd(v: View, dontBlock: bool, out: Outcome)
    requires AtEnd(v) && !v.line.alive && Answers(Replies(v, dontBlock), out)
    ensures v.line.pending == None ==> out == Error(ErrFatal(Reset))
    ensures v.line.pending.Some? ==>
              out == if v.line.pending.value.ClosedError? then Eof else Error(ErrFatal(v.line.pending.value))
  {
    AfterEnd(v.line, Batch(v.world, 0));
    var l := v.line.(mbox := v.line.mbox[if v.line.mbox == [] then 0 else 1..]);
    AfterEnd(l, Batch(v.world, 0));
    AfterEnd(l, Batch(v.world, 1));
  }

  /** An error that is next in the mailbox is returned, whatever happens meanwhile. */
  lemma FailureNext(v: View, dontBlock: bool, out: Outcome)
    requires v.lastdata.None? && v.line.mboxValid && !v.finPending
    requires v.line.mbox != [] && v.line.mbox[0].Failed? && !v.line.mbox[0].e.ClosedError?
    requires Answers(Replies(v, dontBlock), out)
    ensures out == Error(ErrFatal(v.line.mbox[0].e))
  {
    MailAfter(v.line, Batch(v.world, 0));
  }

  /** An error that err_tcp posts while nothing is there is the one that is returned. */
  lemma FailureArrives(v: View, dontBlock: bool, e: ConnError, out: Outcome)
    requires v.lastdata.None? && v.line.mboxValid && !v.finPending && v.line.mbox == [] && v.line.alive
    requires Batch(v.world, 0) == [Fails(e, true)] && !e.ClosedError? && !v.line.mboxClosed && v.line.pending.None?
    requires Answers(Replies(v, dontBlock), out)
    ensures out == Error(ErrFatal(e))
  {
    assert After(v.line, []) == v.line && [Fails(e, true)][..0] == [];
    assert After(v.line, [Fails(e, true)]) == Happens(v.line, Fails(e, true));
    assert Awaited(Happens(v.line, Fails(e, true)), Rest(v.world)).0.mbox == [Failed(e)];
  }

  /** Data that are there are returned. */
  lemma DataNext(v: View, dontBlock: bool, out: Outcome)
    requires v.lastdata.Some? || (v.line.mboxValid && !v.finPending && v.line.mbox != [] && v.line.mbox[0].Data?)
    requires Answers(Replies(v, dontBlock), out)
    ensures out.Got?
  {
    MailAfter(v.line, Batch(v.world, 0));
  }

  /** With nothing there, and nothing happening, a call that may not wait says so, and another one waits. */
  lemma NothingNext(v: View, dontBlock: bool, out: Outcome)
    requires v.lastdata.None? && v.line.mboxValid && !v.finPending && v.line.mbox == []
    requires Batch(v.world, 0) == Batch(v.world, 1) == []
    requires Answers(Replies(v, dontBlock), out)
    ensures v.line.pending == None && v.line.mboxClosed ==> out == Error(ErrConn)
    ensures v.line.pending == None && !v.line.mboxClosed && (v.nonblocking || dontBlock) ==> out == Error(ErrWouldBlock)
    ensures v.line.pending.Some? ==>
              out == if v.line.pending.value.ClosedError? then Eof else Error(ErrFatal(v.line.pending.value))
    ensures v.line.pending == None && !v.line.mboxClosed && !(v.nonblocking || dontBlock) && v.world == [] ==>
              out == Blocked
  {
  }

  // ---------------------------------------------------------------- the reader

  class Socket {
    const ssizeMax: nat
    const nonblocking: bool
    var mbox: seq<Msg>
    var mboxValid: bool
    var mboxClosed: bool
    var pendingErr: Option<ConnError>
    var finPending: bool
    var alive: bool
    var lastdata: Option<seq<Byte>>
    /** The stream has ended: TCP has handed over the peer's FIN, or reported ERR_CLSD. */
    var fin: bool
    /** Sum of what tcp_recved was called with. */
    var credit: nat
    /** What the TCP/IP thread will do in the coming windows. */
    var world: seq<seq<Env>>
    ghost var arrived: seq<Byte>
    ghost var delivered: seq<Byte>
    /** Bytes delivered by the call in progress, not yet credited. */
    ghost var owed: nat
    ghost var finTaken: bool

    /** The invariant, with l for the data that were fetched but not consumed. */
    ghost predicate Holding(l: Option<seq<Byte>>)
      reads this
    {
      && arrived == delivered + (Left(l) + Bytes(mbox))
      && Ordered(mbox)
      && (l.Some? ==> 1 <= |l.value| <= 65535)
      && (alive ==> credit + owed == |delivered|)
      && (alive && !fin ==> OnlyData(mbox))
      && (HasClosed(mbox) || finTaken || pendingErr == Some(ClosedError) ==> fin)
      && (alive ==> pendingErr.None? && !mboxClosed)
      && (finTaken ==> Bytes(mbox) == [] && l.None?)
      && (finPending || !mboxValid ==> finTaken)
    }

    ghost predicate Valid()
      reads this
    {
      Holding(lastdata)
    }

    /** What the other thread may do to the connection, and what it leaves alone. */
    twostate predicate Interference()
      reads this
    {
      && delivered == old(delivered) && lastdata == old(lastdata) && owed == old(owed) && credit == old(credit)
      && finPending == old(finPending) && finTaken == old(finTaken) && mboxValid == old(mboxValid)
      && Grown(old(arrived), arrived)
      && (old(fin) ==> fin && arrived == old(arrived))
      && |old(mbox)| <= |mbox| && (fin && !old(fin) ==> mbox != [] || !alive)
      && (HasClosed(old(mbox)) ==> HasClosed(mbox))
    }

    ghost function Wire(): Line
      reads this
    {
      Line(alive, fin, arrived, pendingErr, mbox, mboxValid, mboxClosed)
    }

    ghost function Now(): View
      reads this
    {
      View(Wire(), delivered, lastdata, finPending, nonblocking, world)
    }

    constructor (nonblocking: bool, ssizeMax: nat, world: seq<seq<Env>>)
      ensures Valid() && arrived == [] && delivered == [] && owed == 0 && alive
      ensures this.ssizeMax == ssizeMax
      ensures Now() == View(Line(true, false, [], None, [], true, false), [], None, false, nonblocking, world)
    {
      this.nonblocking, this.ssizeMax, this.world := nonblocking, ssizeMax, world;
      mbox, mboxValid, mboxClosed, pendingErr, finPending, alive := [], true, false, None, false, true;
      lastdata, credit := None, 0;
      fin := false;
      arrived, delivered, owed, finTaken := [], [], 0, false;
    }

    /** recv_tcp with a pbuf: TCP hands over no data after a FIN. */
    method RecvTcp(p: seq<Byte>)
      requires Valid() && alive && !fin && mboxValid && 1 <= |p| <= 65535
      modifies this`mbox, this`arrived
      ensures Valid() && mbox == old(mbox) + [Data(p)] && arrived == old(arrived) + p
    {
      AppendData(mbox, p);
      assert arrived + p == delivered + (Left(lastdata) + (Bytes(mbox) + p));
      mbox := mbox + [Data(p)];
      arrived := arrived + p;
    }

    /** recv_tcp with NULL, for a FIN. */
    method RecvFin()
      requires Valid() && alive && !fin && mboxValid
      modifies this`mbox, this`fin
      ensures Valid() && mbox == old(mbox) + [Closed] && fin
    {
      AppendMark(mbox, Closed);
      mbox := mbox + [Closed];
      fin := true;
    }

    /** err_tcp: the pcb is gone. The mailbox may be full. */
    method ErrTcp(err: ConnError, posted: bool)
      requires Valid()
      modifies this`mbox, this`alive, this`pendingErr, this`mboxClosed, this`fin
      ensures Valid() && !alive && fin == (old(fin) || err.ClosedError?)
      ensures mboxClosed && pendingErr == Some(err) && (HasClosed(old(mbox)) ==> HasClosed(mbox))
      ensures mbox == if mboxValid && posted then old(mbox) + [Mark(err)] else old(mbox)
    {
      alive := false;
      fin := fin || err.ClosedError?;
      pendingErr := Some(err);
      mboxClosed := true;
      if mboxValid && posted {
        AppendMark(mbox, Mark(err));
        mbox := mbox + [Mark(err)];
      }
    }

    method Apply(e: Env)
      requires Valid()
      modifies this
      ensures Valid() && Interference() && world == old(world)
      ensures Wire() == Happens(old(Wire()), e)
    {
      if alive {
        match e
        case Arrives(p) =>
          if !fin && mboxValid && 1 <= |p| <= 65535 {
            GrownBy(arrived, p);
            RecvTcp(p);
          }
        case Fin =>
          if !fin && mboxValid { RecvFin(); }
        case Fails(err, posted) =>
          ErrTcp(err, posted);
      }
    }

    /** A window: the other thread does what is next on its list. */
    method Window()
      requires Valid()
      modifies this
      ensures Valid() && Interference()
      ensures world == Rest(old(world))
      ensures Wire() == After(old(Wire()), Batch(old(world), 0))
    {
      if world == [] {
        return;
      }
      var batch := world[0];
      world := world[1..];
      for i := 0 to |batch|
        invariant Valid() && Interference() && world == old(world)[1..]
        invariant Wire() == After(old(Wire()), batch[..i])
      {
        ghost var before := arrived;
        Apply(batch[i]);
        GrownTrans(old(arrived), before, arrived);
        AfterMore(old(Wire()), batch, i);
      }
      TakeAll(batch);
    }

    /** netconn_err: get and reset the pending error. */
    method TakeError() returns (e: Option<ConnError>)
      requires Valid()
      modifies this`pendingErr
      ensures Valid() && e == old(pendingErr) && pendingErr.None?
    {
      e := pendingErr;
      pendingErr := None;
    }

    /** What stays as it is while nothing has been fetched. */
    twostate predicate Waited()
      reads this
    {
      && delivered == old(delivered) && lastdata == old(lastdata) && owed == old(owed) && credit == old(credit)
      && mboxValid == old(mboxValid) && finPending == old(finPending) && finTaken == old(finTaken)
      && Grown(old(arrived), arrived) && |world| <= |old(world)|
      && (old(fin) ==> fin && arrived == old(arrived))
      && (HasClosed(old(mbox)) ==> HasClosed(mbox))
    }

    /** sys_arch_mbox_tryfetch finds nothing: the error that is returned. */
    method WhyEmpty() returns (e: RecvError)
      requires Valid() && mbox == [] && lastdata.None?
      modifies this
      ensures Valid() && Waited() && old(arrived) == delivered
      ensures arrived == After(old(Wire()), Batch(old(world), 0)).arrived
      ensures e == ErrFatal(ClosedError) ==> fin
      ensures e == Why(After(old(Wire()), Batch(old(world), 0)))
      ensures !e.ErrClosed?
    {
      Window();
      var pending := TakeError();
      if pending.Some? {
        return ErrFatal(pending.value);
      }
      e := if mboxClosed then ErrConn else ErrWouldBlock;
    }

    /** A look into the mailbox that does not wait; None: something is there. */
    method Poll() returns (e: Option<RecvError>)
      requires Valid() && lastdata.None? && mboxValid && !finPending
      modifies this
      ensures Valid() && Waited() && (e.None? ==> mbox != [])
      ensures e.Some? ==> |old(arrived)| <= |delivered| && !e.value.ErrClosed?
      ensures var l := After(old(Wire()), Batch(old(world), 0));
              if l.mbox == [] then e == Some(Why(After(l, Batch(old(world), 1))))
              else e == None && Wire() == l && world == Rest(old(world))
      ensures e == Some(ErrFatal(ClosedError)) ==> fin
      ensures (e == Some(ErrFatal(ClosedError)) && arrived != delivered) <==> RacingPoll(old(Now()))
      ensures RacingPoll(old(Now())) ==> arrived == RaceEnd(old(Now()))
    {
      ghost var l0, b0, b1 := Wire(), Batch(world, 0), Batch(world, 1);
      AfterEnd(l0, b0);
      AfterEnd(l0, b1);
      Window();
      ghost var l1 := Wire();
      AfterEnd(l1, b1);
      assert b1 == Batch(world, 0);
      if mbox == [] {
        assert l1.arrived == delivered;
        assert l1.alive && l1.arrived == l0.arrived ==> l1 == l0;
        var why := WhyEmpty();
        e := Some(why);
      } else {
        e := None;
      }
    }

    /** sys_arch_mbox_fetch: wait until something is there, if it ever is. */
    method Await() returns (ready: bool)
      requires Valid()
      modifies this
      ensures Valid() && Waited()
      ensures if ready then mbox != [] else mbox == []
      ensures (Wire(), world) == Awaited(old(Wire()), old(world))
    {
      while mbox == []
        invariant Valid() && Waited()
        invariant Awaited(Wire(), world) == Awaited(old(Wire()), old(world))
        decreases |world|
      {
        if world == [] {
          return false;
        }
        Window();
      }
      ready := true;
    }

    /**
     * netconn_recv_data for TCP, with no data left over. When it fails, everything that had arrived before
     * the call has been delivered.
     */
    method RecvData(dontBlock: bool) returns (f: Fetch)
      requires Valid() && lastdata.None? && mboxValid && !finPending
      modifies this
      ensures old(fin) ==> fin && arrived == old(arrived)
      ensures Waited() || f.GotFin?
      ensures f.GotFin? ==> finTaken && mboxValid && !finPending
      ensures f.GotFin? || finTaken == old(finTaken)
      ensures !f.GotFin? ==> finPending == old(finPending) && mboxValid == old(mboxValid)
      ensures var r := Replies(old(Now()), dontBlock);
              if f.GotFin? then r == Ended(After(Wire(), Batch(world, 0))) else Fetches(r, f) && !r.Ended?
      ensures delivered == old(delivered) && lastdata.None? && owed == old(owed) && Grown(old(arrived), arrived)
      ensures |world| <= |old(world)|
      ensures f.GotData? ==> Holding(Some(f.p))
      ensures !f.GotData? ==> Valid() && |old(arrived)| <= |delivered|
      ensures f == NoData(ErrFatal(ClosedError)) ==> fin
      ensures (f == NoData(ErrFatal(ClosedError)) && arrived != delivered) <==> Racing(old(Now()), dontBlock)
      ensures Racing(old(Now()), dontBlock) ==> arrived == RaceEnd(old(Now()))
      ensures f.NoData? ==> !f.e.ErrClosed?
      ensures f.StillWaiting? ==> !dontBlock
    {
      f := Look(dontBlock);
      if f.GotData? {
        f := Take();
      }
    }

    /** Fetching as far as waiting or looking: GotData says that something is there. */
    method Look(dontBlock: bool) returns (f: Fetch)
      requires Valid() && lastdata.None? && mboxValid && !finPending
      modifies this
      ensures Valid() && Waited() && !f.GotFin?
      ensures f.GotData? ==> mbox != [] && Replies(old(Now()), dontBlock) == FirstMsg(Wire(), world)
      ensures !f.GotData? ==> Fetches(Replies(old(Now()), dontBlock), f) && !Replies(old(Now()), dontBlock).Ended?
      ensures f.NoData? ==> |old(arrived)| <= |delivered| && !f.e.ErrClosed?
      ensures f.StillWaiting? ==> !dontBlock && |old(arrived)| <= |delivered|
      ensures f == NoData(ErrFatal(ClosedError)) ==> fin
      ensures (f == NoData(ErrFatal(ClosedError)) && arrived != delivered) <==> Racing(old(Now()), dontBlock)
      ensures Racing(old(Now()), dontBlock) ==> arrived == RaceEnd(old(Now()))
    {
      if nonblocking || dontBlock || mboxClosed || pendingErr.Some? {
        var e := Poll();
        f := if e.Some? then NoData(e.value) else GotData([]);
      } else {
        var ready := Await();
        f := if ready then GotData([]) else StillWaiting;
      }
    }

    /** The fetch itself, and the sorting out of error messages. */
    method Take() returns (f: Fetch)
      requires Valid() && lastdata.None? && mbox != []
      modifies this`mbox, this`finTaken
      ensures f.GotFin? || finTaken == old(finTaken)
      ensures f.GotData? ==> Holding(Some(f.p))
      ensures !f.GotData? ==> Valid() && arrived == delivered
      ensures f.GotFin? ==> finTaken
      ensures f.NoData? ==> f.e.ErrFatal? && !f.e.e.ClosedError?
      ensures !f.StillWaiting?
      ensures Wire() == old(Wire()).(mbox := old(mbox)[1..])
      ensures match old(mbox)[0]
              case Data(p) => f == GotData(p)
              case Closed => f == GotFin
              case Failed(e) => f == NoData(ErrFatal(e))
    {
      var m := mbox[0];
      mbox := mbox[1..];
      match m
      case Data(p) =>
        f := GotData(p);
      case Closed =>
        finTaken := true;
        f := GotFin;
      case Failed(e) =>
        f := NoData(ErrFatal(e));
    }

    /** The part of netconn_recv_data_tcp behind `handle_fin`. */
    method HandleFin(closing: Closing) returns (e: RecvError)
      requires Valid() && finTaken && !finPending
      modifies this
      ensures Valid() && delivered == old(delivered) && owed == old(owed) && lastdata.None?
      ensures arrived == old(arrived) && arrived == delivered && fin
      ensures e == EndError(After(old(Wire()), Batch(old(world), 0)))
      ensures finTaken && !finPending
      ensures e.ErrClosed? ==> (mboxValid <==> old(mboxValid) && closing.NotClosed?) && (alive <==> !closing.AllClosed?)
      ensures |world| <= |old(world)|
    {
      Window();
      if !alive {
        var pending := TakeError();
        return ErrFatal(if pending.Some? then pending.value else Reset);
      }
      Close(closing);
      e := ErrClosed;
    }

    /** netconn_close_shutdown with NETCONN_SHUT_RD, as far as it succeeds. */
    method Close(closing: Closing)
      requires Valid() && finTaken && alive
      modifies this`mbox, this`mboxValid, this`alive
      ensures Valid() && (mboxValid <==> old(mboxValid) && closing.NotClosed?) && (alive <==> !closing.AllClosed?)
    {
      if !closing.NotClosed? {
        mbox, mboxValid := [], false;
      }
      if closing.AllClosed? {
        alive := false;
      }
    }

    /** There is an end of the stream to report, at some time. */
    ghost predicate AtFin()
      reads this
    {
      finPending || HasClosed(mbox)
    }

    /** With the end of the stream the receiving side is closed, as far as that succeeds. */
    ghost predicate Closes(f: Fetch, closing: Closing)
      reads this
    {
      f == NoData(ErrClosed) ==> (mboxValid <==> closing.NotClosed?) && (alive <==> !closing.AllClosed?)
    }

    /** netconn_recv_data_tcp with NETCONN_NOAUTORCVD; a FIN that cannot be reported now is kept. */
    method RecvDataTcp(noFin: bool, dontBlock: bool, closing: Closing) returns (f: Fetch)
      requires Valid() && lastdata.None?
      modifies this
      ensures old(fin) ==> fin && arrived == old(arrived)
      ensures delivered == old(delivered) && lastdata.None? && owed == old(owed) && Grown(old(arrived), arrived)
      ensures |world| <= |old(world)|
      ensures f.GotData? ==> Holding(Some(f.p))
      ensures !noFin ==> Fetches(Replies(old(Now()), dontBlock), f)
      ensures finPending == if Replies(old(Now()), dontBlock).Ended? then noFin && !old(finPending) else old(finPending)
      ensures old(AtFin()) && ((noFin && !old(finPending)) || !Replies(old(Now()), dontBlock).Ended?) ==> AtFin()
      ensures Closes(f, closing)
      ensures !f.GotData? ==> Valid() && |old(arrived)| <= |delivered| && !f.GotFin?
      ensures f == NoData(ErrClosed) ==> fin && arrived == delivered
      ensures f == NoData(ErrFatal(ClosedError)) ==> fin
      ensures (f == NoData(ErrFatal(ClosedError)) && arrived != delivered) <==> Racing(old(Now()), dontBlock)
      ensures Racing(old(Now()), dontBlock) ==> arrived == RaceEnd(old(Now()))
      ensures f.StillWaiting? ==> !dontBlock
      ensures old(finPending) && old(mboxValid) ==> f.NoData? && (f.e.ErrClosed? || f.e.ErrFatal?)
    {
      if !mboxValid {
        return NoData(ErrConn);
      }
      if finPending {
        finPending := false;
      } else {
        f := RecvData(dontBlock);
        if !f.GotFin? {
          return;
        }
        if noFin {
          finPending := true;
          return NoData(ErrWouldBlock);
        }
      }
      var e := HandleFin(closing);
      f := NoData(e);
    }

    /** lwip_netconn_do_recv: the length passed to tcp_recved has 16 bits. */
    method DoRecv(len: nat)
      requires Valid() && alive && owed == len && len > 0
      modifies this`credit, this`owed
      ensures Valid() && owed == 0 && credit == old(credit) + len
    {
      var remaining := len;
      while remaining != 0
        invariant remaining <= len && credit == old(credit) + (len - remaining) && owed == remaining
        invariant Valid()
      {
        var recved := if remaining > 0xffff then 0xffff else remaining;
        TcpRecved(recved);
        remaining := remaining - recved;
      }
    }

    method TcpRecved(recved: nat)
      requires Valid() && recved <= 0xffff && recved <= owed
      modifies this`credit, this`owed
      ensures Valid() && credit == old(credit) + recved && owed == old(owed) - recved
    {
      credit := credit + recved;
      owed := owed - recved;
    }

    /** netconn_tcp_recvd */
    method TcpRecvd(len: nat)
      requires Valid() && owed == len && len > 0
      modifies this
      ensures old(fin) ==> fin && arrived == old(arrived)
      ensures Valid() && owed == 0 && delivered == old(delivered) && lastdata == old(lastdata)
      ensures old(AtFin()) ==> AtFin()
      ensures Grown(old(arrived), arrived)
    {
      Window();
      if alive {
        DoRecv(len);
      } else {
        owed := 0;
      }
    }

    /** One round of the loop of lwip_recv_tcp behind the fetch: copy, and drop what was consumed. */
    method CopyOut(p: seq<Byte>, left: nat, peek: bool) returns (copied: seq<Byte>)
      requires Holding(Some(p))
      modifies this`lastdata, this`delivered, this`owed
      ensures Valid() && |copied| == (if left > |p| then |p| else left)
      ensures peek ==> delivered == old(delivered) && owed == old(owed) && delivered + copied <= arrived
      ensures !peek ==> delivered == old(delivered) + copied && owed == old(owed) + |copied|
      ensures !peek && |copied| < left ==> lastdata.None?
    {
      lastdata := Some(p);
      var copylen := if left > |p| then |p| else left;
      copied := p[..copylen];
      Regroup(delivered, p, copylen, Bytes(mbox));
      if !peek {
        Consume(p, copylen);
      }
    }

    /** The first n bytes of p have been copied; the rest is left over. */
    method Consume(p: seq<Byte>, n: nat)
      requires Valid() && lastdata == Some(p) && n <= |p|
      modifies this`lastdata, this`delivered, this`owed
      ensures Valid() && delivered == old(delivered) + p[..n] && owed == old(owed) + n
      ensures lastdata == if n < |p| then Some(p[n..]) else None
    {
      Regroup(delivered, p, n, Bytes(mbox));
      delivered := delivered + p[..n];
      owed := owed + n;
      lastdata := if |p| - n > 0 then Some(p[n..]) else None;
      assert Left(lastdata) == p[n..];
    }

    /** The data left over from the last call, or the next ones from the connection. */
    method NextData(noFin: bool, dontBlock: bool, closing: Closing) returns (f: Fetch)
      requires Valid()
      modifies this
      ensures old(fin) ==> fin && arrived == old(arrived)
      ensures delivered == old(delivered) && owed == old(owed) && Grown(old(arrived), arrived)
      ensures f.GotData? ==> Holding(Some(f.p))
      ensures !noFin ==> Fetches(Replies(old(Now()), dontBlock), f)
      ensures finPending == if Replies(old(Now()), dontBlock).Ended? then noFin && !old(finPending) else old(finPending)
      ensures old(AtFin()) && ((noFin && !old(finPending)) || !Replies(old(Now()), dontBlock).Ended?) ==> AtFin()
      ensures Closes(f, closing)
      ensures !f.GotData? ==> Valid() && |old(arrived)| <= |delivered| && !f.GotFin?
      ensures f == NoData(ErrClosed) ==> fin && arrived == delivered
      ensures f == NoData(ErrFatal(ClosedError)) ==> fin
      ensures (f == NoData(ErrFatal(ClosedError)) && arrived != delivered) <==> Racing(old(Now()), dontBlock)
      ensures Racing(old(Now()), dontBlock) ==> arrived == RaceEnd(old(Now()))
      ensures f.StillWaiting? ==> !dontBlock
      ensures old(finPending) && old(mboxValid) ==> f.NoData? && (f.e.ErrClosed? || f.e.ErrFatal?)
    {
      if lastdata.Some? {
        f := GotData(lastdata.value);
      } else {
        f := RecvDataTcp(noFin, dontBlock, closing);
      }
    }

    /**
     * lwip_recv_tcp. A call that returns fewer bytes than asked for, or none, has delivered at least
     * everything that had arrived when it was called. The end of the stream is reported in front of data
     * exactly in the race, which can be told before the call from what is going to happen in its windows.
     */
    method Recv(len: nat, peek: bool, dontWait: bool, closing: Closing) returns (out: Outcome)
      requires Valid() && owed == 0
      modifies this
      ensures Valid() && owed == 0 && Grown(old(arrived), arrived)
      ensures out.Got? ==> |out.bytes| <= Least(len, ssizeMax)
      ensures out.Got? && !peek ==> delivered == old(delivered) + out.bytes
      ensures !out.Got? || peek ==> delivered == old(delivered)
      ensures out.Got? && peek ==> delivered + out.bytes <= arrived
      ensures out.Got? && Least(len, ssizeMax) > 0 ==> out.bytes != []
      ensures !out.Got? || (!peek && |out.bytes| < Least(len, ssizeMax)) ==> |old(arrived)| <= |delivered|
      ensures Answers(Replies(old(Now()), dontWait), out)
      ensures old(AtFin()) && !Replies(old(Now()), dontWait).Ended? ==> AtFin()
      ensures Replies(old(Now()), dontWait).Ended? && Replies(old(Now()), dontWait).at.alive ==>
                (mboxValid <==> closing.NotClosed?) && (alive <==> !closing.AllClosed?)
      ensures out.Eof? ==> fin
      ensures (out.Eof? && arrived != delivered) <==> Racing(old(Now()), dontWait)
      ensures Racing(old(Now()), dontWait) ==> arrived == RaceEnd(old(Now()))
      ensures old(finPending) && old(mboxValid) ==> out.Eof? || (out.Error? && out.e.ErrFatal?)
      ensures out.Blocked? ==> !dontWait
      ensures old(fin) ==> fin && arrived == old(arrived)
    {
      var got, failure := Fill(Least(len, ssizeMax), peek, dontWait, closing);
      if failure.Some? {
        return failure.value;
      }
      ghost var before := arrived;
      if |got| > 0 && !peek {
        TcpRecvd(|got|);
      }
      GrownTrans(old(arrived), before, arrived);
      out := Got(got);
    }

    /** What is returned when nothing was received. */
    function Failure(f: Fetch): Outcome
      requires f.NoData? || f.StillWaiting?
    {
      if f.StillWaiting? then Blocked
      else if f.e.ErrClosed? || f.e == ErrFatal(ClosedError) then Eof
      else Error(f.e)
    }

    /** One round of the loop of lwip_recv_tcp. */
    method Round(left: nat, peek: bool, noFin: bool, dontBlock: bool, closing: Closing)
      returns (f: Fetch, copied: seq<Byte>)
      requires Valid()
      modifies this
      ensures Valid() && Grown(old(arrived), arrived)
      ensures old(fin) ==> fin && arrived == old(arrived)
      ensures |copied| <= left && (f.GotData? && left > 0 ==> copied != [])
      ensures delivered == (if peek then old(delivered) else old(delivered) + copied)
      ensures owed == (if peek then old(owed) else old(owed) + |copied|)
      ensures f.GotData? ==> (if peek then delivered + copied <= arrived else |copied| < left ==> lastdata.None?)
      ensures !f.GotData? ==> copied == [] && |old(arrived)| <= |delivered| && !f.GotFin?
      ensures !noFin ==> Fetches(Replies(old(Now()), dontBlock), f)
      ensures finPending == if Replies(old(Now()), dontBlock).Ended? then noFin && !old(finPending) else old(finPending)
      ensures old(AtFin()) && ((noFin && !old(finPending)) || !Replies(old(Now()), dontBlock).Ended?) ==> AtFin()
      ensures f.GotData? ==> !finPending
      ensures Closes(f, closing)
      ensures f == NoData(ErrClosed) ==> fin && arrived == delivered
      ensures f == NoData(ErrFatal(ClosedError)) ==> fin
      ensures (f == NoData(ErrFatal(ClosedError)) && arrived != delivered) <==> Racing(old(Now()), dontBlock)
      ensures Racing(old(Now()), dontBlock) ==> arrived == RaceEnd(old(Now()))
      ensures f.StillWaiting? ==> !dontBlock
      ensures old(finPending) && old(mboxValid) ==> f.NoData? && (f.e.ErrClosed? || f.e.ErrFatal?)
    {
      copied := [];
      f := NextData(noFin, dontBlock, closing);
      if f.GotData? {
        copied := CopyOut(f.p, left, peek);
      }
    }

    /** The do loop of lwip_recv_tcp. Only its first round may wait or report the end. */
    method Fill(capacity: nat, peek: bool, dontWait: bool, closing: Closing)
      returns (got: seq<Byte>, failure: Option<Outcome>)
      requires Valid() && owed == 0
      modifies this
      ensures Valid() && Grown(old(arrived), arrived) && |got| <= capacity
      ensures old(fin) ==> fin && arrived == old(arrived)
      ensures !peek ==> delivered == old(delivered) + got && owed == |got|
      ensures peek ==> delivered == old(delivered) && owed == 0
      ensures failure.Some? ==>
                got == [] && !failure.value.Got? && |old(arrived)| <= |delivered| &&
                (failure.value.Eof? ==> fin) &&
                (failure.value.Blocked? ==> !dontWait)
      ensures Answers(Replies(old(Now()), dontWait), if failure.None? then Got(got) else failure.value)
      ensures old(AtFin()) && !Replies(old(Now()), dontWait).Ended? ==> AtFin()
      ensures Replies(old(Now()), dontWait).Ended? && Replies(old(Now()), dontWait).at.alive ==>
                (mboxValid <==> closing.NotClosed?) && (alive <==> !closing.AllClosed?)
      ensures failure.None? && peek ==> delivered + got <= arrived
      ensures failure.None? && capacity > 0 ==> got != []
      ensures failure.None? && !peek && |got| < capacity ==> |old(arrived)| <= |delivered|
      ensures old(finPending) && old(mboxValid) ==>
                failure.Some? && (failure.value.Eof? || (failure.value.Error? && failure.value.e.ErrFatal?))
      ensures (failure == Some(Eof) && arrived != delivered) <==> Racing(old(Now()), dontWait)
      ensures Racing(old(Now()), dontWait) ==> arrived == RaceEnd(old(Now()))
    {
      var f;
      f, got := Round(capacity, peek, false, dontWait, closing);
      if !f.GotData? {
        return [], Some(Failure(f));
      }
      failure := None;
      if peek || |got| == capacity {
        return;
      }
      ghost var first := arrived;
      var more := FillOn(capacity - |got|, closing);
      GrownTrans(old(arrived), first, arrived);
      Assoc(old(delivered), got, more);
      got := got + more;
    }

    /** Its further rounds, which do not wait, and keep what they cannot report for the next call. */
    method FillOn(space: nat, closing: Closing) returns (got: seq<Byte>)
      requires Valid() && space > 0 && !finPending
      modifies this
      ensures Valid() && Grown(old(arrived), arrived) && |got| <= space
      ensures old(fin) ==> fin && arrived == old(arrived)
      ensures delivered == old(delivered) + got && owed == old(owed) + |got|
      ensures |got| < space ==> |old(arrived)| <= |delivered|
      ensures old(AtFin()) ==> AtFin()
    {
      got := [];
      assert old(delivered) + got == delivered;
      var left := space;
      while left > 0
        invariant Valid() && Grown(old(arrived), arrived) && |got| + left == space && left >= 0
        invariant old(fin) ==> fin && arrived == old(arrived)
        invariant delivered == old(delivered) + got && owed == old(owed) + |got|
        invariant !finPending && (old(AtFin()) ==> AtFin())
        decreases left
      {
        ghost var before, done := arrived, got;
        var f, copied := Round(left, false, true, true, closing);
        GrownTrans(old(arrived), before, arrived);
        if !f.GotData? {
          return;
        }
        got := got + copied;
        left := left - |copied|;
        Assoc(old(delivered), done, copied);
      }
    }
  }

  datatype Call = Call(len: nat, peek: bool, dontWait: bool, closing: Closing)

  /** The bytes that a call consumed. */
  function Consumed(c: Call, o: Outcome): seq<Byte> {
    if o.Got? && !c.peek then o.bytes else []
  }

  function Stream(calls: seq<Call>, outs: seq<Outcome>): seq<Byte>
    requires |calls| == |outs|
  {
    if calls == [] then []
    else Stream(calls[..|calls| - 1], outs[..|calls| - 1]) + Consumed(calls[|calls| - 1], outs[|calls| - 1])
  }

  /** A call of a series, from state v to state v'. */
  ghost predicate Linked(v: View, c: Call, o: Outcome, v': View) {
    && v'.delivered == v.delivered + Consumed(c, o)
    && Grown(v.line.arrived, v'.line.arrived)
    && (v.line.fin ==> v'.line.fin && v'.line.arrived == v.line.arrived)
    && Answers(Replies(v, c.dontWait), o)
    && (o.Eof? ==> v'.line.fin)
    && ((o.Eof? && v'.line.arrived != v'.delivered) <==> Racing(v, c.dontWait))
  }

  /** If call j reported the end, the calls before it had consumed everything, unless it ran into the race. */
  ghost predicate EndExact(arrived: seq<Byte>, calls: seq<Call>, outs: seq<Outcome>, views: seq<View>, j: nat)
    requires |calls| == |outs| < |views|
  {
    j < |outs| && outs[j] == Eof ==>
      (arrived == Stream(calls[..j], outs[..j]) <==> !Racing(views[j], calls[j].dontWait))
  }

  ghost predicate LinkedAt(calls: seq<Call>, outs: seq<Outcome>, views: seq<View>, j: nat)
    requires |calls| == |outs| < |views|
  {
    j < |outs| ==> Linked(views[j], calls[j], outs[j], views[j + 1])
  }

  /** A series of calls; views are the states between them. */
  ghost predicate Chain(calls: seq<Call>, outs: seq<Outcome>, views: seq<View>)
    decreases |calls|
  {
    && |calls| == |outs| && |views| == |outs| + 1
    && if calls == [] then views[0].delivered == []
       else
         var n := |calls| - 1;
         Chain(calls[..n], outs[..n], views[..n + 1]) && Linked(views[n], calls[n], outs[n], views[n + 1])
  }

  lemma ChainStep(calls: seq<Call>, outs: seq<Outcome>, views: seq<View>, c: Call, o: Outcome, v: View)
    requires Chain(calls, outs, views) && Linked(views[|outs|], c, o, v)
    ensures Chain(calls + [c], outs + [o], views + [v])
  {
    assert (calls + [c])[..|calls|] == calls && (outs + [o])[..|outs|] == outs && (views + [v])[..|views|] == views;
  }

  /** The calls of a series consume the stream; after the end has been reported nothing arrives. */
  lemma {:induction false} ChainStream(calls: seq<Call>, outs: seq<Outcome>, views: seq<View>)
    requires Chain(calls, outs, views)
    ensures views[|outs|].delivered == Stream(calls, outs) && (Eof in outs ==> views[|outs|].line.fin)
    decreases |calls|
  {
    if calls != [] {
      var n := |calls| - 1;
      ChainStream(calls[..n], outs[..n], views[..n + 1]);
      assert outs == outs[..n] + [outs[n]];
    }
  }

  lemma {:induction false} ChainEnd(calls: seq<Call>, outs: seq<Outcome>, views: seq<View>, j: nat)
    requires Chain(calls, outs, views)
    ensures LinkedAt(calls, outs, views, j) && EndExact(views[|outs|].line.arrived, calls, outs, views, j)
    decreases |calls|
  {
    if calls != [] {
      var n := |calls| - 1;
      ChainEnd(calls[..n], outs[..n], views[..n + 1], j);
      ChainStream(calls[..n], outs[..n], views[..n + 1]);
      if j < n {
        assert calls[..n][..j] == calls[..j] && outs[..n][..j] == outs[..j];
        assert outs[j] == Eof ==> Eof in outs[..n] by { assert outs[..n][j] == outs[j]; }
      }
    }
  }

  /** The race: a byte, the FIN and ERR_CLSD come behind the look into the mailbox, and the read returns 0. */
  method EarlyEof() returns (out: Outcome, arrived: seq<Byte>, ghost delivered: seq<Byte>)
    ensures out == Eof && arrived == [1] && delivered == []
  {
    var late := [Arrives([1]), Fin, Fails(ClosedError, true)];
    var s := new Socket(false, 1, [[], late]);
    ghost var l := s.Wire();
    RaceHappens(l, late);
    out := s.Recv(1, false, true, NotClosed);
    arrived, delivered := [1], s.delivered;
    assert s.arrived == [1];
  }

  lemma RaceHappens(l: Line, late: seq<Env>)
    requires l == Line(true, false, [], None, [], true, false) && late == [Arrives([1]), Fin, Fails(ClosedError, true)]
    ensures After(l, []) == l
    ensures After(l, late) == Line(false, true, [1], Some(ClosedError), [Data([1]), Closed, Closed], true, true)
  {
    assert late[..2] == [Arrives([1]), Fin] && late[..2][..1] == [Arrives([1])];
    assert After(l, late[..2][..1]) == Happens(After(l, []), Arrives([1]));
    assert After(l, late[..2]) == Happens(After(l, late[..2][..1]), Fin);
  }

  /** One more call of a series. */
  method NextCall(s: Socket, ghost calls: seq<Call>, outs: seq<Outcome>, ghost views: seq<View>, c: Call)
    returns (outs': seq<Outcome>, ghost views': seq<View>)
    requires s.Valid() && s.owed == 0 && Chain(calls, outs, views) && views[|outs|] == s.Now()
    modifies s
    ensures s.Valid() && s.owed == 0 && Chain(calls + [c], outs', views')
    ensures |outs'| == |outs| + 1 && views'[|outs'|] == s.Now() && views'[0] == views[0]
  {
    var o := s.Recv(c.len, c.peek, c.dontWait, c.closing);
    outs', views' := outs + [o], views + [s.Now()];
    ChainStep(calls, outs, views, c, o, s.Now());
  }

  /**
   * Any series of calls on a new connection, whatever the TCP/IP thread does meanwhile: what was consumed,
   * what is left over and what is queued make up what arrived; the window credit is what was consumed; and
   * a call reports the end of the stream in front of data that ever arrive exactly if it ran into the race.
   */
  method Session(s: Socket, calls: seq<Call>) returns (outs: seq<Outcome>, ghost views: seq<View>)
    requires s.Valid() && s.arrived == s.delivered == [] && s.owed == 0
    modifies s
    ensures s.Valid() && |outs| == |calls| && |views| == |calls| + 1
    ensures s.arrived == Stream(calls, outs) + (Left(s.lastdata) + Bytes(s.mbox))
    ensures s.alive ==> s.credit == |Stream(calls, outs)|
    ensures views[0] == old(s.Now()) && views[|calls|] == s.Now()
    ensures forall j: nat :: LinkedAt(calls, outs, views, j)
    ensures forall j: nat :: EndExact(s.arrived, calls, outs, views, j)
  {
    outs, views := Calls(s, calls);
    ChainStream(calls, outs, views);
    forall j: nat ensures LinkedAt(calls, outs, views, j) && EndExact(s.arrived, calls, outs, views, j) {
      ChainEnd(calls, outs, views, j);
    }
  }

  /** The calls, one after the other. */
  method Calls(s: Socket, calls: seq<Call>) returns (outs: seq<Outcome>, ghost views: seq<View>)
    requires s.Valid() && s.delivered == [] && s.owed == 0
    modifies s
    ensures s.Valid() && s.owed == 0 && Chain(calls, outs, views)
    ensures views[0] == old(s.Now()) && views[|calls|] == s.Now()
  {
    outs, views := [], [s.Now()];
    for i := 0 to |calls|
      invariant s.Valid() && s.owed == 0 && |outs| == i && Chain(calls[..i], outs, views)
      invariant views[0] == old(s.Now()) && views[i] == s.Now()
    {
      outs, views := NextCall(s, calls[..i], outs, views, calls[i]);
      TakeMore(calls, i);
    }
    TakeAll(calls);
  }
}
