/**
 * TFTP read transfer between the FreeRTOS example server and client: the lock-step protocol of
 * section 2 of RFC 1350, over a network that loses, duplicates and reorders packets.
 */
module Tftp {
  import opened Basics

  // ---------------------------------------------------------------- pieces of a file

  /** Where the first i pieces of 512 bytes end. */
  function Cut(file: seq<Byte>, i: nat): (c: nat)
    ensures c <= |file|
  {
    if 512 * i <= |file| then 512 * i else |file|
  }

  /** What the i-th f_read of 512 bytes returns; shorter than 512 bytes from the last block on. */
  function Piece(file: seq<Byte>, i: nat): seq<Byte>
    requires i >= 1
  {
    file[Cut(file, i - 1)..Cut(file, i)]
  }

  lemma PieceLength(file: seq<Byte>, i: nat)
    requires i >= 1
    ensures |Piece(file, i)| <= 512
    ensures |Piece(file, i)| < 512 <==> 512 * i > |file|
  {
  }

  lemma PieceAppend(file: seq<Byte>, i: nat)
    requires i >= 1
    ensures file[..Cut(file, i - 1)] + Piece(file, i) == file[..Cut(file, i)]
  {
  }

  lemma PartAppend(file: seq<Byte>, i: nat, m: nat)
    requires i >= 1 && m <= |Piece(file, i)|
    ensures Cut(file, i - 1) + m <= Cut(file, i)
    ensures file[..Cut(file, i - 1)] + Piece(file, i)[..m] == file[..Cut(file, i - 1) + m]
  {
  }

  // ---------------------------------------------------------------- packets

  datatype ToClient = Data(block: nat, payload: seq<Byte>) | ServerError | OtherToClient

  /** `sized`: the datagram has TFTP_MAX_ACK_LEN bytes. */
  datatype ToServer = Ack(block: nat, sized: bool) | ClientError | OtherToServer

  /** Both sides keep the block number in 16 bits. */
  function Wire(n: nat): nat {
    n % 65536
  }

  /** The block a number on the wire stands for, while there are at most 65536 blocks. */
  function Number(w: nat): nat {
    if w == 0 then 65536 else w
  }

  lemma WireNumber(n: nat)
    requires 1 <= n <= 65536
    ensures Number(Wire(n)) == n
  {
  }

  // ---------------------------------------------------------------- the server

  datatype Status = Running | Complete | Aborted

  /** n: the block number before truncation; buf: what was read for it; retry: retry_data. */
  datatype Server = Server(n: nat, buf: seq<Byte>, retry: nat, status: Status)

  /** The loop body up to the first send: read block n and send it. */
  function SendBlock(file: seq<Byte>, n: nat, readOk: bool, sendOk: bool): (Server, seq<ToClient>)
    requires n >= 1
  {
    if !readOk then (Server(n, [], 0, Aborted), [])
    else if !sendOk then (Server(n, Piece(file, n), 0, Aborted), [])
    else (Server(n, Piece(file, n), 0, Running), [Data(Wire(n), Piece(file, n))])
  }

  function ServerStart(file: seq<Byte>, openOk: bool, readOk: bool, sendOk: bool): (Server, seq<ToClient>) {
    if openOk then SendBlock(file, 1, readOk, sendOk) else (Server(1, [], 0, Aborted), [ServerError])
  }

  /** What the server does with one datagram; the flags say how the following file and socket calls end. */
  function ServerRecv(file: seq<Byte>, s: Server, p: ToServer, readOk: bool, sendOk: bool): (Server, seq<ToClient>) {
    match p
    case ClientError => (s.(status := Aborted), [])
    case OtherToServer => (s.(status := Aborted), [ServerError])
    case Ack(b, sized) =>
      if sized && b == Wire(s.n) then
        if |s.buf| < 512 then (s.(n := s.n + 1, status := Complete), [])
        else SendBlock(file, s.n + 1, readOk, sendOk)
      else if s.retry < 3 then
        if sendOk then (s.(retry := s.retry + 1), [Data(Wire(s.n), s.buf)])
        else (s.(retry := s.retry + 1, status := Aborted), [])
      else (s.(retry := s.retry + 1, status := Aborted), [])
  }

  // ---------------------------------------------------------------- the client

  /** n: the expected block number before truncation; file: what has been written. */
  datatype Client = Client(n: nat, retries: nat, file: seq<Byte>, status: Status)

  /** The number of the acknowledgement that is repeated: (u16_t) block - 1, put into 16 bits. */
  function Previous(n: nat): nat {
    if Wire(n) == 0 then 65535 else Wire(n) - 1
  }

  /** f_write writes everything if `writeOk`, else at most `written` bytes. */
  function ClientRecv(c: Client, p: ToClient, writeOk: bool, written: nat, sendOk: bool): (Client, seq<ToServer>) {
    match p
    case ServerError => (c.(status := Aborted), [])
    case OtherToClient => (c.(status := Aborted), [ClientError])
    case Data(b, payload) =>
      if b != Wire(c.n) then
        if c.retries < 3 then
          if sendOk then (c.(retries := c.retries + 1), [Ack(Previous(c.n), true)])
          else (c.(retries := c.retries + 1, status := Aborted), [])
        else (c.(retries := c.retries + 1, status := Aborted), [])
      else if !writeOk then
        (c.(file := c.file + payload[..Least(written, |payload|)], status := Aborted), [ClientError])
      else if !sendOk then
        (c.(n := c.n + 1, file := c.file + payload, status := Aborted), [])
      else
        (Client(c.n + 1, if |payload| + 4 < 516 then c.retries else 0, c.file + payload,
                if |payload| + 4 < 516 then Complete else Running),
         [Ack(Wire(c.n), true)])
  }

  // ---------------------------------------------------------------- the transfer

  /**
   * Both sides, and everything either of them has ever sent. `tried` is history: the number, before
   * truncation, of the block in each data packet the server has sent.
   */
  datatype Transfer = Transfer(server: Server, client: Client, toClient: seq<ToClient>, toServer: seq<ToServer>,
                               tried: seq<nat>)

  datatype Event =
    | ServerGets(p: ToServer, readOk: bool, sendOk: bool)
    | ClientGets(q: ToClient, writeOk: bool, written: nat, sent: bool)
    | ClientRecvFails

  /**
   * The network delivers anything that was ever sent, any number of times and in any order, or stray
   * datagrams that are neither data nor a well-formed acknowledgement. A failed recv of the server looks
   * like such a datagram (FailureUnnoticed).
   */
  predicate Enabled(t: Transfer, e: Event) {
    match e
    case ServerGets(p, _, _) => t.server.status.Running? && (p in t.toServer || !(p.Ack? && p.sized))
    case ClientGets(q, _, _, _) => t.client.status.Running? && (q in t.toClient || !q.Data?)
    case ClientRecvFails => t.client.status.Running?
  }

  function Tried(s: Server, out: seq<ToClient>): seq<nat> {
    if out != [] && out[0].Data? then [s.n] else []
  }

  function Do(file: seq<Byte>, t: Transfer, e: Event): Transfer {
    match e
    case ServerGets(p, readOk, sendOk) =>
      var (s, out) := ServerRecv(file, t.server, p, readOk, sendOk);
      t.(server := s, toClient := t.toClient + out, tried := t.tried + Tried(s, out))
    case ClientGets(q, writeOk, written, sendOk) =>
      var (c, out) := ClientRecv(t.client, q, writeOk, written, sendOk);
      t.(client := c, toServer := t.toServer + out)
    case ClientRecvFails => t.(client := t.client.(status := Aborted))
  }

  function Begin(file: seq<Byte>, openOk: bool, readOk: bool, sendOk: bool): Transfer {
    var (s, out) := ServerStart(file, openOk, readOk, sendOk);
    Transfer(s, Client(1, 0, [], Running), out, [], Tried(s, out))
  }

  /** The events take the transfer from t to t'. */
  ghost predicate Run(file: seq<Byte>, t: Transfer, es: seq<Event>, t': Transfer)
    decreases |es|
  {
    if es == [] then t == t'
    else Enabled(t, es[0]) && Run(file, Do(file, t, es[0]), es[1..], t')
  }

  ghost predicate Reachable(file: seq<Byte>, t: Transfer) {
    exists openOk, readOk, sendOk, es :: Run(file, Begin(file, openOk, readOk, sendOk), es, t)
  }

  // ---------------------------------------------------------------- the invariant

  /** Fewer than 65537 blocks, counting the last one, which is shorter than 512 bytes. */
  predicate NoWrap(file: seq<Byte>) {
    |file| < 512 * 65536
  }

  ghost predicate ServerOk(file: seq<Byte>, s: Server) {
    && s.n >= 1 && 512 * (s.n - 1) <= |file| + 512
    && (s.status.Running? ==> 512 * (s.n - 1) <= |file| && s.buf == Piece(file, s.n) && s.retry <= 3)
    && (s.status.Complete? ==> 512 * (s.n - 1) > |file|)
  }

  ghost predicate ClientOk(file: seq<Byte>, c: Client) {
    && c.n >= 1
    && Cut(file, c.n - 1) <= |c.file| <= Cut(file, c.n)
    && c.file == file[..|c.file|]
    && (c.status.Running? ==> 512 * (c.n - 1) <= |file|)
    && (!c.status.Aborted? ==> |c.file| == Cut(file, c.n - 1))
    && (c.status.Complete? ==> 512 * (c.n - 1) > |file|)
  }

  /** A packet carries the right block, and not one that the server has not reached. */
  ghost predicate DataOk(file: seq<Byte>, n: nat, p: ToClient) {
    p.Data? ==> p.block < 65536 && 1 <= Number(p.block) <= n && 512 * (Number(p.block) - 1) <= |file|
                && p.payload == Piece(file, Number(p.block))
  }

  /** Only blocks that were written are acknowledged. */
  ghost predicate AckOk(n: nat, p: ToServer) {
    p.Ack? ==> p.block < 65536 && Number(p.block) < n
  }

  ghost predicate Inv(file: seq<Byte>, t: Transfer) {
    && ServerOk(file, t.server)
    && ClientOk(file, t.client)
    && t.server.n <= t.client.n <= t.server.n + 1
    && (forall p :: p in t.toClient ==> DataOk(file, t.server.n, p))
    && (forall p :: p in t.toServer ==> AckOk(t.client.n, p))
  }

  /** The right acknowledgement arrives only after the client has written the block. */
  lemma RightAck(file: seq<Byte>, t: Transfer, p: ToServer)
    requires NoWrap(file) && Inv(file, t) && t.server.status.Running?
    requires p in t.toServer && p.Ack? && p.block == Wire(t.server.n)
    ensures t.client.n == t.server.n + 1
  {
    assert AckOk(t.client.n, p);
    WireNumber(t.server.n);
  }

  lemma ServerStep(file: seq<Byte>, t: Transfer, e: Event)
    requires NoWrap(file) && Inv(file, t) && e.ServerGets? && Enabled(t, e)
    ensures Inv(file, Do(file, t, e))
  {
    var s := t.server;
    var (s', out) := ServerRecv(file, s, e.p, e.readOk, e.sendOk);
    PieceLength(file, s.n);
    if s'.n == s.n + 1 {
      RightAck(file, t, e.p);
      assert ServerOk(file, s');
    }
    if out != [] && out[0].Data? { WireNumber(s'.n); }
    forall p | p in t.toClient + out ensures DataOk(file, s'.n, p) {
      if p in t.toClient { assert DataOk(file, s.n, p); }
    }
  }

  /** Data with the expected number is the expected block. */
  lemma RightData(file: seq<Byte>, t: Transfer, q: ToClient)
    requires NoWrap(file) && Inv(file, t) && t.client.status.Running?
    requires q in t.toClient && q.Data?
    ensures q.block == Wire(t.client.n) ==> t.client.n == t.server.n && q.payload == Piece(file, t.client.n)
    ensures q.block != Wire(t.client.n) ==> t.client.n >= 2
  {
    assert DataOk(file, t.server.n, q);
    WireNumber(t.client.n);
  }

  /** The client's file stays a prefix if the data it accepts are the expected block. */
  lemma ClientFile(file: seq<Byte>, c: Client, b: nat, payload: seq<Byte>, writeOk: bool, written: nat, sendOk: bool)
    requires ClientOk(file, c) && c.status.Running?
    requires b == Wire(c.n) ==> payload == Piece(file, c.n)
    ensures ClientOk(file, ClientRecv(c, Data(b, payload), writeOk, written, sendOk).0)
  {
    PieceLength(file, c.n);
    if b == Wire(c.n) {
      PieceAppend(file, c.n);
      PartAppend(file, c.n, Least(written, |payload|));
    }
  }

  /** It acknowledges only what it has written. */
  lemma ClientAcks(c: Client, b: nat, payload: seq<Byte>, writeOk: bool, written: nat, sendOk: bool, p: ToServer)
    requires 1 <= c.n <= 65536 && (b != Wire(c.n) ==> c.n >= 2)
    requires p in ClientRecv(c, Data(b, payload), writeOk, written, sendOk).1
    ensures AckOk(ClientRecv(c, Data(b, payload), writeOk, written, sendOk).0.n, p)
  {
    WireNumber(c.n);
    if c.n >= 2 { WireNumber(c.n - 1); }
  }

  lemma ClientStep(file: seq<Byte>, t: Transfer, e: Event)
    requires NoWrap(file) && Inv(file, t) && e.ClientGets? && Enabled(t, e)
    ensures Inv(file, Do(file, t, e))
  {
    var c := t.client;
    var (c', out) := ClientRecv(c, e.q, e.writeOk, e.written, e.sent);
    if e.q.Data? {
      RightData(file, t, e.q);
      ClientFile(file, c, e.q.block, e.q.payload, e.writeOk, e.written, e.sent);
    }
    assert c'.n == c.n || (c'.n == c.n + 1 && c.n == t.server.n);
    forall p | p in t.toServer + out ensures AckOk(c'.n, p) {
      if p in t.toServer {
        assert AckOk(c.n, p);
      } else if e.q.Data? {
        ClientAcks(c, e.q.block, e.q.payload, e.writeOk, e.written, e.sent, p);
      }
    }
    assert ClientOk(file, c');
  }

  lemma StepInv(file: seq<Byte>, t: Transfer, e: Event)
    requires NoWrap(file) && Inv(file, t) && Enabled(t, e)
    ensures Inv(file, Do(file, t, e))
  {
    if e.ServerGets? {
      ServerStep(file, t, e);
    } else if e.ClientGets? {
      ClientStep(file, t, e);
    }
  }

  lemma BeginInv(file: seq<Byte>, openOk: bool, readOk: bool, sendOk: bool)
    ensures Inv(file, Begin(file, openOk, readOk, sendOk))
  {
    var t := Begin(file, openOk, readOk, sendOk);
    PieceLength(file, 1);
    WireNumber(1);
    assert ServerOk(file, t.server) && ClientOk(file, t.client);
    forall p | p in t.toClient ensures DataOk(file, t.server.n, p) {
    }
  }

  lemma {:induction false} RunInv(file: seq<Byte>, t: Transfer, es: seq<Event>, t': Transfer)
    requires NoWrap(file) && Inv(file, t) && Run(file, t, es, t')
    ensures Inv(file, t')
    decreases |es|
  {
    if es != [] {
      StepInv(file, t, es[0]);
      RunInv(file, Do(file, t, es[0]), es[1..], t');
    }
  }

  // ---------------------------------------------------------------- what holds of every run

  /**
   * In every run, for a file of at most 65536 blocks: the client's file is a prefix of the server's, the
   * server's block number does not exceed the one the client expects, and either side's completion means
   * the client holds the whole file.
   */
  lemma Faithful(file: seq<Byte>, t: Transfer)
    requires NoWrap(file) && Reachable(file, t)
    ensures t.client.file <= file
    ensures t.server.n <= t.client.n <= t.server.n + 1
    ensures t.server.status.Complete? || t.client.status.Complete? ==> t.client.file == file
  {
    var openOk, readOk, sendOk, es :| Run(file, Begin(file, openOk, readOk, sendOk), es, t);
    BeginInv(file, openOk, readOk, sendOk);
    RunInv(file, Begin(file, openOk, readOk, sendOk), es, t);
  }

  // ---------------------------------------------------------------- how often a block is sent

  /** How often block b was sent. */
  function Times(tried: seq<nat>, b: nat): nat {
    if tried == [] then 0
    else Times(tried[..|tried| - 1], b) + (if tried[|tried| - 1] == b then 1 else 0)
  }

  ghost predicate TimesOk(s: Server, tried: seq<nat>, b: nat) {
    && Times(tried, b) <= 4
    && (s.status.Running? && b == s.n ==> Times(tried, b) <= s.retry + 1)
    && (b > s.n ==> Times(tried, b) == 0)
  }

  ghost predicate Limited(t: Transfer) {
    && (t.server.status.Running? ==> t.server.retry <= 3)
    && (forall b: nat :: TimesOk(t.server, t.tried, b))
    && Numbers(t.toClient) == Wires(t.tried)
  }

  /** The block numbers of the data packets. */
  function Numbers(sent: seq<ToClient>): seq<nat> {
    if sent == [] then []
    else
      var p := sent[|sent| - 1];
      Numbers(sent[..|sent| - 1]) + (if p.Data? then [p.block] else [])
  }

  function Wires(tried: seq<nat>): seq<nat> {
    if tried == [] then [] else Wires(tried[..|tried| - 1]) + [Wire(tried[|tried| - 1])]
  }

  lemma OneMore(sent: seq<ToClient>, tried: seq<nat>, p: ToClient, n: nat, b: nat)
    ensures Times(tried + [n], b) == Times(tried, b) + (if n == b then 1 else 0)
    ensures Wires(tried + [n]) == Wires(tried) + [Wire(n)]
    ensures Numbers(sent + [p]) == Numbers(sent) + (if p.Data? then [p.block] else [])
  {
    assert (tried + [n])[..|tried|] == tried;
    assert (sent + [p])[..|sent|] == sent;
  }

  /** What a step of the server that runs does to its counters. */
  ghost predicate Counted(s: Server, s': Server, more: seq<nat>) {
    if more == [] then !s'.status.Running? && s'.n >= s.n
    else more == [s'.n] && ((s'.n == s.n && s'.retry == s.retry + 1 <= 3) || (s'.n == s.n + 1 && s'.retry == 0))
  }

  lemma TimesStep(s: Server, s': Server, tried: seq<nat>, more: seq<nat>, b: nat)
    requires TimesOk(s, tried, b) && s.status.Running? && Counted(s, s', more)
    ensures TimesOk(s', tried + more, b)
  {
    if more == [] {
      assert tried + more == tried;
    } else {
      OneMore([], tried, ServerError, s'.n, b);
    }
  }

  lemma NumbersStep(sent: seq<ToClient>, tried: seq<nat>, out: seq<ToClient>, s': Server)
    requires Numbers(sent) == Wires(tried) && |out| <= 1
    requires out != [] && out[0].Data? ==> out[0].block == Wire(s'.n)
    ensures Numbers(sent + out) == Wires(tried + Tried(s', out))
  {
    if out == [] {
      assert sent + out == sent;
    } else {
      assert out == [out[0]];
      OneMore(sent, tried, out[0], s'.n, 0);
    }
    if Tried(s', out) == [] { assert tried + Tried(s', out) == tried; }
  }

  /** One step of the server: at most one more packet, of the block it is at. */
  lemma ServerTries(file: seq<Byte>, t: Transfer, e: Event)
    requires Limited(t) && e.ServerGets? && t.server.status.Running?
    ensures Limited(Do(file, t, e))
  {
    var s := t.server;
    var (s', out) := ServerRecv(file, s, e.p, e.readOk, e.sendOk);
    assert Counted(s, s', Tried(s', out));
    NumbersStep(t.toClient, t.tried, out, s');
    var tried := t.tried + Tried(s', out);
    forall b: nat ensures TimesOk(s', tried, b) {
      assert TimesOk(s, t.tried, b);
      TimesStep(s, s', t.tried, Tried(s', out), b);
    }
  }

  lemma {:induction false} RunTries(file: seq<Byte>, t: Transfer, es: seq<Event>, t': Transfer)
    requires Limited(t) && Run(file, t, es, t')
    ensures Limited(t')
    decreases |es|
  {
    if es != [] {
      if es[0].ServerGets? {
        ServerTries(file, t, es[0]);
      }
      RunTries(file, Do(file, t, es[0]), es[1..], t');
    }
  }

  lemma FirstPacket(p: ToClient)
    ensures Numbers([p]) == if p.Data? then [p.block] else []
  {
    assert [p][..0] == [];
  }

  lemma FirstTry(b: nat)
    ensures Times([1], b) == (if b == 1 then 1 else 0) && Wires([1]) == [1]
  {
    assert [1][..0] == [];
  }

  /** Before any block, or with the first one, sent once. */
  lemma FirstOk(s: Server, tried: seq<nat>, b: nat)
    requires s.n == 1 && (tried == [1] || (tried == [] && !s.status.Running?))
    ensures TimesOk(s, tried, b)
  {
    FirstTry(b);
  }

  /** At first there is at most one packet, with its number if it is the first block. */
  lemma BeginShape(file: seq<Byte>, openOk: bool, readOk: bool, sendOk: bool)
    ensures var t := Begin(file, openOk, readOk, sendOk);
            && t.server.n == 1 && t.server.retry == 0
            && if openOk && readOk && sendOk then t.toClient == [Data(1, Piece(file, 1))] && t.tried == [1]
               else t.toClient == (if openOk then [] else [ServerError]) && t.tried == [] && t.server.status.Aborted?
  {
  }

  lemma BeginTries(file: seq<Byte>, openOk: bool, readOk: bool, sendOk: bool)
    ensures Limited(Begin(file, openOk, readOk, sendOk))
  {
    var t := Begin(file, openOk, readOk, sendOk);
    BeginShape(file, openOk, readOk, sendOk);
    if t.toClient != [] { FirstPacket(t.toClient[0]); }
    FirstTry(1);
    forall b: nat ensures TimesOk(t.server, t.tried, b) { FirstOk(t.server, t.tried, b); }
  }

  /**
   * In every run, for a file of any length, no block is sent more than 1 + TFTP_MAX_RETRY_COUNT times,
   * counting the data packets on the wire by the block they carry.
   */
  lemma SentAtMost(file: seq<Byte>, t: Transfer, b: nat)
    requires Reachable(file, t)
    ensures Times(t.tried, b) <= 4 && Numbers(t.toClient) == Wires(t.tried)
  {
    var openOk, readOk, sendOk, es :| Run(file, Begin(file, openOk, readOk, sendOk), es, t);
    BeginTries(file, openOk, readOk, sendOk);
    RunTries(file, Begin(file, openOk, readOk, sendOk), es, t);
    assert TimesOk(t.server, t.tried, b);
  }

  // ---------------------------------------------------------------- a network without faults

  lemma {:induction false} RunAppend(file: seq<Byte>, t: Transfer, es: seq<Event>, t': Transfer, e: Event)
    requires Run(file, t, es, t') && Enabled(t', e)
    ensures Run(file, t, es + [e], Do(file, t', e))
    decreases |es|
  {
    var all := es + [e];
    if es == [] {
      assert all[1..] == [];
    } else {
      assert all[1..] == es[1..] + [e];
      RunAppend(file, Do(file, t, es[0]), es[1..], t', e);
    }
  }

  /** After n - 1 exchanges without faults both sides are at block n, which is on its way. */
  ghost predicate AtBlock(file: seq<Byte>, t: Transfer, n: nat) {
    && n >= 1
    && t.server == Server(n, Piece(file, n), 0, Running)
    && t.client == Client(n, 0, file[..Cut(file, n - 1)], Running)
    && (forall k: nat :: SentBlock(file, t.toClient, n, k))
    && (n >= 2 ==> Ack(1, true) in t.toServer)
  }

  /** Blocks 1 to n have been sent. */
  ghost predicate SentBlock(file: seq<Byte>, sent: seq<ToClient>, n: nat, k: nat) {
    1 <= k <= n ==> Data(Wire(k), Piece(file, k)) in sent
  }

  lemma StillSent(file: seq<Byte>, sent: seq<ToClient>, sent': seq<ToClient>, n: nat, n': nat)
    requires n' == n + 1 && sent' == sent + [Data(Wire(n'), Piece(file, n'))]
    requires forall k: nat :: SentBlock(file, sent, n, k)
    ensures forall k: nat :: SentBlock(file, sent', n', k)
  {
    forall k: nat ensures SentBlock(file, sent', n', k) {
      assert SentBlock(file, sent, n, k);
    }
  }

  function DataArrives(file: seq<Byte>, n: nat): Event
    requires n >= 1
  {
    ClientGets(Data(Wire(n), Piece(file, n)), true, 0, true)
  }

  function AckArrives(n: nat): Event {
    ServerGets(Ack(Wire(n), true), true, true)
  }

  /** One exchange: the client writes block n and acknowledges it, the server goes on. */
  lemma Exchange(file: seq<Byte>, t: Transfer, n: nat) returns (t1: Transfer, t2: Transfer)
    requires AtBlock(file, t, n)
    ensures Enabled(t, DataArrives(file, n)) && t1 == Do(file, t, DataArrives(file, n))
    ensures Enabled(t1, AckArrives(n)) && t2 == Do(file, t1, AckArrives(n))
    ensures 512 * n <= |file| ==> AtBlock(file, t2, n + 1)
    ensures 512 * n > |file| ==>
              t2.server.status.Complete? && t2.client.status.Complete? && t2.client.file == file
  {
    assert SentBlock(file, t.toClient, n, n);
    t1 := Do(file, t, DataArrives(file, n));
    t2 := Do(file, t1, AckArrives(n));
    PieceLength(file, n);
    PieceAppend(file, n);
    assert Ack(Wire(n), true) in t1.toServer;
    if 512 * n <= |file| {
      StillSent(file, t.toClient, t2.toClient, n, n + 1);
    }
  }

  lemma {:induction false} Happy(file: seq<Byte>, n: nat) returns (es: seq<Event>, t: Transfer)
    requires n >= 1 && 512 * (n - 1) <= |file|
    ensures Run(file, Begin(file, true, true, true), es, t) && AtBlock(file, t, n)
  {
    if n == 1 {
      es, t := [], Begin(file, true, true, true);
    } else {
      es, t := Happy(file, n - 1);
      var t1, t2 := Exchange(file, t, n - 1);
      RunAppend(file, Begin(file, true, true, true), es, t, DataArrives(file, n - 1));
      es := es + [DataArrives(file, n - 1)];
      RunAppend(file, Begin(file, true, true, true), es, t1, AckArrives(n - 1));
      es, t := es + [AckArrives(n - 1)], t2;
    }
  }

  /** The number of blocks of a file. */
  lemma {:induction false} BlocksOf(file: seq<Byte>, k: nat) returns (n: nat)
    requires 512 * k <= |file|
    ensures n >= 1 && 512 * (n - 1) <= |file| < 512 * n
    decreases |file| - 512 * k
  {
    if |file| < 512 * (k + 1) {
      n := k + 1;
    } else {
      n := BlocksOf(file, k + 1);
    }
  }

  /** Without faults every file, of any length, is transferred and both sides report completion. */
  lemma Completes(file: seq<Byte>) returns (t: Transfer)
    ensures Reachable(file, t)
    ensures t.server.status.Complete? && t.client.status.Complete? && t.client.file == file
  {
    var n := BlocksOf(file, 0);
    var es, t0 := Happy(file, n);
    var t1, t2 := Exchange(file, t0, n);
    RunAppend(file, Begin(file, true, true, true), es, t0, DataArrives(file, n));
    RunAppend(file, Begin(file, true, true, true), es + [DataArrives(file, n)], t1, AckArrives(n));
    t := t2;
  }

  // ---------------------------------------------------------------- when the numbers wrap around

  /** The acknowledgement of block 1 is taken for the one of block 65537. */
  lemma Overtakes(file: seq<Byte>) returns (t: Transfer)
    requires !NoWrap(file)
    ensures Reachable(file, t) && t.server.n == 65538 && t.client.n == 65537
  {
    var es, t0 := Happy(file, 65537);
    var e := ServerGets(Ack(1, true), true, true);
    RunAppend(file, Begin(file, true, true, true), es, t0, e);
    t := Do(file, t0, e);
    PieceLength(file, 65537);
  }

  /**
   * The server never runs ahead of the client exactly for files of at most 65536 blocks: from the next
   * block on an old acknowledgement is taken for a new one.
   */
  lemma LockStepExact(file: seq<Byte>)
    ensures (forall t :: Reachable(file, t) ==> t.server.n <= t.client.n) <==> NoWrap(file)
  {
    if NoWrap(file) {
      forall t | Reachable(file, t) ensures t.server.n <= t.client.n {
        Faithful(file, t);
      }
    } else {
      var t := Overtakes(file);
    }
  }

  /** The client has got to block m with old data in place of the file's from block n on. */
  ghost predicate Misled(file: seq<Byte>, t: Transfer, n: nat, m: nat) {
    && n >= 65537 && m >= n && 512 * (n - 1) <= |file| < 512 * n
    && t.server == Server(n, Piece(file, n), 0, Running)
    && t.client.n == m && t.client.status.Running?
    && |t.client.file| == 512 * (m - 1)
    && (forall k: nat :: SentBlock(file, t.toClient, n, k))
    && (m > n ==> Ack(Wire(n), true) in t.toServer)
  }

  /** The block 65536 before the expected one. */
  function OldArrives(file: seq<Byte>, m: nat): Event
    requires m >= 65537
  {
    ClientGets(Data(Wire(m - 65536), Piece(file, m - 65536)), true, 0, true)
  }

  /** It is taken for the expected one. */
  lemma TakesOld(file: seq<Byte>, t: Transfer, n: nat, m: nat) returns (t': Transfer)
    requires Misled(file, t, n, m) && m < n + 65536
    ensures Enabled(t, OldArrives(file, m)) && t' == Do(file, t, OldArrives(file, m))
    ensures Misled(file, t', n, m + 1)
  {
    var k: nat := m - 65536;
    assert SentBlock(file, t.toClient, n, k);
    SameWire(k, m);
    PieceLength(file, k);
    t' := Do(file, t, OldArrives(file, m));
    assert Ack(Wire(m), true) in t'.toServer;
  }

  lemma SameWire(k: nat, m: nat)
    requires m == k + 65536
    ensures Wire(k) == Wire(m)
  {
  }

  /** Any number of old blocks, up to the one that is as old as the last. */
  lemma {:induction false} GoesAstray(file: seq<Byte>, n: nat, m: nat) returns (es: seq<Event>, t: Transfer)
    requires n >= 65537 && 512 * (n - 1) <= |file| < 512 * n && n <= m <= n + 65536
    ensures Run(file, Begin(file, true, true, true), es, t) && Misled(file, t, n, m)
    decreases m
  {
    if m == n {
      es, t := Happy(file, n);
    } else {
      es, t := GoesAstray(file, n, m - 1);
      var t1 := TakesOld(file, t, n, m - 1);
      RunAppend(file, Begin(file, true, true, true), es, t, OldArrives(file, m - 1));
      es, t := es + [OldArrives(file, m - 1)], t1;
    }
  }

  /**
   * For every longer file: the client takes an old block for the last one, so that its file is no longer a
   * prefix, and the server takes the acknowledgement for that of the last block and reports completion.
   */
  lemma ServerLies(file: seq<Byte>) returns (t: Transfer)
    requires !NoWrap(file)
    ensures Reachable(file, t) && t.server.status.Complete?
    ensures |t.client.file| > |file|
  {
    var n := BlocksOf(file, 0);
    var es, t0 := GoesAstray(file, n, n + 1);
    PieceLength(file, n);
    RunAppend(file, Begin(file, true, true, true), es, t0, AckArrives(n));
    t := Do(file, t0, AckArrives(n));
  }

  /** The client goes round all block numbers once more before it gets the last block, and reports completion. */
  lemma ClientLies(file: seq<Byte>) returns (t: Transfer)
    requires !NoWrap(file)
    ensures Reachable(file, t) && t.client.status.Complete?
    ensures |t.client.file| > |file|
  {
    var n := BlocksOf(file, 0);
    var es, t0 := GoesAstray(file, n, n + 65536);
    assert SentBlock(file, t0.toClient, n, n);
    SameWire(n, n + 65536);
    PieceLength(file, n);
    RunAppend(file, Begin(file, true, true, true), es, t0, DataArrives(file, n));
    t := Do(file, t0, DataArrives(file, n));
  }

  /** The client's file is always a prefix of the server's exactly for files of at most 65536 blocks. */
  lemma PrefixExact(file: seq<Byte>)
    ensures (forall t :: Reachable(file, t) ==> t.client.file <= file) <==> NoWrap(file)
  {
    if NoWrap(file) {
      forall t | Reachable(file, t) ensures t.client.file <= file {
        Faithful(file, t);
      }
    } else {
      var t := ServerLies(file);
    }
  }

  /** When the server reports completion the client holds the file, exactly for these files. */
  lemma CompletionExact(file: seq<Byte>)
    ensures (forall t :: Reachable(file, t) && t.server.status.Complete? ==> t.client.file == file) <==> NoWrap(file)
  {
    if NoWrap(file) {
      forall t | Reachable(file, t) && t.server.status.Complete? ensures t.client.file == file {
        Faithful(file, t);
      }
    } else {
      var t := ServerLies(file);
    }
  }

  /** And so when the client does. */
  lemma ClientCompletionExact(file: seq<Byte>)
    ensures (forall t :: Reachable(file, t) && t.client.status.Complete? ==> t.client.file == file) <==> NoWrap(file)
  {
    if NoWrap(file) {
      forall t | Reachable(file, t) && t.client.status.Complete? ensures t.client.file == file {
        Faithful(file, t);
      }
    } else {
      var t := ClientLies(file);
    }
  }

  // ---------------------------------------------------------------- the two programs

  const TFTP_ERROR := 5
  const TFTP_ACK := 4
  const TFTP_MAX_ACK_LEN := 4

  /** A return from recv in the server: its result, and the opcode and block number that ack_pkt then holds. */
  datatype Received = Received(result: int, opcode: nat, block: nat)

  /** recv_len is u16_t. */
  function RecvLen(r: Received): nat { r.result % 65536 }

  /** The tests behind the call of recv, in their order; one that stops the server is like an error packet. */
  function Seen(r: Received): ToServer {
    if RecvLen(r) <= 0 || r.opcode == TFTP_ERROR then ClientError
    else if r.opcode != TFTP_ACK then OtherToServer
    else Ack(r.block, RecvLen(r) == TFTP_MAX_ACK_LEN)
  }

  /** The test for an error of recv meets an empty datagram and nothing else; recv returns -1 for errors. */
  lemma RecvTestExact(r: Received)
    requires -1 <= r.result <= TFTP_MAX_ACK_LEN
    ensures RecvLen(r) <= 0 <==> r.result == 0
  {
  }

  /**
   * A failed recv is taken for a datagram that may arrive at any time, and of whatever kind ack_pkt still
   * holds, but never for an acknowledgement of a block.
   */
  lemma FailureUnnoticed(t: Transfer, r: Received, readOk: bool, sendOk: bool)
    requires r.result == -1 && t.server.status.Running?
    ensures Enabled(t, ServerGets(Seen(r), readOk, sendOk))
    ensures !(Seen(r).Ack? && Seen(r).sized)
    ensures r.opcode == TFTP_ACK ==> Seen(r).Ack?
  {
  }

  /** What recv returns for a datagram. */
  function Raw(p: ToServer): Received {
    match p
    case Ack(block, sized) => Received(if sized then TFTP_MAX_ACK_LEN else 2, TFTP_ACK, block)
    case ClientError => Received(TFTP_MAX_ACK_LEN, TFTP_ERROR, 0)
    case OtherToServer => Received(TFTP_MAX_ACK_LEN, 0, 0)
  }

  datatype ServerInput = ServerInput(r: Received, readOk: bool, sendOk: bool)

  /** The server's states and packets when it is handed these datagrams one after the other. */
  function Serve(file: seq<Byte>, s: Server, sent: seq<ToClient>, inputs: seq<ServerInput>): (Server, seq<ToClient>)
    decreases |inputs|
  {
    if inputs == [] || !s.status.Running? then (s, sent)
    else
      var (s', out) := ServerRecv(file, s, Seen(inputs[0].r), inputs[0].readOk, inputs[0].sendOk);
      Serve(file, s', sent + out, inputs[1..])
  }

  datatype ClientInput = Datagram(q: ToClient, writeOk: bool, written: nat, sendOk: bool) | RecvFailed

  function Receive(c: Client, sent: seq<ToServer>, inputs: seq<ClientInput>): (Client, seq<ToServer>)
    decreases |inputs|
  {
    if inputs == [] || !c.status.Running? then (c, sent)
    else if inputs[0].RecvFailed? then (c.(status := Aborted), sent)
    else
      var (c', out) := ClientRecv(c, inputs[0].q, inputs[0].writeOk, inputs[0].written, inputs[0].sendOk);
      Receive(c', sent + out, inputs[1..])
  }

  function ServerInputs(es: seq<Event>): seq<ServerInput> {
    if es == [] then []
    else if es[0].ServerGets? then [ServerInput(Raw(es[0].p), es[0].readOk, es[0].sendOk)] + ServerInputs(es[1..])
    else ServerInputs(es[1..])
  }

  function ClientInputs(es: seq<Event>): seq<ClientInput> {
    if es == [] then []
    else if es[0].ClientGets? then
      [Datagram(es[0].q, es[0].writeOk, es[0].written, es[0].sent)] + ClientInputs(es[1..])
    else if es[0].ClientRecvFails? then [RecvFailed] + ClientInputs(es[1..])
    else ClientInputs(es[1..])
  }

  /** In a run of the transfer each side does what its program does with the datagrams it gets. */
  lemma {:induction false} Projection(file: seq<Byte>, t: Transfer, es: seq<Event>, t': Transfer)
    requires Run(file, t, es, t')
    ensures (t'.server, t'.toClient) == Serve(file, t.server, t.toClient, ServerInputs(es))
    ensures (t'.client, t'.toServer) == Receive(t.client, t.toServer, ClientInputs(es))
    decreases |es|
  {
    if es != [] {
      var t1 := Do(file, t, es[0]);
      Projection(file, t1, es[1..], t');
      if es[0].ServerGets? {
        assert ServerInputs(es)[1..] == ServerInputs(es[1..]);
      } else {
        assert ClientInputs(es)[1..] == ClientInputs(es[1..]);
      }
    }
  }

  /** What follows when buf is about to be sent as block n. */
  ghost function Sending(file: seq<Byte>, s: Server, sendOk: bool, sent: seq<ToClient>, rest: seq<ServerInput>)
    : (Server, seq<ToClient>)
  {
    if sendOk then Serve(file, s, sent + [Data(Wire(s.n), s.buf)], rest) else (s.(status := Aborted), sent)
  }

  /** What follows when block n is about to be read. */
  ghost function Reading(file: seq<Byte>, n: nat, readOk: bool, sendOk: bool, sent: seq<ToClient>, rest: seq<ServerInput>)
    : (Server, seq<ToClient>)
    requires n >= 1
  {
    if readOk then Sending(file, Server(n, Piece(file, n), 0, Running), sendOk, sent, rest)
    else (Server(n, [], 0, Aborted), sent)
  }

  lemma WireNext(n: nat)
    ensures Wire(n + 1) == (Wire(n) + 1) % 65536
  {
  }

  /** One datagram, in terms of what is sent next. */
  lemma ServeOne(file: seq<Byte>, s: Server, sent: seq<ToClient>, i: ServerInput, rest: seq<ServerInput>)
    requires s.status.Running? && s.n >= 1 && Seen(i.r).Ack?
    ensures var all := Serve(file, s, sent, [i] + rest);
            if Seen(i.r).sized && Seen(i.r).block == Wire(s.n) then
              if |s.buf| < 512 then all == (s.(n := s.n + 1, status := Complete), sent)
              else all == Reading(file, s.n + 1, i.readOk, i.sendOk, sent, rest)
            else if s.retry < 3 then all == Sending(file, s.(retry := s.retry + 1), i.sendOk, sent, rest)
            else all == (s.(retry := s.retry + 1, status := Aborted), sent)
  {
    assert ([i] + rest)[1..] == rest;
    assert sent + [] == sent;
  }

  lemma ServeLast(file: seq<Byte>, s: Server, sent: seq<ToClient>, i: ServerInput, rest: seq<ServerInput>)
    requires s.status.Running? && !Seen(i.r).Ack?
    ensures Serve(file, s, sent, [i] + rest) ==
            (s.(status := Aborted), if Seen(i.r).OtherToServer? then sent + [ServerError] else sent)
  {
    assert sent + [] == sent;
  }

  /** What follows a return from recv: the next block, the same again, or the end. */
  datatype Verdict = Acked | Resend | Stop

  /** The tests behind the call of recv. */
  method Judge(file: seq<Byte>, ghost s: Server, block: nat, retryData: nat, sent: seq<ToClient>, input: ServerInput,
               ghost rest: seq<ServerInput>)
    returns (v: Verdict, sent': seq<ToClient>)
    requires s.status.Running? && s.n >= 1 && block == Wire(s.n) && retryData == s.retry
    ensures var (s', out) := Serve(file, s, sent, [input] + rest);
            match v
            case Acked =>
              && sent' == sent
              && (s', out) == if |s.buf| < 512 then (s.(n := s.n + 1, status := Complete), sent)
                              else Reading(file, s.n + 1, input.readOk, input.sendOk, sent, rest)
            case Resend =>
              sent' == sent && (s', out) == Sending(file, s.(retry := s.retry + 1), input.sendOk, sent, rest)
            case Stop => out == sent' && s'.status == Aborted && s'.n == s.n
  {
    var recvLen := RecvLen(input.r);
    sent' := sent;
    if Seen(input.r).Ack? {
      ServeOne(file, s, sent, input, rest);
    } else {
      ServeLast(file, s, sent, input, rest);
    }
    if recvLen <= 0 {
      return Stop, sent;
    }
    if input.r.opcode == TFTP_ERROR {
      return Stop, sent;
    }
    if input.r.opcode != TFTP_ACK {
      return Stop, sent + [ServerError];
    }
    if recvLen == TFTP_MAX_ACK_LEN && input.r.block == block {
      return Acked, sent;
    }
    v := if retryData < 3 then Resend else Stop;
  }

  /**
   * From `send_again` on: send buf as block n until it is acknowledged (acked) or the server stops, or nothing
   * more is received.
   */
  method SendPiece(file: seq<Byte>, ghost n: nat, block: nat, buf: seq<Byte>, sendFirst: bool, inputs: seq<ServerInput>,
                  i0: nat, sent0: seq<ToClient>)
    returns (acked: bool, status: Status, i: nat, readOk: bool, sendOk: bool, sent: seq<ToClient>)
    requires n >= 1 && block == Wire(n) && i0 <= |inputs|
    ensures var (s, out) := Sending(file, Server(n, buf, 0, Running), sendFirst, sent0, inputs[i0..]);
            if !acked then out == sent && s.status == status && s.n == n
            else if |buf| < 512 then out == sent && s.status.Complete? && s.n == n + 1
            else i0 < i <= |inputs| && (s, out) == Reading(file, n + 1, readOk, sendOk, sent, inputs[i..])
  {
    acked, status, i, readOk, sendOk, sent := false, Aborted, i0, true, sendFirst, sent0;
    var retryData := 0;
    ghost var goal := Sending(file, Server(n, buf, 0, Running), sendOk, sent, inputs[i..]);
    while true
      invariant i0 <= i <= |inputs| && !acked && status.Aborted?
      invariant goal == Sending(file, Server(n, buf, retryData, Running), sendOk, sent, inputs[i..])
      decreases |inputs| - i
    {
      if !sendOk {
        return;
      }
      sent := sent + [Data(block, buf)];
      if i == |inputs| {
        status := Running;
        return;
      }
      var input := inputs[i];
      assert inputs[i..] == [input] + inputs[i + 1..];
      i := i + 1;
      var verdict;
      verdict, sent := Judge(file, Server(n, buf, retryData, Running), block, retryData, sent, input, inputs[i..]);
      readOk, sendOk := input.readOk, input.sendOk;
      match verdict {
        case Stop => return;
        case Acked =>
          acked := true;
          return;
        case Resend => retryData := retryData + 1;
      }
    }
  }

  /** block++ in 16 bits. */
  method Increment(block: nat, ghost n: nat) returns (r: nat)
    requires block == Wire(n)
    ensures r == Wire(n + 1)
  {
    WireNext(n);
    r := (block + 1) % 65536;
  }

  /** tftp_read_process, with the block number in 16 bits and the file position in bytes. */
  method ReadProcess(file: seq<Byte>, openOk: bool, readFirst: bool, sendFirst: bool, inputs: seq<ServerInput>)
    returns (block: nat, status: Status, sent: seq<ToClient>)
    ensures var (s0, sent0) := ServerStart(file, openOk, readFirst, sendFirst);
            var (s, out) := Serve(file, s0, sent0, inputs);
            sent == out && status == s.status && block == Wire(s.n)
  {
    block, status, sent := 1, Running, [];
    if !openOk {
      return 1, Aborted, [ServerError];
    }
    var pos, i, readOk, sendOk := 0, 0, readFirst, sendFirst;
    ghost var n: nat := 1;
    ghost var goal := Reading(file, 1, readOk, sendOk, [], inputs);
    FirstReading(file, readFirst, sendFirst, inputs);
    assert inputs[0..] == inputs;
    while true
      invariant n >= 1 && block == Wire(n) && pos == Cut(file, n - 1) && i <= |inputs|
      invariant goal == Reading(file, n, readOk, sendOk, sent, inputs[i..])
      decreases |inputs| - i
    {
      if !readOk {
        return block, Aborted, sent;
      }
      var buf, acked;
      buf, pos := ReadPiece(file, pos, n);
      acked, status, i, readOk, sendOk, sent := SendPiece(file, n, block, buf, sendOk, inputs, i, sent);
      if !acked {
        return;
      }
      block := Increment(block, n);
      if |buf| < 512 {
        status := Complete;
        return;
      }
      n := n + 1;
    }
  }

  lemma FirstReading(file: seq<Byte>, readOk: bool, sendOk: bool, inputs: seq<ServerInput>)
    ensures var (s0, sent0) := ServerStart(file, true, readOk, sendOk);
            Serve(file, s0, sent0, inputs) == Reading(file, 1, readOk, sendOk, [], inputs)
  {
    assert [] + [Data(Wire(1), Piece(file, 1))] == [Data(Wire(1), Piece(file, 1))];
  }

  /** f_read */
  method ReadPiece(file: seq<Byte>, pos: nat, ghost n: nat) returns (buf: seq<Byte>, pos': nat)
    requires n >= 1 && pos == Cut(file, n - 1)
    ensures buf == Piece(file, n) && pos' == Cut(file, n)
  {
    buf := file[pos..Least(pos + 512, |file|)];
    pos' := pos + |buf|;
  }

  /** tftp_handle_read_req_resp, with the block number in 16 bits. */
  method HandleReadResponse(inputs: seq<ClientInput>)
    returns (block: nat, status: Status, file: seq<Byte>, sent: seq<ToServer>)
    ensures var (c, out) := Receive(Client(1, 0, [], Running), [], inputs);
            sent == out && status == c.status && file == c.file && block == Wire(c.n)
  {
    block, status, file, sent := 1, Running, [], [];
    var retries, i := 0, 0;
    ghost var n: nat := 1;
    ghost var goal := Receive(Client(1, 0, [], Running), [], inputs);
    assert inputs[0..] == inputs;
    while i < |inputs|
      invariant i <= |inputs| && block == Wire(n) && status == Running
      invariant goal == Receive(Client(n, retries, file, Running), sent, inputs[i..])
    {
      var input := inputs[i];
      i := i + 1;
      assert inputs[i - 1..] == [input] + inputs[i..];
      if input.RecvFailed? {
        return block, Aborted, file, sent;
      }
      ReceiveOne(Client(n, retries, file, Running), sent, input, inputs[i..]);
      match input.q {
        case ServerError =>
          return block, Aborted, file, sent;
        case OtherToClient =>
          return block, Aborted, file, sent + [ClientError];
        case Data(b, payload) =>
          if b != block {
            if retries < 3 {
              retries := retries + 1;
              if !input.sendOk {
                return block, Aborted, file, sent;
              }
              sent := sent + [Ack((block + 65535) % 65536, true)];
              continue;
            }
            return block, Aborted, file, sent;
          }
          if !input.writeOk {
            return block, Aborted, file + payload[..Least(input.written, |payload|)], sent + [ClientError];
          }
          file := file + payload;
          if input.sendOk {
            sent := sent + [Ack(block, true)];
          }
          WireNext(n);
          block := (block + 1) % 65536;
          n := n + 1;
          if !input.sendOk {
            return block, Aborted, file, sent;
          }
          if |payload| + 4 < 516 {
            return block, Complete, file, sent;
          }
      }
      retries := 0;
    }
  }

  /** What ends the transfer at the client: an error, a packet of another kind, or a block that cannot be written. */
  lemma ReceiveLast(c: Client, sent: seq<ToServer>, i: ClientInput, rest: seq<ClientInput>)
    requires c.status.Running?
    ensures i.RecvFailed? || i.q.ServerError? ==> Receive(c, sent, [i] + rest) == (c.(status := Aborted), sent)
    ensures i.Datagram? && i.q.OtherToClient? ==>
              Receive(c, sent, [i] + rest) == (c.(status := Aborted), sent + [ClientError])
    ensures i.Datagram? && i.q.Data? && i.q.block == Wire(c.n) && !i.writeOk ==>
              var (c', out) := Receive(c, sent, [i] + rest);
              c'.status.Aborted? && out == sent + [ClientError] && c.file <= c'.file <= c.file + i.q.payload
  {
    assert sent + [] == sent;
  }

  lemma ReceiveOne(c: Client, sent: seq<ToServer>, i: ClientInput, rest: seq<ClientInput>)
    requires c.status.Running? && i.Datagram?
    ensures var (c', out) := ClientRecv(c, i.q, i.writeOk, i.written, i.sendOk);
            Receive(c, sent, [i] + rest) == Receive(c', sent + out, rest)
  {
    assert ([i] + rest)[1..] == rest;
  }

  // ---------------------------------------------------------------- what both sides put up with

  function Copies<T>(x: T, k: nat): seq<T> {
    if k == 0 then [] else [x] + Copies(x, k - 1)
  }

  /** A data packet that is not the one that client at block n waits for, and can be answered. */
  predicate WrongData(n: nat, i: ClientInput) {
    i.Datagram? && i.q.Data? && i.q.block != Wire(n) && i.sendOk
  }

  /** The first three wrong packets are each answered by acknowledging the block before once more. */
  lemma {:induction false} WrongBlocks(c: Client, sent: seq<ToServer>, wrong: seq<ClientInput>, rest: seq<ClientInput>)
    requires c.status.Running? && c.n >= 1 && c.retries + |wrong| <= 3 && forall i :: i in wrong ==> WrongData(c.n, i)
    ensures Receive(c, sent, wrong + rest) ==
            Receive(c.(retries := c.retries + |wrong|), sent + Copies(Ack(Wire(c.n - 1), true), |wrong|), rest)
    decreases |wrong|
  {
    if wrong == [] {
      assert wrong + rest == rest;
      assert sent + Copies(Ack(Wire(c.n - 1), true), 0) == sent;
    } else {
      var ack := Ack(Wire(c.n - 1), true);
      assert WrongData(c.n, wrong[0]);
      assert wrong + rest == [wrong[0]] + (wrong[1..] + rest);
      ReceiveOne(c, sent, wrong[0], wrong[1..] + rest);
      WrongBlocks(c.(retries := c.retries + 1), sent + [ack], wrong[1..], rest);
      Assoc(sent, [ack], Copies(ack, |wrong| - 1));
    }
  }

  /** The fourth one ends the transfer without an answer. */
  lemma OneTooMany(c: Client, sent: seq<ToServer>, i: ClientInput, rest: seq<ClientInput>)
    requires c.status.Running? && c.retries == 3 && WrongData(c.n, i)
    ensures Receive(c, sent, [i] + rest) == (c.(retries := 4, status := Aborted), sent)
  {
    ReceiveOne(c, sent, i, rest);
    assert sent + [] == sent;
  }

  /** Block by block: the wrong packets in front of it, and the block. */
  function ClientScript(file: seq<Byte>, n: nat, wrong: seq<seq<ClientInput>>): seq<ClientInput>
    requires n >= 1
    decreases |wrong|
  {
    if wrong == [] then []
    else wrong[0] + ([Datagram(Data(Wire(n), Piece(file, n)), true, 0, true)] + ClientScript(file, n + 1, wrong[1..]))
  }

  function AllAcks(n: nat, wrong: seq<seq<ClientInput>>): seq<ToServer>
    requires n >= 1
    decreases |wrong|
  {
    if wrong == [] then []
    else Copies(Ack(Wire(n - 1), true), |wrong[0]|) + ([Ack(Wire(n), true)] + AllAcks(n + 1, wrong[1..]))
  }

  /** Blocks n to n + k - 1 are the last k blocks of the file. */
  predicate LastBlocks(file: seq<Byte>, n: nat, k: nat) {
    n >= 1 && k >= 1 && 512 * (n + k - 2) <= |file| < 512 * (n + k - 1)
  }

  /** One block: the wrong packets and the right one. */
  lemma ClientBlock(file: seq<Byte>, n: nat, wrong: seq<ClientInput>, sent: seq<ToServer>, rest: seq<ClientInput>)
    requires n >= 1 && |wrong| <= 3 && forall i :: i in wrong ==> WrongData(n, i)
    ensures var good := Datagram(Data(Wire(n), Piece(file, n)), true, 0, true);
            Receive(Client(n, 0, file[..Cut(file, n - 1)], Running), sent, wrong + ([good] + rest)) ==
            Receive(Client(n + 1, if 512 * n > |file| then |wrong| else 0, file[..Cut(file, n)],
                           if 512 * n > |file| then Complete else Running),
                    sent + Copies(Ack(Wire(n - 1), true), |wrong|) + [Ack(Wire(n), true)], rest)
  {
    var c := Client(n, 0, file[..Cut(file, n - 1)], Running);
    var good := Datagram(Data(Wire(n), Piece(file, n)), true, 0, true);
    WrongBlocks(c, sent, wrong, [good] + rest);
    ReceiveOne(c.(retries := |wrong|), sent + Copies(Ack(Wire(n - 1), true), |wrong|), good, rest);
    PieceAppend(file, n);
    PieceLength(file, n);
  }

  /**
   * A client that gets all blocks of a file of any length in order, with up to three wrong ones in front of
   * each, writes the file, and answers every packet.
   */
  lemma {:induction false} ClientTolerates(file: seq<Byte>, n: nat, wrong: seq<seq<ClientInput>>, sent: seq<ToServer>)
    requires LastBlocks(file, n, |wrong|)
    requires forall j, i :: 0 <= j < |wrong| && i in wrong[j] ==> WrongData(n + j, i)
    requires forall j :: 0 <= j < |wrong| ==> |wrong[j]| <= 3
    ensures var (c, out) := Receive(Client(n, 0, file[..Cut(file, n - 1)], Running), sent, ClientScript(file, n, wrong));
            c.status.Complete? && c.file == file && out == sent + AllAcks(n, wrong)
    decreases |wrong|
  {
    var acks := Copies(Ack(Wire(n - 1), true), |wrong[0]|);
    var sent1 := sent + acks;
    forall i | i in wrong[0] ensures WrongData(n, i) { assert WrongData(n + 0, i); }
    ClientBlock(file, n, wrong[0], sent, ClientScript(file, n + 1, wrong[1..]));
    Assoc(sent, acks, [Ack(Wire(n), true)]);
    Assoc(sent, acks, [Ack(Wire(n), true)] + AllAcks(n + 1, wrong[1..]));
    Assoc(sent + acks, [Ack(Wire(n), true)], AllAcks(n + 1, wrong[1..]));
    if |wrong| == 1 {
      assert wrong[1..] == [] && file[..Cut(file, n)] == file;
      assert sent1 + [Ack(Wire(n), true)] == sent + AllAcks(n, wrong);
    } else {
      forall j, i | 0 <= j < |wrong[1..]| && i in wrong[1..][j] ensures WrongData(n + 1 + j, i) {
        assert i in wrong[j + 1] && WrongData(n + (j + 1), i);
      }
      ClientTolerates(file, n + 1, wrong[1..], sent1 + [Ack(Wire(n), true)]);
    }
  }

  /** An acknowledgement other than that of block n, in a datagram of any size; the answer can be sent. */
  predicate WrongAck(n: nat, i: ServerInput) {
    Seen(i.r).Ack? && !(Seen(i.r).sized && Seen(i.r).block == Wire(n)) && i.sendOk
  }

  /** The first three are each answered by sending the block once more. */
  lemma {:induction false} WrongAcks(file: seq<Byte>, s: Server, sent: seq<ToClient>, wrong: seq<ServerInput>,
                                     rest: seq<ServerInput>)
    requires s.status.Running? && s.n >= 1 && s.retry + |wrong| <= 3 && forall i :: i in wrong ==> WrongAck(s.n, i)
    ensures Serve(file, s, sent, wrong + rest) ==
            Serve(file, s.(retry := s.retry + |wrong|), sent + Copies(Data(Wire(s.n), s.buf), |wrong|), rest)
    decreases |wrong|
  {
    if wrong == [] {
      assert wrong + rest == rest;
      assert sent + Copies(Data(Wire(s.n), s.buf), 0) == sent;
    } else {
      var again := Data(Wire(s.n), s.buf);
      assert WrongAck(s.n, wrong[0]);
      assert wrong + rest == [wrong[0]] + (wrong[1..] + rest);
      ServeOne(file, s, sent, wrong[0], wrong[1..] + rest);
      WrongAcks(file, s.(retry := s.retry + 1), sent + [again], wrong[1..], rest);
      Assoc(sent, [again], Copies(again, |wrong| - 1));
    }
  }

  function ServerScript(n: nat, wrong: seq<seq<ServerInput>>): seq<ServerInput>
    decreases |wrong|
  {
    if wrong == [] then []
    else wrong[0] + ([ServerInput(Raw(Ack(Wire(n), true)), true, true)] + ServerScript(n + 1, wrong[1..]))
  }

  /** What is sent from block n on, its first packet apart. */
  function AllData(file: seq<Byte>, n: nat, wrong: seq<seq<ServerInput>>): seq<ToClient>
    requires n >= 1
    decreases |wrong|
  {
    if wrong == [] then []
    else
      Copies(Data(Wire(n), Piece(file, n)), |wrong[0]|) +
      ((if |wrong| > 1 then [Data(Wire(n + 1), Piece(file, n + 1))] else []) + AllData(file, n + 1, wrong[1..]))
  }

  lemma RawSeen(p: ToServer)
    ensures Seen(Raw(p)) == p || (Seen(Raw(p)).Ack? && p.Ack? && !p.sized && !Seen(Raw(p)).sized)
    ensures p.Ack? && p.sized ==> Seen(Raw(p)) == p
  {
  }

  /** The right acknowledgement: the next block, or the end. */
  lemma AckTaken(file: seq<Byte>, s: Server, sent: seq<ToClient>, rest: seq<ServerInput>)
    requires s.status.Running? && s.n >= 1 && s.buf == Piece(file, s.n)
    ensures var good := ServerInput(Raw(Ack(Wire(s.n), true)), true, true);
            Serve(file, s, sent, [good] + rest) ==
            if 512 * s.n > |file| then (s.(n := s.n + 1, status := Complete), sent)
            else Serve(file, Server(s.n + 1, Piece(file, s.n + 1), 0, Running),
                       sent + [Data(Wire(s.n + 1), Piece(file, s.n + 1))], rest)
  {
    var good := ServerInput(Raw(Ack(Wire(s.n), true)), true, true);
    RawSeen(Ack(Wire(s.n), true));
    ServeOne(file, s, sent, good, rest);
    PieceLength(file, s.n);
  }

  /** One block: the wrong acknowledgements and the right one. */
  lemma ServerBlock(file: seq<Byte>, s: Server, wrong: seq<ServerInput>, sent: seq<ToClient>, good: seq<ServerInput>,
                    rest: seq<ServerInput>)
    requires s.n >= 1 && s.buf == Piece(file, s.n) && s.retry == 0 && s.status.Running?
    requires |wrong| <= 3 && forall i :: i in wrong ==> WrongAck(s.n, i)
    requires good == [ServerInput(Raw(Ack(Wire(s.n), true)), true, true)]
    ensures var again := sent + Copies(Data(Wire(s.n), s.buf), |wrong|);
            Serve(file, s, sent, wrong + (good + rest)) ==
            if 512 * s.n > |file| then (s.(n := s.n + 1, retry := |wrong|, status := Complete), again)
            else Serve(file, Server(s.n + 1, Piece(file, s.n + 1), 0, Running),
                       again + [Data(Wire(s.n + 1), Piece(file, s.n + 1))], rest)
  {
    WrongAcks(file, s, sent, wrong, good + rest);
    AckTaken(file, s.(retry := |wrong|), sent + Copies(Data(Wire(s.n), s.buf), |wrong|), rest);
  }

  /**
   * A server whose blocks are all acknowledged, with up to three wrong acknowledgements in front of each right
   * one, sends the whole file and reports completion.
   */
  lemma {:induction false} ServerTolerates(file: seq<Byte>, n: nat, wrong: seq<seq<ServerInput>>, sent: seq<ToClient>)
    requires LastBlocks(file, n, |wrong|)
    requires forall j, i :: 0 <= j < |wrong| && i in wrong[j] ==> WrongAck(n + j, i)
    requires forall j :: 0 <= j < |wrong| ==> |wrong[j]| <= 3
    ensures var (s, out) := Serve(file, Server(n, Piece(file, n), 0, Running), sent, ServerScript(n, wrong));
            s.status.Complete? && s.n == n + |wrong| && out == sent + AllData(file, n, wrong)
    decreases |wrong|
  {
    var again := Copies(Data(Wire(n), Piece(file, n)), |wrong[0]|);
    var sent1 := sent + again;
    forall i | i in wrong[0] ensures WrongAck(n, i) { assert WrongAck(n + 0, i); }
    var s := Server(n, Piece(file, n), 0, Running);
    var good := ServerInput(Raw(Ack(Wire(n), true)), true, true);
    ServerBlock(file, s, wrong[0], sent, [good], ServerScript(n + 1, wrong[1..]));
    if |wrong| == 1 {
      AllDataLast(file, n, wrong);
    } else {
      var next := [Data(Wire(n + 1), Piece(file, n + 1))];
      LaterAcks(n, wrong, wrong[1..]);
      ServerTolerates(file, n + 1, wrong[1..], sent1 + next);
      AllDataMore(file, n, wrong, sent, again, next, AllData(file, n + 1, wrong[1..]));
    }
  }

  lemma LaterAcks(n: nat, wrong: seq<seq<ServerInput>>, rest: seq<seq<ServerInput>>)
    requires wrong != [] && rest == wrong[1..]
    requires forall j, i :: 0 <= j < |wrong| && i in wrong[j] ==> WrongAck(n + j, i)
    ensures forall j, i :: 0 <= j < |rest| && i in rest[j] ==> WrongAck(n + 1 + j, i)
  {
    forall j, i | 0 <= j < |rest| && i in rest[j] ensures WrongAck(n + 1 + j, i) {
      assert i in wrong[j + 1] && WrongAck(n + (j + 1), i);
    }
  }

  lemma AllDataLast(file: seq<Byte>, n: nat, wrong: seq<seq<ServerInput>>)
    requires n >= 1 && |wrong| == 1
    ensures wrong[1..] == [] && AllData(file, n, wrong) == Copies(Data(Wire(n), Piece(file, n)), |wrong[0]|)
  {
    assert AllData(file, n + 1, wrong[1..]) == [];
  }

  lemma AllDataMore(file: seq<Byte>, n: nat, wrong: seq<seq<ServerInput>>, sent: seq<ToClient>, again: seq<ToClient>,
                    next: seq<ToClient>, rest: seq<ToClient>)
    requires n >= 1 && |wrong| > 1 && again == Copies(Data(Wire(n), Piece(file, n)), |wrong[0]|)
    requires next == [Data(Wire(n + 1), Piece(file, n + 1))] && rest == AllData(file, n + 1, wrong[1..])
    ensures ((sent + again) + next) + rest == sent + AllData(file, n, wrong)
  {
    assert AllData(file, n, wrong) == again + (next + rest);
    Assoc(sent, again, next + rest);
    Assoc(sent + again, next, rest);
  }
}
