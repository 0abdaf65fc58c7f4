/**
 * Wake-up of threads blocked in lwip_select or lwip_poll (api/sockets.c) in the configuration without
 * core locking: the waiter list is protected by a short critical section that select_check_waiters
 * opens between any two entries, and a generation counter tells it to start over.
 *
 * Threads calling select and poll, callers of event_callback and the list walks they start are
 * interleaved at every unlock. Sockets stay open.
 */
module SelectWakeup {
  import opened Basics
  import opened Wrappers
  import opened SelectList

  /** struct lwip_sock, as far as select looks at it, and the mailbox of its connection. */
  datatype Sock = Sock(rcvevent: int, sendevent: bool, errevent: bool, waiting: nat, box: Box)

  /**
   * Messages in the mailbox, messages for which NETCONN_EVT_RCVPLUS is still to come, whether one has been
   * taken for which NETCONN_EVT_RCVMINUS is still to come, and whether the connection has failed, or its
   * receiving side has been closed behind a FIN: both raise a NETCONN_EVT_RCVPLUS of their own. `ended`: the
   * failure was ERR_CLSD, and has then been posted as a message that is taken like a FIN. `kept`: a short recv
   * has left data over in lastdata.
   */
  datatype Box = Box(queued: nat, owed: nat, taken: bool, broken: bool, shut: bool, ended: bool, kept: bool)

  datatype Kind = Read | Write | Except

  /** The three fd sets of one select call, or the fds of a poll call by the events asked for. */
  datatype Watch = Watch(rd: set<nat>, wr: set<nat>, ex: set<nat>)

  function Fds(w: Watch): set<nat> { w.rd + w.wr + w.ex }

  function SetOf(w: Watch, k: Kind): set<nat> {
    match k case Read => w.rd case Write => w.wr case Except => w.ex
  }

  predicate Ready(s: Sock, k: Kind) {
    match k case Read => s.rcvevent > 0 case Write => s.sendevent case Except => s.errevent
  }

  /** Where a call is: raising select_waiting, in its second scan, blocked, or leaving. */
  datatype Pc = Entering | Scanning | Waiting | Leaving

  /**
   * A select or poll call with its select_cb; `raised` are the sockets whose select_waiting it has raised and
   * will lower. `past` is history.
   */
  datatype Call = Call(poll: bool, pc: Pc, watch: Watch, raised: set<nat>, scanned: set<nat>, found: bool,
                       signalled: bool, sem: nat, past: Past)

  /**
   * What the sockets had to offer when the call looked at them, the events of the walk that has signalled it,
   * and how often it has taken its semaphore.
   */
  datatype Past = Past(offered: set<(nat, Kind)>, cause: set<(nat, Kind)>, waits: nat)

  /** A select_check_waiters walk: about to take the lock, or between two entries. */
  datatype Place = Fresh | Behind(entry: nat, lastCtr: int)
  datatype Walk = Walk(fd: nat, flags: set<Kind>, place: Place)

  datatype State = State(
    socks: map<nat, Sock>,
    calls: map<nat, Call>,
    walks: map<nat, Walk>,
    list: seq<nat>,
    ctr: int)

  // ---------------------------------------------------------------- select

  datatype SelectStep =
    | Link(t: nat, watch: Watch, poll: bool) // lwip_link_select_cb
    | Raise(t: nat, i: nat)        // select_waiting++
    | PollScan(t: nat, i: nat) // both at once, in lwip_pollscan
    | StartScan(t: nat)
    | Scan(t: nat, i: nat)
    | EndScan(t: nat)
    | Wake(t: nat)                 // sys_arch_sem_wait returns
    | Timeout(t: nat)
    | Lower(t: nat, i: nat)        // select_waiting--
    | Unlink(t: nat)               // lwip_unlink_select_cb

  /** SELWAIT_T is u8_t. */
  const MAX_WAITING: nat := 255

  predicate SelectEnabled(s: State, a: SelectStep) {
    match a
    case Link(t, w, poll) => t !in s.calls && Fds(w) <= s.socks.Keys && (poll ==> w.ex == Fds(w))
    case PollScan(t, i) =>
      && t in s.calls && s.calls[t].poll && s.calls[t].pc == Entering
      && i in Fds(s.calls[t].watch) - s.calls[t].raised && i in s.socks
    case Raise(t, i) =>
      && t in s.calls && !s.calls[t].poll && s.calls[t].pc == Entering
      && i in Fds(s.calls[t].watch) - s.calls[t].raised && i in s.socks
    case StartScan(t) =>
      && t in s.calls && !s.calls[t].poll && s.calls[t].pc == Entering
      && s.calls[t].raised == Fds(s.calls[t].watch)
    case Scan(t, i) =>
      t in s.calls && s.calls[t].pc == Scanning && i in Fds(s.calls[t].watch) - s.calls[t].scanned && i in s.socks
    case EndScan(t) =>
      && t in s.calls && s.calls[t].pc == (if s.calls[t].poll then Entering else Scanning)
      && s.calls[t].scanned == Fds(s.calls[t].watch)
    case Wake(t) => t in s.calls && s.calls[t].pc == Waiting && s.calls[t].sem > 0
    case Timeout(t) => t in s.calls && s.calls[t].pc == Waiting
    case Lower(t, i) => t in s.calls && s.calls[t].pc == Leaving && i in s.calls[t].raised && i in s.socks
    case Unlink(t) => t in s.calls && s.calls[t].pc == Leaving && s.calls[t].raised == {}
  }

  /** lwip_selscan for one socket. */
  predicate ScanFinds(sock: Sock, w: Watch, i: nat) {
    || (i in w.rd && (sock.box.kept || sock.rcvevent > 0))
    || (i in w.wr && sock.sendevent)
    || (i in w.ex && sock.errevent)
  }

  /** What a socket has to offer to whoever looks at it: to read, to write, an exception. */
  function Offers(i: nat, sock: Sock): set<(nat, Kind)> {
    (if sock.rcvevent > 0 || sock.box.kept then {(i, Read)} else {}) + (if sock.sendevent then {(i, Write)} else {}) +
    (if sock.errevent then {(i, Except)} else {})
  }

  function Looked(past: Past, i: nat, sock: Sock): Past {
    past.(offered := past.offered + Offers(i, sock))
  }

  function DoSelect(s: State, a: SelectStep): State
    requires SelectEnabled(s, a)
  {
    match a
    case Link(t, w, poll) =>
      s.(calls := s.calls[t := Call(poll, Entering, w, {}, {}, false, false, 0, Past({}, {}, 0))],
         list := [t] + s.list, ctr := s.ctr + 1)
    case Raise(t, i) =>
      if s.socks[i].waiting == MAX_WAITING then s.(calls := s.calls[t := s.calls[t].(pc := Leaving)])
      else
        s.(calls := s.calls[t := s.calls[t].(raised := s.calls[t].raised + {i})],
           socks := s.socks[i := s.socks[i].(waiting := s.socks[i].waiting + 1)])
    case PollScan(t, i) =>
      var c := s.calls[t];
      // On overflow lwip_poll leaves by a scan that lowers select_waiting of all its sockets.
      if s.socks[i].waiting == MAX_WAITING then s.(calls := s.calls[t := c.(pc := Leaving, raised := Fds(c.watch))])
      else
        s.(calls := s.calls[t := c.(raised := c.raised + {i}, scanned := c.scanned + {i},
                                    found := c.found || ScanFinds(s.socks[i], c.watch, i),
                                    past := Looked(c.past, i, s.socks[i]))],
           socks := s.socks[i := s.socks[i].(waiting := s.socks[i].waiting + 1)])
    case StartScan(t) => s.(calls := s.calls[t := s.calls[t].(pc := Scanning)])
    case Scan(t, i) =>
      var c := s.calls[t];
      s.(calls := s.calls[t := c.(scanned := c.scanned + {i},
                                  found := c.found || ScanFinds(s.socks[i], c.watch, i),
                                  past := Looked(c.past, i, s.socks[i]))])
    case EndScan(t) => s.(calls := s.calls[t := s.calls[t].(pc := if s.calls[t].found then Leaving else Waiting)])
    case Wake(t) =>
      var c := s.calls[t];
      s.(calls := s.calls[t := c.(pc := Leaving, sem := c.sem - 1, past := c.past.(waits := c.past.waits + 1))])
    case Timeout(t) => s.(calls := s.calls[t := s.calls[t].(pc := Leaving)])
    case Lower(t, i) =>
      s.(calls := s.calls[t := s.calls[t].(raised := s.calls[t].raised - {i})],
         socks := s.socks[i := s.socks[i].(waiting := if s.socks[i].waiting > 0 then s.socks[i].waiting - 1 else 0)])
    case Unlink(t) => s.(calls := s.calls - {t}, list := Without(s.list, t), ctr := s.ctr + 1)
  }

  // ---------------------------------------------------------------- event_callback

  /** RcvBreak and RcvShut are the NETCONN_EVT_RCVPLUS that no message in the mailbox has caused. */
  datatype Event = RcvPlus | RcvBreak | RcvShut | RcvMinus | SendPlus | SendMinus | Error

  /** rcvevent is s16_t. */
  function S16(x: int): int {
    if x > 32767 then x - 65536 else if x < -32768 then x + 65536 else x
  }

  /** When the connection raises an event. */
  predicate Raised(box: Box, e: Event) {
    match e
    case RcvPlus => box.owed > 0
    case RcvBreak => !box.broken
    case RcvShut => !box.shut && box.queued == 0 && box.owed == 0 && !box.taken
    case RcvMinus => box.taken
    case _ => true
  }

  function Announced(box: Box, e: Event): Box {
    match e
    case RcvPlus => if box.owed > 0 then box.(owed := box.owed - 1) else box
    case RcvBreak => box.(broken := true)
    case RcvShut => box.(shut := true)
    case RcvMinus => box.(taken := false)
    case _ => box
  }

  /**
   * A message is posted, unless the mailbox is full, or taken. At most one event of the connection is
   * outstanding beside those of lwip_accept, and there is one reader at a time. ERR_CLSD is posted behind
   * its event. What a short recv keeps is used by later ones.
   */
  datatype Mail = Post | PostEnd | Take | Keep | Use

  predicate MailEnabled(cap: nat, box: Box, m: Mail) {
    match m
    case Post => box.queued < cap && box.owed <= cap && !box.shut
    case PostEnd => box.queued < cap && box.broken && !box.ended && !box.shut
    case Take => box.queued > 0 && !box.taken
    case Keep => !box.kept
    case Use => box.kept
  }

  function DoMail(box: Box, m: Mail): Box
    requires m.Take? ==> box.queued > 0
  {
    match m
    case Post => box.(queued := box.queued + 1, owed := box.owed + 1)
    case PostEnd => box.(queued := box.queued + 1, ended := true)
    case Take => box.(queued := box.queued - 1, taken := true)
    case Keep => box.(kept := true)
    case Use => box.(kept := false)
  }

  /** The switch in event_callback: the socket afterwards, and whether waiters have to be checked. */
  function Apply(sock: Sock, e: Event): (r: (Sock, bool))
    ensures r.0.waiting == sock.waiting
  {
    var box := Announced(sock.box, e);
    match e
    case RcvPlus => var n := S16(sock.rcvevent + 1); (sock.(rcvevent := n, box := box), n <= 1)
    case RcvBreak => var n := S16(sock.rcvevent + 1); (sock.(rcvevent := n, box := box), n <= 1)
    case RcvShut => var n := S16(sock.rcvevent + 1); (sock.(rcvevent := n, box := box), n <= 1)
    case RcvMinus => (sock.(rcvevent := S16(sock.rcvevent - 1), box := box), false)
    case SendPlus => (sock.(sendevent := true), !sock.sendevent)
    case SendMinus => (sock.(sendevent := false), false)
    case Error => (sock.(errevent := true), true)
  }

  function Flags(sock: Sock): set<Kind> {
    (if Ready(sock, Read) then {Read} else {}) + (if Ready(sock, Write) then {Write} else {}) +
    (if Ready(sock, Except) then {Except} else {})
  }

  /** The 16-bit receive counter does not wrap from its minimum to its maximum. */
  predicate NoUnderflow(sock: Sock, e: Event) {
    e == RcvMinus ==> sock.rcvevent != -32768
  }

  predicate EventEnabled(s: State, w: nat, i: nat, e: Event) {
    i in s.socks && w !in s.walks && Raised(s.socks[i].box, e)
  }

  /** rcvevent holds an s16_t. */
  predicate InRange(sock: Sock) { -32768 <= sock.rcvevent <= 32767 }

  function DoEvent(s: State, w: nat, i: nat, e: Event): State
    requires i in s.socks && w !in s.walks
  {
    var (sock, check) := Apply(s.socks[i], e);
    var s' := s.(socks := s.socks[i := sock]);
    if sock.waiting > 0 && check then s'.(walks := s.walks[w := Walk(i, Flags(sock), Fresh)]) else s'
  }

  // ---------------------------------------------------------------- select_check_waiters

  predicate Matches(w: Watch, fd: nat, flags: set<Kind>) {
    || (Read in flags && fd in w.rd)
    || (Write in flags && fd in w.wr)
    || (Except in flags && fd in w.ex)
  }

  /** Signal the waiter unless it has been signalled already. */
  function Visit(c: Call, fd: nat, flags: set<Kind>): Call {
    if !c.signalled && Matches(c.watch, fd, flags) then
      c.(signalled := true, sem := c.sem + 1, past := c.past.(cause := set k | k in flags :: (fd, k)))
    else c
  }

  /** The entry a walk looks at next: the head after a change of the list, else the successor. */
  function NextEntry(s: State, w: nat): Option<nat>
    requires w in s.walks
  {
    match s.walks[w].place
    case Fresh => At(s.list, 0)
    case Behind(entry, last) => if last != s.ctr then At(s.list, 0) else Successor(s.list, entry)
  }

  predicate WalkEnabled(s: State, w: nat) {
    w in s.walks && (NextEntry(s, w).Some? ==> NextEntry(s, w).value in s.calls)
  }

  function DoWalk(s: State, w: nat): State
    requires WalkEnabled(s, w)
  {
    var walk := s.walks[w];
    match NextEntry(s, w)
    case None => s.(walks := s.walks - {w})
    case Some(t) =>
      s.(calls := s.calls[t := Visit(s.calls[t], walk.fd, walk.flags)],
         walks := s.walks[w := walk.(place := Behind(t, s.ctr))])
  }

  // ---------------------------------------------------------------- invariant

  /** The calls that have raised select_waiting of socket i. */
  function Raisers(s: State, i: nat): set<nat> {
    set t | t in s.calls && i in s.calls[t].raised
  }

  ghost predicate CountedAt(s: State, i: nat) {
    i in s.socks ==> s.socks[i].waiting == |Raisers(s, i)|
  }

  ghost predicate CallOk(s: State, t: nat) {
    t in s.calls ==>
      var c := s.calls[t];
      && t in s.list
      && c.raised <= Fds(c.watch) <= s.socks.Keys
      && (c.poll ==> c.watch.ex == Fds(c.watch) && c.pc != Scanning)
      && (c.pc == Scanning || c.pc == Waiting ==> c.raised == Fds(c.watch) && c.scanned <= Fds(c.watch))
      && (c.pc == Entering ==> if c.poll then c.scanned == c.raised else c.scanned == {} && !c.found)
      && (c.pc == Waiting ==> c.scanned == Fds(c.watch) && !c.found)
      && (c.pc != Leaving ==> c.sem == (if c.signalled then 1 else 0))
  }

  /** A walk whose counter is current stands on a linked entry. */
  ghost predicate WalkOk(s: State, w: nat) {
    w in s.walks && s.walks[w].place.Behind? ==>
      s.walks[w].place.lastCtr <= s.ctr && (s.walks[w].place.lastCtr == s.ctr ==> s.walks[w].place.entry in s.list)
  }

  /** The walk has not passed entry t, or has to start over. */
  predicate Bound(s: State, w: nat, t: nat) {
    && w in s.walks
    && match s.walks[w].place
       case Fresh => true
       case Behind(entry, last) => last != s.ctr || IndexOf(s.list, entry) < IndexOf(s.list, t)
  }

  /** Call t has looked at socket i, found nothing, and will block or has blocked on it. */
  predicate Relies(s: State, t: nat, i: nat) {
    && t in s.calls && s.calls[t].pc != Leaving
    && !s.calls[t].found && i in s.calls[t].scanned
  }

  /** A walk for socket i that knows of the event and is bound to visit t. */
  ghost predicate Coming(s: State, t: nat, i: nat, k: Kind) {
    exists w :: Bound(s, w, t) && s.walks[w].fd == i && k in s.walks[w].flags
  }

  /** No lost wake-up: an event on a socket that t relies on has signalled t or is on its way. */
  ghost predicate Covered(s: State, t: nat, i: nat, k: Kind) {
    Relies(s, t, i) && i in s.socks && i in SetOf(s.calls[t].watch, k) && Ready(s.socks[i], k) ==>
      s.calls[t].signalled || Coming(s, t, i, k)
  }

  ghost predicate Inv(s: State) {
    && Distinct(s.list)
    && (forall t :: t in s.list ==> t in s.calls)
    && (forall t :: CallOk(s, t))
    && (forall w :: WalkOk(s, w))
    && (forall i :: i in s.socks ==> InRange(s.socks[i]))
    && (forall i :: CountedAt(s, i))
    && (forall t, i, k :: Covered(s, t, i, k))
  }

  // ---------------------------------------------------------------- preservation: select

  ghost predicate Shape(s: State) {
    && Distinct(s.list)
    && (forall t :: t in s.list ==> t in s.calls)
    && (forall t :: CallOk(s, t))
    && (forall w :: WalkOk(s, w))
    && (forall i :: i in s.socks ==> InRange(s.socks[i]))
  }

  lemma CallOkSelect(s: State, a: SelectStep, t: nat)
    requires Distinct(s.list) && CallOk(s, t) && SelectEnabled(s, a)
    ensures CallOk(DoSelect(s, a), t)
  {
    match a
    case Unlink(u) => WithoutMembers(s.list, u, t);
    case PollScan(u, i) => CallOkPoll(s, u, i, t);
    case _ => CallOkOther(s, a, t);
  }

  lemma CallOkPoll(s: State, u: nat, i: nat, t: nat)
    requires CallOk(s, t) && SelectEnabled(s, PollScan(u, i))
    ensures CallOk(DoSelect(s, PollScan(u, i)), t)
  {
  }

  lemma CallOkOther(s: State, a: SelectStep, t: nat)
    requires CallOk(s, t) && SelectEnabled(s, a) && !a.Unlink? && !a.PollScan?
    ensures CallOk(DoSelect(s, a), t)
  {
  }

  lemma ListSelect(s: State, a: SelectStep)
    requires Shape(s) && SelectEnabled(s, a)
    ensures var s' := DoSelect(s, a); Distinct(s'.list) && forall t :: t in s'.list ==> t in s'.calls
  {
    var s' := DoSelect(s, a);
    if a.Unlink? {
      WithoutMembers(s.list, a.t, a.t);
      forall x: nat | x in s'.list ensures x in s'.calls { WithoutMembers(s.list, a.t, x); }
    }
  }

  lemma ShapeSelect(s: State, a: SelectStep)
    requires Shape(s) && SelectEnabled(s, a)
    ensures Shape(DoSelect(s, a))
  {
    var s' := DoSelect(s, a);
    ListSelect(s, a);
    forall t: nat ensures CallOk(s', t) {
      assert CallOk(s, t);
      CallOkSelect(s, a, t);
    }
    forall w: nat ensures WalkOk(s', w) { assert WalkOk(s, w); }
  }

  /** A step that changes neither raised sets nor counters. */
  lemma RaisersSame(s: State, s': State, i: nat)
    requires CountedAt(s, i)
    requires s'.calls.Keys >= s.calls.Keys
    requires forall t :: t in s'.calls ==>
               if t in s.calls then s'.calls[t].raised == s.calls[t].raised else s'.calls[t].raised == {}
    requires i in s'.socks ==> i in s.socks && s'.socks[i].waiting == s.socks[i].waiting
    ensures CountedAt(s', i)
  {
    assert Raisers(s', i) == Raisers(s, i);
  }

  /** select_waiting does not overflow while lwip_poll raises it. */
  predicate NoOverflow(s: State, a: SelectStep) {
    a.PollScan? && a.i in s.socks ==> s.socks[a.i].waiting < MAX_WAITING
  }

  /** Call t raises select_waiting of socket j. */
  lemma RaisersPlus(s: State, s': State, t: nat, j: nat, i: nat)
    requires CountedAt(s, i) && t in s.calls && s'.calls.Keys == s.calls.Keys && j !in s.calls[t].raised
    requires forall u :: u in s.calls && u != t ==> s'.calls[u].raised == s.calls[u].raised
    requires s'.calls[t].raised == s.calls[t].raised + {j}
    requires i in s'.socks ==>
               i in s.socks && s'.socks[i].waiting == s.socks[i].waiting + (if i == j then 1 else 0)
    ensures CountedAt(s', i)
  {
    if i == j {
      assert t !in Raisers(s, i) && Raisers(s', i) == Raisers(s, i) + {t};
    } else {
      assert Raisers(s', i) == Raisers(s, i);
    }
  }

  lemma CountedPoll(s: State, t: nat, j: nat, i: nat)
    requires CountedAt(s, i) && SelectEnabled(s, PollScan(t, j)) && NoOverflow(s, PollScan(t, j))
    ensures CountedAt(DoSelect(s, PollScan(t, j)), i)
  {
    RaisersPlus(s, DoSelect(s, PollScan(t, j)), t, j, i);
  }

  lemma CountedRaise(s: State, t: nat, j: nat, i: nat)
    requires CountedAt(s, i) && SelectEnabled(s, Raise(t, j))
    ensures CountedAt(DoSelect(s, Raise(t, j)), i)
  {
    if s.socks[j].waiting == MAX_WAITING {
      RaisersSame(s, DoSelect(s, Raise(t, j)), i);
    } else {
      RaisersPlus(s, DoSelect(s, Raise(t, j)), t, j, i);
    }
  }

  lemma CountedLower(s: State, t: nat, j: nat, i: nat)
    requires CountedAt(s, i) && SelectEnabled(s, Lower(t, j))
    ensures CountedAt(DoSelect(s, Lower(t, j)), i)
  {
    var s' := DoSelect(s, Lower(t, j));
    if i == j {
      assert t in Raisers(s, i) && Raisers(s', i) == Raisers(s, i) - {t};
    } else {
      assert Raisers(s', i) == Raisers(s, i);
    }
  }

  lemma CountedSelect(s: State, a: SelectStep, i: nat)
    requires CountedAt(s, i) && SelectEnabled(s, a) && NoOverflow(s, a)
    ensures CountedAt(DoSelect(s, a), i)
  {
    match a
    case PollScan(t, j) => CountedPoll(s, t, j, i);
    case Raise(t, j) => CountedRaise(s, t, j, i);
    case Lower(t, j) => CountedLower(s, t, j, i);
    case Unlink(t) => assert Raisers(DoSelect(s, a), i) == Raisers(s, i);
    case _ => CountedOther(s, a, i);
  }

  lemma CountedOther(s: State, a: SelectStep, i: nat)
    requires CountedAt(s, i) && SelectEnabled(s, a) && !a.PollScan? && !a.Raise? && !a.Lower? && !a.Unlink?
    ensures CountedAt(DoSelect(s, a), i)
  {
    RaisersSame(s, DoSelect(s, a), i);
  }

  /** What a walk is bound to do survives every step of the select calls. */
  lemma ComingKept(s: State, s': State, t: nat, i: nat, k: Kind)
    requires Shape(s) && Coming(s, t, i, k) && s'.walks == s.walks
    requires (s'.list == s.list && s'.ctr == s.ctr) || s'.ctr == s.ctr + 1
    ensures Coming(s', t, i, k)
  {
    var w :| Bound(s, w, t) && s.walks[w].fd == i && k in s.walks[w].flags;
    assert WalkOk(s, w);
    assert Bound(s', w, t);
  }

  lemma CoveredSelect(s: State, a: SelectStep, t: nat, i: nat, k: Kind)
    requires Shape(s) && Covered(s, t, i, k) && SelectEnabled(s, a)
    ensures Covered(DoSelect(s, a), t, i, k)
  {
    var s' := DoSelect(s, a);
    assert CallOk(s, t);
    if Coming(s, t, i, k) {
      ComingKept(s, s', t, i, k);
    }
  }

  lemma SelectInv(s: State, a: SelectStep)
    requires Inv(s) && SelectEnabled(s, a) && NoOverflow(s, a)
    ensures Inv(DoSelect(s, a))
  {
    ShapeSelect(s, a);
    var s' := DoSelect(s, a);
    forall i: nat ensures CountedAt(s', i) { CountedSelect(s, a, i); }
    forall t: nat, i: nat, k: Kind ensures Covered(s', t, i, k) {
      assert Covered(s, t, i, k);
      CoveredSelect(s, a, t, i, k);
    }
  }

  // ---------------------------------------------------------------- every call gets on

  /** How much a call still has to do before it blocks or returns. */
  function Todo(c: Call): int {
    var n := |Fds(c.watch)|;
    match c.pc
    case Entering => 3 * n + 4 + |Fds(c.watch) - c.raised|
    case Scanning => 2 * n + 3 + |Fds(c.watch) - c.scanned|
    case Waiting => n + 2
    case Leaving => |c.raised|
  }

  lemma Fewer(a: set<nat>, b: set<nat>, i: nat)
    requires i in a && i !in b
    ensures |a - (b + {i})| < |a - b|
  {
    assert a - (b + {i}) == (a - b) - {i};
  }

  lemma Missing(a: set<nat>, b: set<nat>)
    requires b <= a && a != b
    ensures a - b != {}
  {
    var x :| x in a && x !in b;
    assert x in a - b;
  }

  /** Step a is open to call t, and brings it closer to blocking or returning. */
  predicate Advances(s: State, t: nat, a: SelectStep)
    requires t in s.calls
  {
    && SelectEnabled(s, a)
    && (t in DoSelect(s, a).calls ==> 0 <= Todo(DoSelect(s, a).calls[t]) < Todo(s.calls[t]))
  }

  lemma TodoRaise(c: Call, c': Call, i: nat)
    requires c.pc == Entering && c.raised <= Fds(c.watch) && i in Fds(c.watch) - c.raised && c'.watch == c.watch
    requires (c'.pc == Leaving && c'.raised <= Fds(c.watch)) || (c'.pc == Entering && c'.raised == c.raised + {i})
    ensures 0 <= Todo(c') < Todo(c)
  {
    SubsetSize(c'.raised, Fds(c.watch));
    Fewer(Fds(c.watch), c.raised, i);
  }

  lemma TodoScan(c: Call, c': Call, i: nat)
    requires c.pc == c'.pc == Scanning && i in Fds(c.watch) - c.scanned && c'.watch == c.watch
    requires c'.scanned == c.scanned + {i}
    ensures 0 <= Todo(c') < Todo(c)
  {
    Fewer(Fds(c.watch), c.scanned, i);
  }

  lemma RaiseAdvances(s: State, t: nat, i: nat)
    requires SelectEnabled(s, Raise(t, i)) && CallOk(s, t)
    ensures Advances(s, t, Raise(t, i))
  {
    TodoRaise(s.calls[t], DoSelect(s, Raise(t, i)).calls[t], i);
  }

  lemma PollScanAdvances(s: State, t: nat, i: nat)
    requires SelectEnabled(s, PollScan(t, i)) && CallOk(s, t)
    ensures Advances(s, t, PollScan(t, i))
  {
    TodoRaise(s.calls[t], DoSelect(s, PollScan(t, i)).calls[t], i);
  }

  lemma RaisedAdvances(s: State, t: nat) returns (a: SelectStep)
    requires CallOk(s, t) && t in s.calls && s.calls[t].pc == Entering && s.calls[t].raised == Fds(s.calls[t].watch)
    ensures Advances(s, t, a)
  {
    var c := s.calls[t];
    a := if c.poll then EndScan(t) else StartScan(t);
    SubsetSize(Fds(c.watch) - c.scanned, Fds(c.watch));
  }

  lemma EnteringAdvances(s: State, t: nat) returns (a: SelectStep)
    requires CallOk(s, t) && t in s.calls && s.calls[t].pc == Entering
    ensures Advances(s, t, a)
  {
    var c := s.calls[t];
    var all := Fds(c.watch);
    if c.raised == all {
      a := RaisedAdvances(s, t);
    } else {
      Missing(all, c.raised);
      var i :| i in all - c.raised;
      if c.poll {
        a := PollScan(t, i);
        PollScanAdvances(s, t, i);
      } else {
        a := Raise(t, i);
        RaiseAdvances(s, t, i);
      }
    }
  }

  lemma ScanningAdvances(s: State, t: nat) returns (a: SelectStep)
    requires CallOk(s, t) && t in s.calls && s.calls[t].pc == Scanning
    ensures Advances(s, t, a)
  {
    var c := s.calls[t];
    var all := Fds(c.watch);
    if c.scanned != all {
      Missing(all, c.scanned);
      var i :| i in all - c.scanned;
      a := Scan(t, i);
      TodoScan(c, DoSelect(s, a).calls[t], i);
    } else {
      a := EndScan(t);
    }
  }

  lemma LeavingAdvances(s: State, t: nat) returns (a: SelectStep)
    requires CallOk(s, t) && t in s.calls && s.calls[t].pc == Leaving
    ensures Advances(s, t, a)
  {
    var c := s.calls[t];
    if c.raised != {} {
      var i :| i in c.raised;
      a := Lower(t, i);
    } else {
      a := Unlink(t);
    }
  }

  /**
   * A call of select or poll that is not blocked can always make a step, also when select_waiting is full, and
   * comes closer to blocking or returning by it.
   */
  lemma CallProgress(s: State, t: nat) returns (a: SelectStep)
    requires Inv(s) && t in s.calls && s.calls[t].pc != Waiting
    ensures Advances(s, t, a)
  {
    assert CallOk(s, t);
    match s.calls[t].pc
    case Entering => a := EnteringAdvances(s, t);
    case Scanning => a := ScanningAdvances(s, t);
    case Leaving => a := LeavingAdvances(s, t);
  }

  // ---------------------------------------------------------------- what a scan and a walk tell

  /** Something of the kinds that the call watches is among these. */
  ghost predicate Concerns(w: Watch, what: set<(nat, Kind)>) {
    exists i, k :: (i, k) in what && i in SetOf(w, k)
  }

  /**
   * The scan has found something exactly if one of the sockets had something to offer that the call watches,
   * left-over data included; a call blocks only after having looked at all its sockets; it is signalled only
   * by a walk for something it watches, once, and takes the semaphore at most once.
   */
  ghost predicate Truthful(c: Call) {
    && (c.found <==> Concerns(c.watch, c.past.offered))
    && (c.pc == Waiting ==> !c.found && c.scanned == Fds(c.watch))
    && (c.signalled ==> Concerns(c.watch, c.past.cause))
    && c.sem + c.past.waits == if c.signalled then 1 else 0
  }

  ghost predicate AllTruthful(s: State) {
    forall t :: t in s.calls ==> Truthful(s.calls[t])
  }

  lemma FindsExact(sock: Sock, w: Watch, i: nat)
    ensures ScanFinds(sock, w, i) <==> Concerns(w, Offers(i, sock))
  {
    if ScanFinds(sock, w, i) {
      var k := if i in w.rd && (sock.box.kept || sock.rcvevent > 0) then Read
               else if i in w.wr && sock.sendevent then Write else Except;
      assert (i, k) in Offers(i, sock) && i in SetOf(w, k);
    }
  }

  lemma ConcernsMore(w: Watch, a: set<(nat, Kind)>, b: set<(nat, Kind)>)
    ensures Concerns(w, a + b) <==> Concerns(w, a) || Concerns(w, b)
  {
    if Concerns(w, a) {
      var i, k :| (i, k) in a && i in SetOf(w, k);
      assert (i, k) in a + b;
    }
    if Concerns(w, b) {
      var i, k :| (i, k) in b && i in SetOf(w, k);
      assert (i, k) in a + b;
    }
  }

  lemma MatchesExact(w: Watch, fd: nat, flags: set<Kind>)
    ensures Matches(w, fd, flags) <==> Concerns(w, set k | k in flags :: (fd, k))
  {
    var what := set k | k in flags :: (fd, k);
    if Matches(w, fd, flags) {
      var k := if Read in flags && fd in w.rd then Read else if Write in flags && fd in w.wr then Write else Except;
      assert (fd, k) in what && fd in SetOf(w, k);
    }
  }

  lemma TruthfulScan(c: Call, i: nat, sock: Sock, c': Call)
    requires Truthful(c) && c.pc != Waiting && c'.pc != Waiting
    requires c'.watch == c.watch && c'.signalled == c.signalled && c'.sem == c.sem && c'.past == Looked(c.past, i, sock)
    requires c'.found == (c.found || ScanFinds(sock, c.watch, i))
    ensures Truthful(c')
  {
    FindsExact(sock, c.watch, i);
    ConcernsMore(c.watch, c.past.offered, Offers(i, sock));
  }

  lemma TruthfulSelect(s: State, a: SelectStep, t: nat)
    requires (t in s.calls ==> Truthful(s.calls[t])) && SelectEnabled(s, a)
    ensures t in DoSelect(s, a).calls ==> Truthful(DoSelect(s, a).calls[t])
  {
    var s' := DoSelect(s, a);
    if t in s'.calls && t in s.calls && (a.Scan? || a.PollScan?) && s'.calls[t].past != s.calls[t].past {
      TruthfulScan(s.calls[t], a.i, s.socks[a.i], s'.calls[t]);
    }
  }

  lemma TruthfulWalk(s: State, w: nat, t: nat)
    requires (t in s.calls ==> Truthful(s.calls[t])) && WalkEnabled(s, w)
    ensures t in DoWalk(s, w).calls ==> Truthful(DoWalk(s, w).calls[t])
  {
    if t in s.calls {
      MatchesExact(s.calls[t].watch, s.walks[w].fd, s.walks[w].flags);
    }
  }

  // ---------------------------------------------------------------- preservation: events

  /** An event that makes a socket ready always asks for the waiters to be checked. */
  lemma NewlyReady(sock: Sock, e: Event, k: Kind)
    requires InRange(sock) && NoUnderflow(sock, e) && !Ready(sock, k) && Ready(Apply(sock, e).0, k)
    ensures Apply(sock, e).1 && k in Flags(Apply(sock, e).0)
  {
  }

  /** ... and only an underflow of the receive counter makes a socket ready behind everybody's back. */
  lemma SilentlyReadyExact(sock: Sock, e: Event)
    requires InRange(sock)
    ensures NoUnderflow(sock, e) <==>
            forall k :: !Ready(sock, k) && Ready(Apply(sock, e).0, k) ==> Apply(sock, e).1
  {
    if !NoUnderflow(sock, e) {
      assert !Ready(sock, Read) && Ready(Apply(sock, e).0, Read);
    }
  }

  /** A socket somebody relies on has a non-zero select_waiting. */
  lemma RelierCounted(s: State, t: nat, i: nat)
    requires CallOk(s, t) && CountedAt(s, i) && Relies(s, t, i) && i in s.socks
    ensures s.socks[i].waiting > 0
  {
    assert t in Raisers(s, i);
  }

  lemma CoveredEvent(s: State, w: nat, i: nat, e: Event, t: nat, j: nat, k: Kind)
    requires Shape(s) && CountedAt(s, j) && Covered(s, t, j, k) && EventEnabled(s, w, i, e)
    requires NoUnderflow(s.socks[i], e)
    ensures Covered(DoEvent(s, w, i, e), t, j, k)
  {
    var s' := DoEvent(s, w, i, e);
    if Relies(s, t, j) && j in s.socks && j in SetOf(s.calls[t].watch, k) && Ready(s'.socks[j], k) && !s.calls[t].signalled {
      if Ready(s.socks[j], k) {
        var v :| Bound(s, v, t) && s.walks[v].fd == j && k in s.walks[v].flags;
        assert Bound(s', v, t);
      } else {
        assert CallOk(s, t);
        RelierCounted(s, t, j);
        NewlyReady(s.socks[j], e, k);
        assert Bound(s', w, t);
      }
    }
  }

  lemma ShapeEvent(s: State, w: nat, i: nat, e: Event)
    requires Shape(s) && EventEnabled(s, w, i, e)
    requires NoUnderflow(s.socks[i], e)
    ensures Shape(DoEvent(s, w, i, e))
  {
    var s' := DoEvent(s, w, i, e);
    assert s'.socks.Keys == s.socks.Keys;
    forall t: nat ensures CallOk(s', t) { assert CallOk(s, t); }
    forall v: nat ensures WalkOk(s', v) { assert WalkOk(s, v); }
  }

  lemma EventInv(s: State, w: nat, i: nat, e: Event)
    requires Inv(s) && EventEnabled(s, w, i, e)
    requires NoUnderflow(s.socks[i], e)
    ensures Inv(DoEvent(s, w, i, e))
  {
    ShapeEvent(s, w, i, e);
    var s' := DoEvent(s, w, i, e);
    forall j: nat ensures CountedAt(s', j) {
      assert CountedAt(s, j);
      RaisersSame(s, s', j);
    }
    forall t: nat, j: nat, k: Kind ensures Covered(s', t, j, k) {
      assert Covered(s, t, j, k) && CountedAt(s, j);
      CoveredEvent(s, w, i, e, t, j, k);
    }
  }

  // ---------------------------------------------------------------- preservation: walks

  /** The walk is never sent to an entry that is not linked: with a current counter it stands on one. */
  lemma NeverUnlinked(s: State, w: nat)
    requires Inv(s) && w in s.walks
    ensures WalkEnabled(s, w)
    ensures s.walks[w].place.Behind? && s.walks[w].place.lastCtr == s.ctr ==> s.walks[w].place.entry in s.list
    ensures NextEntry(s, w).Some? ==> NextEntry(s, w).value in s.list
  {
    assert WalkOk(s, w);
  }

  /** Taking one step, a walk bound to visit t visits t or stays bound to. */
  lemma WalkAdvances(s: State, w: nat, t: nat)
    requires Shape(s) && WalkEnabled(s, w) && Bound(s, w, t) && t in s.list
    ensures NextEntry(s, w).Some?
    ensures NextEntry(s, w) == Some(t) || Bound(DoWalk(s, w), w, t)
  {
    assert WalkOk(s, w);
    var n := IndexOf(s.list, t);
    match s.walks[w].place
    case Fresh => IndexUnique(s.list, 0);
    case Behind(entry, last) =>
      if last != s.ctr {
        IndexUnique(s.list, 0);
      } else {
        IndexUnique(s.list, IndexOf(s.list, entry) + 1);
      }
  }

  lemma CoveredWalk(s: State, w: nat, t: nat, i: nat, k: Kind)
    requires Shape(s) && Covered(s, t, i, k) && WalkEnabled(s, w)
    ensures Covered(DoWalk(s, w), t, i, k)
  {
    var s' := DoWalk(s, w);
    if Relies(s, t, i) && i in s.socks && i in SetOf(s.calls[t].watch, k) && Ready(s.socks[i], k) && !s.calls[t].signalled {
      assert CallOk(s, t);
      var v :| Bound(s, v, t) && s.walks[v].fd == i && k in s.walks[v].flags;
      if v != w {
        assert Bound(s', v, t);
      } else {
        WalkAdvances(s, w, t);
        assert NextEntry(s, w) == Some(t) || Bound(s', w, t);
      }
    }
  }

  lemma ShapeWalk(s: State, w: nat)
    requires Shape(s) && WalkEnabled(s, w)
    ensures Shape(DoWalk(s, w))
  {
    var s' := DoWalk(s, w);
    assert WalkOk(s, w);
    forall t: nat ensures CallOk(s', t) { assert CallOk(s, t); }
    forall v: nat ensures WalkOk(s', v) { assert WalkOk(s, v); }
  }

  lemma WalkInv(s: State, w: nat)
    requires Inv(s) && WalkEnabled(s, w)
    ensures Inv(DoWalk(s, w))
  {
    ShapeWalk(s, w);
    var s' := DoWalk(s, w);
    forall i: nat ensures CountedAt(s', i) {
      assert CountedAt(s, i);
      RaisersSame(s, s', i);
    }
    forall t: nat, i: nat, k: Kind ensures Covered(s', t, i, k) {
      assert Covered(s, t, i, k);
      CoveredWalk(s, w, t, i, k);
    }
  }

  // ---------------------------------------------------------------- whole runs

  datatype Action = Select(a: SelectStep) | Happen(w: nat, i: nat, e: Event) | Step(w: nat) | Mailbox(i: nat, m: Mail)

  /** The size of the mailboxes, and how many threads can be in select or poll at the same time. */
  datatype Limits = Limits(box: nat, threads: nat)

  predicate Enabled(lim: Limits, s: State, a: Action) {
    match a
    case Select(b) => SelectEnabled(s, b) && (b.Link? ==> |s.calls| < lim.threads)
    case Happen(w, i, e) => EventEnabled(s, w, i, e)
    case Step(w) => WalkEnabled(s, w)
    case Mailbox(i, m) => i in s.socks && MailEnabled(lim.box, s.socks[i].box, m)
  }

  function Do(lim: Limits, s: State, a: Action): State
    requires Enabled(lim, s, a)
  {
    match a
    case Select(b) => DoSelect(s, b)
    case Happen(w, i, e) => DoEvent(s, w, i, e)
    case Step(w) => DoWalk(s, w)
    case Mailbox(i, m) => s.(socks := s.socks[i := s.socks[i].(box := DoMail(s.socks[i].box, m))])
  }

  /**
   * A socket as alloc_socket leaves it. That of an accepted connection may have messages already, whose
   * events lwip_accept raises afterwards.
   */
  predicate NewSocket(cap: nat, sock: Sock) {
    && sock.rcvevent == 0 && !sock.errevent && sock.waiting == 0
    && sock.box == Box(sock.box.queued, sock.box.queued, false, false, false, false, false) && sock.box.queued <= cap
  }

  /** New sockets, nobody in select. */
  predicate Initial(lim: Limits, s: State) {
    s.calls == map[] && s.walks == map[] && s.list == [] && forall i :: i in s.socks ==> NewSocket(lim.box, s.socks[i])
  }

  ghost predicate Run(lim: Limits, s: State, trace: seq<Action>, s': State)
    decreases |trace|
  {
    if trace == [] then s' == s
    else Enabled(lim, s, trace[0]) && Run(lim, Do(lim, s, trace[0]), trace[1..], s')
  }

  // ---------------------------------------------------------------- the receive counter counts the messages

  function One(b: bool): int {
    if b then 1 else 0
  }

  /** What the counter stands for, as long as it does not wrap around. */
  ghost predicate Balanced(cap: nat, sock: Sock) {
    var b := sock.box;
    && sock.rcvevent == b.queued - b.owed + One(b.taken) + One(b.broken && !b.ended) + One(b.shut)
    && b.queued <= cap && b.owed <= cap + 1
    && (b.shut ==> b.queued == 0 && b.owed == 0 && !b.taken)
    && (b.ended ==> b.broken)
  }

  ghost predicate Boxes(cap: nat, s: State) {
    forall i :: i in s.socks ==> Balanced(cap, s.socks[i])
  }

  /** The largest mailbox for which the 16-bit counter suffices. */
  const MAX_BOX: nat := 32765

  /** With such mailboxes the counter never wraps around, in particular not below its minimum. */
  lemma CounterSuffices(cap: nat, sock: Sock, e: Event)
    requires cap <= MAX_BOX && Balanced(cap, sock) && Raised(sock.box, e)
    ensures NoUnderflow(sock, e) && InRange(sock) && Balanced(cap, Apply(sock, e).0)
  {
  }

  /** The message boxes and counters are as they were. */
  ghost predicate SameCounts(s: State, s': State, i: nat) {
    i in s'.socks ==> i in s.socks && s'.socks[i].rcvevent == s.socks[i].rcvevent && s'.socks[i].box == s.socks[i].box
  }

  lemma BoxesSelect(cap: nat, s: State, a: SelectStep)
    requires Boxes(cap, s) && SelectEnabled(s, a)
    ensures Boxes(cap, DoSelect(s, a))
  {
    var s' := DoSelect(s, a);
    forall i | i in s'.socks ensures Balanced(cap, s'.socks[i]) {
      assert SameCounts(s, s', i);
    }
  }

  lemma BoxesEvent(cap: nat, s: State, w: nat, i: nat, e: Event)
    requires cap <= MAX_BOX && Boxes(cap, s) && EventEnabled(s, w, i, e)
    ensures Boxes(cap, DoEvent(s, w, i, e))
  {
    CounterSuffices(cap, s.socks[i], e);
  }

  lemma BoxesMail(lim: Limits, s: State, i: nat, m: Mail)
    requires Boxes(lim.box, s) && Enabled(lim, s, Mailbox(i, m))
    ensures Boxes(lim.box, Do(lim, s, Mailbox(i, m)))
  {
  }

  lemma BoxesStep(lim: Limits, s: State, a: Action)
    requires lim.box <= MAX_BOX && Boxes(lim.box, s) && Enabled(lim, s, a)
    ensures Boxes(lim.box, Do(lim, s, a))
  {
    match a
    case Select(b) => BoxesSelect(lim.box, s, b);
    case Happen(w, i, e) => BoxesEvent(lim.box, s, w, i, e);
    case Step(w) =>
    case Mailbox(i, m) => BoxesMail(lim, s, i, m);
  }

  /** Both counters, of messages and of waiters, suffice. */
  predicate Bounded(lim: Limits) {
    lim.box <= MAX_BOX && lim.threads <= MAX_WAITING
  }

  /** With so few threads select_waiting never overflows. */
  lemma WaitersSuffice(lim: Limits, s: State, a: SelectStep)
    requires lim.threads <= MAX_WAITING && Inv(s) && |s.calls| <= lim.threads && SelectEnabled(s, a)
    ensures NoOverflow(s, a)
  {
    if a.PollScan? {
      assert CountedAt(s, a.i);
      var others := s.calls.Keys - {a.t};
      assert |others| == |s.calls.Keys| - 1 by { assert s.calls.Keys == others + {a.t}; }
      SubsetSize(Raisers(s, a.i), others);
    }
  }

  lemma CallsSelect(s: State, b: SelectStep)
    requires SelectEnabled(s, b)
    ensures DoSelect(s, b).calls.Keys ==
            if b.Link? then s.calls.Keys + {b.t} else if b.Unlink? then s.calls.Keys - {b.t} else s.calls.Keys
  {
  }

  lemma CallsWalk(s: State, w: nat)
    requires WalkEnabled(s, w)
    ensures DoWalk(s, w).calls.Keys == s.calls.Keys
  {
  }

  /** The number of threads in select or poll stays within its limit. */
  lemma CallsStep(lim: Limits, s: State, a: Action)
    requires Enabled(lim, s, a) && |s.calls| <= lim.threads
    ensures |Do(lim, s, a).calls| <= lim.threads
  {
    match a
    case Select(b) =>
      CallsSelect(s, b);
      KeysSize(s.calls, DoSelect(s, b).calls, b.t, b.Link?);
    case Step(w) =>
      CallsWalk(s, w);
      KeysSize(s.calls, DoWalk(s, w).calls, 0, false);
    case _ =>
  }

  lemma KeysSize(m: map<nat, Call>, m': map<nat, Call>, t: nat, more: bool)
    requires m'.Keys <= if more then m.Keys + {t} else m.Keys
    ensures |m'| <= |m| + (if more then 1 else 0)
  {
    assert |m| == |m.Keys| && |m'| == |m'.Keys|;
    if more {
      SubsetSize(m'.Keys, m.Keys + {t});
    } else {
      SubsetSize(m'.Keys, m.Keys);
    }
  }

  /** Posting and taking messages changes nothing that select looks at. */
  lemma MailInv(lim: Limits, s: State, i: nat, m: Mail)
    requires Inv(s) && Enabled(lim, s, Mailbox(i, m))
    ensures Inv(Do(lim, s, Mailbox(i, m)))
  {
    var s' := Do(lim, s, Mailbox(i, m));
    assert s'.socks.Keys == s.socks.Keys;
    forall t: nat ensures CallOk(s', t) { assert CallOk(s, t); }
    forall v: nat ensures WalkOk(s', v) { assert WalkOk(s, v); }
    forall j: nat ensures CountedAt(s', j) {
      assert CountedAt(s, j);
      RaisersSame(s, s', j);
    }
    forall t: nat, j: nat, k: Kind ensures Covered(s', t, j, k) {
      assert Covered(s, t, j, k);
      if Coming(s, t, j, k) { ComingSame(s, s', t, j, k); }
    }
  }

  lemma ComingSame(s: State, s': State, t: nat, i: nat, k: Kind)
    requires Coming(s, t, i, k) && s'.walks == s.walks && s'.list == s.list && s'.ctr == s.ctr
    ensures Coming(s', t, i, k)
  {
    var w :| Bound(s, w, t) && s.walks[w].fd == i && k in s.walks[w].flags;
    assert Bound(s', w, t);
  }

  lemma InitialInv(lim: Limits, s: State)
    requires Bounded(lim) && Initial(lim, s)
    ensures Inv(s) && Boxes(lim.box, s)
  {
    forall i: nat ensures CountedAt(s, i) {
      assert Raisers(s, i) == {};
    }
  }

  lemma {:induction false} RunInv(lim: Limits, s: State, trace: seq<Action>, s': State)
    requires Bounded(lim) && Inv(s) && Boxes(lim.box, s) && |s.calls| <= lim.threads && Run(lim, s, trace, s')
    ensures Inv(s') && Boxes(lim.box, s')
    decreases |trace|
  {
    if trace != [] {
      CallsStep(lim, s, trace[0]);
      BoxesStep(lim, s, trace[0]);
      match trace[0] {
        case Select(b) =>
          WaitersSuffice(lim, s, b);
          SelectInv(s, b);
        case Happen(w, i, e) =>
          CounterSuffices(lim.box, s.socks[i], e);
          EventInv(s, w, i, e);
        case Step(w) => WalkInv(s, w);
        case Mailbox(i, m) => MailInv(lim, s, i, m);
      }
      RunInv(lim, Do(lim, s, trace[0]), trace[1..], s');
    }
  }

  lemma {:induction false} RunTruthful(lim: Limits, s: State, trace: seq<Action>, s': State)
    requires AllTruthful(s) && Run(lim, s, trace, s')
    ensures AllTruthful(s')
    decreases |trace|
  {
    if trace != [] {
      var s1 := Do(lim, s, trace[0]);
      forall t | t in s1.calls ensures Truthful(s1.calls[t]) {
        match trace[0]
        case Select(b) => TruthfulSelect(s, b, t);
        case Step(w) => TruthfulWalk(s, w, t);
        case _ =>
      }
      RunTruthful(lim, s1, trace[1..], s');
    }
  }

  /**
   * In every run: select and poll find something exactly if one of their sockets had something to offer that
   * they watch when they looked at it, and a thread is signalled only by an event that it watches. A blocked
   * thread has looked at all its sockets, and none had data, left over or not, that it wants to read.
   */
  lemma CallsTruthful(lim: Limits, s0: State, trace: seq<Action>, s: State, t: nat)
    requires Initial(lim, s0) && Run(lim, s0, trace, s) && t in s.calls
    ensures Truthful(s.calls[t])
    ensures s.calls[t].pc == Waiting ==>
              forall i, k :: (i, k) in s.calls[t].past.offered ==> i !in SetOf(s.calls[t].watch, k)
  {
    RunTruthful(lim, s0, trace, s);
  }

  /** A walk is started for the socket of the event, and carries what the socket is ready for. */
  lemma WalkExact(s: State, w: nat, i: nat, e: Event)
    requires EventEnabled(s, w, i, e)
    ensures var s' := DoEvent(s, w, i, e);
            w in s'.walks ==> s'.walks[w].fd == i && forall k :: k in s'.walks[w].flags <==> Ready(s'.socks[i], k)
  {
  }

  /** Whether the last event for writing was NETCONN_EVT_SENDPLUS. */
  function Writable(trace: seq<Action>, i: nat, first: bool): bool {
    if trace == [] then first
    else
      var a := trace[|trace| - 1];
      if a.Happen? && a.i == i && (a.e.SendPlus? || a.e.SendMinus?) then a.e.SendPlus?
      else Writable(trace[..|trace| - 1], i, first)
  }

  lemma {:induction false} WritableStep(a: Action, rest: seq<Action>, i: nat, first: bool)
    ensures Writable([a] + rest, i, first) == Writable(rest, i, Writable([a], i, first))
    decreases |rest|
  {
    if rest == [] {
      assert [a] + rest == [a];
    } else {
      var all := [a] + rest;
      assert all[..|all| - 1] == [a] + rest[..|rest| - 1];
      WritableStep(a, rest[..|rest| - 1], i, first);
    }
  }

  /** Whether there has been an error event. */
  function Broken(trace: seq<Action>, i: nat, first: bool): bool {
    if trace == [] then first
    else Broken(trace[..|trace| - 1], i, first) ||
         (trace[|trace| - 1].Happen? && trace[|trace| - 1].i == i && trace[|trace| - 1].e.Error?)
  }

  lemma {:induction false} BrokenStep(a: Action, rest: seq<Action>, i: nat, first: bool)
    ensures Broken([a] + rest, i, first) == Broken(rest, i, Broken([a], i, first))
    decreases |rest|
  {
    if rest == [] {
      assert [a] + rest == [a];
    } else {
      var all := [a] + rest;
      assert all[..|all| - 1] == [a] + rest[..|rest| - 1];
      BrokenStep(a, rest[..|rest| - 1], i, first);
    }
  }

  lemma EventsStep(lim: Limits, s: State, a: Action, i: nat)
    requires Enabled(lim, s, a) && i in s.socks
    ensures i in Do(lim, s, a).socks
    ensures Do(lim, s, a).socks[i].sendevent == Writable([a], i, s.socks[i].sendevent)
    ensures Do(lim, s, a).socks[i].errevent == Broken([a], i, s.socks[i].errevent)
  {
    assert [a][..0] == [];
    match a
    case Select(b) => EventsSelect(s, b, i);
    case Happen(w, j, e) => EventsHappen(s, w, j, e, i);
    case _ =>
  }

  lemma EventsHappen(s: State, w: nat, j: nat, e: Event, i: nat)
    requires EventEnabled(s, w, j, e) && i in s.socks
    ensures var s' := DoEvent(s, w, j, e);
            && i in s'.socks
            && s'.socks[i].sendevent ==
               (if i == j && (e.SendPlus? || e.SendMinus?) then e.SendPlus? else s.socks[i].sendevent)
            && s'.socks[i].errevent == (s.socks[i].errevent || (i == j && e.Error?))
  {
  }

  lemma EventsSelect(s: State, b: SelectStep, i: nat)
    requires SelectEnabled(s, b) && i in s.socks
    ensures i in DoSelect(s, b).socks
    ensures DoSelect(s, b).socks[i].sendevent == s.socks[i].sendevent
    ensures DoSelect(s, b).socks[i].errevent == s.socks[i].errevent
  {
  }

  /** In every run sendevent and errevent say just that. */
  lemma {:induction false} EventsExact(lim: Limits, s: State, trace: seq<Action>, s': State, i: nat)
    requires Run(lim, s, trace, s') && i in s.socks
    ensures i in s'.socks && s'.socks[i].sendevent == Writable(trace, i, s.socks[i].sendevent)
    ensures s'.socks[i].errevent == Broken(trace, i, s.socks[i].errevent)
    decreases |trace|
  {
    if trace != [] {
      EventsStep(lim, s, trace[0], i);
      EventsExact(lim, Do(lim, s, trace[0]), trace[1..], s', i);
      assert trace == [trace[0]] + trace[1..];
      WritableStep(trace[0], trace[1..], i, s.socks[i].sendevent);
      BrokenStep(trace[0], trace[1..], i, s.socks[i].errevent);
    }
  }

  /** A thread blocked in select or poll has an event on a socket that it watches. */
  predicate Due(s: State, t: nat, i: nat, k: Kind) {
    && t in s.calls && s.calls[t].pc == Waiting && i in SetOf(s.calls[t].watch, k)
    && i in s.socks && Ready(s.socks[i], k)
  }

  /** Then it has a semaphore it can take, or a walk that knows of the event is bound to visit it. */
  ghost predicate Awoken(s: State) {
    forall t, i, k :: Due(s, t, i, k) ==> s.calls[t].sem > 0 || Coming(s, t, i, k)
  }

  /**
   * No lost wake-up, in every interleaving, if no mailbox has more than MAX_BOX places and no more than
   * MAX_WAITING threads are in select or poll at the same time; and once no walk is under way, a thread with
   * an event can run.
   */
  lemma NoLostWakeup(lim: Limits, s0: State, trace: seq<Action>, s: State)
    requires Bounded(lim) && Initial(lim, s0) && Run(lim, s0, trace, s)
    ensures Awoken(s)
    ensures s.walks == map[] ==> forall t, i, k :: Due(s, t, i, k) ==> SelectEnabled(s, Wake(t))
  {
    InitialInv(lim, s0);
    RunInv(lim, s0, trace, s);
    forall t: nat, i: nat, k: Kind | Due(s, t, i, k)
      ensures s.calls[t].sem > 0 || Coming(s, t, i, k)
    {
      assert CallOk(s, t);
      assert Covered(s, t, i, k);
    }
  }

  /** Steps a walk still has to take while the list does not change. */
  function Left(s: State, w: nat): int
    requires w in s.walks
  {
    match s.walks[w].place
    case Fresh => |s.list| + 1
    case Behind(entry, last) => if last != s.ctr then |s.list| + 1 else |s.list| - IndexOf(s.list, entry)
  }

  /** Every walk can go on, and each step brings its end closer until the list changes again. */
  lemma WalkProgress(s: State, w: nat)
    requires Inv(s) && w in s.walks
    ensures WalkEnabled(s, w) && Left(s, w) > 0
    ensures w in DoWalk(s, w).walks ==> Left(DoWalk(s, w), w) < Left(s, w)
  {
    NeverUnlinked(s, w);
    var n := NextEntry(s, w);
    if n.Some? {
      match s.walks[w].place
      case Fresh => IndexUnique(s.list, 0);
      case Behind(entry, last) =>
        if last != s.ctr {
          IndexUnique(s.list, 0);
        } else {
          IndexUnique(s.list, IndexOf(s.list, entry) + 1);
        }
    }
  }
}
