/**
 * Where wake-ups of select and poll get lost: runs in which the 16-bit receive counter or the 8-bit
 * select_waiting of api/sockets.c overflows, and the exact limits below which neither happens.
 *
 * The runs are built for an arbitrary predicate that is closed under the steps of the model, and used with
 * the one that says that a state is reachable.
 */
module SelectLimits {
  import opened SelectList
  import opened SelectWakeup

  /** Every step from a state with R leads to one with R. */
  ghost predicate Closed(lim: Limits, R: State -> bool) {
    forall s, a :: R(s) && Enabled(lim, s, a) ==> R(Do(lim, s, a))
  }

  // ---------------------------------------------------------------- too large mailboxes

  /** The mailbox of a connection that has neither been closed nor ended by the other side. */
  function Filled(queued: nat, owed: nat, taken: bool, broken: bool): Box {
    Box(queued, owed, taken, broken, false, false, false)
  }

  /** One open socket, nobody in select. */
  function Alone(rcvevent: int, errevent: bool, box: Box): State {
    State(map[0 := Sock(rcvevent, false, errevent, 0, box)], map[], map[], [], 0)
  }

  lemma Posts(lim: Limits, R: State -> bool, n: int, b: Box)
    requires Closed(lim, R) && R(Alone(n, false, b)) && b.queued < lim.box && b.owed == 0 && !b.shut
    ensures R(Alone(n, false, b.(queued := b.queued + 1, owed := 1)))
  {
    var s, a := Alone(n, false, b), Mailbox(0, Post);
    assert Enabled(lim, s, a) && Do(lim, s, a) == Alone(n, false, b.(queued := b.queued + 1, owed := 1));
  }

  lemma Announces(lim: Limits, R: State -> bool, n: int, b: Box)
    requires Closed(lim, R) && R(Alone(n, false, b)) && b.owed == 1 && 0 <= n < 32767
    ensures R(Alone(n + 1, false, b.(owed := 0)))
  {
    var s, a := Alone(n, false, b), Happen(0, 0, RcvPlus);
    assert Enabled(lim, s, a) && Do(lim, s, a) == Alone(n + 1, false, b.(owed := 0));
  }

  lemma {:induction false} Fills(lim: Limits, R: State -> bool, n: nat)
    requires Closed(lim, R) && R(Alone(0, false, Filled(0, 0, false, false))) && n <= lim.box && n <= 32767
    ensures R(Alone(n, false, Filled(n, 0, false, false)))
  {
    if n > 0 {
      Fills(lim, R, n - 1);
      Posts(lim, R, n - 1, Filled(n - 1, 0, false, false));
      Announces(lim, R, n - 1, Filled(n, 1, false, false));
    }
  }

  lemma Takes(lim: Limits, R: State -> bool, n: int, queued: nat)
    requires Closed(lim, R) && R(Alone(n, false, Filled(queued + 1, 0, false, false)))
    ensures R(Alone(n, false, Filled(queued, 0, true, false)))
  {
    var s, a := Alone(n, false, Filled(queued + 1, 0, false, false)), Mailbox(0, Take);
    assert Enabled(lim, s, a) && Do(lim, s, a) == Alone(n, false, Filled(queued, 0, true, false));
  }

  /** err_tcp: an error event, and then a NETCONN_EVT_RCVPLUS, with which the counter wraps around. */
  lemma Breaks(lim: Limits, R: State -> bool, queued: nat)
    requires Closed(lim, R) && R(Alone(32767, false, Filled(queued, 0, true, false)))
    ensures R(Alone(-32768, true, Filled(queued, 0, true, true)))
  {
    var s, a := Alone(32767, false, Filled(queued, 0, true, false)), Happen(0, 0, Error);
    assert Enabled(lim, s, a) && Do(lim, s, a) == Alone(32767, true, Filled(queued, 0, true, false));
    var s1, a1 := Alone(32767, true, Filled(queued, 0, true, false)), Happen(0, 0, RcvBreak);
    assert Enabled(lim, s1, a1) && Do(lim, s1, a1) == Alone(-32768, true, Filled(queued, 0, true, true));
  }

  /** With a full mailbox, a message that is just being taken and a failure, the counter wraps around. */
  lemma WrapsAround(lim: Limits, R: State -> bool)
    requires Closed(lim, R) && R(Alone(0, false, Filled(0, 0, false, false))) && lim.box > MAX_BOX
    ensures R(Alone(-32768, true, Filled(32766, 0, true, true)))
  {
    Fills(lim, R, 32766);
    Takes(lim, R, 32766, 32765);
    Posts(lim, R, 32766, Filled(32765, 0, true, false));
    Announces(lim, R, 32766, Filled(32766, 1, true, false));
    Breaks(lim, R, 32766);
  }

  const ReadWatch := Watch({0}, {}, {})

  /** One thread in select on the socket, for reading. */
  function Selecting(box: Box, waiting: nat, pc: Pc, raised: set<nat>, scanned: set<nat>): State {
    State(map[0 := Sock(-32768, false, true, waiting, box)],
          map[7 := Call(false, pc, ReadWatch, raised, scanned, false, false, 0,
                        Past(if scanned == {} then {} else {(0, Except)}, {}, 0))], map[], [7], 1)
  }

  lemma SelectLinks(lim: Limits, R: State -> bool, box: Box)
    requires Closed(lim, R) && R(Alone(-32768, true, box)) && lim.threads > 0
    ensures R(Selecting(box, 0, Entering, {}, {}))
  {
    var s, a := Alone(-32768, true, box), Select(Link(7, ReadWatch, false));
    assert Fds(ReadWatch) == {0} && s.socks.Keys == {0};
    assert Enabled(lim, s, a) && Do(lim, s, a) == Selecting(box, 0, Entering, {}, {});
  }

  lemma SelectRaises(lim: Limits, R: State -> bool, box: Box)
    requires Closed(lim, R) && R(Selecting(box, 0, Entering, {}, {}))
    ensures R(Selecting(box, 1, Entering, {0}, {}))
  {
    var s, a := Selecting(box, 0, Entering, {}, {}), Select(Raise(7, 0));
    assert Fds(ReadWatch) == {0} && {} + {0} == {0};
    assert Enabled(lim, s, a) && Do(lim, s, a).calls == Selecting(box, 1, Entering, {0}, {}).calls;
    assert Do(lim, s, a) == Selecting(box, 1, Entering, {0}, {});
  }

  lemma SelectStarts(lim: Limits, R: State -> bool, box: Box)
    requires Closed(lim, R) && R(Selecting(box, 1, Entering, {0}, {}))
    ensures R(Selecting(box, 1, Scanning, {0}, {}))
  {
    var s, a := Selecting(box, 1, Entering, {0}, {}), Select(StartScan(7));
    assert Fds(ReadWatch) == {0};
    assert Enabled(lim, s, a) && Do(lim, s, a).calls == Selecting(box, 1, Scanning, {0}, {}).calls;
  }

  lemma SelectScans(lim: Limits, R: State -> bool, box: Box)
    requires Closed(lim, R) && R(Selecting(box, 1, Scanning, {0}, {})) && !box.kept
    ensures R(Selecting(box, 1, Scanning, {0}, {0}))
  {
    var s, a := Selecting(box, 1, Scanning, {0}, {}), Select(Scan(7, 0));
    assert Fds(ReadWatch) == {0} && {} + {0} == {0};
    assert Offers(0, s.socks[0]) == {(0, Except)} && {} + {(0, Except)} == {(0, Except)};
    assert Do(lim, s, a).calls[7] == Selecting(box, 1, Scanning, {0}, {0}).calls[7];
    assert Enabled(lim, s, a) && Do(lim, s, a) == Selecting(box, 1, Scanning, {0}, {0});
  }

  lemma SelectBlocks(lim: Limits, R: State -> bool, box: Box)
    requires Closed(lim, R) && R(Selecting(box, 1, Scanning, {0}, {0}))
    ensures R(Selecting(box, 1, Waiting, {0}, {0}))
  {
    var s, a := Selecting(box, 1, Scanning, {0}, {0}), Select(EndScan(7));
    assert Fds(ReadWatch) == {0};
    assert Enabled(lim, s, a) && Do(lim, s, a).calls == Selecting(box, 1, Waiting, {0}, {0}).calls;
  }

  /** The event for the taken message then makes the socket readable, with nobody signalled and no walk. */
  lemma MailboxLoses(lim: Limits, R: State -> bool) returns (s: State)
    requires Closed(lim, R) && R(Alone(0, false, Filled(0, 0, false, false))) && lim.box > MAX_BOX && lim.threads > 0
    ensures R(s) && !Awoken(s)
  {
    var box := Filled(32766, 0, true, true);
    WrapsAround(lim, R);
    SelectLinks(lim, R, box);
    SelectRaises(lim, R, box);
    SelectStarts(lim, R, box);
    SelectScans(lim, R, box);
    SelectBlocks(lim, R, box);
    s := Misses(lim, R, box);
  }

  lemma Misses(lim: Limits, R: State -> bool, box: Box) returns (s: State)
    requires Closed(lim, R) && R(Selecting(box, 1, Waiting, {0}, {0})) && box.taken
    ensures R(s) && !Awoken(s)
  {
    var s1, a := Selecting(box, 1, Waiting, {0}, {0}), Happen(0, 0, RcvMinus);
    assert Enabled(lim, s1, a);
    s := Do(lim, s1, a);
    assert s.socks[0].rcvevent == 32767 && Due(s, 7, 0, Read) && !Coming(s, 7, 0, Read);
  }

  // ---------------------------------------------------------------- too many threads

  const PollWatch := Watch({0}, {}, {0})

  /** A thread in poll on socket 0. */
  function Polling(pc: Pc, raised: set<nat>, scanned: set<nat>): Call {
    Call(true, pc, PollWatch, raised, scanned, false, false, 0, Past({}, {}, 0))
  }

  /** Threads 0 to n - 1 are blocked there. */
  function Pollers(n: nat): map<nat, Call> {
    if n == 0 then map[] else Pollers(n - 1)[n - 1 := Polling(Waiting, {0}, {0})]
  }

  function Waiters(n: nat): seq<nat> {
    if n == 0 then [] else [n - 1] + Waiters(n - 1)
  }

  lemma {:induction false} PollersAre(n: nat)
    ensures |Pollers(n)| == n && forall k :: k in Pollers(n) <==> 0 <= k < n
  {
    if n > 0 {
      PollersAre(n - 1);
      OneMore(Pollers(n - 1), n - 1, Polling(Waiting, {0}, {0}));
    }
  }

  lemma OneMore(m: map<nat, Call>, k: nat, c: Call)
    requires k !in m
    ensures |m[k := c]| == |m| + 1
  {
    assert m[k := c].Keys == m.Keys + {k};
    assert |m[k := c]| == |m[k := c].Keys| && |m| == |m.Keys|;
  }

  function Quiet(waiting: nat): map<nat, Sock> {
    map[0 := Sock(0, false, false, waiting, Filled(0, 0, false, false))]
  }

  /** n threads blocked in poll, with select_waiting at `waiting`. */
  function Crowd(n: nat, waiting: nat, ctr: int): State {
    State(Quiet(waiting), Pollers(n), map[], Waiters(n), ctr)
  }

  /** Thread n has been linked as well. */
  function Newcomer(n: nat, waiting: nat, c: Call, ctr: int): State {
    State(Quiet(waiting), Pollers(n)[n := c], map[], [n] + Waiters(n), ctr)
  }

  lemma Again(n: nat, c: Call, c': Call)
    ensures Pollers(n)[n := c][n := c'] == Pollers(n)[n := c']
  {
  }

  lemma PollLinks(lim: Limits, R: State -> bool, n: nat, w: nat, ctr: int)
    requires Closed(lim, R) && R(Crowd(n, w, ctr)) && n < lim.threads
    ensures R(Newcomer(n, w, Polling(Entering, {}, {}), ctr + 1))
  {
    var s, a := Crowd(n, w, ctr), Select(Link(n, PollWatch, true));
    PollersAre(n);
    assert Fds(PollWatch) == {0};
    assert Enabled(lim, s, a) && Do(lim, s, a) == Newcomer(n, w, Polling(Entering, {}, {}), ctr + 1);
  }

  lemma PollLooks(lim: Limits, R: State -> bool, n: nat, w: nat, ctr: int)
    requires Closed(lim, R) && R(Newcomer(n, w, Polling(Entering, {}, {}), ctr)) && w < MAX_WAITING
    ensures R(Newcomer(n, w + 1, Polling(Entering, {0}, {0}), ctr))
  {
    var s, a := Newcomer(n, w, Polling(Entering, {}, {}), ctr), Select(PollScan(n, 0));
    assert Fds(PollWatch) == {0} && {} + {0} == {0};
    Again(n, Polling(Entering, {}, {}), Polling(Entering, {0}, {0}));
    assert Enabled(lim, s, a) && Do(lim, s, a) == Newcomer(n, w + 1, Polling(Entering, {0}, {0}), ctr);
  }

  lemma PollOverflows(lim: Limits, R: State -> bool, n: nat, ctr: int)
    requires Closed(lim, R) && R(Newcomer(n, MAX_WAITING, Polling(Entering, {}, {}), ctr))
    ensures R(Newcomer(n, MAX_WAITING, Polling(Leaving, {0}, {}), ctr))
  {
    var s, a := Newcomer(n, MAX_WAITING, Polling(Entering, {}, {}), ctr), Select(PollScan(n, 0));
    assert Fds(PollWatch) == {0};
    Again(n, Polling(Entering, {}, {}), Polling(Leaving, {0}, {}));
    assert Enabled(lim, s, a) && Do(lim, s, a) == Newcomer(n, MAX_WAITING, Polling(Leaving, {0}, {}), ctr);
  }

  lemma PollBlocks(lim: Limits, R: State -> bool, n: nat, w: nat, ctr: int)
    requires Closed(lim, R) && R(Newcomer(n, w, Polling(Entering, {0}, {0}), ctr))
    ensures R(Crowd(n + 1, w, ctr))
  {
    var s, a := Newcomer(n, w, Polling(Entering, {0}, {0}), ctr), Select(EndScan(n));
    assert Fds(PollWatch) == {0};
    Again(n, Polling(Entering, {0}, {0}), Polling(Waiting, {0}, {0}));
    assert Enabled(lim, s, a) && Do(lim, s, a) == Crowd(n + 1, w, ctr);
  }

  lemma PollTimesOut(lim: Limits, R: State -> bool, n: nat, w: nat, ctr: int)
    requires Closed(lim, R) && R(Crowd(n + 1, w, ctr))
    ensures R(Newcomer(n, w, Polling(Leaving, {0}, {0}), ctr))
  {
    var s, a := Crowd(n + 1, w, ctr), Select(Timeout(n));
    Again(n, Polling(Waiting, {0}, {0}), Polling(Leaving, {0}, {0}));
    assert Enabled(lim, s, a) && Do(lim, s, a) == Newcomer(n, w, Polling(Leaving, {0}, {0}), ctr);
  }

  lemma PollLowers(lim: Limits, R: State -> bool, n: nat, w: nat, scanned: set<nat>, ctr: int)
    requires Closed(lim, R) && R(Newcomer(n, w, Polling(Leaving, {0}, scanned), ctr)) && w > 0
    ensures R(Newcomer(n, w - 1, Polling(Leaving, {}, scanned), ctr))
  {
    var s, a := Newcomer(n, w, Polling(Leaving, {0}, scanned), ctr), Select(Lower(n, 0));
    assert {0} - {0} == {};
    Again(n, Polling(Leaving, {0}, scanned), Polling(Leaving, {}, scanned));
    assert Enabled(lim, s, a) && Do(lim, s, a) == Newcomer(n, w - 1, Polling(Leaving, {}, scanned), ctr);
  }

  lemma PollUnlinks(lim: Limits, R: State -> bool, n: nat, w: nat, scanned: set<nat>, ctr: int)
    requires Closed(lim, R) && R(Newcomer(n, w, Polling(Leaving, {}, scanned), ctr))
    ensures R(Crowd(n, w, ctr + 1))
  {
    var s, a := Newcomer(n, w, Polling(Leaving, {}, scanned), ctr), Select(Unlink(n));
    PollersAre(n);
    assert Without([n] + Waiters(n), n) == Waiters(n);
    assert Pollers(n)[n := Polling(Leaving, {}, scanned)] - {n} == Pollers(n);
    assert Enabled(lim, s, a) && Do(lim, s, a) == Crowd(n, w, ctr + 1);
  }

  /** n threads call poll and block. */
  lemma {:induction false} PollMany(lim: Limits, R: State -> bool, n: nat)
    requires Closed(lim, R) && R(Crowd(0, 0, 0)) && n <= lim.threads && n <= MAX_WAITING
    ensures R(Crowd(n, n, n))
  {
    if n > 0 {
      PollMany(lim, R, n - 1);
      PollLinks(lim, R, n - 1, n - 1, n - 1);
      PollLooks(lim, R, n - 1, n - 1, n);
      PollBlocks(lim, R, n - 1, n, n);
    }
  }

  /** k of them time out and leave. */
  lemma {:induction false} LeaveMany(lim: Limits, R: State -> bool, n: nat, w: nat, k: nat, ctr: int)
    requires Closed(lim, R) && R(Crowd(n + k, w + k, ctr))
    ensures R(Crowd(n, w, ctr + k))
    decreases k
  {
    if k > 0 {
      PollTimesOut(lim, R, n + k - 1, w + k, ctr);
      PollLowers(lim, R, n + k - 1, w + k, {0}, ctr);
      PollUnlinks(lim, R, n + k - 1, w + k - 1, {0}, ctr);
      LeaveMany(lim, R, n, w, k - 1, ctr + 1);
    }
  }

  /**
   * One thread too many lowers select_waiting without having raised it. When all but one of the others have
   * left, that one waits with select_waiting at 0, and the next event passes it by.
   */
  lemma CrowdLoses(lim: Limits, R: State -> bool, most: nat) returns (s: State)
    requires Closed(lim, R) && R(Crowd(0, 0, 0)) && most == MAX_WAITING < lim.threads
    ensures R(s) && !Awoken(s)
  {
    PollMany(lim, R, most);
    PollLinks(lim, R, most, most, most);
    PollOverflows(lim, R, most, most + 1);
    PollLowers(lim, R, most, most, {}, most + 1);
    PollUnlinks(lim, R, most, most - 1, {}, most + 1);
    LeaveMany(lim, R, 1, 0, most - 1, most + 2);
    s := PassesBy(lim, R, most + 2 + (most - 1));
  }

  lemma PassesBy(lim: Limits, R: State -> bool, ctr: int) returns (s: State)
    requires Closed(lim, R) && R(Crowd(1, 0, ctr))
    ensures R(s) && !Awoken(s)
  {
    var s1, a := Crowd(1, 0, ctr), Happen(0, 0, Error);
    assert s1.calls[0] == Polling(Waiting, {0}, {0});
    assert Enabled(lim, s1, a);
    s := Do(lim, s1, a);
    assert Due(s, 0, 0, Except) && !Coming(s, 0, 0, Except);
  }

  // ---------------------------------------------------------------- the exact condition

  /** The state is the end of a run that starts with new sockets. */
  ghost predicate Reachable(lim: Limits, s: State) {
    exists s0, trace :: Initial(lim, s0) && Run(lim, s0, trace, s)
  }

  lemma {:induction false} RunThen(lim: Limits, s: State, trace: seq<Action>, s1: State, a: Action)
    requires Run(lim, s, trace, s1) && Enabled(lim, s1, a)
    ensures Run(lim, s, trace + [a], Do(lim, s1, a))
    decreases |trace|
  {
    var all := trace + [a];
    if trace == [] {
      assert all[1..] == [];
    } else {
      assert all[1..] == trace[1..] + [a];
      RunThen(lim, Do(lim, s, trace[0]), trace[1..], s1, a);
    }
  }

  lemma ReachableClosed(lim: Limits)
    ensures Closed(lim, s => Reachable(lim, s))
  {
    forall s, a | Reachable(lim, s) && Enabled(lim, s, a) ensures Reachable(lim, Do(lim, s, a)) {
      var s0, trace :| Initial(lim, s0) && Run(lim, s0, trace, s);
      RunThen(lim, s0, trace, s, a);
    }
  }

  lemma NewReachable(lim: Limits, s: State)
    requires Initial(lim, s)
    ensures Reachable(lim, s)
  {
    assert Run(lim, s, [], s);
  }

  lemma {:induction false} RunCalls(lim: Limits, s: State, trace: seq<Action>, s': State)
    requires Run(lim, s, trace, s') && |s.calls| <= lim.threads
    ensures |s'.calls| <= lim.threads
    decreases |trace|
  {
    if trace != [] {
      CallsStep(lim, s, trace[0]);
      RunCalls(lim, Do(lim, s, trace[0]), trace[1..], s');
    }
  }

  /**
   * No wake-up is ever lost exactly if the mailboxes have at most MAX_BOX places and at most MAX_WAITING
   * threads are in select or poll at the same time, or if there is no thread at all.
   */
  lemma WakeupsExact(lim: Limits)
    ensures (forall s :: Reachable(lim, s) ==> Awoken(s)) <==> Bounded(lim) || lim.threads == 0
  {
    if Bounded(lim) || lim.threads == 0 {
      forall s | Reachable(lim, s) ensures Awoken(s) {
        var s0, trace :| Initial(lim, s0) && Run(lim, s0, trace, s);
        if Bounded(lim) {
          NoLostWakeup(lim, s0, trace, s);
        } else {
          RunCalls(lim, s0, trace, s);
        }
      }
    } else {
      var s := LosesWakeup(lim);
    }
  }

  lemma LosesWakeup(lim: Limits) returns (s: State)
    requires lim.threads > 0 && !Bounded(lim)
    ensures Reachable(lim, s) && !Awoken(s)
  {
    ReachableClosed(lim);
    if lim.box > MAX_BOX {
      NewReachable(lim, Alone(0, false, Filled(0, 0, false, false)));
      s := MailboxLoses(lim, s => Reachable(lim, s));
    } else {
      NewReachable(lim, Crowd(0, 0, 0));
      s := CrowdLoses(lim, s => Reachable(lim, s), MAX_WAITING);
    }
  }
}
