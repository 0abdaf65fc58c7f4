/**
 * The transmit path of the Linux RPMsg Ethernet driver (linux/rpmsg_eth.c): rpmsg_eth_xmit, the
 * immediate worker, the delayed retry worker and rpmsg_eth_remove, interleaved at every point
 * where one of them releases the lock or touches a shared variable without it.
 *
 * Frames are numbered in the order in which the stack hands them over. The last four state
 * components are history: they are written and never read by the steps.
 */
module RpmsgTx {
  import opened Wrappers

  /** rpmsg_eth_xmit: idle, behind netif_stop_queue, or on its way to drop the frame. */
  datatype XmitPc = XIdle | XStopped(f: nat) | XDrop(f: nat)

  /** net_xmit_work_handler, by the next thing it does. */
  datatype WorkPc = WIdle | WStart | WFailed | WRetry | WConsume | WClear | WReset | WWake | WExit

  /** net_xmit_delayed_work_handler. */
  datatype DelayPc = DIdle | DStart | DExit

  /** rpmsg_eth_remove: each cancel takes the pending item and then waits for a running handler. */
  datatype RemovePc = RStart | RCancelDelayed | RWaitDelayed | RCancelWork | RWaitWork | RFree | RClear | RDone

  datatype State = State(
    xmit: XmitPc,
    worker: WorkPc,
    delayed: DelayPc,
    remove: RemovePc,
    slot: Option<nat>,       // priv->skb
    isDelayed: bool,
    isShutdown: bool,
    awake: bool,             // the netdev queue
    isOpen: bool,
    workPending: bool,       // priv->immediate is queued
    delayPending: bool,      // priv->delayed is queued or its timer runs
    handed: nat,             // frames handed over so far
    accepted: seq<nat>,      // frames stored in the slot, in order
    sent: seq<nat>,          // frames rpmsg_trysend took, in order
    attempts: multiset<nat>, // rpmsg_trysend calls per frame
    consumed: multiset<nat>) // dev_consume_skb_any calls per frame

  /** The device as probe and register_netdev leave it. */
  function Init(): State {
    State(XIdle, WIdle, DIdle, RStart, None, false, false, false, false, false, false, 0, [], [], multiset{}, multiset{})
  }

  datatype XmitStep = Open | Stop | Call | Locked | Dropped
  datatype TryStep = Start | Send(ok: bool) | Check | Retry
  datatype CleanStep = Consume | Clear | Reset | Wake | Return
  datatype DelayStep = Fire | Kick | Finish
  datatype RemoveStep = Shutdown | CancelDelayed | WaitDelayed | CancelWork | WaitWork | Free | ClearSlot

  /** A step of the stack and rpmsg_eth_xmit, of the two halves of the worker, of the retry worker, of remove. */
  datatype Action = Xmit(x: XmitStep) | Try(t: TryStep) | Clean(c: CleanStep) | Delay(d: DelayStep) | Remove(r: RemoveStep)

  predicate XmitEnabled(s: State, x: XmitStep) {
    match x
    case Open => !s.isOpen && s.xmit.XIdle?
    case Stop => s.isOpen && s.xmit.XIdle?
    case Call => s.isOpen && s.awake && s.xmit.XIdle?
    case Locked => s.xmit.XStopped?
    case Dropped => s.xmit.XDrop?
  }

  function DoXmit(s: State, x: XmitStep): State
    requires XmitEnabled(s, x)
  {
    match x
    case Open => s.(isOpen := true, awake := true)
    case Stop => s.(isOpen := false, awake := false)
    case Call => s.(xmit := XStopped(s.handed), handed := s.handed + 1, awake := false)
    case Locked =>
      if !s.isShutdown
      then s.(xmit := XIdle, slot := Some(s.xmit.f), workPending := true, accepted := s.accepted + [s.xmit.f])
      else s.(xmit := XDrop(s.xmit.f))
    case Dropped => s.(xmit := XIdle, consumed := s.consumed + multiset{s.xmit.f})
  }

  predicate TryEnabled(s: State, t: TryStep) {
    match t
    case Start => s.workPending && s.worker.WIdle?
    case Send(_) => s.worker.WStart?
    case Check => s.worker.WFailed?
    case Retry => s.worker.WRetry?
  }

  function DoTry(s: State, t: TryStep): State
    requires TryEnabled(s, t)
  {
    match t
    case Start => s.(workPending := false, worker := WStart)
    case Send(ok) =>
      if s.slot.None? then s.(worker := WConsume)
      else
        s.(attempts := s.attempts + multiset{s.slot.value},
           sent := if ok then s.sent + [s.slot.value] else s.sent,
           worker := if ok then WConsume else WFailed)
    case Check => s.(worker := if s.isDelayed then WConsume else WRetry)
    case Retry =>
      if !s.isShutdown then s.(isDelayed := true, delayPending := true, worker := WExit)
      else s.(worker := WExit)
  }

  predicate CleanEnabled(s: State, c: CleanStep) {
    match c
    case Consume => s.worker.WConsume?
    case Clear => s.worker.WClear?
    case Reset => s.worker.WReset?
    case Wake => s.worker.WWake?
    case Return => s.worker.WExit?
  }

  function DoClean(s: State, c: CleanStep): State
    requires CleanEnabled(s, c)
  {
    match c
    case Consume =>
      if s.slot.Some? then s.(consumed := s.consumed + multiset{s.slot.value}, worker := WClear)
      else s.(worker := WReset)
    case Clear => s.(slot := None, worker := WReset)
    case Reset => s.(isDelayed := false, worker := WWake)
    case Wake => s.(awake := if !s.isShutdown then true else s.awake, worker := WExit)
    case Return => s.(worker := WIdle)
  }

  predicate DelayEnabled(s: State, d: DelayStep) {
    match d
    case Fire => s.delayPending && s.delayed.DIdle?
    case Kick => s.delayed.DStart?
    case Finish => s.delayed.DExit?
  }

  function DoDelay(s: State, d: DelayStep): State
    requires DelayEnabled(s, d)
  {
    match d
    case Fire => s.(delayPending := false, delayed := DStart)
    case Kick => s.(workPending := if s.isDelayed && !s.isShutdown then true else s.workPending, delayed := DExit)
    case Finish => s.(delayed := DIdle)
  }

  predicate RemoveEnabled(s: State, r: RemoveStep) {
    match r
    case Shutdown => s.remove.RStart?
    case CancelDelayed => s.remove.RCancelDelayed?
    case WaitDelayed => s.remove.RWaitDelayed? && s.delayed.DIdle?
    case CancelWork => s.remove.RCancelWork?
    case WaitWork => s.remove.RWaitWork? && s.worker.WIdle?
    case Free => s.remove.RFree?
    case ClearSlot => s.remove.RClear?
  }

  function DoRemove(s: State, r: RemoveStep): State
    requires RemoveEnabled(s, r)
  {
    match r
    case Shutdown => s.(isShutdown := true, awake := false, remove := RCancelDelayed)
    case CancelDelayed => s.(delayPending := false, remove := RWaitDelayed)
    case WaitDelayed => s.(remove := RCancelWork)
    case CancelWork => s.(workPending := false, remove := RWaitWork)
    case WaitWork => s.(remove := RFree)
    case Free =>
      if s.slot.Some? then s.(consumed := s.consumed + multiset{s.slot.value}, remove := RClear)
      else s.(remove := RDone)
    case ClearSlot => s.(slot := None, remove := RDone)
  }

  predicate Enabled(s: State, a: Action) {
    match a
    case Xmit(x) => XmitEnabled(s, x)
    case Try(t) => TryEnabled(s, t)
    case Clean(c) => CleanEnabled(s, c)
    case Delay(d) => DelayEnabled(s, d)
    case Remove(r) => RemoveEnabled(s, r)
  }

  function Do(s: State, a: Action): State
    requires Enabled(s, a)
  {
    match a
    case Xmit(x) => DoXmit(s, x)
    case Try(t) => DoTry(s, t)
    case Clean(c) => DoClean(s, c)
    case Delay(d) => DoDelay(s, d)
    case Remove(r) => DoRemove(s, r)
  }

  /** When reopening the interface is harmless: nothing is in the slot and no worker is cleaning up. */
  predicate CanOpen(s: State) {
    s.isShutdown || (s.slot.None? && !s.worker.WReset? && !s.worker.WWake?)
  }

  /** A step in a system whose interface is only reopened when that is harmless. */
  predicate Allowed(s: State, a: Action) {
    Enabled(s, a) && (a == Xmit(Open) ==> CanOpen(s))
  }

  // ---------------------------------------------------------------- invariant

  predicate Resting(s: State) { s.worker.WIdle? || s.worker.WExit? }
  predicate DelayResting(s: State) { s.delayed.DIdle? || s.delayed.DExit? }

  /** Nothing is in flight and the worker has nothing left to do. */
  predicate Quiet(s: State) {
    s.slot.None? && !s.isDelayed && !s.workPending && Resting(s) && !s.delayPending && DelayResting(s)
  }

  /** The slot is full and exactly one party is responsible for it. */
  predicate Busy(s: State) {
    && s.slot.Some? && s.xmit.XIdle? && !s.awake
    && (|| (s.workPending && Resting(s) && !s.delayPending && DelayResting(s))
        || (!s.workPending && !Resting(s) && !s.worker.WReset? && !s.worker.WWake? && !s.delayPending && DelayResting(s))
        || (s.isDelayed && !s.workPending && Resting(s) && s.delayPending && DelayResting(s))
        || (s.isDelayed && !s.workPending && Resting(s) && !s.delayPending && s.delayed.DStart?))
  }

  /** The worker has emptied the slot and is about to wake the queue. */
  predicate Cleaning(s: State) {
    && s.slot.None? && s.xmit.XIdle? && !s.awake && !s.workPending
    && (s.worker.WReset? || (s.worker.WWake? && !s.isDelayed)) && !s.delayPending && DelayResting(s)
  }

  /** Before shutdown, the transmitter is always in one of these phases. */
  predicate Running(s: State) {
    || (Quiet(s) && (s.xmit.XIdle? && (s.isOpen ==> s.awake)))
    || (Quiet(s) && s.xmit.XStopped? && !s.awake)
    || Busy(s)
    || Cleaning(s)
  }

  /** How far rpmsg_eth_remove has got determines what can still be pending or running. */
  predicate Removing(s: State) {
    && (s.remove.RStart? <==> !s.isShutdown)
    && (!s.remove.RStart? && !s.remove.RCancelDelayed? ==> !s.delayPending)
    && (s.remove.RCancelWork? || Cancelled(s) || s.remove.RWaitWork? ==> s.delayed.DIdle?)
    && (s.remove.RWaitWork? || Cancelled(s) ==> !s.workPending)
    && (Cancelled(s) ==> s.worker.WIdle?)
    && (s.remove.RClear? ==> s.slot.Some?)
    && (s.remove.RDone? ==> s.slot.None?)
  }

  /** Both cancels in rpmsg_eth_remove have returned. */
  predicate Cancelled(s: State) {
    s.remove.RFree? || s.remove.RClear? || s.remove.RDone?
  }

  /** The frame somebody is responsible for, and who that is. */
  predicate WithXmit(s: State, f: nat) { !s.xmit.XIdle? && s.xmit.f == f }
  predicate InSlot(s: State, f: nat) { s.slot == Some(f) && !s.worker.WClear? && !s.remove.RClear? }

  /** Frame f is consumed exactly when nobody is responsible for it any more. */
  ghost predicate Tracked(s: State, f: nat) {
    s.consumed[f] == (if f >= s.handed || WithXmit(s, f) || InSlot(s, f) then 0 else 1)
  }

  ghost predicate Frames(s: State) {
    && (forall f :: Tracked(s, f))
    && (!s.xmit.XIdle? ==> s.xmit.f + 1 == s.handed)
    && (s.slot.Some? ==> s.slot.value < s.handed)
    && (s.slot.Some? && !s.xmit.XIdle? ==> s.slot.value < s.xmit.f)
    && (s.worker.WClear? ==> s.slot.Some?)
  }

  ghost predicate TriedAt(s: State, f: nat) {
    && s.attempts[f] <= 2
    && (f >= s.handed || WithXmit(s, f) ==> s.attempts[f] == 0)
  }

  /** Attempts made for the frame in the slot, by where its handling stands. */
  ghost predicate Tries(s: State) {
    && (forall f :: TriedAt(s, f))
    && (s.slot.Some? ==>
          var n := s.attempts[s.slot.value];
          && ((s.workPending || s.worker.WStart? || s.delayPending || s.delayed.DStart?) ==> n <= 1)
          && ((s.workPending || s.worker.WStart?) && !s.isDelayed ==> n == 0)
          && (s.worker.WFailed? && !s.isDelayed ==> n <= 1)
          && (s.worker.WRetry? ==> n <= 1))
  }

  ghost predicate Increasing(q: seq<nat>) {
    forall i, j :: 0 <= i < j < |q| ==> q[i] < q[j]
  }

  ghost predicate AllBelow(q: seq<nat>, bound: nat) {
    forall x :: x in q ==> x < bound
  }

  ghost predicate Subset(q: seq<nat>, r: seq<nat>) {
    forall x :: x in q ==> x in r
  }

  /** Frames leave in the order in which they came. */
  ghost predicate Ordered(s: State) {
    && Increasing(s.accepted) && Increasing(s.sent) && Subset(s.sent, s.accepted)
    && AllBelow(s.accepted, s.handed)
    && (!s.xmit.XIdle? ==> AllBelow(s.accepted, s.xmit.f))
    && (s.slot.Some? ==> s.slot.value in s.accepted)
    && (s.slot.Some? && !s.worker.WConsume? && !s.worker.WClear? ==> AllBelow(s.sent, s.slot.value))
  }

  /** Where the handlers can be relative to each other. */
  predicate Control(s: State) {
    && (if s.isShutdown then ShutdownOk(s) else Running(s))
    && Removing(s)
  }

  ghost predicate Inv(s: State) {
    Control(s) && Frames(s) && Tries(s) && Ordered(s)
  }

  /** After shutdown a frame may stay in the slot with nobody working on it, but never with two. */
  predicate ShutdownOk(s: State) {
    && (s.workPending ==> Resting(s) && !s.delayPending && !s.delayed.DStart?)
    && (s.delayPending || s.delayed.DStart? ==> Resting(s))
  }

  // ---------------------------------------------------------------- preservation

  lemma InitInv()
    ensures Inv(Init())
  {
    forall f: nat ensures Tracked(Init(), f) && TriedAt(Init(), f) {}
  }

  // Each part of the invariant is shown separately for the steps of each handler.

  lemma ControlXmit(s: State, x: XmitStep)
    requires Control(s) && XmitEnabled(s, x) && (x.Open? ==> CanOpen(s))
    ensures Control(DoXmit(s, x))
  {
  }

  lemma ControlTry(s: State, t: TryStep)
    requires Control(s) && TryEnabled(s, t)
    ensures Control(DoTry(s, t))
  {
  }

  lemma ControlClean(s: State, c: CleanStep)
    requires Control(s) && CleanEnabled(s, c)
    ensures Control(DoClean(s, c))
  {
  }

  lemma ControlDelay(s: State, d: DelayStep)
    requires Control(s) && DelayEnabled(s, d)
    ensures Control(DoDelay(s, d))
  {
  }

  lemma ControlRemove(s: State, r: RemoveStep)
    requires Control(s) && RemoveEnabled(s, r)
    ensures Control(DoRemove(s, r))
  {
  }

  lemma FramesXmit(s: State, x: XmitStep)
    requires Control(s) && Frames(s) && XmitEnabled(s, x) && (x.Open? ==> CanOpen(s))
    ensures Frames(DoXmit(s, x))
  {
    var s' := DoXmit(s, x);
    forall f: nat ensures Tracked(s', f) {
      assert Tracked(s, f);
    }
  }

  lemma FramesTry(s: State, t: TryStep)
    requires Control(s) && Frames(s) && TryEnabled(s, t)
    ensures Frames(DoTry(s, t))
  {
    var s' := DoTry(s, t);
    OwnersTry(s, t);
    forall f: nat ensures Tracked(s', f) {
      assert Tracked(s, f);
      TrackedSame(s, s', f);
    }
  }

  /** What Tracked depends on. */
  ghost predicate SameOwners(s: State, s': State) {
    && s'.consumed == s.consumed && s'.handed == s.handed && s'.xmit == s.xmit && s'.slot == s.slot
    && s'.remove == s.remove && s'.worker.WClear? == s.worker.WClear?
  }

  lemma TrackedSame(s: State, s': State, f: nat)
    requires Tracked(s, f) && SameOwners(s, s')
    ensures Tracked(s', f)
  {
  }

  lemma OwnersTry(s: State, t: TryStep)
    requires TryEnabled(s, t)
    ensures SameOwners(s, DoTry(s, t))
  {
  }

  lemma FramesClean(s: State, c: CleanStep)
    requires Control(s) && Frames(s) && CleanEnabled(s, c)
    ensures Frames(DoClean(s, c))
  {
    var s' := DoClean(s, c);
    forall f: nat ensures Tracked(s', f) {
      assert Tracked(s, f);
    }
  }

  lemma FramesDelay(s: State, d: DelayStep)
    requires Control(s) && Frames(s) && DelayEnabled(s, d)
    ensures Frames(DoDelay(s, d))
  {
    var s' := DoDelay(s, d);
    forall f: nat ensures Tracked(s', f) {
      assert Tracked(s, f);
    }
  }

  lemma FramesRemove(s: State, r: RemoveStep)
    requires Control(s) && Frames(s) && RemoveEnabled(s, r)
    ensures Frames(DoRemove(s, r))
  {
    var s' := DoRemove(s, r);
    forall f: nat ensures Tracked(s', f) {
      assert Tracked(s, f);
    }
  }

  lemma TriesXmit(s: State, x: XmitStep)
    requires Control(s) && Tries(s) && XmitEnabled(s, x) && (x.Open? ==> CanOpen(s))
    ensures Tries(DoXmit(s, x))
  {
    var s' := DoXmit(s, x);
    forall f: nat ensures TriedAt(s', f) {
      assert TriedAt(s, f);
    }
    if s'.slot.Some? { assert TriedAt(s, s'.slot.value); }
  }

  lemma TriesTry(s: State, t: TryStep)
    requires Control(s) && Frames(s) && Tries(s) && TryEnabled(s, t)
    ensures Tries(DoTry(s, t))
  {
    var s' := DoTry(s, t);
    forall f: nat ensures TriedAt(s', f) {
      assert TriedAt(s, f);
    }
  }

  lemma TriesClean(s: State, c: CleanStep)
    requires Control(s) && Tries(s) && CleanEnabled(s, c)
    ensures Tries(DoClean(s, c))
  {
    var s' := DoClean(s, c);
    forall f: nat ensures TriedAt(s', f) {
      assert TriedAt(s, f);
    }
  }

  lemma TriesDelay(s: State, d: DelayStep)
    requires Control(s) && Tries(s) && DelayEnabled(s, d)
    ensures Tries(DoDelay(s, d))
  {
    var s' := DoDelay(s, d);
    forall f: nat ensures TriedAt(s', f) {
      assert TriedAt(s, f);
    }
  }

  lemma TriesRemove(s: State, r: RemoveStep)
    requires Control(s) && Tries(s) && RemoveEnabled(s, r)
    ensures Tries(DoRemove(s, r))
  {
    var s' := DoRemove(s, r);
    forall f: nat ensures TriedAt(s', f) {
      assert TriedAt(s, f);
    }
  }

  lemma Append(q: seq<nat>, x: nat)
    requires Increasing(q) && AllBelow(q, x)
    ensures Increasing(q + [x])
  {
    forall i, j | 0 <= i < j < |q + [x]| ensures (q + [x])[i] < (q + [x])[j] {
      assert q[i] in q;
    }
  }

  lemma OrderedXmit(s: State, x: XmitStep)
    requires Control(s) && Frames(s) && Ordered(s) && XmitEnabled(s, x) && (x.Open? ==> CanOpen(s))
    ensures Ordered(DoXmit(s, x))
  {
    if x.Locked? {
      Append(s.accepted, s.xmit.f);
    }
  }

  lemma OrderedTry(s: State, t: TryStep)
    requires Control(s) && Ordered(s) && TryEnabled(s, t)
    ensures Ordered(DoTry(s, t))
  {
    if t.Send? && s.slot.Some? {
      OrderedSend(s, t);
    } else {
      OrderedOther(s, t);
    }
  }

  lemma OrderedSend(s: State, t: TryStep)
    requires Control(s) && Ordered(s) && TryEnabled(s, t) && t.Send? && s.slot.Some?
    ensures Ordered(DoTry(s, t))
  {
    Append(s.sent, s.slot.value);
  }

  lemma OrderedOther(s: State, t: TryStep)
    requires Control(s) && Ordered(s) && TryEnabled(s, t) && !(t.Send? && s.slot.Some?)
    ensures Ordered(DoTry(s, t))
  {
  }

  lemma OrderedClean(s: State, c: CleanStep)
    requires Control(s) && Ordered(s) && CleanEnabled(s, c)
    ensures Ordered(DoClean(s, c))
  {
  }

  lemma OrderedDelay(s: State, d: DelayStep)
    requires Control(s) && Ordered(s) && DelayEnabled(s, d)
    ensures Ordered(DoDelay(s, d))
  {
  }

  lemma OrderedRemove(s: State, r: RemoveStep)
    requires Control(s) && Ordered(s) && RemoveEnabled(s, r)
    ensures Ordered(DoRemove(s, r))
  {
  }

  /** Every step of every handler keeps the invariant, in every interleaving. */
  lemma StepInv(s: State, a: Action)
    requires Inv(s) && Allowed(s, a)
    ensures Inv(Do(s, a))
  {
    match a
    case Xmit(x) =>
      ControlXmit(s, x);
      FramesXmit(s, x);
      TriesXmit(s, x);
      OrderedXmit(s, x);
    case Try(t) =>
      ControlTry(s, t);
      FramesTry(s, t);
      TriesTry(s, t);
      OrderedTry(s, t);
    case Clean(c) =>
      ControlClean(s, c);
      FramesClean(s, c);
      TriesClean(s, c);
      OrderedClean(s, c);
    case Delay(d) =>
      ControlDelay(s, d);
      FramesDelay(s, d);
      TriesDelay(s, d);
      OrderedDelay(s, d);
    case Remove(r) =>
      ControlRemove(s, r);
      FramesRemove(s, r);
      TriesRemove(s, r);
      OrderedRemove(s, r);
  }

  // ---------------------------------------------------------------- whole runs

  /** The state after a sequence of steps, if each is allowed where it is taken. */
  ghost predicate Run(s: State, trace: seq<Action>, s': State)
    decreases |trace|
  {
    if trace == [] then s' == s
    else Allowed(s, trace[0]) && Run(Do(s, trace[0]), trace[1..], s')
  }

  ghost predicate Reachable(s: State) {
    exists trace :: Run(Init(), trace, s)
  }

  lemma {:induction false} RunInv(s: State, trace: seq<Action>, s': State)
    requires Inv(s) && Run(s, trace, s')
    ensures Inv(s')
    decreases |trace|
  {
    if trace != [] {
      StepInv(s, trace[0]);
      RunInv(Do(s, trace[0]), trace[1..], s');
    }
  }

  lemma ReachableInv(s: State)
    requires Reachable(s)
    ensures Inv(s)
  {
    var trace :| Run(Init(), trace, s);
    InitInv();
    RunInv(Init(), trace, s);
  }

  /**
   * Exactly-once ownership: no frame is ever consumed twice, a frame that is neither with xmit nor
   * in the slot has been consumed, and when remove has finished and no xmit lingers, every frame
   * that was handed over has been consumed exactly once.
   */
  lemma ExactlyOnce(s: State, f: nat)
    requires Reachable(s)
    ensures s.consumed[f] <= 1
    ensures f < s.handed && !WithXmit(s, f) && s.slot != Some(f) ==> s.consumed[f] == 1
    ensures s.remove.RDone? && s.xmit.XIdle? ==> s.consumed[f] == (if f < s.handed then 1 else 0)
  {
    ReachableInv(s);
    assert Tracked(s, f);
  }

  /** xmit never finds a frame in the slot it stores into. */
  lemma NeverOverwritten(s: State)
    requires Reachable(s) && Enabled(s, Xmit(Locked)) && !s.isShutdown
    ensures s.slot.None?
  {
    ReachableInv(s);
  }

  /** Once both cancels have returned, nothing is queued or running, and nothing ever will be. */
  lemma {:induction false} QuietForever(s: State, trace: seq<Action>, s': State)
    requires Reachable(s) && Cancelled(s) && Run(s, trace, s')
    ensures Cancelled(s') && s'.worker.WIdle? && s'.delayed.DIdle? && !s'.workPending && !s'.delayPending
    ensures s'.slot.Some? ==> s'.slot == s.slot
  {
    ReachableInv(s);
    QuietRun(s, trace, s');
  }

  lemma QuietStep(s: State, a: Action)
    requires Inv(s) && Cancelled(s) && Allowed(s, a)
    ensures Cancelled(Do(s, a)) && (Do(s, a).slot.Some? ==> Do(s, a).slot == s.slot)
  {
  }

  lemma {:induction false} QuietRun(s: State, trace: seq<Action>, s': State)
    requires Inv(s) && Cancelled(s) && Run(s, trace, s')
    ensures Cancelled(s') && s'.worker.WIdle? && s'.delayed.DIdle? && !s'.workPending && !s'.delayPending
    ensures s'.slot.Some? ==> s'.slot == s.slot
    decreases |trace|
  {
    if trace != [] {
      StepInv(s, trace[0]);
      QuietStep(s, trace[0]);
      QuietRun(Do(s, trace[0]), trace[1..], s');
    }
  }

  /** Each frame gets at most two send attempts; the sent frames are an ordered selection of the accepted ones. */
  lemma InOrderOnce(s: State, f: nat)
    requires Reachable(s)
    ensures s.attempts[f] <= 2
    ensures Increasing(s.sent) && Increasing(s.accepted) && Subset(s.sent, s.accepted) && AllBelow(s.accepted, s.handed)
  {
    ReachableInv(s);
    assert TriedAt(s, f);
  }

  /** Who starts and stops the queue; shut: shutdown has begun. */
  function QueueStep(a: Action, awake: bool, shut: bool): bool {
    match a
    case Xmit(x) => if x.Open? then true else if x.Stop? || x.Call? then false else awake
    case Clean(c) => awake || (c.Wake? && !shut)
    case Remove(r) => awake && !r.Shutdown?
    case _ => awake
  }

  function QueueAwake(trace: seq<Action>, awake: bool, shut: bool): bool {
    if trace == [] then awake
    else QueueAwake(trace[1..], QueueStep(trace[0], awake, shut), shut || trace[0] == Remove(Shutdown))
  }

  lemma QueueXmit(s: State, x: XmitStep)
    requires XmitEnabled(s, x)
    ensures DoXmit(s, x).awake == QueueStep(Xmit(x), s.awake, s.isShutdown)
    ensures DoXmit(s, x).isShutdown == (s.isShutdown || Xmit(x) == Remove(Shutdown))
  {
  }

  lemma QueueTry(s: State, t: TryStep)
    requires TryEnabled(s, t)
    ensures DoTry(s, t).awake == QueueStep(Try(t), s.awake, s.isShutdown)
    ensures DoTry(s, t).isShutdown == (s.isShutdown || Try(t) == Remove(Shutdown))
  {
  }

  lemma QueueClean(s: State, c: CleanStep)
    requires CleanEnabled(s, c)
    ensures DoClean(s, c).awake == QueueStep(Clean(c), s.awake, s.isShutdown)
    ensures DoClean(s, c).isShutdown == (s.isShutdown || Clean(c) == Remove(Shutdown))
  {
  }

  lemma QueueDelay(s: State, d: DelayStep)
    requires DelayEnabled(s, d)
    ensures DoDelay(s, d).awake == QueueStep(Delay(d), s.awake, s.isShutdown)
    ensures DoDelay(s, d).isShutdown == (s.isShutdown || Delay(d) == Remove(Shutdown))
  {
  }

  lemma QueueRemove(s: State, r: RemoveStep)
    requires RemoveEnabled(s, r)
    ensures DoRemove(s, r).awake == QueueStep(Remove(r), s.awake, s.isShutdown)
    ensures DoRemove(s, r).isShutdown == (s.isShutdown || Remove(r) == Remove(Shutdown))
  {
  }

  lemma QueueOne(s: State, a: Action)
    requires Enabled(s, a)
    ensures Do(s, a).awake == QueueStep(a, s.awake, s.isShutdown)
    ensures Do(s, a).isShutdown == (s.isShutdown || a == Remove(Shutdown))
  {
    match a
    case Xmit(x) => QueueXmit(s, x);
    case Try(t) => QueueTry(s, t);
    case Clean(c) => QueueClean(s, c);
    case Delay(d) => QueueDelay(s, d);
    case Remove(r) => QueueRemove(s, r);
  }

  /**
   * In every run: the queue is awake exactly if it was opened, or woken by a worker before shutdown, since it
   * was last stopped, given a frame, or shut down.
   */
  lemma {:induction false} QueueExact(s: State, trace: seq<Action>, s': State)
    requires Run(s, trace, s')
    ensures s'.awake == QueueAwake(trace, s.awake, s.isShutdown)
    decreases |trace|
  {
    if trace != [] {
      QueueOne(s, trace[0]);
      QueueExact(Do(s, trace[0]), trace[1..], s');
    }
  }


  // ---------------------------------------------------------------- no frame is dropped after one attempt

  /** Attempts made for the frame in the slot, exactly. */
  predicate Expected(s: State) {
    s.slot.Some? ==>
      var n := s.attempts[s.slot.value];
      && (s.worker.WFailed? ==> n == if s.isDelayed then 2 else 1)
      && (s.worker.WRetry? ==> n == 1)
      && (s.worker.WConsume? || s.worker.WClear? ==> s.slot.value in s.sent || n == 2)
      && (s.workPending || s.worker.WStart? || s.delayPending || s.delayed.DStart? ==> n == if s.isDelayed then 1 else 0)
  }

  /** A frame that has left the slot has been sent, or has failed twice; only remove gives up earlier. */
  ghost predicate SettledAt(s: State, f: nat) {
    f in s.accepted && s.slot != Some(f) && !s.remove.RDone? ==> f in s.sent || s.attempts[f] == 2
  }

  ghost predicate Settled(s: State) {
    Expected(s) && forall f :: SettledAt(s, f)
  }

  lemma SettledXmit(s: State, x: XmitStep)
    requires Inv(s) && Settled(s) && XmitEnabled(s, x) && (x.Open? ==> CanOpen(s))
    ensures Settled(DoXmit(s, x))
  {
    var s' := DoXmit(s, x);
    if s'.slot.Some? { assert TriedAt(s, s'.slot.value); }
    forall f: nat ensures SettledAt(s', f) { assert SettledAt(s, f); }
  }

  lemma SettledTry(s: State, t: TryStep)
    requires Inv(s) && Settled(s) && TryEnabled(s, t)
    ensures Settled(DoTry(s, t))
  {
    var s' := DoTry(s, t);
    ExpectedTry(s, t);
    OwnersTry(s, t);
    if t.Send? { SendAdds(s, t.ok); } else { OtherAdds(s, t); }
    forall f: nat ensures SettledAt(s', f) { assert SettledAt(s, f); }
  }

  /** An attempt adds to what has been tried and sent for the frame in the slot only. */
  lemma SendAdds(s: State, ok: bool)
    requires s.worker.WStart?
    ensures var s' := DoTry(s, Send(ok));
            && s'.accepted == s.accepted
            && s'.attempts == (if s.slot.Some? then s.attempts + multiset{s.slot.value} else s.attempts)
            && s'.sent == (if ok && s.slot.Some? then s.sent + [s.slot.value] else s.sent)
  {
  }

  lemma OtherAdds(s: State, t: TryStep)
    requires TryEnabled(s, t) && !t.Send?
    ensures var s' := DoTry(s, t); s'.accepted == s.accepted && s'.attempts == s.attempts && s'.sent == s.sent
  {
  }

  lemma ExpectedTry(s: State, t: TryStep)
    requires Control(s) && Expected(s) && TryEnabled(s, t)
    ensures Expected(DoTry(s, t))
  {
  }

  lemma SettledClean(s: State, c: CleanStep)
    requires Inv(s) && Settled(s) && CleanEnabled(s, c)
    ensures Settled(DoClean(s, c))
  {
    var s' := DoClean(s, c);
    forall f: nat ensures SettledAt(s', f) { assert SettledAt(s, f); }
  }

  lemma SettledDelay(s: State, d: DelayStep)
    requires Inv(s) && Settled(s) && DelayEnabled(s, d)
    ensures Settled(DoDelay(s, d))
  {
    var s' := DoDelay(s, d);
    forall f: nat ensures SettledAt(s', f) { assert SettledAt(s, f); }
  }

  lemma SettledRemove(s: State, r: RemoveStep)
    requires Inv(s) && Settled(s) && RemoveEnabled(s, r)
    ensures Settled(DoRemove(s, r))
  {
    var s' := DoRemove(s, r);
    forall f: nat ensures SettledAt(s', f) { assert SettledAt(s, f); }
  }

  lemma {:induction false} RunSettled(s: State, trace: seq<Action>, s': State)
    requires Inv(s) && Settled(s) && Run(s, trace, s')
    ensures Settled(s')
    decreases |trace|
  {
    if trace != [] {
      StepInv(s, trace[0]);
      match trace[0] {
        case Xmit(x) => SettledXmit(s, x);
        case Try(t) => SettledTry(s, t);
        case Clean(c) => SettledClean(s, c);
        case Delay(d) => SettledDelay(s, d);
        case Remove(r) => SettledRemove(s, r);
      }
      RunSettled(Do(s, trace[0]), trace[1..], s');
    }
  }

  /** The retry worker finds that a second attempt is wanted whenever it runs before shutdown. */
  lemma KickWanted(s: State)
    requires Reachable(s) && s.delayed.DStart? && !s.isShutdown
    ensures s.isDelayed && s.slot.Some? && s.attempts[s.slot.value] == 1
  {
    ReachableInv(s);
    var trace :| Run(Init(), trace, s);
    InitInv();
    RunSettled(Init(), trace, s);
  }

  /**
   * Every frame that was stored in the slot and has been consumed was sent, or two attempts to send it have
   * failed; only the end of remove consumes a frame without.
   */
  lemma TwoAttempts(s: State, f: nat)
    requires Reachable(s) && f in s.accepted && s.consumed[f] == 1
    ensures f in s.sent || s.attempts[f] == 2 || s.remove.RClear? || s.remove.RDone?
    ensures !s.isShutdown ==> f in s.sent || s.attempts[f] == 2
  {
    ReachableInv(s);
    var trace :| Run(Init(), trace, s);
    InitInv();
    RunSettled(Init(), trace, s);
    assert Tracked(s, f) && SettledAt(s, f);
  }

  // ---------------------------------------------------------------- no stuck transmitter

  /** Somebody is bound to wake the queue. */
  predicate InGoodHands(s: State) {
    || s.xmit.XStopped?
    || (s.slot.Some? && (s.workPending || s.delayPending || s.delayed.DStart? || !Resting(s)))
    || s.worker.WReset? || s.worker.WWake?
  }

  /** A stopped queue of an open interface is never forgotten. */
  lemma NeverStuck(s: State)
    requires Reachable(s) && s.isOpen && !s.isShutdown && !s.awake
    ensures InGoodHands(s)
  {
    ReachableInv(s);
  }

  /** A step of one of the two work items. */
  predicate Internal(a: Action) { a.Try? || a.Clean? || a.Delay? }

  /** Steps the work items can still take before the queue is awake again. */
  function Rank(s: State): nat {
    (if s.worker.WExit? then 1 else 0) + (if s.delayed.DExit? then 1 else 0) +
    (match s.worker
     case WWake => 3
     case WReset => 4
     case WClear => 5
     case WConsume => 6
     case WFailed => if s.isDelayed then 7 else 18
     case WStart => if s.isDelayed then 8 else 19
     case WRetry => 17
     case _ =>
       if s.workPending then (if s.isDelayed then 10 else 21)
       else if s.delayed.DStart? then 12
       else if s.delayPending then 14
       else 0)
  }

  lemma RankTry(s: State, t: TryStep)
    requires Control(s) && !s.isShutdown && TryEnabled(s, t)
    ensures Rank(DoTry(s, t)) < Rank(s)
  {
  }

  lemma RankClean(s: State, c: CleanStep)
    requires Control(s) && !s.isShutdown && CleanEnabled(s, c)
    ensures Rank(DoClean(s, c)) < Rank(s)
  {
  }

  lemma RankDelay(s: State, d: DelayStep)
    requires Control(s) && !s.isShutdown && DelayEnabled(s, d)
    ensures Rank(DoDelay(s, d)) < Rank(s)
  {
  }

  /** Every internal step brings the wake-up closer, and while one is owed some internal step is possible. */
  lemma Progress(s: State, a: Action)
    requires Inv(s) && !s.isShutdown
    ensures Internal(a) && Enabled(s, a) ==> Rank(Do(s, a)) < Rank(s)
    ensures InGoodHands(s) && !s.xmit.XStopped? ==> exists b :: Internal(b) && Enabled(s, b)
  {
    if Internal(a) && Enabled(s, a) {
      match a
      case Try(t) => RankTry(s, t);
      case Clean(c) => RankClean(s, c);
      case Delay(d) => RankDelay(s, d);
    }
    if InGoodHands(s) && !s.xmit.XStopped? {
      var b := NextInternal(s);
      assert Internal(b);
    }
  }

  lemma NextInternal(s: State) returns (b: Action)
    requires Inv(s) && !s.isShutdown && InGoodHands(s) && !s.xmit.XStopped?
    ensures Internal(b) && Enabled(s, b)
  {
    b := match s.worker
      case WStart => Try(Send(true))
      case WFailed => Try(Check)
      case WRetry => Try(Retry)
      case WConsume => Clean(Consume)
      case WClear => Clean(Clear)
      case WReset => Clean(Reset)
      case WWake => Clean(Wake)
      case WExit => Clean(Return)
      case WIdle =>
        if s.workPending then Try(Start)
        else if s.delayed.DStart? then Delay(Kick)
        else if s.delayed.DExit? then Delay(Finish)
        else Delay(Fire);
  }

  // ---------------------------------------------------------------- reopening the interface

  /** Nobody refers to frame f any more, and it was never given back to the stack. */
  ghost predicate Lost(s: State, f: nat) {
    f < s.handed && s.consumed[f] == 0 && !WithXmit(s, f) && s.slot != Some(f)
  }

  /** No run from s ever loses a frame. */
  ghost predicate LosesNothing(s: State) {
    forall trace, s', f :: Run(s, trace, s') ==> !Lost(s', f)
  }

  lemma NoneLost(s: State, f: nat)
    requires Inv(s)
    ensures !Lost(s, f)
  {
    assert Tracked(s, f);
  }

  lemma {:induction false} RunStep(s: State, a: Action, trace: seq<Action>, s': State)
    requires Allowed(s, a) && Run(Do(s, a), trace, s')
    ensures Run(s, [a] + trace, s')
  {
    assert ([a] + trace)[1..] == trace;
  }

  /** The stack hands over a frame and xmit stores it, whatever the slot holds. */
  lemma HandOver(s: State, trace: seq<Action>, s': State)
    requires s.isOpen && s.awake && s.xmit.XIdle? && !s.isShutdown
    requires Run(Stored(s), trace, s')
    ensures Run(s, [Xmit(Call), Xmit(Locked)] + trace, s')
  {
    var s1 := DoXmit(s, Call);
    assert DoXmit(s1, Locked) == Stored(s);
    RunStep(s1, Xmit(Locked), trace, s');
    RunStep(s, Xmit(Call), [Xmit(Locked)] + trace, s');
    assert [Xmit(Call)] + ([Xmit(Locked)] + trace) == [Xmit(Call), Xmit(Locked)] + trace;
  }

  function Stored(s: State): State {
    s.(handed := s.handed + 1, awake := false, slot := Some(s.handed), workPending := true,
       accepted := s.accepted + [s.handed], xmit := XIdle)
  }

  /** With a frame in the slot, the next frame overwrites it. */
  lemma LoseSlot(s: State) returns (trace: seq<Action>, s': State, f: nat)
    requires s.isOpen && s.awake && s.xmit.XIdle? && !s.isShutdown
    requires s.slot.Some? && s.slot.value < s.handed && s.consumed[s.slot.value] == 0
    ensures Run(s, trace, s') && Lost(s', f)
  {
    s', f := Stored(s), s.slot.value;
    HandOver(s, [], s');
    trace := [Xmit(Call), Xmit(Locked)] + [];
  }

  /** While the worker clears the slot, it throws away the next frame instead. */
  lemma LoseCleared(s: State) returns (trace: seq<Action>, s': State, f: nat)
    requires s.isOpen && s.awake && s.xmit.XIdle? && !s.isShutdown
    requires s.worker.WClear? && s.consumed[s.handed] == 0
    ensures Run(s, trace, s') && Lost(s', f)
  {
    var s1 := Stored(s);
    s', f := DoClean(s1, Clear), s.handed;
    RunStep(s1, Clean(Clear), [], s');
    HandOver(s, [Clean(Clear)] + [], s');
    trace := [Xmit(Call), Xmit(Locked)] + ([Clean(Clear)] + []);
  }

  /** A worker about to wake the queue lets a second frame in on top of the first. */
  lemma LoseWoken(s: State) returns (trace: seq<Action>, s': State, f: nat)
    requires s.isOpen && s.awake && s.xmit.XIdle? && !s.isShutdown
    requires s.worker.WWake? && s.consumed[s.handed] == 0
    ensures Run(s, trace, s') && Lost(s', f)
  {
    var s1 := Stored(s);
    var s2 := DoClean(s1, Wake);
    var rest;
    rest, s', f := LoseSlot(s2);
    RunStep(s1, Clean(Wake), rest, s');
    HandOver(s, [Clean(Wake)] + rest, s');
    trace := [Xmit(Call), Xmit(Locked)] + ([Clean(Wake)] + rest);
  }

  lemma LoseReset(s: State) returns (trace: seq<Action>, s': State, f: nat)
    requires s.isOpen && s.awake && s.xmit.XIdle? && !s.isShutdown
    requires s.worker.WReset? && s.consumed[s.handed] == 0
    ensures Run(s, trace, s') && Lost(s', f)
  {
    var rest;
    rest, s', f := LoseWoken(DoClean(s, Reset));
    RunStep(s, Clean(Reset), rest, s');
    trace := [Clean(Reset)] + rest;
  }

  /**
   * Reopening is safe exactly when the slot is empty and the worker is past its cleanup (or the
   * device is being removed): otherwise some run of the handlers loses a frame for good.
   */
  lemma ReopenExact(s: State)
    requires Reachable(s) && Enabled(s, Xmit(Open))
    ensures CanOpen(s) <==> LosesNothing(DoXmit(s, Open))
  {
    ReachableInv(s);
    var s1 := DoXmit(s, Open);
    if CanOpen(s) {
      StepInv(s, Xmit(Open));
      forall trace, s', f: nat | Run(s1, trace, s') ensures !Lost(s', f) {
        RunInv(s1, trace, s');
        NoneLost(s', f);
      }
      assert LosesNothing(s1);
    } else {
      assert Tracked(s, s.handed);
      if s.slot.Some? { assert Tracked(s, s.slot.value); }
      var trace, s', f;
      if s.worker.WClear? {
        trace, s', f := LoseCleared(s1);
      } else if s.worker.WWake? {
        trace, s', f := LoseWoken(s1);
      } else if s.worker.WReset? {
        trace, s', f := LoseReset(s1);
      } else {
        trace, s', f := LoseSlot(s1);
      }
      assert Run(s1, trace, s') && Lost(s', f);
    }
  }

  /** The stack hands over frame 0, closes the interface, and the worker sends and consumes the frame. */
  function ClosedInCleanup(): State {
    Init().(worker := WReset, handed := 1, accepted := [0], sent := [0], attempts := multiset{0}, consumed := multiset{0})
  }

  lemma CleanupReached() returns (trace: seq<Action>)
    ensures Run(Init(), trace, ClosedInCleanup())
  {
    var s0 := Init();
    var s1 := Do(s0, Xmit(Open));
    var s2 := Do(s1, Xmit(Call));
    var s3 := Do(s2, Xmit(Locked));
    var s4 := Do(s3, Xmit(Stop));
    var s5 := Do(s4, Try(Start));
    var s6 := Do(s5, Try(Send(true)));
    var s7 := Do(s6, Clean(Consume));
    var s8 := Do(s7, Clean(Clear));
    assert s8 == ClosedInCleanup();
    RunStep(s7, Clean(Clear), [], s8);
    RunStep(s6, Clean(Consume), [Clean(Clear)] + [], s8);
    var t6 := [Clean(Consume)] + ([Clean(Clear)] + []);
    RunStep(s5, Try(Send(true)), t6, s8);
    RunStep(s4, Try(Start), [Try(Send(true))] + t6, s8);
    var t4 := [Try(Start)] + ([Try(Send(true))] + t6);
    RunStep(s3, Xmit(Stop), t4, s8);
    RunStep(s2, Xmit(Locked), [Xmit(Stop)] + t4, s8);
    var t2 := [Xmit(Locked)] + ([Xmit(Stop)] + t4);
    RunStep(s1, Xmit(Call), t2, s8);
    RunStep(s0, Xmit(Open), [Xmit(Call)] + t2, s8);
    trace := [Xmit(Open)] + ([Xmit(Call)] + t2);
  }

  /**
   * A complete run that loses a frame: from probe to a state in which the slot is empty and the interface
   * can be reopened, and from there, reopened, to a state in which a frame is gone.
   */
  lemma ReopenLoses() returns (before: seq<Action>, s: State, after: seq<Action>, s': State, f: nat)
    ensures Run(Init(), before, s) && Reachable(s) && s.slot.None?
    ensures Enabled(s, Xmit(Open)) && !CanOpen(s)
    ensures Run(DoXmit(s, Open), after, s') && Lost(s', f)
  {
    s := ClosedInCleanup();
    before := CleanupReached();
    after, s', f := LoseReset(DoXmit(s, Open));
  }
}
