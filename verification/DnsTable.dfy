/**
 * The entries of the resolver's table and request list, their timers, and what must hold of them.
 * A request is numbered when dns_enqueue accepts it; a call records one invocation of a callback.
 */
module DnsTable {
  import opened Basics
  import opened Wrappers

  datatype State = Unused | New | Asking | Done

  datatype Entry = Entry(state: State, txid: nat, serverIdx: nat, tmr: nat, retries: nat, seqno: nat, ttl: nat,
                         name: seq<Byte>)

  /** A request list entry: no callback, or the callback of request id for table entry idx. */
  datatype Slot = Free | Pending(id: nat, idx: nat)

  /** The callback of request id was invoked, `waited` timer ticks after dns_enqueue. */
  datatype Call = Call(id: nat, address: Option<nat>, waited: nat)

  /** DNS_MAX_SERVERS and DNS_MAX_RETRIES. */
  datatype Config = Config(servers: nat, retries: nat)

  ghost predicate Sane(c: Config) {
    1 <= c.servers <= 255 && 1 <= c.retries <= 255
  }

  // ---------------------------------------------------------------- how long an entry may still take

  /** The waiting times between the retries that are left. */
  function Rest(r: nat, m: nat): nat
    decreases m - r
  {
    if r + 1 >= m then 0 else r + 1 + Rest(r + 1, m)
  }

  /** The time spent on one server. */
  function Period(c: Config): nat {
    1 + Rest(0, c.retries)
  }

  function Later(n: nat, period: nat): nat {
    if n == 0 then 0 else period + Later(n - 1, period)
  }

  /** Ticks until an entry in state ASKING is given up at the latest. */
  function Rank(c: Config, e: Entry): nat
    requires e.serverIdx < c.servers
  {
    Later(c.servers - 1 - e.serverIdx, Period(c)) + e.tmr + Rest(e.retries, c.retries)
  }

  function Bound(c: Config): nat {
    Later(c.servers, Period(c))
  }

  lemma {:induction false} RestSum(r: nat, m: nat)
    requires r < m
    ensures 2 * Rest(r, m) == m * (m - 1) - r * (r + 1)
    decreases m - r
  {
    if r + 1 < m {
      RestSum(r + 1, m);
    }
  }

  lemma {:induction false} LaterTimes(n: nat, period: nat)
    ensures Later(n, period) == n * period
  {
    if n > 0 { LaterTimes(n - 1, period); }
  }

  /** The bound is DNS_MAX_SERVERS * (1 + M * (M - 1) / 2), M being DNS_MAX_RETRIES. */
  lemma BoundFormula(c: Config)
    requires Sane(c)
    ensures Bound(c) == c.servers * (1 + c.retries * (c.retries - 1) / 2)
  {
    RestSum(0, c.retries);
    LaterTimes(c.servers, Period(c));
  }

  // ---------------------------------------------------------------- invariants, entry by entry

  ghost predicate AskingOk(c: Config, e: Entry) {
    e.serverIdx < c.servers && 1 <= e.tmr <= 255 && e.retries < c.retries && Rank(c, e) <= Bound(c)
  }

  ghost predicate EntryOk(c: Config, t: seq<Entry>, i: nat) {
    i < |t| ==>
      && 0 <= t[i].txid < 65536
      && (t[i].state.Asking? ==> AskingOk(c, t[i]))
  }

  /** The transaction ids of entries in state ASKING differ. */
  ghost predicate Apart(t: seq<Entry>, i: nat, j: nat) {
    i < |t| && j < |t| && i != j && t[i].state.Asking? && t[j].state.Asking? ==> t[i].txid != t[j].txid
  }

  ghost predicate GoodTable(c: Config, t: seq<Entry>) {
    (forall i: nat :: EntryOk(c, t, i)) && (forall i: nat, j: nat :: Apart(t, i, j))
  }

  /**
   * A request that is waiting waits for an entry in state ASKING, and will not wait for too long. Entries
   * from k on have not been looked at yet in the current tick.
   */
  ghost predicate SlotOk(c: Config, t: seq<Entry>, q: seq<Slot>, issued: seq<nat>, now: nat, k: nat, r: nat) {
    r < |q| && q[r].Pending? ==>
      && q[r].id < |issued| && q[r].idx < |t| && t[q[r].idx].state.Asking?
      && t[q[r].idx].serverIdx < c.servers
      && issued[q[r].id] <= now
      && now - issued[q[r].id] + Rank(c, t[q[r].idx]) <= Bound(c) + (if q[r].idx >= k then 1 else 0)
  }

  /** The same, but of requests for entry i only that their callback is not late if it is invoked now. */
  ghost predicate SlotBut(c: Config, t: seq<Entry>, q: seq<Slot>, issued: seq<nat>, now: nat, k: nat, i: nat, r: nat) {
    if r < |q| && q[r].Pending? && q[r].idx == i then
      q[r].id < |issued| && issued[q[r].id] <= now <= issued[q[r].id] + Bound(c)
    else
      SlotOk(c, t, q, issued, now, k, r)
  }

  /** The same as SlotOk, but the requests for entry i have just been issued. */
  ghost predicate SlotNew(c: Config, t: seq<Entry>, q: seq<Slot>, issued: seq<nat>, now: nat, k: nat, i: nat, r: nat) {
    if r < |q| && q[r].Pending? && q[r].idx == i then
      q[r].id < |issued| && issued[q[r].id] == now
    else
      SlotOk(c, t, q, issued, now, k, r)
  }

  ghost predicate NotFor(q: seq<Slot>, i: nat, r: nat) {
    r < |q| && q[r].Pending? ==> q[r].idx != i
  }

  ghost predicate GoodSlots(c: Config, t: seq<Entry>, q: seq<Slot>, issued: seq<nat>, now: nat, k: nat) {
    forall r: nat :: SlotOk(c, t, q, issued, now, k, r)
  }

  ghost predicate GoodSlotsBut(c: Config, t: seq<Entry>, q: seq<Slot>, issued: seq<nat>, now: nat, k: nat, i: nat) {
    forall r: nat :: SlotBut(c, t, q, issued, now, k, i, r)
  }

  ghost predicate GoodSlotsNew(c: Config, t: seq<Entry>, q: seq<Slot>, issued: seq<nat>, now: nat, k: nat, i: nat) {
    forall r: nat :: SlotNew(c, t, q, issued, now, k, i, r)
  }

  ghost predicate NoneFor(q: seq<Slot>, i: nat) {
    forall r: nat :: NotFor(q, i, r)
  }

  ghost predicate InTime(c: Config, log: seq<Call>) {
    forall n: nat :: n < |log| ==> log[n].waited <= Bound(c)
  }

  // ---------------------------------------------------------------- every request is somewhere, once

  function IsFor(s: Slot, id: nat): nat {
    if s.Pending? && s.id == id then 1 else 0
  }

  /** The number of slots in which request id waits. */
  function Waiting(q: seq<Slot>, id: nat): nat {
    if q == [] then 0 else Waiting(q[..|q| - 1], id) + IsFor(q[|q| - 1], id)
  }

  /** How often the callback of request id has been invoked. */
  function Called(log: seq<Call>, id: nat): nat {
    if log == [] then 0 else Called(log[..|log| - 1], id) + (if log[|log| - 1].id == id then 1 else 0)
  }

  ghost predicate Once(q: seq<Slot>, log: seq<Call>, n: nat, id: nat) {
    Waiting(q, id) + Called(log, id) == if id < n then 1 else 0
  }

  /** Each of the n requests is either waiting, in one slot, or has had its callback invoked, once. */
  ghost predicate Ledger(q: seq<Slot>, log: seq<Call>, n: nat) {
    forall id: nat :: Once(q, log, n, id)
  }

  lemma {:induction false} WaitingUpdate(q: seq<Slot>, r: nat, s: Slot, id: nat)
    requires r < |q|
    ensures Waiting(q[r := s], id) + IsFor(q[r], id) == Waiting(q, id) + IsFor(s, id)
    decreases |q|
  {
    var n := |q| - 1;
    if r == n {
      assert q[r := s][..n] == q[..n];
    } else {
      WaitingUpdate(q[..n], r, s, id);
      assert q[r := s][..n] == q[..n][r := s];
    }
  }

  lemma CalledAppend(log: seq<Call>, c: Call, id: nat)
    ensures Called(log + [c], id) == Called(log, id) + (if c.id == id then 1 else 0)
  {
    assert (log + [c])[..|log|] == log;
  }

  lemma {:induction false} WhereWaiting(q: seq<Slot>, id: nat) returns (r: nat)
    requires Waiting(q, id) > 0
    ensures r < |q| && q[r].Pending? && q[r].id == id
    decreases |q|
  {
    var n := |q| - 1;
    if IsFor(q[n], id) == 1 {
      r := n;
    } else {
      r := WhereWaiting(q[..n], id);
    }
  }

  lemma {:induction false} AllFree(q: seq<Slot>, id: nat)
    requires forall r :: 0 <= r < |q| ==> q[r].Free?
    ensures Waiting(q, id) == 0
  {
    if q != [] { AllFree(q[..|q| - 1], id); }
  }

  /** Invoking the callback of a slot and freeing it keeps the ledger. */
  lemma LedgerCall(q: seq<Slot>, log: seq<Call>, n: nat, r: nat, c: Call, q': seq<Slot>, log': seq<Call>)
    requires Ledger(q, log, n) && r < |q| && q[r].Pending? && c.id == q[r].id
    requires q' == q[r := Free] && log' == log + [c]
    ensures Ledger(q', log', n)
  {
    forall id: nat ensures Once(q', log', n, id) {
      assert Once(q, log, n, id);
      WaitingUpdate(q, r, Free, id);
      CalledAppend(log, c, id);
    }
  }

  /** A new request in a free slot keeps the ledger. */
  lemma LedgerIssue(q: seq<Slot>, log: seq<Call>, n: nat, n': nat, r: nat, idx: nat, q': seq<Slot>)
    requires Ledger(q, log, n) && r < |q| && q[r].Free? && n' == n + 1 && q' == q[r := Pending(n, idx)]
    ensures Ledger(q', log, n')
  {
    forall id: nat ensures Once(q', log, n', id) {
      assert Once(q, log, n, id);
      WaitingUpdate(q, r, Pending(n, idx), id);
    }
  }

  // ---------------------------------------------------------------- steps

  /** Changing entry i keeps the table good if the new entry is. */
  lemma TableUpdate(c: Config, t: seq<Entry>, i: nat, e: Entry)
    requires GoodTable(c, t) && i < |t|
    requires 0 <= e.txid < 65536
    requires e.state.Asking? ==> AskingOk(c, e)
    requires e.state.Asking? ==> (t[i].state.Asking? && e.txid == t[i].txid) || Fresh(t, i, e.txid)
    ensures GoodTable(c, t[i := e])
  {
    var t' := t[i := e];
    forall j: nat ensures EntryOk(c, t', j) {
      assert EntryOk(c, t, j);
    }
    forall a: nat, b: nat ensures Apart(t', a, b) {
      assert Apart(t, a, b);
      if Fresh(t, i, e.txid) {
        assert Clear(t, i, e.txid, a) && Clear(t, i, e.txid, b);
      }
    }
  }

  ghost predicate Clear(t: seq<Entry>, i: nat, txid: nat, j: nat) {
    j < |t| && j != i && t[j].state.Asking? ==> t[j].txid != txid
  }

  /** No other entry in state ASKING has this transaction id. */
  ghost predicate Fresh(t: seq<Entry>, i: nat, txid: nat) {
    forall j: nat :: Clear(t, i, txid, j)
  }

  /** An entry that is still asked for comes closer to its end: by a tick if it was behind. */
  lemma SlotsStep(c: Config, t: seq<Entry>, q: seq<Slot>, issued: seq<nat>, now: nat, k: nat, k': nat,
                  i: nat, e: Entry, t': seq<Entry>)
    requires GoodSlots(c, t, q, issued, now, k) && i < |t| && t' == t[i := e] && t[i].state.Asking? && e.state.Asking?
    requires t[i].serverIdx < c.servers && e.serverIdx < c.servers
    requires (k' == k && Rank(c, e) <= Rank(c, t[i])) || (k' == k + 1 && k == i && Rank(c, e) < Rank(c, t[i]))
    ensures GoodSlots(c, t', q, issued, now, k')
  {
    forall r: nat ensures SlotOk(c, t', q, issued, now, k', r) {
      assert SlotOk(c, t, q, issued, now, k, r);
    }
  }

  /** Whatever becomes of entry i, the requests for the others are not affected. */
  lemma SlotsBut(c: Config, t: seq<Entry>, q: seq<Slot>, issued: seq<nat>, now: nat, k: nat, k': nat,
                 i: nat, e: Entry, t': seq<Entry>)
    requires GoodTable(c, t) && GoodSlots(c, t, q, issued, now, k) && i < |t| && t' == t[i := e]
    requires k' == k || (k' == k + 1 && k == i)
    ensures GoodSlotsBut(c, t', q, issued, now, k', i)
  {
    assert EntryOk(c, t, i);
    forall r: nat ensures SlotBut(c, t', q, issued, now, k', i, r) {
      assert SlotOk(c, t, q, issued, now, k, r);
    }
  }

  /** An entry that nobody waits for can be changed freely. */
  lemma SlotsFree(c: Config, t: seq<Entry>, q: seq<Slot>, issued: seq<nat>, now: nat, k: nat,
                  i: nat, e: Entry, t': seq<Entry>)
    requires GoodSlotsBut(c, t, q, issued, now, k, i) && NoneFor(q, i) && i < |t| && t' == t[i := e]
    ensures GoodSlots(c, t', q, issued, now, k)
  {
    forall r: nat ensures SlotOk(c, t', q, issued, now, k, r) {
      assert SlotBut(c, t, q, issued, now, k, i, r) && NotFor(q, i, r);
    }
  }

  /** Nobody waits for an entry that is not in state ASKING. */
  lemma NobodyWaits(c: Config, t: seq<Entry>, q: seq<Slot>, issued: seq<nat>, now: nat, k: nat, i: nat)
    requires GoodSlots(c, t, q, issued, now, k) && i < |t| && !t[i].state.Asking?
    ensures NoneFor(q, i)
  {
    forall r: nat ensures NotFor(q, i, r) {
      assert SlotOk(c, t, q, issued, now, k, r);
    }
  }

  /** The next tick: every entry is behind. */
  lemma SlotsTick(c: Config, t: seq<Entry>, q: seq<Slot>, issued: seq<nat>, now: nat, now': nat)
    requires GoodSlots(c, t, q, issued, now, |t|) && now' == now + 1
    ensures GoodSlots(c, t, q, issued, now', 0)
  {
    forall r: nat ensures SlotOk(c, t, q, issued, now', 0, r) {
      assert SlotOk(c, t, q, issued, now, |t|, r);
    }
  }

  /** The retry after the current one. */
  lemma RankRetry(c: Config, e: Entry)
    requires e.serverIdx < c.servers && e.tmr == 1 && e.retries + 1 < c.retries
    ensures Rank(c, e.(retries := e.retries + 1, tmr := e.retries + 1)) == Rank(c, e) - 1
  {
  }

  /** The change to the next server, after the last retry. */
  lemma RankServer(c: Config, e: Entry)
    requires e.serverIdx + 1 < c.servers && e.tmr == 1 && e.retries + 1 == c.retries
    ensures Rank(c, e.(serverIdx := e.serverIdx + 1, tmr := 1, retries := 0)) == Rank(c, e) - 1
  {
  }

  /** Giving up the current server early. */
  lemma RankSkip(c: Config, e: Entry)
    requires e.serverIdx < c.servers && e.tmr >= 1 && c.retries >= 1
    ensures Rank(c, e.(retries := c.retries - 1, tmr := 1)) <= Rank(c, e)
  {
  }

  /** Freeing slot r leaves the others as they are. */
  lemma SlotsCall(c: Config, t: seq<Entry>, q: seq<Slot>, issued: seq<nat>, now: nat, k: nat, i: nat, r: nat, q': seq<Slot>)
    requires GoodSlotsBut(c, t, q, issued, now, k, i) && r < |q| && q' == q[r := Free]
    ensures GoodSlotsBut(c, t, q', issued, now, k, i)
  {
    forall s: nat ensures SlotBut(c, t, q', issued, now, k, i, s) {
      assert SlotBut(c, t, q, issued, now, k, i, s);
    }
  }

  /** A new request for an entry that has not used more time than it was given. */
  lemma SlotsIssue(c: Config, t: seq<Entry>, q: seq<Slot>, issued: seq<nat>, now: nat, k: nat, r: nat, idx: nat,
                   q': seq<Slot>, issued': seq<nat>)
    requires GoodSlots(c, t, q, issued, now, k) && r < |q| && idx < |t| && t[idx].state.Asking?
    requires t[idx].serverIdx < c.servers && Rank(c, t[idx]) <= Bound(c)
    requires q' == q[r := Pending(|issued|, idx)] && issued' == issued + [now]
    ensures GoodSlots(c, t, q', issued', now, k)
  {
    forall s: nat ensures SlotOk(c, t, q', issued', now, k, s) {
      assert SlotOk(c, t, q, issued, now, k, s);
    }
  }

  /** A new request for an entry that nobody waits for, whatever is put into the entry. */
  lemma SlotsIssueNew(c: Config, t: seq<Entry>, q: seq<Slot>, issued: seq<nat>, now: nat, k: nat, r: nat, i: nat,
                      e: Entry, t': seq<Entry>, q': seq<Slot>, issued': seq<nat>)
    requires GoodSlots(c, t, q, issued, now, k) && r < |q| && i < |t| && NoneFor(q, i) && t' == t[i := e]
    requires q' == q[r := Pending(|issued|, i)] && issued' == issued + [now]
    ensures GoodSlotsNew(c, t', q', issued', now, k, i)
  {
    forall s: nat ensures SlotNew(c, t', q', issued', now, k, i, s) {
      assert SlotOk(c, t, q, issued, now, k, s) && NotFor(q, i, s);
    }
  }

  /** The entry is asked for from now on. */
  lemma SlotsBegin(c: Config, t: seq<Entry>, q: seq<Slot>, issued: seq<nat>, now: nat, k: nat,
                   i: nat, e: Entry, t': seq<Entry>)
    requires GoodSlotsNew(c, t, q, issued, now, k, i) && i < |t| && t' == t[i := e]
    requires e.state.Asking? && e.serverIdx < c.servers && Rank(c, e) <= Bound(c)
    ensures GoodSlots(c, t', q, issued, now, k)
  {
    forall s: nat ensures SlotOk(c, t', q, issued, now, k, s) {
      assert SlotNew(c, t, q, issued, now, k, i, s);
    }
  }

  /** The full time is left for an entry whose first query is sent. */
  lemma RankFirst(c: Config, e: Entry)
    requires Sane(c) && e.serverIdx == 0 && e.tmr == 1 && e.retries == 0
    ensures Rank(c, e) == Bound(c)
  {
  }

  ghost predicate NoNew(t: seq<Entry>) {
    forall i :: 0 <= i < |t| ==> !t[i].state.New?
  }

  // ---------------------------------------------------------------- invoking callbacks

  /** The calls made for the requests that wait for entry i in the first n slots, in this order. */
  ghost function CallsFor(q: seq<Slot>, n: nat, i: nat, address: Option<nat>, issued: seq<nat>, now: nat): seq<Call>
    requires n <= |q|
  {
    if n == 0 then []
    else
      var s := q[n - 1];
      CallsFor(q, n - 1, i, address, issued, now) +
      (if s.Pending? && s.idx == i && s.id < |issued| && issued[s.id] <= now then
         [Call(s.id, address, now - issued[s.id])]
       else [])
  }

  /** All these calls carry the address. */
  lemma {:induction false} CallsAddress(q: seq<Slot>, n: nat, i: nat, address: Option<nat>, issued: seq<nat>, now: nat)
    requires n <= |q|
    ensures forall k :: 0 <= k < |CallsFor(q, n, i, address, issued, now)| ==>
              CallsFor(q, n, i, address, issued, now)[k].address == address
  {
    if n > 0 { CallsAddress(q, n - 1, i, address, issued, now); }
  }

  /** The request list with the requests for entry i removed from the first n slots. */
  ghost function Freed(q: seq<Slot>, n: nat, i: nat): (q': seq<Slot>)
    requires n <= |q|
    ensures |q'| == |q| && q'[n..] == q[n..]
  {
    if n == 0 then q
    else
      var s := q[n - 1];
      Freed(q, n - 1, i)[n - 1 := if s.Pending? && s.idx == i then Free else s]
  }

  lemma FreedStep(q: seq<Slot>, n: nat, i: nat)
    requires n < |q|
    ensures Freed(q, n, i)[n] == q[n]
    ensures Freed(q, n + 1, i) == if q[n].Pending? && q[n].idx == i then Freed(q, n, i)[n := Free] else Freed(q, n, i)
  {
    assert Freed(q, n, i)[n..][0] == q[n..][0];
  }

  lemma {:induction false} FreedNone(q: seq<Slot>, n: nat, i: nat, r: nat)
    requires r < n <= |q|
    ensures NotFor(Freed(q, n, i), i, r)
  {
    if r < n - 1 { FreedNone(q, n - 1, i, r); }
  }

  lemma AllFreed(q: seq<Slot>, i: nat)
    ensures NoneFor(Freed(q, |q|, i), i)
  {
    forall r: nat ensures NotFor(Freed(q, |q|, i), i, r) {
      if r < |q| { FreedNone(q, |q|, i, r); }
    }
  }

  // ---------------------------------------------------------------- transaction ids in use

  function NumAsking(t: seq<Entry>): nat {
    if t == [] then 0 else NumAsking(t[..|t| - 1]) + (if t[|t| - 1].state.Asking? then 1 else 0)
  }

  ghost function AskingIds(t: seq<Entry>): set<nat> {
    if t == [] then {} else AskingIds(t[..|t| - 1]) + (if t[|t| - 1].state.Asking? then {t[|t| - 1].txid} else {})
  }

  lemma {:induction false} AskingIdsSize(t: seq<Entry>)
    ensures |AskingIds(t)| <= NumAsking(t) <= |t|
  {
    if t != [] {
      AskingIdsSize(t[..|t| - 1]);
    }
  }

  lemma {:induction false} AskingIdIn(t: seq<Entry>, j: nat)
    requires j < |t| && t[j].state.Asking?
    ensures t[j].txid in AskingIds(t)
  {
    if j < |t| - 1 { AskingIdIn(t[..|t| - 1], j); }
  }

  // ---------------------------------------------------------------- what the invariants mean for a request

  /** A request is waiting and has not been called back, or it has been called back exactly once. */
  lemma ExactlyOnce(q: seq<Slot>, log: seq<Call>, n: nat, id: nat)
    requires Ledger(q, log, n)
    ensures id < n ==> (Waiting(q, id) == 1 && Called(log, id) == 0) || (Waiting(q, id) == 0 && Called(log, id) == 1)
    ensures id >= n ==> Waiting(q, id) == 0 && Called(log, id) == 0
  {
    assert Once(q, log, n, id);
  }

  /** A request that is waiting has time left. */
  lemma NotLate(c: Config, t: seq<Entry>, q: seq<Slot>, issued: seq<nat>, now: nat, r: nat)
    requires GoodTable(c, t) && GoodSlots(c, t, q, issued, now, |t|) && r < |q| && q[r].Pending?
    ensures q[r].id < |issued| && now < issued[q[r].id] + Bound(c)
  {
    assert SlotOk(c, t, q, issued, now, |t|, r);
    assert EntryOk(c, t, q[r].idx);
  }

  /** After Bound(c) ticks a request has been called back, whatever was or was not received. */
  lemma Deadline(c: Config, t: seq<Entry>, q: seq<Slot>, issued: seq<nat>, now: nat, log: seq<Call>, id: nat)
    requires GoodTable(c, t) && GoodSlots(c, t, q, issued, now, |t|) && Ledger(q, log, |issued|)
    requires id < |issued| && issued[id] + Bound(c) <= now
    ensures Called(log, id) == 1
  {
    assert Once(q, log, |issued|, id);
    if Called(log, id) == 0 {
      var r := WhereWaiting(q, id);
      NotLate(c, t, q, issued, now, r);
    }
  }

  /** An entry that nobody waits for: the others are as far as they were. */
  lemma SlotsQuiet(c: Config, t: seq<Entry>, q: seq<Slot>, issued: seq<nat>, now: nat, k: nat, k': nat,
                   i: nat, e: Entry, t': seq<Entry>)
    requires GoodTable(c, t) && GoodSlots(c, t, q, issued, now, k) && i < |t| && !t[i].state.Asking? && t' == t[i := e]
    requires k' == k || (k' == k + 1 && k == i)
    ensures GoodSlots(c, t', q, issued, now, k')
  {
    NobodyWaits(c, t, q, issued, now, k, i);
    assert t[i := t[i]] == t;
    SlotsBut(c, t, q, issued, now, k, k', i, t[i], t);
    SlotsFree(c, t, q, issued, now, k', i, e, t');
  }

  // ---------------------------------------------------------------- an entry without responses

  /** Another server after the entry's is set; 0 is the any address. */
  predicate Backup(servers: seq<nat>, e: Entry) {
    e.serverIdx + 1 < |servers| && servers[e.serverIdx + 1] != 0
  }

  /** An entry in state ASKING after one tick; None: it has been given up. */
  function Ticked(c: Config, servers: seq<nat>, e: Entry): Option<Entry>
    requires e.tmr >= 1 && e.serverIdx < |servers|
  {
    if e.tmr > 1 then Some(e.(tmr := e.tmr - 1))
    else if e.retries + 1 == c.retries then
      if Backup(servers, e) then Some(e.(serverIdx := e.serverIdx + 1, tmr := 1, retries := 0)) else None
    else if servers[e.serverIdx] == 0 then None
    else Some(e.(retries := e.retries + 1, tmr := e.retries + 1))
  }

  /** What a tick makes of an entry that is not new. */
  ghost predicate Stepped(c: Config, servers: seq<nat>, e: Entry, e': Entry) {
    match e.state
    case Asking =>
      e.tmr >= 1 && e.serverIdx < |servers| &&
      (match Ticked(c, servers, e) case Some(o) => e' == o case None => e'.state.Unused?)
    case Done => e' == if e.ttl <= 1 then e.(state := Unused, ttl := 0) else e.(ttl := e.ttl - 1)
    case _ => e' == e
  }

  /**
   * A completed entry, tick by tick: it is kept for exactly as many ticks as its time to live, and then it is
   * unused.
   */
  lemma {:induction false} KeptExactly(c: Config, servers: seq<nat>, es: seq<Entry>, k: nat)
    requires k < |es| && es[0].state.Done? && es[0].ttl > 0
    requires forall j :: 0 <= j < |es| - 1 ==> Stepped(c, servers, es[j], es[j + 1])
    ensures k < es[0].ttl ==> es[k] == es[0].(ttl := es[0].ttl - k)
    ensures k >= es[0].ttl ==> es[k] == es[0].(state := Unused, ttl := 0)
    decreases k
  {
    if k > 0 {
      KeptExactly(c, servers, es, k - 1);
      assert Stepped(c, servers, es[k - 1], es[k - 1 + 1]);
    }
  }

  /** Every tick takes exactly one from what is left. */
  lemma TickedRank(c: Config, servers: seq<nat>, e: Entry)
    requires Sane(c) && |servers| == c.servers && AskingOk(c, e)
    ensures var o := Ticked(c, servers, e);
            o.Some? ==> AskingOk(c, o.value) && o.value.state == e.state && o.value.txid == e.txid
                        && Rank(c, o.value) == Rank(c, e) - 1
    ensures (forall s :: 0 <= s < |servers| ==> servers[s] != 0) ==> (Ticked(c, servers, e).None? <==> Rank(c, e) == 1)
  {
    if e.tmr == 1 {
      if e.retries + 1 == c.retries {
        if e.serverIdx + 1 < c.servers {
          RankServer(c, e);
        }
      } else {
        RankRetry(c, e);
      }
    }
  }

  function After(c: Config, servers: seq<nat>, e: Entry, n: nat): Option<Entry>
    requires Sane(c) && |servers| == c.servers && AskingOk(c, e)
    ensures After(c, servers, e, n).Some? ==> AskingOk(c, After(c, servers, e, n).value)
    decreases n
  {
    TickedRank(c, servers, e);
    if n == 0 then Some(e)
    else if Ticked(c, servers, e).None? then None
    else After(c, servers, Ticked(c, servers, e).value, n - 1)
  }

  /** With all servers set and no response, an entry is given up in tick Rank(c, e), and not before. */
  lemma {:induction false} GivenUpExactly(c: Config, servers: seq<nat>, e: Entry, n: nat)
    requires Sane(c) && |servers| == c.servers && AskingOk(c, e)
    requires forall s :: 0 <= s < |servers| ==> servers[s] != 0
    ensures After(c, servers, e, n).Some? <==> n < Rank(c, e)
    decreases n
  {
    TickedRank(c, servers, e);
    if n > 0 && Ticked(c, servers, e).Some? {
      GivenUpExactly(c, servers, Ticked(c, servers, e).value, n - 1);
    }
  }
}
