/**
 * The resolver of core/dns.c in the configuration with a request list of its own: requests for a name
 * that is already being asked for share its table entry. One address type; callbacks do not call back.
 */
module DnsResolver {
  import opened Basics
  import opened DnsNames
  import opened DnsTable
  import opened Wrappers

  datatype Err = InProgress | Mem

  /** What dns_recv finds in the answer section of a response. */
  datatype Answers = Malformed | Address(address: nat, ttl: nat) | NoAddress

  /** A decoded response; `matches`: its question is the one that was asked with this transaction id. */
  datatype Response = Response(txid: nat, isResponse: bool, oneQuestion: bool, from: nat, matches: bool,
                               error: bool, answers: Answers)

  const MAX_TTL: nat := 604800

  /** An entry that has been resolved. */
  function Kept(e: Entry, ttl: nat): Entry {
    e.(state := if ttl == 0 then Unused else Done, ttl := ttl)
  }

  /** How far x is behind start when 16-bit numbers are counted up. */
  function Ahead(start: nat, x: nat): nat
    requires start < 65536 && x < 65536
  {
    if x >= start then x - start else x + 65536 - start
  }

  /** dns_seqno++ in 8 bits. */
  function NextSeqno(q: nat): (r: nat)
    ensures r < 256
  {
    (q + 1) % 256
  }

  /** The age of the entry with number x when the next one will get number q. */
  function AgeAt(q: nat, x: nat): (r: nat)
    ensures r < 256
  {
    (q - x) % 256
  }

  /** An entry is 1 old when it has been started, and gets older by 1 with each that is started later. */
  lemma AgeExact(q: nat, x: nat)
    requires q < 256 && x < 256
    ensures AgeAt(NextSeqno(q), q) == 1
    ensures AgeAt(NextSeqno(q), x) == if AgeAt(q, x) == 255 then 0 else AgeAt(q, x) + 1
  {
    assert q >= x ==> AgeAt(q, x) == q - x;
    assert q < x ==> AgeAt(q, x) == q - x + 256;
    assert q < 255 ==> NextSeqno(q) == q + 1;
    assert q == 255 ==> NextSeqno(q) == 0;
    assert q < 255 && q + 1 >= x ==> AgeAt(q + 1, x) == q + 1 - x;
    assert q < 255 && q + 1 < x ==> AgeAt(q + 1, x) == q + 1 - x + 256;
  }

  class Resolver {
    const conf: Config
    const nameMax: nat
    const table: array<Entry>
    const requests: array<Slot>
    /** dns_servers; 0 is the any address. */
    var servers: seq<nat>
    var seqno: nat
    var lastTxid: nat
    /** The history: timer ticks so far, when each request was accepted, and the callbacks invoked. */
    var now: nat
    var issued: seq<nat>
    var log: seq<Call>

    ghost predicate Shape()
      reads this
    {
      && Sane(conf) && nameMax >= 1 && |servers| == conf.servers
      && table.Length <= 255 && requests.Length <= 255
      && seqno < 256 && lastTxid < 65536
    }

    /** The invariant; table entries from k on have not been looked at in the current tick. */
    ghost predicate Inv(k: nat)
      reads this, table, requests
    {
      && Shape()
      && GoodTable(conf, table[..]) && NoNew(table[..])
      && GoodSlots(conf, table[..], requests[..], issued, now, k)
      && Ledger(requests[..], log, |issued|)
      && InTime(conf, log)
    }

    ghost predicate Valid()
      reads this, table, requests
    {
      Inv(table.Length)
    }

    /** Servers that are not set are the any address. */
    constructor (conf: Config, nameMax: nat, tableSize: nat, maxRequests: nat)
      requires Sane(conf) && nameMax >= 1 && tableSize <= 255 && maxRequests <= 255
      ensures Valid() && issued == [] && log == [] && this.conf == conf
      ensures fresh(table) && fresh(requests) && table.Length == tableSize && requests.Length == maxRequests
    {
      this.conf, this.nameMax := conf, nameMax;
      table := new Entry[tableSize](_ => Entry(Unused, 0, 0, 0, 0, 0, 0, []));
      requests := new Slot[maxRequests](_ => Free);
      servers := seq(conf.servers, _ => 0);
      seqno, lastTxid, now, issued, log := 0, 0, 0, [], [];
      new;
      forall id: nat ensures Once(requests[..], log, |issued|, id) {
        AllFree(requests[..], id);
      }
    }

    /** The callbacks since then have brought no address. */
    twostate predicate NoAddress()
      reads this
    {
      old(log) <= log && forall n :: |old(log)| <= n < |log| ==> log[n].address.None?
    }

    /** dns_call_found: every request that waits for entry i gets its callback, and no other. */
    method CallFound(i: nat, address: Option<nat>, ghost k: nat)
      requires Shape() && i < table.Length
      requires GoodSlotsBut(conf, table[..], requests[..], issued, now, k, i)
      requires Ledger(requests[..], log, |issued|) && InTime(conf, log)
      modifies requests, this`log
      ensures GoodSlotsBut(conf, table[..], requests[..], issued, now, k, i)
      ensures Ledger(requests[..], log, |issued|) && InTime(conf, log)
      ensures NoneFor(requests[..], i)
      ensures log == old(log) + CallsFor(old(requests[..]), requests.Length, i, address, issued, now)
    {
      ghost var q0 := requests[..];
      for r := 0 to requests.Length
        invariant GoodSlotsBut(conf, table[..], requests[..], issued, now, k, i)
        invariant Ledger(requests[..], log, |issued|) && InTime(conf, log)
        invariant requests[..] == Freed(q0, r, i)
        invariant log == old(log) + CallsFor(q0, r, i, address, issued, now)
      {
        FreedStep(q0, r, i);
        FreeSlot(r, i, address, k);
      }
      AllFreed(q0, i);
    }

    /** The body of the loop of dns_call_found. */
    method FreeSlot(r: nat, i: nat, address: Option<nat>, ghost k: nat)
      requires Shape() && i < table.Length && r < requests.Length
      requires GoodSlotsBut(conf, table[..], requests[..], issued, now, k, i)
      requires Ledger(requests[..], log, |issued|) && InTime(conf, log)
      modifies requests, this`log
      ensures GoodSlotsBut(conf, table[..], requests[..], issued, now, k, i)
      ensures Ledger(requests[..], log, |issued|) && InTime(conf, log)
      ensures var s := old(requests[r]);
              if s.Pending? && s.idx == i then
                requests[..] == old(requests[..])[r := Free] && s.id < |issued| && issued[s.id] <= now &&
                log == old(log) + [Call(s.id, address, now - issued[s.id])]
              else
                requests[..] == old(requests[..]) && log == old(log)
    {
      var s := requests[r];
      if s.Pending? && s.idx == i {
        ghost var q := requests[..];
        assert SlotBut(conf, table[..], q, issued, now, k, i, r);
        var c := Call(s.id, address, now - issued[s.id]);
        LedgerCall(q, log, |issued|, r, c, q[r := Free], log + [c]);
        SlotsCall(conf, table[..], q, issued, now, k, i, r, q[r := Free]);
        log := log + [c];
        requests[r] := Free;
        assert requests[..] == q[r := Free];
      }
    }

    /** What a change of entry i to e, which is not new, does to the invariant when nobody is waiting for i. */
    method Replace(i: nat, e: Entry, ghost k: nat, ghost k': nat)
      requires Inv(k) && i < table.Length && !table[i].state.Asking?
      requires !e.state.New? && !e.state.Asking? && 0 <= e.txid < 65536
      requires k' == k || (k' == k + 1 && k == i)
      modifies table
      ensures Inv(k') && table[..] == old(table[..])[i := e]
    {
      ghost var t := table[..];
      TableUpdate(conf, t, i, e);
      SlotsQuiet(conf, t, requests[..], issued, now, k, k', i, e, t[i := e]);
      table[i] := e;
      assert table[..] == t[i := e];
    }

    /** Entry i is still asked for and has come closer to its end. */
    method Advance(i: nat, e: Entry, ghost k: nat, ghost k': nat)
      requires Inv(k) && i < table.Length && table[i].state.Asking? && e.state.Asking? && e.txid == table[i].txid
      requires e.serverIdx < conf.servers && 1 <= e.tmr <= 255 && e.retries < conf.retries
      requires table[i].serverIdx < conf.servers
      requires (k' == k && Rank(conf, e) <= Rank(conf, table[i]))
               || (k' == k + 1 && k == i && Rank(conf, e) < Rank(conf, table[i]))
      modifies table
      ensures Inv(k') && table[..] == old(table[..])[i := e]
    {
      ghost var t := table[..];
      assert EntryOk(conf, t, i);
      TableUpdate(conf, t, i, e);
      SlotsStep(conf, t, requests[..], issued, now, k, k', i, e, t[i := e]);
      table[i] := e;
      assert table[..] == t[i := e];
    }

    /** dns_call_found(i, NULL), and the entry is flushed. */
    method Finish(i: nat, ghost k: nat, ghost k': nat)
      requires Inv(k) && i < table.Length
      requires k' == k || (k' == k + 1 && k == i)
      modifies table, requests, this`log
      ensures Inv(k') && table[..] == old(table[..])[i := old(table[i]).(state := Unused)]
      ensures log == old(log) + CallsFor(old(requests[..]), requests.Length, i, None, issued, now) && NoAddress()
    {
      ghost var t := table[..];
      assert t[i := t[i]] == t;
      SlotsBut(conf, t, requests[..], issued, now, k, k', i, t[i], t);
      CallFound(i, None, k');
      var e := table[i].(state := Unused);
      assert EntryOk(conf, t, i);
      TableUpdate(conf, t, i, e);
      SlotsFree(conf, t, requests[..], issued, now, k', i, e, t[i := e]);
      table[i] := e;
      assert table[..] == t[i := e];
      CallsAddress(old(requests[..]), requests.Length, i, None, issued, now);
    }

    /** Entry i has been given up: its requests have had their callbacks, and it is unused. */
    twostate predicate GivenUp(i: nat)
      requires i < table.Length && i < |old(table[..])|
      reads this, table, requests
    {
      && table[i].state.Unused?
      && table[..] == old(table[..])[i := table[i]]
      && log == old(log) + CallsFor(old(requests[..]), |old(requests[..])|, i, None, issued, now)
    }

    /** Nothing but entry i has changed. */
    twostate predicate OnlyEntry(i: nat, e: Entry)
      requires i < |old(table[..])|
      reads this, table, requests
    {
      table[..] == old(table[..])[i := e] && requests[..] == old(requests[..]) && log == old(log)
    }

    /** dns_send, as far as the table is concerned: without a server the entry is given up at once. */
    method Send(i: nat, ghost k: nat)
      requires Inv(k) && i < table.Length && table[i].state.Asking? && table[i].serverIdx < |servers|
      modifies table, requests, this`log
      ensures Inv(k)
      ensures if servers[old(table[i].serverIdx)] == 0 then GivenUp(i) else OnlyEntry(i, old(table[i]))
      ensures NoAddress()
    {
      if servers[table[i].serverIdx] == 0 {
        Finish(i, k, k);
        assert table[i] == table[..][i];
      }
    }

    /**
     * dns_create_txid, counting up: the id is used by no entry in state ASKING, and is found after at most
     * one try more than there are such entries.
     */
    method CreateTxid() returns (txid: nat, ghost tries: nat)
      requires Shape()
      modifies this`lastTxid
      ensures Shape() && txid < 65536 && lastTxid == txid
      ensures forall j :: 0 <= j < table.Length && table[j].state.Asking? ==> table[j].txid != txid
      ensures 1 <= tries <= NumAsking(table[..]) + 1
    {
      tries := 0;
      ghost var failed: set<nat> := {};
      ghost var start := lastTxid;
      AskingIdsSize(table[..]);
      while true
        invariant Shape() && Ahead(start, lastTxid) == tries
        invariant forall x :: x in failed ==> x < 65536 && 1 <= Ahead(start, x) <= tries
        invariant |failed| == tries && failed <= AskingIds(table[..])
        decreases 256 - tries
      {
        SubsetSize(failed, AskingIds(table[..]));
        lastTxid := if lastTxid == 65535 then 0 else lastTxid + 1;
        tries := tries + 1;
        var used := TxidInUse(lastTxid);
        if !used {
          return lastTxid, tries;
        }
        failed := failed + {lastTxid};
      }
    }

    /** The loop of dns_create_txid over the table. */
    method TxidInUse(txid: nat) returns (used: bool)
      ensures used ==> txid in AskingIds(table[..])
      ensures !used ==> forall j :: 0 <= j < table.Length && table[j].state.Asking? ==> table[j].txid != txid
    {
      for i := 0 to table.Length
        invariant forall j :: 0 <= j < i && table[j].state.Asking? ==> table[j].txid != txid
      {
        if table[i].state.Asking? && table[i].txid == txid {
          AskingIdIn(table[..], i);
          return true;
        }
      }
      used := false;
    }

    /** dns_check_entry for an entry in state NEW: the first query is sent. */
    method CheckNew(i: nat)
      requires Shape() && i < table.Length && table[i].state.New?
      requires GoodTable(conf, table[..]) && forall j :: 0 <= j < table.Length && j != i ==> !table[j].state.New?
      requires GoodSlotsNew(conf, table[..], requests[..], issued, now, table.Length, i)
      requires Ledger(requests[..], log, |issued|) && InTime(conf, log)
      modifies table, requests, this`log, this`lastTxid
      ensures Valid()
      ensures servers[0] != 0 ==>
                table[i].state.Asking? && table[i].name == old(table[i].name) && table[i].seqno == old(table[i].seqno) &&
                table[i].serverIdx == 0 && Rank(conf, table[i]) == Bound(conf) &&
                log == old(log) && requests[..] == old(requests[..])
      ensures forall j :: 0 <= j < table.Length && j != i ==> table[j] == old(table[j])
      ensures NoAddress()
    {
      ghost var t := table[..];
      var txid, tries := CreateTxid();
      var e := table[i].(txid := txid, state := Asking, serverIdx := 0, tmr := 1, retries := 0);
      RankFirst(conf, e);
      forall j: nat ensures Clear(t, i, txid, j) {
        if j < |t| { assert t[j] == table[j]; }
      }
      TableUpdate(conf, t, i, e);
      SlotsBegin(conf, t, requests[..], issued, now, table.Length, i, e, t[i := e]);
      table[i] := e;
      assert table[..] == t[i := e];
      assert EntryOk(conf, table[..], i);
      Send(i, table.Length);
      assert forall j :: 0 <= j < table.Length ==> table[j] == table[..][j];
    }

    /** dns_check_entry for an entry in state ASKING: its timer runs, and it may be asked for again. */
    method CheckAsking(i: nat, ghost k: nat, ghost k': nat)
      requires Inv(k) && i < table.Length && table[i].state.Asking? && AskingOk(conf, table[i])
      requires k' == if k == i then k + 1 else k
      modifies table, requests, this`log
      ensures Inv(k')
      ensures var o := Ticked(conf, servers, old(table[i]));
              if o.Some? then OnlyEntry(i, o.value) else GivenUp(i)
      ensures NoAddress()
    {
      var e := table[i];
      if e.tmr > 1 {
        Advance(i, e.(tmr := e.tmr - 1), k, k');
        return;
      }
      if e.retries + 1 == conf.retries {
        if Backup(servers, e) {
          RankServer(conf, e);
          e := e.(serverIdx := e.serverIdx + 1, tmr := 1, retries := 0);
        } else {
          Finish(i, k, k');
          assert table[i] == table[..][i];
          return;
        }
      } else {
        RankRetry(conf, e);
        e := e.(retries := e.retries + 1, tmr := e.retries + 1);
      }
      ghost var t := table[..];
      Advance(i, e, k, k');
      assert table[i] == table[..][i] == e;
      Send(i, k');
      assert table[..] == t[i := table[i]] by { assert table[i] == table[..][i]; }
    }

    /** dns_check_entry for an entry in state DONE: it is flushed when its time to live is over. */
    method CheckDone(i: nat, ghost k: nat, ghost k': nat)
      requires Inv(k) && i < table.Length && table[i].state.Done?
      requires k' == if k == i then k + 1 else k
      modifies table
      ensures Inv(k')
      ensures var e := old(table[i]);
              table[..] == old(table[..])[i := if e.ttl <= 1 then e.(state := Unused, ttl := 0) else e.(ttl := e.ttl - 1)]
    {
      assert EntryOk(conf, table[..], i);
      var e := table[i];
      Replace(i, if e.ttl <= 1 then e.(state := Unused, ttl := 0) else e.(ttl := e.ttl - 1), k, k');
    }

    /** dns_check_entry between two calls: no entry is new. */
    method CheckEntry(i: nat, ghost k: nat, ghost k': nat)
      requires Inv(k) && i < table.Length
      requires k' == if k == i then k + 1 else k
      modifies table, requests, this`log
      ensures Inv(k')
      ensures Stepped(conf, servers, old(table[i]), table[i]) && NoAddress()
      ensures forall j :: 0 <= j < table.Length && j != i ==> table[j] == old(table[j])
    {
      assert EntryOk(conf, table[..], i);
      match table[i].state
      case New => assert false;
      case Asking =>
        CheckAsking(i, k, k');
        assert forall j :: 0 <= j < table.Length ==> table[j] == table[..][j];
      case Done =>
        CheckDone(i, k, k');
        assert forall j :: 0 <= j < table.Length ==> table[j] == table[..][j];
      case Unused =>
        Replace(i, table[i], k, k');
        assert forall j :: 0 <= j < table.Length ==> table[j] == table[..][j];
    }

    /** dns_tmr: dns_check_entries. */
    method Tick()
      requires Valid()
      modifies this`now, this`log, table, requests
      ensures Valid() && now == old(now) + 1 && NoAddress()
      ensures forall i :: 0 <= i < table.Length ==> Stepped(conf, servers, old(table[i]), table[i])
    {
      SlotsTick(conf, table[..], requests[..], issued, now, now + 1);
      now := now + 1;
      for i := 0 to table.Length
        invariant Inv(i) && now == old(now) + 1 && NoAddress()
        invariant forall j :: 0 <= j < i ==> Stepped(conf, servers, old(table[j]), table[j])
        invariant forall j :: i <= j < table.Length ==> table[j] == old(table[j])
      {
        CheckEntry(i, i, i + 1);
      }
    }

    /** dns_seqno - seqno in 8 bits. */
    function Age(e: Entry): nat
      reads this
    {
      AgeAt(seqno, e.seqno)
    }

    /** The first unused entry, or else the oldest completed one. */
    method PickEntry() returns (pick: Option<nat>)
      requires Shape()
      ensures pick.Some? ==> pick.value < table.Length
      ensures pick.Some? && !table[pick.value].state.Unused? ==>
                table[pick.value].state.Done? && Age(table[pick.value]) > 0 &&
                forall j :: 0 <= j < table.Length ==>
                  !table[j].state.Unused? && (table[j].state.Done? ==> Age(table[j]) <= Age(table[pick.value]))
      ensures pick.None? ==> forall j :: 0 <= j < table.Length ==>
                !table[j].state.Unused? && (table[j].state.Done? ==> Age(table[j]) == 0)
    {
      var lseq := 0;
      pick := None;
      for i := 0 to table.Length
        invariant forall j :: 0 <= j < i ==> !table[j].state.Unused?
        invariant forall j :: 0 <= j < i && table[j].state.Done? ==> Age(table[j]) <= lseq
        invariant if pick.Some? then pick.value < i && table[pick.value].state.Done? && Age(table[pick.value]) == lseq > 0
                  else lseq == 0
      {
        if table[i].state.Unused? {
          return Some(i);
        }
        if table[i].state.Done? {
          var age := Age(table[i]);
          if age > lseq {
            lseq, pick := age, Some(i);
          }
        }
      }
    }

    /** A free entry of the request list. */
    method PickSlot() returns (r: Option<nat>)
      ensures r.Some? ==> r.value < requests.Length && requests[r.value].Free?
      ensures r.None? ==> forall s :: 0 <= s < requests.Length ==> requests[s].Pending?
    {
      for s := 0 to requests.Length
        invariant forall s' :: 0 <= s' < s ==> requests[s'].Pending?
      {
        if requests[s].Free? {
          return Some(s);
        }
      }
      r := None;
    }

    /** The request joins one for the same name that is being asked for. */
    method Join(r: nat, i: nat)
      requires Valid() && r < requests.Length && requests[r].Free? && i < table.Length && table[i].state.Asking?
      modifies this`issued, requests
      ensures Valid() && issued == old(issued) + [now]
      ensures requests[..] == old(requests[..])[r := Pending(|old(issued)|, i)]
    {
      ghost var q := requests[..];
      assert EntryOk(conf, table[..], i);
      LedgerIssue(q, log, |issued|, |issued| + 1, r, i, q[r := Pending(|issued|, i)]);
      SlotsIssue(conf, table[..], q, issued, now, table.Length, r, i, q[r := Pending(|issued|, i)], issued + [now]);
      requests[r] := Pending(|issued|, i);
      assert requests[..] == q[r := Pending(|issued|, i)];
      issued := issued + [now];
    }

    /** dns_enqueue behind the search for a duplicate: a new entry for the name, and the first query. */
    method Start(r: nat, i: nat, name: seq<Byte>)
      requires Valid() && r < requests.Length && requests[r].Free?
      requires i < table.Length && (table[i].state.Unused? || table[i].state.Done?)
      modifies this`issued, this`seqno, this`log, this`lastTxid, table, requests
      ensures Valid() && issued == old(issued) + [now]
      ensures old(servers[0]) != 0 ==>
                log == old(log) && table[i].state.Asking? && table[i].name == name[..Least(|name|, nameMax - 1)] &&
                table[i].serverIdx == 0 && Rank(conf, table[i]) == Bound(conf) &&
                requests[..] == old(requests[..])[r := Pending(|old(issued)|, i)]
      ensures NoneFor(old(requests[..]), i) && NoAddress()
      ensures seqno == NextSeqno(old(seqno)) && (old(servers[0]) != 0 ==> table[i].seqno == old(seqno))
      ensures forall j :: 0 <= j < table.Length && j != i ==> table[j] == old(table[j])
    {
      ghost var t, q := table[..], requests[..];
      var e := table[i].(state := New, seqno := seqno, name := name[..Least(|name|, nameMax - 1)]);
      var s := Pending(|issued|, i);
      NobodyWaits(conf, t, q, issued, now, table.Length, i);
      assert EntryOk(conf, t, i);
      TableUpdate(conf, t, i, e);
      LedgerIssue(q, log, |issued|, |issued| + 1, r, i, q[r := s]);
      SlotsIssueNew(conf, t, q, issued, now, table.Length, r, i, e, t[i := e], q[r := s], issued + [now]);
      table[i] := e;
      assert table[..] == t[i := e];
      requests[r] := s;
      assert requests[..] == q[r := s];
      issued := issued + [now];
      seqno := NextSeqno(seqno);
      CheckNew(i);
    }

    ghost predicate SlotFree()
      reads requests
    {
      exists s :: 0 <= s < requests.Length && requests[s].Free?
    }

    predicate AsksFor(i: nat, name: seq<Byte>)
      requires i < table.Length
      reads table
    {
      table[i].state.Asking? && SameName(name, table[i].name)
    }

    /** Entry i can be given to another name. */
    predicate Reusable(i: nat)
      requires i < table.Length
      reads this, table
    {
      table[i].state.Unused? || (table[i].state.Done? && Age(table[i]) > 0)
    }

    /** The name is being asked for already, or there is an entry for it. */
    ghost predicate Room(name: seq<Byte>)
      reads this, table
    {
      exists i :: 0 <= i < table.Length && (AsksFor(i, name) || Reusable(i))
    }

    /** Request id waits in slot r for an entry that is being asked for with this name, if need be cut off. */
    predicate WaitsIn(r: nat, id: nat, name: seq<Byte>)
      requires nameMax >= 1 && r < requests.Length
      reads this, table, requests
    {
      && requests[r].Pending? && requests[r].id == id && requests[r].idx < table.Length
      && table[requests[r].idx].state.Asking?
      && var n := table[requests[r].idx].name; SameName(name, n) || n == name[..Least(|name|, nameMax - 1)]
    }

    /**
     * dns_enqueue: ERR_MEM means that nothing has changed, and is the answer exactly if no slot is free or
     * there is no room for the name. ERR_INPROGRESS means that the request has been numbered and waits for
     * the name, or, when there is no server at all, has even had its callback.
     */
    method Enqueue(name: seq<Byte>) returns (err: Err)
      requires Valid()
      modifies this`issued, this`seqno, this`log, this`lastTxid, table, requests
      ensures Valid()
      ensures err.Mem? <==> !old(SlotFree()) || !old(Room(name))
      ensures err.Mem? ==> unchanged(this) && unchanged(table) && unchanged(requests)
      ensures err.InProgress? ==> issued == old(issued) + [now]
      ensures NoAddress()
      ensures err.InProgress? && old(servers[0]) != 0 ==>
                exists r :: 0 <= r < requests.Length && WaitsIn(r, |old(issued)|, name)
    {
      ghost var slots, room := SlotFree(), Room(name);
      for i := 0 to table.Length
        invariant Valid() && unchanged(this) && unchanged(table) && unchanged(requests)
        invariant slots == SlotFree() && room == Room(name)
        invariant SlotFree() ==> forall j :: 0 <= j < i ==> !AsksFor(j, name)
      {
        if table[i].state.Asking? && SameName(name, table[i].name) {
          assert AsksFor(i, name) && room;
          var free := PickSlot();
          if free.Some? {
            Join(free.value, i);
            assert requests[free.value] == requests[..][free.value] && WaitsIn(free.value, |old(issued)|, name);
            return InProgress;
          }
        }
      }
      var pick := PickEntry();
      if pick.None? {
        assert SlotFree() ==> forall j :: 0 <= j < table.Length ==> !AsksFor(j, name) && !Reusable(j);
        assert slots ==> !room;
        return Mem;
      }
      assert Reusable(pick.value) && room;
      var free := PickSlot();
      if free.None? {
        return Mem;
      }
      Start(free.value, pick.value, name);
      assert old(servers[0]) != 0 ==> WaitsIn(free.value, |old(issued)|, name);
      err := InProgress;
    }

    /** dns_correct_response */
    method CorrectResponse(i: nat, address: nat, ttl: nat)
      requires Valid() && i < table.Length && table[i].state.Asking?
      modifies table, requests, this`log
      ensures Valid()
      ensures Answered(i, address, ttl)
    {
      ghost var t := table[..];
      var kept := if ttl > MAX_TTL then MAX_TTL else ttl;
      var e := table[i].(state := Done, ttl := kept);
      assert EntryOk(conf, t, i);
      TableUpdate(conf, t, i, e);
      SlotsBut(conf, t, requests[..], issued, now, table.Length, table.Length, i, e, t[i := e]);
      table[i] := e;
      assert table[..] == t[i := e];
      CallFound(i, Some(address), table.Length);
      SlotsFree(conf, t[i := e], requests[..], issued, now, table.Length, i, e, t[i := e][i := e]);
      assert t[i := e][i := e] == t[i := e];
      if kept == 0 {
        Replace(i, e.(state := Unused), table.Length, table.Length);
        assert t[i := e][i := e.(state := Unused)] == t[i := e.(state := Unused)];
      }
    }

    /** The checks of dns_recv on a response to the query with the transaction id of entry e. */
    predicate Accepted(e: Entry, m: Response)
      reads this
    {
      m.isResponse && m.oneQuestion && e.serverIdx < |servers| && m.from == servers[e.serverIdx] && m.matches
    }

    /** Table, requests and callbacks are as before. */
    twostate predicate Ignored()
      reads this, table, requests
    {
      table[..] == old(table[..]) && requests[..] == old(requests[..]) && log == old(log)
    }

    /** Every request for entry i has been called back with the address, which is kept for its time to live. */
    twostate predicate Answered(i: nat, address: nat, ttl: nat)
      requires i < |old(table[..])|
      reads this, table, requests
    {
      && log == old(log) + CallsFor(old(requests[..]), |old(requests[..])|, i, Some(address), issued, now)
      && table[..] == old(table[..])[i := Kept(old(table[..])[i], if ttl > MAX_TTL then MAX_TTL else ttl)]
    }

    /**
     * What a response does to entry i, which is asked for with its transaction id: an answer ends it, an
     * error makes it ask the next server, and an error of the last one or an answer without an address ends
     * it with callbacks that carry no address.
     */
    twostate predicate Handled(i: nat, m: Response)
      requires i < table.Length && i < |old(table[..])|
      reads this, table, requests
    {
      var e := old(table[..])[i];
      if e.serverIdx >= |servers| || !(m.isResponse && m.oneQuestion && m.matches && m.from == servers[e.serverIdx])
         || (!m.error && m.answers.Malformed?) then Ignored()
      else if !m.error && m.answers.Address? then Answered(i, m.answers.address, m.answers.ttl)
      else if m.error && Backup(servers, e) then
        OnlyEntry(i, e.(serverIdx := e.serverIdx + 1, tmr := 1, retries := 0))
      else GivenUp(i)
    }

    /** The part of dns_recv for the entry that is asked for with the transaction id of the response. */
    method Handle(i: nat, m: Response)
      requires Valid() && i < table.Length && table[i].state.Asking?
      modifies table, requests, this`log
      ensures Valid()
      ensures Handled(i, m)
    {
      assert EntryOk(conf, table[..], i);
      var e := table[i];
      if !Accepted(e, m) {
        return;
      }
      if m.error {
        if Backup(servers, e) {
          RankSkip(conf, e);
          ghost var t := table[..];
          Advance(i, e.(retries := conf.retries - 1, tmr := 1), table.Length, table.Length);
          assert table[i] == table[..][i];
          assert EntryOk(conf, table[..], i);
          CheckAsking(i, table.Length, table.Length);
          assert table[..] == t[i := table[..][i]];
          return;
        }
      } else {
        match m.answers {
          case Malformed => return;
          case Address(address, ttl) =>
            CorrectResponse(i, address, ttl);
            return;
          case NoAddress =>
        }
      }
      Finish(i, table.Length, table.Length);
      assert table[i] == table[..][i];
    }

    /** dns_recv; at most one entry is asked for with the transaction id of a response. */
    method Receive(m: Response)
      requires Valid()
      modifies table, requests, this`log
      ensures Valid()
      ensures (forall i :: 0 <= i < table.Length ==> !(old(table[i].state).Asking? && old(table[i].txid) == m.txid)) ==>
                Ignored()
      ensures forall i :: 0 <= i < table.Length && old(table[i].state).Asking? && old(table[i].txid) == m.txid ==>
                Handled(i, m)
      ensures old(log) <= log
      ensures forall n :: |old(log)| <= n < |log| && log[n].address.Some? ==> Brings(m, log[n].address.value)
    {
      for i := 0 to table.Length
        invariant Valid() && unchanged(table) && unchanged(requests) && log == old(log)
        invariant forall j :: 0 <= j < i ==> !(table[j].state.Asking? && table[j].txid == m.txid)
      {
        if table[i].state.Asking? && table[i].txid == m.txid {
          forall j | i < j < table.Length ensures !(table[j].state.Asking? && table[j].txid == m.txid) {
            assert Apart(table[..], i, j);
          }
          Handle(i, m);
          CallsAddress(old(requests[..]), requests.Length, i, None, issued, now);
          if m.answers.Address? {
            CallsAddress(old(requests[..]), requests.Length, i, Some(m.answers.address), issued, now);
          }
          return;
        }
      }
    }

    /** dns_setserver */
    method SetServer(s: nat, address: nat)
      requires Valid()
      modifies this`servers
      ensures Valid() && servers == if s < |old(servers)| then old(servers)[s := address] else old(servers)
    {
      if s < |servers| {
        servers := servers[s := address];
      }
    }

    /**
     * Any series of requests, ticks, responses and server changes: every accepted request is either waiting
     * or has been called back, exactly once, and it has been called back once
     * MaxTicks(conf) ticks have passed; the transaction ids of entries in state ASKING differ.
     */
    method Run(ops: seq<Op>)
      requires Valid() && issued == []
      modifies this, table, requests
      ensures Valid()
      ensures forall id: nat :: Once(requests[..], log, |issued|, id)
      ensures forall i: nat, j: nat :: Apart(table[..], i, j)
      ensures forall id: nat :: id < |issued| && issued[id] + MaxTicks(conf) <= now ==> Called(log, id) == 1
      ensures old(log) == [] ==>
                forall n :: 0 <= n < |log| && log[n].address.Some? ==> Received(ops, log[n].address.value)
    {
      for i := 0 to |ops|
        invariant Valid()
        invariant old(log) == [] ==>
                    forall n :: 0 <= n < |log| && log[n].address.Some? ==> Received(ops[..i], log[n].address.value)
      {
        assert forall a :: Received(ops[..i], a) ==> Received(ops[..i + 1], a);
        assert ops[i] in ops[..i + 1];
        match ops[i]
        case Request(name) => var _ := Enqueue(name);
        case Timer => Tick();
        case Datagram(m) => Receive(m);
        case Server(s, address) => SetServer(s, address);
      }
      assert ops[..|ops|] == ops;
      BoundFormula(conf);
      forall id: nat | id < |issued| && issued[id] + Bound(conf) <= now ensures Called(log, id) == 1 {
        Deadline(conf, table[..], requests[..], issued, now, log, id);
      }
    }
  }

  datatype Op = Request(name: seq<Byte>) | Timer | Datagram(m: Response) | Server(s: nat, address: nat)

  /** A response to the question asked that brings this address. */
  predicate Brings(m: Response, address: nat) {
    m.isResponse && m.oneQuestion && m.matches && !m.error && m.answers.Address? && m.answers.address == address
  }

  /** Some response has brought the address. */
  ghost predicate Received(ops: seq<Op>, address: nat) {
    exists op :: op in ops && op.Datagram? && Brings(op.m, address)
  }

  /** DNS_MAX_SERVERS * (1 + M * (M - 1) / 2) */
  function MaxTicks(c: Config): int {
    c.servers * (1 + c.retries * (c.retries - 1) / 2)
  }
}
