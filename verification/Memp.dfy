/**
 * Fixed-size pools (core/memp.c): an intrusive free list that is relinked in place, and the check
 * for cycles in it. Elements are numbered from 0; a link is the number of the next element.
 */
module Memp {
  import opened Basics
  import opened Wrappers

  // ---------------------------------------------------------------- lists given by links

  type Links = seq<Option<nat>>

  /** All links lead to elements of the pool. */
  ghost predicate Closed(next: Links, tab: Option<nat>) {
    && (tab.Some? ==> tab.value < |next|)
    && (forall e :: 0 <= e < |next| && next[e].Some? ==> next[e].value < |next|)
  }

  function Follow(next: Links, p: Option<nat>): Option<nat> {
    if p.Some? && p.value < |next| then next[p.value] else None
  }

  /** The element reached from p in k steps, None once the list has ended. */
  function Nth(next: Links, p: Option<nat>, k: nat): Option<nat> {
    if k == 0 then p else Follow(next, Nth(next, p, k - 1))
  }

  /** The list ends. */
  ghost predicate Acyclic(next: Links, tab: Option<nat>) {
    exists k :: Nth(next, tab, k) == None
  }

  lemma {:induction false} NthClosed(next: Links, tab: Option<nat>, k: nat)
    requires Closed(next, tab)
    ensures Nth(next, tab, k).Some? ==> Nth(next, tab, k).value < |next|
  {
    if k > 0 { NthClosed(next, tab, k - 1); }
  }

  lemma {:induction false} NoneStays(next: Links, tab: Option<nat>, k: nat, j: nat)
    requires Nth(next, tab, k) == None && k <= j
    ensures Nth(next, tab, j) == None
    decreases j
  {
    if k < j { NoneStays(next, tab, k, j - 1); }
  }

  /** From equal elements the list goes on equally. */
  lemma {:induction false} Parallel(next: Links, tab: Option<nat>, i: nat, j: nat, m: nat)
    requires Nth(next, tab, i) == Nth(next, tab, j)
    ensures Nth(next, tab, i + m) == Nth(next, tab, j + m)
  {
    if m > 0 { Parallel(next, tab, i, j, m - 1); }
  }

  predicate Multiple(x: nat, d: nat)
    requires d >= 1
  {
    x == 0 || (d <= x && Multiple(x - d, d))
  }

  /** Among any d consecutive numbers there is a multiple of d. */
  lemma {:induction false} NextMultiple(i: nat, d: nat) returns (x: nat)
    requires d >= 1
    ensures i < x <= i + d && Multiple(x, d)
    decreases i
  {
    if i < d {
      x := d;
      assert Multiple(x - d, d);
    } else {
      x := NextMultiple(i - d, d);
      x := x + d;
    }
  }

  /** Behind a repetition the list is periodic. */
  lemma {:induction false} Periodic(next: Links, tab: Option<nat>, i: nat, period: nat, m: nat, x: nat)
    requires period >= 1 && Nth(next, tab, i) == Nth(next, tab, i + period) && i <= m && Multiple(x, period)
    ensures Nth(next, tab, m + x) == Nth(next, tab, m)
    decreases x
  {
    if x > 0 {
      Periodic(next, tab, i, period, m, x - period);
      var n := m + x - period;
      Parallel(next, tab, i, i + period, n - i);
    }
  }

  /** A repetition means the list never ends. */
  lemma RepeatIsCycle(next: Links, tab: Option<nat>, i: nat, j: nat)
    requires i < j && Nth(next, tab, i) == Nth(next, tab, j) && Nth(next, tab, i).Some?
    ensures !Acyclic(next, tab)
  {
    forall k: nat ensures Nth(next, tab, k) != None {
      if Nth(next, tab, k) == None {
        var x := NextMultiple(k, j - i);
        Periodic(next, tab, i, j - i, i, x);
        NoneStays(next, tab, k, i + x);
      }
    }
  }

  // ---------------------------------------------------------------- a long list repeats

  /** The elements of a pool of n. */
  ghost function Range(n: nat): set<nat> {
    if n == 0 then {} else Range(n - 1) + {n - 1}
  }

  lemma {:induction false} InRange(n: nat, e: nat)
    ensures e in Range(n) <==> e < n
  {
    if n > 0 { InRange(n - 1, e); }
  }

  lemma {:induction false} RangeSize(n: nat)
    ensures |Range(n)| == n
  {
    if n > 0 {
      RangeSize(n - 1);
      InRange(n - 1, n - 1);
    }
  }

  ghost function Seen(next: Links, tab: Option<nat>, n: nat): set<nat> {
    if n == 0 then {}
    else Seen(next, tab, n - 1) + (if Nth(next, tab, n - 1).Some? then {Nth(next, tab, n - 1).value} else {})
  }

  lemma {:induction false} FindSeen(next: Links, tab: Option<nat>, n: nat, x: nat) returns (i: nat)
    requires x in Seen(next, tab, n)
    ensures i < n && Nth(next, tab, i) == Some(x)
    decreases n
  {
    if Nth(next, tab, n - 1) == Some(x) {
      i := n - 1;
    } else {
      i := FindSeen(next, tab, n - 1, x);
    }
  }

  /** Either the first n elements are different, or some element comes up twice among them. */
  lemma {:induction false} CountSeen(next: Links, tab: Option<nat>, n: nat) returns (i: nat, j: nat)
    requires Closed(next, tab) && forall k :: 0 <= k < n ==> Nth(next, tab, k).Some?
    ensures Seen(next, tab, n) <= Range(|next|)
    ensures |Seen(next, tab, n)| == n || (i < j < n && Nth(next, tab, i) == Nth(next, tab, j))
    decreases n
  {
    i, j := 0, 0;
    if n > 0 {
      i, j := CountSeen(next, tab, n - 1);
      NthClosed(next, tab, n - 1);
      var x := Nth(next, tab, n - 1).value;
      InRange(|next|, x);
      assert Seen(next, tab, n) == Seen(next, tab, n - 1) + {x};
      if x in Seen(next, tab, n - 1) {
        i := FindSeen(next, tab, n - 1, x);
        j := n - 1;
      }
    }
  }

  /** A list that is longer than the pool has elements repeats one of them. */
  lemma Repeats(next: Links, tab: Option<nat>) returns (i: nat, j: nat)
    requires Closed(next, tab) && forall k :: 0 <= k <= |next| ==> Nth(next, tab, k).Some?
    ensures i < j <= |next| && Nth(next, tab, i) == Nth(next, tab, j)
  {
    i, j := CountSeen(next, tab, |next| + 1);
    RangeSize(|next|);
    SubsetSize(Seen(next, tab, |next| + 1), Range(|next|));
  }

  /** On a cyclic list the two pointers of the check meet: t after m steps, h after 2m + 1. */
  lemma Meeting(next: Links, tab: Option<nat>) returns (m: nat)
    requires Closed(next, tab) && !Acyclic(next, tab)
    ensures m <= |next| && Nth(next, tab, m) == Nth(next, tab, 2 * m + 1)
  {
    assert forall k: nat :: Nth(next, tab, k) != None;
    var i, j := Repeats(next, tab);
    var x := NextMultiple(i, j - i);
    m := x - 1;
    Periodic(next, tab, i, j - i, m, x);
  }

  /** memp_sanity: terminates on every list and answers 1 exactly when the list has no cycle. */
  method Sanity(next: Links, tab: Option<nat>) returns (ok: bool)
    requires Closed(next, tab)
    ensures ok <==> Acyclic(next, tab)
  {
    ghost var bound: nat;
    if Acyclic(next, tab) {
      bound :| Nth(next, tab, bound) == None;
    } else {
      bound := Meeting(next, tab);
    }
    ok := true;
    var t := tab;
    assert Nth(next, tab, 0) == tab;
    if t.Some? {
      ok := Race(next, tab, bound);
    }
  }

  /** The loop of memp_sanity; after `bound` rounds at the latest the list has ended or t meets h. */
  method Race(next: Links, tab: Option<nat>, ghost bound: nat) returns (ok: bool)
    requires Nth(next, tab, bound) == None || Nth(next, tab, bound) == Nth(next, tab, 2 * bound + 1)
    ensures ok <==> Acyclic(next, tab)
  {
    var t, h := tab, Follow(next, tab);
    assert Nth(next, tab, 0) == tab;
    ghost var i := 0;
    while t.Some? && h.Some?
      invariant t == Nth(next, tab, i) && h == Nth(next, tab, 2 * i + 1)
      invariant i <= bound
      decreases bound - i
    {
      if t == h {
        RepeatIsCycle(next, tab, i, 2 * i + 1);
        return false;
      }
      t := Follow(next, t);
      TwoSteps(next, tab, 2 * i + 1);
      h := if Follow(next, h).Some? then Follow(next, Follow(next, h)) else None;
      i := i + 1;
    }
    ok := true;
  }

  lemma TwoSteps(next: Links, tab: Option<nat>, k: nat)
    ensures Nth(next, tab, k + 2) == Follow(next, Follow(next, Nth(next, tab, k)))
  {
    assert Nth(next, tab, k + 2) == Follow(next, Nth(next, tab, k + 1));
    assert Nth(next, tab, k + 1) == Follow(next, Nth(next, tab, k));
  }

  // ---------------------------------------------------------------- pools

  ghost function Elements(q: seq<nat>): set<nat> {
    if q == [] then {} else {q[0]} + Elements(q[1..])
  }

  lemma {:induction false} Members(q: seq<nat>, x: nat)
    ensures x in Elements(q) <==> x in q
  {
    if q != [] { Members(q[1..], x); }
  }

  /** The elements of q, in order, are what the links starting at tab lead through. */
  ghost predicate Chain(next: Links, tab: Option<nat>, q: seq<nat>)
    decreases |q|
  {
    if q == [] then tab == None
    else tab == Some(q[0]) && q[0] < |next| && Chain(next, next[q[0]], q[1..])
  }

  /** Links of elements outside the chain do not matter. */
  lemma {:induction false} ChainFrame(next: Links, next': Links, tab: Option<nat>, q: seq<nat>, e: nat, v: Option<nat>)
    requires Chain(next, tab, q) && e < |next| && e !in Elements(q) && next' == next[e := v]
    ensures Chain(next', tab, q)
    decreases |q|
  {
    if q != [] {
      ChainFrame(next, next', next[q[0]], q[1..], e, v);
    }
  }

  lemma {:induction false} ChainEnds(next: Links, tab: Option<nat>, q: seq<nat>, p: Option<nat>, k: nat)
    requires Chain(next, tab, q) && Nth(next, p, k) == tab
    ensures Nth(next, p, k + |q|) == None
    decreases |q|
  {
    if q != [] {
      assert Nth(next, p, k + 1) == next[q[0]];
      ChainEnds(next, next[q[0]], q[1..], p, k + 1);
    }
  }

  /** A free list is never cyclic, so memp_sanity accepts it. */
  lemma ChainAcyclic(next: Links, tab: Option<nat>, q: seq<nat>)
    requires Chain(next, tab, q)
    ensures Acyclic(next, tab)
  {
    ChainEnds(next, tab, q, tab, 0);
    assert Nth(next, tab, 0 + |q|) == None;
  }

  /** Every element of a pool of n is on the free list, once, or outstanding, and not both. */
  ghost predicate Partition(n: nat, free: seq<nat>, out: set<nat>) {
    Distinct(free) && Elements(free) !! out && Elements(free) + out == Range(n)
  }

  lemma TakeFirst(n: nat, free: seq<nat>, out: set<nat>, x: nat)
    requires Partition(n, free, out) && free != [] && x == free[0]
    ensures Partition(n, free[1..], out + {x}) && x !in out && x < n
  {
    assert x in Elements(free) + out;
    InRange(n, x);
    Members(free[1..], x);
    assert Elements(free[1..]) + (out + {x}) == Elements(free) + out;
  }

  /** Taking the first element off a free list. */
  lemma Taken(next: Links, tab: Option<nat>, n: nat, free: seq<nat>, out: set<nat>)
    requires |next| == n && Chain(next, tab, free) && Partition(n, free, out)
    ensures tab.None? <==> out == Range(n)
    ensures tab.Some? ==>
              free != [] && free == [tab.value] + free[1..] && tab.value < n &&
              tab.value !in out && |out + {tab.value}| == |out| + 1 &&
              Chain(next, next[tab.value], free[1..]) && Partition(n, free[1..], out + {tab.value})
  {
    Exhausted(n, free, out);
    if tab.Some? { TakeFirst(n, free, out, tab.value); }
  }

  lemma PutFirst(n: nat, free: seq<nat>, out: set<nat>, x: nat, free': seq<nat>)
    requires Partition(n, free, out) && x in out && free' == [x] + free
    ensures Partition(n, free', out - {x}) && x < n && x !in Elements(free)
  {
    assert x in Elements(free) + out;
    InRange(n, x);
    Members(free, x);
    assert free'[1..] == free;
    assert Elements(free') + (out - {x}) == Elements(free) + out;
  }

  /** The free list is empty exactly when all elements are outstanding. */
  lemma Exhausted(n: nat, free: seq<nat>, out: set<nat>)
    requires Partition(n, free, out)
    ensures free == [] <==> out == Range(n)
  {
    if free != [] {
      assert free[0] in Elements(free) + out;
    }
  }

  lemma Extend(n: nat, free: seq<nat>, free': seq<nat>)
    requires Partition(n, free, {}) && free' == [n] + free
    ensures Partition(n + 1, free', {}) && n !in Elements(free)
  {
    InRange(n, n);
    Members(free, n);
    assert Elements(free) + {} == Elements(free);
    assert free'[1..] == free && Elements(free') == {n} + Elements(free);
    assert Range(n + 1) == Range(n) + {n};
  }

  class Pool {
    const num: nat
    const next: array<Option<nat>>
    var tab: Option<nat>
    var used: nat
    ghost var outstanding: set<nat>
    ghost var free: seq<nat>

    /** Free list and outstanding elements partition the pool. */
    ghost predicate Valid()
      reads this, next
    {
      && next.Length == num
      && Chain(next[..], tab, free)
      && Partition(num, free, outstanding)
      && used == |outstanding|
    }

    /** memp_init_pool */
    constructor (n: nat)
      ensures Valid() && fresh(next) && num == n && outstanding == {}
      ensures |free| == n
    {
      num := n;
      next := new Option<nat>[n](_ => None);
      tab, used, outstanding, free := None, 0, {}, [];
      new;
      for i := 0 to num
        invariant next.Length == num && used == 0 && outstanding == {}
        invariant |free| == i && Chain(next[..], tab, free) && Partition(i, free, {})
      {
        ghost var links := next[..];
        Extend(i, free, [i] + free);
        next[i] := tab;
        assert next[..] == links[i := tab];
        ChainFrame(links, next[..], tab, free, i, tab);
        tab := Some(i);
        ghost var rest := free;
        free := [i] + rest;
        assert free[1..] == rest;
      }
    }

    /** do_memp_malloc_pool */
    method Malloc() returns (r: Option<nat>)
      requires Valid()
      modifies this
      ensures Valid()
      ensures r.None? <==> old(outstanding) == Range(num)
      ensures if r.None? then unchanged(this)
              else r.value !in old(outstanding) && outstanding == old(outstanding) + {r.value} &&
                   old(free) == [r.value] + free
    {
      ghost var rest := if free == [] then [] else free[1..];
      r := tab;
      Taken(next[..], tab, num, free, outstanding);
      if r.Some? {
        var memp := r.value;
        tab := next[memp];
        used := used + 1;
        outstanding := outstanding + {memp};
        free := rest;
        assert Chain(next[..], tab, rest);
      }
    }

    /** do_memp_free_pool, for an element the caller owns. */
    method Free(memp: nat)
      requires Valid() && memp in outstanding
      modifies this, next
      ensures Valid() && free == [memp] + old(free) && outstanding == old(outstanding) - {memp}
    {
      ghost var links := next[..];
      PutFirst(num, free, outstanding, memp, [memp] + free);
      next[memp] := tab;
      assert next[..] == links[memp := tab];
      ChainFrame(links, next[..], tab, free, memp, tab);
      used := used - 1;
      tab := Some(memp);
      outstanding := outstanding - {memp};
      free := [memp] + free;
      assert free[1..] == old(free);
    }

    /** The link of an element lies in the caller's data, which the caller may overwrite. */
    method Overwrite(memp: nat, v: Option<nat>)
      requires Valid() && memp in outstanding
      modifies next
      ensures Valid()
    {
      ghost var links := next[..];
      PutFirst(num, free, outstanding, memp, [memp] + free);
      next[memp] := v;
      assert next[..] == links[memp := v];
      ChainFrame(links, next[..], tab, free, memp, v);
    }
  }
}
