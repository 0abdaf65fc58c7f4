/**
 * The list of select and poll waiters (api/sockets.c): lwip_link_select_cb and
 * lwip_unlink_select_cb work on head, next and prev pointers in place.
 */
module SelectList {
  import opened Basics
  import opened Wrappers

  /** Position of t in the list, or |q|. */
  function IndexOf(q: seq<nat>, t: nat): (r: nat)
    ensures r <= |q|
    ensures r < |q| ==> q[r] == t
    ensures r == |q| <==> t !in q
  {
    if q == [] then 0 else if q[0] == t then 0 else 1 + IndexOf(q[1..], t)
  }

  lemma IndexUnique(q: seq<nat>, i: nat)
    requires Distinct(q) && i < |q|
    ensures IndexOf(q, q[i]) == i
  {
    var r := IndexOf(q, q[i]);
    assert q[i] in q;
  }

  /** The list without t. */
  function Without(q: seq<nat>, t: nat): seq<nat> {
    var i := IndexOf(q, t);
    if i < |q| then q[..i] + q[i + 1..] else q
  }

  /** The entry behind t, as select_check_waiters reads it from scb->next. */
  function Successor(q: seq<nat>, t: nat): Option<nat> {
    var i := IndexOf(q, t);
    if i + 1 < |q| then Some(q[i + 1]) else None
  }

  lemma WithoutMembers(q: seq<nat>, t: nat, x: nat)
    requires Distinct(q)
    ensures x in Without(q, t) <==> x in q && x != t
    ensures Distinct(Without(q, t))
  {
    var i := IndexOf(q, t);
    var r := Without(q, t);
    if i < |q| {
      assert forall k :: 0 <= k < |r| ==> r[k] == (if k < i then q[k] else q[k + 1]);
      if x in q && x != t {
        var j := IndexOf(q, x);
        assert r[if j < i then j else j - 1] == x;
      }
    }
  }

  function At(q: seq<nat>, i: int): Option<nat> {
    if 0 <= i < |q| then Some(q[i]) else None
  }

  type Links = map<nat, Option<nat>>

  /** Entry i is linked to its neighbours in both directions. */
  ghost predicate LinkedAt(q: seq<nat>, next: Links, prev: Links, i: int) {
    0 <= i < |q| ==>
      && q[i] in next && next[q[i]] == At(q, i + 1)
      && q[i] in prev && prev[q[i]] == At(q, i - 1)
  }

  function RemoveAt(q: seq<nat>, k: nat): seq<nat>
    requires k < |q|
  {
    q[..k] + q[k + 1..]
  }

  /** The pointer writes of lwip_unlink_select_cb. */
  function UnlinkPrev(q: seq<nat>, prev: Links, k: nat): Links
    requires k < |q|
  {
    if k + 1 < |q| then prev[q[k + 1] := At(q, k - 1)] else prev
  }

  function UnlinkNext(q: seq<nat>, next: Links, k: nat): Links
    requires k < |q|
  {
    if k > 0 then next[q[k - 1] := At(q, k + 1)] else next
  }

  lemma UnlinkedAt(q: seq<nat>, next: Links, prev: Links, k: nat, i: int)
    requires Distinct(q) && k < |q| && LinkedAt(q, next, prev, i) && LinkedAt(q, next, prev, i + 1)
    ensures LinkedAt(RemoveAt(q, k), UnlinkNext(q, next, k), UnlinkPrev(q, prev, k), i)
  {
    var r := RemoveAt(q, k);
    if 0 <= i < |r| {
      var j := if i < k then i else i + 1;
      assert r[i] == q[j];
      assert At(r, i + 1) == (if i + 1 < k then At(q, i + 1) else At(q, i + 2));
      assert At(r, i - 1) == (if i - 1 < k then At(q, i - 1) else At(q, i));
    }
  }

  class SelectCbList {
    var head: Option<nat>
    var next: Links
    var prev: Links
    var ctr: int
    ghost var list: seq<nat>

    ghost predicate Valid()
      reads this
    {
      && Distinct(list)
      && head == At(list, 0)
      && forall i :: LinkedAt(list, next, prev, i)
    }

    constructor ()
      ensures Valid() && list == [] && ctr == 0
    {
      head, next, prev, ctr, list := None, map[], map[], 0, [];
    }

    /** lwip_link_select_cb: the entry, zeroed by the caller, goes on top. */
    method Link(t: nat)
      requires Valid() && t !in list
      modifies this
      ensures Valid() && list == [t] + old(list) && ctr == old(ctr) + 1
    {
      assert LinkedAt(list, next, prev, 0);
      prev := prev[t := None];
      next := next[t := head];
      if head.Some? {
        prev := prev[head.value := Some(t)];
      }
      head := Some(t);
      ctr := ctr + 1;
      list := [t] + list;
      forall i ensures LinkedAt(list, next, prev, i) {
        assert old(LinkedAt(list, next, prev, i - 1));
      }
    }

    /** lwip_unlink_select_cb */
    method Unlink(t: nat)
      requires Valid() && t in list
      modifies this
      ensures Valid() && list == Without(old(list), t) && ctr == old(ctr) + 1
    {
      ghost var q, n, p := list, next, prev;
      ghost var k: nat := IndexOf(list, t);
      assert LinkedAt(q, n, p, k) && LinkedAt(q, n, p, k + 1);
      assert k > 0 ==> LinkedAt(q, n, p, k - 1);
      if next[t].Some? {
        prev := prev[next[t].value := prev[t]];
      }
      assert prev == UnlinkPrev(q, p, k);
      if head == Some(t) {
        head := next[t];
      } else {
        next := next[prev[t].value := next[t]];
      }
      assert next == UnlinkNext(q, n, k) && head == At(RemoveAt(q, k), 0);
      ctr := ctr + 1;
      list := Without(q, t);
      WithoutMembers(q, t, t);
      forall i ensures LinkedAt(list, next, prev, i) {
        UnlinkedAt(q, n, p, k, i);
      }
    }

    /** scb->next of a linked entry is its successor in the list. */
    method Follow(t: nat) returns (r: Option<nat>)
      requires Valid() && t in list
      ensures r == Successor(list, t)
    {
      assert LinkedAt(list, next, prev, IndexOf(list, t));
      r := next[t];
    }
  }
}
