/**
 The cache's entries and the circular doubly linked lists threaded through them (util/cache.cc), with a dummy handle
 as the head of each list.
 */
module HandleList {
  class Handle {
    const key: int
    const hash: nat
    const charge: nat
    const value: int
    var next: Handle?
    var prev: Handle?
    var nextHash: Handle?
    var inCache: bool
    var refs: nat

    constructor (key: int, hash: nat, charge: nat, value: int)
      ensures this.key == key && this.hash == hash && this.charge == charge && this.value == value
      ensures next == this && prev == this && nextHash == null && !inCache && refs == 1
    {
      this.key, this.hash, this.charge, this.value := key, hash, charge, value;
      next, prev, nextHash, inCache, refs := this, this, null, false, 1;
    }
  }

  /** Position `i` of the ring: the head, then the elements, then the head again. */
  function Node(head: Handle, s: seq<Handle>, i: nat): Handle
    requires i <= |s| + 1
  {
    if 0 < i <= |s| then s[i - 1] else head
  }

  predicate Linked(head: Handle, s: seq<Handle>, i: nat)
    requires i <= |s|
    reads head`next, head`prev, s`next, s`prev
  {
    Node(head, s, i).next == Node(head, s, i + 1) && Node(head, s, i + 1).prev == Node(head, s, i)
  }

  predicate Distinct(head: Handle, s: seq<Handle>) {
    head !in s && forall i, j :: 0 <= i < j < |s| ==> s[i] != s[j]
  }

  /** The links from `head` spell out `s`, in both directions. */
  predicate Ring(head: Handle, s: seq<Handle>)
    reads head`next, head`prev, s`next, s`prev
  {
    Distinct(head, s) && forall i: nat :: i <= |s| ==> Linked(head, s, i)
  }

  function Without(s: seq<Handle>, k: nat): seq<Handle>
    requires k < |s|
  {
    s[..k] + s[k + 1..]
  }

  /** LRU_Remove: element `k` leaves the ring; the others keep their order. */
  method Remove(e: Handle, ghost head: Handle, ghost s: seq<Handle>, ghost k: nat)
    requires Ring(head, s) && k < |s| && s[k] == e
    modifies head`next, head`prev, s`next, s`prev
    ensures Ring(head, Without(s, k))
    ensures e.next == old(e.next) && e.prev == old(e.prev)
  {
    assert Linked(head, s, k) && Linked(head, s, k + 1);
    var after, before := e.next, e.prev;
    after.prev := before;
    before.next := after;
    ghost var t := Without(s, k);
    forall i: nat | i <= |t| ensures Linked(head, t, i) {
      assert old(Linked(head, s, i)) && old(Linked(head, s, i + 1));
      assert Node(head, t, i) == Node(head, s, if i <= k then i else i + 1);
      assert Node(head, t, i + 1) == Node(head, s, if i < k then i + 1 else i + 2);
    }
  }

  /** LRU_Append: a handle of no ring becomes the newest element. */
  method Append(list: Handle, e: Handle, ghost s: seq<Handle>)
    requires Ring(list, s) && e != list && e !in s
    modifies list`next, list`prev, s`next, s`prev, e`next, e`prev
    ensures Ring(list, s + [e])
  {
    assert Linked(list, s, |s|);
    e.next := list;
    e.prev := list.prev;
    e.prev.next := e;
    e.next.prev := e;
    ghost var t := s + [e];
    forall i: nat | i <= |t| ensures Linked(list, t, i) {
      assert i < |s| ==> old(Linked(list, s, i));
      assert i <= |s| ==> Node(list, t, i) == Node(list, s, i);
    }
  }

  /** Two rings with nothing in common. */
  predicate Apart(a: Handle, s: seq<Handle>, b: Handle, t: seq<Handle>) {
    a != b && a !in t && b !in s && forall h :: h in s ==> h !in t
  }

  predicate OutsideOf(h: Handle, head: Handle, s: seq<Handle>) {
    h != head && h !in s
  }

  lemma RemovedStaysApart(a: Handle, s: seq<Handle>, b: Handle, t: seq<Handle>, k: nat)
    requires Apart(a, s, b, t) && k < |s| && Distinct(a, s)
    ensures Apart(a, Without(s, k), b, t) && s[k] !in Without(s, k)
    ensures forall h :: h in Without(s, k) ==> h in s
    ensures forall h :: h in s && h != s[k] ==> h in Without(s, k)
  {
    forall h | h in s && h != s[k] ensures h in Without(s, k) {
      var j :| 0 <= j < |s| && s[j] == h;
      assert h == Without(s, k)[if j < k then j else j - 1];
    }
  }

  /** Removing from one ring leaves the other alone. */
  method Unlink(e: Handle, ghost a: Handle, ghost s: seq<Handle>, ghost k: nat, ghost b: Handle, ghost t: seq<Handle>)
    requires Ring(a, s) && Ring(b, t) && Apart(a, s, b, t) && k < |s| && s[k] == e
    modifies a`next, a`prev, s`next, s`prev
    ensures Ring(a, Without(s, k)) && Ring(b, t) && Apart(a, Without(s, k), b, t)
    ensures e !in Without(s, k) && e != a && e != b && e !in t
  {
    RemovedStaysApart(a, s, b, t, k);
    Remove(e, a, s, k);
    forall i: nat | i <= |t| ensures Linked(b, t, i) {
      assert old(Linked(b, t, i)) && OutsideOf(Node(b, t, i), a, s) && OutsideOf(Node(b, t, i + 1), a, s);
    }
  }

  /** A handle moves from one ring to the end of the other. */
  method Move(e: Handle, ghost a: Handle, ghost s: seq<Handle>, ghost k: nat, b: Handle, ghost t: seq<Handle>)
    requires Ring(a, s) && Ring(b, t) && Apart(a, s, b, t) && k < |s| && s[k] == e
    modifies a`next, a`prev, s`next, s`prev, b`next, b`prev, t`next, t`prev
    ensures Ring(a, Without(s, k)) && Ring(b, t + [e]) && Apart(a, Without(s, k), b, t + [e])
  {
    ghost var rest := Without(s, k);
    Unlink(e, a, s, k, b, t);
    label unlinked:
    Append(b, e, t);
    forall i: nat | i <= |rest| ensures Linked(a, rest, i) {
      assert old@unlinked(Linked(a, rest, i));
      assert OutsideOf(Node(a, rest, i), b, t + [e]) && OutsideOf(Node(a, rest, i + 1), b, t + [e]);
    }
  }
}
