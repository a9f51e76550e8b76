/**
 One shard of the LRU cache (util/cache.cc): reference counts, the two lists, the hash table, eviction and deletion.
 */
module LruCache {
  import opened HandleList
  import opened HandleTables

  function Charge(s: seq<Handle>): nat {
    if |s| == 0 then 0 else Charge(s[..|s| - 1]) + s[|s| - 1].charge
  }

  lemma {:induction false} ChargeWithout(s: seq<Handle>, k: nat)
    requires k < |s|
    ensures Charge(Without(s, k)) == Charge(s) - s[k].charge
  {
    var last := |s| - 1;
    if k == last {
      assert Without(s, k) == s[..last];
    } else {
      ChargeWithout(s[..last], k);
      assert Without(s, k)[..last - 1] == Without(s[..last], k);
    }
  }

  lemma ChargeAppend(s: seq<Handle>, e: Handle)
    ensures Charge(s + [e]) == Charge(s) + e.charge
  {
    assert (s + [e])[..|s|] == s;
  }

  lemma EmptyRing(head: Handle)
    requires head.next == head && head.prev == head
    ensures Ring(head, [])
  {
    assert Linked(head, [], 0);
  }

  /** The list without `e`, if it is there. */
  ghost function Removed(s: seq<Handle>, e: Handle): seq<Handle> {
    if e in s then Without(s, IndexOf(s, e)) else s
  }

  lemma RemovedAbsent(s: seq<Handle>, e: Handle)
    requires e !in s
    ensures Removed(s, e) == s
  {
  }

  lemma DupFreeAppend(s: seq<Handle>, e: Handle)
    requires DupFree(s) && e !in s
    ensures DupFree(s + [e])
  {
  }

  ghost function IndexOf(s: seq<Handle>, e: Handle): (k: nat)
    requires e in s
    ensures k < |s| && s[k] == e
  {
    var k: nat :| k < |s| && s[k] == e;
    k
  }

  lemma WithoutMembers(s: seq<Handle>, k: nat)
    requires DupFree(s) && k < |s|
    ensures s[k] !in Without(s, k)
    ensures forall h :: h in Without(s, k) ==> h in s
    ensures forall h :: h in s && h != s[k] ==> h in Without(s, k)
  {
    forall h | h in s && h != s[k] ensures h in Without(s, k) {
      var j :| 0 <= j < |s| && s[j] == h;
      assert h == Without(s, k)[if j < k then j else j - 1];
    }
  }

  /** References are the clients' and the cache's; idle handles are those only the cache holds. */
  predicate HandleOk(refs: nat, inCache: bool, held: nat, isIdle: bool, isBusy: bool) {
    && refs > 0 && refs == held + (if inCache then 1 else 0)
    && isIdle == (inCache && refs == 1)
    && isBusy == (inCache && refs > 1)
  }

  /** A handle leaves the ledger only by being deleted, and only when no client holds it. */
  ghost predicate NoneLost(before: map<Handle, nat>, after: map<Handle, nat>, gone: seq<Handle>) {
    forall h :: h in before ==> h in after || (h in gone && before[h] == 0)
  }

  lemma NoneLostYet(clients: map<Handle, nat>, gone: seq<Handle>)
    ensures NoneLost(clients, clients, gone)
  {
  }

  lemma NoneLostAdd(before: map<Handle, nat>, after: map<Handle, nat>, gone: seq<Handle>, e: Handle)
    requires NoneLost(before, after, gone)
    ensures NoneLost(before, after[e := 1], gone)
  {
  }

  lemma NoneLostDrop(before: map<Handle, nat>, after: map<Handle, nat>, gone: seq<Handle>, x: Handle)
    requires NoneLost(before, after, gone) && x in after && after[x] == 0 && (x in before ==> before[x] == after[x])
    ensures NoneLost(before, after - {x}, gone + [x])
  {
  }

  lemma NoneLostTwice(first: map<Handle, nat>, second: map<Handle, nat>, third: map<Handle, nat>,
                      gone: seq<Handle>, gone': seq<Handle>, e: Handle)
    requires NoneLost(first, second, gone) && NoneLost(second, third, gone') && gone <= gone' && e !in first
    requires forall h :: h in second && h != e ==> h in first && second[h] == first[h]
    ensures NoneLost(first, third, gone')
  {
  }

  class Cache {
    var capacity: nat
    var usage: nat
    const lru: Handle         // the dummy heads of the lists
    const inUse: Handle
    const table: HandleTable
    ghost var idle: seq<Handle>               // the lru list, oldest first
    ghost var busy: seq<Handle>               // the in-use list
    ghost var clients: map<Handle, nat>       // references clients hold, for every handle not yet freed
    ghost var deleted: seq<Handle>            // handles passed to their deleters, in order

    ghost predicate ListsOk()
      reads this`idle, this`busy, lru`next, lru`prev, inUse`next, inUse`prev, idle`next, idle`prev, busy`next, busy`prev
    {
      Ring(lru, idle) && Ring(inUse, busy) && Apart(lru, idle, inUse, busy)
    }

    ghost predicate CountsOk()
      reads this`idle, this`busy, this`clients, clients.Keys`refs, clients.Keys`inCache
    {
      && lru !in clients && inUse !in clients
      && (forall h :: h in idle ==> h in clients)
      && (forall h :: h in busy ==> h in clients)
      && (forall h :: h in clients ==> HandleOk(h.refs, h.inCache, clients[h], h in idle, h in busy))
    }

    /** Charges add up, and no handle is deleted twice or while anyone holds it. */
    ghost predicate LedgerOk()
      reads this`idle, this`busy, this`clients, this`deleted, this`usage
    {
      && usage == Charge(idle) + Charge(busy)
      && (forall h :: h in deleted ==> h !in clients)
      && DupFree(deleted)
    }

    ghost predicate Valid()
      reads this, lru`next, lru`prev, inUse`next, inUse`prev, idle`next, idle`prev, busy`next, busy`prev
      reads clients.Keys`refs, clients.Keys`inCache, table, table.list, table.handles`nextHash
    {
      ListsOk() && CountsOk() && LedgerOk() && table.Valid() && table.handles == Cached()
    }

    ghost function Cached(): set<Handle>
      reads this`idle, this`busy
    {
      SetOf(idle) + SetOf(busy)
    }

    constructor (capacity: nat)
      ensures Valid() && this.capacity == capacity && idle == [] && busy == [] && clients == map[] && deleted == [] &&
        usage == 0
      ensures fresh(lru) && fresh(inUse) && fresh(table) && fresh(table.list)
    {
      this.capacity, usage := capacity, 0;
      lru := new Handle(0, 0, 0, 0);
      inUse := new Handle(0, 0, 0, 0);
      table := new HandleTable();
      idle, busy, clients, deleted := [], [], map[], [];
      new;
      EmptyRing(lru);
      EmptyRing(inUse);
    }

    /** From the lru list to the end of the in-use list ... */
    method MakeBusy(e: Handle)
      requires ListsOk() && e in idle
      modifies this`idle, this`busy, lru`next, lru`prev, inUse`next, inUse`prev
      modifies idle`next, idle`prev, busy`next, busy`prev
      ensures ListsOk() && idle == Removed(old(idle), e) && busy == old(busy) + [e]
      ensures Charge(idle) + Charge(busy) == old(Charge(idle) + Charge(busy))
      ensures forall h :: h in idle <==> h in old(idle) && h != e
    {
      ghost var k := IndexOf(idle, e);
      WithoutMembers(idle, k);
      ChargeWithout(idle, k);
      ChargeAppend(busy, e);
      Move(e, lru, idle, k, inUse, busy);
      idle, busy := Without(idle, k), busy + [e];
    }

    /** ... and back, as the newest. */
    method MakeIdle(e: Handle)
      requires ListsOk() && e in busy
      modifies this`idle, this`busy, lru`next, lru`prev, inUse`next, inUse`prev
      modifies idle`next, idle`prev, busy`next, busy`prev
      ensures ListsOk() && busy == Removed(old(busy), e) && idle == old(idle) + [e]
      ensures Charge(idle) + Charge(busy) == old(Charge(idle) + Charge(busy))
      ensures forall h :: h in busy <==> h in old(busy) && h != e
    {
      ghost var k := IndexOf(busy, e);
      WithoutMembers(busy, k);
      ChargeWithout(busy, k);
      ChargeAppend(idle, e);
      Move(e, inUse, busy, k, lru, idle);
      busy, idle := Without(busy, k), idle + [e];
    }

    lemma Counted(e: Handle)
      requires CountsOk() && e in clients
      ensures HandleOk(e.refs, e.inCache, clients[e], e in idle, e in busy)
      ensures forall h :: h in idle || h in busy ==> h in clients
    {
    }

    /** If only `e` is counted or listed differently, and rightly so, all counts are right. */
    twostate lemma CountsKept(e: Handle)
      requires old(CountsOk()) && e in old(clients) && clients.Keys <= old(clients).Keys
      requires forall h :: h in old(clients) && h != e ==>
        h in clients && clients[h] == old(clients[h]) && h.refs == old(h.refs) && h.inCache == old(h.inCache)
      requires forall h :: h != e ==> (h in idle <==> h in old(idle)) && (h in busy <==> h in old(busy))
      requires if e in clients then HandleOk(e.refs, e.inCache, clients[e], e in idle, e in busy)
               else e !in idle && e !in busy
      ensures CountsOk()
    {
    }

    /** Moving a handle between the lists or giving up a reference leaves the ledger as it is. */
    twostate lemma LedgerKept()
      requires old(LedgerOk()) && clients.Keys <= old(clients).Keys && deleted == old(deleted) && usage == old(usage)
      requires Charge(idle) + Charge(busy) == old(Charge(idle) + Charge(busy))
      ensures LedgerOk()
    {
    }

    /** A client takes one more reference; an idle handle becomes busy. */
    method Ref(e: Handle)
      requires ListsOk() && CountsOk() && LedgerOk() && e in clients
      modifies this`idle, this`busy, this`clients
      modifies lru`next, lru`prev, inUse`next, inUse`prev, clients.Keys`next, clients.Keys`prev, e`refs
      ensures ListsOk() && CountsOk() && LedgerOk() && clients == old(clients)[e := old(clients[e]) + 1]
      ensures idle == Removed(old(idle), e) && busy == if e in old(idle) then old(busy) + [e] else old(busy)
    {
      hide ListsOk, CountsOk, LedgerOk, Charge, Removed, DupFree;
      Counted(e);
      if e.refs == 1 && e.inCache {
        MakeBusy(e);
      } else {
        RemovedAbsent(idle, e);
      }
      e.refs := e.refs + 1;
      clients := clients[e := clients[e] + 1];
      CountsKept(e);
      LedgerKept();
    }

    /**
     A client gives up a reference: the last one frees an erased handle and makes a cached one the newest idle one.
     */
    method Unref(e: Handle)
      requires ListsOk() && CountsOk() && LedgerOk() && e in clients && clients[e] > 0
      modifies this`idle, this`busy, this`clients, this`deleted
      modifies lru`next, lru`prev, inUse`next, inUse`prev, clients.Keys`next, clients.Keys`prev, e`refs
      ensures ListsOk() && CountsOk() && LedgerOk()
      ensures
        var last, cached := old(clients[e]) == 1, old(e.inCache);
        && clients == (if last && !cached then old(clients) - {e} else old(clients)[e := old(clients[e]) - 1])
        && deleted == (if last && !cached then old(deleted) + [e] else old(deleted))
        && busy == (if last && cached then Removed(old(busy), e) else old(busy))
        && idle == (if last && cached then old(idle) + [e] else old(idle))
    {
      hide ListsOk, CountsOk, LedgerOk, Charge, Removed, DupFree;
      Counted(e);
      e.refs := e.refs - 1;
      if e.refs == 0 {
        clients, deleted := clients - {e}, deleted + [e];
        LedgerFreed(e);
      } else {
        clients := clients[e := clients[e] - 1];
        if e.inCache && e.refs == 1 {
          MakeIdle(e);
        }
        LedgerKept();
      }
      CountsKept(e);
    }

    twostate lemma LedgerFreed(e: Handle)
      requires old(LedgerOk()) && e in old(clients) && clients == old(clients) - {e} && deleted == old(deleted) + [e]
      requires idle == old(idle) && busy == old(busy) && usage == old(usage)
      requires Charge(idle) + Charge(busy) == old(Charge(idle) + Charge(busy))
      ensures LedgerOk()
    {
      DupFreeAppend(old(deleted), e);
    }

    /** The cache's own reference is turned into one to be given up like a client's. */
    method Detach(e: Handle)
      requires ListsOk() && CountsOk() && LedgerOk() && e in clients && e.inCache
      modifies this`idle, this`busy, this`clients, this`usage
      modifies lru`next, lru`prev, inUse`next, inUse`prev, clients.Keys`next, clients.Keys`prev, e`inCache
      ensures ListsOk() && CountsOk() && LedgerOk() && usage == old(usage) - e.charge && !e.inCache
      ensures idle == Removed(old(idle), e) && busy == Removed(old(busy), e) &&
        clients == old(clients)[e := old(clients[e]) + 1]
    {
      hide ListsOk, CountsOk, LedgerOk, Charge, Removed, DupFree;
      Counted(e);
      DropFromList(e);
      LedgerCovers(e);
      e.inCache := false;
      usage := usage - e.charge;
      clients := clients[e := clients[e] + 1];
      CountsKept(e);
      LedgerWithout(e);
    }

    twostate lemma LedgerCovers(e: Handle)
      requires old(LedgerOk()) && usage == old(usage)
      requires Charge(idle) + Charge(busy) == old(Charge(idle) + Charge(busy)) - e.charge
      ensures usage >= e.charge
    {
    }

    twostate lemma LedgerWithout(e: Handle)
      requires old(LedgerOk()) && clients.Keys == old(clients).Keys && deleted == old(deleted)
      requires usage == old(usage) - e.charge
      requires Charge(idle) + Charge(busy) == old(Charge(idle) + Charge(busy)) - e.charge
      ensures LedgerOk()
    {
    }

    /** The cache gives up a handle the table no longer has; it is freed unless clients hold it. */
    method FinishErase(e: Handle)
      requires ListsOk() && CountsOk() && LedgerOk() && e in clients && e.inCache
      modifies this`idle, this`busy, this`clients, this`deleted, this`usage
      modifies lru`next, lru`prev, inUse`next, inUse`prev, clients.Keys`next, clients.Keys`prev, e`refs, e`inCache
      ensures ListsOk() && CountsOk() && LedgerOk() && usage == old(usage) - e.charge
      ensures idle == Removed(old(idle), e) && busy == Removed(old(busy), e)
      ensures clients == (if e in old(idle) then old(clients) - {e} else old(clients))
      ensures deleted == (if e in old(idle) then old(deleted) + [e] else old(deleted))
      ensures Cached() == old(Cached()) - {e}
    {
      hide ListsOk, LedgerOk, Removed, SetOf;
      assert HandleOk(e.refs, e.inCache, clients[e], e in idle, e in busy);
      ListsDupFree();
      RemovedMembers(idle, e);
      RemovedMembers(busy, e);
      Detach(e);
      Unref(e);
    }

    /** LRU_Remove on whichever list the handle is in. */
    method DropFromList(e: Handle)
      requires ListsOk() && (e in idle || e in busy)
      modifies this`idle, this`busy, lru`next, lru`prev, inUse`next, inUse`prev
      modifies idle`next, idle`prev, busy`next, busy`prev
      ensures ListsOk() && idle == Removed(old(idle), e) && busy == Removed(old(busy), e)
      ensures Charge(idle) + Charge(busy) == old(Charge(idle) + Charge(busy)) - e.charge
      ensures forall h :: h in idle <==> h in old(idle) && h != e
      ensures forall h :: h in busy <==> h in old(busy) && h != e
    {
      ghost var here := e in idle;
      ghost var head, list := if here then lru else inUse, if here then idle else busy;
      ghost var k := IndexOf(list, e);
      WithoutMembers(list, k);
      ChargeWithout(list, k);
      Unlink(e, head, list, k, if here then inUse else lru, if here then busy else idle);
      idle, busy := if here then Without(list, k) else idle, if here then busy else Without(list, k);
    }

    lemma InTableIsLive()
      requires CountsOk()
      ensures forall h :: h in Cached() ==> h in clients && h.inCache && (h in idle || h in busy)
      ensures forall h :: h in idle || h in busy ==> h in Cached()
    {
      assert forall h :: h in clients ==> HandleOk(h.refs, h.inCache, clients[h], h in idle, h in busy);
    }

    lemma IdleHasNoClient(h: Handle)
      requires CountsOk() && h in idle
      ensures h in clients && clients[h] == 0
    {
    }

    lemma ListsDupFree()
      requires ListsOk()
      ensures DupFree(idle) && DupFree(busy) && forall h :: h in idle ==> h !in busy
    {
    }

    // ----- the operations of the cache -----

    /** The handle with this key, if cached, now also held by the caller. */
    method Lookup(key: int, hash: nat) returns (e: Handle?)
      requires Valid()
      modifies this`idle, this`busy, this`clients, lru`next, lru`prev, inUse`next, inUse`prev
      modifies clients.Keys`next, clients.Keys`prev, clients.Keys`refs
      ensures Valid()
      ensures e == null ==> clients == old(clients) && idle == old(idle) && busy == old(busy)
      ensures e == null ==> forall h :: h in old(Cached()) ==> !Matches(h, key, hash)
      ensures e != null ==> e.key == key && e.hash == hash
      ensures e != null ==>
        e in old(Cached()) && Matches(e, key, hash) && clients == old(clients)[e := old(clients[e]) + 1]
      ensures e != null ==>
        idle == Removed(old(idle), e) && busy == if e in old(idle) then old(busy) + [e] else old(busy)
    {
      hide ListsOk, CountsOk, LedgerOk, HandleTable.Valid, SetOf, Removed;
      e := table.Lookup(key, hash);
      InTableIsLive();
      ListsDupFree();
      if e != null {
        ghost var s, t := idle, busy;
        Ref(e);
        if e in s {
          MovedMembers(s, t, e);
        } else {
          RemovedAbsent(s, e);
        }
      }
    }

    /** The caller gives its reference back. */
    method Release(e: Handle)
      requires Valid() && e in clients && clients[e] > 0
      modifies this`idle, this`busy, this`clients, this`deleted
      modifies lru`next, lru`prev, inUse`next, inUse`prev, clients.Keys`next, clients.Keys`prev, e`refs
      ensures Valid()
      ensures
        var last, cached := old(clients[e]) == 1, e in old(Cached());
        && clients == (if last && !cached then old(clients) - {e} else old(clients)[e := old(clients[e]) - 1])
        && deleted == (if last && !cached then old(deleted) + [e] else old(deleted))
        && busy == (if last && cached then Removed(old(busy), e) else old(busy))
        && idle == (if last && cached then old(idle) + [e] else old(idle))
    {
      hide ListsOk, LedgerOk, HandleTable.Valid, Removed;
      ghost var s, t := idle, busy;
      assert HandleOk(e.refs, e.inCache, clients[e], e in idle, e in busy);
      ListsDupFree();
      Unref(e);
      if busy != t {
        MovedMembers(t, s, e);
      }
    }

    /** Erase: the key is no longer cached; its handle lives on while clients hold it. */
    method Erase(key: int, hash: nat) returns (ghost erased: Handle?)
      requires Valid()
      modifies this`idle, this`busy, this`clients, this`deleted, this`usage, table, table.list, clients.Keys
      modifies lru`next, lru`prev, inUse`next, inUse`prev
      ensures Valid() && table.list == old(table.list)
      ensures erased == null ==> forall h :: h in old(Cached()) ==> !Matches(h, key, hash)
      ensures erased != null ==> erased.key == key && erased.hash == hash
      ensures erased == null ==>
        clients == old(clients) && idle == old(idle) && busy == old(busy) && deleted == old(deleted) &&
        usage == old(usage)
      ensures erased != null ==>
        erased in old(Cached()) && Matches(erased, key, hash) && usage == old(usage) - erased.charge
      ensures erased != null ==> idle == Removed(old(idle), erased) && busy == Removed(old(busy), erased)
      ensures erased != null ==> deleted == old(deleted) + if erased in old(idle) then [erased] else []
      ensures erased != null ==> clients == if erased in old(idle) then old(clients) - {erased} else old(clients)
    {
      hide ListsOk, CountsOk, LedgerOk, HandleTable.Valid, SetOf, Removed;
      InTableIsLive();
      ListsDupFree();
      var e := table.Remove(key, hash);
      erased := e;
      if e != null {
        FinishErase(e);
      }
    }

    /** The body of the eviction loop: the oldest idle handle leaves the table and is freed. */
    method EvictOldest()
      requires Valid() && idle != []
      modifies this`idle, this`busy, this`clients, this`deleted, this`usage, table, table.list, clients.Keys
      modifies lru`next, lru`prev, inUse`next, inUse`prev
      ensures Valid() && table.list == old(table.list)
      ensures idle == old(idle)[1..] && busy == old(busy) && usage == old(usage) - old(idle)[0].charge
      ensures clients == old(clients) - {old(idle)[0]} && deleted == old(deleted) + [old(idle)[0]]
    {
      hide ListsOk, CountsOk, LedgerOk, HandleTable.Valid, Cached, Removed;
      var e := OldestIdle();
      InTableIsLive();
      ListsDupFree();
      OldestIsFirst(idle, busy);
      table.OneHandlePerKey(e);
      var removed := table.Remove(e.key, e.hash);
      FinishErase(e);
    }

    /** `lru_.next`. */
    method OldestIdle() returns (e: Handle)
      requires ListsOk() && idle != []
      ensures e == idle[0]
    {
      assert Linked(lru, idle, 0);
      e := lru.next;
    }

    /** Whether the lru list is empty, as its head tells. */
    method HasIdle() returns (some: bool)
      requires ListsOk()
      ensures some <==> idle != []
    {
      assert Linked(lru, idle, 0);
      some := lru.next != lru;
    }

    /** Prune: everything no client holds is freed, oldest first. */
    method Prune()
      requires Valid()
      modifies this`idle, this`busy, this`clients, this`deleted, this`usage, table, table.list, clients.Keys
      modifies lru`next, lru`prev, inUse`next, inUse`prev
      ensures Valid() && table.list == old(table.list)
      ensures idle == [] && busy == old(busy) && deleted == old(deleted) + old(idle)
      ensures forall h :: h in clients <==> h in old(clients) && h !in old(idle)
      ensures forall h :: h in clients ==> clients[h] == old(clients[h])
    {
      hide ListsOk, CountsOk, LedgerOk, Cached, HandleTable.Valid;
      var more := HasIdle();
      ghost var n := 0;
      while more
        invariant Valid() && table.list == old(table.list) && (more <==> idle != [])
        invariant n <= |old(idle)| && idle == old(idle)[n..] && busy == old(busy) &&
          deleted == old(deleted) + old(idle)[..n]
        invariant forall h :: h in clients <==> h in old(clients) && h !in old(idle)[..n]
        invariant forall h :: h in clients ==> clients[h] == old(clients[h])
        decreases |idle|
      {
        assert old(idle)[..n + 1] == old(idle)[..n] + [old(idle)[n]];
        EvictOldest();
        more := HasIdle();
        n := n + 1;
      }
    }

    /** The new handle joins the in-use list, held by its client and the cache. */
    method Admit(e: Handle)
      requires ListsOk() && CountsOk() && LedgerOk() && e !in clients && e !in deleted && e != lru && e != inUse
      requires e.refs == 1 && !e.inCache
      modifies this`busy, this`clients, this`usage
      modifies inUse`next, inUse`prev, busy`next, busy`prev, e`next, e`prev, e`refs, e`inCache
      ensures ListsOk() && CountsOk() && LedgerOk() && e !in old(Cached())
      ensures busy == old(busy) + [e] && usage == old(usage) + e.charge && clients == old(clients)[e := 1]
      ensures Cached() == old(Cached()) + {e}
    {
      hide Charge, DupFree, Ring, Distinct, Apart;
      assert e !in busy && e !in idle;
      e.refs := e.refs + 1;
      e.inCache := true;
      AppendApart(inUse, e, lru, idle, busy);
      ChargeAppend(busy, e);
      busy, usage, clients := busy + [e], usage + e.charge, clients[e := 1];
    }

    /** A handle the cache does not keep is the client's alone. */
    ghost method HandOut(e: Handle)
      requires CountsOk() && LedgerOk() && e !in clients && e !in deleted && e != lru && e != inUse
      requires e.refs == 1 && !e.inCache
      modifies this`clients
      ensures CountsOk() && LedgerOk() && clients == old(clients)[e := 1]
    {
      hide DupFree;
      clients := clients[e := 1];
    }

    /** While the cache is too full, the oldest idle handles go; no more than needed. */
    method EvictExcess() returns (ghost evicted: nat)
      requires Valid()
      modifies this`idle, this`busy, this`clients, this`deleted, this`usage, table, table.list, clients.Keys
      modifies lru`next, lru`prev, inUse`next, inUse`prev
      ensures Valid() && table.list == old(table.list) && (usage <= capacity || idle == [])
      ensures evicted <= |old(idle)| && idle == old(idle)[evicted..] && busy == old(busy) &&
        deleted == old(deleted) + old(idle)[..evicted]
      ensures evicted > 0 ==> usage + old(idle)[evicted - 1].charge > capacity
      ensures forall h :: h in clients <==> h in old(clients) && h !in old(idle)[..evicted]
      ensures forall h :: h in clients ==> clients[h] == old(clients[h])
      ensures NoneLost(old(clients), clients, deleted)
    {
      hide ListsOk, CountsOk, LedgerOk, Cached, HandleTable.Valid, NoneLost;
      NoneLostYet(clients, deleted);
      var more := HasIdle();
      evicted := 0;
      while usage > capacity && more
        invariant Valid() && table.list == old(table.list) && (more <==> idle != [])
        invariant evicted <= |old(idle)| && idle == old(idle)[evicted..] && busy == old(busy) &&
          deleted == old(deleted) + old(idle)[..evicted]
        invariant evicted > 0 ==> usage + old(idle)[evicted - 1].charge > capacity
        invariant NoneLost(old(clients), clients, deleted)
        invariant forall h :: h in clients <==> h in old(clients) && h !in old(idle)[..evicted]
        invariant forall h :: h in clients ==> clients[h] == old(clients[h])
        decreases |idle|
      {
        assert old(idle)[..evicted + 1] == old(idle)[..evicted] + [old(idle)[evicted]];
        IdleHasNoClient(idle[0]);
        NoneLostDrop(old(clients), clients, deleted, idle[0]);
        EvictOldest();
        more := HasIdle();
        evicted := evicted + 1;
      }
    }

    /** The handle with the same key, if any, is displaced by the new one. */
    method Keep(e: Handle) returns (ghost replaced: Handle?)
      requires Valid() && e !in clients && e !in deleted && e != lru && e != inUse && e.refs == 1 && !e.inCache
      modifies this`idle, this`busy, this`clients, this`deleted, this`usage, table, table.list, clients.Keys, e
      modifies lru`next, lru`prev, inUse`next, inUse`prev
      ensures Valid() && (fresh(table.list) || table.list == old(table.list))
      ensures replaced == null ==> forall h :: h in old(Cached()) ==> !Matches(h, e.key, e.hash)
      ensures replaced != null ==> replaced in old(Cached()) && Matches(replaced, e.key, e.hash)
      ensures replaced == null ==>
        idle == old(idle) && busy == old(busy) + [e] && deleted == old(deleted) && clients == old(clients)[e := 1]
      ensures replaced != null ==> idle == Removed(old(idle), replaced) && busy == Removed(old(busy) + [e], replaced)
      ensures replaced != null ==> deleted == old(deleted) + if replaced in old(idle) then [replaced] else []
      ensures replaced != null ==>
        clients == if replaced in old(idle) then old(clients)[e := 1] - {replaced} else old(clients)[e := 1]
      ensures e in busy && e !in idle && e in clients && clients[e] == 1
      ensures NoneLost(old(clients), clients, deleted)
    {
      hide ListsOk, CountsOk, LedgerOk, HandleTable.Valid, Cached, Removed, NoneLost;
      NoneLostYet(clients, deleted);
      NoneLostAdd(clients, clients, deleted, e);
      InTableIsLive();
      Admit(e);
      InTableIsLive();
      var previous := table.Insert(e);
      replaced := previous;
      if previous != null {
        Displace(previous, e, old(clients));
      }
    }

    /** Erases the handle that `e` has taken the place of; `e` and every handle a client holds stay. */
    method Displace(x: Handle, e: Handle, ghost before: map<Handle, nat>)
      requires ListsOk() && CountsOk() && LedgerOk() && x in clients && x.inCache && x != e
      requires e in busy && e !in idle && e in clients && clients[e] == 1
      requires NoneLost(before, clients, deleted) && (x in before ==> before[x] == clients[x])
      modifies this`idle, this`busy, this`clients, this`deleted, this`usage
      modifies lru`next, lru`prev, inUse`next, inUse`prev, clients.Keys`next, clients.Keys`prev, x`refs, x`inCache
      ensures ListsOk() && CountsOk() && LedgerOk() && Cached() == old(Cached()) - {x}
      ensures idle == Removed(old(idle), x) && busy == Removed(old(busy), x)
      ensures clients == (if x in old(idle) then old(clients) - {x} else old(clients))
      ensures deleted == (if x in old(idle) then old(deleted) + [x] else old(deleted))
      ensures e in busy && e !in idle && e in clients && clients[e] == 1
      ensures NoneLost(before, clients, deleted)
    {
      hide ListsOk, CountsOk, LedgerOk, Cached, Removed, NoneLost;
      ListsDupFree();
      RemovedKeeps(idle, x, e);
      RemovedKeeps(busy, x, e);
      if x in idle {
        IdleHasNoClient(x);
        NoneLostDrop(before, clients, deleted, x);
      }
      FinishErase(x);
    }

    /**
     Insert. The returned handle is new and held by the caller; with room for anything at all it is cached under its
     key, in the place of the one before, and then the oldest idle handles go until the cache fits or has none left.
     */
    method Insert(key: int, hash: nat, charge: nat, value: int)
      returns (e: Handle, ghost replaced: Handle?, ghost evicted: nat)
      requires Valid()
      modifies this`idle, this`busy, this`clients, this`deleted, this`usage, table, table.list, clients.Keys
      modifies lru`next, lru`prev, inUse`next, inUse`prev
      ensures Valid() && (fresh(table.list) || table.list == old(table.list)) && fresh(e)
      ensures Matches(e, key, hash) && e.charge == charge && e.value == value && e in clients && clients[e] == 1
      ensures usage <= capacity || idle == []
      ensures e in Cached() <==> capacity > 0
      ensures replaced != null ==> capacity > 0 && replaced in old(Cached()) && Matches(replaced, key, hash)
      ensures capacity > 0 && replaced == null ==> forall h :: h in old(Cached()) ==> !Matches(h, key, hash)
      ensures
        var rest := if replaced == null then old(idle) else Removed(old(idle), replaced);
        var added := if capacity > 0 then old(busy) + [e] else old(busy);
        && evicted <= |rest| && idle == rest[evicted..] && (evicted > 0 ==> usage + rest[evicted - 1].charge > capacity)
        && busy == (if replaced == null then added else Removed(added, replaced))
        && deleted ==
          old(deleted) + (if replaced != null && replaced in old(idle) then [replaced] else []) + rest[..evicted]
      ensures forall h :: h in clients && h != e ==> h in old(clients) && clients[h] == old(clients[h])
      ensures NoneLost(old(clients), clients, deleted)
    {
      hide ListsOk, CountsOk, LedgerOk, Removed, HandleTable.Valid, Charge, Cached, SetOf, Without, IndexOf, Ring,
        DupFree, NoneLost;
      e := new Handle(key, hash, charge, value);
      replaced := Place(e);
      ghost var placed, gone := clients, deleted;
      evicted := EvictExcess();
      NoneLostTwice(old(clients), placed, clients, gone, deleted, e);
      InCached(e);
    }

    /** With any capacity the cache keeps the new handle; without, it is the client's alone. */
    method Place(e: Handle) returns (ghost replaced: Handle?)
      requires Valid() && e !in clients && e !in deleted && e != lru && e != inUse && e.refs == 1 && !e.inCache
      modifies this`idle, this`busy, this`clients, this`deleted, this`usage, table, table.list, clients.Keys, e
      modifies lru`next, lru`prev, inUse`next, inUse`prev
      ensures Valid() && (fresh(table.list) || table.list == old(table.list))
      ensures e in clients && clients[e] == 1 && e !in idle && (e in busy <==> capacity > 0)
      ensures replaced != null ==> capacity > 0 && replaced in old(Cached()) && Matches(replaced, e.key, e.hash)
      ensures capacity > 0 && replaced == null ==> forall h :: h in old(Cached()) ==> !Matches(h, e.key, e.hash)
      ensures idle == if replaced == null then old(idle) else Removed(old(idle), replaced)
      ensures
        var added := if capacity > 0 then old(busy) + [e] else old(busy);
        busy == if replaced == null then added else Removed(added, replaced)
      ensures deleted == old(deleted) + if replaced != null && replaced in old(idle) then [replaced] else []
      ensures forall h :: h in clients && h != e ==> h in old(clients) && clients[h] == old(clients[h])
      ensures NoneLost(old(clients), clients, deleted)
    {
      hide ListsOk, CountsOk, LedgerOk, Removed, HandleTable.Valid, Matches, Charge, Cached, SetOf, Without, IndexOf,
        Ring, DupFree, NoneLost;
      replaced := null;
      OutsideLists(e);
      if capacity > 0 {
        replaced := Keep(e);
      } else {
        LeaveOut(e);
      }
    }

    method LeaveOut(e: Handle)
      requires Valid() && e !in clients && e !in deleted && e != lru && e != inUse && e.refs == 1 && !e.inCache
      modifies this`clients, e`next
      ensures Valid() && clients == old(clients)[e := 1] && NoneLost(old(clients), clients, deleted)
    {
      hide ListsOk, CountsOk, LedgerOk, HandleTable.Valid, Charge, Cached, Ring, DupFree, NoneLost;
      OutsideLists(e);
      e.next := null;
      assert Valid();
      NoneLostYet(clients, deleted);
      NoneLostAdd(clients, clients, deleted, e);
      HandOut(e);
    }

    lemma OutsideLists(e: Handle)
      requires CountsOk() && e !in clients
      ensures e !in idle && e !in busy
    {
    }

    lemma InCached(h: Handle)
      ensures h in Cached() <==> h in idle || h in busy
    {
    }
  }

  /** Appending to one ring leaves the other alone. */
  method AppendApart(list: Handle, e: Handle, ghost a: Handle, ghost s: seq<Handle>, ghost t: seq<Handle>)
    requires Ring(a, s) && Ring(list, t) && HandleList.Apart(a, s, list, t) && e != a && e != list && e !in s && e !in t
    modifies list`next, list`prev, t`next, t`prev, e`next, e`prev
    ensures Ring(a, s) && Ring(list, t + [e]) && HandleList.Apart(a, s, list, t + [e])
  {
    Append(list, e, t);
    forall i: nat | i <= |s| ensures Linked(a, s, i) {
      assert old(Linked(a, s, i)) && OutsideOf(Node(a, s, i), list, t + [e]) &&
        OutsideOf(Node(a, s, i + 1), list, t + [e]);
    }
  }

  lemma OldestIsFirst(s: seq<Handle>, t: seq<Handle>)
    requires DupFree(s) && s != [] && s[0] !in t
    ensures Removed(s, s[0]) == s[1..] && Removed(t, s[0]) == t
  {
    assert IndexOf(s, s[0]) == 0;
  }

  lemma RemovedKeeps(s: seq<Handle>, e: Handle, h: Handle)
    requires DupFree(s) && h != e
    ensures h in Removed(s, e) <==> h in s
  {
    if e in s {
      WithoutMembers(s, IndexOf(s, e));
    }
  }

  lemma RemovedMembers(s: seq<Handle>, e: Handle)
    requires DupFree(s)
    ensures SetOf(Removed(s, e)) == SetOf(s) - {e}
  {
    if e in s {
      WithoutMembers(s, IndexOf(s, e));
    }
  }

  lemma MovedMembers(s: seq<Handle>, t: seq<Handle>, e: Handle)
    requires DupFree(s) && e in s
    ensures SetOf(Removed(s, e)) + SetOf(t + [e]) == SetOf(s) + SetOf(t)
  {
    RemovedMembers(s, e);
    assert SetOf(t + [e]) == SetOf(t) + {e};
  }
}
