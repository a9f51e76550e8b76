/**
 The cache's hash table (util/cache.cc): an array of buckets, each a chain of handles linked through `nextHash`,
 doubled whenever it holds more handles than buckets.
 */
module HandleTables {
  import opened HandleList

  predicate Matches(h: Handle, key: int, hash: nat) {
    h.hash == hash && h.key == key
  }

  /** The length is a power of two, so the mask `hash & (length - 1)` is the remainder. */
  function Bucket(hash: nat, length: nat): (b: nat)
    requires length > 0
    ensures b < length
  {
    hash % length
  }

  function Nth(c: seq<Handle>, k: nat): Handle? {
    if k < |c| then c[k] else null
  }

  predicate LinkAt(c: seq<Handle>, j: nat)
    requires j < |c|
    reads c`nextHash
  {
    c[j].nextHash == Nth(c, j + 1)
  }

  predicate LinkedFrom(c: seq<Handle>, from: nat)
    reads c`nextHash
  {
    forall j: nat :: from <= j < |c| ==> LinkAt(c, j)
  }

  predicate DupFree(c: seq<Handle>) {
    forall i, j :: 0 <= i < j < |c| ==> c[i] != c[j]
  }

  /** A chain holds exactly the handles that hash to its bucket. */
  ghost predicate HoldsBucket(c: seq<Handle>, handles: set<Handle>, b: nat, length: nat)
    requires length > 0
  {
    && (forall h :: h in c ==> h in handles && Bucket(h.hash, length) == b)
    && (forall h :: h in handles && Bucket(h.hash, length) == b ==> h in c)
  }

  /** The chains split the handles by bucket. */
  ghost predicate Partition(chains: seq<seq<Handle>>, handles: set<Handle>) {
    forall b: nat :: b < |chains| ==> DupFree(chains[b]) && HoldsBucket(chains[b], handles, b, |chains|)
  }

  /** The bucket's slot starts the chain. */
  predicate SlotOk(list: array<Handle?>, c: seq<Handle>, b: nat)
    requires b < list.Length
    reads list, c`nextHash
  {
    list[b] == Nth(c, 0) && LinkedFrom(c, 0)
  }

  ghost predicate TableOk(list: array<Handle?>, chains: seq<seq<Handle>>, handles: set<Handle>)
    reads list, handles`nextHash
  {
    && list.Length == |chains| && Partition(chains, handles)
    && forall b: nat :: b < |chains| ==> SlotOk(list, chains[b], b)
  }

  /** Replacing one bucket's chain keeps the split when only handles of that bucket come and go. */
  lemma PartitionUpdate(chains: seq<seq<Handle>>, handles: set<Handle>, b: nat, c: seq<Handle>, kept: set<Handle>)
    requires Partition(chains, handles) && b < |chains| && DupFree(c) && HoldsBucket(c, kept, b, |chains|)
    requires forall h :: h in handles && Bucket(h.hash, |chains|) != b ==> h in kept
    requires forall h :: h in kept && Bucket(h.hash, |chains|) != b ==> h in handles
    ensures Partition(chains[b := c], kept)
  {
  }

  /** A handle is in no other bucket's chain. */
  lemma OnlyInOwnBucket(chains: seq<seq<Handle>>, handles: set<Handle>, b: nat, k: nat, i: nat)
    requires Partition(chains, handles) && b < |chains| && k < |chains[b]| && i < |chains| && i != b
    ensures chains[b][k] !in chains[i]
  {
    assert chains[b][k] in chains[b];
  }

  lemma NotInChains(chains: seq<seq<Handle>>, handles: set<Handle>, h: Handle)
    requires Partition(chains, handles) && h !in handles
    ensures forall i :: 0 <= i < |chains| ==> h !in chains[i]
  {
  }

  /** No two handles of the set have the same key and hash. */
  ghost predicate KeysUnique(handles: set<Handle>) {
    forall h, g :: h in handles && g in handles && Matches(h, g.key, g.hash) ==> h == g
  }

  lemma KeysStayUnique(handles: set<Handle>, h: Handle, replaced: Handle?)
    requires KeysUnique(handles) && h !in handles
    requires if replaced != null then replaced in handles && Matches(replaced, h.key, h.hash)
             else forall g :: g in handles ==> !Matches(g, h.key, h.hash)
    ensures KeysUnique(if replaced == null then handles + {h} else handles - {replaced} + {h})
    ensures |if replaced == null then handles + {h} else handles - {replaced} + {h}| ==
      if replaced == null then |handles| + 1 else |handles|
  {
  }

  predicate PowerOfTwo(n: nat) {
    n == 1 || (n > 1 && n % 2 == 0 && PowerOfTwo(n / 2))
  }

  /** Puts a handle of no chain at the front of its bucket. */
  method PushFront(list: array<Handle?>, ghost chains: seq<seq<Handle>>, ghost handles: set<Handle>, h: Handle)
    returns (ghost chains': seq<seq<Handle>>)
    requires TableOk(list, chains, handles) && list.Length > 0 && h !in handles
    modifies list, h`nextHash
    ensures |chains'| == |chains| && TableOk(list, chains', handles + {h})
  {
    var b := Bucket(h.hash, list.Length);
    ghost var c := [h] + chains[b];
    assert SlotOk(list, chains[b], b);
    chains' := chains[b := c];
    PartitionUpdate(chains, handles, b, c, handles + {h});
    h.nextHash := list[b];
    list[b] := h;
    forall i: nat | i < |chains'| ensures SlotOk(list, chains'[i], i) {
      assert old(SlotOk(list, chains[i], i)) && h !in chains[i];
      if i == b {
        forall j: nat | j < |c| ensures LinkAt(c, j) {
          assert 0 < j ==> old(LinkAt(chains[b], j - 1));
        }
      }
    }
  }

  class HandleTable {
    var length: nat
    var elems: nat
    var list: array<Handle?>
    ghost var chains: seq<seq<Handle>>
    ghost var handles: set<Handle>

    ghost predicate ChainsOk()
      reads this, list, handles`nextHash
    {
      length == |chains| && TableOk(list, chains, handles) && elems == |handles| && KeysUnique(handles)
      && (length == 0 ==> handles == {})
    }

    /** At most as many handles as buckets, whose number is a power of two. */
    ghost predicate Valid()
      reads this, list, handles`nextHash
    {
      ChainsOk() && length >= 4 && PowerOfTwo(length) && elems <= length
    }

    constructor ()
      ensures Valid() && handles == {} && fresh(list)
    {
      length, elems, list, chains, handles := 0, 0, new Handle?[0], [], {};
      new;
      Resize();
    }

    lemma OneHandlePerKey(h: Handle)
      requires Valid() && h in handles
      ensures forall g :: g in handles && Matches(g, h.key, h.hash) ==> g == h
    {
    }

    /**
     The slot that holds the matching handle, or ends the chain: the bucket's if `before` is null, else `before`'s.
     */
    method FindPointer(key: int, hash: nat) returns (b: nat, before: Handle?, found: Handle?, ghost k: nat)
      requires Valid()
      ensures b == Bucket(hash, length) && k <= |chains[b]| && found == Nth(chains[b], k)
      ensures before == if k == 0 then null else chains[b][k - 1]
      ensures found != null ==> found.key == key && found.hash == hash
      ensures if found != null then found in handles && Matches(found, key, hash)
              else forall h :: h in handles ==> !Matches(h, key, hash)
    {
      b, before, k := Bucket(hash, length), null, 0;
      assert SlotOk(list, chains[b], b);
      found := list[b];
      while found != null && !Matches(found, key, hash)
        invariant k <= |chains[b]| && found == Nth(chains[b], k)
        invariant before == if k == 0 then null else chains[b][k - 1]
        invariant forall j :: 0 <= j < k ==> !Matches(chains[b][j], key, hash)
        decreases |chains[b]| - k
      {
        assert LinkAt(chains[b], k);
        before, found, k := found, found.nextHash, k + 1;
      }
    }

    method Lookup(key: int, hash: nat) returns (h: Handle?)
      requires Valid()
      ensures h != null ==> h.key == key && h.hash == hash
      ensures if h != null then h in handles && Matches(h, key, hash)
              else forall g :: g in handles ==> !Matches(g, key, hash)
    {
      var b, before;
      ghost var k;
      b, before, h, k := FindPointer(key, hash);
    }

    /** Stores `x` in the slot found, which turns the bucket's chain into `c` and the contents into `kept`. */
    method SetSlot(b: nat, before: Handle?, ghost k: nat, x: Handle?, ghost c: seq<Handle>, ghost kept: set<Handle>)
      requires TableOk(list, chains, handles) && b < |chains| && k <= |chains[b]| && k <= |c|
      requires forall j :: 0 <= j < k ==> c[j] == chains[b][j]
      requires before == if k == 0 then null else chains[b][k - 1]
      requires x == Nth(c, k) && LinkedFrom(c, k) && DupFree(c) && HoldsBucket(c, kept, b, |chains|)
      requires forall h :: h in handles && Bucket(h.hash, |chains|) != b ==> h in kept
      requires forall h :: h in kept && Bucket(h.hash, |chains|) != b ==> h in handles
      modifies this`chains, this`handles, list, chains[b]`nextHash
      ensures chains == old(chains)[b := c] && handles == kept && TableOk(list, chains, handles)
    {
      hide HoldsBucket, Partition;
      ghost var was := chains;
      assert SlotOk(list, was[b], b);
      PartitionUpdate(was, handles, b, c, kept);
      forall i: nat | i < |was| && i != b ensures SlotOk(list, was[i], i) && before !in was[i] {
        if before != null {
          OnlyInOwnBucket(was, handles, b, k - 1, i);
        }
      }
      if before == null {
        list[b] := x;
      } else {
        before.nextHash := x;
      }
      chains, handles := was[b := c], kept;
      forall i: nat | i < |chains| ensures SlotOk(list, chains[i], i) {
        assert old(SlotOk(list, was[i], i));
        if i == b {
          forall j: nat | j < |c| ensures LinkAt(c, j) {
            assert if j < k then old(LinkAt(was[b], j)) else old(LinkAt(c, j));
            assert j >= k && before != null ==> before == c[k - 1] != c[j];
          }
        }
      }
    }

    /** Adds a handle, in the place of the one with its key if there is one, which is returned. */
    method Insert(h: Handle) returns (replaced: Handle?)
      requires Valid() && h !in handles
      modifies this, list, handles`nextHash, h`nextHash
      ensures Valid() && (fresh(list) || list == old(list))
      ensures if replaced != null then
                && replaced in old(handles) && Matches(replaced, h.key, h.hash)
                && handles == old(handles) - {replaced} + {h}
              else handles == old(handles) + {h} && forall g :: g in old(handles) ==> !Matches(g, h.key, h.hash)
    {
      hide TableOk, PowerOfTwo, KeysUnique, Matches;
      replaced := Place(h);
      if replaced == null {
        elems := elems + 1;
        if elems > length {
          Resize();
        }
      }
    }

    /** The new handle goes to its slot; the count of elements is not yet raised. */
    method Place(h: Handle) returns (replaced: Handle?)
      requires Valid() && h !in handles
      modifies this`chains, this`handles, list, handles`nextHash, h`nextHash
      ensures length == |chains| && TableOk(list, chains, handles) && KeysUnique(handles)
      ensures |handles| == if replaced == null then elems + 1 else elems
      ensures if replaced != null then
                && replaced in old(handles) && Matches(replaced, h.key, h.hash)
                && handles == old(handles) - {replaced} + {h}
              else handles == old(handles) + {h} && forall g :: g in old(handles) ==> !Matches(g, h.key, h.hash)
    {
      hide TableOk, Bucket, PowerOfTwo, KeysUnique, Matches;
      var b, before;
      ghost var k;
      b, before, replaced, k := FindPointer(h.key, h.hash);
      KeysStayUnique(handles, h, replaced);
      PutInSlot(b, before, k, replaced, h);
    }

    /** The new handle takes over the slot and, from the one it replaces, the rest of the chain. */
    method PutInSlot(b: nat, before: Handle?, ghost k: nat, replaced: Handle?, h: Handle)
      requires length == |chains| > 0 && TableOk(list, chains, handles) && h !in handles && b == Bucket(h.hash, length)
      requires k <= |chains[b]| && before == (if k == 0 then null else chains[b][k - 1]) &&
        replaced == Nth(chains[b], k)
      modifies this`chains, this`handles, list, handles`nextHash, h`nextHash
      ensures TableOk(list, chains, handles) && |chains| == old(|chains|)
      ensures handles == if replaced == null then old(handles) + {h} else old(handles) - {replaced} + {h}
    {
      assert SlotOk(list, chains[b], b);
      ghost var c, c' := chains[b], Replace(chains[b], k, h);
      ReplaceHolds(c, k, h, handles, b, |chains|);
      assert k < |c| ==> LinkAt(c, k);
      NotInChains(chains, handles, h);
      h.nextHash := if replaced == null then null else replaced.nextHash;
      forall i: nat | i < |chains| ensures SlotOk(list, chains[i], i) {
        assert old(SlotOk(list, chains[i], i)) && h !in chains[i];
      }
      ReplaceLinked(c, k, h);
      SetSlot(b, before, k, h, c', if replaced == null then handles + {h} else handles - {replaced} + {h});
    }

    /** Takes the handle with this key out. */
    method Remove(key: int, hash: nat) returns (removed: Handle?)
      requires Valid()
      modifies this, list, handles`nextHash
      ensures Valid() && list == old(list)
      ensures if removed != null then
                && removed in old(handles) && Matches(removed, key, hash) && handles == old(handles) - {removed}
              else handles == old(handles) && forall g :: g in old(handles) ==> !Matches(g, key, hash)
    {
      var b, before;
      ghost var k;
      b, before, removed, k := FindPointer(key, hash);
      if removed != null {
        assert SlotOk(list, chains[b], b);
        DropHolds(chains[b], k, handles, b, |chains|);
        DropLinked(chains[b], k);
        SetSlot(b, before, k, removed.nextHash, Drop(chains[b], k), handles - {removed});
        elems := elems - 1;
      }
    }

    /** The first power of two from 4 on that is not below the number of elements. */
    method NewLength() returns (newLength: nat)
      ensures newLength >= 4 && PowerOfTwo(newLength) && elems <= newLength
    {
      newLength := 4;
      while newLength < elems
        invariant newLength >= 4 && PowerOfTwo(newLength)
      {
        newLength := newLength * 2;
      }
    }

    /** Moves every handle, chain by chain, to the front of its bucket in an array big enough. */
    method Resize()
      requires ChainsOk()
      modifies this, handles`nextHash
      ensures Valid() && handles == old(handles) && fresh(list)
    {
      hide PowerOfTwo, Bucket, KeysUnique;
      var newLength := NewLength();
      var newList := new Handle?[newLength](_ => null);
      ghost var newChains: seq<seq<Handle>> := seq(newLength, _ => []);
      ghost var moved: set<Handle> := {};
      var i := 0;
      while i < length
        invariant i <= length == |chains|
        invariant fresh(newList) && newList.Length == newLength && TableOk(newList, newChains, moved)
        invariant forall h :: h in moved ==> h in handles && Bucket(h.hash, length) < i
        invariant forall h :: h in handles && Bucket(h.hash, length) < i ==> h in moved
        invariant forall b: nat :: i <= b < |chains| ==> SlotOk(list, chains[b], b)
        modifies handles`nextHash, newList
      {
        assert SlotOk(list, chains[i], i);
        newChains := MoveChain(newList, newChains, moved, i);
        moved := moved + SetOf(chains[i]);
        i := i + 1;
      }
      assert moved == handles;
      list, length, chains := newList, newLength, newChains;
    }

    /** One turn of Resize's loop: the chain of bucket `i` moves to the new array. */
    method MoveChain(newList: array<Handle?>, ghost newChains: seq<seq<Handle>>, ghost moved: set<Handle>, i: nat)
      returns (ghost chains': seq<seq<Handle>>)
      requires length == |chains| == list.Length && i < length && Partition(chains, handles) && newList != list
      requires forall b: nat :: i <= b < |chains| ==> SlotOk(list, chains[b], b)
      requires newList.Length > 0 && TableOk(newList, newChains, moved)
      requires forall h :: h in moved ==> h in handles && Bucket(h.hash, length) < i
      modifies handles`nextHash, newList
      ensures TableOk(newList, chains', moved + SetOf(chains[i]))
      ensures forall b: nat :: i < b < |chains| ==> SlotOk(list, chains[b], b)
    {
      hide Partition, Bucket, HoldsBucket, DupFree;
      ghost var c, k: nat := chains[i], 0;
      assert SlotOk(list, c, i);
      var h := list[i];
      chains' := newChains;
      assert moved + SetOf(c[..0]) == moved;
      while h != null
        invariant k <= |c| && h == Nth(c, k) && LinkedFrom(c, k)
        invariant TableOk(newList, chains', moved + SetOf(c[..k]))
        invariant forall b: nat :: i < b < |chains| ==> SlotOk(list, chains[b], b)
        decreases |c| - k
      {
        assert LinkAt(c, k);
        var next := h.nextHash;
        NextToMove(chains, handles, i, k, moved);
        forall b: nat | i < b < |chains| ensures h !in chains[b] {
          OnlyInOwnBucket(chains, handles, i, k, b);
        }
        label Push:
        chains' := PushFront(newList, chains', moved + SetOf(c[..k]), h);
        forall j: nat | k + 1 <= j < |c| ensures LinkAt(c, j) {
          assert c[j] == c[k + 1..][j - k - 1];
          assert old@Push(LinkAt(c, j));
        }
        assert moved + SetOf(c[..k]) + {h} == moved + SetOf(c[..k + 1]);
        h, k := next, k + 1;
      }
      assert c[..|c|] == c;
    }
  }

  ghost function SetOf(c: seq<Handle>): set<Handle> {
    set h | h in c
  }

  /** The next handle of the chain is one of the table's and has not been moved. */
  lemma NextToMove(chains: seq<seq<Handle>>, handles: set<Handle>, i: nat, k: nat, moved: set<Handle>)
    requires Partition(chains, handles) && i < |chains| && k < |chains[i]|
    requires forall h :: h in moved ==> Bucket(h.hash, |chains|) < i
    ensures
      var c := chains[i];
      && c[k] in handles && c[k] !in moved && c[k] !in c[..k] && c[k] !in c[k + 1..]
      && SetOf(c[..k + 1]) == SetOf(c[..k]) + {c[k]}
  {
    var c := chains[i];
    assert c[k] in c && c[..k + 1] == c[..k] + [c[k]];
  }

  // ----- one chain -----

  function Replace(c: seq<Handle>, k: nat, h: Handle): seq<Handle>
    requires k <= |c|
  {
    c[..k] + [h] + (if k < |c| then c[k + 1..] else [])
  }

  function Drop(c: seq<Handle>, k: nat): seq<Handle>
    requires k < |c|
  {
    c[..k] + c[k + 1..]
  }

  lemma DropLinked(c: seq<Handle>, k: nat)
    requires k < |c| && LinkedFrom(c, 0)
    ensures LinkedFrom(Drop(c, k), k) && c[k].nextHash == Nth(Drop(c, k), k)
  {
    assert LinkAt(c, k);
    forall j: nat | k <= j < |Drop(c, k)| ensures LinkAt(Drop(c, k), j) {
      assert LinkAt(c, j + 1);
    }
  }

  lemma ReplaceLinked(c: seq<Handle>, k: nat, h: Handle)
    requires k <= |c| && LinkedFrom(c, 0) && h.nextHash == Nth(c, k + 1)
    ensures LinkedFrom(Replace(c, k, h), k)
  {
    forall j: nat | k <= j < |Replace(c, k, h)| ensures LinkAt(Replace(c, k, h), j) {
      assert k < j ==> LinkAt(c, j);
    }
  }

  /** Which handles a chain holds after position `k` is given to `h`. */
  lemma ReplaceHolds(c: seq<Handle>, k: nat, h: Handle, handles: set<Handle>, b: nat, length: nat)
    requires k <= |c| && length > 0 && DupFree(c) && HoldsBucket(c, handles, b, length) && h !in handles &&
      Bucket(h.hash, length) == b
    ensures DupFree(Replace(c, k, h))
    ensures HoldsBucket(Replace(c, k, h), if k < |c| then handles - {c[k]} + {h} else handles + {h}, b, length)
  {
    var c' := Replace(c, k, h);
    forall g ensures g in c' <==> g == h || (g in c && (k < |c| ==> g != c[k])) {
      if g in c && (k < |c| ==> g != c[k]) {
        var j :| 0 <= j < |c| && c[j] == g;
        assert c'[j] == g;
      }
    }
  }

  /** Which handles a chain holds after position `k` is taken out. */
  lemma DropHolds(c: seq<Handle>, k: nat, handles: set<Handle>, b: nat, length: nat)
    requires k < |c| && length > 0 && DupFree(c) && HoldsBucket(c, handles, b, length)
    ensures DupFree(Drop(c, k)) && HoldsBucket(Drop(c, k), handles - {c[k]}, b, length)
  {
    var c' := Drop(c, k);
    forall g ensures g in c' <==> g in c && g != c[k] {
      if g in c && g != c[k] {
        var j :| 0 <= j < |c| && c[j] == g;
        assert g == c'[if j < k then j else j - 1];
      }
    }
  }
}
