/**
 Block::Iter (table/block.cc): a cursor that knows only offsets and the current key, on a block that may be damaged;
 on a block that was built by BlockBuilder it is a cursor on the entries.
 */
module BlockIterator {
  import opened Levels
  import opened ByteKeys
  import opened Coding
  import opened BlockFormat

  /** No decoded entry runs past the end; the 32-bit length check alone does not rule that out in a damaged block. */
  ghost predicate LengthsFit(data: seq<byte>) {
    forall p: nat :: DecodeEntry(data, p).Some? ==> EntryEnd(data, p) <= |data|
  }

  function EntryEnd(data: seq<byte>, p: nat): nat {
    var d := DecodeEntry(data, p);
    if d.Some? then d.value.start + d.value.unshared + d.value.size else p
  }

  class Iter {
    const less: Order
    const data: seq<byte>           // the block up to its restart array
    const restarts: seq<nat>
    ghost const layout: Layout      // what the block is meant to hold
    var current: nat                // offset of the current entry, |data| if there is none
    var restartIndex: nat
    var key: seq<byte>
    var value: seq<byte>
    var next: nat                   // offset just past the value
    var corrupt: bool

    ghost function Count(): nat {
      |layout.entries|
    }

    /** The block holds the layout's entries in order. */
    ghost predicate Good() {
      && Describes(data, restarts, layout) && IsOrder(less) && Increasing(less, layout.entries)
      && |data| < TWO_32 && forall i :: 0 <= i < |layout.entries| ==> |layout.entries[i].key| < TWO_32
    }

    ghost predicate Usable() {
      |restarts| > 0 && (Good() || LengthsFit(data))
    }

    /** Entry `i` is next to be parsed: the key so far has what it shares. */
    ghost predicate Before(i: nat)
      requires Good()
      reads this
    {
      && i <= Count() && next == layout.offs[i] && restartIndex < |restarts| && restarts[restartIndex] <= layout.offs[i]
      && (i < Count() ==> layout.shared[i] <= |key| && layout.shared[i] <= |layout.entries[i].key| &&
                          key[..layout.shared[i]] == layout.entries[i].key[..layout.shared[i]])
    }

    /** The cursor is on entry `i`, or past the last one; the restart index brackets it. */
    ghost predicate At(i: nat)
      requires Good()
      reads this
    {
      i <= Count() &&
      if i == Count() then current == |data| && restartIndex == |restarts|
      else
        && current == layout.offs[i] < |data| && key == layout.entries[i].key && value == layout.entries[i].value
        && next == layout.offs[i + 1] && restartIndex < |restarts| && restarts[restartIndex] <= current
        && (restartIndex + 1 < |restarts| ==> restarts[restartIndex + 1] >= current)
    }

    constructor (less: Order, data: seq<byte>, restarts: seq<nat>, ghost layout: Layout)
      requires |restarts| > 0
      ensures this.less == less && this.data == data && this.restarts == restarts && this.layout == layout
      ensures !Valid() && !corrupt
    {
      this.less, this.data, this.restarts, this.layout := less, data, restarts, layout;
      current, restartIndex, key, value, next, corrupt := |data|, |restarts|, [], [], |data|, false;
    }

    predicate Valid()
      reads this
    {
      current < |data|
    }

    method CorruptionError()
      modifies this
      ensures corrupt && current == |data| && restartIndex == |restarts|
    {
      current, restartIndex, corrupt, key, value, next := |data|, |restarts|, true, [], [], 0;
    }

    method SeekToRestartPoint(index: nat)
      requires index < |restarts|
      modifies this`key, this`value, this`next, this`restartIndex
      ensures restartIndex == index && next == restarts[index] && key == []
      ensures Good() ==> index < |layout.marks| && Before(layout.marks[index])
    {
      key, restartIndex, value, next := [], index, [], restarts[index];
      if Good() {
        assert MarkAt(restarts, layout, index);
      }
    }

    /** What parsing entry `i` finds. */
    lemma ParsesEntry(i: nat)
      requires Good() && i < Count()
      ensures |layout.offs| == Count() + 1 == |layout.shared| + 1
      ensures layout.offs[i] < layout.offs[i + 1] <= |data| && layout.shared[i] <= |layout.entries[i].key|
      ensures
        var e, p := layout.entries[i], layout.offs[i];
        var d := DecodeEntry(data, p);
        && d.Some? && d.value.shared == layout.shared[i] && d.value.unshared == |e.key| - layout.shared[i]
        && d.value.start + d.value.unshared + d.value.size == layout.offs[i + 1]
        && data[d.value.start..d.value.start + d.value.unshared] == e.key[layout.shared[i]..]
        && data[d.value.start + d.value.unshared..layout.offs[i + 1]] == e.value
    {
      assert EntryAt(data, layout, i);
      DecodesEntry(data, layout.offs[i], layout.shared[i], layout.entries[i]);
    }

    /** Being on an entry is being before the next. */
    lemma AtIsBeforeNext(i: nat)
      requires Good() && At(i) && i < Count()
      ensures Before(i + 1)
    {
      OffsetsIncrease(data, restarts, layout, i, i + 1);
      if i + 1 < Count() {
        assert EntryAt(data, layout, i + 1);
      }
    }

    /** Moves to the entry at `next`; the end and damage leave the cursor invalid. */
    method ParseNextKey(ghost i: nat) returns (more: bool)
      requires Usable() && restartIndex < |restarts| && (Good() ==> Before(i))
      modifies this
      ensures more ==> current == old(next) < next <= |data| && current < |data| && restartIndex < |restarts|
      ensures !more ==> current == |data| && restartIndex == |restarts|
      ensures Good() ==> At(i) && corrupt == old(corrupt) && (more <==> i < Count())
    {
      hide DecodeEntry, IsOrder, Increasing, EntryAt, MarkAt;
      ghost var good := Good();
      current := next;
      if good && i < Count() {
        ParsesEntry(i);
      }
      if current >= |data| {
        current, restartIndex := |data|, |restarts|;
        return false;
      }
      var d := DecodeEntry(data, current);
      if d.None? || |key| < d.value.shared {
        CorruptionError();
        return false;
      }
      var Decoded(shared, unshared, size, start) := d.value;
      assert EntryEnd(data, current) <= |data|;
      key := key[..shared] + data[start..start + unshared];
      value := data[start + unshared..start + unshared + size];
      next := start + unshared + size;
      while restartIndex + 1 < |restarts| && restarts[restartIndex + 1] < current
        invariant restartIndex < |restarts| && (good ==> restarts[restartIndex] <= current)
        modifies this`restartIndex
      {
        restartIndex := restartIndex + 1;
      }
      return true;
    }

    /** A valid cursor has a restart index. */
    predicate Shape()
      reads this
    {
      Valid() ==> restartIndex < |restarts|
    }

    method SeekToFirst()
      requires Usable()
      modifies this
      ensures Shape()
      ensures Good() ==> At(0) && corrupt == old(corrupt)
    {
      FirstMark();
      SeekToRestartPoint(0);
      var more := ParseNextKey(0);
    }

    lemma FirstMark()
      requires |restarts| > 0
      ensures Good() ==> |layout.marks| == |restarts| && layout.marks[0] == 0 && restarts[0] == layout.offs[0]
    {
      if Good() {
        assert MarkAt(restarts, layout, 0);
      }
    }

    method Next(ghost i: nat)
      requires Usable() && Valid() && Shape() && (Good() ==> At(i) && i < Count())
      modifies this
      ensures Shape()
      ensures Good() ==> At(i + 1) && corrupt == old(corrupt)
    {
      if Good() {
        AtIsBeforeNext(i);
      }
      var more := ParseNextKey(i + 1);
    }

    /** The last entry, or the end if there is none. */
    method SeekToLast()
      requires Usable()
      modifies this
      ensures Shape()
      ensures Good() ==> At(if Count() == 0 then 0 else Count() - 1) && corrupt == old(corrupt)
    {
      hide IsOrder, Increasing, EntryAt;
      FirstMark();
      assert Good() && |restarts| > 1 ==> MarkAt(restarts, layout, |restarts| - 1);
      SeekToRestartPoint(|restarts| - 1);
      ghost var k := if Good() then layout.marks[|restarts| - 1] else 0;
      ParseUpTo(|data|, k, if Good() then Count() else 0);
    }

    /** Parses on until an entry ends at or past `original`, where entry `i` starts. */
    method ParseUpTo(original: nat, ghost from: nat, ghost i: nat)
      requires Usable() && restartIndex < |restarts|
      requires Good() ==>
        Before(from) && from <= i <= Count() && original == layout.offs[i] && (from == i ==> i == Count())
      modifies this
      ensures Shape()
      ensures Good() ==> At(if from < i then i - 1 else i) && corrupt == old(corrupt)
    {
      hide IsOrder, Increasing, EntryAt, MarkAt;
      ghost var k: nat := from;
      var more := ParseNextKey(k);
      while more && next < original
        invariant if more then next <= |data| && restartIndex < |restarts| && current < |data| else current == |data|
        invariant Good() ==>
          k <= i && At(k) && corrupt == old(corrupt) && (more <==> k < Count()) && (from < i ==> k < i)
        decreases more, |data| - next
      {
        if Good() {
          AtIsBeforeNext(k);
          assert k + 1 < i;
        }
        k := k + 1;
        more := ParseNextKey(k);
      }
      if Good() && k + 1 < i {
        OffsetsIncrease(data, restarts, layout, k + 1, i);
      }
    }

    /** Steps back: from the restart point before the entry, forward again until the one before it. */
    method Prev(ghost i: nat)
      requires Usable() && Valid() && Shape() && (Good() ==> At(i) && i < Count())
      modifies this
      ensures Shape()
      ensures Good() ==> At(if i == 0 then Count() else i - 1) && corrupt == old(corrupt)
    {
      hide IsOrder, Increasing, EntryAt;
      var original := current;
      FirstMark();
      while restarts[restartIndex] >= original
        invariant restartIndex < |restarts|
        invariant current == original && corrupt == old(corrupt)
        decreases restartIndex
        modifies this`restartIndex, this`current
      {
        if restartIndex == 0 {
          if Good() && i > 0 {
            OffsetsIncrease(data, restarts, layout, 0, i);
          }
          current, restartIndex := |data|, |restarts|;
          return;
        }
        restartIndex := restartIndex - 1;
      }
      SeekToRestartPoint(restartIndex);
      ghost var k := if Good() then layout.marks[restartIndex] else 0;
      if Good() && k > i {
        OffsetsIncrease(data, restarts, layout, i, k);
      }
      ParseUpTo(original, k, if Good() then i else 0);
    }

    /** The first entry whose key is not below the target: binary search over the restart points, then one by one. */
    method Seek(target: seq<byte>) returns (ghost k: nat)
      requires Usable()
      modifies this
      ensures Shape()
      ensures Good() ==>
        At(k) && corrupt == old(corrupt) && (forall i :: 0 <= i < k ==> less(layout.entries[i].key, target))
      ensures Good() && k < Count() ==> !less(layout.entries[k].key, target)
    {
      hide IsOrder, Increasing, EntryAt;
      var found, left := FindRestart(target);
      if !found {
        CorruptionError();
        return 0;
      }
      SeekToRestartPoint(left);
      k := if Good() then layout.marks[left] else 0;
      var more := ParseNextKey(k);
      while more && less(key, target)
        invariant if more then next <= |data| && restartIndex < |restarts| && current < |data| else current == |data|
        invariant Good() ==> At(k) && corrupt == old(corrupt) && (more <==> k < Count())
        invariant Good() ==> forall i :: 0 <= i < k ==> less(layout.entries[i].key, target)
        decreases more, |data| - next
      {
        if Good() {
          AtIsBeforeNext(k);
        }
        k := k + 1;
        more := ParseNextKey(k);
      }
    }

    /** The last restart point that may have a smaller key before the target: none, if an entry there cannot be read. */
    method FindRestart(target: seq<byte>) returns (found: bool, left: nat)
      requires Usable()
      ensures left < |restarts|
      ensures Good() ==> found && left < |layout.marks| && layout.marks[left] <= Count()
      ensures Good() ==> forall i :: 0 <= i < layout.marks[left] ==> less(layout.entries[i].key, target)
    {
      left := 0;
      var right := |restarts| - 1;
      FirstMark();
      while left < right
        invariant left <= right < |restarts|
        invariant Good() ==> left == 0 || MarkBelow(left, target)
      {
        var mid := (left + right + 1) / 2;
        var d := DecodeEntry(data, restarts[mid]);
        if Good() {
          MarkDecodes(mid);
        }
        if d.None? || d.value.shared != 0 {
          return false, left;
        }
        assert EntryEnd(data, restarts[mid]) <= |data|;
        var midKey := data[d.value.start..d.value.start + d.value.unshared];
        if less(midKey, target) {
          left := mid;
        } else {
          right := mid - 1;
        }
      }
      found := true;
      if Good() && left > 0 {
        BelowMark(left, target);
      }
    }

    ghost predicate MarkBelow(j: nat, target: seq<byte>)
      requires Good()
    {
      j < |layout.marks| && layout.marks[j] < Count() && less(layout.entries[layout.marks[j]].key, target)
    }

    lemma MarkDecodes(j: nat)
      requires Good() && 0 < j < |restarts|
      ensures j < |layout.marks| && layout.marks[j] < Count()
      ensures
        var d := DecodeEntry(data, restarts[j]);
        && d.Some? && d.value.shared == 0 && EntryEnd(data, restarts[j]) <= |data|
        && data[d.value.start..d.value.start + d.value.unshared] == layout.entries[layout.marks[j]].key
    {
      assert MarkAt(restarts, layout, j);
      ParsesEntry(layout.marks[j]);
    }

    lemma BelowMark(j: nat, target: seq<byte>)
      requires Good() && MarkBelow(j, target)
      ensures forall i :: 0 <= i < layout.marks[j] ==> less(layout.entries[i].key, target)
    {
    }
  }

  // ----- from builder to iterator -----

  ghost predicate Fits(b: BlockBuilder)
    reads b
  {
    && b.Valid() && IsOrder(b.less) && |b.buffer| < TWO_32
    && forall i :: 0 <= i < |b.layout.entries| ==> |b.layout.entries[i].key| < TWO_32
  }

  /** Finishing a block under 4 GiB and opening its bytes gives an iterator on exactly the entries added. */
  method Reopen(b: BlockBuilder) returns (it: Iter)
    requires Fits(b)
    ensures fresh(it) && it.Good() && it.Usable() && it.layout == b.layout && !it.corrupt
  {
    hide Describes, IsOrder, Increasing;
    RestartsFit(b.buffer, b.restarts, b.layout);
    OpenFinished(b.buffer, b.restarts);
    AlwaysRestarts(b.buffer, b.restarts, b.layout);
    hide Finished, OpenBlock;
    var contents := b.Finish();
    var block := OpenBlock(contents);
    it := new Iter(b.less, block.value.data, block.value.restarts, b.layout);
  }

  lemma AlwaysRestarts(data: seq<byte>, restarts: seq<nat>, l: Layout)
    requires Describes(data, restarts, l)
    ensures |restarts| > 0
  {
  }

  /** The block round trip: walking a finished block from its first entry replays what was added. */
  method Replay(b: BlockBuilder) returns (entries: seq<Pair>)
    requires Fits(b)
    ensures entries == b.layout.entries
  {
    hide Describes, IsOrder, Increasing, Fits;
    var it := Reopen(b);
    it.SeekToFirst();
    entries := [];
    ghost var i: nat := 0;
    while it.Valid()
      invariant fresh(it) && it.Good() && it.Usable() && it.layout == b.layout && !it.corrupt
      invariant it.At(i) && it.Shape() && entries == b.layout.entries[..i]
      decreases it.Count() - i
    {
      entries := entries + [Pair(it.key, it.value)];
      it.Next(i);
      i := i + 1;
    }
    assert b.layout.entries[..|b.layout.entries|] == b.layout.entries;
  }
}
