/**
 Table blocks (table/block_builder.cc, table/block.cc): prefix-compressed entries, restart points and the trailer
 that lists them.
 */
module BlockFormat {
  import opened Levels
  import opened ByteKeys
  import opened Coding

  datatype Pair = Pair(key: seq<byte>, value: seq<byte>)

  /** The comparator, as its strict order. */
  type Order = (seq<byte>, seq<byte>) -> bool

  ghost predicate IsOrder(less: Order) {
    && (forall a :: !less(a, a))
    && (forall a, b, c :: less(a, b) && less(b, c) ==> less(a, c))
    && (forall a, b :: less(a, b) || less(b, a) || a == b)
  }

  ghost predicate Increasing(less: Order, entries: seq<Pair>) {
    forall i, j :: 0 <= i < j < |entries| ==> less(entries[i].key, entries[j].key)
  }

  // ----- one entry -----

  function EntryHeader(shared: nat, unshared: nat, size: nat): (s: seq<byte>)
    ensures |s| >= 3
  {
    Varint(shared) + Varint(unshared) + Varint(size)
  }

  /** The key's first `shared` bytes are those of the key before. */
  function EntryBytes(shared: nat, e: Pair): (s: seq<byte>)
    requires shared <= |e.key|
    ensures |s| >= 3
  {
    EntryHeader(shared, |e.key| - shared, |e.value|) + (e.key[shared..] + e.value)
  }

  datatype Decoded = Decoded(shared: nat, unshared: nat, size: nat, start: nat)

  /** DecodeEntry at `p`: one byte a number when all three are small, varints otherwise; the sum wraps at 32 bits. */
  function DecodeEntry(data: seq<byte>, p: nat): (r: Option<Decoded>)
    ensures r.Some? ==> p + 3 <= r.value.start <= |data|
  {
    if p + 3 > |data| then None
    else
      var d :=
        if data[p] < 128 && data[p + 1] < 128 && data[p + 2] < 128 then
          Some(Decoded(data[p], data[p + 1], data[p + 2], p + 3))
        else DecodeHeader(data, p);
      if d.None? || |data| - d.value.start < (d.value.unshared + d.value.size) % TWO_32 then None else d
  }

  function DecodeHeader(data: seq<byte>, p: nat): (r: Option<Decoded>)
    requires p <= |data|
    ensures r.Some? ==> p + 3 <= r.value.start <= |data|
  {
    TerminatorMeans(data[p..], 5);
    var a := GetVarint32(data[p..]);
    if a.None? then None
    else
      TerminatorMeans(a.value.rest, 5);
      var b := GetVarint32(a.value.rest);
      if b.None? then None
      else
        TerminatorMeans(b.value.rest, 5);
        var c := GetVarint32(b.value.rest);
        if c.None? then None
        else Some(Decoded(a.value.value, b.value.value, c.value.value, |data| - |c.value.rest|))
  }

  lemma SmallVarint(v: nat)
    ensures v < 128 ==> Varint(v) == [v]
    ensures v >= 128 ==> Varint(v)[0] >= 128
  {
  }

  /** The three varints, one after the other. */
  lemma SlowPath(data: seq<byte>, p: nat, shared: nat, unshared: nat, size: nat, rest: seq<byte>)
    requires p <= |data| && shared < TWO_32 && unshared < TWO_32 && size < TWO_32
    requires data[p..] == Varint(shared) + (Varint(unshared) + (Varint(size) + rest))
    ensures DecodeHeader(data, p) == Some(Decoded(shared, unshared, size, |data| - |rest|))
  {
    hide Varint, GetVarint32, Terminator, Value;
    Varint32RoundTrip(shared, Varint(unshared) + (Varint(size) + rest));
    Varint32RoundTrip(unshared, Varint(size) + rest);
    Varint32RoundTrip(size, rest);
  }

  /** The first bytes tell whether all three numbers are small, and then are the numbers. */
  lemma FastPath(shared: nat, unshared: nat, size: nat, rest: seq<byte>)
    ensures
      var s := Varint(shared) + (Varint(unshared) + (Varint(size) + rest));
      && (s[0] < 128 && s[1] < 128 && s[2] < 128 <==> shared < 128 && unshared < 128 && size < 128)
      && (shared < 128 && unshared < 128 && size < 128 ==> s == [shared, unshared, size] + rest)
  {
    SmallVarint(shared);
    SmallVarint(unshared);
    SmallVarint(size);
    hide Varint;
    var s := Varint(shared) + (Varint(unshared) + (Varint(size) + rest));
    if shared < 128 {
      assert s == [shared] + (Varint(unshared) + (Varint(size) + rest));
      assert s[1] == Varint(unshared)[0];
      if unshared < 128 {
        assert s == [shared] + ([unshared] + (Varint(size) + rest));
        assert s[2] == Varint(size)[0];
      }
    } else {
      assert s[0] == Varint(shared)[0];
    }
  }

  lemma HeaderDecodes(data: seq<byte>, p: nat, shared: nat, unshared: nat, size: nat, rest: seq<byte>)
    requires p <= |data| < TWO_32 && shared < TWO_32 && unshared + size <= |rest|
    requires data[p..] == Varint(shared) + (Varint(unshared) + (Varint(size) + rest))
    ensures DecodeEntry(data, p) == Some(Decoded(shared, unshared, size, |data| - |rest|))
  {
    hide Varint, DecodeHeader;
    SlowPath(data, p, shared, unshared, size, rest);
    FastPath(shared, unshared, size, rest);
    assert data[p] == data[p..][0] && data[p + 1] == data[p..][1] && data[p + 2] == data[p..][2];
    assert shared < 128 && unshared < 128 && size < 128 ==> |data| - p == 3 + |rest|;
  }

  /** Decoding an encoded entry gives its numbers back and lands on its key bytes, on either path. */
  lemma DecodesEntry(data: seq<byte>, p: nat, shared: nat, e: Pair)
    requires shared <= |e.key| && |data| < TWO_32 && shared < TWO_32
    requires p + |EntryBytes(shared, e)| <= |data| && data[p..p + |EntryBytes(shared, e)|] == EntryBytes(shared, e)
    ensures
      var unshared := |e.key| - shared;
      var end := p + |EntryBytes(shared, e)|;
      var start := end - unshared - |e.value|;
      && DecodeEntry(data, p) == Some(Decoded(shared, unshared, |e.value|, start))
      && data[start..start + unshared] == e.key[shared..] && data[start + unshared..end] == e.value
  {
    hide Varint, DecodeEntry;
    var unshared := |e.key| - shared;
    var end := p + |EntryBytes(shared, e)|;
    var start := end - unshared - |e.value|;
    var rest := e.key[shared..] + e.value + data[end..];
    SplitEntry(data, p, end, EntryHeader(shared, unshared, |e.value|), e.key[shared..], e.value);
    JoinFour(Varint(shared), Varint(unshared), Varint(|e.value|), rest);
    HeaderDecodes(data, p, shared, unshared, |e.value|, rest);
  }

  lemma JoinFour(a: seq<byte>, b: seq<byte>, c: seq<byte>, d: seq<byte>)
    ensures a + b + c + d == a + (b + (c + d))
  {
  }

  lemma SplitEntry(data: seq<byte>, p: nat, end: nat, head: seq<byte>, key: seq<byte>, value: seq<byte>)
    requires p <= end <= |data| && data[p..end] == head + (key + value)
    ensures
      var start := end - |key| - |value|;
      && start == p + |head| && data[start..start + |key|] == key && data[start + |key|..end] == value
      && data[p..] == head + (key + value + data[end..])
  {
    var start := p + |head|;
    assert end - p == |head| + |key| + |value|;
    SliceOfSlice(data, p, end, |head|, |head| + |key|);
    SliceOfSlice(data, p, end, |head| + |key|, end - p);
    Suffixes(head, key, value);
    TailFollows(data, p, end, head, key, value);
  }

  lemma TailFollows(data: seq<byte>, p: nat, end: nat, head: seq<byte>, key: seq<byte>, value: seq<byte>)
    requires p <= end <= |data| && data[p..end] == head + (key + value)
    ensures data[p..] == head + (key + value + data[end..])
  {
    assert data[p..] == data[p..end] + data[end..];
  }

  lemma SliceOfSlice(data: seq<byte>, p: nat, end: nat, i: nat, j: nat)
    requires p <= end <= |data| && i <= j <= end - p
    ensures data[p..end][i..j] == data[p + i..p + j]
  {
    var whole := data[p..end];
    assert forall k :: i <= k < j ==> whole[k] == data[p + k];
    assert whole[i..j] == data[p + i..p + j];
  }

  lemma Suffixes(head: seq<byte>, key: seq<byte>, value: seq<byte>)
    ensures (head + (key + value))[|head|..|head| + |key|] == key
    ensures (head + (key + value))[|head| + |key|..|head| + |key| + |value|] == value
  {
    var s := head + (key + value);
    assert forall i :: 0 <= i < |key| ==> s[|head| + i] == key[i];
    assert forall i :: 0 <= i < |value| ==> s[|head| + |key| + i] == value[i];
  }

  // ----- a block of entries -----

  /**
   Which entries a block holds, where each starts, what it shares with the one before, and which are restart points.
   */
  datatype Layout = Layout(entries: seq<Pair>, offs: seq<nat>, shared: seq<nat>, marks: seq<nat>)

  ghost predicate EntryAt(data: seq<byte>, l: Layout, i: nat)
    requires |l.offs| == |l.entries| + 1 == |l.shared| + 1 && i < |l.entries|
  {
    var e, shared := l.entries[i], l.shared[i];
    && shared <= |e.key|
    && (i == 0 ==> shared == 0)
    && (i > 0 ==> shared <= |l.entries[i - 1].key| && e.key[..shared] == l.entries[i - 1].key[..shared])
    && l.offs[i] + |EntryBytes(shared, e)| == l.offs[i + 1] <= |data|
    && data[l.offs[i]..l.offs[i + 1]] == EntryBytes(shared, e)
  }

  ghost predicate MarkAt(restarts: seq<nat>, l: Layout, j: nat)
    requires |l.offs| == |l.entries| + 1 == |l.shared| + 1 && j < |l.marks| == |restarts|
  {
    && l.marks[j] <= |l.entries| && restarts[j] == l.offs[l.marks[j]]
    && (l.marks[j] < |l.entries| ==> l.shared[l.marks[j]] == 0)
    && (j == 0 ==> l.marks[j] == 0)
    && (j > 0 ==> l.marks[j - 1] < l.marks[j] < |l.entries|)
  }

  ghost predicate Describes(data: seq<byte>, restarts: seq<nat>, l: Layout) {
    && |l.offs| == |l.entries| + 1 == |l.shared| + 1 && l.offs[0] == 0 && l.offs[|l.entries|] == |data|
    && |l.marks| == |restarts| > 0
    && (forall i: nat :: i < |l.entries| ==> EntryAt(data, l, i))
    && (forall j: nat :: j < |l.marks| ==> MarkAt(restarts, l, j))
  }

  lemma {:induction false} OffsetsIncrease(data: seq<byte>, restarts: seq<nat>, l: Layout, i: nat, j: nat)
    requires Describes(data, restarts, l) && i < j <= |l.entries|
    ensures l.offs[i] < l.offs[j] <= |data|
  {
    assert EntryAt(data, l, j - 1);
    if i < j - 1 {
      OffsetsIncrease(data, restarts, l, i, j - 1);
    }
  }

  lemma {:induction false} MarksIncrease(data: seq<byte>, restarts: seq<nat>, l: Layout, i: nat, j: nat)
    requires Describes(data, restarts, l) && i < j < |l.marks|
    ensures l.marks[i] < l.marks[j] < |l.entries|
  {
    assert MarkAt(restarts, l, j);
    if i < j - 1 {
      MarksIncrease(data, restarts, l, i, j - 1);
    }
  }

  /** Restart points are every `interval` entries, the last one less than `interval` entries ago. */
  ghost predicate SpacedAt(marks: seq<nat>, interval: nat, j: nat)
    requires j < |marks|
  {
    j + 1 < |marks| ==> marks[j + 1] == marks[j] + interval
  }

  /** The layout with one more entry. */
  ghost function Grown(data: seq<byte>, l: Layout, e: Pair, shared: nat, mark: bool): Layout
    requires shared <= |e.key|
  {
    Layout(l.entries + [e], l.offs + [|data| + |EntryBytes(shared, e)|], l.shared + [shared],
           if mark then l.marks + [|l.entries|] else l.marks)
  }

  lemma GrowsBy(data: seq<byte>, restarts: seq<nat>, l: Layout, e: Pair, shared: nat, mark: bool)
    requires Describes(data, restarts, l) && shared <= |e.key|
    requires if |l.entries| == 0 then shared == 0
             else
               && shared <= |l.entries[|l.entries| - 1].key|
               && e.key[..shared] == l.entries[|l.entries| - 1].key[..shared]
    requires if mark then shared == 0 && l.marks[|l.marks| - 1] < |l.entries|
             else l.marks[|l.marks| - 1] < |l.entries| || l.entries == []
    ensures Describes(data + EntryBytes(shared, e), if mark then restarts + [|data|] else restarts,
                      Grown(data, l, e, shared, mark))
  {
    hide EntryBytes, Varint;
    var data', l' := data + EntryBytes(shared, e), Grown(data, l, e, shared, mark);
    var restarts' := if mark then restarts + [|data|] else restarts;
    forall i: nat | i < |l'.entries| ensures EntryAt(data', l', i) {
      if i < |l.entries| {
        assert EntryAt(data, l, i);
        assert data'[l.offs[i]..l.offs[i + 1]] == data[l.offs[i]..l.offs[i + 1]];
      } else {
        assert data'[|data|..] == EntryBytes(shared, e);
      }
    }
    forall j: nat | j < |l'.marks| ensures MarkAt(restarts', l', j) {
      if j < |l.marks| {
        assert MarkAt(restarts, l, j);
        assert j > 0 ==> l.marks[j - 1] < l.marks[j];
        if j < |l.marks| - 1 {
          MarksIncrease(data, restarts, l, j, |l.marks| - 1);
        }
      }
    }
  }

  method CommonPrefix(a: seq<byte>, b: seq<byte>) returns (shared: nat)
    ensures shared <= |a| && shared <= |b| && a[..shared] == b[..shared]
    ensures shared < |a| && shared < |b| ==> a[shared] != b[shared]
  {
    var minLength := if |a| < |b| then |a| else |b|;
    shared := 0;
    while shared < minLength && a[shared] == b[shared]
      invariant shared <= minLength && a[..shared] == b[..shared]
    {
      shared := shared + 1;
    }
  }

  lemma SharedPrefix(a: seq<byte>, b: seq<byte>, k: nat)
    requires k <= |a| && k <= |b| && a[..k] == b[..k]
    ensures a[..k] + b[k..] == b
  {
  }

  lemma EntryParts(data: seq<byte>, shared: nat, e: Pair)
    requires shared <= |e.key|
    ensures data + Varint(shared) + Varint(|e.key| - shared) + Varint(|e.value|) + e.key[shared..] + e.value ==
      data + EntryBytes(shared, e)
  {
    hide Varint;
  }

  lemma IncreasingAppend(less: Order, entries: seq<Pair>, e: Pair)
    requires IsOrder(less) && Increasing(less, entries) && (entries != [] ==> less(entries[|entries| - 1].key, e.key))
    ensures Increasing(less, entries + [e])
  {
    var all := entries + [e];
    forall i, j | 0 <= i < j < |all| ensures less(all[i].key, all[j].key) {
      assert j == |entries| && i < j - 1 ==> less(all[i].key, all[j - 1].key);
    }
  }

  lemma StillSpaced(marks: seq<nat>, interval: nat, n: nat)
    requires marks != [] && forall j: nat :: j < |marks| ==> SpacedAt(marks, interval, j)
    requires marks[|marks| - 1] + interval == n
    ensures forall j: nat :: j < |marks| + 1 ==> SpacedAt(marks + [n], interval, j)
  {
    forall j: nat | j < |marks| + 1 ensures SpacedAt(marks + [n], interval, j) {
      assert j < |marks| ==> SpacedAt(marks, interval, j);
    }
  }

  class BlockBuilder {
    const less: Order
    const interval: nat
    var buffer: seq<byte>
    var restarts: seq<nat>
    var counter: nat
    var lastKey: seq<byte>
    ghost var layout: Layout

    ghost predicate Valid()
      reads this
    {
      && |layout.marks| > 0 && Describes(buffer, restarts, layout) && Increasing(less, layout.entries)
      && 1 <= interval && counter <= interval && (layout.entries != [] ==> counter > 0)
      && lastKey == (if layout.entries == [] then [] else layout.entries[|layout.entries| - 1].key)
      && layout.marks[|layout.marks| - 1] + counter == |layout.entries|
      && forall j: nat :: j < |layout.marks| ==> SpacedAt(layout.marks, interval, j)
    }

    constructor (less: Order, interval: nat)
      requires interval >= 1
      ensures Valid() && this.less == less && this.interval == interval && layout.entries == []
    {
      this.less, this.interval, buffer, restarts, counter, lastKey := less, interval, [], [0], 0, [];
      layout := Layout([], [0], [], [0]);
    }

    /** Shares what it can with the key before, unless it is time for a restart point. */
    method ChooseShared(key: seq<byte>) returns (shared: nat)
      requires counter <= interval
      modifies this`restarts, this`counter
      ensures shared <= |lastKey| && shared <= |key| && lastKey[..shared] == key[..shared]
      ensures if old(counter) == interval then shared == 0 && counter == 0 && restarts == old(restarts) + [|buffer|]
              else
                && counter == old(counter) && restarts == old(restarts)
                && (shared < |lastKey| && shared < |key| ==> lastKey[shared] != key[shared])
    {
      shared := 0;
      if counter < interval {
        shared := CommonPrefix(lastKey, key);
      } else {
        restarts := restarts + [|buffer|];
        counter := 0;
      }
    }

    /** Adds an entry with a key past the last one. */
    method Add(key: seq<byte>, value: seq<byte>)
      requires Valid() && IsOrder(less) && (layout.entries != [] ==> less(lastKey, key))
      modifies this
      ensures Valid() && layout.entries == old(layout.entries) + [Pair(key, value)]
    {
      hide Describes, IsOrder, Increasing, EntryBytes, Varint, SpacedAt;
      ghost var was, points, l := buffer, restarts, layout;
      ghost var e, mark := Pair(key, value), counter == interval;
      var shared := ChooseShared(key);
      GrowsBy(was, points, l, e, shared, mark);
      IncreasingAppend(less, l.entries, e);
      buffer := buffer + Varint(shared) + Varint(|key| - shared) + Varint(|value|);
      buffer := buffer + key[shared..];
      buffer := buffer + value;
      EntryParts(was, shared, e);
      SharedPrefix(lastKey, key, shared);
      lastKey := lastKey[..shared] + key[shared..];
      counter := counter + 1;
      layout := Grown(was, l, e, shared, mark);
      if mark {
        StillSpaced(l.marks, interval, |l.entries|);
      }
    }

    /** The entries, the restart points and their number. */
    method Finish() returns (contents: seq<byte>)
      requires Valid()
      ensures contents == Finished(buffer, restarts)
    {
      contents := buffer;
      for i := 0 to |restarts|
        invariant contents == buffer + FixedAll(restarts[..i])
      {
        assert restarts[..i + 1] == restarts[..i] + [restarts[i]];
        assert restarts[..i + 1][..i] == restarts[..i];
        contents := contents + Fixed(restarts[i] % TWO_32, 4);
      }
      assert restarts[..|restarts|] == restarts;
      contents := contents + Fixed(|restarts| % TWO_32, 4);
    }
  }

  // ----- the trailer -----

  function FixedAll(restarts: seq<nat>): (s: seq<byte>)
    ensures |s| == 4 * |restarts|
  {
    if |restarts| == 0 then []
    else FixedAll(restarts[..|restarts| - 1]) + Fixed(restarts[|restarts| - 1] % TWO_32, 4)
  }

  function Finished(buffer: seq<byte>, restarts: seq<nat>): seq<byte> {
    buffer + FixedAll(restarts) + Fixed(|restarts| % TWO_32, 4)
  }

  datatype Opened = Opened(data: seq<byte>, restarts: seq<nat>)

  function DecodeAll(s: seq<byte>, n: nat): (restarts: seq<nat>)
    requires |s| == 4 * n
    ensures |restarts| == n
  {
    if n == 0 then [] else DecodeAll(s[..4 * (n - 1)], n - 1) + [DecodeFixed(s[4 * (n - 1)..])]
  }

  /** The Block constructor: none if the trailer does not fit; the restart points follow the entries. */
  function OpenBlock(contents: seq<byte>): Option<Opened> {
    if |contents| < 4 then None
    else
      var n := DecodeFixed(contents[|contents| - 4..]);
      if n > (|contents| - 4) / 4 then None
      else
        var offset := |contents| - (1 + n) * 4;
        Some(Opened(contents[..offset], DecodeAll(contents[offset..|contents| - 4], n)))
  }

  lemma {:induction false} DecodesAll(restarts: seq<nat>)
    requires forall i :: 0 <= i < |restarts| ==> restarts[i] < TWO_32
    ensures DecodeAll(FixedAll(restarts), |restarts|) == restarts
  {
    hide Fixed, DecodeFixed;
    var n := |restarts|;
    if n > 0 {
      var init, s := restarts[..n - 1], FixedAll(restarts);
      DecodesAll(init);
      assert s[..4 * (n - 1)] == FixedAll(init) && s[4 * (n - 1)..] == Fixed(restarts[n - 1] % TWO_32, 4);
      Fixed32RoundTrip(restarts[n - 1]);
    }
  }

  /** Opening a finished block gives its entries and restart points back. */
  lemma OpenFinished(buffer: seq<byte>, restarts: seq<nat>)
    requires |restarts| < TWO_32 && forall i :: 0 <= i < |restarts| ==> restarts[i] < TWO_32
    ensures OpenBlock(Finished(buffer, restarts)) == Some(Opened(buffer, restarts))
  {
    hide Fixed, DecodeFixed, FixedAll, DecodeAll;
    var contents, n := Finished(buffer, restarts), |restarts|;
    assert contents[|contents| - 4..] == Fixed(n % TWO_32, 4);
    Fixed32RoundTrip(n);
    DecodesAll(restarts);
    assert contents[..|buffer|] == buffer && contents[|buffer|..|contents| - 4] == FixedAll(restarts);
  }

  /** Offsets grow by at least the three bytes of an entry header. */
  lemma {:induction false} EntriesFit(data: seq<byte>, restarts: seq<nat>, l: Layout, i: nat)
    requires Describes(data, restarts, l) && i <= |l.entries|
    ensures i <= l.offs[i] <= |data|
  {
    if i > 0 {
      EntriesFit(data, restarts, l, i - 1);
      OffsetsIncrease(data, restarts, l, i - 1, i);
    }
  }

  lemma {:induction false} MarksFit(data: seq<byte>, restarts: seq<nat>, l: Layout, j: nat)
    requires Describes(data, restarts, l) && j < |l.marks|
    ensures j <= l.marks[j]
  {
    if j > 0 {
      MarksFit(data, restarts, l, j - 1);
      MarksIncrease(data, restarts, l, j - 1, j);
    }
  }

  /** In a buffer under 4 GiB every restart offset, and their number, fit 32 bits. */
  lemma RestartsFit(data: seq<byte>, restarts: seq<nat>, l: Layout)
    requires Describes(data, restarts, l) && |data| < TWO_32
    ensures |restarts| < TWO_32 && forall j :: 0 <= j < |restarts| ==> restarts[j] < TWO_32
  {
    forall j: nat | j < |restarts| ensures restarts[j] < TWO_32 {
      assert MarkAt(restarts, l, j);
      EntriesFit(data, restarts, l, l.marks[j]);
    }
    var last := |restarts| - 1;
    MarksFit(data, restarts, l, last);
    assert MarkAt(restarts, l, last);
    EntriesFit(data, restarts, l, |l.entries|);
  }
}
