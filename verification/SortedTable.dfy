/**
 Building and searching a sorted table (table/table_builder.cc, table/table.cc):
 data blocks behind an index of shortened separators.
 */
module SortedTable {
  import opened Keys
  import opened Levels
  import opened ByteKeys
  import opened TwoLevel

  const BLOCK_TRAILER_SIZE: nat := 5

  datatype KV = KV(key: ByteKey, value: Bytes)
  datatype IndexKV = IndexKV(key: ByteKey, handle: nat)

  function ToEntry(kv: KV): Entry {
    Entry(ToKey(kv.key), kv.value)
  }

  function ToRun(s: seq<KV>): seq<Entry> {
    seq(|s|, i requires 0 <= i < |s| => ToEntry(s[i]))
  }

  function ToIndex(s: seq<IndexKV>): seq<IndexEntry> {
    seq(|s|, i requires 0 <= i < |s| => IndexEntry(ToKey(s[i].key), s[i].handle))
  }

  /**
   `sep` ends the first `end` entries: nothing before is past it, everything after
   is, and unless it is the last key itself it shares no user key with what follows.
   */
  ghost predicate Separates(run: seq<Entry>, end: nat, sep: InternalKey) {
    && 0 < end <= |run|
    && (forall q :: 0 <= q < end ==> LessEq(run[q].ik, sep))
    && (forall q :: end <= q < |run| ==> Less(sep, run[q].ik))
    && (sep == run[end - 1].ik || forall q :: end <= q < |run| ==> sep.user < run[q].ik.user)
  }

  lemma LastKeySeparates(run: seq<Entry>, end: nat)
    requires Sorted(run) && 0 < end <= |run|
    ensures Separates(run, end, run[end - 1].ik)
  {
    assert forall q :: 0 <= q < end - 1 ==> Less(run[q].ik, run[end - 1].ik);
    assert forall q :: end <= q < |run| ==> Less(run[end - 1].ik, run[q].ik);
  }

  /** A separator goes on separating when a key past everything is added. */
  lemma SeparatesGrowingRun(run: seq<Entry>, e: Entry, end: nat, sep: InternalKey)
    requires Sorted(run + [e]) && Separates(run, end, sep) && end < |run|
    ensures Separates(run + [e], end, sep)
  {
    var r := run + [e];
    assert Less(r[|run| - 1].ik, r[|run|].ik);
  }

  /** Where block `i` starts, given where the blocks end. */
  function StartOf(ends: seq<nat>, i: nat): nat
    requires i <= |ends|
  {
    if i == 0 then 0 else ends[i - 1]
  }

  function EndOf(ends: seq<nat>): nat {
    if ends == [] then 0 else ends[|ends| - 1]
  }

  /** The block behind an index entry holds the entries from `start` to `end`, and its separator ends them. */
  ghost predicate CoversBlock(run: seq<Entry>, entry: IndexEntry, blocks: map<nat, seq<Entry>>, start: nat, end: nat) {
    && start < end <= |run|
    && entry.handle in blocks && blocks[entry.handle] == run[start..end]
    && Separates(run, end, entry.separator)
  }

  ghost predicate CoveredAt(run: seq<Entry>, index: seq<IndexEntry>, blocks: map<nat, seq<Entry>>, ends: seq<nat>,
                            i: nat) {
    i < |ends| && i < |index| && CoversBlock(run, index[i], blocks, StartOf(ends, i), ends[i])
  }

  ghost predicate BlocksCover(run: seq<Entry>, index: seq<IndexEntry>, blocks: map<nat, seq<Entry>>, ends: seq<nat>) {
    |ends| == |index| && forall i :: 0 <= i < |ends| ==> CoveredAt(run, index, blocks, ends, i)
  }

  lemma {:induction false} EndsOrdered(run: seq<Entry>, index: seq<IndexEntry>, blocks: map<nat, seq<Entry>>,
                                       ends: seq<nat>, i: nat, j: nat)
    requires BlocksCover(run, index, blocks, ends) && i <= j < |ends|
    ensures ends[i] <= ends[j] && (i < j ==> ends[i] < ends[j])
  {
    if i < j {
      EndsOrdered(run, index, blocks, ends, i, j - 1);
      assert CoveredAt(run, index, blocks, ends, j);
    }
  }

  lemma BlockGrows(run: seq<Entry>, e: Entry, entry: IndexEntry, blocks: map<nat, seq<Entry>>, start: nat, end: nat)
    requires CoversBlock(run, entry, blocks, start, end) && Sorted(run + [e])
    requires end == |run| ==> entry.separator == run[|run| - 1].ik
    ensures CoversBlock(run + [e], entry, blocks, start, end)
  {
    assert (run + [e])[start..end] == run[start..end];
    if end == |run| {
      LastKeySeparates(run + [e], |run|);
    } else {
      SeparatesGrowingRun(run, e, end, entry.separator);
    }
  }

  /** Adding a key past everything keeps every block covered. */
  lemma GrowCover(run: seq<Entry>, e: Entry, index: seq<IndexEntry>, blocks: map<nat, seq<Entry>>, ends: seq<nat>)
    requires BlocksCover(run, index, blocks, ends) && Sorted(run + [e])
    requires ends != [] && EndOf(ends) == |run| ==> run != [] && index[|ends| - 1].separator == run[|run| - 1].ik
    ensures BlocksCover(run + [e], index, blocks, ends)
  {
    forall i | 0 <= i < |ends| ensures CoveredAt(run + [e], index, blocks, ends, i) {
      assert CoveredAt(run, index, blocks, ends, i);
      EndsOrdered(run, index, blocks, ends, i, |ends| - 1);
      assert CoveredAt(run, index, blocks, ends, |ends| - 1);
      BlockGrows(run, e, index[i], blocks, StartOf(ends, i), ends[i]);
    }
  }

  ghost function WithLastSeparator(index: seq<IndexEntry>, sep: InternalKey): seq<IndexEntry>
    requires index != []
  {
    index[..|index| - 1] + [IndexEntry(sep, index[|index| - 1].handle)]
  }

  lemma ReplaceLastSeparator(run: seq<Entry>, index: seq<IndexEntry>, blocks: map<nat, seq<Entry>>, ends: seq<nat>,
                             sep: InternalKey)
    requires BlocksCover(run, index, blocks, ends) && ends != [] && Separates(run, EndOf(ends), sep)
    ensures BlocksCover(run, WithLastSeparator(index, sep), blocks, ends)
  {
    hide Separates;
    var index' := WithLastSeparator(index, sep);
    forall i | 0 <= i < |ends| ensures CoveredAt(run, index', blocks, ends, i) {
      assert CoveredAt(run, index, blocks, ends, i);
    }
  }

  /** A key between the last key of a block and what follows separates them. */
  lemma BetweenSeparates(run: seq<Entry>, end: nat, sep: InternalKey)
    requires Sorted(run) && 0 < end <= |run|
    requires sep == run[end - 1].ik
      || (run[end - 1].ik.user < sep.user && forall q :: end <= q < |run| ==> sep.user < run[q].ik.user)
    ensures Separates(run, end, sep)
  {
    LastKeySeparates(run, end);
  }

  lemma FlushCover(run: seq<Entry>, index: seq<IndexEntry>, blocks: map<nat, seq<Entry>>, ends: seq<nat>, handle: nat)
    requires BlocksCover(run, index, blocks, ends) && Sorted(run) && handle !in blocks && EndOf(ends) < |run|
    ensures BlocksCover(run, index + [IndexEntry(run[|run| - 1].ik, handle)],
                        blocks[handle := run[EndOf(ends)..]], ends + [|run|])
  {
    LastKeySeparates(run, |run|);
    hide Separates;
    assert run[EndOf(ends)..|run|] == run[EndOf(ends)..];
    var ends' := ends + [|run|];
    var index' := index + [IndexEntry(run[|run| - 1].ik, handle)];
    var blocks' := blocks[handle := run[EndOf(ends)..]];
    forall i | 0 <= i < |ends'| ensures CoveredAt(run, index', blocks', ends', i) {
      if i < |ends| {
        assert CoveredAt(run, index, blocks, ends, i);
      }
    }
  }

  lemma LastBlockNotEmpty(run: seq<Entry>, index: seq<IndexEntry>, blocks: map<nat, seq<Entry>>, ends: seq<nat>)
    requires BlocksCover(run, index, blocks, ends)
    ensures ends != [] ==> 0 < EndOf(ends) <= |run|
  {
    assert ends != [] ==> CoveredAt(run, index, blocks, ends, |ends| - 1);
  }

  lemma GrowRun(added: seq<KV>, kv: KV)
    requires Sorted(ToRun(added)) && (added != [] ==> Less(ToKey(added[|added| - 1].key), ToKey(kv.key)))
    ensures ToRun(added + [kv]) == ToRun(added) + [ToEntry(kv)] && Sorted(ToRun(added) + [ToEntry(kv)])
  {
    var run := ToRun(added);
    forall i | 0 <= i < |run| ensures Less(run[i].ik, ToKey(kv.key)) {
      assert i < |run| - 1 ==> Less(run[i].ik, run[|run| - 1].ik);
    }
  }

  lemma ToIndexSnoc(index: seq<IndexKV>, k: IndexKV)
    ensures ToIndex(index + [k]) == ToIndex(index) + [IndexEntry(ToKey(k.key), k.handle)]
  {
  }

  class TableBuilder {
    var dataBlock: seq<KV>
    var indexBlock: seq<IndexKV>
    var file: map<nat, seq<KV>>        // data blocks by file offset
    var offset: nat
    var lastKey: ByteKey
    var pendingIndexEntry: bool
    var pendingHandle: nat
    var numEntries: nat
    ghost var added: seq<KV>
    ghost var ends: seq<nat>           // where each written block ends among the added entries

    constructor ()
      ensures Ok() && added == [] && dataBlock == []
    {
      dataBlock, indexBlock, file, offset := [], [], map[], 0;
      lastKey, pendingIndexEntry, pendingHandle, numEntries := ByteKey([], 0), false, 0, 0;
      added, ends := [], [];
    }

    ghost function Blocks(): map<nat, seq<Entry>>
      reads this`file
    {
      map h | h in file :: ToRun(file[h])
    }

    /** The index with the entry still owed for the last block, under that block's last key. */
    ghost function FullIndex(): seq<IndexKV>
      reads this`indexBlock, this`pendingIndexEntry, this`lastKey, this`pendingHandle
    {
      indexBlock + (if pendingIndexEntry then [IndexKV(lastKey, pendingHandle)] else [])
    }

    ghost predicate Ok()
      reads this
    {
      && Sorted(ToRun(added)) && numEntries == |added|
      && (added != [] ==> lastKey == added[|added| - 1].key)
      && (pendingIndexEntry ==> dataBlock == [])
      && (forall h :: h in file ==> h < offset)
      && BlocksCover(ToRun(added), ToIndex(FullIndex()), Blocks(), ends)
      && Written() <= |added| && dataBlock == added[Written()..]
      && (pendingIndexEntry <==> ends != [] && dataBlock == [])
    }

    /** How many entries are in written blocks. */
    ghost function Written(): nat
      reads this`ends
    {
      EndOf(ends)
    }

    /** The index entry owed for the last block, shortened towards the next key. */
    method EmitPendingIndexEntry(key: ByteKey, ghost value: Bytes)
      requires Ok() && (added != [] ==> Less(ToKey(added[|added| - 1].key), ToKey(key)))
      modifies this`indexBlock, this`pendingIndexEntry
      ensures !pendingIndexEntry
      ensures BlocksCover(ToRun(added) + [ToEntry(KV(key, value))], ToIndex(indexBlock), Blocks(), ends)
    {
      ghost var run, e := ToRun(added), ToEntry(KV(key, value));
      GrowRun(added, KV(key, value));
      ToIndexSnoc(indexBlock, IndexKV(lastKey, pendingHandle));
      LastBlockNotEmpty(run, ToIndex(FullIndex()), Blocks(), ends);
      assert EndOf(ends) == |run| && ends != [] ==> pendingIndexEntry;
      assert !pendingIndexEntry ==> FullIndex() == indexBlock;
      hide Sorted, BlocksCover;
      GrowCover(run, e, ToIndex(FullIndex()), Blocks(), ends);
      if pendingIndexEntry {
        var sep := InternalSeparator(lastKey, key);
        BetweenSeparates(run + [e], |run|, ToKey(sep));
        hide Separates;
        ReplaceLastSeparator(run + [e], ToIndex(FullIndex()), Blocks(), ends, ToKey(sep));
        ToIndexSnoc(indexBlock, IndexKV(sep, pendingHandle));
        assert WithLastSeparator(ToIndex(FullIndex()), ToKey(sep))
            == ToIndex(indexBlock) + [IndexEntry(ToKey(sep), pendingHandle)];
        indexBlock := indexBlock + [IndexKV(sep, pendingHandle)];
        pendingIndexEntry := false;
      }
    }

    /** `blockFull` is the block-size check; `size` the size the block is stored with. */
    method Add(key: ByteKey, value: Bytes, blockFull: bool, size: nat)
      requires Ok() && (added != [] ==> Less(ToKey(added[|added| - 1].key), ToKey(key)))
      modifies this
      ensures Ok() && added == old(added) + [KV(key, value)]
    {
      GrowRun(added, KV(key, value));
      hide Sorted, BlocksCover, ToRun, ToIndex;
      EmitPendingIndexEntry(key, value);
      lastKey := key;
      numEntries := numEntries + 1;
      dataBlock := dataBlock + [KV(key, value)];
      added := added + [KV(key, value)];
      assert FullIndex() == indexBlock;
      if blockFull {
        Flush(size);
      }
    }

    /** With the open block under the offset where it will be written, everything added is covered. */
    lemma OpenBlockCovered()
      requires Ok() && dataBlock != []
      ensures FullIndex() == indexBlock && added != [] && offset !in file
      ensures BlocksCover(ToRun(added), ToIndex(indexBlock + [IndexKV(lastKey, offset)]),
                          Blocks()[offset := ToRun(dataBlock)], ends + [|added|])
    {
      assert FullIndex() == indexBlock;
      assert ToRun(dataBlock) == ToRun(added)[Written()..];
      assert ToRun(added)[|added| - 1].ik == ToKey(lastKey);
      FlushCover(ToRun(added), ToIndex(indexBlock), Blocks(), ends, offset);
      ToIndexSnoc(indexBlock, IndexKV(lastKey, offset));
    }

    method Flush(size: nat)
      requires Ok()
      modifies this
      ensures Ok() && added == old(added) && dataBlock == []
    {
      if dataBlock == [] {
        return;
      }
      OpenBlockCovered();
      hide Sorted, BlocksCover, ToRun, ToIndex;
      pendingHandle := offset;
      file := file[offset := dataBlock];
      assert Blocks() == old(Blocks())[offset := ToRun(dataBlock)];
      ends := ends + [|added|];
      offset := offset + size + BLOCK_TRAILER_SIZE;
      pendingIndexEntry := true;
      dataBlock := [];
    }

    /** Writes what is left and completes the index. */
    method Finish(size: nat)
      requires Ok()
      modifies this
      ensures added == old(added) && BlocksCover(ToRun(added), ToIndex(indexBlock), Blocks(), ends)
      ensures Sorted(ToRun(added)) && Written() == |added|
    {
      Flush(size);
      CompleteIndex();
    }

    /** Adds the index entry still owed, under a short successor of the last key. */
    method CompleteIndex()
      requires Ok() && dataBlock == []
      modifies this`indexBlock, this`pendingIndexEntry
      ensures BlocksCover(ToRun(added), ToIndex(indexBlock), Blocks(), ends)
    {
      assert FullIndex() == if pendingIndexEntry then indexBlock + [IndexKV(lastKey, pendingHandle)] else indexBlock;
      if pendingIndexEntry {
        LastBlockNotEmpty(ToRun(added), ToIndex(FullIndex()), Blocks(), ends);
        ToIndexSnoc(indexBlock, IndexKV(lastKey, pendingHandle));
        var sep := InternalSuccessor(lastKey);
        BetweenSeparates(ToRun(added), |added|, ToKey(sep));
        ReplaceLastSeparator(ToRun(added), ToIndex(FullIndex()), Blocks(), ends, ToKey(sep));
        ToIndexSnoc(indexBlock, IndexKV(sep, pendingHandle));
        indexBlock := indexBlock + [IndexKV(sep, pendingHandle)];
        pendingIndexEntry := false;
      }
    }
  }

  // ----- what a finished table guarantees -----

  lemma CoverKnowsHandles(run: seq<Entry>, index: seq<IndexEntry>, blocks: map<nat, seq<Entry>>, ends: seq<nat>)
    requires BlocksCover(run, index, blocks, ends)
    ensures HandlesKnown(index, blocks)
  {
    forall i | 0 <= i < |index| ensures index[i].handle in blocks {
      assert CoveredAt(run, index, blocks, ends, i);
    }
  }

  /** Concatenating the blocks in index order gives the entries back. */
  lemma {:induction false} CoverConcat(run: seq<Entry>, index: seq<IndexEntry>, blocks: map<nat, seq<Entry>>,
                                       ends: seq<nat>, n: nat)
    requires HandlesKnown(index, blocks) && BlocksCover(run, index, blocks, ends) && n <= |index|
    ensures StartOf(ends, n) <= |run| && Concat(index, blocks, n) == run[..StartOf(ends, n)]
  {
    if n > 0 {
      CoverConcat(run, index, blocks, ends, n - 1);
      assert CoveredAt(run, index, blocks, ends, n - 1);
      assert run[..StartOf(ends, n - 1)] + run[StartOf(ends, n - 1)..ends[n - 1]] == run[..ends[n - 1]];
    }
  }

  lemma BlockMember(run: seq<Entry>, entry: IndexEntry, blocks: map<nat, seq<Entry>>, start: nat, end: nat, e: Entry)
    returns (q: nat)
    requires CoversBlock(run, entry, blocks, start, end) && e in blocks[entry.handle]
    ensures start <= q < end && run[q] == e
  {
    var j :| 0 <= j < |blocks[entry.handle]| && blocks[entry.handle][j] == e;
    q := start + j;
  }

  /** A finished table is a run of separated blocks that replays what was added. */
  lemma FinishedTableReplays(run: seq<Entry>, index: seq<IndexEntry>, blocks: map<nat, seq<Entry>>, ends: seq<nat>)
    requires Sorted(run) && BlocksCover(run, index, blocks, ends) && EndOf(ends) == |run|
    ensures HandlesKnown(index, blocks) && Run(index, blocks) == run && Separated(index, blocks)
  {
    CoverKnowsHandles(run, index, blocks, ends);
    CoverConcat(run, index, blocks, ends, |index|);
    assert run[..|run|] == run;
    forall i, e | 0 <= i < |index| && e in blocks[index[i].handle] ensures LessEq(e.ik, index[i].separator) {
      assert CoveredAt(run, index, blocks, ends, i);
      var q := BlockMember(run, index[i], blocks, StartOf(ends, i), ends[i], e);
    }
    forall i, j, e | 0 <= i < j < |index| && e in blocks[index[j].handle] ensures Less(index[i].separator, e.ik) {
      assert CoveredAt(run, index, blocks, ends, i);
      assert CoveredAt(run, index, blocks, ends, j);
      var q := BlockMember(run, index[j], blocks, StartOf(ends, j), ends[j], e);
      EndsOrdered(run, index, blocks, ends, i, j - 1);
    }
  }

  function FromOneBlock(index: seq<IndexEntry>, blocks: map<nat, seq<Entry>>, k: InternalKey): Option<Entry>
    requires HandlesKnown(index, blocks)
  {
    var i := SeekIndex(index, k);
    if i == |index| then None
    else
      var block := blocks[index[i].handle];
      var p := SeekIn(block, k);
      if p < |block| then Some(block[p]) else None
  }

  /** When the block the index picks has nothing at or after the key, the next entry is under another user key. */
  lemma ShortenedSeparatorMiss(run: seq<Entry>, entry: IndexEntry, blocks: map<nat, seq<Entry>>, start: nat, end: nat,
                               k: InternalKey)
    requires CoversBlock(run, entry, blocks, start, end) && LessEq(k, entry.separator)
    requires SeekIn(blocks[entry.handle], k) == |blocks[entry.handle]|
    ensures end < |run| ==> run[end].ik.user != k.user
  {
    hide Sorted, SeekIn;
    var block := blocks[entry.handle];
    assert |block| == end - start && block[end - 1 - start] == run[start..end][end - 1 - start] == run[end - 1];
    assert Less(run[end - 1].ik, k);
    assert entry.separator != run[end - 1].ik;
  }

  /** The whole table's seek lands where the seek in the block that the index picks does. */
  lemma SeekOpensBlock(run: seq<Entry>, index: seq<IndexEntry>, blocks: map<nat, seq<Entry>>, ends: seq<nat>,
                       k: InternalKey)
    requires Sorted(run) && BlocksCover(run, index, blocks, ends) && EndOf(ends) == |run| && HandlesKnown(index, blocks)
    ensures
      var i := SeekIndex(index, k);
      if i == |index| then SeekIn(run, k) == |run|
      else
        && i < |ends| && CoversBlock(run, index[i], blocks, StartOf(ends, i), ends[i])
        && SeekIn(run, k) == StartOf(ends, i) + SeekIn(blocks[index[i].handle], k)
  {
    FinishedTableReplays(run, index, blocks, ends);
    SeekLands(index, blocks, k);
    var i := SeekIndex(index, k);
    if i < |index| {
      assert CoveredAt(run, index, blocks, ends, i);
      CoverConcat(run, index, blocks, ends, i);
    }
  }

  /**
   What one block delivers is the first entry at or after the key in the whole
   table, and it does deliver that entry whenever the entry has the key's user key.
   */
  lemma OneBlockIsEnough(run: seq<Entry>, index: seq<IndexEntry>, blocks: map<nat, seq<Entry>>, ends: seq<nat>,
                         k: InternalKey)
    requires Sorted(run) && BlocksCover(run, index, blocks, ends) && EndOf(ends) == |run| && HandlesKnown(index, blocks)
    ensures Delivers(run, k, FromOneBlock(index, blocks, k))
  {
    hide Sorted, BlocksCover, Separates, HandlesKnown;
    SeekOpensBlock(run, index, blocks, ends, k);
    var i := SeekIndex(index, k);
    if i < |index| && SeekIn(blocks[index[i].handle], k) == |blocks[index[i].handle]| {
      ShortenedSeparatorMiss(run, index[i], blocks, StartOf(ends, i), ends[i], k);
    }
  }

  /**
   Exactly when nothing is delivered: the table has no entry at or after the key,
   or that entry starts a block and the key is not past the separator before it.
   */
  lemma NothingDeliveredIff(run: seq<Entry>, index: seq<IndexEntry>, blocks: map<nat, seq<Entry>>, ends: seq<nat>,
                            k: InternalKey)
    requires Sorted(run) && BlocksCover(run, index, blocks, ends) && EndOf(ends) == |run| && HandlesKnown(index, blocks)
    ensures FromOneBlock(index, blocks, k).None? <==>
      || SeekIn(run, k) == |run|
      || exists i :: 0 <= i < |ends| && ends[i] == SeekIn(run, k) && LessEq(k, index[i].separator)
  {
    hide Sorted, Separates, HandlesKnown;
    SeekOpensBlock(run, index, blocks, ends, k);
    var j := SeekIndex(index, k);
    forall i | 0 <= i < |ends| && LessEq(k, index[i].separator) ensures j <= i && ends[j] <= ends[i] {
      EndsOrdered(run, index, blocks, ends, j, i);
    }
    if i :| 0 <= i < |ends| && ends[i] == SeekIn(run, k) && LessEq(k, index[i].separator) {
      EndsOrdered(run, index, blocks, ends, j, i);
    }
  }

  /**
   Table::InternalGet on a finished table: one index seek, then at most one
   block seek.  What comes back is the table's first entry at or after the key,
   and that entry does come back whenever it has the key's user key.
   */
  method InternalGet(ghost run: seq<Entry>, index: seq<IndexEntry>, blocks: map<nat, seq<Entry>>, ghost ends: seq<nat>,
                     k: InternalKey)
    returns (r: Option<Entry>)
    requires Sorted(run) && BlocksCover(run, index, blocks, ends) && EndOf(ends) == |run| && HandlesKnown(index, blocks)
    ensures Delivers(run, k, r)
  {
    OneBlockIsEnough(run, index, blocks, ends, k);
    hide Sorted, BlocksCover;
    var i := SeekIndex(index, k);
    if i < |index| {
      var block := blocks[index[i].handle];
      var p := SeekIn(block, k);
      if p < |block| {
        return Some(block[p]);
      }
    }
    return None;
  }

  // ----- the tables behind a version's files -----

  /** A file's index and data blocks, and where each block ends among its entries. */
  datatype Table = Table(index: seq<IndexEntry>, blocks: map<nat, seq<Entry>>, ends: seq<nat>)

  /** The table is laid out as TableBuilder.Finish leaves it, for the file's entries. */
  ghost predicate TableOf(t: Table, f: File) {
    && Sorted(f.entries) && HandlesKnown(t.index, t.blocks)
    && BlocksCover(f.entries, t.index, t.blocks, t.ends) && EndOf(t.ends) == |f.entries|
  }

  /** What the lookups of a version get from its tables; a file without one is read whole. */
  ghost function FromTables(tables: map<File, Table>): TableGet
    requires forall f :: f in tables ==> TableOf(tables[f], f)
  {
    var get := (f: File, key: InternalKey) =>
      if f in tables then
        assert TableOf(tables[f], f);
        FromOneBlock(tables[f].index, tables[f].blocks, key)
      else
        var i := SeekIn(f.entries, key);
        if i < |f.entries| then Some(f.entries[i]) else None;
    assert forall f: File, key :: Delivers(f.entries, key, get(f, key)) by {
      forall f: File, key ensures Delivers(f.entries, key, get(f, key)) {
        if f in tables {
          assert TableOf(tables[f], f);
          OneBlockIsEnough(f.entries, tables[f].index, tables[f].blocks, tables[f].ends, key);
        }
      }
    }
    get
  }

  /** With the two entries of Levels.LookupGoesAstray in one block, the lookup is corrupt. */
  lemma OneBlockGoesAstray()
    ensures
      var a, b := Entry(InternalKey(0.0, 5, TYPE_VALUE), [1]), Entry(InternalKey(1.0, 7, 2), []);
      var f := File(1, 1, a.ik, b.ik, [a, b]);
      var v: Version := [[], [f], [], [], [], [], []];
      var t := Table([IndexEntry(b.ik, 0)], map[0 := [a, b]], [2]);
      TableOf(t, f) && Diverted(FromTables(map[f := t]), v, 0.0, 3)
  {
    hide TableOf, Diverted, FromOneBlock, VersionOk;
    var a, b := Entry(InternalKey(0.0, 5, TYPE_VALUE), [1]), Entry(InternalKey(1.0, 7, 2), []);
    var f := File(1, 1, a.ik, b.ik, [a, b]);
    var t := Table([IndexEntry(b.ik, 0)], map[0 := [a, b]], [2]);
    OneBlockTable(a, b, f, t);
    LookupGoesAstray(FromTables(map[f := t]));
  }

  /** With a block that ends between them under a shortened separator, it is not. */
  lemma BlockEndShields()
    ensures
      var a, b := Entry(InternalKey(0.0, 5, TYPE_VALUE), [1]), Entry(InternalKey(1.0, 7, 2), []);
      var f := File(1, 1, a.ik, b.ik, [a, b]);
      var v: Version := [[], [f], [], [], [], [], []];
      var sep := InternalKey(0.5, MAX_SEQUENCE, TYPE_VALUE);
      var t := Table([IndexEntry(sep, 0), IndexEntry(b.ik, 1)], map[0 := [a], 1 := [b]], [1, 2]);
      TableOf(t, f) && !Diverted(FromTables(map[f := t]), v, 0.0, 3)
  {
    hide TableOf, Diverted, FromOneBlock, VersionOk;
    var a, b := Entry(InternalKey(0.0, 5, TYPE_VALUE), [1]), Entry(InternalKey(1.0, 7, 2), []);
    var f := File(1, 1, a.ik, b.ik, [a, b]);
    var sep := InternalKey(0.5, MAX_SEQUENCE, TYPE_VALUE);
    var t := Table([IndexEntry(sep, 0), IndexEntry(b.ik, 1)], map[0 := [a], 1 := [b]], [1, 2]);
    TwoBlockTable(a, b, sep, f, t);
    LookupGoesAstray(FromTables(map[f := t]));
  }

  lemma OneBlockTable(a: Entry, b: Entry, f: File, one: Table)
    requires Less(a.ik, b.ik) && f.entries == [a, b]
    requires one == Table([IndexEntry(b.ik, 0)], map[0 := [a, b]], [2])
    ensures TableOf(one, f)
    ensures forall key :: Less(a.ik, key) && LessEq(key, b.ik) ==> FromOneBlock(one.index, one.blocks, key) == Some(b)
  {
    assert [a, b][0..2] == [a, b] && [a, b][1..] == [b];
    assert CoveredAt([a, b], one.index, one.blocks, [2], 0);
  }

  lemma TwoBlockTable(a: Entry, b: Entry, sep: InternalKey, f: File, two: Table)
    requires Less(a.ik, b.ik) && f.entries == [a, b] && a.ik.user < sep.user < b.ik.user
    requires two == Table([IndexEntry(sep, 0), IndexEntry(b.ik, 1)], map[0 := [a], 1 := [b]], [1, 2])
    ensures TableOf(two, f)
    ensures forall key :: Less(a.ik, key) && LessEq(key, sep) ==> FromOneBlock(two.index, two.blocks, key) == None
  {
    var run := [a, b];
    assert run[0..1] == [a] && run[1..2] == [b];
    LastKeySeparates(run, 2);
    BetweenSeparates(run, 1, sep);
    hide Separates;
    assert CoveredAt(run, two.index, two.blocks, [1, 2], 0);
    assert CoveredAt(run, two.index, two.blocks, [1, 2], 1);
    forall key | Less(a.ik, key) && LessEq(key, sep) ensures FromOneBlock(two.index, two.blocks, key) == None {
      assert SeekIndex(two.index, key) == 0;
      assert SeekIn([a], key) == 1;
    }
  }
}
