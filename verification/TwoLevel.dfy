/**
 The two-level iterator of table/two_level_iterator.cc: an index of blocks walked
 as one run, empty blocks skipped in both directions.
 */
module TwoLevel {
  import opened Keys
  import opened Levels
  import opened Merger

  datatype IndexEntry = IndexEntry(separator: InternalKey, handle: nat)

  function SeekIndex(index: seq<IndexEntry>, target: InternalKey): (i: nat)
    ensures i <= |index|
    ensures forall j :: 0 <= j < i ==> Less(index[j].separator, target)
    ensures i < |index| ==> LessEq(target, index[i].separator)
  {
    if index == [] then 0
    else if Less(index[0].separator, target) then 1 + SeekIndex(index[1..], target)
    else 0
  }

  ghost predicate HandlesKnown(index: seq<IndexEntry>, blocks: map<nat, seq<Entry>>) {
    forall i :: 0 <= i < |index| ==> index[i].handle in blocks
  }

  /** The entries of the first `n` blocks, one after another. */
  ghost function Concat(index: seq<IndexEntry>, blocks: map<nat, seq<Entry>>, n: nat): seq<Entry>
    requires HandlesKnown(index, blocks) && n <= |index|
  {
    if n == 0 then [] else Concat(index, blocks, n - 1) + blocks[index[n - 1].handle]
  }

  ghost function Run(index: seq<IndexEntry>, blocks: map<nat, seq<Entry>>): seq<Entry>
    requires HandlesKnown(index, blocks)
  {
    Concat(index, blocks, |index|)
  }

  ghost function Offset(index: seq<IndexEntry>, blocks: map<nat, seq<Entry>>, n: nat): nat
    requires HandlesKnown(index, blocks) && n <= |index|
  {
    |Concat(index, blocks, n)|
  }

  lemma {:induction false} ConcatPrefix(index: seq<IndexEntry>, blocks: map<nat, seq<Entry>>, i: nat, n: nat)
    requires HandlesKnown(index, blocks) && i <= n <= |index|
    ensures Concat(index, blocks, i) <= Concat(index, blocks, n)
  {
    if i < n {
      ConcatPrefix(index, blocks, i, n - 1);
    }
  }

  lemma BlockAt(index: seq<IndexEntry>, blocks: map<nat, seq<Entry>>, i: nat, n: nat)
    requires HandlesKnown(index, blocks) && i < n <= |index|
    ensures Offset(index, blocks, i) + |blocks[index[i].handle]| ==
      Offset(index, blocks, i + 1) <= Offset(index, blocks, n)
    ensures forall j :: 0 <= j < |blocks[index[i].handle]| ==>
      Concat(index, blocks, n)[Offset(index, blocks, i) + j] == blocks[index[i].handle][j]
  {
    ConcatPrefix(index, blocks, i + 1, n);
    assert Concat(index, blocks, i + 1) == Concat(index, blocks, i) + blocks[index[i].handle];
    hide Concat;
    InPrefix(Concat(index, blocks, i), blocks[index[i].handle], Concat(index, blocks, n));
  }

  lemma InPrefix(a: seq<Entry>, b: seq<Entry>, s: seq<Entry>)
    requires a + b <= s
    ensures forall j :: 0 <= j < |b| ==> s[|a| + j] == b[j]
  {
    forall j | 0 <= j < |b| ensures s[|a| + j] == b[j] {
      assert (a + b)[|a| + j] == b[j];
    }
  }

  /** Separators stand between their block and everything after it. */
  ghost predicate Separated(index: seq<IndexEntry>, blocks: map<nat, seq<Entry>>)
    requires HandlesKnown(index, blocks)
  {
    && Sorted(Run(index, blocks))
    && (forall i, e | 0 <= i < |index| && e in blocks[index[i].handle] :: LessEq(e.ik, index[i].separator))
    && (forall i, j, e | 0 <= i < j < |index| && e in blocks[index[j].handle] :: Less(index[i].separator, e.ik))
  }

  class TwoLevelIterator {
    const index: seq<IndexEntry>
    const blocks: map<nat, seq<Entry>>
    var indexPos: nat
    var data: Option<Child>
    var dataHandle: nat

    constructor (index: seq<IndexEntry>, blocks: map<nat, seq<Entry>>)
      requires HandlesKnown(index, blocks)
      ensures this.index == index && this.blocks == blocks && Ok() && !Valid()
    {
      this.index, this.blocks := index, blocks;
      indexPos := |index|;
      data := None;
      dataHandle := 0;
    }

    predicate Valid()
      reads this
    {
      data.Some? && data.value.Valid()
    }

    ghost predicate Loaded()
      reads this
    {
      && HandlesKnown(index, blocks) && indexPos <= |index|
      && (data.Some? ==> dataHandle in blocks && data.value.entries == blocks[dataHandle])
      && (data.Some? ==> indexPos < |index| && dataHandle == index[indexPos].handle)
    }

    ghost predicate Ok()
      reads this
    {
      Loaded() && (data.Some? ==> Valid())
    }

    /** Position in the run; one past its end when invalid. */
    ghost function Pos(): nat
      requires Ok()
      reads this
    {
      if Valid() then Offset(index, blocks, indexPos) + data.value.pos else |Run(index, blocks)|
    }

    method Entry() returns (e: Entry)
      requires Ok() && Valid()
      ensures Pos() < |Run(index, blocks)| && e == Run(index, blocks)[Pos()]
    {
      hide Concat;
      e := data.value.entries[data.value.pos];
      BlockAt(index, blocks, indexPos, |index|);
    }

    /** Loads the block under the index iterator, keeping a block already loaded. */
    method InitDataBlock()
      requires HandlesKnown(index, blocks) && indexPos <= |index|
      requires data.Some? ==> dataHandle in blocks && data.value.entries == blocks[dataHandle]
      modifies this`data, this`dataHandle
      ensures Loaded() && (data.Some? <==> indexPos < |index|)
    {
      if indexPos >= |index| {
        data := None;
      } else {
        var handle := index[indexPos].handle;
        if data.Some? && handle == dataHandle {
        } else {
          data := Some(Child(blocks[handle], |blocks[handle]|));
          dataHandle := handle;
        }
      }
    }

    /** How many entries lie before the place forward skipping starts from. */
    ghost function ForwardFrom(): nat
      requires Loaded()
      reads this
    {
      if data.None? then (if indexPos < |index| then Offset(index, blocks, indexPos + 1) else |Run(index, blocks)|)
      else Offset(index, blocks, indexPos) + (if Valid() then data.value.pos else |data.value.entries|)
    }

    method SkipEmptyDataBlocksForward()
      requires Loaded() && (data.Some? <==> indexPos < |index|)
      modifies this
      ensures Ok() && Pos() == old(ForwardFrom())
    {
      ghost var from := ForwardFrom();
      while data.None? || !data.value.Valid()
        invariant Loaded() && (data.Some? <==> indexPos < |index|) && ForwardFrom() == from
        decreases |index| - indexPos, data.Some?
      {
        if indexPos >= |index| {
          data := None;
          return;
        }
        indexPos := indexPos + 1;
        InitDataBlock();
        if data.Some? {
          data := Some(data.value.SeekToFirst());
        }
      }
    }

    /** How many entries lie before the place backward skipping starts from. */
    ghost function BackwardFrom(): nat
      requires Loaded()
      reads this
    {
      if data.None? then 0
      else Offset(index, blocks, indexPos) + (if Valid() then data.value.pos + 1 else 0)
    }

    method SkipEmptyDataBlocksBackward()
      requires Loaded() && (data.Some? <==> indexPos < |index|)
      modifies this
      ensures Ok()
      ensures Pos() == if old(BackwardFrom()) == 0 then |Run(index, blocks)| else old(BackwardFrom()) - 1
    {
      ghost var from := BackwardFrom();
      while data.None? || !data.value.Valid()
        invariant Loaded() && (data.Some? <==> indexPos < |index|) && BackwardFrom() == from
        decreases if data.Some? then indexPos + 1 else 0
      {
        if indexPos >= |index| {
          data := None;
          return;
        }
        indexPos := if indexPos == 0 then |index| else indexPos - 1;
        InitDataBlock();
        if data.Some? {
          data := Some(data.value.SeekToLast());
        }
      }
    }

    method SeekToFirst()
      requires Ok()
      modifies this
      ensures Ok() && Pos() == 0
    {
      indexPos := 0;
      InitDataBlock();
      if data.Some? {
        data := Some(data.value.SeekToFirst());
      }
      SkipEmptyDataBlocksForward();
    }

    method SeekToLast()
      requires Ok()
      modifies this
      ensures Ok() && Pos() == if Run(index, blocks) == [] then 0 else |Run(index, blocks)| - 1
    {
      indexPos := if index == [] then 0 else |index| - 1;
      InitDataBlock();
      if data.Some? {
        data := Some(data.value.SeekToLast());
      }
      SkipEmptyDataBlocksBackward();
    }

    method Next()
      requires Ok() && Valid()
      modifies this
      ensures Ok() && Pos() == old(Pos()) + 1
    {
      data := Some(data.value.Next());
      SkipEmptyDataBlocksForward();
    }

    method Prev()
      requires Ok() && Valid()
      modifies this
      ensures Ok() && Pos() == if old(Pos()) == 0 then |Run(index, blocks)| else old(Pos()) - 1
    {
      data := Some(data.value.Prev());
      SkipEmptyDataBlocksBackward();
    }

    /** One index seek and one block seek land where a seek over the whole run would. */
    method Seek(target: InternalKey)
      requires Ok() && Separated(index, blocks)
      modifies this
      ensures Ok() && Pos() == SeekIn(Run(index, blocks), target)
    {
      indexPos := SeekIndex(index, target);
      InitDataBlock();
      if data.Some? {
        data := Some(data.value.Seek(target));
      }
      SeekLands(index, blocks, target);
      SkipEmptyDataBlocksForward();
    }
  }

  lemma {:induction false} BlockOfPosition(index: seq<IndexEntry>, blocks: map<nat, seq<Entry>>, p: nat, n: nat)
    returns (i: nat)
    requires HandlesKnown(index, blocks) && n <= |index| && p < Offset(index, blocks, n)
    ensures i < n && Offset(index, blocks, i) <= p < Offset(index, blocks, i + 1)
    ensures Concat(index, blocks, n)[p] in blocks[index[i].handle]
  {
    if p >= Offset(index, blocks, n - 1) {
      i := n - 1;
    } else {
      i := BlockOfPosition(index, blocks, p, n - 1);
    }
  }

  /** A position of a sorted run that splits it at a key is where a seek for the key goes. */
  lemma SplitIsSeek(run: seq<Entry>, target: InternalKey, p: nat)
    requires Sorted(run) && p <= |run|
    requires forall q :: 0 <= q < p ==> Less(run[q].ik, target)
    requires p < |run| ==> LessEq(target, run[p].ik)
    ensures p == SeekIn(run, target)
  {
    var s := SeekIn(run, target);
    assert !(s < p) && !(p < s);
  }

  /** Where seeking the index and then its block arrives, counted in the whole run. */
  ghost function Landing(index: seq<IndexEntry>, blocks: map<nat, seq<Entry>>, target: InternalKey): nat
    requires HandlesKnown(index, blocks)
  {
    var b := SeekIndex(index, target);
    if b < |index| then Offset(index, blocks, b) + SeekIn(blocks[index[b].handle], target) else |Run(index, blocks)|
  }

  lemma BeforeLanding(index: seq<IndexEntry>, blocks: map<nat, seq<Entry>>, target: InternalKey)
    requires HandlesKnown(index, blocks) && Separated(index, blocks)
    ensures Landing(index, blocks, target) <= |Run(index, blocks)|
    ensures forall q :: 0 <= q < Landing(index, blocks, target) ==> Less(Run(index, blocks)[q].ik, target)
  {
    hide Separated, Run, Concat, Offset;
    var b := SeekIndex(index, target);
    if b < |index| {
      BlockWithin(index, blocks, b);
    }
    forall q | 0 <= q < Landing(index, blocks, target) ensures Less(Run(index, blocks)[q].ik, target) {
      var i := PositionWithin(index, blocks, q);
      if i < b {
        UpToSeparator(index, blocks, i, Run(index, blocks)[q]);
      } else {
        OffsetsGrow(index, blocks, b, i);
        EntryOfBlock(index, blocks, b, q - Offset(index, blocks, b));
      }
    }
  }

  lemma BlockWithin(index: seq<IndexEntry>, blocks: map<nat, seq<Entry>>, b: nat)
    requires HandlesKnown(index, blocks) && b < |index|
    ensures Offset(index, blocks, b) + |blocks[index[b].handle]| <= |Run(index, blocks)|
  {
    BlockAt(index, blocks, b, |index|);
  }

  lemma PositionWithin(index: seq<IndexEntry>, blocks: map<nat, seq<Entry>>, q: nat) returns (i: nat)
    requires HandlesKnown(index, blocks) && q < |Run(index, blocks)|
    ensures i < |index| && Offset(index, blocks, i) <= q && Run(index, blocks)[q] in blocks[index[i].handle]
  {
    i := BlockOfPosition(index, blocks, q, |index|);
  }

  lemma UpToSeparator(index: seq<IndexEntry>, blocks: map<nat, seq<Entry>>, i: nat, e: Entry)
    requires HandlesKnown(index, blocks) && Separated(index, blocks) && i < |index| && e in blocks[index[i].handle]
    ensures LessEq(e.ik, index[i].separator)
  {
  }

  lemma AfterLanding(index: seq<IndexEntry>, blocks: map<nat, seq<Entry>>, target: InternalKey)
    requires HandlesKnown(index, blocks) && Separated(index, blocks)
    ensures var p := Landing(index, blocks, target);
      p < |Run(index, blocks)| ==> LessEq(target, Run(index, blocks)[p].ik)
  {
    hide Separated, Run, Concat, Offset;
    var run, b, p := Run(index, blocks), SeekIndex(index, target), Landing(index, blocks, target);
    if p < |run| {
      var block := blocks[index[b].handle];
      if SeekIn(block, target) < |block| {
        EntryOfBlock(index, blocks, b, SeekIn(block, target));
      } else {
        PastBlock(index, blocks, b, p);
      }
    }
  }

  lemma EntryOfBlock(index: seq<IndexEntry>, blocks: map<nat, seq<Entry>>, i: nat, j: nat)
    requires HandlesKnown(index, blocks) && i < |index| && j < |blocks[index[i].handle]|
    ensures Offset(index, blocks, i) + j < |Run(index, blocks)|
    ensures Run(index, blocks)[Offset(index, blocks, i) + j] == blocks[index[i].handle][j]
  {
    BlockAt(index, blocks, i, |index|);
  }

  /** The entry just past a block comes from a later one. */
  lemma PastBlock(index: seq<IndexEntry>, blocks: map<nat, seq<Entry>>, b: nat, p: nat)
    requires HandlesKnown(index, blocks) && Separated(index, blocks) && b < |index| && p < |Run(index, blocks)|
    requires p == Offset(index, blocks, b) + |blocks[index[b].handle]|
    ensures Less(index[b].separator, Run(index, blocks)[p].ik)
  {
    hide Separated;
    BlockAt(index, blocks, b, |index|);
    var i := BlockOfPosition(index, blocks, p, |index|);
    NotBefore(index, blocks, b, i, p);
    LaterBlockIsAfter(index, blocks, b, i, Run(index, blocks)[p]);
  }

  lemma LaterBlockIsAfter(index: seq<IndexEntry>, blocks: map<nat, seq<Entry>>, b: nat, i: nat, e: Entry)
    requires HandlesKnown(index, blocks) && Separated(index, blocks) && b < i < |index| && e in blocks[index[i].handle]
    ensures Less(index[b].separator, e.ik)
  {
  }

  /** A position at or past the start of a block is not in an earlier block. */
  lemma NotBefore(index: seq<IndexEntry>, blocks: map<nat, seq<Entry>>, b: nat, i: nat, p: nat)
    requires HandlesKnown(index, blocks) && b < |index| && i < |index|
    requires Offset(index, blocks, b) <= p < Offset(index, blocks, i + 1)
    ensures b <= i
  {
    if i < b {
      OffsetsGrow(index, blocks, i + 1, b);
    }
  }

  lemma SeekLands(index: seq<IndexEntry>, blocks: map<nat, seq<Entry>>, target: InternalKey)
    requires HandlesKnown(index, blocks) && Separated(index, blocks)
    ensures var b := SeekIndex(index, target);
      SeekIn(Run(index, blocks), target)
        == if b < |index| then Offset(index, blocks, b) + SeekIn(blocks[index[b].handle], target)
           else |Run(index, blocks)|
  {
    assert Sorted(Run(index, blocks));
    hide Run, Separated, Sorted, Less, LessEq;
    var run, b := Run(index, blocks), SeekIndex(index, target);
    BeforeLanding(index, blocks, target);
    AfterLanding(index, blocks, target);
    SplitIsSeek(run, target, Landing(index, blocks, target));
  }

  lemma {:induction false} OffsetsGrow(index: seq<IndexEntry>, blocks: map<nat, seq<Entry>>, i: nat, j: nat)
    requires HandlesKnown(index, blocks) && i <= j <= |index|
    ensures Offset(index, blocks, i) <= Offset(index, blocks, j)
  {
    if i < j {
      OffsetsGrow(index, blocks, i, j - 1);
    }
  }
}
