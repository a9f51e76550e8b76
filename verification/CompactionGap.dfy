/**
 The input selection adds boundary files at the compacted level only.  When two
 versions of one key are split over two parent files, it can take the tombstone
 and leave the value under it behind.  A run of the store that gets there: a
 compaction under a live snapshot cuts its outputs between two versions of key
 1; once the snapshot is released, the next compaction takes the first of the
 two files and drops the tombstone in it.
 */
module CompactionGap {
  import opened Keys
  import opened Levels
  import opened InputSelection
  import opened CompactionRules
  import opened CompactionWork
  import opened VersionBuilder
  import opened Installation
  import opened Database
  import opened SnapshotReads

  const V1 := Entry(InternalKey(1.0, 1, TYPE_VALUE), [3])
  const B2 := Entry(InternalKey(0.0, 2, TYPE_VALUE), [2])
  const D3 := Entry(InternalKey(1.0, 3, TYPE_DELETION), [])
  const A4 := Entry(InternalKey(0.0, 4, TYPE_VALUE), [1])

  const FLUSHED := File(10, 1, B2.ik, V1.ik, [B2, D3, V1])
  const UPPER := File(11, 1, B2.ik, D3.ik, [B2, D3])      // cut between two versions of key 1
  const LOWER := File(12, 1, V1.ik, V1.ik, [V1])
  const CHILD := File(13, 1, A4.ik, A4.ik, [A4])
  const OUTPUT := File(14, 1, A4.ik, A4.ik, [A4])

  function Two(second: seq<File>, third: seq<File>): Version {
    [[], [], second, third, [], [], []]
  }

  const START := State([], None, Two([], []), 10, 0, [], {}, 0)
  const PUT := START.(mem := [V1], lastSequence := 1, history := {V1})
  const SNAP := PUT.(snapshots := [1])
  const DELETED := SNAP.(mem := [B2, D3, V1], lastSequence := 3, history := {V1, B2, D3})
  const SWITCHED := DELETED.(imm := Some(DELETED.mem), mem := [])
  const STORED := SWITCHED.(imm := None, version := Two([FLUSHED], []), nextFile := 11)
  const CUT := STORED.(version := Two([], [UPPER, LOWER]), nextFile := 13, horizon := 1)
  const RELEASED := CUT.(snapshots := [])
  const UPDATED := RELEASED.(mem := [A4], lastSequence := 4, history := {V1, B2, D3, A4})
  const AGAIN := UPDATED.(imm := Some(UPDATED.mem), mem := [])
  const ABOVE := AGAIN.(imm := None, version := Two([CHILD], [UPPER, LOWER]), nextFile := 14)
  const GONE := ABOVE.(version := Two([], [OUTPUT, LOWER]), nextFile := 15, horizon := 4)

  const STATES := [START, PUT, SNAP, DELETED, SWITCHED, STORED, CUT, RELEASED, UPDATED, AGAIN, ABOVE, GONE]

  const FIRST_MERGE := [B2, D3, V1]
  const SECOND_MERGE := [A4, B2, D3]

  const ACTIONS := [
    Write([WriteOp(1.0, TYPE_VALUE, [3])]), TakeSnapshot,
    Write([WriteOp(0.0, TYPE_VALUE, [2]), WriteOp(1.0, TYPE_DELETION, [])]), SwitchMemTable, Flush(2, FLUSHED),
    Compact(2, [FLUSHED], [], FIRST_MERGE, [UPPER, LOWER]), ReleaseSnapshot(0),
    Write([WriteOp(0.0, TYPE_VALUE, [1])]), SwitchMemTable, Flush(2, CHILD),
    Compact(2, [CHILD], [UPPER], SECOND_MERGE, [OUTPUT])
  ]

  // ----- writes -----

  lemma NumberedOne(op: WriteOp, first: nat)
    ensures Numbered([op], first) == {Entry(InternalKey(op.key, first, op.kind), op.value)}
  {
    assert [op][0] == op;
  }

  lemma NumberedTwo(a: WriteOp, b: WriteOp, first: nat)
    ensures Numbered([a, b], first)
         == {Entry(InternalKey(a.key, first, a.kind), a.value), Entry(InternalKey(b.key, first + 1, b.kind), b.value)}
  {
    var batch := [a, b];
    assert batch[0] == a && batch[1] == b;
    var one := Entry(InternalKey(a.key, first, a.kind), a.value);
    var two := Entry(InternalKey(b.key, first + 1, b.kind), b.value);
    forall e ensures e in Numbered(batch, first) <==> e == one || e == two {
      assert e == one ==> e == Entry(InternalKey(batch[0].key, first + 0, batch[0].kind), batch[0].value);
      assert e == two ==> e == Entry(InternalKey(batch[1].key, first + 1, batch[1].kind), batch[1].value);
    }
  }

  lemma FirstWrite()
    ensures Next(START, ACTIONS[0], PUT)
  {
    NumberedOne(WriteOp(1.0, TYPE_VALUE, [3]), 1);
    assert Elements([V1]) == {V1} && Elements([]) == {};
  }

  lemma SecondWrite()
    ensures Next(SNAP, ACTIONS[2], DELETED)
  {
    NumberedTwo(WriteOp(0.0, TYPE_VALUE, [2]), WriteOp(1.0, TYPE_DELETION, []), 2);
    assert Elements([V1]) == {V1} && Elements([B2, D3, V1]) == {B2, D3, V1};
  }

  lemma ThirdWrite()
    ensures Next(RELEASED, ACTIONS[7], UPDATED)
  {
    NumberedOne(WriteOp(0.0, TYPE_VALUE, [1]), 4);
    assert Elements([]) == {} && Elements([A4]) == {A4};
  }

  lemma MemTableSteps()
    ensures Next(PUT, ACTIONS[1], SNAP) && Next(DELETED, ACTIONS[3], SWITCHED) && Next(CUT, ACTIONS[6], RELEASED)
    ensures Next(UPDATED, ACTIONS[8], AGAIN)
  {
  }

  // ----- files -----

  lemma FilesOk()
    ensures FileOk(FLUSHED) && FileOk(UPPER) && FileOk(LOWER) && FileOk(CHILD) && FileOk(OUTPUT)
    ensures Elements(FLUSHED.entries) == {B2, D3, V1} && Elements(UPPER.entries) == {B2, D3} &&
      Elements(LOWER.entries) == {V1}
    ensures Elements(CHILD.entries) == {A4} && Elements(OUTPUT.entries) == {A4}
  {
  }

  lemma Contents(f: File, g: File)
    ensures FileEntries([]) == {} && FileEntries([f]) == Elements(f.entries)
    ensures FileEntries([f, g]) == Elements(f.entries) + Elements(g.entries)
    ensures FileSet([]) == {} && FileSet([f]) == {f} && FileSet([f, g]) == {f, g}
  {
    assert f in [f] && f in [f, g] && g in [f, g];
  }

  lemma TwoOrdered(second: seq<File>, third: seq<File>)
    requires InOrder(second) && InOrder(third)
    ensures InOrdered(Two(second, third))
  {
  }

  lemma TwoAdds(third: seq<File>, f: File)
    ensures AddsFile(Two([], third), 2, f, Two([f], third))
  {
    assert FileSet([]) + {f} == FileSet([f]);
  }

  lemma TwoReplaces(second: seq<File>, third: seq<File>, inputs0: seq<File>, inputs1: seq<File>, outputs: seq<File>,
                    second': seq<File>, third': seq<File>)
    requires FileSet(second') == FileSet(second) - FileSet(inputs0)
    requires FileSet(third') == FileSet(third) - FileSet(inputs1) + FileSet(outputs)
    ensures Replaces(Two(second, third), 2, FileSet(inputs0), FileSet(inputs1), FileSet(outputs), Two(second', third'))
  {
  }

  lemma TwoNumbers(second: seq<File>, third: seq<File>)
    requires forall f, g | f in second + third && g in second + third && f.number == g.number :: f == g
    requires forall f :: f in second ==> f !in third
    ensures NumbersIdentify(Two(second, third))
  {
    forall i, j, f, g | 0 <= i < NUM_LEVELS && 0 <= j < NUM_LEVELS
      && f in Two(second, third)[i] && g in Two(second, third)[j] && f.number == g.number
      ensures i == j && f == g
    {
      assert f in second + third && g in second + third;
    }
  }

  lemma FlushInstalls(third: seq<File>, f: File)
    requires InOrder(third)
    ensures Installs(Two([], third), Edit({}, [(2, f)]), Two([f], third))
  {
    hide Installs, AddsFile, InOrdered;
    TwoAdds(third, f);
    TwoOrdered([f], third);
    FlushEditAdds(Two([], third), 2, f, Two([f], third));
  }

  lemma FlushTakes(s: State, f: File, s': State)
    requires s.imm == Some(f.entries) && FileOk(f) && f.number == s.nextFile
    requires exists third | InOrder(third) :: s.version == Two([], third) && s'.version == Two([f], third)
    requires s' == s.(imm := None, version := s'.version, nextFile := s.nextFile + 1)
    ensures Next(s, Flush(2, f), s')
  {
    var third :| InOrder(third) && s.version == Two([], third) && s'.version == Two([f], third);
    FlushInstalls(third, f);
    hide Installs, FileOk;
    assert f.entries != [] by {
      assert FileOk(f);
    }
  }

  lemma Flushes()
    ensures Next(SWITCHED, ACTIONS[4], STORED) && Next(AGAIN, ACTIONS[9], ABOVE)
  {
    FilesOk();
    hide FileOk, Next;
    assert InOrder([]) && InOrder([UPPER, LOWER]);
    FlushTakes(SWITCHED, FLUSHED, STORED);
    FlushTakes(AGAIN, CHILD, ABOVE);
  }

  // ----- the compaction that cuts between two versions -----

  lemma OneInputSelected(v: Version, level: nat, f: File, inputs1: seq<File>)
    requires level + 1 < NUM_LEVELS && v[level] == [f] && level > 0 && FileOk(f)
    requires inputs1 == OverlappingFiles(v[level + 1], Some(f.smallest.user), Some(f.largest.user))
    ensures Selected(v, level, [f], inputs1)
  {
    assert f in [f];
    EntryWithinFile(f, f.entries[0]);
    assert IsUserRange([f], f.smallest.user, f.largest.user);
    assert LastOfChoice(f, [f], v[level]);
  }

  lemma FirstSurvivors(base: UserKey -> bool)
    ensures Survivors(FIRST_MERGE, 1, base) == {B2, D3, V1}
  {
    assert FIRST_MERGE[0] == B2 && FIRST_MERGE[1] == D3 && FIRST_MERGE[2] == V1;
    assert !Dropped(FIRST_MERGE, 1, base, 0) && !Dropped(FIRST_MERGE, 1, base, 1) && !Dropped(FIRST_MERGE, 1, base, 2);
  }

  lemma SwapInstalls(second: seq<File>, third: seq<File>, inputs0: seq<File>, inputs1: seq<File>, outputs: seq<File>,
                     second': seq<File>, third': seq<File>)
    requires FileSet(second') == FileSet(second) - FileSet(inputs0)
    requires FileSet(third') == FileSet(third) - FileSet(inputs1) + FileSet(outputs)
    requires InOrder(second') && InOrder(third')
    requires forall f, g | f in second + third && g in second + third && f.number == g.number :: f == g
    requires forall f :: f in second ==> f !in third
    requires (forall f :: f in inputs0 ==> f in second) && (forall f :: f in inputs1 ==> f in third)
    requires forall i, j :: 0 <= i < j < |outputs| ==> outputs[i].number != outputs[j].number
    requires forall f, g | f in outputs && g in third :: f.number != g.number
    ensures Installs(Two(second, third), CompactionEdit(2, inputs0, inputs1, outputs), Two(second', third'))
  {
    hide Installs, Replaces, InOrdered, NumbersIdentify, CompactionEdit, InOrder;
    TwoNumbers(second, third);
    TwoReplaces(second, third, inputs0, inputs1, outputs, second', third');
    TwoOrdered(second', third');
    CompactionEditReplaces(Two(second, third), 2, inputs0, inputs1, outputs, Two(second', third'));
  }

  lemma FirstInstalls()
    ensures Installs(STORED.version, CompactionEdit(2, [FLUSHED], [], [UPPER, LOWER]), CUT.version)
  {
    Contents(FLUSHED, FLUSHED);
    Contents(UPPER, LOWER);
    assert InOrder([UPPER, LOWER]);
    hide Installs, CompactionEdit, InOrder, FileSet;
    SwapInstalls([FLUSHED], [], [FLUSHED], [], [UPPER, LOWER], [], [UPPER, LOWER]);
  }

  lemma FirstRan()
    ensures CompactionRan(STORED, 2, [FLUSHED], [], FIRST_MERGE, [UPPER, LOWER])
  {
    FilesOk();
    FirstSurvivors(BaseKeys(STORED.version, 2));
    Contents(FLUSHED, FLUSHED);
    Contents(UPPER, LOWER);
    hide BaseKeys, FileOk, Survivors, Sorted, Disjoint;
    assert [FLUSHED] + [] == [FLUSHED];
    FirstInOrder();
  }

  lemma FirstInOrder()
    ensures Sorted(FIRST_MERGE) && Elements(FIRST_MERGE) == {B2, D3, V1} && Disjoint([UPPER, LOWER])
  {
  }

  lemma FirstCompaction()
    ensures Next(STORED, ACTIONS[5], CUT)
  {
    FilesOk();
    hide Selected, Installs, FileOk, CompactionRan;
    FirstInstalls();
    assert OverlappingFiles([], Some(0.0), Some(1.0)) == [];
    OneInputSelected(STORED.version, 2, FLUSHED, []);
    FirstRan();
  }

  // ----- the compaction that takes the tombstone and leaves the value -----

  lemma SecondSelection()
    ensures Selected(ABOVE.version, 2, [CHILD], [UPPER])
  {
    FilesOk();
    var all := [UPPER, LOWER];
    assert all[..1] == [UPPER] && all[..1][..0] == [];
    assert OverlappingFiles(all[..1], Some(0.0), Some(0.0)) == [UPPER];
    assert OverlappingFiles(all, Some(0.0), Some(0.0)) == [UPPER];
    OneInputSelected(ABOVE.version, 2, CHILD, [UPPER]);
  }

  lemma SecondSurvivors()
    ensures Survivors(SECOND_MERGE, 4, BaseKeys(ABOVE.version, 2)) == {A4}
  {
    var base := BaseKeys(ABOVE.version, 2);
    assert forall l | 4 <= l < NUM_LEVELS :: ABOVE.version[l] == [];
    assert base(1.0);
    assert SECOND_MERGE[0] == A4 && SECOND_MERGE[1] == B2 && SECOND_MERGE[2] == D3;
    assert !Dropped(SECOND_MERGE, 4, base, 0) && Dropped(SECOND_MERGE, 4, base, 1) && Dropped(SECOND_MERGE, 4, base, 2);
  }

  lemma SecondInstalls()
    ensures Installs(ABOVE.version, CompactionEdit(2, [CHILD], [UPPER], [OUTPUT]), GONE.version)
  {
    Contents(CHILD, UPPER);
    Contents(UPPER, LOWER);
    Contents(OUTPUT, LOWER);
    assert InOrder([OUTPUT, LOWER]);
    hide Installs, CompactionEdit, InOrder, FileSet;
    SwapInstalls([CHILD], [UPPER, LOWER], [CHILD], [UPPER], [OUTPUT], [], [OUTPUT, LOWER]);
  }

  lemma SecondRan()
    ensures CompactionRan(ABOVE, 2, [CHILD], [UPPER], SECOND_MERGE, [OUTPUT])
  {
    FilesOk();
    SecondSurvivors();
    Contents(CHILD, UPPER);
    Contents(OUTPUT, LOWER);
    hide BaseKeys, FileOk, Survivors, Sorted;
    assert [CHILD] + [UPPER] == [CHILD, UPPER];
    SecondInOrder();
  }

  lemma SecondInOrder()
    ensures Sorted(SECOND_MERGE) && Elements(SECOND_MERGE) == {A4, B2, D3}
  {
  }

  lemma SecondCompaction()
    ensures Next(ABOVE, ACTIONS[10], GONE)
  {
    hide Selected, Installs, FileOk, CompactionRan;
    SecondInstalls();
    SecondSelection();
    SecondRan();
  }

  // ----- the run -----

  lemma TheRun()
    ensures IsRun(STATES, ACTIONS)
  {
    FirstWrite();
    SecondWrite();
    ThirdWrite();
    MemTableSteps();
    Flushes();
    FirstCompaction();
    SecondCompaction();
    hide Next;
    forall i | 0 <= i < |ACTIONS| ensures Next(STATES[i], ACTIONS[i], STATES[i + 1]) {
      assert i in {0, 1, 2, 3, 4, 5, 6, 7, 8, 9, 10};
    }
  }

  lemma StoredAtTheEnd()
    ensures AllEntries(GONE) == {A4, V1}
  {
    FilesOk();
    Contents(OUTPUT, LOWER);
    var v := GONE.version;
    assert forall l | 0 <= l < NUM_LEVELS && l != 3 :: v[l] == [];
    assert forall l | 0 <= l < NUM_LEVELS && l != 3 :: FileEntries(v[l]) == {};
    assert FileEntries(v[3]) == {A4, V1};
    assert VersionEntries(v) == FileEntries(v[3]);
  }

  lemma ReadsAtTheEnd()
    ensures Read({V1, B2, D3, A4}, 1.0, 4) == Absent && Read({A4, V1}, 1.0, 4) == Found([3])
  {
    assert IsNewest({V1, B2, D3, A4}, 1.0, 4, D3) && Unique({V1, B2, D3, A4});
    ReadIsNewest({V1, B2, D3, A4}, 1.0, 4, D3);
    assert IsNewest({A4, V1}, 1.0, 4, V1) && Unique({A4, V1});
    ReadIsNewest({A4, V1}, 1.0, 4, V1);
  }

  /** A run of the store that deletes key 1 and reads it back at its end. */
  lemma DeletedKeyComesBack()
    ensures IsRun(STATES, ACTIONS) && STATES[|STATES| - 1] == GONE
    ensures Read(GONE.history, 1.0, GONE.lastSequence) == Absent
    ensures Read(AllEntries(GONE), 1.0, GONE.lastSequence) == Found([3])
    ensures !CleanCut(ACTIONS[5]) && !Recent(ABOVE, ACTIONS[10])
  {
    TheRun();
    StoredAtTheEnd();
    ReadsAtTheEnd();
    assert UPPER in [UPPER, LOWER] && LOWER in [UPPER, LOWER];
    assert LOWER in ABOVE.version[3] && LOWER !in [UPPER] && D3 in SECOND_MERGE && V1 in LOWER.entries;
  }
}
