/**
 The store as a whole (db/db_impl.cc): memtables, levels and snapshots under
 writes, memtable switches, flushes, compactions and file moves.  The structure
 holds in every reachable state, and a lookup returns what all stored entries
 together say; what compactions do to that is in SnapshotReads.
 */
module Database {
  import opened Keys
  import opened Levels
  import opened InputSelection
  import opened CompactionRules
  import opened CompactionWork
  import opened VersionBuilder
  import opened Installation

  datatype State = State(
    mem: seq<Entry>,            // memtable contents in key order
    imm: Option<seq<Entry>>,    // memtable being flushed
    version: Version,
    nextFile: nat,
    lastSequence: nat,
    snapshots: seq<nat>,        // oldest first
    history: set<Entry>,        // every entry ever written
    horizon: nat                // highest smallest_snapshot of any compaction so far
  )

  datatype WriteOp = WriteOp(key: UserKey, kind: nat, value: Bytes)

  datatype Action =
    | Write(batch: seq<WriteOp>)
    | SwitchMemTable
    | Flush(level: nat, file: File)
    | FlushEmpty
    | Compact(level: nat, inputs0: seq<File>, inputs1: seq<File>, merged: seq<Entry>, outputs: seq<File>)
    | MoveFile(level: nat, file: File)
    | TakeSnapshot
    | ReleaseSnapshot(index: nat)

  function ImmEntries(s: State): seq<Entry> {
    if s.imm.Some? then s.imm.value else []
  }

  ghost function AllEntries(s: State): set<Entry> {
    Elements(s.mem) + Elements(ImmEntries(s)) + VersionEntries(s.version)
  }

  /** The entries a batch becomes when its first sequence number is `first`. */
  ghost function Numbered(batch: seq<WriteOp>, first: nat): set<Entry> {
    set i | 0 <= i < |batch| :: Entry(InternalKey(batch[i].key, first + i, batch[i].kind), batch[i].value)
  }

  function SmallestSnapshot(s: State): nat {
    if s.snapshots == [] then s.lastSequence else s.snapshots[0]
  }

  function CompactionEdit(level: nat, inputs0: seq<File>, inputs1: seq<File>, outputs: seq<File>): Edit {
    Edit((set f | f in inputs0 :: (level, f.number)) + (set f | f in inputs1 :: (level + 1, f.number)),
         seq(|outputs|, i requires 0 <= i < |outputs| => (level + 1, outputs[i])))
  }

  ghost predicate Initial(s: State) {
    && s.mem == [] && s.imm == None && s.version == [[], [], [], [], [], [], []]
    && s.lastSequence == 0 && s.snapshots == [] && s.history == {} && s.horizon == 0
  }

  /** The inputs are merged, filtered by the drop rules, and cut into new files. */
  ghost predicate CompactionRan(s: State, level: nat, inputs0: seq<File>, inputs1: seq<File>, merged: seq<Entry>,
                                outputs: seq<File>)
    requires level + 1 < NUM_LEVELS
  {
    && Sorted(merged) && Elements(merged) == FileEntries(inputs0 + inputs1)
    && FileEntries(outputs) == Survivors(merged, SmallestSnapshot(s), BaseKeys(s.version, level))
    && (forall f :: f in outputs ==> FileOk(f)) && Disjoint(outputs)
    && ConsecutiveFrom(outputs, s.nextFile)
  }

  ghost predicate WriteStep(s: State, batch: seq<WriteOp>, s': State) {
    && s.lastSequence + |batch| < MAX_SEQUENCE && (forall op :: op in batch ==> op.kind <= TYPE_VALUE)
    && Sorted(s'.mem) && Elements(s'.mem) == Elements(s.mem) + Numbered(batch, s.lastSequence + 1)
    && s' == s.(mem := s'.mem, lastSequence := s.lastSequence + |batch|,
                history := s.history + Numbered(batch, s.lastSequence + 1))
  }

  ghost predicate SwitchStep(s: State, s': State) {
    s.imm == None && s' == s.(imm := Some(s.mem), mem := [])
  }

  ghost predicate FlushEmptyStep(s: State, s': State) {
    s.imm == Some([]) && s' == s.(imm := None)
  }

  ghost predicate FlushStep(s: State, level: nat, file: File, s': State) {
    && s.imm.Some? && s.imm.value != [] && level <= MAX_MEM_COMPACT_LEVEL
    && (level > 0 ==> forall i :: 0 <= i <= level ==> !LevelMeets(s.version[i], file.smallest.user, file.largest.user))
    && FileOk(file) && file.entries == s.imm.value && file.number == s.nextFile
    && Installs(s.version, Edit({}, [(level, file)]), s'.version)
    && s' == s.(imm := None, version := s'.version, nextFile := s.nextFile + 1)
  }

  ghost predicate CompactStep(s: State, level: nat, inputs0: seq<File>, inputs1: seq<File>, merged: seq<Entry>,
                              outputs: seq<File>, s': State) {
    && level + 1 < NUM_LEVELS && Selected(s.version, level, inputs0, inputs1)
    && CompactionRan(s, level, inputs0, inputs1, merged, outputs)
    && Installs(s.version, CompactionEdit(level, inputs0, inputs1, outputs), s'.version)
    && s' == s.(version := s'.version, nextFile := s.nextFile + |outputs|,
                horizon := if s.horizon < SmallestSnapshot(s) then SmallestSnapshot(s) else s.horizon)
  }

  ghost predicate MoveStep(s: State, level: nat, file: File, s': State) {
    && level + 1 < NUM_LEVELS && Selected(s.version, level, [file], [])
    && Installs(s.version, CompactionEdit(level, [file], [], [file]), s'.version)
    && s' == s.(version := s'.version)
  }

  ghost predicate TakeSnapshotStep(s: State, s': State) {
    s' == s.(snapshots := s.snapshots + [s.lastSequence])
  }

  ghost predicate ReleaseSnapshotStep(s: State, index: nat, s': State) {
    index < |s.snapshots| && s' == s.(snapshots := s.snapshots[..index] + s.snapshots[index + 1..])
  }

  ghost predicate Next(s: State, a: Action, s': State) {
    match a
    case Write(batch) => WriteStep(s, batch, s')
    case SwitchMemTable => SwitchStep(s, s')
    case FlushEmpty => FlushEmptyStep(s, s')
    case Flush(level, file) => FlushStep(s, level, file, s')
    case Compact(level, inputs0, inputs1, merged, outputs) =>
      CompactStep(s, level, inputs0, inputs1, merged, outputs, s')
    case MoveFile(level, file) => MoveStep(s, level, file, s')
    case TakeSnapshot => TakeSnapshotStep(s, s')
    case ReleaseSnapshot(index) => ReleaseSnapshotStep(s, index, s')
  }

  ghost predicate SnapshotsOk(s: State) {
    && (forall i, j :: 0 <= i < j < |s.snapshots| ==> s.snapshots[i] <= s.snapshots[j])
    && (forall i :: 0 <= i < |s.snapshots| ==> s.horizon <= s.snapshots[i] <= s.lastSequence)
    && s.horizon <= s.lastSequence < MAX_SEQUENCE
  }

  ghost predicate HistoryOk(s: State) {
    && Unique(s.history) && AllEntries(s) <= s.history
    && forall e :: e in s.history ==> Parses(e.ik) && e.ik.seqno <= s.lastSequence
  }

  ghost predicate Layered(s: State) {
    && Sorted(s.mem) && Sorted(ImmEntries(s))
    && NewerThan(Elements(s.mem), Elements(ImmEntries(s)) + VersionEntries(s.version))
    && NewerThan(Elements(ImmEntries(s)), VersionEntries(s.version))
  }

  ghost predicate Inv(s: State) {
    Sound(s.version, s.nextFile) && SnapshotsOk(s) && HistoryOk(s) && Layered(s)
  }

  /** What is stored reads like everything ever written, from the horizon on. */
  ghost predicate ReadsHistory(s: State) {
    ReadsPreserved(s.history, AllEntries(s), s.horizon)
  }

  // ----- lookups -----

  lemma NewestIsVisible(entries: seq<Entry>, k: UserKey, s: nat)
    ensures forall e :: IsNewest(Elements(entries), k, s, e) ==> e in entries && Visible(e, k, s)
  {
  }

  /** MemTable::Get: the entry the seek lands on, if it has the key and a known type. */
  method MemTableGet(entries: seq<Entry>, k: UserKey, s: nat) returns (r: SaverState)
    requires Sorted(entries) && Seekable(Elements(entries), k, s)
    ensures !r.SawCorrupt?
    ensures r.Saved? ==> IsNewest(Elements(entries), k, s, r.entry) && Parses(r.entry.ik)
    ensures r.NotFoundYet? <==>
      NewestIsCorrupt(Elements(entries), k, s) || forall e :: e in entries ==> !Visible(e, k, s)
  {
    hide Sorted, Seekable, IsNewest, NewestIsCorrupt;
    LandingIsNewest(entries, k, s);
    CorruptIsLanded(entries, k, s);
    NewestIsVisible(entries, k, s);
    var i := SeekIn(entries, LookupKey(k, s));
    if i < |entries| && entries[i].ik.user == k {
      if Parses(entries[i].ik) {
        return Saved(entries[i]);
      }
    }
    return NotFoundYet;
  }

  /** A hit in a newer part is the newest of the whole. */
  lemma HitInNewerPart(S: set<Entry>, T: set<Entry>, k: UserKey, s: nat, e: Entry)
    requires NewerThan(S, T) && IsNewest(S, k, s, e)
    ensures IsNewest(S + T, k, s, e)
  {
  }

  lemma MissInNewerPart(S: set<Entry>, T: set<Entry>, k: UserKey, s: nat)
    requires Unique(S + T) && forall e :: e in S ==> !Visible(e, k, s)
    ensures Read(S + T, k, s) == Read(T, k, s)
  {
    ReadAgrees(S + T, T, k, s, s);
  }

  /** Every version of the store parses, so no lookup goes astray. */
  lemma StoreParses(get: TableGet, s: State, k: UserKey, snapshot: nat)
    requires HistoryOk(s)
    ensures !Diverted(get, s.version, k, snapshot) && Seekable(VersionEntries(s.version), k, snapshot)
    ensures Seekable(Elements(s.mem), k, snapshot) && !NewestIsCorrupt(Elements(s.mem), k, snapshot)
    ensures Seekable(Elements(ImmEntries(s)), k, snapshot) && !NewestIsCorrupt(Elements(ImmEntries(s)), k, snapshot)
    ensures Unique(AllEntries(s))
  {
    forall level: nat, f ensures !DivertedBy(get, s.version, level, f, k, snapshot) {
      if level < NUM_LEVELS && f in s.version[level] && Stray(get, f, k, snapshot) {
        FileWithinVersion(s.version, level, f);
        StrayIsLanding(get, f, k, snapshot);
      }
    }
  }

  /**
   DBImpl::Get: memtables first, then the tables: what all stored entries together
   say, at any snapshot, however the tables are cut into blocks.
   */
  method Get(get: TableGet, s: State, k: UserKey, snapshot: nat) returns (r: ReadResult)
    requires Inv(s)
    ensures r == Read(AllEntries(s), k, snapshot)
    ensures ReadsHistory(s) && s.horizon <= snapshot ==> r == Read(s.history, k, snapshot)
  {
    StoreParses(get, s, k, snapshot);
    hide Seekable, NewestIsCorrupt, Diverted, ReadsPreserved;
    ghost var mem, imm, files := Elements(s.mem), Elements(ImmEntries(s)), VersionEntries(s.version);
    assert AllEntries(s) == mem + (imm + files);
    assert ReadsHistory(s) && s.horizon <= snapshot ==>
      Read(AllEntries(s), k, snapshot) == Read(s.history, k, snapshot) by {
      PreservedAt(s, k, snapshot);
    }
    var hit := MemTableGet(s.mem, k, snapshot);
    if hit.Saved? {
      HitInNewerPart(mem, imm + files, k, snapshot, hit.entry);
      ReadIsNewest(AllEntries(s), k, snapshot, hit.entry);
      return Outcome(hit.entry);
    }
    MissInNewerPart(mem, imm + files, k, snapshot);
    if s.imm.Some? {
      hit := MemTableGet(s.imm.value, k, snapshot);
      if hit.Saved? {
        HitInNewerPart(imm, files, k, snapshot, hit.entry);
        ReadIsNewest(imm + files, k, snapshot, hit.entry);
        return Outcome(hit.entry);
      }
    }
    MissInNewerPart(imm, files, k, snapshot);
    r := Levels.Get(get, s.version, k, snapshot);
  }

  lemma PreservedAt(s: State, k: UserKey, snapshot: nat)
    ensures ReadsHistory(s) && s.horizon <= snapshot ==>
      Read(AllEntries(s), k, snapshot) == Read(s.history, k, snapshot)
  {
  }

  // ----- every step keeps the invariant -----

  lemma ReadWithNewer(S: set<Entry>, T: set<Entry>, N: set<Entry>, k: UserKey, s: nat)
    requires Unique(S + N) && T <= S && Read(S, k, s) == Read(T, k, s)
    requires forall e, f | e in N && f in S :: e.ik.seqno > f.ik.seqno
    ensures Read(S + N, k, s) == Read(T + N, k, s)
  {
    if w :| w in N && Visible(w, k, s) {
      var e := NewestExists(N, k, s, w);
      assert IsNewest(S + N, k, s, e) && IsNewest(T + N, k, s, e);
      ReadIsNewest(S + N, k, s, e);
      ReadIsNewest(T + N, k, s, e);
    } else {
      ReadAgrees(S + N, S, k, s, s);
      ReadAgrees(T + N, T, k, s, s);
    }
  }

  lemma NumberedMember(batch: seq<WriteOp>, first: nat, e: Entry) returns (i: nat)
    requires e in Numbered(batch, first)
    ensures i < |batch| && e == Entry(InternalKey(batch[i].key, first + i, batch[i].kind), batch[i].value)
  {
    i :| 0 <= i < |batch| && e == Entry(InternalKey(batch[i].key, first + i, batch[i].kind), batch[i].value);
  }

  lemma NumberedRange(batch: seq<WriteOp>, first: nat)
    requires forall op :: op in batch ==> op.kind <= TYPE_VALUE
    ensures forall e :: e in Numbered(batch, first) ==> first <= e.ik.seqno < first + |batch| && Parses(e.ik)
  {
    forall e | e in Numbered(batch, first) ensures first <= e.ik.seqno < first + |batch| && Parses(e.ik) {
      var i := NumberedMember(batch, first, e);
      assert batch[i] in batch;
    }
  }

  lemma NumberedIsUnique(S: set<Entry>, batch: seq<WriteOp>, first: nat)
    requires Unique(S) && forall e :: e in S ==> e.ik.seqno < first
    ensures Unique(S + Numbered(batch, first))
  {
    var N := Numbered(batch, first);
    forall e | e in N ensures e.ik.seqno >= first {
      var i := NumberedMember(batch, first, e);
    }
    forall e, f | e in N && f in N && e.ik.seqno == f.ik.seqno ensures e == f {
      var i := NumberedMember(batch, first, e);
      var j := NumberedMember(batch, first, f);
    }
  }

  lemma NewestOnTop(N: set<Entry>, mem: set<Entry>, lower: set<Entry>, last: nat)
    requires NewerThan(mem, lower)
    requires (forall e :: e in N ==> e.ik.seqno > last) && forall e :: e in lower ==> e.ik.seqno <= last
    ensures NewerThan(mem + N, lower)
  {
  }

  lemma ReadsWithNewer(S: set<Entry>, T: set<Entry>, N: set<Entry>, horizon: nat, last: nat)
    requires Unique(S + N) && T <= S && ReadsPreserved(S, T, horizon)
    requires (forall e :: e in N ==> e.ik.seqno > last) && forall e :: e in S ==> e.ik.seqno <= last
    ensures ReadsPreserved(S + N, T + N, horizon)
  {
    forall k, t | t >= horizon ensures Read(S + N, k, t) == Read(T + N, k, t) {
      ReadWithNewer(S, T, N, k, t);
    }
  }

  lemma WriteKeepsInv(s: State, batch: seq<WriteOp>, s': State)
    requires Inv(s) && WriteStep(s, batch, s')
    ensures Inv(s') && (ReadsHistory(s) ==> ReadsHistory(s'))
  {
    hide Sound, Numbered, ReadsPreserved;
    var N := Numbered(batch, s.lastSequence + 1);
    NumberedRange(batch, s.lastSequence + 1);
    NumberedIsUnique(s.history, batch, s.lastSequence + 1);
    assert AllEntries(s') == AllEntries(s) + N;
    if ReadsHistory(s) {
      ReadsWithNewer(s.history, AllEntries(s), N, s.horizon, s.lastSequence);
    }
    NewestOnTop(N, Elements(s.mem), Elements(ImmEntries(s)) + VersionEntries(s.version), s.lastSequence);
  }

  lemma SwitchKeepsInv(s: State, s': State)
    requires Inv(s) && (SwitchStep(s, s') || FlushEmptyStep(s, s'))
    ensures Inv(s') && (ReadsHistory(s) ==> ReadsHistory(s'))
  {
    assert AllEntries(s') == AllEntries(s);
  }

  ghost predicate InOrdered(v: Version) {
    forall l :: 0 <= l < NUM_LEVELS ==> InOrder(v[l])
  }

  /** Installing one table adds exactly that file. */
  lemma FlushEditAdds(v: Version, level: nat, f: File, v': Version)
    requires level < NUM_LEVELS
    ensures Installs(v, Edit({}, [(level, f)]), v') ==> AddsFile(v, level, f, v')
    ensures AddsFile(v, level, f, v') && InOrdered(v') && (forall g :: g in v[level] ==> g.number != f.number) ==>
      Installs(v, Edit({}, [(level, f)]), v')
  {
    var edit := Edit({}, [(level, f)]);
    forall l | 0 <= l < NUM_LEVELS
      ensures Live(FileSet(v[l]), ApplyLevel(FRESH, l, edit)) == FileSet(v[l]) + (if l == level then {f} else {})
    {
      AddFilesMeaning(FRESH.(deleted := FRESH.deleted + DeletedAt(edit, l)), l, edit.added);
      assert FilesAt(edit.added, l) == if l == level then {f} else {};
      assert DeletedAt(edit, l) == {};
    }
  }

  lemma AddKeepsNumbers(v: Version, nextFile: nat, level: nat, f: File, v': Version)
    requires Sound(v, nextFile) && level < NUM_LEVELS && f.number == nextFile && AddsFile(v, level, f, v')
    ensures NumbersIdentify(v') && forall l, g | 0 <= l < NUM_LEVELS && g in v'[l] :: g.number < nextFile + 1
  {
    hide VersionOk, InOrder;
    forall l, g | 0 <= l < NUM_LEVELS && g in v'[l] ensures g in v[l] || (l == level && g == f) {
      InFileSet(v[l]);
      InFileSet(v'[l]);
    }
  }

  lemma FlushAdds(s: State, level: nat, file: File, s': State)
    requires Sound(s.version, s.nextFile) && FlushStep(s, level, file, s')
    requires NewerThan(Elements(file.entries), VersionEntries(s.version))
    requires Unique(VersionEntries(s.version) + Elements(file.entries))
    ensures Sound(s'.version, s'.nextFile)
    ensures VersionEntries(s'.version) == VersionEntries(s.version) + Elements(file.entries)
  {
    hide VersionOk, NumbersIdentify, ApplyLevel, Live;
    FlushEditAdds(s.version, level, file, s'.version);
    AddKeepsNumbers(s.version, s.nextFile, level, file, s'.version);
    AddKeepsVersionOk(s.version, level, file, s'.version);
  }

  lemma FlushKeepsInv(s: State, level: nat, file: File, s': State)
    requires Inv(s) && FlushStep(s, level, file, s')
    ensures Inv(s') && (ReadsHistory(s) ==> ReadsHistory(s'))
  {
    hide Sound, Installs, LevelMeets, ReadsPreserved, Unique, Sorted, FileOk, Visible;
    var files, table := VersionEntries(s.version), Elements(file.entries);
    NoEntriesSorted();
    FlushedTableIsUnique(s, table);
    FlushAdds(s, level, file, s');
    assert AllEntries(s') == AllEntries(s);
    FlushedMemTableBelow(Elements(s.mem), table, files, VersionEntries(s'.version));
  }

  lemma NoEntriesSorted()
    ensures Sorted([])
  {
  }

  lemma FlushedTableIsUnique(s: State, table: set<Entry>)
    requires Unique(s.history) && AllEntries(s) <= s.history && table <= Elements(ImmEntries(s))
    ensures Unique(VersionEntries(s.version) + table)
  {
    assert VersionEntries(s.version) + table <= s.history;
  }

  lemma FlushedMemTableBelow(mem: set<Entry>, table: set<Entry>, files: set<Entry>, files': set<Entry>)
    requires NewerThan(mem, table + files) && files' == files + table
    ensures NewerThan(mem, {} + files')
  {
    assert {} + files' == table + files;
  }

  lemma OutputPairs(level: nat, outputs: seq<File>, edit: Edit)
    requires edit.added == seq(|outputs|, i requires 0 <= i < |outputs| => (level + 1, outputs[i]))
    requires forall i, j :: 0 <= i < j < |outputs| ==> outputs[i].number != outputs[j].number
    ensures FilesAt(edit.added, level + 1) == FileSet(outputs)
    ensures forall l | l != level + 1 :: FilesAt(edit.added, l) == {}
    ensures forall l :: DistinctNumbers(edit.added, l)
  {
    forall f ensures f in FileSet(outputs) <==> f in FilesAt(edit.added, level + 1) {
      if f in outputs {
        var i :| 0 <= i < |outputs| && outputs[i] == f;
        assert edit.added[i] == (level + 1, f);
      }
    }
  }

  /** A compaction edit swaps exactly the inputs for the outputs. */
  lemma CompactionEditReplaces(v: Version, level: nat, inputs0: seq<File>, inputs1: seq<File>, outputs: seq<File>,
                               v': Version)
    requires level + 1 < NUM_LEVELS && NumbersIdentify(v)
    requires (forall f :: f in inputs0 ==> f in v[level]) && (forall f :: f in inputs1 ==> f in v[level + 1])
    requires forall i, j :: 0 <= i < j < |outputs| ==> outputs[i].number != outputs[j].number
    requires forall f, g | f in outputs && g in v[level + 1] :: f.number != g.number
    ensures Installs(v, CompactionEdit(level, inputs0, inputs1, outputs), v') <==>
      Replaces(v, level, FileSet(inputs0), FileSet(inputs1), FileSet(outputs), v') && InOrdered(v')
  {
    var edit := CompactionEdit(level, inputs0, inputs1, outputs);
    forall l | 0 <= l < NUM_LEVELS
      ensures Live(FileSet(v[l]), ApplyLevel(FRESH, l, edit)) ==
        FileSet(v[l]) - FileSet(InputsAt(level, inputs0, inputs1, l)) + FileSet(if l == level + 1 then outputs else [])
    {
      SwapAtLevel(v, level, inputs0, inputs1, outputs, l);
    }
    hide Live, ApplyLevel, CompactionEdit;
    assert FileSet([]) == {};
  }

  function InputsAt(level: nat, inputs0: seq<File>, inputs1: seq<File>, l: nat): seq<File> {
    if l == level then inputs0 else if l == level + 1 then inputs1 else []
  }

  /** What the edit does to one level. */
  lemma SwapAtLevel(v: Version, level: nat, inputs0: seq<File>, inputs1: seq<File>, outputs: seq<File>, l: nat)
    requires level + 1 < NUM_LEVELS && l < NUM_LEVELS && NumbersIdentify(v)
    requires (forall f :: f in inputs0 ==> f in v[level]) && (forall f :: f in inputs1 ==> f in v[level + 1])
    requires forall i, j :: 0 <= i < j < |outputs| ==> outputs[i].number != outputs[j].number
    requires forall f, g | f in outputs && g in v[level + 1] :: f.number != g.number
    ensures Live(FileSet(v[l]), ApplyLevel(FRESH, l, CompactionEdit(level, inputs0, inputs1, outputs))) ==
      FileSet(v[l]) - FileSet(InputsAt(level, inputs0, inputs1, l)) + FileSet(if l == level + 1 then outputs else [])
  {
    hide Live, NumbersIdentify;
    var edit := CompactionEdit(level, inputs0, inputs1, outputs);
    OutputPairs(level, outputs, edit);
    AddFilesMeaning(FRESH.(deleted := FRESH.deleted + DeletedAt(edit, l)), l, edit.added);
    DeletedNumbers(level, inputs0, inputs1, edit, l);
    LiveAfterSwap(v, l, InputsAt(level, inputs0, inputs1, l), if l == level + 1 then outputs else [],
                  ApplyLevel(FRESH, l, edit));
  }

  lemma DeletedNumbers(level: nat, inputs0: seq<File>, inputs1: seq<File>, edit: Edit, l: nat)
    requires edit.deleted ==
      (set f | f in inputs0 :: (level, f.number)) + (set f | f in inputs1 :: (level + 1, f.number))
    ensures DeletedAt(edit, l) == Numbers(FileSet(InputsAt(level, inputs0, inputs1, l)))
  {
    var inputs := InputsAt(level, inputs0, inputs1, l);
    forall n ensures n in DeletedAt(edit, l) <==> n in Numbers(FileSet(inputs)) {
      if f :| f in inputs && f.number == n {
        assert (l, f.number) in edit.deleted;
        assert f in FileSet(inputs);
      }
      if n in DeletedAt(edit, l) {
        var p :| p in edit.deleted && p.0 == l && p.1 == n;
        var f :| f in inputs && p == (l, f.number);
        assert f in FileSet(inputs);
      }
    }
  }

  lemma LiveAfterSwap(v: Version, l: nat, inputs: seq<File>, outputs: seq<File>, state: LevelState)
    requires l < NUM_LEVELS && NumbersIdentify(v) && forall f :: f in inputs ==> f in v[l]
    requires forall f, g | f in outputs && g in v[l] :: f.number != g.number
    requires FileSet(state.added) == FileSet(outputs)
    requires state.deleted == Numbers(FileSet(inputs)) - Numbers(FileSet(outputs))
    ensures Live(FileSet(v[l]), state) == FileSet(v[l]) - FileSet(inputs) + FileSet(outputs)
  {
    forall f ensures f in Live(FileSet(v[l]), state) <==> f in FileSet(v[l]) - FileSet(inputs) + FileSet(outputs) {
      if f in v[l] && f in inputs {
        assert f.number in Numbers(FileSet(inputs));
        assert forall g :: g in outputs ==> g.number != f.number;
      }
    }
  }

  lemma NewerIsApart(S: set<Entry>, T: set<Entry>)
    requires NewerThan(S, T) || NewerThan(T, S)
    ensures S !! T
  {
    assert forall e | e in S && e in T :: e.ik.seqno > e.ik.seqno;
  }

  lemma RangesApart(f: File, g: File)
    requires FileOk(f) && FileOk(g) && (Less(f.largest, g.smallest) || Less(g.largest, f.smallest))
    ensures Elements(f.entries) !! Elements(g.entries)
  {
    forall e | e in f.entries ensures LessEq(f.smallest, e.ik) && LessEq(e.ik, f.largest) {
      EntryWithinFile(f, e);
    }
    forall e | e in g.entries ensures LessEq(g.smallest, e.ik) && LessEq(e.ik, g.largest) {
      EntryWithinFile(g, e);
    }
  }

  /** Different files of a sound version hold different entries. */
  lemma FilesShareNothing(v: Version, i: nat, j: nat, f: File, g: File)
    requires VersionOk(v) && i < NUM_LEVELS && j < NUM_LEVELS && f in v[i] && g in v[j] && (i != j || f != g)
    ensures Elements(f.entries) !! Elements(g.entries)
  {
    if i != j {
      assert NewerThan(FileEntries(v[if i < j then i else j]), FileEntries(v[if i < j then j else i]));
      NewerIsApart(FileEntries(v[i]), FileEntries(v[j]));
      assert Elements(f.entries) <= FileEntries(v[i]) && Elements(g.entries) <= FileEntries(v[j]);
    } else if i > 0 {
      FilesAreOrdered(v[i], f, g);
      RangesApart(f, g);
    } else {
      NewerIsApart(Elements(f.entries), Elements(g.entries));
    }
  }

  /** What a compaction takes away, stated file by file. */
  ghost predicate Taken(level: nat, inputs0: seq<File>, inputs1: seq<File>, l: nat, f: File) {
    (l == level && f in inputs0) || (l == level + 1 && f in inputs1)
  }

  lemma FileAfterCompaction(v: Version, level: nat, inputs0: seq<File>, inputs1: seq<File>, outputs: seq<File>,
                            v': Version, l: nat, f: File)
    requires level + 1 < NUM_LEVELS && l < NUM_LEVELS
    requires Replaces(v, level, FileSet(inputs0), FileSet(inputs1), FileSet(outputs), v')
    ensures f in v'[l] <==> (f in v[l] && !Taken(level, inputs0, inputs1, l, f)) || (l == level + 1 && f in outputs)
  {
    assert f in v'[l] <==> f in FileSet(v'[l]);
    assert f in v[l] <==> f in FileSet(v[l]);
    if l != level && l != level + 1 {
      assert FileSet(v'[l]) == FileSet(v[l]);
    }
  }

  lemma KeptFileSharesNothing(v: Version, level: nat, inputs0: seq<File>, inputs1: seq<File>, l: nat, f: File)
    requires VersionOk(v) && level + 1 < NUM_LEVELS && l < NUM_LEVELS && f in v[l]
    requires (forall f :: f in inputs0 ==> f in v[level]) && (forall f :: f in inputs1 ==> f in v[level + 1])
    requires !Taken(level, inputs0, inputs1, l, f)
    ensures Elements(f.entries) !! FileEntries(inputs0 + inputs1)
  {
    forall g | g in inputs0 + inputs1 ensures Elements(f.entries) !! Elements(g.entries) {
      if g in inputs0 {
        FilesShareNothing(v, l, level, f, g);
      } else {
        FilesShareNothing(v, l, level + 1, f, g);
      }
    }
    forall e | e in FileEntries(inputs0 + inputs1) ensures e !in Elements(f.entries) {
      var g :| g in inputs0 + inputs1 && e in g.entries;
      assert e in Elements(g.entries);
    }
  }

  lemma EntryOfKeptFile(v: Version, level: nat, inputs0: seq<File>, inputs1: seq<File>, e: Entry)
    returns (l: nat, f: File)
    requires level + 1 < NUM_LEVELS && e in VersionEntries(v) && e !in FileEntries(inputs0 + inputs1)
    ensures l < NUM_LEVELS && f in v[l] && e in f.entries && !Taken(level, inputs0, inputs1, l, f)
  {
    l :| 0 <= l < NUM_LEVELS && e in FileEntries(v[l]);
    f :| f in v[l] && e in f.entries;
    assert f in inputs0 + inputs1 ==> e in FileEntries(inputs0 + inputs1);
  }

  /** At entry level, a compaction replaces the inputs' entries by the outputs'. */
  lemma EntriesAfterCompaction(v: Version, level: nat, inputs0: seq<File>, inputs1: seq<File>, outputs: seq<File>,
                               v': Version)
    requires VersionOk(v) && level + 1 < NUM_LEVELS
    requires (forall f :: f in inputs0 ==> f in v[level]) && (forall f :: f in inputs1 ==> f in v[level + 1])
    requires Replaces(v, level, FileSet(inputs0), FileSet(inputs1), FileSet(outputs), v')
    ensures VersionEntries(v') == VersionEntries(v) - FileEntries(inputs0 + inputs1) + FileEntries(outputs)
  {
    var after := VersionEntries(v) - FileEntries(inputs0 + inputs1) + FileEntries(outputs);
    forall e | e in VersionEntries(v') ensures e in after {
      var l :| 0 <= l < NUM_LEVELS && e in FileEntries(v'[l]);
      var f :| f in v'[l] && e in f.entries;
      FileAfterCompaction(v, level, inputs0, inputs1, outputs, v', l, f);
      if l == level + 1 && f in outputs {
        assert e in FileEntries(outputs);
      } else {
        assert e in FileEntries(v[l]);
        KeptFileSharesNothing(v, level, inputs0, inputs1, l, f);
        assert e in Elements(f.entries);
      }
    }
    forall e | e in after ensures e in VersionEntries(v') {
      if e in FileEntries(outputs) {
        var f :| f in outputs && e in f.entries;
        FileAfterCompaction(v, level, inputs0, inputs1, outputs, v', level + 1, f);
        assert e in FileEntries(v'[level + 1]);
      } else {
        var l, f := EntryOfKeptFile(v, level, inputs0, inputs1, e);
        FileAfterCompaction(v, level, inputs0, inputs1, outputs, v', l, f);
        assert e in FileEntries(v'[l]);
      }
    }
  }

  lemma ReplaceKeepsNumbers(v: Version, level: nat, inputs0: seq<File>, inputs1: seq<File>, outputs: seq<File>,
                            v': Version)
    requires NumbersIdentify(v) && level + 1 < NUM_LEVELS
    requires Replaces(v, level, FileSet(inputs0), FileSet(inputs1), FileSet(outputs), v')
    requires forall f, g | f in outputs && g in outputs && f.number == g.number :: f == g
    requires forall l, f, g |
               0 <= l < NUM_LEVELS && f in outputs && g in v[l] && !Taken(level, inputs0, inputs1, l, g) ::
               f.number != g.number
    ensures NumbersIdentify(v')
  {
    forall i, j, f, g | 0 <= i < NUM_LEVELS && 0 <= j < NUM_LEVELS && f in v'[i] && g in v'[j] && f.number == g.number
      ensures i == j && f == g
    {
      FileAfterCompaction(v, level, inputs0, inputs1, outputs, v', i, f);
      FileAfterCompaction(v, level, inputs0, inputs1, outputs, v', j, g);
    }
  }

  /** The numbers of a compaction's outputs clash with no file that stays. */
  ghost predicate NewNumbers(v: Version, level: nat, inputs0: seq<File>, inputs1: seq<File>, outputs: seq<File>)
    requires level + 1 < NUM_LEVELS
  {
    && (forall i, j :: 0 <= i < j < |outputs| ==> outputs[i].number != outputs[j].number)
    && (forall f, g | f in outputs && g in v[level + 1] :: f.number != g.number)
    && (forall l, f, g | 0 <= l < NUM_LEVELS && f in outputs && g in v[l] && !Taken(level, inputs0, inputs1, l, g) ::
          f.number != g.number)
  }

  lemma SwapKeepsNumbers(v: Version, nextFile: nat, level: nat, inputs0: seq<File>, inputs1: seq<File>,
                         outputs: seq<File>, v': Version, nextFile': nat)
    requires level + 1 < NUM_LEVELS && NumbersIdentify(v)
    requires forall l, f | 0 <= l < NUM_LEVELS && f in v[l] :: f.number < nextFile
    requires Replaces(v, level, FileSet(inputs0), FileSet(inputs1), FileSet(outputs), v')
    requires NewNumbers(v, level, inputs0, inputs1, outputs)
    requires nextFile <= nextFile' && forall f :: f in outputs ==> f.number < nextFile'
    ensures NumbersIdentify(v') && forall l, f | 0 <= l < NUM_LEVELS && f in v'[l] :: f.number < nextFile'
  {
    forall f, g | f in outputs && g in outputs && f.number == g.number ensures f == g {
      var i :| 0 <= i < |outputs| && outputs[i] == f;
      var j :| 0 <= j < |outputs| && outputs[j] == g;
    }
    ReplaceKeepsNumbers(v, level, inputs0, inputs1, outputs, v');
    forall l, f | 0 <= l < NUM_LEVELS && f in v'[l] ensures f.number < nextFile' {
      FileAfterCompaction(v, level, inputs0, inputs1, outputs, v', l, f);
    }
  }

  lemma SwapReplaces(v: Version, nextFile: nat, level: nat, inputs0: seq<File>, inputs1: seq<File>, outputs: seq<File>,
                     v': Version)
    requires Sound(v, nextFile) && level + 1 < NUM_LEVELS && Selected(v, level, inputs0, inputs1)
    requires Installs(v, CompactionEdit(level, inputs0, inputs1, outputs), v')
    requires NewNumbers(v, level, inputs0, inputs1, outputs)
    ensures Clear(v, level, inputs0, inputs1) &&
      Replaces(v, level, FileSet(inputs0), FileSet(inputs1), FileSet(outputs), v')
    ensures (forall f :: f in inputs0 ==> f in v[level]) && (forall f :: f in inputs1 ==> f in v[level + 1])
    ensures forall l :: 0 <= l < NUM_LEVELS ==> InOrder(v'[l])
  {
    SelectionIsClear(v, level, inputs0, inputs1);
    hide VersionOk, NumbersIdentify, Selected, FileOk, Disjoint, InOrder, NewerThan;
    CompactionEditReplaces(v, level, inputs0, inputs1, outputs, v');
  }

  /** The part of the invariant every rearrangement of files must re-establish. */
  lemma SwapKeepsSound(v: Version, nextFile: nat, level: nat, inputs0: seq<File>, inputs1: seq<File>,
                       outputs: seq<File>,
                       v': Version, nextFile': nat)
    requires Sound(v, nextFile) && level + 1 < NUM_LEVELS && Selected(v, level, inputs0, inputs1)
    requires Installs(v, CompactionEdit(level, inputs0, inputs1, outputs), v')
    requires (forall f :: f in outputs ==> FileOk(f)) && Disjoint(outputs)
    requires FileEntries(outputs) <= FileEntries(inputs0 + inputs1)
    requires NewNumbers(v, level, inputs0, inputs1, outputs)
    requires nextFile <= nextFile' && forall f :: f in outputs ==> f.number < nextFile'
    ensures Sound(v', nextFile')
    ensures VersionEntries(v') == VersionEntries(v) - FileEntries(inputs0 + inputs1) + FileEntries(outputs)
  {
    hide VersionOk, NumbersIdentify, Selected, Installs, CompactionEdit, NewNumbers, FileOk, Disjoint, Replaces,
      InOrder, Clear;
    SwapReplaces(v, nextFile, level, inputs0, inputs1, outputs, v');
    ReplaceKeepsVersionOk(v, level, inputs0, inputs1, outputs, v');
    SwapKeepsNumbers(v, nextFile, level, inputs0, inputs1, outputs, v', nextFile');
    EntriesAfterCompaction(v, level, inputs0, inputs1, outputs, v');
  }

  lemma FreshOutputs(v: Version, nextFile: nat, level: nat, inputs0: seq<File>, inputs1: seq<File>, outputs: seq<File>)
    requires level + 1 < NUM_LEVELS && ConsecutiveFrom(outputs, nextFile)
    requires forall l, f | 0 <= l < NUM_LEVELS && f in v[l] :: f.number < nextFile
    ensures NewNumbers(v, level, inputs0, inputs1, outputs)
    ensures forall f :: f in outputs ==> f.number < nextFile + |outputs|
  {
  }

  /** Rearranging files leaves everything else of the invariant alone. */
  lemma RearrangedInv(s: State, s': State)
    requires Inv(s) && Sound(s'.version, s'.nextFile) && SnapshotsOk(s')
    requires s' == s.(version := s'.version, nextFile := s'.nextFile, horizon := s'.horizon)
    requires VersionEntries(s'.version) <= VersionEntries(s.version)
    ensures Inv(s')
  {
    hide Sound;
  }

  /** The oldest snapshot bounds the new horizon. */
  lemma HorizonStaysLive(s: State, s': State)
    requires SnapshotsOk(s)
    requires s' == s.(version := s'.version, nextFile := s'.nextFile,
                      horizon := if s.horizon < SmallestSnapshot(s) then SmallestSnapshot(s) else s.horizon)
    ensures SnapshotsOk(s') && s'.horizon == SmallestSnapshot(s) >= s.horizon
  {
  }

  lemma SwappedEntries(s: State, s': State, input: set<Entry>, output: set<Entry>)
    requires Layered(s) && s'.mem == s.mem && s'.imm == s.imm
    requires input <= VersionEntries(s.version) && output <= input
    requires VersionEntries(s'.version) == VersionEntries(s.version) - input + output
    ensures AllEntries(s) == input + (AllEntries(s) - input)
    ensures AllEntries(s') == output + (AllEntries(s) - input)
  {
    MemTablesApart(Elements(s.mem), Elements(ImmEntries(s)), VersionEntries(s.version), input);
  }

  lemma CompactSwaps(s: State, level: nat, inputs0: seq<File>, inputs1: seq<File>, merged: seq<Entry>,
                     outputs: seq<File>, s': State)
    requires Sound(s.version, s.nextFile) && CompactStep(s, level, inputs0, inputs1, merged, outputs, s')
    ensures Sound(s'.version, s'.nextFile) && Elements(merged) <= VersionEntries(s.version)
    ensures FileEntries(outputs) <= Elements(merged)
    ensures VersionEntries(s'.version) == VersionEntries(s.version) - Elements(merged) + FileEntries(outputs)
  {
    FreshOutputs(s.version, s.nextFile, level, inputs0, inputs1, outputs);
    hide VersionOk, NumbersIdentify, NewNumbers, Installs;
    assert Survivors(merged, SmallestSnapshot(s), BaseKeys(s.version, level)) <= Elements(merged);
    SwapKeepsSound(s.version, s.nextFile, level, inputs0, inputs1, outputs, s'.version, s'.nextFile);
    InputsWithinVersion(s.version, level, inputs0, inputs1);
  }

  lemma CompactKeepsInv(s: State, level: nat, inputs0: seq<File>, inputs1: seq<File>, merged: seq<Entry>,
                        outputs: seq<File>, s': State)
    requires Inv(s) && CompactStep(s, level, inputs0, inputs1, merged, outputs, s')
    ensures Inv(s')
  {
    hide Sound, Selected, Installs;
    CompactSwaps(s, level, inputs0, inputs1, merged, outputs, s');
    HorizonStaysLive(s, s');
    RearrangedInv(s, s');
  }

  lemma InputsWithinVersion(v: Version, level: nat, inputs0: seq<File>, inputs1: seq<File>)
    requires level + 1 < NUM_LEVELS && Selected(v, level, inputs0, inputs1)
    ensures FileEntries(inputs0 + inputs1) <= VersionEntries(v)
  {
    forall e | e in FileEntries(inputs0 + inputs1) ensures e in VersionEntries(v) {
      var f :| f in inputs0 + inputs1 && e in f.entries;
      if f in inputs0 {
        assert e in FileEntries(v[level]);
      } else {
        assert e in FileEntries(v[level + 1]);
      }
    }
  }

  lemma MemTablesApart(mem: set<Entry>, imm: set<Entry>, files: set<Entry>, input: set<Entry>)
    requires NewerThan(mem, imm + files) && NewerThan(imm, files) && input <= files
    ensures mem !! input && imm !! input
  {
    NewerIsApart(mem, imm + files);
    NewerIsApart(imm, files);
  }

  /** A moved file keeps its number, which no other file has. */
  lemma MovedNumber(v: Version, level: nat, file: File)
    requires NumbersIdentify(v) && level + 1 < NUM_LEVELS && file in v[level]
    ensures NewNumbers(v, level, [file], [], [file])
  {
    assert forall l, g | 0 <= l < NUM_LEVELS && g in v[l] && g.number == file.number :: l == level && g == file;
  }

  lemma SelectedFile(v: Version, nextFile: nat, level: nat, file: File)
    requires Sound(v, nextFile) && level + 1 < NUM_LEVELS && Selected(v, level, [file], [])
    ensures file in v[level] && FileOk(file) && file.number < nextFile && NewNumbers(v, level, [file], [], [file])
  {
    hide Disjoint, NumberedByAge, ShallowerIsNewer, Unique, NewNumbers;
    assert file in [file];
    MovedNumber(v, level, file);
  }

  lemma MoveSwaps(v: Version, nextFile: nat, level: nat, file: File, v': Version)
    requires Sound(v, nextFile) && level + 1 < NUM_LEVELS && Selected(v, level, [file], [])
    requires Installs(v, CompactionEdit(level, [file], [], [file]), v')
    ensures Sound(v', nextFile) && VersionEntries(v') == VersionEntries(v)
  {
    hide Sound, NewNumbers, Installs, Selected, FileOk;
    assert [file] + [] == [file];
    InputsWithinVersion(v, level, [file], []);
    SelectedFile(v, nextFile, level, file);
    SwapKeepsSound(v, nextFile, level, [file], [], [file], v', nextFile);
  }

  lemma MoveKeepsInv(s: State, level: nat, file: File, s': State)
    requires Inv(s) && MoveStep(s, level, file, s')
    ensures Inv(s') && (ReadsHistory(s) ==> ReadsHistory(s'))
  {
    hide Sound, Selected, Installs;
    MoveSwaps(s.version, s.nextFile, level, file, s'.version);
    assert AllEntries(s') == AllEntries(s);
    RearrangedInv(s, s');
  }

  lemma TakeKeepsInv(s: State, s': State)
    requires Inv(s) && TakeSnapshotStep(s, s')
    ensures Inv(s') && (ReadsHistory(s) ==> ReadsHistory(s'))
  {
    hide Sound;
    assert AllEntries(s') == AllEntries(s);
  }

  lemma ReleaseKeepsInv(s: State, index: nat, s': State)
    requires Inv(s) && ReleaseSnapshotStep(s, index, s')
    ensures Inv(s') && (ReadsHistory(s) ==> ReadsHistory(s'))
  {
    hide Sound;
    assert forall j :: 0 <= j < |s'.snapshots| ==>
      s'.snapshots[j] == if j < index then s.snapshots[j] else s.snapshots[j + 1];
    assert AllEntries(s') == AllEntries(s);
  }

  lemma NextKeepsInv(s: State, a: Action, s': State)
    requires Inv(s) && Next(s, a, s')
    ensures Inv(s') && (ReadsHistory(s) && !a.Compact? ==> ReadsHistory(s'))
  {
    hide Inv, ReadsHistory;
    match a
    case Write(batch) => WriteKeepsInv(s, batch, s');
    case SwitchMemTable => SwitchKeepsInv(s, s');
    case FlushEmpty => SwitchKeepsInv(s, s');
    case Flush(level, file) => FlushKeepsInv(s, level, file, s');
    case Compact(level, inputs0, inputs1, merged, outputs) =>
      CompactKeepsInv(s, level, inputs0, inputs1, merged, outputs, s');
    case MoveFile(level, file) => MoveKeepsInv(s, level, file, s');
    case TakeSnapshot => TakeKeepsInv(s, s');
    case ReleaseSnapshot(index) => ReleaseKeepsInv(s, index, s');
  }

  ghost predicate IsRun(states: seq<State>, actions: seq<Action>) {
    && |states| == |actions| + 1 && Initial(states[0])
    && forall i :: 0 <= i < |actions| ==> Next(states[i], actions[i], states[i + 1])
  }

  lemma InitialInv(s: State)
    requires Initial(s)
    ensures Inv(s) && ReadsHistory(s)
  {
    assert forall l :: 0 <= l < NUM_LEVELS ==> s.version[l] == [];
    assert VersionEntries(s.version) == {};
    assert AllEntries(s) == {};
  }

  /** The invariant holds in every state of every run. */
  lemma {:induction false} RunsKeepInv(states: seq<State>, actions: seq<Action>, n: nat)
    requires IsRun(states, actions) && n < |states|
    ensures Inv(states[n])
  {
    hide Inv, Next;
    if n == 0 {
      InitialInv(states[0]);
    } else {
      RunsKeepInv(states, actions, n - 1);
      NextKeepsInv(states[n - 1], actions[n - 1], states[n]);
    }
  }
}
