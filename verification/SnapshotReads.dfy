/**
 What compactions do to reads.  A compaction is invisible exactly when it drops
 no tombstone over a readable value left at the next level; the theorems over
 runs turn this into conditions on files.
 */
module SnapshotReads {
  import opened Keys
  import opened Levels
  import opened InputSelection
  import opened CompactionRules
  import opened CompactionWork
  import opened VersionBuilder
  import opened Installation
  import opened Database

  /** No file left at the next level holds an older version of a merged key. */
  ghost predicate LeavesNothingOlder(v: Version, level: nat, inputs1: seq<File>, merged: seq<Entry>)
    requires level + 1 < NUM_LEVELS
  {
    forall r, e, f | r in v[level + 1] && r !in inputs1 && e in merged && f in r.entries && f.ik.user == e.ik.user ::
      f.ik.seqno > e.ik.seqno
  }

  lemma DeeperFileShields(v: Version, level: nat, l: nat, r: File, f: Entry)
    requires level + 2 <= l < NUM_LEVELS && r in v[l] && FileOk(r) && f in r.entries
    ensures !BaseKeys(v, level)(f.ik.user)
  {
    EntryWithinFile(r, f);
  }

  lemma ShallowerVersionIsNewer(v: Version, i: nat, j: nat, r: File, g: File, f: Entry, e: Entry)
    requires ShallowerIsNewer(v) && i < j < NUM_LEVELS && f.ik.user == e.ik.user
    requires r in v[i] && f in r.entries && g in v[j] && e in g.entries
    ensures f.ik.seqno > e.ik.seqno
  {
    assert f in FileEntries(v[i]) && e in FileEntries(v[j]);
  }

  lemma NewerFileHolds(r: File, g: File, f: Entry, e: Entry)
    requires NewerThan(Elements(r.entries), Elements(g.entries))
    requires f in r.entries && e in g.entries && f.ik.user == e.ik.user
    ensures f.ik.seqno > e.ik.seqno
  {
  }

  /** What selection says about one file left behind and one chosen. */
  lemma LeftAndChosen(v: Version, level: nat, inputs0: seq<File>, inputs1: seq<File>, g: File, r: File)
    requires VersionOk(v) && level + 1 < NUM_LEVELS && Selected(v, level, inputs0, inputs1) && g in inputs0 + inputs1
    ensures ShallowerIsNewer(v) && (g in inputs0 ==> g in v[level]) && (g !in inputs0 ==> g in v[level + 1])
    ensures forall l :: 0 <= l < NUM_LEVELS && r in v[l] ==> FileOk(r)
    ensures g in inputs0 && r in v[level] && r !in inputs0 ==> NewerThan(Elements(r.entries), Elements(g.entries))
  {
    SelectionIsClear(v, level, inputs0, inputs1);
    hide Selected, ShallowerIsNewer, NewerThan, FileOk, Disjoint, NumberedByAge, Unique;
  }

  /** Outside the next level, what is left is newer than a merged version of its key or shields the key. */
  lemma LeftInVersion(v: Version, level: nat, inputs0: seq<File>, inputs1: seq<File>, l: nat, r: File, g: File,
                      e: Entry, f: Entry)
    requires VersionOk(v) && level + 1 < NUM_LEVELS && Selected(v, level, inputs0, inputs1)
    requires l < NUM_LEVELS && l != level + 1 && r in v[l] && r !in inputs0 && f in r.entries
    requires g in inputs0 + inputs1 && e in g.entries && f.ik.user == e.ik.user
    ensures f.ik.seqno > e.ik.seqno || !BaseKeys(v, level)(f.ik.user)
  {
    hide VersionOk, Selected, ShallowerIsNewer, NewerThan, FileOk, IsBase, BaseKeys;
    LeftAndChosen(v, level, inputs0, inputs1, g, r);
    if l > level + 1 {
      DeeperFileShields(v, level, l, r, f);
    } else if g in inputs0 && l == level {
      NewerFileHolds(r, g, f, e);
    } else {
      ShallowerVersionIsNewer(v, l, if g in inputs0 then level else level + 1, r, g, f, e);
    }
  }

  lemma HoldingFile(files: seq<File>, e: Entry) returns (g: File)
    requires e in FileEntries(files)
    ensures g in files && e in g.entries
  {
    g :| g in files && e in g.entries;
  }

  lemma HoldingLevel(v: Version, f: Entry) returns (l: nat, r: File)
    requires f in VersionEntries(v)
    ensures l < NUM_LEVELS && r in v[l] && f in r.entries
  {
    l :| l < NUM_LEVELS && f in FileEntries(v[l]);
    r := HoldingFile(v[l], f);
  }

  /** Every entry outside the inputs is newer than a merged version of its key, or keeps the key off its base level. */
  lemma LeftIsNewerOrShields(v: Version, level: nat, inputs0: seq<File>, inputs1: seq<File>, merged: seq<Entry>,
                             e: Entry, f: Entry)
    requires VersionOk(v) && level + 1 < NUM_LEVELS && Selected(v, level, inputs0, inputs1)
    requires Elements(merged) == FileEntries(inputs0 + inputs1) && LeavesNothingOlder(v, level, inputs1, merged)
    requires e in Elements(merged) && f in VersionEntries(v) && f !in Elements(merged) && f.ik.user == e.ik.user
    ensures f.ik.seqno > e.ik.seqno || !BaseKeys(v, level)(f.ik.user)
  {
    hide VersionOk, Selected, BaseKeys, IsBase;
    var g := HoldingFile(inputs0 + inputs1, e);
    var l, r := HoldingLevel(v, f);
    assert r !in inputs0 + inputs1;
    if l != level + 1 {
      LeftInVersion(v, level, inputs0, inputs1, l, r, g, e, f);
    }
  }

  /**
   On every reachable state the drop rules are invisible as soon as the next
   level leaves nothing older behind: everything else outside the inputs is
   newer, or shields its key from the tombstone rule.
   */
  lemma RecentRemainderIsEnough(s: State, level: nat, inputs0: seq<File>, inputs1: seq<File>, merged: seq<Entry>)
    requires Inv(s) && level + 1 < NUM_LEVELS && Selected(s.version, level, inputs0, inputs1)
    requires Sorted(merged) && Elements(merged) == FileEntries(inputs0 + inputs1)
    requires LeavesNothingOlder(s.version, level, inputs1, merged)
    ensures NothingResurfaces(merged, AllEntries(s) - Elements(merged), SmallestSnapshot(s), BaseKeys(s.version, level))
  {
    hide VersionOk, Selected, LeavesNothingOlder, NothingResurfaces, ReadsPreserved, BaseKeys, IsBase, Unique;
    var v, rest := s.version, AllEntries(s) - Elements(merged);
    InputsWithinVersion(v, level, inputs0, inputs1);
    UniqueInputs(s, merged);
    forall i, f | 0 <= i < |merged| && f in rest && f.ik.user == merged[i].ik.user
      ensures f.ik.seqno > merged[i].ik.seqno || !BaseKeys(v, level)(f.ik.user)
    {
      assert merged[i] in Elements(merged);
      if f in VersionEntries(v) {
        LeftIsNewerOrShields(v, level, inputs0, inputs1, merged, merged[i], f);
      }
    }
    RecencyPreventsResurfacing(merged, rest, SmallestSnapshot(s), BaseKeys(v, level));
  }

  lemma UniqueInputs(s: State, merged: seq<Entry>)
    requires HistoryOk(s) && Elements(merged) <= AllEntries(s)
    ensures Unique(Elements(merged) + (AllEntries(s) - Elements(merged)))
    ensures forall i :: 0 <= i < |merged| ==> Parses(merged[i].ik)
  {
    hide AllEntries;
    assert forall i :: 0 <= i < |merged| ==> merged[i] in Elements(merged);
  }

  /** No user key runs from one file into the next. */
  ghost predicate KeysUnsplit(files: seq<File>) {
    forall f, g | f in files && g in files && f != g ::
      f.largest.user < g.smallest.user || g.largest.user < f.smallest.user
  }

  lemma UnsplitSharesNoKey(parents: seq<File>, lo: UserKey, hi: UserKey, inputs0: seq<File>, r: File, g: File,
                           f: Entry, e: Entry)
    requires KeysUnsplit(parents) && IsUserRange(inputs0, lo, hi) && FileOk(r) && FileOk(g)
    requires r in parents && r !in OverlappingFiles(parents, Some(lo), Some(hi))
    requires g in inputs0 + OverlappingFiles(parents, Some(lo), Some(hi))
    requires f in r.entries && e in g.entries
    ensures f.ik.user != e.ik.user
  {
    hide FileOk;
    EntryWithinFile(r, f);
    EntryWithinFile(g, e);
    assert !Overlaps(r, Some(lo), Some(hi));
  }

  /** A next level whose files meet on no user key leaves nothing older behind, whatever is compacted into it. */
  lemma UnsplitLevelIsEnough(v: Version, level: nat, inputs0: seq<File>, inputs1: seq<File>, merged: seq<Entry>)
    requires VersionOk(v) && level + 1 < NUM_LEVELS && Selected(v, level, inputs0, inputs1)
    requires Elements(merged) == FileEntries(inputs0 + inputs1) && KeysUnsplit(v[level + 1])
    ensures LeavesNothingOlder(v, level, inputs1, merged)
  {
    var lo, hi :| IsUserRange(inputs0, lo, hi) && inputs1 == OverlappingFiles(v[level + 1], Some(lo), Some(hi));
    hide VersionOk, Selected, KeysUnsplit, FileOk, IsUserRange;
    forall r, e, f | r in v[level + 1] && r !in inputs1 && e in merged && f in r.entries
      ensures f.ik.user != e.ik.user
    {
      assert e in Elements(merged);
      var g := HoldingFile(inputs0 + inputs1, e);
      LeftAndChosen(v, level, inputs0, inputs1, g, r);
      LeftAndChosen(v, level, inputs0, inputs1, g, g);
      UnsplitSharesNoKey(v[level + 1], lo, hi, inputs0, r, g, f, e);
    }
  }

  // ----- exactly when a compaction is invisible -----

  /** The entries of the next level that the compaction leaves where they are. */
  ghost function LeftAtNext(v: Version, level: nat, inputs1: seq<File>): set<Entry>
    requires level + 1 < NUM_LEVELS
  {
    set r, e | r in v[level + 1] && r !in inputs1 && e in r.entries :: e
  }

  /** No tombstone that is dropped, and was the newest version of its key, lies over a value left at the next level. */
  ghost predicate NothingReadableLeft(s: State, level: nat, inputs1: seq<File>, merged: seq<Entry>)
    requires level + 1 < NUM_LEVELS
  {
    forall i :: 0 <= i < |merged|
      && ObsoleteTombstone(merged, SmallestSnapshot(s), BaseKeys(s.version, level), i)
      && IsNewest(AllEntries(s), merged[i].ik.user, SmallestSnapshot(s), merged[i])
      ==> Read(LeftAtNext(s.version, level, inputs1), merged[i].ik.user, SmallestSnapshot(s)) == Absent
  }

  /**
   An entry outside the inputs that is no newer than a merged version of a base-level key is left at the next level.
   */
  lemma OlderIsLeftAtNext(s: State, level: nat, inputs0: seq<File>, inputs1: seq<File>, merged: seq<Entry>, e: Entry,
                          f: Entry)
    requires Inv(s) && level + 1 < NUM_LEVELS && Selected(s.version, level, inputs0, inputs1)
    requires Elements(merged) == FileEntries(inputs0 + inputs1) && e in Elements(merged)
    requires f in AllEntries(s) && f !in Elements(merged) && f.ik.user == e.ik.user && f.ik.seqno <= e.ik.seqno
    requires BaseKeys(s.version, level)(f.ik.user)
    ensures f in LeftAtNext(s.version, level, inputs1)
  {
    hide VersionOk, Selected, BaseKeys, IsBase, NumbersIdentify, InOrder, Unique;
    InputsWithinVersion(s.version, level, inputs0, inputs1);
    assert e in VersionEntries(s.version);
    assert f in VersionEntries(s.version);
    var g := HoldingFile(inputs0 + inputs1, e);
    var l, r := HoldingLevel(s.version, f);
    assert r !in inputs0 + inputs1;
    if l != level + 1 {
      LeftInVersion(s.version, level, inputs0, inputs1, l, r, g, e, f);
    }
  }

  lemma InputsOfLevels(v: Version, level: nat, inputs0: seq<File>, inputs1: seq<File>)
    requires level + 1 < NUM_LEVELS && Selected(v, level, inputs0, inputs1)
    ensures (forall f :: f in inputs0 ==> f in v[level]) && (forall f :: f in inputs1 ==> f in v[level + 1])
  {
  }

  lemma LeftIsOutsideInputs(s: State, level: nat, inputs0: seq<File>, inputs1: seq<File>, f: Entry)
    requires Inv(s) && level + 1 < NUM_LEVELS && Selected(s.version, level, inputs0, inputs1)
    requires f in LeftAtNext(s.version, level, inputs1)
    ensures f in AllEntries(s) && f !in FileEntries(inputs0 + inputs1)
  {
    hide VersionOk, NumbersIdentify, InOrder, HistoryOk, Layered, SnapshotsOk, Selected;
    var r :| r in s.version[level + 1] && r !in inputs1 && f in r.entries;
    FileWithinVersion(s.version, level + 1, r);
    assert f in Elements(r.entries);
    InputsOfLevels(s.version, level, inputs0, inputs1);
    KeptFileSharesNothing(s.version, level, inputs0, inputs1, level + 1, r);
  }

  lemma OnlyNextLevelMatters(s: State, level: nat, inputs0: seq<File>, inputs1: seq<File>, merged: seq<Entry>, i: nat)
    requires Inv(s) && level + 1 < NUM_LEVELS && Selected(s.version, level, inputs0, inputs1)
    requires Elements(merged) == FileEntries(inputs0 + inputs1) && i < |merged|
    requires ObsoleteTombstone(merged, SmallestSnapshot(s), BaseKeys(s.version, level), i)
    requires IsNewest(AllEntries(s), merged[i].ik.user, SmallestSnapshot(s), merged[i])
    ensures Read(AllEntries(s) - Elements(merged), merged[i].ik.user, SmallestSnapshot(s))
         == Read(LeftAtNext(s.version, level, inputs1), merged[i].ik.user, SmallestSnapshot(s))
  {
    hide Sound, Selected, Layered, SnapshotsOk, BaseKeys, LeftAtNext;
    var k, snapshot, left := merged[i].ik.user, SmallestSnapshot(s), LeftAtNext(s.version, level, inputs1);
    var rest := AllEntries(s) - Elements(merged);
    forall f | f in rest && Visible(f, k, snapshot) ensures f in left {
      OlderIsLeftAtNext(s, level, inputs0, inputs1, merged, merged[i], f);
    }
    forall f | f in left ensures f in rest {
      LeftIsOutsideInputs(s, level, inputs0, inputs1, f);
    }
    ReadAgrees(rest, left, k, snapshot, snapshot);
  }

  /** The exact condition of the drop rules, in terms of the next level alone. */
  lemma OnlyTheNextLevelResurfaces(s: State, level: nat, inputs0: seq<File>, inputs1: seq<File>, merged: seq<Entry>)
    requires Inv(s) && level + 1 < NUM_LEVELS && Selected(s.version, level, inputs0, inputs1)
    requires Elements(merged) == FileEntries(inputs0 + inputs1)
    ensures NothingResurfaces(merged, AllEntries(s) - Elements(merged), SmallestSnapshot(s), BaseKeys(s.version, level))
       <==> NothingReadableLeft(s, level, inputs1, merged)
  {
    hide Sound, Selected, Layered, SnapshotsOk, BaseKeys, LeftAtNext, ObsoleteTombstone, IsNewest;
    assert Sound(s.version, s.nextFile);
    InputsWithinVersion(s.version, level, inputs0, inputs1);
    UniqueInputs(s, merged);
    var rest := AllEntries(s) - Elements(merged);
    assert Elements(merged) + rest == AllEntries(s) && rest + Unparsable(merged) == rest;
    forall i | 0 <= i < |merged|
      && ObsoleteTombstone(merged, SmallestSnapshot(s), BaseKeys(s.version, level), i)
      && IsNewest(AllEntries(s), merged[i].ik.user, SmallestSnapshot(s), merged[i])
      ensures Read(rest, merged[i].ik.user, SmallestSnapshot(s))
           == Read(LeftAtNext(s.version, level, inputs1), merged[i].ik.user, SmallestSnapshot(s))
    {
      OnlyNextLevelMatters(s, level, inputs0, inputs1, merged, i);
    }
  }

  lemma PreservedChain(history: set<Entry>, all: set<Entry>, all': set<Entry>, horizon: nat, horizon': nat)
    requires ReadsPreserved(history, all, horizon) && horizon <= horizon'
    ensures ReadsPreserved(history, all', horizon') <==> ReadsPreserved(all, all', horizon')
  {
    forall k, t | t >= horizon' ensures Read(history, k, t) == Read(all, k, t) {
    }
  }

  /**
   A compaction keeps every live snapshot reading the history if and only if no
   dropped newest tombstone lies over a readable value left at the next level.
   */
  lemma CompactionIsInvisibleIff(s: State, level: nat, inputs0: seq<File>, inputs1: seq<File>, merged: seq<Entry>,
                                 outputs: seq<File>, s': State)
    requires Inv(s) && ReadsHistory(s) && CompactStep(s, level, inputs0, inputs1, merged, outputs, s')
    ensures ReadsHistory(s') <==> NothingReadableLeft(s, level, inputs1, merged)
  {
    hide Sound, Selected, Installs, BaseKeys, ReadsPreserved, NothingResurfaces, NothingReadableLeft, Unique;
    var rest, snapshot, base := AllEntries(s) - Elements(merged), SmallestSnapshot(s), BaseKeys(s.version, level);
    CompactSwaps(s, level, inputs0, inputs1, merged, outputs, s');
    SwappedEntries(s, s', Elements(merged), FileEntries(outputs));
    HorizonStaysLive(s, s');
    UniqueInputs(s, merged);
    DropsAreInvisibleIff(merged, rest, snapshot, base);
    OnlyTheNextLevelResurfaces(s, level, inputs0, inputs1, merged);
    PreservedChain(s.history, AllEntries(s), AllEntries(s'), s.horizon, snapshot);
  }

  // ----- runs -----

  ghost predicate Recent(s: State, a: Action) {
    a.Compact? && a.level + 1 < NUM_LEVELS ==> LeavesNothingOlder(s.version, a.level, a.inputs1, a.merged)
  }

  lemma NextKeepsReads(s: State, a: Action, s': State)
    requires Inv(s) && ReadsHistory(s) && Next(s, a, s') && Recent(s, a)
    ensures ReadsHistory(s')
  {
    hide Inv, ReadsHistory, LeavesNothingOlder, NothingReadableLeft, NothingResurfaces;
    NextKeepsInv(s, a, s');
    if a.Compact? {
      var Compact(level, inputs0, inputs1, merged, outputs) := a;
      RecentRemainderIsEnough(s, level, inputs0, inputs1, merged);
      OnlyTheNextLevelResurfaces(s, level, inputs0, inputs1, merged);
      CompactionIsInvisibleIff(s, level, inputs0, inputs1, merged, outputs, s');
    }
  }

  /** If no compaction of the run leaves an older version of a merged key at its next level, reads never change. */
  lemma {:induction false} RunsReadHistory(states: seq<State>, actions: seq<Action>, n: nat)
    requires IsRun(states, actions) && n < |states|
    requires forall i :: 0 <= i < n ==> Recent(states[i], actions[i])
    ensures ReadsHistory(states[n])
  {
    hide Inv, Next, ReadsHistory, Recent;
    if n == 0 {
      InitialInv(states[0]);
    } else {
      RunsReadHistory(states, actions, n - 1);
      RunsKeepInv(states, actions, n - 1);
      NextKeepsReads(states[n - 1], actions[n - 1], states[n]);
    }
  }

  /** In every state of such a run every live snapshot, and the latest sequence, read the write history. */
  lemma SnapshotsReadHistory(states: seq<State>, actions: seq<Action>, n: nat, k: UserKey, snapshot: nat)
    requires IsRun(states, actions) && n < |states|
    requires forall i :: 0 <= i < n ==> Recent(states[i], actions[i])
    requires snapshot in states[n].snapshots || snapshot == states[n].lastSequence
    ensures Read(AllEntries(states[n]), k, snapshot) == Read(states[n].history, k, snapshot)
  {
    RunsReadHistory(states, actions, n);
    RunsKeepInv(states, actions, n);
    PreservedAt(states[n], k, snapshot);
  }

  // ----- runs that never cut between two versions of a key -----

  ghost predicate CleanCut(a: Action) {
    a.Compact? ==> KeysUnsplit(a.outputs)
  }

  ghost predicate Unsplit(v: Version) {
    forall l :: 1 <= l < NUM_LEVELS ==> KeysUnsplit(v[l])
  }

  lemma SubsetUnsplit(files: seq<File>, files': seq<File>)
    requires KeysUnsplit(files) && FileSet(files') <= FileSet(files)
    ensures KeysUnsplit(files')
  {
    InFileSet(files);
    InFileSet(files');
  }

  lemma AddedUnsplit(files: seq<File>, f: File, files': seq<File>)
    requires KeysUnsplit(files) && FileSet(files') == FileSet(files) + {f}
    requires FileOk(f) && (forall g :: g in files ==> FileOk(g))
    requires !LevelMeets(files, f.smallest.user, f.largest.user)
    ensures KeysUnsplit(files')
  {
    InFileSet(files);
    InFileSet(files');
    NoMeetingMeansNoSharedKey(files, f);
  }

  /** A file beside the inputs shares no user-key range with a file made of their entries. */
  lemma OutputUnsplit(parents: seq<File>, lo: UserKey, hi: UserKey, inputs0: seq<File>, r: File, o: File)
    requires (forall f :: f in parents ==> FileOk(f)) && Disjoint(parents) && KeysUnsplit(parents)
    requires (forall f :: f in inputs0 ==> FileOk(f)) && IsUserRange(inputs0, lo, hi) && lo <= hi
    requires r in parents && r !in OverlappingFiles(parents, Some(lo), Some(hi))
    requires FileOk(o) && Elements(o.entries) <= FileEntries(inputs0 + OverlappingFiles(parents, Some(lo), Some(hi)))
    ensures r.largest.user < o.smallest.user || o.largest.user < r.smallest.user
  {
    var inputs1 := OverlappingFiles(parents, Some(lo), Some(hi));
    ParentsStandAside(parents, lo, hi, inputs0, r);
    var first, last := o.entries[0], o.entries[|o.entries| - 1];
    assert first in Elements(o.entries) && last in Elements(o.entries);
    var f := HoldingFile(inputs0 + inputs1, first);
    var g := HoldingFile(inputs0 + inputs1, last);
    EntryWithinFile(r, r.entries[0]);
    StandsApart(parents, lo, hi, inputs0, r, f, first);
    StandsApart(parents, lo, hi, inputs0, r, g, last);
    assert Less(r.largest, f.smallest) == Less(r.largest, g.smallest);
  }

  /** The parent's range lies on one side of every entry of an input, by user key. */
  lemma StandsApart(parents: seq<File>, lo: UserKey, hi: UserKey, inputs0: seq<File>, r: File, f: File, e: Entry)
    requires (forall f :: f in parents ==> FileOk(f)) && Disjoint(parents) && KeysUnsplit(parents)
    requires (forall f :: f in inputs0 ==> FileOk(f)) && IsUserRange(inputs0, lo, hi)
    requires r in parents && r !in OverlappingFiles(parents, Some(lo), Some(hi))
    requires f in inputs0 + OverlappingFiles(parents, Some(lo), Some(hi)) && e in f.entries
    ensures Less(r.largest, f.smallest) ==> r.largest.user < e.ik.user
    ensures Less(f.largest, r.smallest) ==> e.ik.user < r.smallest.user
  {
    EntryWithinFile(f, e);
    assert FileOk(r);
    EntryWithinFile(r, r.entries[0]);
    assert !Overlaps(r, Some(lo), Some(hi));
  }

  lemma NextLevelUnsplit(v: Version, level: nat, inputs0: seq<File>, inputs1: seq<File>, outputs: seq<File>,
                         files': seq<File>)
    requires VersionOk(v) && level + 1 < NUM_LEVELS && Selected(v, level, inputs0, inputs1)
    requires KeysUnsplit(v[level + 1]) && KeysUnsplit(outputs)
    requires forall o :: o in outputs ==> FileOk(o) && Elements(o.entries) <= FileEntries(inputs0 + inputs1)
    requires FileSet(files') == FileSet(v[level + 1]) - FileSet(inputs1) + FileSet(outputs)
    ensures KeysUnsplit(files')
  {
    hide VersionOk, FileOk, IsUserRange, Eligible, LastOfChoice, Overlaps;
    InputsOfLevels(v, level, inputs0, inputs1);
    var lo, hi :| IsUserRange(inputs0, lo, hi) && inputs1 == OverlappingFiles(v[level + 1], Some(lo), Some(hi));
    RangeIsOrdered(v, level, inputs0, lo, hi);
    forall r, o | r in v[level + 1] && r !in inputs1 && o in outputs
      ensures r.largest.user < o.smallest.user || o.largest.user < r.smallest.user
    {
      OutputUnsplit(v[level + 1], lo, hi, inputs0, r, o);
    }
    MixedUnsplit(v[level + 1], inputs1, outputs, files');
  }

  lemma MixedUnsplit(files: seq<File>, taken: seq<File>, outputs: seq<File>, files': seq<File>)
    requires KeysUnsplit(files) && KeysUnsplit(outputs)
    requires FileSet(files') == FileSet(files) - FileSet(taken) + FileSet(outputs)
    requires forall r, o | r in files && r !in taken && o in outputs ::
               r.largest.user < o.smallest.user || o.largest.user < r.smallest.user
    ensures KeysUnsplit(files')
  {
    InFileSet(files);
    InFileSet(taken);
    InFileSet(outputs);
    InFileSet(files');
  }

  lemma RangeIsOrdered(v: Version, level: nat, inputs0: seq<File>, lo: UserKey, hi: UserKey)
    requires VersionOk(v) && level + 1 < NUM_LEVELS && IsUserRange(inputs0, lo, hi) && forall f :: f in inputs0 ==>
      f in v[level]
    ensures lo <= hi && (forall f :: f in inputs0 ==> FileOk(f))
    ensures Disjoint(v[level + 1]) && forall f :: f in v[level + 1] ==> FileOk(f)
  {
    RangesAreOrdered(v[level]);
    var f :| f in inputs0 && f.smallest.user == lo;
  }

  /** A compaction or a move into an unsplit level, with unsplit outputs, leaves every level unsplit. */
  lemma SwapKeepsUnsplit(v: Version, level: nat, inputs0: seq<File>, inputs1: seq<File>, outputs: seq<File>,
                         v': Version)
    requires VersionOk(v) && level + 1 < NUM_LEVELS && Selected(v, level, inputs0, inputs1)
    requires Unsplit(v) && KeysUnsplit(outputs)
    requires forall o :: o in outputs ==> FileOk(o) && Elements(o.entries) <= FileEntries(inputs0 + inputs1)
    requires Replaces(v, level, FileSet(inputs0), FileSet(inputs1), FileSet(outputs), v')
    ensures Unsplit(v')
  {
    hide VersionOk, Selected, KeysUnsplit, FileOk;
    forall l | 1 <= l < NUM_LEVELS ensures KeysUnsplit(v'[l]) {
      if l == level + 1 {
        NextLevelUnsplit(v, level, inputs0, inputs1, outputs, v'[l]);
      } else {
        SubsetUnsplit(v[l], v'[l]);
      }
    }
  }

  lemma CompactKeepsUnsplit(s: State, level: nat, inputs0: seq<File>, inputs1: seq<File>, merged: seq<Entry>,
                            outputs: seq<File>, s': State)
    requires Inv(s) && CompactStep(s, level, inputs0, inputs1, merged, outputs, s')
    requires Unsplit(s.version) && KeysUnsplit(outputs)
    ensures Unsplit(s'.version)
  {
    hide VersionOk, Selected, NumbersIdentify, Installs, Unsplit, KeysUnsplit, FileOk, NewNumbers;
    CompactSwaps(s, level, inputs0, inputs1, merged, outputs, s');
    FreshOutputs(s.version, s.nextFile, level, inputs0, inputs1, outputs);
    SwapReplaces(s.version, s.nextFile, level, inputs0, inputs1, outputs, s'.version);
    forall o | o in outputs ensures Elements(o.entries) <= FileEntries(inputs0 + inputs1) {
      assert Elements(o.entries) <= FileEntries(outputs);
    }
    SwapKeepsUnsplit(s.version, level, inputs0, inputs1, outputs, s'.version);
  }

  lemma MoveKeepsUnsplit(s: State, level: nat, file: File, s': State)
    requires Inv(s) && MoveStep(s, level, file, s') && Unsplit(s.version)
    ensures Unsplit(s'.version)
  {
    hide VersionOk, Selected, NumbersIdentify, Installs, Unsplit, KeysUnsplit, FileOk, NewNumbers;
    SelectedFile(s.version, s.nextFile, level, file);
    SwapReplaces(s.version, s.nextFile, level, [file], [], [file], s'.version);
    OneFile(file);
    SwapKeepsUnsplit(s.version, level, [file], [], [file], s'.version);
  }

  lemma OneFile(file: File)
    ensures [file] + [] == [file] && Elements(file.entries) <= FileEntries([file])
    ensures FileOk(file) ==> KeysUnsplit([file])
  {
  }

  lemma FlushKeepsUnsplit(s: State, level: nat, file: File, s': State)
    requires Inv(s) && FlushStep(s, level, file, s') && Unsplit(s.version)
    ensures Unsplit(s'.version)
  {
    FlushEditAdds(s.version, level, file, s'.version);
    hide Installs, KeysUnsplit, FileOk, LevelMeets;
    forall l | 1 <= l < NUM_LEVELS ensures KeysUnsplit(s'.version[l]) {
      if l == level {
        AddedUnsplit(s.version[l], file, s'.version[l]);
      } else {
        SubsetUnsplit(s.version[l], s'.version[l]);
      }
    }
  }

  lemma NextKeepsUnsplit(s: State, a: Action, s': State)
    requires Inv(s) && Next(s, a, s') && Unsplit(s.version) && CleanCut(a)
    ensures Unsplit(s'.version)
  {
    hide Inv, Unsplit;
    match a
    case Flush(level, file) => FlushKeepsUnsplit(s, level, file, s');
    case Compact(level, inputs0, inputs1, merged, outputs) =>
      CompactKeepsUnsplit(s, level, inputs0, inputs1, merged, outputs, s');
    case MoveFile(level, file) => MoveKeepsUnsplit(s, level, file, s');
    case _ =>
  }

  lemma {:induction false} RunsStayUnsplit(states: seq<State>, actions: seq<Action>, n: nat)
    requires IsRun(states, actions) && n < |states|
    requires forall i :: 0 <= i < n ==> CleanCut(actions[i])
    ensures Unsplit(states[n].version)
  {
    if n == 0 {
      assert states[0].version == [[], [], [], [], [], [], []];
    } else {
      hide Inv, Next, Unsplit, CleanCut, Initial;
      RunsStayUnsplit(states, actions, n - 1);
      RunsKeepInv(states, actions, n - 1);
      NextKeepsUnsplit(states[n - 1], actions[n - 1], states[n]);
    }
  }

  /** An unsplit version makes whatever is compacted next recent. */
  lemma UnsplitIsRecent(s: State, a: Action, s': State)
    requires Inv(s) && Next(s, a, s') && Unsplit(s.version)
    ensures Recent(s, a)
  {
    if a.Compact? {
      var Compact(level, inputs0, inputs1, merged, outputs) := a;
      assert KeysUnsplit(s.version[level + 1]);
      hide VersionOk, Selected, Installs, Unsplit, KeysUnsplit, LeavesNothingOlder;
      UnsplitLevelIsEnough(s.version, level, inputs0, inputs1, merged);
    }
  }

  /**
   If no compaction of the run cuts its outputs between two versions of a key, every live snapshot reads the history.
   */
  lemma CleanRunsReadHistory(states: seq<State>, actions: seq<Action>, n: nat, k: UserKey, snapshot: nat)
    requires IsRun(states, actions) && n < |states|
    requires forall i :: 0 <= i < n ==> CleanCut(actions[i])
    requires snapshot in states[n].snapshots || snapshot == states[n].lastSequence
    ensures Read(AllEntries(states[n]), k, snapshot) == Read(states[n].history, k, snapshot)
  {
    hide Inv, Next, Unsplit, CleanCut, Initial, Recent;
    forall i | 0 <= i < n ensures Recent(states[i], actions[i]) {
      RunsKeepInv(states, actions, i);
      RunsStayUnsplit(states, actions, i);
      UnsplitIsRecent(states[i], actions[i], states[i + 1]);
    }
    SnapshotsReadHistory(states, actions, n, k, snapshot);
  }
}
