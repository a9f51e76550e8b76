/**
 What the store reads after a crash: the tables alone read like everything ever
 flushed, so losing the memtables and replaying what the logs still have gives a
 store that reads the history of what was replayed.
 */
module Restart {
  import opened Keys
  import opened Levels
  import opened InputSelection
  import opened CompactionRules
  import opened VersionBuilder
  import opened Installation
  import opened Database
  import opened SnapshotReads

  /** Everything ever written that is no longer in a memtable. */
  ghost function Flushed(s: State): set<Entry> {
    s.history - Elements(s.mem) - Elements(ImmEntries(s))
  }

  /** The store without its memtables. */
  ghost function TablesOnly(s: State): State {
    s.(mem := [], imm := None, history := Flushed(s))
  }

  /** The memtables hold the latest writes. */
  ghost predicate ByAge(s: State) {
    && Elements(s.mem) + Elements(ImmEntries(s)) <= s.history
    && (forall e, f | e in Elements(s.mem) && f in s.history && f !in Elements(s.mem) :: e.ik.seqno > f.ik.seqno)
    && (forall e, f | e in Elements(ImmEntries(s)) && f in Flushed(s) :: e.ik.seqno > f.ik.seqno)
    && Elements(s.mem) !! Elements(ImmEntries(s))
  }

  /** Live snapshots read the history, and would do so without the memtables and what is in them. */
  ghost predicate Sturdy(s: State) {
    Inv(s) && ReadsHistory(s) && ByAge(s) && ReadsHistory(TablesOnly(s))
  }

  lemma ApartByAge(S: set<Entry>, T: set<Entry>)
    requires NewerThan(S, T)
    ensures S !! T
  {
    assert forall e | e in S && e in T :: e.ik.seqno > e.ik.seqno;
  }

  lemma NoElements()
    ensures Elements([]) == {} && Sorted([])
  {
  }

  lemma TablesOnlyInv(s: State)
    requires Inv(s)
    ensures Inv(TablesOnly(s)) && AllEntries(TablesOnly(s)) == VersionEntries(s.version) <= Flushed(s)
  {
    hide Sound;
    NoElements();
    var mem, imm, files := Elements(s.mem), Elements(ImmEntries(s)), VersionEntries(s.version);
    ApartByAge(mem, imm + files);
    ApartByAge(imm, files);
  }

  // ----- the steps of the running store -----

  /** What a step writes and what it flushes. */
  lemma WriteFlushed(s: State, batch: seq<WriteOp>, s': State)
    requires Inv(s) && ByAge(s) && WriteStep(s, batch, s')
    ensures ByAge(s') && Flushed(s') == Flushed(s)
    ensures Elements(s'.mem) == Elements(s.mem) + Numbered(batch, s.lastSequence + 1)
  {
    hide Sound, Numbered, Unique, Layered, SnapshotsOk;
    NumberedRange(batch, s.lastSequence + 1);
    assert ImmEntries(s') == ImmEntries(s);
  }

  lemma SwitchFlushed(s: State, s': State)
    requires ByAge(s) && (SwitchStep(s, s') || FlushEmptyStep(s, s'))
    ensures ByAge(s') && Flushed(s') == Flushed(s)
  {
    NoElements();
  }

  lemma FlushFlushed(s: State, level: nat, file: File, s': State)
    requires ByAge(s) && FlushStep(s, level, file, s')
    ensures ByAge(s') && Flushed(s') == Flushed(s) + Elements(ImmEntries(s))
  {
    hide Installs, LevelMeets, FileOk;
    NoElements();
  }

  lemma SameMemory(s: State, s': State)
    requires ByAge(s) && s'.mem == s.mem && s'.imm == s.imm && s'.history == s.history
    ensures ByAge(s') && Flushed(s') == Flushed(s)
  {
  }

  /** Compactions and moves do to the tables alone what they do to the store. */
  lemma TablesCompact(s: State, a: Action, s': State)
    requires Sturdy(s) && Next(s, a, s') && Recent(s, a) && (a.Compact? || a.MoveFile?)
    ensures ReadsHistory(TablesOnly(s'))
  {
    hide Inv, ReadsHistory, ByAge, Installs, Selected, LeavesNothingOlder, Flushed;
    TablesOnlyInv(s);
    SameMemory(s, s');
    assert Next(TablesOnly(s), a, TablesOnly(s'));
    NextKeepsReads(TablesOnly(s), a, TablesOnly(s'));
  }

  /** A flush adds the newest writes to the tables and to what they must read like. */
  lemma TablesFlush(s: State, level: nat, file: File, s': State)
    requires Sturdy(s) && FlushStep(s, level, file, s')
    ensures ReadsHistory(TablesOnly(s'))
  {
    var N := Elements(ImmEntries(s));
    FlushFlushed(s, level, file, s');
    FlushedEntries(s, level, file, s');
    TablesOnlyInv(s);
    NoElements();
    hide Inv, ByAge, Installs, FlushStep, ReadsPreserved, Flushed;
    assert AllEntries(TablesOnly(s')) == VersionEntries(s.version) + N;
    forall k, t | t >= s.horizon
      ensures Read(Flushed(s) + N, k, t) == Read(VersionEntries(s.version) + N, k, t)
    {
      FlushedReads(s, N, k, t);
    }
  }

  lemma FlushedEntries(s: State, level: nat, file: File, s': State)
    requires Inv(s) && FlushStep(s, level, file, s')
    ensures VersionEntries(s'.version) == VersionEntries(s.version) + Elements(ImmEntries(s))
  {
    hide Sound, Installs, LevelMeets, Unique, Sorted, FileOk, Visible;
    FlushedTableIsUnique(s, Elements(file.entries));
    FlushAdds(s, level, file, s');
  }

  lemma FlushedReads(s: State, N: set<Entry>, k: UserKey, t: nat)
    requires Sturdy(s) && N == Elements(ImmEntries(s)) && t >= s.horizon
    ensures Read(Flushed(s) + N, k, t) == Read(VersionEntries(s.version) + N, k, t)
  {
    TablesOnlyInv(s);
    PreservedAt(TablesOnly(s), k, t);
    assert Flushed(s) + N <= s.history;
    hide Sound, Layered, SnapshotsOk, ReadsHistory;
    ReadWithNewer(Flushed(s), VersionEntries(s.version), N, k, t);
  }

  lemma NextKeepsSturdy(s: State, a: Action, s': State)
    requires Sturdy(s) && Next(s, a, s') && Recent(s, a)
    ensures Sturdy(s')
  {
    hide Inv, ReadsHistory, ByAge, Flushed, LeavesNothingOlder;
    NextKeepsInv(s, a, s');
    NextKeepsReads(s, a, s');
    match a
    case Write(batch) =>
      WriteFlushed(s, batch, s');
      SameTablesRead(s, s');
    case SwitchMemTable =>
      SwitchFlushed(s, s');
      SameTablesRead(s, s');
    case FlushEmpty =>
      SwitchFlushed(s, s');
      SameTablesRead(s, s');
    case Flush(level, file) =>
      FlushFlushed(s, level, file, s');
      TablesFlush(s, level, file, s');
    case TakeSnapshot =>
      SameMemory(s, s');
      SameTablesRead(s, s');
    case ReleaseSnapshot(index) =>
      SameMemory(s, s');
      SameTablesRead(s, s');
    case _ =>
      SameMemory(s, s');
      TablesCompact(s, a, s');
  }

  lemma SameTablesRead(s: State, s': State)
    requires ReadsHistory(TablesOnly(s)) && Flushed(s') == Flushed(s)
    requires s'.version == s.version && s'.horizon == s.horizon
    ensures ReadsHistory(TablesOnly(s'))
  {
    hide Flushed;
  }

  // ----- crash and recovery -----

  /** What is left of the store on disk: its tables, under the last sequence number the MANIFEST knows. */
  ghost predicate CrashStep(s: State, last: nat, s': State) {
    s' == TablesOnly(s).(snapshots := [], lastSequence := last, horizon := if s.horizon < last then s.horizon else last)
  }

  lemma CrashKeepsSturdy(s: State, last: nat, s': State)
    requires Sturdy(s) && CrashStep(s, last, s') && last < MAX_SEQUENCE
    requires forall e :: e in Flushed(s) ==> e.ik.seqno <= last
    ensures Sturdy(s') && s'.history == Flushed(s) == Flushed(s') && s'.mem == [] && s'.imm == None
  {
    TablesOnlyInv(s);
    NoElements();
    hide Sound, ReadsPreserved;
    assert AllEntries(s') == VersionEntries(s.version) && TablesOnly(s') == s';
    assert ReadsHistory(s') by {
      EverythingVisible(s, last, s'.horizon);
    }
  }

  /** Reads at or past every sequence number are alike. */
  lemma EverythingVisible(s: State, last: nat, horizon: nat)
    requires Inv(s) && ReadsHistory(TablesOnly(s)) && horizon == if s.horizon < last then s.horizon else last
    requires forall e :: e in Flushed(s) ==> e.ik.seqno <= last
    ensures ReadsPreserved(Flushed(s), VersionEntries(s.version), horizon)
  {
    TablesOnlyInv(s);
    hide Sound, Layered, SnapshotsOk, ReadsPreserved, Flushed;
    forall k, t | t >= horizon ensures Read(Flushed(s), k, t) == Read(VersionEntries(s.version), k, t) {
      var u := if t < s.horizon then s.horizon else t;
      PreservedAt(TablesOnly(s), k, u);
      ReadAgrees(Flushed(s), Flushed(s), k, t, u);
      ReadAgrees(VersionEntries(s.version), VersionEntries(s.version), k, t, u);
    }
    assert ReadsPreserved(Flushed(s), VersionEntries(s.version), horizon);
  }

  /** Replaying log records: they are newer than everything the store has. */
  ghost predicate ReplayStep(s: State, N: set<Entry>, last: nat, s': State) {
    && Unique(N) && (forall e :: e in N ==> Parses(e.ik) && e.ik.seqno <= last)
    && (forall e, f | e in N && f in s.history :: e.ik.seqno > f.ik.seqno)
    && s.lastSequence <= last < MAX_SEQUENCE
    && Sorted(s'.mem) && Elements(s'.mem) == Elements(s.mem) + N
    && s' == s.(mem := s'.mem, lastSequence := last, history := s.history + N)
  }

  lemma ReplayKeepsSturdy(s: State, N: set<Entry>, last: nat, s': State)
    requires Sturdy(s) && ReplayStep(s, N, last, s')
    ensures Sturdy(s') && Flushed(s') == Flushed(s)
  {
    hide Sound, ReadsPreserved;
    NewHistoryUnique(s.history, N);
    assert AllEntries(s') == AllEntries(s) + N;
    ReplayedReads(s, N);
    assert ImmEntries(s') == ImmEntries(s);
    assert Flushed(s') == Flushed(s);
    SameTablesRead(s, s');
  }

  lemma ReplayedReads(s: State, N: set<Entry>)
    requires Inv(s) && ReadsHistory(s) && Unique(s.history + N)
    requires forall e, f | e in N && f in s.history :: e.ik.seqno > f.ik.seqno
    ensures ReadsPreserved(s.history + N, AllEntries(s) + N, s.horizon)
  {
    hide Sound, Layered, SnapshotsOk, AllEntries, ReadsHistory;
    forall k, t | t >= s.horizon ensures Read(s.history + N, k, t) == Read(AllEntries(s) + N, k, t) {
      PreservedAt(s, k, t);
      ReadWithNewer(s.history, AllEntries(s), N, k, t);
    }
  }

  lemma NewHistoryUnique(S: set<Entry>, N: set<Entry>)
    requires Unique(S) && Unique(N) && forall e, f | e in N && f in S :: e.ik.seqno > f.ik.seqno
    ensures Unique(S + N)
  {
  }

  /** RecoverLogFile with a full memtable: it becomes a table of level 0, unless it is empty. */
  ghost predicate DumpStep(s: State, N: set<Entry>, last: nat, s': State) {
    exists full, imm :: ReplayStep(s, N, last, full) && SwitchStep(full, imm) && DumpsTo(imm, s')
  }

  ghost predicate DumpsTo(imm: State, s': State) {
    FlushEmptyStep(imm, s') || exists file :: FlushStep(imm, 0, file, s')
  }

  /** Recovery replays the chunks into tables, one after another, and the rest into the memtable. */
  ghost predicate RecoversTo(s: State, chunks: seq<set<Entry>>, rest: set<Entry>, last: nat, s': State)
    decreases |chunks|
  {
    if chunks == [] then ReplayStep(s, rest, last, s')
    else exists t :: DumpStep(s, chunks[0], last, t) && RecoversTo(t, chunks[1..], rest, last, s')
  }

  ghost function Union(chunks: seq<set<Entry>>): set<Entry> {
    if chunks == [] then {} else chunks[0] + Union(chunks[1..])
  }

  lemma DumpKeepsSturdy(s: State, N: set<Entry>, last: nat, s': State)
    requires Sturdy(s) && s.mem == [] && s.imm == None && DumpStep(s, N, last, s')
    ensures Sturdy(s') && s'.mem == [] && s'.imm == None && Flushed(s') == Flushed(s) + N
    ensures s'.snapshots == s.snapshots && s'.horizon == s.horizon && s'.lastSequence == last
  {
    hide Sturdy, Flushed, ByAge;
    var full, imm :| ReplayStep(s, N, last, full) && SwitchStep(full, imm) && DumpsTo(imm, s');
    NoElements();
    ReplayKeepsSturdy(s, N, last, full);
    StepKeepsSturdy(full, SwitchMemTable, imm);
    assert Elements(ImmEntries(imm)) == N;
    if FlushEmptyStep(imm, s') {
      StepKeepsSturdy(imm, FlushEmpty, s');
    } else {
      var file :| FlushStep(imm, 0, file, s');
      StepKeepsSturdy(imm, Flush(0, file), s');
    }
  }

  /** A memtable step: the store stays sturdy, and what is flushed is what leaves the memtables. */
  lemma StepKeepsSturdy(s: State, a: Action, s': State)
    requires Sturdy(s) && Next(s, a, s') && (a.SwitchMemTable? || a.FlushEmpty? || a.Flush?)
    ensures Sturdy(s') && Flushed(s') == Flushed(s) + if a.SwitchMemTable? then {} else Elements(ImmEntries(s))
  {
    hide Inv, ByAge, Flushed, ReadsHistory, Installs, FileOk, LevelMeets;
    NextKeepsSturdy(s, a, s');
    NoElements();
    match a
    case Flush(level, file) => FlushFlushed(s, level, file, s');
    case _ => SwitchFlushed(s, s');
  }

  /** Recovery ends in a sturdy store that has written what it replayed and nothing else since the crash. */
  lemma {:induction false} RecoveryKeepsSturdy(s: State, chunks: seq<set<Entry>>, rest: set<Entry>, last: nat,
                                               s': State)
    requires Sturdy(s) && s.mem == [] && s.imm == None && RecoversTo(s, chunks, rest, last, s')
    ensures Sturdy(s') && Elements(s'.mem) == rest && s'.imm == None && Flushed(s') == Flushed(s) + Union(chunks)
    ensures s'.snapshots == s.snapshots && s'.horizon == s.horizon && s'.lastSequence == last
    decreases |chunks|
  {
    hide Sturdy, Flushed, DumpStep;
    NoElements();
    if chunks == [] {
      ReplayKeepsSturdy(s, rest, last, s');
    } else {
      var t :| DumpStep(s, chunks[0], last, t) && RecoversTo(t, chunks[1..], rest, last, s');
      DumpKeepsSturdy(s, chunks[0], last, t);
      RecoveryKeepsSturdy(t, chunks[1..], rest, last, s');
    }
  }

  // ----- recovery never gets stuck -----

  function PutInOrder(q: seq<Entry>, e: Entry): (r: seq<Entry>) {
    if q == [] || Less(e.ik, q[0].ik) then [e] + q else [q[0]] + PutInOrder(q[1..], e)
  }

  lemma {:induction false} PutKeepsOrder(q: seq<Entry>, e: Entry)
    requires Sorted(q) && forall f :: f in q ==> Less(f.ik, e.ik) || Less(e.ik, f.ik)
    ensures Sorted(PutInOrder(q, e)) && Elements(PutInOrder(q, e)) == Elements(q) + {e}
  {
    if q != [] && !Less(e.ik, q[0].ik) {
      PutKeepsOrder(q[1..], e);
      var r := PutInOrder(q[1..], e);
      assert forall f :: f in r <==> f in Elements(r);
      assert forall f :: f in q[1..] ==> Less(q[0].ik, f.ik);
      assert q[0] in q && forall f :: f in r ==> Less(q[0].ik, f.ik);
      assert Elements(q) == Elements(q[1..]) + {q[0]};
      assert Elements([q[0]] + r) == Elements(r) + {q[0]};
    } else {
      assert q != [] ==> forall f :: f in q[1..] ==> Less(q[0].ik, f.ik);
      assert Elements([e] + q) == Elements(q) + {e};
    }
  }

  /** Any entries can be put in order. */
  lemma {:induction false} InOrderOf(S: set<Entry>) returns (q: seq<Entry>)
    requires Unique(S)
    ensures Sorted(q) && Elements(q) == S
    decreases |S|
  {
    if S == {} {
      q := [];
    } else {
      var e :| e in S;
      var front := InOrderOf(S - {e});
      forall f | f in front ensures Less(f.ik, e.ik) || Less(e.ik, f.ik) {
        assert f in Elements(front);
      }
      PutKeepsOrder(front, e);
      q := PutInOrder(front, e);
    }
  }

  /** The entries are newer than everything in the history, and could be log records up to `last`. */
  ghost predicate CanReplay(s: State, N: set<Entry>, last: nat) {
    && Unique(N) && (forall e :: e in N ==> Parses(e.ik) && e.ik.seqno <= last)
    && (forall e, f | e in N && f in s.history :: e.ik.seqno > f.ik.seqno)
    && s.lastSequence <= last < MAX_SEQUENCE
  }

  lemma ReplayExists(s: State, N: set<Entry>, last: nat) returns (s': State)
    requires Inv(s) && ByAge(s) && CanReplay(s, N, last)
    ensures ReplayStep(s, N, last, s')
  {
    hide Sound, Layered, Sorted;
    NewHistoryUnique(s.history, N);
    assert Elements(s.mem) + N <= s.history + N;
    var q := InOrderOf(Elements(s.mem) + N);
    s' := s.(mem := q, lastSequence := last, history := s.history + N);
  }

  /** Installing a new file in level 0 is always possible. */
  lemma AddedVersionExists(v: Version, f: File) returns (v': Version)
    requires (forall l :: 0 <= l < NUM_LEVELS ==> InOrder(v[l])) && forall g :: g in v[0] ==> g.number != f.number
    ensures Installs(v, Edit({}, [(0, f)]), v')
  {
    hide Installs;
    v' := v[0 := InsertFile(v[0], f)];
    InsertFileFillsSlot(v[0], f);
    FlushEditAdds(v, 0, f, v');
  }

  lemma DumpExists(s: State, N: set<Entry>, last: nat) returns (s': State)
    requires Sturdy(s) && s.mem == [] && s.imm == None && CanReplay(s, N, last)
    ensures DumpStep(s, N, last, s')
  {
    var full := ReplayExists(s, N, last);
    ReplayKeepsSturdy(s, N, last, full);
    var imm := full.(imm := Some(full.mem), mem := []);
    if full.mem == [] {
      s' := imm.(imm := None);
      assert FlushEmptyStep(imm, s');
    } else {
      s' := FlushExists(imm);
    }
    assert SwitchStep(full, imm) && DumpsTo(imm, s');
  }

  lemma FlushExists(imm: State) returns (s': State)
    requires Sound(imm.version, imm.nextFile) && HistoryOk(imm) && imm.lastSequence < MAX_SEQUENCE
    requires imm.imm.Some? && imm.imm.value != [] && Sorted(imm.imm.value)
    ensures DumpsTo(imm, s')
  {
    hide VersionOk;
    var q := imm.imm.value;
    var file := File(imm.nextFile, 0, q[0].ik, q[|q| - 1].ik, q);
    assert FileOk(file) by {
      forall e | e in q ensures e.ik.seqno < MAX_SEQUENCE {
        assert e in Elements(ImmEntries(imm));
      }
    }
    var v' := AddedVersionExists(imm.version, file);
    s' := imm.(imm := None, version := v', nextFile := imm.nextFile + 1);
    hide Installs, FileOk, LevelMeets;
    assert FlushStep(imm, 0, file, s');
  }

  /** Each chunk is newer than everything before it. */
  ghost predicate CanRecover(H: set<Entry>, chunks: seq<set<Entry>>, rest: set<Entry>, last: nat)
    decreases |chunks|
  {
    var N := if chunks == [] then rest else chunks[0];
    && Unique(N) && (forall e :: e in N ==> Parses(e.ik) && e.ik.seqno <= last)
    && (forall e, f | e in N && f in H :: e.ik.seqno > f.ik.seqno)
    && (chunks != [] ==> CanRecover(H + N, chunks[1..], rest, last))
  }

  /** Records that are in the order of writing, and newer than the tables, can always be replayed. */
  lemma {:induction false} RecoveryExists(s: State, chunks: seq<set<Entry>>, rest: set<Entry>, last: nat)
    returns (s': State)
    requires Sturdy(s) && s.mem == [] && s.imm == None && s.lastSequence <= last < MAX_SEQUENCE
    requires CanRecover(s.history, chunks, rest, last)
    ensures RecoversTo(s, chunks, rest, last, s')
    decreases |chunks|
  {
    if chunks == [] {
      s' := ReplayExists(s, rest, last);
    } else {
      var t := DumpExists(s, chunks[0], last);
      DumpKeepsSturdy(s, chunks[0], last, t);
      NoElements();
      hide Inv, ReadsHistory, DumpStep;
      assert t.history == s.history + chunks[0];
      s' := RecoveryExists(t, chunks[1..], rest, last);
    }
  }
}
