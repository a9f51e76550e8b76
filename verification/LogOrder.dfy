/**
 The order of what recovery replays: in every reachable state of Durability the
 tables a recovery would start from hold older batches than the logs it would
 replay, and those logs hold theirs in the order they were written.
 */
module LogOrder {
  import opened Levels
  import opened Durability
  import opened Recovery

  ghost predicate LogAscends(records: seq<Batch>) {
    forall i, j :: 0 <= i < j < |records| ==> Last(records[i]) < records[j].sequence
  }

  /** A later log holds later batches. */
  ghost predicate LogsAscend(d: Disk, from: nat) {
    forall n: nat, m: nat, b, c | from <= n < m && InLog(d, n, b) && InLog(d, m, c) :: Last(b) < c.sequence
  }

  /** The tables hold earlier batches than the logs. */
  ghost predicate TablesFirst(d: Disk, version: set<nat>, from: nat) {
    forall m: nat, b, c | from <= m && InTables(d, version, b) && InLog(d, m, c) :: Last(b) < c.sequence
  }

  ghost predicate Ordered(d: Disk, v: View) {
    && Complete(v)
    && (forall n :: n in d.logs && v.log.value <= n ==> LogAscends(Records(d.logs[n])))
    && LogsAscend(d, v.log.value) && TablesFirst(d, v.version, v.log.value)
  }

  /** Both for the view a crash now leaves and for the one the edit on its way makes. */
  ghost predicate OrderOk(s: State) {
    && Ordered(s.disk, SyncedView(s.disk))
    && (s.process.Up? && !s.process.change.Nothing? ==>
          Ordered(s.disk, ApplyEdit(SyncedView(s.disk), s.process.change.edit)))
  }

  // ----- steps that add no record -----

  /** No log gains a record. */
  ghost predicate NoNewRecords(d: Disk, d': Disk) {
    forall n :: n in d'.logs && Records(d'.logs[n]) != [] ==> n in d.logs && Records(d'.logs[n]) <= Records(d.logs[n])
  }

  lemma RecordsOf(d: Disk, n: nat, b: Batch)
    ensures InLog(d, n, b) <==> n in d.logs && b in Records(d.logs[n])
  {
  }

  lemma StillInLog(d: Disk, d': Disk, n: nat, b: Batch)
    requires NoNewRecords(d, d') && InLog(d', n, b)
    ensures InLog(d, n, b)
  {
    RecordsOf(d, n, b);
    RecordsOf(d', n, b);
  }

  lemma OrderKept(d: Disk, d': Disk, v: View)
    requires Ordered(d, v) && NoNewRecords(d, d')
    requires forall b :: InTables(d', v.version, b) ==> InTables(d, v.version, b)
    ensures Ordered(d', v)
  {
    hide InTables, NoNewRecords;
    forall n, b | InLog(d', n, b) ensures InLog(d, n, b) {
      StillInLog(d, d', n, b);
    }
    forall n | n in d'.logs && v.log.value <= n ensures LogAscends(Records(d'.logs[n])) {
      assert NoNewRecords(d, d');
      PrefixAscends(d, d', n);
    }
  }

  lemma PrefixAscends(d: Disk, d': Disk, n: nat)
    requires NoNewRecords(d, d') && n in d'.logs && (n in d.logs ==> LogAscends(Records(d.logs[n])))
    ensures LogAscends(Records(d'.logs[n]))
  {
  }

  /** No table of the view gains a batch. */
  ghost predicate NoNewBatches(d: Disk, d': Disk, version: set<nat>) {
    forall b :: InTables(d', version, b) ==> InTables(d, version, b)
  }

  /** A step that writes no record and leaves the MANIFEST alone keeps the order. */
  lemma QuietOrder(s: State, s': State)
    requires OrderOk(s) && NoNewRecords(s.disk, s'.disk) && SyncedView(s'.disk) == SyncedView(s.disk)
    requires NoNewBatches(s.disk, s'.disk, SyncedView(s.disk).version)
    requires s'.process.Up? && !s'.process.change.Nothing? ==>
      && s.process.Up? && s'.process.change == s.process.change
      && NoNewBatches(s.disk, s'.disk, ApplyEdit(SyncedView(s.disk), s.process.change.edit).version)
    ensures OrderOk(s')
  {
    hide Ordered, NoNewRecords, InTables, Replay;
    OrderKept(s.disk, s'.disk, SyncedView(s.disk));
    if s'.process.Up? && !s'.process.change.Nothing? {
      OrderKept(s.disk, s'.disk, ApplyEdit(SyncedView(s.disk), s.process.change.edit));
    }
  }

  lemma SameTablesNoNew(d: Disk, d': Disk, version: set<nat>)
    requires forall n :: n in d'.tables && n in version ==> n in d.tables && d'.tables[n] == d.tables[n]
    ensures NoNewBatches(d, d', version)
  {
    forall b | InTables(d', version, b) ensures InTables(d, version, b) {
      var n: nat :| n in version && InTable(d', n, b);
      assert InTable(d, n, b);
    }
  }

  /** The steps that leave tables, MANIFEST and the edit on its way as they are, and add no record. */
  lemma LogStepOrder(s: State, step: Step, s': State)
    requires Inv(s) && OrderOk(s) && Next(s, step, s')
    requires step.SyncLog? || step.InsertIntoMemTable? || step.SwitchMemTable? || step.ChooseObsolete? ||
      step.StartRecovery? || step.FinishRecovery?
    ensures OrderOk(s')
  {
    hide OrderOk, ViewOk, LogsOk, DiskOk, Replay;
    assert s'.disk.tables == s.disk.tables && SyncedView(s'.disk) == SyncedView(s.disk);
    SameTablesNoNew(s.disk, s'.disk, SyncedView(s.disk).version);
    if s'.process.Up? && !s'.process.change.Nothing? {
      SameTablesNoNew(s.disk, s'.disk, ApplyEdit(SyncedView(s.disk), s.process.change.edit).version);
    }
    QuietOrder(s, s');
  }

  lemma BuildTableOrder(s: State, number: nat, contents: set<Batch>, s': State)
    requires Inv(s) && OrderOk(s) && BuildTableStep(s, number, contents, s')
    ensures OrderOk(s')
  {
    hide OrderOk, ViewOk, LogsOk, ChangeOk, Replay;
    VersionIsNumbered(s);
    assert s.process.version == SyncedView(s.disk).version;
    SameTablesNoNew(s.disk, s'.disk, SyncedView(s.disk).version);
    QuietOrder(s, s');
  }

  lemma RemoveFileOrder(s: State, f: FileName, s': State)
    requires Inv(s) && OrderOk(s) && RemoveFileStep(s, f, s')
    ensures OrderOk(s')
  {
    hide OrderOk, ViewOk, ChangeOk, Replay, InOlderLogs, InTables;
    assert IsDoomed(s.process, f);
    SameTablesNoNew(s.disk, s'.disk, SyncedView(s.disk).version);
    QuietOrder(s, s');
  }

  // ----- a new record -----

  lemma LiveIsBelow(s: State, b: Batch)
    requires Inv(s) && s.process.Up? && s.process.phase == Running && s.process.writing.None? && b in s.live
    ensures Last(b) <= s.process.last
  {
    ServedIsLive(s, b);
  }

  /** A record numbered after every live batch keeps the logs and tables of a view in order. */
  lemma AppendOrder(s: State, b: Batch, s': State, v: View)
    requires Inv(s) && AddRecordStep(s, b, s') && Ordered(s.disk, v) && ViewOk(s, v)
    ensures Ordered(s'.disk, v)
  {
    var p, d, d' := s.process, s.disk, s'.disk;
    assert forall n, x :: InLog(d', n, x) <==> InLog(d, n, x) || (n == p.logfile && x == b);
    forall x | InTables(d', v.version, x) || InLogs(d, v.log.value, x) ensures Last(x) < b.sequence {
      assert InTables(d', v.version, x) ==> InTables(d, v.version, x);
      assert Holds(d, v, x);
      LiveIsBelow(s, x);
    }
    forall n, x | v.log.value <= n && InLog(d, n, x) ensures Last(x) < b.sequence {
      assert InLogs(d, v.log.value, x);
    }
    AppendedLog(s, b, s', v);
    forall m, x, c | v.log.value <= m && InTables(d', v.version, x) && InLog(d', m, c) ensures Last(x) < c.sequence {
      assert InTables(d, v.version, x);
    }
  }

  lemma AppendedLog(s: State, b: Batch, s': State, v: View)
    requires AddRecordStep(s, b, s') && Ordered(s.disk, v)
    requires forall x :: s.process.logfile >= v.log.value && InLog(s.disk, s.process.logfile, x) ==>
      Last(x) < b.sequence
    ensures forall n :: n in s'.disk.logs && v.log.value <= n ==> LogAscends(Records(s'.disk.logs[n]))
  {
    hide LogsAscend, TablesFirst;
    var p := s.process;
    var old_, new_ := s.disk.logs[p.logfile], s'.disk.logs[p.logfile];
    assert Records(new_) == Records(old_) + [b];
    if p.logfile >= v.log.value {
      forall i | 0 <= i < |Records(old_)| ensures Last(Records(old_)[i]) < b.sequence {
        RecordsOf(s.disk, p.logfile, Records(old_)[i]);
      }
    }
  }

  lemma AddRecordOrder(s: State, b: Batch, s': State)
    requires Inv(s) && OrderOk(s) && AddRecordStep(s, b, s')
    ensures OrderOk(s')
  {
    hide Ordered, ViewOk, LogsOk, Replay;
    AppendOrder(s, b, s', SyncedView(s.disk));
    if !s.process.change.Nothing? {
      AppendOrder(s, b, s', ApplyEdit(SyncedView(s.disk), s.process.change.edit));
    }
  }

  // ----- a new MANIFEST record -----

  /** After a flush, what was in the older logs is in tables, and the current log is still after it. */
  lemma FlushedOrder(s: State, v: View)
    requires Inv(s) && s.process.Up? && s.process.phase != Recovering && s.process.imm.Some?
    requires Ordered(s.disk, SyncedView(s.disk)) && Complete(v) && v.log.value == s.process.logfile
    requires forall b :: InTables(s.disk, v.version, b) ==>
      InTables(s.disk, s.process.version, b) || b in s.process.imm.value
    ensures Ordered(s.disk, v)
  {
    hide DiskOk, ChangeOk, ViewOk, Replay, InTables;
    var p, d := s.process, s.disk;
    forall m: nat, b, c | p.logfile <= m && InTables(d, v.version, b) && InLog(d, m, c)
      ensures Last(b) < c.sequence
    {
      if b in p.imm.value {
        assert InOlderLogs(d, p.logNumber, p.logfile, b);
        var n: nat :| p.logNumber <= n < p.logfile && InLog(d, n, b);
      }
    }
  }

  lemma SameBatchesOrder(d: Disk, v: View, v': View)
    requires Ordered(d, v) && Complete(v') && v'.log == v.log
    requires forall b :: InTables(d, v'.version, b) ==> InTables(d, v.version, b)
    ensures Ordered(d, v')
  {
    hide InTables;
  }

  /** Writing an edit that leaves the view in order. */
  lemma EditOrder(s: State, change: Change, s': State)
    requires Inv(s) && OrderOk(s) && s.process.Up? && BackgroundFree(s.process) && s.process.phase != Recovering
    requires !change.Nothing? && s'.process.Up? && s'.process.change == change && s'.disk == LogEdit(s, change.edit)
    requires Ordered(s.disk, ApplyEdit(SyncedView(s.disk), change.edit))
    ensures OrderOk(s')
  {
    hide Ordered, ViewOk, LogsOk, Replay;
    var v := SyncedView(s.disk);
    assert SyncedView(s'.disk) == v && NoNewRecords(s.disk, s'.disk);
    SameTablesNoNew(s.disk, s'.disk, v.version);
    SameTablesNoNew(s.disk, s'.disk, ApplyEdit(v, change.edit).version);
    OrderKept(s.disk, s'.disk, v);
    OrderKept(s.disk, s'.disk, ApplyEdit(v, change.edit));
  }

  lemma WriteFlushEditOrder(s: State, added: set<nat>, s': State)
    requires Inv(s) && OrderOk(s) && WriteFlushEditStep(s, added, s')
    ensures OrderOk(s')
  {
    hide DiskOk, ChangeOk, ViewOk, LogsOk, Ordered, Replay, InTables;
    var p := s.process;
    var e := Edit(added, {}, Some(p.logfile), Some(p.next), Some(p.last));
    var v := ApplyEdit(SyncedView(s.disk), e);
    assert v.version == p.version + added;
    forall b ensures InTables(s.disk, v.version, b) <==> InTables(s.disk, p.version, b) || InTables(s.disk, added, b) {
      TablesSplit(s.disk, p.version, added, b);
    }
    FlushedOrder(s, v);
    EditOrder(s, Flushing(e), s');
  }

  lemma WriteCompactionEditOrder(s: State, removed: set<nat>, added: set<nat>, s': State)
    requires Inv(s) && OrderOk(s) && WriteCompactionEditStep(s, removed, added, s')
    ensures OrderOk(s')
  {
    hide DiskOk, ChangeOk, ViewOk, LogsOk, Ordered, Replay, InTables;
    var p := s.process;
    var e := Edit(added, removed, Some(p.logNumber), Some(p.next), Some(p.last));
    CompactionViewOk(s, removed, added, e);
    SameBatchesOrder(s.disk, SyncedView(s.disk), ApplyEdit(SyncedView(s.disk), e));
    EditOrder(s, Compacting(e), s');
  }

  lemma InstallOrder(s: State, s': State)
    requires Inv(s) && OrderOk(s) && InstallStep(s, s')
    ensures OrderOk(s')
  {
    hide Inv, Ordered, Replay;
    InstalledView(s, s');
    var v := ApplyEdit(SyncedView(s.disk), s.process.change.edit);
    SameTablesNoNew(s.disk, s'.disk, v.version);
    assert NoNewRecords(s.disk, s'.disk);
    OrderKept(s.disk, s'.disk, v);
  }

  // ----- crashes -----

  /** The view a crash leaves is the synced one or the one its unsynced record makes. */
  lemma CrashView(s: State, kept: nat, survivors: Disk)
    requires Inv(s) && DiskSurvives(s.disk, kept, survivors)
    ensures kept == 0 ==> SyncedView(survivors) == SyncedView(s.disk)
    ensures kept > 0 ==>
      && kept == 1 && s.process.Up? && !s.process.change.Nothing?
      && SyncedView(survivors) == ApplyEdit(SyncedView(s.disk), s.process.change.edit)
  {
    hide ViewOk, LogsOk, InTables;
    var m := CurrentManifest(s.disk);
    if kept == 0 {
      assert m.synced + m.tail[..0] == m.synced;
    } else {
      assert m.tail[..1] == [m.tail[0]];
      ReplayAppend(m.synced, m.tail[0]);
    }
  }

  lemma SurvivorsGainNothing(d: Disk, kept: nat, d': Disk)
    requires DiskSurvives(d, kept, d')
    ensures NoNewRecords(d, d')
  {
    forall n | n in d'.logs ensures n in d.logs && Records(d'.logs[n]) <= Records(d.logs[n]) {
      assert LogSurvives(d.logs[n], d'.logs[n]);
      var k: nat :| k <= |d.logs[n].tail| && d'.logs[n].synced == d.logs[n].synced + d.logs[n].tail[..k];
      assert d.logs[n].tail == d.logs[n].tail[..k] + d.logs[n].tail[k..];
      assert Records(d.logs[n]) == Records(d'.logs[n]) + d.logs[n].tail[k..];
    }
  }

  lemma CrashOrder(s: State, kept: nat, survivors: Disk, restorable: set<Batch>, s': State)
    requires Inv(s) && OrderOk(s) && CrashStep(s, kept, survivors, restorable, s')
    ensures OrderOk(s')
  {
    hide ViewOk, LogsOk, Replay, Ordered, InTables, NoNewRecords;
    CrashView(s, kept, survivors);
    CrashViewOk(s, kept, survivors);
    var v := SyncedView(survivors);
    SurvivorsGainNothing(s.disk, kept, survivors);
    ViewIsOnDisk(s, v);
    SameTablesNoNew(s.disk, survivors, v.version);
    OrderKept(s.disk, survivors, v);
  }

  lemma ViewIsOnDisk(s: State, v: View)
    requires ViewOk(s, v)
    ensures forall n :: n in v.version ==> n in s.disk.tables
  {
  }

  // ----- whole runs -----

  lemma NextKeepsOrder(s: State, step: Step, s': State)
    requires Inv(s) && OrderOk(s) && Next(s, step, s')
    ensures OrderOk(s')
  {
    hide Inv, OrderOk;
    match step
    case AddRecord(b) => AddRecordOrder(s, b, s');
    case BuildTable(n, contents) => BuildTableOrder(s, n, contents, s');
    case WriteFlushEdit(added) => WriteFlushEditOrder(s, added, s');
    case WriteCompactionEdit(removed, added) => WriteCompactionEditOrder(s, removed, added, s');
    case Install => InstallOrder(s, s');
    case RemoveFile(f) => RemoveFileOrder(s, f, s');
    case Crash(kept, survivors, restorable) => CrashOrder(s, kept, survivors, restorable, s');
    case _ => LogStepOrder(s, step, s');
  }

  lemma InitialOrder(s: State)
    requires Initial(s)
    ensures OrderOk(s)
  {
    InitialInv(s);
  }

  /** In every reachable state recovery would replay in the order of writing, on top of tables that are older. */
  lemma {:induction false} RunsKeepOrder(states: seq<State>, steps: seq<Step>, i: nat)
    requires IsRun(states, steps) && i <= |steps|
    ensures OrderOk(states[i])
  {
    hide Inv, OrderOk, Next, Initial;
    if i == 0 {
      InitialOrder(states[0]);
    } else {
      RunsKeepOrder(states, steps, i - 1);
      RunsKeepInv(states, steps, i - 1);
      NextKeepsOrder(states[i - 1], steps[i - 1], states[i]);
    }
  }

  /** The records of the logs, one log after another. */
  function Concatenated(d: Disk, logs: seq<nat>): seq<Batch>
    requires forall n :: n in logs ==> n in d.logs
  {
    if logs == [] then [] else Concatenated(d, logs[..|logs| - 1]) + Records(d.logs[logs[|logs| - 1]])
  }

  lemma {:induction false} InConcatenated(d: Disk, logs: seq<nat>, b: Batch) returns (n: nat)
    requires (forall n :: n in logs ==> n in d.logs) && b in Concatenated(d, logs)
    ensures n in logs && InLog(d, n, b)
  {
    var last := logs[|logs| - 1];
    if b in Records(d.logs[last]) {
      n := last;
    } else {
      n := InConcatenated(d, logs[..|logs| - 1], b);
    }
  }

  /** What RecoverLogs replays, log after log, is in the order of writing. */
  lemma {:induction false} ReplayAscends(d: Disk, v: View, logs: seq<nat>)
    requires Ordered(d, v) && forall n :: n in logs ==> n in d.logs && v.log.value <= n
    requires forall i, j :: 0 <= i < j < |logs| ==> logs[i] < logs[j]
    ensures LogAscends(Concatenated(d, logs))
  {
    if logs != [] {
      hide InTables;
      var k := |logs| - 1;
      var front, back := Concatenated(d, logs[..k]), Records(d.logs[logs[k]]);
      ReplayAscends(d, v, logs[..k]);
      forall i, j | 0 <= i < |front| && 0 <= j < |back| ensures Last(front[i]) < back[j].sequence {
        var n := InConcatenated(d, logs[..k], front[i]);
        RecordsOf(d, logs[k], back[j]);
      }
      BothAscend(front, back);
    }
  }

  lemma BothAscend(front: seq<Batch>, back: seq<Batch>)
    requires LogAscends(front) && LogAscends(back)
    requires forall i, j :: 0 <= i < |front| && 0 <= j < |back| ==> Last(front[i]) < back[j].sequence
    ensures LogAscends(front + back)
  {
  }

  /** So in every reachable state that is about to recover. */
  lemma RecoveryReplaysInOrder(states: seq<State>, steps: seq<Step>, i: nat, logs: seq<nat>)
    requires IsRun(states, steps) && i <= |steps|
    requires
      var d := states[i].disk;
      Complete(SyncedView(d)) && IsListing(d, SyncedView(d).log.value, logs)
    ensures LogAscends(Concatenated(states[i].disk, logs))
    ensures forall b, c ::
      InTables(states[i].disk, SyncedView(states[i].disk).version, b) && c in Concatenated(states[i].disk, logs) ==>
        Last(b) < c.sequence
  {
    hide InTables, LogAscends;
    var d, v := states[i].disk, SyncedView(states[i].disk);
    RunsKeepOrder(states, steps, i);
    ReplayAscends(d, v, logs);
    forall b, c | InTables(d, v.version, b) && c in Concatenated(d, logs) ensures Last(b) < c.sequence {
      var m := InConcatenated(d, logs, c);
      assert TablesFirst(d, v.version, v.log.value);
    }
  }
}
