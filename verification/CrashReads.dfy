/**
 Crashes and reads together: the store of Database beside the disk and process
 of Durability, step by step.  After any number of crashes and recoveries a
 lookup reads the history of exactly those batches that are still restorable.
 */
module CrashReads {
  import opened Keys
  import opened Levels
  import opened Database
  import opened SnapshotReads
  import opened Restart
  import opened LogOrder
  import D = Durability

  /** The writes that a batch stands for. */
  type Ops = D.Batch -> seq<WriteOp>

  ghost predicate OpsOk(ops: Ops, b: D.Batch) {
    |ops(b)| == b.count && (forall op :: op in ops(b) ==> op.kind <= TYPE_VALUE) && D.Last(b) < MAX_SEQUENCE
  }

  ghost function EntriesOf(ops: Ops, S: set<D.Batch>): set<Entry> {
    set b, e | b in S && e in Numbered(ops(b), b.sequence) :: e
  }

  /** The batches that tables account for. */
  ghost function Accounted(d: D.Disk, tables: set<nat>): set<D.Batch> {
    set n, b | n in tables && n in d.tables && b in d.tables[n] :: b
  }

  datatype Joint = Joint(db: State, du: D.State)
  datatype JointStep = Disk(step: D.Step) | Snapshots(action: Action)

  // ----- what a step of the process and its disk means for the store -----

  ghost predicate IsRunning(p: D.Process) {
    p.Up? && p.phase == D.Running
  }

  /** Recovery replays some batches into tables and the rest into the memtable. */
  ghost predicate Reopens(ops: Ops, db: State, replayed: set<D.Batch>, rest: set<D.Batch>, last: nat, db': State) {
    exists chunks ::
      Union(chunks) == EntriesOf(ops, replayed) && RecoversTo(db, chunks, EntriesOf(ops, rest), last, db')
  }

  ghost predicate FlushesTo(db: State, db': State) {
    FlushEmptyStep(db, db') || exists level, file :: FlushStep(db, level, file, db')
  }

  ghost predicate CompactsTo(db: State, db': State) {
    exists a: Action :: (a.Compact? || a.MoveFile?) && Next(db, a, db') && Recent(db, a)
  }

  /** What the edit on its way to the MANIFEST does to the store once it counts. */
  ghost predicate Publishes(ops: Ops, db: State, p: D.Process, db': State) {
    && p.Up? && !p.change.Nothing? &&
    if p.phase == D.Opening then Reopens(ops, db, D.ImmSet(p), p.mem, p.last, db')
    else if p.change.Flushing? then FlushesTo(db, db')
    else CompactsTo(db, db')
  }

  /** A crash takes the memtables; an edit that reached the disk counts. */
  ghost predicate Crashes(ops: Ops, j: Joint, kept: nat, survivors: D.Disk, db': State) {
    var last := D.SyncedView(survivors).last;
    && last.Some?
    && exists t ::
         (if kept > 0 then Publishes(ops, j.db, j.du.process, t) else t == j.db) && CrashStep(t, last.value, db')
  }

  ghost predicate StoreStep(ops: Ops, j: Joint, step: D.Step, j': Joint) {
    match step
    case AddRecord(b) => j'.db == j.db && OpsOk(ops, b)
    case InsertIntoMemTable => j.du.process.Up? && j.du.process.writing.Some? &&
      WriteStep(j.db, ops(j.du.process.writing.value), j'.db)
    case SwitchMemTable(_) => SwitchStep(j.db, j'.db)
    case Install => Publishes(ops, j.db, j.du.process, j'.db)
    case FinishRecovery(_, _, _, _) =>
      var p := j'.du.process;
      if IsRunning(p) then Reopens(ops, j.db, {}, p.mem, p.last, j'.db) else j'.db == j.db
    case Crash(kept, survivors, _) => Crashes(ops, j, kept, survivors, j'.db)
    case _ => j'.db == j.db
  }

  ghost predicate JointNext(ops: Ops, j: Joint, step: JointStep, j': Joint) {
    match step
    case Disk(s) => D.Next(j.du, s, j'.du) && StoreStep(ops, j, s, j')
    case Snapshots(a) =>
      (a.TakeSnapshot? || a.ReleaseSnapshot?) && IsRunning(j.du.process) && Next(j.db, a, j'.db) && j'.du == j.du
  }

  // ----- the two machines agree -----

  ghost predicate BatchesOk(ops: Ops, du: D.State) {
    forall b :: b in du.live ==> OpsOk(ops, b)
  }

  ghost predicate LastOk(du: D.State) {
    && D.SyncedView(du.disk).last.Some? && D.SyncedView(du.disk).last.value < MAX_SEQUENCE
    && (du.process.Up? ==> du.process.last < MAX_SEQUENCE)
  }

  ghost predicate TablesMatch(ops: Ops, j: Joint) {
    Flushed(j.db) == EntriesOf(ops, Accounted(j.du.disk, D.SyncedView(j.du.disk).version))
  }

  ghost predicate MemoryMatches(ops: Ops, j: Joint) {
    var p := j.du.process;
    if IsRunning(p) then
      && Elements(j.db.mem) == EntriesOf(ops, p.mem) && (j.db.imm.Some? <==> p.imm.Some?)
      && Elements(ImmEntries(j.db)) == EntriesOf(ops, D.ImmSet(p)) && j.db.lastSequence == p.last
    else
      && j.db.mem == [] && j.db.imm == None && D.SyncedView(j.du.disk).last == Some(j.db.lastSequence)
  }

  ghost predicate JointInv(ops: Ops, j: Joint) {
    && D.Inv(j.du) && OrderOk(j.du) && BatchesOk(ops, j.du) && LastOk(j.du)
    && Sturdy(j.db) && TablesMatch(ops, j) && MemoryMatches(ops, j)
  }

  // ----- sets of batches -----

  lemma EntriesUnion(ops: Ops, S: set<D.Batch>, T: set<D.Batch>)
    ensures EntriesOf(ops, S + T) == EntriesOf(ops, S) + EntriesOf(ops, T)
  {
  }

  lemma EntriesOne(ops: Ops, b: D.Batch)
    ensures EntriesOf(ops, {b}) == Numbered(ops(b), b.sequence)
    ensures EntriesOf(ops, {}) == {}
  {
  }

  lemma AccountedMeans(d: D.Disk, tables: set<nat>, b: D.Batch)
    ensures b in Accounted(d, tables) <==> D.InTables(d, tables, b)
  {
    if D.InTables(d, tables, b) {
      var n: nat :| n in tables && D.InTable(d, n, b);
    }
    if b in Accounted(d, tables) {
      var n :| n in tables && n in d.tables && b in d.tables[n];
      assert D.InTable(d, n, b);
    }
  }

  lemma SameAccounted(d: D.Disk, d': D.Disk, tables: set<nat>)
    requires forall n :: n in tables && n in d.tables ==> n in d'.tables && d'.tables[n] == d.tables[n]
    requires forall n :: n in tables && n in d'.tables ==> n in d.tables
    ensures Accounted(d', tables) == Accounted(d, tables)
  {
  }

  /** What the tables account for once the edit on its way counts. */
  lemma AccountedAfterEdit(du: D.State)
    requires D.Inv(du) && du.process.Up? && !du.process.change.Nothing?
    ensures
      var v := D.SyncedView(du.disk);
      Accounted(du.disk, D.ApplyEdit(v, du.process.change.edit).version) ==
        Accounted(du.disk, v.version) + if du.process.change.Flushing? then D.ImmSet(du.process) else {}
  {
    hide D.DiskOk, D.ViewOk, D.LogsOk, D.InTables;
    var p, v := du.process, D.SyncedView(du.disk);
    var v' := D.ApplyEdit(v, p.change.edit);
    forall b ensures b in Accounted(du.disk, v'.version) <==>
      b in Accounted(du.disk, v.version) || (p.change.Flushing? && b in D.ImmSet(p))
    {
      AccountedMeans(du.disk, v'.version, b);
      AccountedMeans(du.disk, v.version, b);
    }
  }

  // ----- steps that the store does not notice -----

  lemma BatchesKept(ops: Ops, du: D.State, step: D.Step, du': D.State)
    requires D.Inv(du) && BatchesOk(ops, du) && D.Next(du, step, du')
    requires step.AddRecord? ==> OpsOk(ops, step.batch)
    ensures BatchesOk(ops, du')
  {
    hide OpsOk, D.Inv;
    match step
    case Crash(kept, survivors, restorable) => D.CrashKeepsInv(du, kept, survivors, restorable, du');
    case _ =>
  }

  /** Steps without a counterpart in the store, and the end of a recovery that has edits to write. */
  ghost predicate Unnoticed(step: D.Step, du': D.State) {
    || step.AddRecord? || step.SyncLog? || step.BuildTable? || step.WriteFlushEdit? || step.WriteCompactionEdit?
    || step.ChooseObsolete? || step.RemoveFile? || step.StartRecovery?
    || (step.FinishRecovery? && !IsRunning(du'.process))
  }

  /** The tables of the installed version, and the view, are left alone. */
  lemma UnnoticedDisk(du: D.State, step: D.Step, du': D.State)
    requires D.Inv(du) && D.Next(du, step, du') && Unnoticed(step, du')
    ensures D.SyncedView(du'.disk) == D.SyncedView(du.disk)
    ensures Accounted(du'.disk, D.SyncedView(du.disk).version) == Accounted(du.disk, D.SyncedView(du.disk).version)
  {
    hide D.ViewOk, D.ChangeOk, D.Replay, D.InTables, D.InOlderLogs;
    if du.process.Up? {
      D.VersionIsNumbered(du);
      assert du.process.version == D.SyncedView(du.disk).version;
    }
    assert step.RemoveFile? ==> D.IsDoomed(du.process, step.name);
    SameAccounted(du.disk, du'.disk, D.SyncedView(du.disk).version);
  }

  lemma UnnoticedProcess(du: D.State, step: D.Step, du': D.State)
    requires D.Inv(du) && D.Next(du, step, du') && Unnoticed(step, du')
    ensures IsRunning(du'.process) == IsRunning(du.process)
    ensures IsRunning(du.process) ==>
      du'.process.mem == du.process.mem && du'.process.imm == du.process.imm && du'.process.last == du.process.last
  {
    hide D.Inv;
  }

  lemma UnnoticedLast(ops: Ops, du: D.State, step: D.Step, du': D.State)
    requires D.Inv(du) && BatchesOk(ops, du) && LastOk(du) && D.Next(du, step, du') && Unnoticed(step, du')
    requires D.SyncedView(du'.disk) == D.SyncedView(du.disk)
    ensures LastOk(du')
  {
    hide D.ViewOk, D.ChangeOk, D.LogsOk, D.Replay;
    if step.FinishRecovery? {
      ReplayedLast(ops, du, step.reused, step.number, step.recovered, step.last, du');
    }
  }

  /** The last sequence number after a replay is that of a live batch, or the one from the MANIFEST. */
  lemma ReplayedLast(ops: Ops, du: D.State, reused: Option<nat>, number: nat, recovered: set<D.Batch>, last: nat,
                     du': D.State)
    requires D.Inv(du) && BatchesOk(ops, du) && LastOk(du)
    requires D.FinishRecoveryStep(du, reused, number, recovered, last, du')
    ensures last < MAX_SEQUENCE
  {
    hide D.ChangeOk, D.LogsOk, D.Replay, OpsOk;
    if last > du.process.last {
      var b :| D.InLogs(du.disk, du.process.logNumber, b) && D.Last(b) == last;
      assert D.Holds(du.disk, D.SyncedView(du.disk), b);
      assert OpsOk(ops, b);
      BatchesEnd(ops, b);
    }
  }

  lemma BatchesEnd(ops: Ops, b: D.Batch)
    requires OpsOk(ops, b)
    ensures D.Last(b) < MAX_SEQUENCE
  {
  }

  lemma UnnoticedKeepsJoint(ops: Ops, j: Joint, step: D.Step, j': Joint)
    requires JointInv(ops, j) && D.Next(j.du, step, j'.du) && StoreStep(ops, j, step, j') && Unnoticed(step, j'.du)
    ensures JointInv(ops, j')
  {
    hide D.Inv, OrderOk, BatchesOk, LastOk, Sturdy, OpsOk, EntriesOf, Flushed, D.Next;
    assert j'.db == j.db;
    D.NextKeepsInv(j.du, step, j'.du);
    NextKeepsOrder(j.du, step, j'.du);
    BatchesKept(ops, j.du, step, j'.du);
    UnnoticedDisk(j.du, step, j'.du);
    UnnoticedProcess(j.du, step, j'.du);
    UnnoticedLast(ops, j.du, step, j'.du);
  }

  // ----- writes and memtable switches -----

  lemma InsertKeepsJoint(ops: Ops, j: Joint, j': Joint)
    requires JointInv(ops, j) && D.InsertStep(j.du, j'.du) && StoreStep(ops, j, D.InsertIntoMemTable, j')
    ensures JointInv(ops, j')
  {
    hide OrderOk, Sturdy, EntriesOf, Flushed, D.ViewOk, D.DiskOk, D.ChangeOk, D.InOlderLogs, D.InTables, Numbered,
      OpsOk, D.Replay;
    var p, b := j.du.process, j.du.process.writing.value;
    D.NextKeepsInv(j.du, D.InsertIntoMemTable, j'.du);
    NextKeepsOrder(j.du, D.InsertIntoMemTable, j'.du);
    WriteKeepsSturdy(j.db, ops(b), j'.db);
    WritingIsOk(ops, j.du);
    EntriesUnion(ops, p.mem, {b});
    EntriesOne(ops, b);
  }

  lemma WriteKeepsSturdy(db: State, batch: seq<WriteOp>, db': State)
    requires Sturdy(db) && WriteStep(db, batch, db')
    ensures Sturdy(db') && Flushed(db') == Flushed(db)
    ensures Elements(db'.mem) == Elements(db.mem) + Numbered(batch, db.lastSequence + 1)
  {
    hide Inv, ByAge, Flushed, ReadsHistory, Numbered;
    NextKeepsSturdy(db, Write(batch), db');
    WriteFlushed(db, batch, db');
  }

  lemma WritingIsOk(ops: Ops, du: D.State)
    requires D.Inv(du) && BatchesOk(ops, du) && du.process.Up? && du.process.writing.Some?
    ensures IsRunning(du.process) && OpsOk(ops, du.process.writing.value)
    ensures du.process.writing.value.sequence == du.process.last + 1 &&
      |ops(du.process.writing.value)| == du.process.writing.value.count
  {
    hide D.ViewOk, D.DiskOk, D.ChangeOk, D.InOlderLogs, D.InTables, D.Replay;
    D.ServedIsLive(du, du.process.writing.value);
    assert OpsOk(ops, du.process.writing.value);
  }

  lemma SwitchKeepsJoint(ops: Ops, j: Joint, number: nat, j': Joint)
    requires JointInv(ops, j) && D.SwitchStep(j.du, number, j'.du) && StoreStep(ops, j, D.SwitchMemTable(number), j')
    ensures JointInv(ops, j')
  {
    hide D.Inv, OrderOk, Sturdy, EntriesOf, Flushed, OpsOk, D.Replay;
    D.NextKeepsInv(j.du, D.SwitchMemTable(number), j'.du);
    NextKeepsOrder(j.du, D.SwitchMemTable(number), j'.du);
    StepKeepsSturdy(j.db, SwitchMemTable, j'.db);
    NoElements();
    EntriesNone(ops);
  }

  lemma EntriesNone(ops: Ops)
    ensures EntriesOf(ops, {}) == {}
  {
  }

  lemma SnapshotsKeepJoint(ops: Ops, j: Joint, a: Action, j': Joint)
    requires JointInv(ops, j) && JointNext(ops, j, Snapshots(a), j')
    ensures JointInv(ops, j')
  {
    hide D.Inv, OrderOk, EntriesOf, Inv, ReadsHistory, ByAge, Flushed;
    NextKeepsSturdy(j.db, a, j'.db);
    SameMemory(j.db, j'.db);
  }

  // ----- edits that take effect -----

  lemma FlushKeepsSturdy(db: State, db': State)
    requires Sturdy(db) && FlushesTo(db, db')
    ensures Sturdy(db') && Flushed(db') == Flushed(db) + Elements(ImmEntries(db))
    ensures db'.mem == db.mem && db'.imm == None && db'.lastSequence == db.lastSequence
  {
    hide Sturdy, Flushed;
    if FlushEmptyStep(db, db') {
      StepKeepsSturdy(db, FlushEmpty, db');
    } else {
      var level, file :| FlushStep(db, level, file, db');
      StepKeepsSturdy(db, Flush(level, file), db');
    }
  }

  lemma CompactionKeepsSturdy(db: State, db': State)
    requires Sturdy(db) && CompactsTo(db, db')
    ensures Sturdy(db') && Flushed(db') == Flushed(db)
    ensures db'.mem == db.mem && db'.imm == db.imm && db'.lastSequence == db.lastSequence
  {
    hide Inv, ByAge, Flushed, ReadsHistory, Recent;
    var a: Action :| (a.Compact? || a.MoveFile?) && Next(db, a, db') && Recent(db, a);
    NextKeepsSturdy(db, a, db');
    SameMemory(db, db');
  }

  lemma ReopenKeepsSturdy(ops: Ops, db: State, replayed: set<D.Batch>, rest: set<D.Batch>, last: nat, db': State)
    requires Sturdy(db) && db.mem == [] && db.imm == None && Reopens(ops, db, replayed, rest, last, db')
    ensures Sturdy(db') && Flushed(db') == Flushed(db) + EntriesOf(ops, replayed)
    ensures Elements(db'.mem) == EntriesOf(ops, rest) && db'.imm == None && db'.lastSequence == last
  {
    hide Sturdy, Flushed, RecoversTo, EntriesOf, Union;
    var chunks :| Union(chunks) == EntriesOf(ops, replayed) && RecoversTo(db, chunks, EntriesOf(ops, rest), last, db');
    RecoveryKeepsSturdy(db, chunks, EntriesOf(ops, rest), last, db');
  }

  /** The memtable after an edit takes effect, and before it: recovery has put the open log's batches into it. */
  ghost predicate MemoryAfter(ops: Ops, p: D.Process, db: State)
    requires p.Up?
  {
    && Elements(db.mem) == EntriesOf(ops, p.mem) && db.lastSequence == p.last
    && (p.change.Flushing? ==> db.imm == None)
    && (!p.change.Flushing? ==>
          (db.imm.Some? <==> p.imm.Some?) && Elements(ImmEntries(db)) == EntriesOf(ops, D.ImmSet(p)))
  }

  /** Whatever edit takes effect, the tables hold what the new version accounts for. */
  lemma PublishKeepsSturdy(ops: Ops, j: Joint, db': State)
    requires JointInv(ops, j) && Publishes(ops, j.db, j.du.process, db')
    ensures
      var p, v := j.du.process, D.ApplyEdit(D.SyncedView(j.du.disk), j.du.process.change.edit);
      Sturdy(db') && Flushed(db') == EntriesOf(ops, Accounted(j.du.disk, v.version)) && MemoryAfter(ops, p, db')
  {
    hide D.Inv, OrderOk, Sturdy, Flushed, EntriesOf, OpsOk, FlushesTo, CompactsTo, Reopens, Accounted, D.Replay;
    var p, tables := j.du.process, Accounted(j.du.disk, D.SyncedView(j.du.disk).version);
    AccountedAfterEdit(j.du);
    OpeningFlushes(j.du);
    EntriesUnion(ops, tables, D.ImmSet(p));
    assert tables + {} == tables;
    if p.phase == D.Opening {
      ReopenKeepsSturdy(ops, j.db, D.ImmSet(p), p.mem, p.last, db');
    } else if p.change.Flushing? {
      FlushKeepsSturdy(j.db, db');
    } else {
      CompactionKeepsSturdy(j.db, db');
    }
  }

  lemma OpeningFlushes(du: D.State)
    requires D.Inv(du) && du.process.Up? && !du.process.change.Nothing?
    ensures du.process.phase != D.Recovering
    ensures du.process.phase == D.Opening ==> du.process.change.Flushing?
  {
    hide D.ViewOk, D.DiskOk, D.LogsOk, D.InTables;
  }

  lemma InstallKeepsJoint(ops: Ops, j: Joint, j': Joint)
    requires JointInv(ops, j) && D.InstallStep(j.du, j'.du) && StoreStep(ops, j, D.Install, j')
    ensures JointInv(ops, j')
  {
    hide OrderOk, Sturdy, Flushed, EntriesOf, OpsOk, Publishes, D.ViewOk, D.LogsOk, D.InTables, D.Replay;
    PublishKeepsSturdy(ops, j, j'.db);
    D.NextKeepsInv(j.du, D.Install, j'.du);
    NextKeepsOrder(j.du, D.Install, j'.du);
    D.InstalledView(j.du, j'.du);
    InstalledLast(j.du);
    SameAccounted(j.du.disk, j'.du.disk, D.SyncedView(j'.du.disk).version);
    NoElements();
    EntriesNone(ops);
  }

  lemma InstalledLast(du: D.State)
    requires D.Inv(du) && LastOk(du) && du.process.Up? && !du.process.change.Nothing?
    ensures
      var v := D.ApplyEdit(D.SyncedView(du.disk), du.process.change.edit);
      v.last.Some? && v.last.value <= du.process.last < MAX_SEQUENCE
  {
    hide D.ViewOk, D.LogsOk, D.InTables, D.Replay;
  }

  // ----- recoveries and crashes -----

  lemma FinishRecoveryKeepsJoint(ops: Ops, j: Joint, step: D.Step, j': Joint)
    requires JointInv(ops, j) && step.FinishRecovery? && D.Next(j.du, step, j'.du) && StoreStep(ops, j, step, j')
    requires IsRunning(j'.du.process)
    ensures JointInv(ops, j')
  {
    hide D.Inv, OrderOk, Sturdy, Flushed, EntriesOf, OpsOk, Reopens, Accounted, D.Replay, BatchesOk;
    var p := j'.du.process;
    D.NextKeepsInv(j.du, step, j'.du);
    NextKeepsOrder(j.du, step, j'.du);
    BatchesKept(ops, j.du, step, j'.du);
    ReplayedLast(ops, j.du, step.reused, step.number, step.recovered, step.last, j'.du);
    ReopenKeepsSturdy(ops, j.db, {}, p.mem, p.last, j'.db);
    EntriesNone(ops);
    SameAccounted(j.du.disk, j'.du.disk, D.SyncedView(j.du.disk).version);
    NoElements();
  }

  /** What the tables account for ends before the last sequence number of the view. */
  lemma AccountedEnds(ops: Ops, du: D.State, v: D.View, e: Entry)
    requires D.ViewOk(du, v) && BatchesOk(ops, du) && e in EntriesOf(ops, Accounted(du.disk, v.version))
    ensures e.ik.seqno <= v.last.value
  {
    hide OpsOk, Numbered;
    var b :| b in Accounted(du.disk, v.version) && e in Numbered(ops(b), b.sequence);
    AccountedMeans(du.disk, v.version, b);
    assert D.Holds(du.disk, v, b);
    BatchEntries(ops, b, e);
  }

  lemma BatchEntries(ops: Ops, b: D.Batch, e: Entry)
    requires OpsOk(ops, b) && e in Numbered(ops(b), b.sequence)
    ensures b.sequence <= e.ik.seqno <= D.Last(b) && Parses(e.ik)
  {
    NumberedRange(ops(b), b.sequence);
  }

  lemma CrashKeepsJoint(ops: Ops, j: Joint, kept: nat, survivors: D.Disk, restorable: set<D.Batch>, j': Joint)
    requires JointInv(ops, j) && D.CrashStep(j.du, kept, survivors, restorable, j'.du)
    requires StoreStep(ops, j, D.Crash(kept, survivors, restorable), j')
    ensures JointInv(ops, j')
  {
    hide D.Inv, OrderOk, Sturdy, Flushed, EntriesOf, OpsOk, Publishes, Accounted, D.Replay, BatchesOk, D.ViewOk,
      CrashStep;
    var step, v := D.Crash(kept, survivors, restorable), D.SyncedView(survivors);
    D.NextKeepsInv(j.du, step, j'.du);
    NextKeepsOrder(j.du, step, j'.du);
    BatchesKept(ops, j.du, step, j'.du);
    CrashView(j.du, kept, survivors);
    D.CrashViewOk(j.du, kept, survivors);
    ViewIsOnDisk(j.du, v);
    SameAccounted(j.du.disk, survivors, v.version);
    var t := BeforeCrash(ops, j, kept, survivors, j'.db);
    forall e | e in Flushed(t) ensures e.ik.seqno <= v.last.value {
      AccountedEnds(ops, j.du, v, e);
    }
    CrashedStore(t, v.last.value, j'.db);
  }

  /** The store just before the crash, with the edit that reached the disk. */
  lemma BeforeCrash(ops: Ops, j: Joint, kept: nat, survivors: D.Disk, db': State) returns (t: State)
    requires JointInv(ops, j) && Crashes(ops, j, kept, survivors, db') && D.DiskSurvives(j.du.disk, kept, survivors)
    ensures Sturdy(t) && Flushed(t) == EntriesOf(ops, Accounted(j.du.disk, D.SyncedView(survivors).version))
    ensures D.SyncedView(survivors).last.Some? && CrashStep(t, D.SyncedView(survivors).last.value, db')
    ensures D.SyncedView(survivors).last.value < MAX_SEQUENCE
  {
    hide D.Inv, OrderOk, Sturdy, Flushed, EntriesOf, OpsOk, Publishes, Accounted, D.Replay, BatchesOk, CrashStep;
    var last := D.SyncedView(survivors).last;
    t :| (if kept > 0 then Publishes(ops, j.db, j.du.process, t) else t == j.db) && CrashStep(t, last.value, db');
    CrashView(j.du, kept, survivors);
    if kept > 0 {
      PublishKeepsSturdy(ops, j, t);
      InstalledLast(j.du);
    }
  }

  lemma CrashedStore(t: State, last: nat, db': State)
    requires Sturdy(t) && CrashStep(t, last, db') && last < MAX_SEQUENCE
    requires forall e :: e in Flushed(t) ==> e.ik.seqno <= last
    ensures Sturdy(db') && Flushed(db') == Flushed(t) && db'.mem == [] && db'.imm == None && db'.lastSequence == last
  {
    CrashKeepsSturdy(t, last, db');
    hide Inv, ReadsHistory, ByAge, Flushed;
  }

  // ----- whole runs -----

  lemma NextKeepsJoint(ops: Ops, j: Joint, step: JointStep, j': Joint)
    requires JointInv(ops, j) && JointNext(ops, j, step, j')
    ensures JointInv(ops, j')
  {
    hide JointInv;
    match step
    case Snapshots(a) => SnapshotsKeepJoint(ops, j, a, j');
    case Disk(s) =>
      match s {
        case InsertIntoMemTable => InsertKeepsJoint(ops, j, j');
        case SwitchMemTable(n) => SwitchKeepsJoint(ops, j, n, j');
        case Install => InstallKeepsJoint(ops, j, j');
        case Crash(kept, survivors, restorable) => CrashKeepsJoint(ops, j, kept, survivors, restorable, j');
        case FinishRecovery(_, _, _, _) =>
          if IsRunning(j'.du.process) {
            FinishRecoveryKeepsJoint(ops, j, s, j');
          } else {
            UnnoticedKeepsJoint(ops, j, s, j');
          }
        case _ => UnnoticedKeepsJoint(ops, j, s, j');
      }
  }

  ghost predicate IsJointRun(ops: Ops, states: seq<Joint>, steps: seq<JointStep>) {
    && |states| == |steps| + 1 && Initial(states[0].db) && D.Initial(states[0].du)
    && forall i :: 0 <= i < |steps| ==> JointNext(ops, states[i], steps[i], states[i + 1])
  }

  lemma InitialJoint(ops: Ops, j: Joint)
    requires Initial(j.db) && D.Initial(j.du)
    ensures JointInv(ops, j)
  {
    var e := D.Edit({}, {}, Some(0), Some(2), Some(0));
    D.ReplayAppend([], e);
    assert [] + [e] == [e];
    D.InitialInv(j.du);
    InitialOrder(j.du);
    InitialInv(j.db);
    NoElements();
    EntriesNone(ops);
    assert Accounted(j.du.disk, {}) == {};
    assert TablesOnly(j.db) == j.db;
  }

  lemma {:induction false} RunsKeepJoint(ops: Ops, states: seq<Joint>, steps: seq<JointStep>, n: nat)
    requires IsJointRun(ops, states, steps) && n < |states|
    ensures JointInv(ops, states[n])
  {
    hide JointInv, JointNext, Initial, D.Initial;
    if n == 0 {
      InitialJoint(ops, states[0]);
    } else {
      RunsKeepJoint(ops, states, steps, n - 1);
      NextKeepsJoint(ops, states[n - 1], steps[n - 1], states[n]);
    }
  }

  /** The write history of the running store is what its restorable batches wrote. */
  lemma HistoryIsRestorable(ops: Ops, j: Joint)
    requires JointInv(ops, j) && IsRunning(j.du.process) && j.du.process.writing.None?
    ensures j.db.history == EntriesOf(ops, j.du.live)
  {
    hide OrderOk, Inv, ReadsHistory, EntriesOf, OpsOk, D.DiskOk, D.UpOk, D.Replay, Accounted;
    var p, tables := j.du.process, Accounted(j.du.disk, D.SyncedView(j.du.disk).version);
    var served := tables + D.ImmSet(p) + p.mem;
    forall b ensures b in served <==> b in j.du.live {
      VersionIsSynced(j.du);
      AccountedMeans(j.du.disk, p.version, b);
      D.ServedIsLive(j.du, b);
    }
    assert served == j.du.live;
    EntriesUnion(ops, tables + D.ImmSet(p), p.mem);
    EntriesUnion(ops, tables, D.ImmSet(p));
    HistoryParts(j.db);
  }

  lemma VersionIsSynced(du: D.State)
    requires D.Inv(du) && du.process.Up?
    ensures du.process.version == D.SyncedView(du.disk).version
  {
    hide D.ViewOk, D.ChangeOk, D.LogsOk;
  }

  lemma HistoryParts(s: State)
    requires ByAge(s)
    ensures s.history == Flushed(s) + Elements(ImmEntries(s)) + Elements(s.mem)
  {
  }

  lemma PromisedIsLive(du: D.State)
    requires D.Inv(du)
    ensures du.durable <= du.live && du.logged == du.live + du.lost
  {
    hide D.UpOk, D.Replay;
    forall b | b in du.durable ensures b in du.live {
      D.SecuredIsHeld(du.disk, D.SyncedView(du.disk), b);
    }
  }

  /**
   After any crashes and recoveries, every live snapshot and the latest sequence read the history of exactly the
   restorable batches: all that were promised, and of the others those that no crash has dropped.
   */
  lemma SurvivorsAreRead(ops: Ops, states: seq<Joint>, steps: seq<JointStep>, n: nat, k: UserKey, snapshot: nat)
    requires IsJointRun(ops, states, steps) && n < |states|
    requires IsRunning(states[n].du.process) && states[n].du.process.writing.None?
    requires snapshot in states[n].db.snapshots || snapshot == states[n].db.lastSequence
    ensures Read(AllEntries(states[n].db), k, snapshot) == Read(EntriesOf(ops, states[n].du.live), k, snapshot)
    ensures states[n].du.durable <= states[n].du.live
    ensures states[n].du.logged == states[n].du.live + states[n].du.lost
  {
    var j := states[n];
    RunsKeepJoint(ops, states, steps, n);
    HistoryIsRestorable(ops, j);
    PromisedIsLive(j.du);
    hide OrderOk, BatchesOk, LastOk, TablesMatch, MemoryMatches, EntriesOf, D.Inv, HistoryOk, Layered, ByAge;
    PreservedAt(j.db, k, snapshot);
  }

  // ----- recovery never gets stuck -----

  /** Batches of the logs that recovery replays do not overlap. */
  lemma LogBatchesApart(d: D.Disk, v: D.View, n: nat, m: nat, b: D.Batch, c: D.Batch)
    requires Ordered(d, v) && v.log.value <= n && v.log.value <= m && D.InLog(d, n, b) && D.InLog(d, m, c) && b != c
    ensures D.Last(b) < c.sequence || D.Last(c) < b.sequence
  {
    hide TablesFirst;
    if n == m {
      RecordsOf(d, n, b);
      RecordsOf(d, n, c);
      var records := D.Records(d.logs[n]);
      var x :| 0 <= x < |records| && records[x] == b;
      var y :| 0 <= y < |records| && records[y] == c;
    }
  }

  /** The batches are in the logs that recovery replays. */
  ghost predicate FromLogs(d: D.Disk, from: nat, S: set<D.Batch>) {
    forall b :: b in S ==> D.InLogs(d, from, b)
  }

  lemma LogEntriesUnique(ops: Ops, d: D.Disk, v: D.View, S: set<D.Batch>)
    requires Ordered(d, v) && FromLogs(d, v.log.value, S) && forall b :: b in S ==> OpsOk(ops, b)
    ensures Unique(EntriesOf(ops, S)) && forall e :: e in EntriesOf(ops, S) ==> Parses(e.ik)
  {
    hide LogsAscend, LogAscends, TablesFirst, OpsOk, Numbered;
    forall e | e in EntriesOf(ops, S) ensures Parses(e.ik) {
      var b := BatchOf(ops, S, e);
    }
    forall e, f | e in EntriesOf(ops, S) && f in EntriesOf(ops, S) && e.ik.seqno == f.ik.seqno ensures e == f {
      var b := BatchOf(ops, S, e);
      var c := BatchOf(ops, S, f);
      if b == c {
        OneBatchUnique(ops(b), b.sequence, e, f);
      } else {
        var n: nat :| v.log.value <= n && D.InLog(d, n, b);
        var m: nat :| v.log.value <= m && D.InLog(d, m, c);
        LogBatchesApart(d, v, n, m, b, c);
      }
    }
  }

  lemma BatchOf(ops: Ops, S: set<D.Batch>, e: Entry) returns (b: D.Batch)
    requires e in EntriesOf(ops, S) && forall b :: b in S ==> OpsOk(ops, b)
    ensures b in S && e in Numbered(ops(b), b.sequence)
    ensures b.sequence <= e.ik.seqno <= D.Last(b) && Parses(e.ik)
  {
    hide OpsOk, Numbered;
    b :| b in S && e in Numbered(ops(b), b.sequence);
    BatchEntries(ops, b, e);
  }

  lemma OneBatchUnique(batch: seq<WriteOp>, first: nat, e: Entry, f: Entry)
    requires e in Numbered(batch, first) && f in Numbered(batch, first) && e.ik.seqno == f.ik.seqno
    ensures e == f
  {
    var x := NumberedMember(batch, first, e);
    var y := NumberedMember(batch, first, f);
  }

  lemma EntriesFollow(ops: Ops, S: set<D.Batch>, T: set<D.Batch>)
    requires forall b :: b in S || b in T ==> OpsOk(ops, b)
    requires forall b, c | b in S && c in T :: D.Last(b) < c.sequence
    ensures forall e, f | e in EntriesOf(ops, T) && f in EntriesOf(ops, S) :: e.ik.seqno > f.ik.seqno
  {
    hide OpsOk, EntriesOf;
    forall e, f | e in EntriesOf(ops, T) && f in EntriesOf(ops, S) ensures e.ik.seqno > f.ik.seqno {
      var c := BatchOf(ops, T, e);
      var b := BatchOf(ops, S, f);
    }
  }

  lemma EntriesEnd(ops: Ops, S: set<D.Batch>, last: nat)
    requires forall b :: b in S ==> OpsOk(ops, b) && D.Last(b) <= last
    ensures forall e :: e in EntriesOf(ops, S) ==> e.ik.seqno <= last
  {
    hide OpsOk, EntriesOf;
    forall e | e in EntriesOf(ops, S) ensures e.ik.seqno <= last {
      var b := BatchOf(ops, S, e);
    }
  }

  /** What an opening process holds comes from the logs, in order, after what the tables account for. */
  lemma OpeningOrder(du: D.State)
    requires D.Inv(du) && OrderOk(du) && du.process.Up? && du.process.phase != D.Recovering && du.process.writing.None?
    ensures
      var p, d, v := du.process, du.disk, D.SyncedView(du.disk);
      && FromLogs(d, v.log.value, D.ImmSet(p)) && FromLogs(d, v.log.value, p.mem)
      && (forall b :: b in D.ImmSet(p) || b in p.mem ==> b in du.live && D.Last(b) <= p.last)
      && (forall b, c | b in D.ImmSet(p) && c in p.mem :: D.Last(b) < c.sequence)
      && forall b, c | b in Accounted(d, v.version) && (c in D.ImmSet(p) || c in p.mem) :: D.Last(b) < c.sequence
  {
    var p, d, v := du.process, du.disk, D.SyncedView(du.disk);
    hide D.ChangeOk, D.Replay, D.InTables, Accounted;
    forall b | b in D.ImmSet(p) || b in p.mem
      ensures D.InLogs(d, p.logNumber, b)
      ensures b in D.ImmSet(p) ==> exists n: nat :: p.logNumber <= n < p.logfile && D.InLog(d, n, b)
      ensures b in p.mem ==> D.InLog(d, p.logfile, b)
    {
      if b in D.ImmSet(p) {
        assert D.InOlderLogs(d, p.logNumber, p.logfile, b);
      }
    }
    forall b | b in D.ImmSet(p) || b in p.mem ensures b in du.live {
      assert D.Holds(d, v, b);
    }
    forall b, c | b in Accounted(d, v.version) && (c in D.ImmSet(p) || c in p.mem) ensures D.Last(b) < c.sequence {
      AccountedMeans(d, v.version, b);
      var m: nat :| p.logNumber <= m && D.InLog(d, m, c);
    }
  }

  /** Whatever a recovery has replayed, there is a store it leads to. */
  lemma ReopenExists(ops: Ops, db: State, du: D.State) returns (db': State)
    requires D.Inv(du) && OrderOk(du) && BatchesOk(ops, du) && LastOk(du) && Sturdy(db)
    requires du.process.Up? && du.process.phase != D.Recovering && du.process.writing.None?
    requires db.mem == [] && db.imm == None && db.lastSequence <= du.process.last
    requires Flushed(db) == EntriesOf(ops, Accounted(du.disk, D.SyncedView(du.disk).version))
    ensures Reopens(ops, db, D.ImmSet(du.process), du.process.mem, du.process.last, db')
  {
    hide Inv, ReadsHistory, EntriesOf, OpsOk, Accounted, D.Inv, Ordered, RecoversTo, FromLogs;
    var p, d, v := du.process, du.disk, D.SyncedView(du.disk);
    var tables, imm, mem := Accounted(d, v.version), D.ImmSet(p), p.mem;
    OpeningOrder(du);
    AccountedIsLive(du);
    HistoryParts(db);
    NoElements();
    LogEntriesUnique(ops, d, v, imm);
    LogEntriesUnique(ops, d, v, mem);
    EntriesFollow(ops, tables, imm);
    EntriesFollow(ops, tables, mem);
    EntriesFollow(ops, imm, mem);
    EntriesEnd(ops, imm, p.last);
    EntriesEnd(ops, mem, p.last);
    var chunks := [EntriesOf(ops, imm)];
    assert chunks[1..] == [] && Union(chunks) == EntriesOf(ops, imm);
    assert CanRecover(db.history + EntriesOf(ops, imm), [], EntriesOf(ops, mem), p.last);
    assert CanRecover(db.history, chunks, EntriesOf(ops, mem), p.last);
    db' := RecoveryExists(db, chunks, EntriesOf(ops, mem), p.last);
  }

  lemma AccountedIsLive(du: D.State)
    requires D.Inv(du)
    ensures forall b :: b in Accounted(du.disk, D.SyncedView(du.disk).version) ==> b in du.live
  {
    hide D.UpOk, D.Replay, D.InTables, Accounted;
    forall b | b in Accounted(du.disk, D.SyncedView(du.disk).version) ensures b in du.live {
      AccountedMeans(du.disk, D.SyncedView(du.disk).version, b);
      assert D.Holds(du.disk, D.SyncedView(du.disk), b);
    }
  }

  lemma FinishedRecovery(ops: Ops, j: Joint, step: D.Step, du': D.State)
    requires JointInv(ops, j) && step.FinishRecovery? && D.Next(j.du, step, du') && IsRunning(du'.process)
    ensures D.Inv(du') && OrderOk(du') && BatchesOk(ops, du') && LastOk(du')
    ensures du'.process.writing.None? && D.ImmSet(du'.process) == {} && j.db.lastSequence <= du'.process.last
    ensures D.SyncedView(du'.disk) == D.SyncedView(j.du.disk)
    ensures Accounted(du'.disk, D.SyncedView(du'.disk).version) == Accounted(j.du.disk, D.SyncedView(j.du.disk).version)
  {
    hide OrderOk, Sturdy, Flushed, EntriesOf, OpsOk, BatchesOk, D.ViewOk, D.Replay, D.ChangeOk, D.LogsOk;
    D.NextKeepsInv(j.du, step, du');
    NextKeepsOrder(j.du, step, du');
    BatchesKept(ops, j.du, step, du');
    ReplayedLast(ops, j.du, step.reused, step.number, step.recovered, step.last, du');
    SameAccounted(j.du.disk, du'.disk, D.SyncedView(j.du.disk).version);
  }

  lemma OpeningState(ops: Ops, j: Joint)
    requires JointInv(ops, j) && j.du.process.Up? && j.du.process.phase == D.Opening
    ensures j.du.process.writing.None? && j.db.lastSequence <= j.du.process.last
  {
    hide OrderOk, Sturdy, Flushed, EntriesOf, OpsOk, BatchesOk, D.ViewOk, D.DiskOk, D.Replay, D.ChangeOk, D.InTables;
  }

  /** Whenever the process can finish opening the database, the store it recovers exists. */
  lemma RecoveryNeverStuck(ops: Ops, j: Joint, step: D.Step, du': D.State) returns (db': State)
    requires JointInv(ops, j) && D.Next(j.du, step, du')
    requires (step.FinishRecovery? && IsRunning(du'.process)) || (step.Install? && j.du.process.phase == D.Opening)
    ensures StoreStep(ops, j, step, Joint(db', du'))
  {
    hide D.Inv, OrderOk, Sturdy, Flushed, EntriesOf, OpsOk, BatchesOk, LastOk, Accounted, Reopens;
    if step.FinishRecovery? {
      NotRunningYet(j.du, step, du');
      FinishedRecovery(ops, j, step, du');
      db' := ReopenExists(ops, j.db, du');
    } else {
      OpeningState(ops, j);
      db' := ReopenExists(ops, j.db, j.du);
    }
  }

  lemma NotRunningYet(du: D.State, step: D.Step, du': D.State)
    requires D.Next(du, step, du') && step.FinishRecovery?
    ensures du.process.Up? && du.process.phase == D.Recovering
  {
  }
}
