/**
 What a client of the store sees, told from its own operations alone: a map that every batch updates in order, and
 snapshots that keep the map as it was when they were taken.
 */
module ClientView {
  import opened Keys
  import opened Levels
  import opened InputSelection
  import opened CompactionRules
  import opened CompactionWork
  import opened VersionBuilder
  import opened Installation
  import opened Database
  import opened SnapshotReads

  /** The last operation of the batch on the key decides; without one the key is as it was. */
  function Effect(batch: seq<WriteOp>, k: UserKey, before: ReadResult): ReadResult {
    if batch == [] then before
    else
      var op := batch[|batch| - 1];
      if op.key != k then Effect(batch[..|batch| - 1], k, before)
      else if op.kind == TYPE_VALUE then Found(op.value)
      else Absent
  }

  /** The map after the first `n` actions: writes update it, nothing else does. */
  function MapAfter(actions: seq<Action>, n: nat, k: UserKey): ReadResult
    requires n <= |actions|
  {
    if n == 0 then Absent
    else
      match actions[n - 1]
      case Write(batch) => Effect(batch, k, MapAfter(actions, n - 1, k))
      case _ => MapAfter(actions, n - 1, k)
  }

  // ----- the history is the map -----

  /** The batch's last operation on the key. */
  lemma {:induction false} LastOn(batch: seq<WriteOp>, k: UserKey, before: ReadResult) returns (i: nat)
    ensures i <= |batch|
    ensures i < |batch| ==>
              batch[i].key == k &&
              Effect(batch, k, before) == if batch[i].kind == TYPE_VALUE then Found(batch[i].value) else Absent
    ensures i == |batch| ==> Effect(batch, k, before) == before && forall j :: 0 <= j < |batch| ==> batch[j].key != k
    ensures forall j :: i < j < |batch| ==> batch[j].key != k
  {
    if batch == [] {
      i := 0;
    } else if batch[|batch| - 1].key == k {
      i := |batch| - 1;
    } else {
      var init := batch[..|batch| - 1];
      i := LastOn(init, k, before);
      if i == |init| {
        i := |batch|;
      }
    }
  }

  lemma NewestOfBatch(older: set<Entry>, batch: seq<WriteOp>, last: nat, k: UserKey, i: nat)
    requires Unique(older + Numbered(batch, last + 1)) && (forall e :: e in older ==> e.ik.seqno <= last)
    requires i < |batch| && batch[i].key == k && batch[i].kind <= TYPE_VALUE
    requires forall j :: i < j < |batch| ==> batch[j].key != k
    ensures Read(older + Numbered(batch, last + 1), k, last + |batch|) ==
            if batch[i].kind == TYPE_VALUE then Found(batch[i].value) else Absent
  {
    hide Unique, Read;
    var e := Entry(InternalKey(k, last + 1 + i, batch[i].kind), batch[i].value);
    forall f | f in Numbered(batch, last + 1) && Visible(f, k, last + |batch|) ensures f.ik.seqno <= e.ik.seqno {
      var j :| 0 <= j < |batch| && f == Entry(InternalKey(batch[j].key, last + 1 + j, batch[j].kind), batch[j].value);
    }
    assert e in Numbered(batch, last + 1);
    ReadIsNewest(older + Numbered(batch, last + 1), k, last + |batch|, e);
  }

  lemma OlderReads(older: set<Entry>, batch: seq<WriteOp>, last: nat, k: UserKey, q: nat)
    requires Unique(older) && Unique(older + Numbered(batch, last + 1)) && q <= last
    requires forall op :: op in batch ==> op.kind <= TYPE_VALUE
    ensures Read(older + Numbered(batch, last + 1), k, q) == Read(older, k, q)
  {
    NumberedRange(batch, last + 1);
    hide Numbered, Unique;
    ReadAgrees(older + Numbered(batch, last + 1), older, k, q, q);
  }

  lemma OtherKeysRead(older: set<Entry>, batch: seq<WriteOp>, last: nat, k: UserKey)
    requires Unique(older) && Unique(older + Numbered(batch,
                                                      last + 1)) && (forall e :: e in older ==> e.ik.seqno <= last)
    requires forall j :: 0 <= j < |batch| ==> batch[j].key != k
    ensures Read(older + Numbered(batch, last + 1), k, last + |batch|) == Read(older, k, last)
  {
    assert forall e :: e in Numbered(batch, last + 1) ==> e.ik.user != k;
    hide Numbered, Unique, Read;
    ReadAgrees(older + Numbered(batch, last + 1), older, k, last + |batch|, last);
  }

  /** A write updates the map, and leaves every snapshot taken before it alone. */
  lemma WriteIsUpdate(s: State, batch: seq<WriteOp>, s': State, k: UserKey)
    requires Inv(s) && WriteStep(s, batch, s')
    ensures Read(s'.history, k, s'.lastSequence) == Effect(batch, k, Read(s.history, k, s.lastSequence))
    ensures forall q: nat :: q <= s.lastSequence ==> Read(s'.history, k, q) == Read(s.history, k, q)
  {
    hide Sound, Layered, Effect, Read, Numbered, Unique, Sorted, Elements;
    WriteKeepsInv(s, batch, s');
    var i := LastOn(batch, k, Read(s.history, k, s.lastSequence));
    if i < |batch| {
      assert batch[i] in batch;
      NewestOfBatch(s.history, batch, s.lastSequence, k, i);
    } else {
      OtherKeysRead(s.history, batch, s.lastSequence, k);
    }
    forall q: nat | q <= s.lastSequence ensures Read(s'.history, k, q) == Read(s.history, k, q) {
      OlderReads(s.history, batch, s.lastSequence, k, q);
    }
  }

  /** Whatever else the store does between writes, its history reads like the map. */
  lemma {:induction false} HistoryIsMap(states: seq<State>, actions: seq<Action>, n: nat, k: UserKey)
    requires IsRun(states, actions) && n < |states|
    ensures Read(states[n].history, k, states[n].lastSequence) == MapAfter(actions, n, k)
  {
    hide Inv, Effect, CompactStep, FlushStep, MoveStep;
    if n == 0 {
      ReadNothing({}, k, 0);
    } else {
      HistoryIsMap(states, actions, n - 1, k);
      RunsKeepInv(states, actions, n - 1);
      var s, a, s' := states[n - 1], actions[n - 1], states[n];
      assert Next(s, a, s');
      if a.Write? {
        WriteIsUpdate(s, a.batch, s', k);
      } else {
        OthersWriteNothing(s, a, s');
      }
    }
  }

  lemma OthersWriteNothing(s: State, a: Action, s': State)
    requires Next(s, a, s') && !a.Write?
    ensures s'.history == s.history && s'.lastSequence == s.lastSequence
  {
  }

  /** What was written later has higher numbers. */
  lemma {:induction false} OldReadsStay(states: seq<State>, actions: seq<Action>, i: nat, n: nat, k: UserKey)
    requires IsRun(states, actions) && i <= n < |states|
    ensures states[i].lastSequence <= states[n].lastSequence
    ensures Read(states[n].history, k, states[i].lastSequence) == Read(states[i].history, k, states[i].lastSequence)
  {
    hide Inv, Effect, CompactStep, FlushStep, MoveStep;
    if i < n {
      OldReadsStay(states, actions, i, n - 1, k);
      RunsKeepInv(states, actions, n - 1);
      var s, a, s' := states[n - 1], actions[n - 1], states[n];
      assert Next(s, a, s');
      if a.Write? {
        WriteIsUpdate(s, a.batch, s', k);
      } else {
        OthersWriteNothing(s, a, s');
      }
    }
  }

  // ----- snapshots -----

  /** One more snapshot of sequence `q`, or one fewer. */
  function Taken(s: State, a: Action, q: nat): int {
    match a
    case TakeSnapshot => if s.lastSequence == q then 1 else 0
    case ReleaseSnapshot(index) => if index < |s.snapshots| && s.snapshots[index] == q then -1 else 0
    case _ => 0
  }

  /** Snapshots of sequence `q` taken, less those released, by actions `i` to `n`. */
  function NetTaken(states: seq<State>, actions: seq<Action>, i: nat, n: nat, q: nat): int
    requires i <= n <= |actions| < |states|
  {
    if n == i then 0 else NetTaken(states, actions, i, n - 1, q) + Taken(states[n - 1], actions[n - 1], q)
  }

  lemma StepCounts(s: State, a: Action, s': State, q: nat)
    requires Next(s, a, s')
    ensures multiset(s'.snapshots)[q] == multiset(s.snapshots)[q] + Taken(s, a, q)
  {
    hide CompactStep, FlushStep, MoveStep, WriteStep;
    match a
    case TakeSnapshot =>
    case ReleaseSnapshot(index) =>
      assert s.snapshots == s.snapshots[..index] + [s.snapshots[index]] + s.snapshots[index + 1..];
    case _ => OthersKeepSnapshots(s, a, s');
  }

  /** Taking and releasing change the number of snapshots of one sequence by one, and nothing else changes it. */
  lemma {:induction false} SnapshotsCounted(states: seq<State>, actions: seq<Action>, i: nat, n: nat, q: nat)
    requires IsRun(states, actions) && i <= n < |states|
    ensures multiset(states[n].snapshots)[q] == multiset(states[i].snapshots)[q] + NetTaken(states, actions, i, n, q)
  {
    hide Next, Taken, Initial;
    if i < n {
      SnapshotsCounted(states, actions, i, n - 1, q);
      StepCounts(states[n - 1], actions[n - 1], states[n], q);
    }
  }

  lemma OthersKeepSnapshots(s: State, a: Action, s': State)
    requires Next(s, a, s') && !a.TakeSnapshot? && !a.ReleaseSnapshot?
    ensures s'.snapshots == s.snapshots
  {
  }

  /**
   The store is a map: in every state of a run whose compactions leave nothing older at their next level, a read of
   the latest sequence finds what the client last wrote.
   */
  lemma LatestReadsFollowWrites(states: seq<State>, actions: seq<Action>, n: nat, k: UserKey)
    requires IsRun(states, actions) && n < |states|
    requires forall i :: 0 <= i < n ==> Recent(states[i], actions[i])
    ensures Read(AllEntries(states[n]), k, states[n].lastSequence) == MapAfter(actions, n, k)
  {
    hide Next, Recent, Initial;
    SnapshotsReadHistory(states, actions, n, k, states[n].lastSequence);
    HistoryIsMap(states, actions, n, k);
  }

  /**
   Snapshot isolation: a snapshot that action `i` takes and nobody releases, because fewer snapshots of its sequence
   are released than others hold, reads in any later state what the map was when it was taken, whatever is
   written, flushed and compacted meanwhile.
   */
  lemma SnapshotIsolation(states: seq<State>, actions: seq<Action>, i: nat, n: nat, k: UserKey)
    requires IsRun(states, actions) && i < n < |states| && actions[i].TakeSnapshot?
    requires forall j :: 0 <= j < n ==> Recent(states[j], actions[j])
    requires multiset(states[i].snapshots)[states[i].lastSequence] +
             NetTaken(states, actions, i + 1, n, states[i].lastSequence) >= 0
    ensures states[i].lastSequence in states[n].snapshots
    ensures Read(AllEntries(states[n]), k, states[i].lastSequence) == MapAfter(actions, i, k)
  {
    hide Recent, Initial, CompactStep, FlushStep, MoveStep, WriteStep;
    var q := states[i].lastSequence;
    assert Next(states[i], actions[i], states[i + 1]);
    SnapshotsCounted(states, actions, i + 1, n, q);
    assert q in multiset(states[n].snapshots);
    SnapshotsReadHistory(states, actions, n, k, q);
    OldReadsStay(states, actions, i, n, k);
    HistoryIsMap(states, actions, i, k);
  }
}
