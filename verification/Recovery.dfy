/**
 DBImpl::Recover's loops: the logs the MANIFEST still needs, in number order, each replayed into memtables that become
 tables when full, the last one possibly kept open. Together they do exactly what Durability's FinishRecovery demands.
 */
module Recovery {
  import opened Levels
  import opened Durability

  ghost predicate InSome(tables: seq<set<Batch>>, b: Batch) {
    exists i :: 0 <= i < |tables| && b in tables[i]
  }

  function Max(a: nat, b: int): nat {
    if b > a then b else a
  }

  ghost predicate IsHighest(before: nat, records: seq<Batch>, after: nat) {
    && before <= after && (forall b :: b in records ==> Last(b) <= after)
    && (after > before ==> exists b :: b in records && Last(b) == after)
  }

  lemma InSomeAppend(tables: seq<set<Batch>>, t: set<Batch>, b: Batch)
    ensures InSome(tables + [t], b) <==> InSome(tables, b) || b in t
  {
    if InSome(tables, b) {
      var i :| 0 <= i < |tables| && b in tables[i];
      assert (tables + [t])[i] == tables[i];
    }
    assert (tables + [t])[|tables|] == t;
  }

  /**
   RecoverLogFile. `full[i]` says whether the memtable is over the write buffer size after record `i`. The memtable is
   handed back only when this is the last log, logs are reused and none of it has become a table.
   */
  method RecoverLogFile(records: seq<Batch>, reuse: bool, full: seq<bool>, tables: seq<set<Batch>>, maxSequence: nat)
    returns (tables': seq<set<Batch>>, kept: bool, mem: set<Batch>, maxSequence': nat)
    requires |full| == |records|
    ensures kept ==> reuse && tables' == tables && mem == (set b | b in records)
    ensures !kept ==> forall b :: InSome(tables', b) <==> InSome(tables, b) || b in records
    ensures reuse && !kept ==> exists i :: 0 <= i < |full| && full[i]
    ensures IsHighest(maxSequence, records, maxSequence')
  {
    tables', maxSequence', kept := tables, maxSequence, false;
    var current: Option<set<Batch>> := None;
    var compactions := 0;
    for i := 0 to |records|
      invariant forall b ::
        InSome(tables', b) || (current.Some? && b in current.value) <==> InSome(tables, b) || b in records[..i]
      invariant compactions == 0 ==> tables' == tables && (current.Some? || i == 0)
      invariant compactions == 0 && current.Some? ==> current.value == set b | b in records[..i]
      invariant compactions > 0 ==> exists j :: 0 <= j < i && full[j]
      invariant IsHighest(maxSequence, records[..i], maxSequence')
    {
      assert records[..i + 1] == records[..i] + [records[i]];
      var m := (if current.Some? then current.value else {}) + {records[i]};
      maxSequence' := Max(maxSequence', Last(records[i]));
      if full[i] {
        forall b ensures InSome(tables' + [m], b) <==> InSome(tables', b) || b in m {
          InSomeAppend(tables', m, b);
        }
        tables', current, compactions := tables' + [m], None, compactions + 1;
      } else {
        current := Some(m);
      }
    }
    assert records[..|records|] == records;
    mem := if current.Some? then current.value else {};
    if reuse && compactions == 0 {
      kept := true;
    } else if current.Some? {
      forall b ensures InSome(tables' + [mem], b) <==> InSome(tables', b) || b in mem {
        InSomeAppend(tables', mem, b);
      }
      tables' := tables' + [mem];
    }
  }

  /** The logs to replay, oldest first. */
  ghost predicate IsListing(d: Disk, from: nat, logs: seq<nat>) {
    && (forall i, j :: 0 <= i < j < |logs| ==> logs[i] < logs[j])
    && (forall n: nat :: n in logs <==> n in d.logs && from <= n)
  }

  ghost predicate ReplayedUpTo(d: Disk, logs: seq<nat>, k: nat, b: Batch)
    requires k <= |logs|
  {
    exists i :: 0 <= i < k && InLog(d, logs[i], b)
  }

  /**
   The loop over the logs: the built tables and the kept memtable hold every record of every log, each log in one of
   them.
   */
  method RecoverLogs(d: Disk, from: nat, logs: seq<nat>, reuseLogs: bool, full: map<nat, seq<bool>>, last: nat)
    returns (tables: seq<set<Batch>>, reused: Option<nat>, mem: set<Batch>, last': nat)
    requires IsListing(d, from, logs)
    requires forall n :: n in logs ==> n in full && |full[n]| == |Records(d.logs[n])|
    ensures forall b :: InSome(tables, b) <==> Replayed(d, from, reused, b)
    ensures reused.Some? ==>
      reused.value in d.logs && from <= reused.value && forall n :: n in d.logs ==> n <= reused.value
    ensures forall b :: b in mem <==> reused.Some? && InLog(d, reused.value, b)
    ensures last <= last' && forall b :: InLogs(d, from, b) ==> Last(b) <= last'
    ensures last' > last ==> exists b :: InLogs(d, from, b) && Last(b) == last'
  {
    tables, reused, mem, last' := [], None, {}, last;
    for i := 0 to |logs|
      invariant reused.Some? ==> i == |logs| && 0 < i && reused.value == logs[i - 1]
      invariant reused.None? ==> mem == {}
      invariant reused.Some? ==> forall b :: b in mem <==> InLog(d, reused.value, b)
      invariant forall b :: InSome(tables, b) <==> ReplayedUpTo(d, logs, if reused.Some? then i - 1 else i, b)
      invariant last <= last' && forall j, b :: 0 <= j < i && InLog(d, logs[j], b) ==> Last(b) <= last'
      invariant last' > last ==> exists j, b :: 0 <= j < i && InLog(d, logs[j], b) && Last(b) == last'
    {
      assert logs[i] in logs;
      var records := Records(d.logs[logs[i]]);
      assert forall b :: b in records <==> InLog(d, logs[i], b);
      var reuse := reuseLogs && i == |logs| - 1;
      var t, kept, m, l := RecoverLogFile(records, reuse, full[logs[i]], tables, last');
      assert forall b :: ReplayedUpTo(d, logs, i + 1, b) <==> ReplayedUpTo(d, logs, i, b) || InLog(d, logs[i], b);
      tables, last' := t, l;
      if kept {
        reused, mem := Some(logs[i]), m;
      }
    }
    forall b ensures InSome(tables, b) <==> Replayed(d, from, reused, b) {
      ListingCovers(d, from, logs, reused, b);
    }
    assert reused.Some? ==> reused.value in logs;
    if last' > last {
      var j, b :| 0 <= j < |logs| && InLog(d, logs[j], b) && Last(b) == last';
      assert logs[j] in logs && InLogs(d, from, b);
    }
  }

  lemma ListingCovers(d: Disk, from: nat, logs: seq<nat>, reused: Option<nat>, b: Batch)
    requires IsListing(d, from, logs) && (reused.Some? ==> |logs| > 0 && reused.value == logs[|logs| - 1])
    ensures ReplayedUpTo(d, logs, if reused.Some? then |logs| - 1 else |logs|, b) <==> Replayed(d, from, reused, b)
  {
    var k := if reused.Some? then |logs| - 1 else |logs|;
    if ReplayedUpTo(d, logs, k, b) {
      var i :| 0 <= i < k && InLog(d, logs[i], b);
      assert logs[i] in logs;
    }
    if Replayed(d, from, reused, b) {
      var n: nat :| from <= n && reused != Some(n) && InLog(d, n, b);
      assert n in logs;
      var i :| 0 <= i < |logs| && logs[i] == n;
      assert i < k;
    }
  }
}
