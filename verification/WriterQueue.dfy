/**
 DBImpl::Write: writers queue up, the front one becomes the leader, groups the batches behind it, logs and applies
 them with the mutex released, and completes the whole group. Modelled as the atomic steps between mutex operations.
 */
module WriterQueue {
  import opened Levels
  import Batches = WriteBatch

  type Op = Batches.Op

  /** `size` is the byte size of the batch's representation. */
  datatype WriteBatch = WriteBatch(ops: seq<Op>, size: nat)

  /** A write without a batch only asks for a memtable compaction. */
  datatype Request = Request(batch: Option<WriteBatch>, sync: bool)

  datatype Status = Ok | Failed

  /** An operation in the memtable with its sequence number. */
  datatype Numbered = Numbered(sequence: nat, op: Op)

  /** A log record: one group. */
  datatype Record = Record(sequence: nat, ops: seq<Op>)

  function Ops(r: Request): seq<Op> {
    if r.batch.Some? then r.batch.value.ops else []
  }

  function Concat(group: seq<Request>): seq<Op> {
    if |group| == 0 then [] else Concat(group[..|group| - 1]) + Ops(group[|group| - 1])
  }

  function TotalSize(group: seq<Request>): nat {
    if |group| == 0 then 0
    else TotalSize(group[..|group| - 1]) +
         if group[|group| - 1].batch.Some? then group[|group| - 1].batch.value.size else 0
  }

  // ----- grouping -----

  const SMALL: nat := 0x20000      // 128 KiB
  const LARGE: nat := 0x100000     // 1 MiB

  function MaxSize(first: nat): nat {
    if first <= SMALL then first + SMALL else LARGE
  }

  /** Writer `i` may not join a group led by writer 0: it would go unsynced, or make the group too big. */
  predicate MustWait(queue: seq<Request>, i: nat)
    requires 0 < i < |queue| && queue[0].batch.Some?
  {
    || (queue[i].sync && !queue[0].sync)
    || (queue[i].batch.Some? && TotalSize(queue[..i + 1]) > MaxSize(queue[0].batch.value.size))
  }

  /** The leader's group is the longest run of the queue's front in which nobody must wait. */
  ghost predicate IsGroup(queue: seq<Request>, k: nat) {
    && 0 < k <= |queue| && queue[0].batch.Some?
    && (forall i :: 0 < i < k ==> !MustWait(queue, i))
    && (k < |queue| ==> MustWait(queue, k))
  }

  /** BuildBatchGroup. */
  method BuildBatchGroup(queue: seq<Request>) returns (k: nat, ops: seq<Op>)
    requires 0 < |queue| && queue[0].batch.Some?
    ensures IsGroup(queue, k) && ops == Concat(queue[..k])
    ensures !queue[0].sync ==> forall i :: 0 <= i < k ==> !queue[i].sync
  {
    hide Concat, TotalSize;
    var first := queue[0].batch.value;
    var size, maxSize := first.size, LARGE;
    if size <= SMALL {
      maxSize := size + SMALL;
    }
    k, ops := 1, first.ops;
    OneWriter(queue);
    while k < |queue|
      invariant 0 < k <= |queue| && size == TotalSize(queue[..k]) && ops == Concat(queue[..k])
      invariant forall i :: 0 < i < k ==> !MustWait(queue, i)
      invariant !queue[0].sync ==> forall i :: 0 <= i < k ==> !queue[i].sync
    {
      var w := queue[k];
      OneMoreWriter(queue, k);
      if w.sync && !queue[0].sync {
        break;
      }
      if w.batch.Some? {
        size := size + w.batch.value.size;
        if size > maxSize {
          break;
        }
        ops := ops + w.batch.value.ops;
      }
      k := k + 1;
    }
  }

  /**
   What a group may be: at most 1 MiB, or 128 KiB more than a first batch of at most 128 KiB, so that a small write
   does not wait for much; nobody who wants a sync behind a leader who does not; and the next in line has to wait.
   */
  lemma GroupLimits(queue: seq<Request>, k: nat)
    requires IsGroup(queue, k)
    ensures
      var first := queue[0].batch.value.size;
      var limit := if first <= 0x20000 then first + 0x20000 else 0x100000;
      && (TotalSize(queue[..k]) <= limit || TotalSize(queue[..k]) == first)
      && (k < |queue| ==> (queue[k].sync && !queue[0].sync) || TotalSize(queue[..k + 1]) > limit)
    ensures !queue[0].sync ==> forall i :: 0 <= i < k ==> !queue[i].sync
  {
    hide TotalSize;
    OneWriter(queue);
    var j := 1;
    while j < k
      invariant 1 <= j <= k
      invariant TotalSize(queue[..j]) <= MaxSize(queue[0].batch.value.size) ||
                TotalSize(queue[..j]) == queue[0].batch.value.size
    {
      assert !MustWait(queue, j);
      OneMoreWriter(queue, j);
      j := j + 1;
    }
    forall i | 0 <= i < k && !queue[0].sync ensures !queue[i].sync {
      assert i > 0 ==> !MustWait(queue, i);
    }
  }

  lemma OneWriter(queue: seq<Request>)
    requires 0 < |queue|
    ensures Concat(queue[..1]) == Ops(queue[0])
    ensures TotalSize(queue[..1]) == if queue[0].batch.Some? then queue[0].batch.value.size else 0
  {
    assert queue[..1] == [queue[0]] && queue[..1][..0] == [];
  }

  lemma OneMoreWriter(queue: seq<Request>, k: nat)
    requires k < |queue|
    ensures Concat(queue[..k + 1]) == Concat(queue[..k]) + Ops(queue[k])
    ensures TotalSize(queue[..k + 1]) ==
      TotalSize(queue[..k]) + if queue[k].batch.Some? then queue[k].batch.value.size else 0
  {
    assert queue[..k + 1][..k] == queue[..k];
  }

  // ----- the machine -----

  datatype Stage = Logging | Syncing | Inserting(pos: nat) | LogFailed | SyncFailed

  datatype Leader = Leader(size: nat, ops: seq<Op>, stage: Stage)

  /** A completed writer: the operations it wrote under consecutive numbers from `start`, and its group's log record. */
  datatype Completion = Completion(id: nat, start: nat, ops: seq<Op>, status: Status, logged: bool, record: nat)

  datatype State = State(
    queue: seq<nat>,
    requests: map<nat, Request>,
    lastSequence: nat,
    log: seq<Record>,
    syncedRecords: nat,
    mem: seq<Numbered>,
    leader: Option<Leader>,
    broken: bool,               // a background error: no more writes
    arrived: seq<nat>,          // history: every writer in queue order
    done: seq<Completion>       // history: completed writers
  )

  predicate Known(requests: map<nat, Request>, ids: seq<nat>) {
    forall i :: 0 <= i < |ids| ==> ids[i] in requests
  }

  function RequestsOf(requests: map<nat, Request>, ids: seq<nat>): seq<Request>
    requires Known(requests, ids)
  {
    seq(|ids|, i requires 0 <= i < |ids| => requests[ids[i]])
  }

  function Ids(done: seq<Completion>): seq<nat> {
    seq(|done|, i requires 0 <= i < |done| => done[i].id)
  }

  function Number(start: nat, ops: seq<Op>): seq<Numbered> {
    seq(|ops|, i requires 0 <= i < |ops| => Numbered(start + i, ops[i]))
  }

  datatype Where = MemTable | LogFile

  /** Successful writers are in the memtable; writers whose group was appended are in the log. */
  predicate Reached(c: Completion, place: Where) {
    if place.MemTable? then c.status.Ok? else c.logged
  }

  /** What completed writers put into the memtable or the log. */
  function Written(done: seq<Completion>, place: Where): seq<Numbered> {
    if |done| == 0 then []
    else Written(done[..|done| - 1], place) +
         if Reached(done[|done| - 1], place) then Number(done[|done| - 1].start, done[|done| - 1].ops) else []
  }

  function LogContents(log: seq<Record>): seq<Numbered> {
    if |log| == 0 then []
    else LogContents(log[..|log| - 1]) + Number(log[|log| - 1].sequence, log[|log| - 1].ops)
  }

  datatype Step =
    | Enqueue(id: nat, request: Request)
    | Bounce(status: Status)
    | Lead(size: nat)
    | AppendRecord(ok: bool)
    | SyncLog(ok: bool)
    | InsertOne
    | Finish

  ghost predicate EnqueueStep(s: State, id: nat, request: Request, s': State) {
    && id !in s.requests
    && s' == s.(queue := s.queue + [id], requests := s.requests[id := request], arrived := s.arrived + [id])
  }

  /** The front writer completes alone: there is no room, or it has no batch. */
  ghost predicate BounceStep(s: State, status: Status, s': State) {
    && s.leader.None? && s.queue != [] && s.queue[0] in s.requests
    && (status.Ok? ==> s.requests[s.queue[0]].batch.None? && !s.broken)
    && s' == s.(queue := s.queue[1..],
                done := s.done + [Completion(s.queue[0], s.lastSequence + 1, [], status, false, 0)])
  }

  ghost predicate LeadStep(s: State, size: nat, s': State) {
    && s.leader.None? && !s.broken && Known(s.requests, s.queue)
    && IsGroup(RequestsOf(s.requests, s.queue), size)
    && s' == s.(leader := Some(Leader(size, Concat(RequestsOf(s.requests, s.queue)[..size]), Logging)))
  }

  ghost predicate AppendStep(s: State, ok: bool, s': State) {
    s.leader.Some? && s.leader.value.stage.Logging? && s.queue != [] && s.queue[0] in s.requests &&
    var l := s.leader.value;
    if ok then
      s' == s.(log := s.log + [Record(s.lastSequence + 1, l.ops)],
               leader := Some(l.(stage := if s.requests[s.queue[0]].sync then Syncing else Inserting(0))))
    else s' == s.(leader := Some(l.(stage := LogFailed)))
  }

  ghost predicate SyncStep(s: State, ok: bool, s': State) {
    s.leader.Some? && s.leader.value.stage.Syncing? &&
    var l := s.leader.value;
    if ok then s' == s.(syncedRecords := |s.log|, leader := Some(l.(stage := Inserting(0))))
    else s' == s.(leader := Some(l.(stage := SyncFailed)))
  }

  /** InsertInto adds one operation at a time, in sight of readers. */
  ghost predicate InsertStep(s: State, s': State) {
    s.leader.Some? && s.leader.value.stage.Inserting? && s.leader.value.stage.pos < |s.leader.value.ops| &&
    var l, pos := s.leader.value, s.leader.value.stage.pos;
    s' == s.(mem := s.mem + [Numbered(s.lastSequence + 1 + pos, l.ops[pos])],
             leader := Some(l.(stage := Inserting(pos + 1))))
  }

  /** One completion for each writer of the group, in order, numbered from `start`. */
  function Completions(requests: map<nat, Request>, ids: seq<nat>, start: nat, status: Status, logged: bool,
                       record: nat): seq<Completion>
    requires Known(requests, ids)
  {
    if |ids| == 0 then []
    else
      var init, last := ids[..|ids| - 1], ids[|ids| - 1];
      Completions(requests, init, start, status, logged, record) +
      [Completion(last, start + |Concat(RequestsOf(requests, init))|, Ops(requests[last]), status, logged, record)]
  }

  /** The completions of the leader's group. */
  function GroupCompletions(s: State): seq<Completion>
    requires s.leader.Some? && s.leader.value.size <= |s.queue| && Known(s.requests, s.queue)
  {
    var l := s.leader.value;
    Completions(s.requests, s.queue[..l.size], s.lastSequence + 1, if l.stage.Inserting? then Ok else Failed,
                !l.stage.LogFailed?, if |s.log| > 0 then |s.log| - 1 else 0)
  }

  /** The mutex is held again: the last sequence moves past the group and its writers leave the queue. */
  ghost predicate FinishStep(s: State, s': State) {
    s.leader.Some? && s.leader.value.size <= |s.queue| && Known(s.requests, s.queue) &&
    var l := s.leader.value;
    && (l.stage.LogFailed? || l.stage.SyncFailed? || l.stage == Inserting(|l.ops|))
    && s' == s.(lastSequence := s.lastSequence + |l.ops|, queue := s.queue[l.size..], leader := None,
                broken := s.broken || l.stage.SyncFailed?,
                done := s.done + GroupCompletions(s))
  }

  ghost predicate Next(s: State, step: Step, s': State) {
    match step
    case Enqueue(id, request) => EnqueueStep(s, id, request, s')
    case Bounce(status) => BounceStep(s, status, s')
    case Lead(size) => LeadStep(s, size, s')
    case AppendRecord(ok) => AppendStep(s, ok, s')
    case SyncLog(ok) => SyncStep(s, ok, s')
    case InsertOne => InsertStep(s, s')
    case Finish => FinishStep(s, s')
  }

  // ----- the invariant -----

  /** The next writer starts where this one ends, the last one at the last sequence. */
  predicate FollowsAt(done: seq<Completion>, last: nat, i: nat)
    requires i < |done|
  {
    done[i].start + |done[i].ops| == if i + 1 < |done| then done[i + 1].start else last + 1
  }

  /** Completed writers used consecutive numbers, from 1 to the last sequence. */
  ghost predicate Consecutive(done: seq<Completion>, last: nat) {
    && (forall i: nat :: i < |done| ==> FollowsAt(done, last, i))
    && (if |done| > 0 then done[0].start == 1 else last == 0)
  }

  /** A successful synced write is in a log record that was synced. */
  ghost predicate SyncKept(s: State) {
    forall i :: 0 <= i < |s.done| ==> CompletionSynced(s, s.done[i])
  }

  predicate CompletionSynced(s: State, c: Completion) {
    && c.id in s.requests
    && (c.status.Ok? && s.requests[c.id].batch.Some? ==>
          && c.logged && c.ops == s.requests[c.id].batch.value.ops
          && (s.requests[c.id].sync ==> c.record < s.syncedRecords))
  }

  /** The group being written: a run of the queue's front, with no sync write behind a leader that will not sync. */
  ghost predicate GroupOk(s: State)
    requires Known(s.requests, s.queue)
  {
    s.leader.Some? ==>
      var Leader(size, ops, stage) := s.leader.value;
      && 0 < size <= |s.queue|
      && ops == Concat(RequestsOf(s.requests, s.queue[..size]))
      && (!s.requests[s.queue[0]].sync ==> forall i :: 0 <= i < size ==> !s.requests[s.queue[i]].sync)
  }

  /** What the leader has put into the memtable so far. */
  function Inserted(s: State): seq<Numbered> {
    if s.leader.Some? && s.leader.value.stage.Inserting? && s.leader.value.stage.pos <= |s.leader.value.ops|
    then Number(s.lastSequence + 1, s.leader.value.ops[..s.leader.value.stage.pos]) else []
  }

  /** What the leader has appended to the log so far. */
  function Appended(s: State): seq<Numbered> {
    if s.leader.Some? && !s.leader.value.stage.Logging? && !s.leader.value.stage.LogFailed?
    then Number(s.lastSequence + 1, s.leader.value.ops) else []
  }

  ghost predicate MemOk(s: State) {
    s.mem == Written(s.done, MemTable) + Inserted(s)
  }

  ghost predicate LogOk(s: State) {
    LogContents(s.log) == Written(s.done, LogFile) + Appended(s)
  }

  ghost predicate StageOk(s: State) {
    && s.syncedRecords <= |s.log|
    && (s.leader.Some? ==>
          var Leader(size, ops, stage) := s.leader.value;
          && (stage.Inserting? ==> stage.pos <= |ops|)
          && (!(stage.Logging? || stage.LogFailed?) ==> |s.log| > 0)
          && (stage.Inserting? && s.queue != [] && s.queue[0] in s.requests && s.requests[s.queue[0]].sync ==>
                s.syncedRecords == |s.log|))
  }

  /** Every writer that ever arrived has completed, in order, or still queues behind those that have. */
  ghost predicate QueueOk(s: State) {
    && s.arrived == Ids(s.done) + s.queue
    && (forall i, j :: 0 <= i < j < |s.arrived| ==> s.arrived[i] != s.arrived[j])
    && (forall id :: id in s.requests <==> id in s.arrived)
  }

  /** The memtable and the log hold what completed writers and the leader put there. */
  ghost predicate ContentsOk(s: State) {
    MemOk(s) && LogOk(s) && StageOk(s)
  }

  ghost predicate Inv(s: State) {
    && QueueOk(s) && Known(s.requests, s.queue)
    && Consecutive(s.done, s.lastSequence) && SyncKept(s) && GroupOk(s) && ContentsOk(s)
  }

  // ----- every step keeps it -----

  lemma NumberSplit(start: nat, a: seq<Op>, b: seq<Op>)
    ensures Number(start, a + b) == Number(start, a) + Number(start + |a|, b)
  {
  }

  lemma WrittenAppend(done: seq<Completion>, c: Completion, place: Where)
    ensures Written(done + [c], place) ==
      Written(done, place) + (if Reached(c, place) then Number(c.start, c.ops) else [])
  {
    assert (done + [c])[..|done|] == done;
  }

  lemma LogAppend(log: seq<Record>, r: Record)
    ensures LogContents(log + [r]) == LogContents(log) + Number(r.sequence, r.ops)
  {
    assert (log + [r])[..|log|] == log;
  }

  lemma ConsecutiveAppend(done: seq<Completion>, last: nat, c: Completion)
    requires Consecutive(done, last) && c.start == last + 1
    ensures Consecutive(done + [c], last + |c.ops|)
  {
    var all := done + [c];
    var last' := last + |c.ops|;
    forall i: nat | i < |all| ensures FollowsAt(all, last', i) {
      assert i < |done| ==> FollowsAt(done, last, i);
    }
  }

  lemma PrefixRequests(requests: map<nat, Request>, ids: seq<nat>, k: nat)
    requires k <= |ids| && Known(requests, ids)
    ensures RequestsOf(requests, ids)[..k] == RequestsOf(requests, ids[..k])
  {
  }

  lemma ConcatLast(requests: map<nat, Request>, ids: seq<nat>)
    requires |ids| > 0 && Known(requests, ids)
    ensures Concat(RequestsOf(requests, ids)) ==
            Concat(RequestsOf(requests, ids[..|ids| - 1])) + Ops(requests[ids[|ids| - 1]])
  {
    PrefixRequests(requests, ids, |ids| - 1);
  }

  lemma EmptyGroup(requests: map<nat, Request>, ids: seq<nat>, start: nat)
    requires ids == []
    ensures Known(requests, ids) && Concat(RequestsOf(requests, ids)) == [] && Number(start, []) == []
  {
  }

  /** Completing a group continues the numbering ... */
  lemma {:induction false} GroupIsConsecutive(requests: map<nat, Request>, ids: seq<nat>, done: seq<Completion>,
                                              last: nat,
                                              status: Status, logged: bool, record: nat)
    requires Known(requests, ids) && Consecutive(done, last)
    ensures Consecutive(done + Completions(requests, ids, last + 1, status, logged, record),
                        last + |Concat(RequestsOf(requests, ids))|)
  {
    hide Written, Number, Concat, RequestsOf, Consecutive;
    if |ids| == 0 {
      EmptyGroup(requests, ids, 0);
      assert done + [] == done;
    } else {
      var init := ids[..|ids| - 1];
      GroupIsConsecutive(requests, init, done, last, status, logged, record);
      ConcatLast(requests, ids);
      var ops := Concat(RequestsOf(requests, init));
      var before := Completions(requests, init, last + 1, status, logged, record);
      var c := Completion(ids[|ids| - 1], last + 1 + |ops|, Ops(requests[ids[|ids| - 1]]), status, logged, record);
      assert done + (before + [c]) == (done + before) + [c];
      ConsecutiveAppend(done + before, last + |ops|, c);
    }
  }

  /** ... and adds exactly the group's operations. */
  lemma {:induction false} GroupIsWritten(requests: map<nat, Request>, ids: seq<nat>, done: seq<Completion>, start: nat,
                                          status: Status, logged: bool, record: nat, place: Where)
    requires Known(requests, ids)
    ensures Written(done + Completions(requests, ids, start, status, logged, record), place) ==
            Written(done, place) +
            if (if place.MemTable? then status.Ok? else logged) then Number(start, Concat(RequestsOf(requests, ids)))
            else []
  {
    hide Written, Number, Concat, RequestsOf;
    if |ids| == 0 {
      EmptyGroup(requests, ids, start);
      assert done + [] == done;
    } else {
      var init := ids[..|ids| - 1];
      GroupIsWritten(requests, init, done, start, status, logged, record, place);
      ConcatLast(requests, ids);
      var ops := Concat(RequestsOf(requests, init));
      var before := Completions(requests, init, start, status, logged, record);
      var c := Completion(ids[|ids| - 1], start + |ops|, Ops(requests[ids[|ids| - 1]]), status, logged, record);
      assert Completions(requests, ids, start, status, logged, record) == before + [c];
      Associative(done, before, [c]);
      WrittenAppend(done + before, c, place);
      NumberSplit(start, ops, c.ops);
      Associative(Written(done, place), Number(start, ops), Number(start + |ops|, c.ops));
    }
  }

  lemma Associative<T>(a: seq<T>, b: seq<T>, c: seq<T>)
    ensures (a + b) + c == a + (b + c)
  {
  }

  lemma {:induction false} GroupIds(requests: map<nat, Request>, ids: seq<nat>, start: nat, status: Status,
                                    logged: bool, record: nat)
    requires Known(requests, ids)
    ensures
      var group := Completions(requests, ids, start, status, logged, record);
      && |group| == |ids|
      && forall i | 0 <= i < |group| :: group[i].id == ids[i] && group[i].ops == Ops(requests[ids[i]]) &&
                     group[i].status == status && group[i].logged == logged && group[i].record == record
  {
    if |ids| > 0 {
      GroupIds(requests, ids[..|ids| - 1], start, status, logged, record);
    }
  }

  lemma EnqueueKeepsQueue(s: State, id: nat, request: Request, s': State)
    requires QueueOk(s) && EnqueueStep(s, id, request, s')
    ensures QueueOk(s')
  {
    assert s'.arrived == Ids(s'.done) + s'.queue;
    assert id !in s.arrived;
  }

  lemma SameRequests(requests: map<nat, Request>, id: nat, request: Request, ids: seq<nat>)
    requires id !in requests && Known(requests, ids)
    ensures Known(requests[id := request], ids) && RequestsOf(requests[id := request], ids) == RequestsOf(requests, ids)
  {
  }

  lemma EnqueueKeepsGroup(s: State, id: nat, request: Request, s': State)
    requires Known(s.requests, s.queue) && GroupOk(s) && EnqueueStep(s, id, request, s')
    ensures Known(s'.requests, s'.queue) && GroupOk(s')
  {
    if s.leader.Some? {
      var size := s.leader.value.size;
      assert s'.queue[..size] == s.queue[..size];
      SameRequests(s.requests, id, request, s.queue[..size]);
      hide Concat, RequestsOf;
    }
  }

  /** Completed writes stay synced while the log only grows. */
  lemma KeepsSynced(s: State, s': State)
    requires SyncKept(s) && s'.done == s.done && s'.syncedRecords >= s.syncedRecords
    requires forall id :: id in s.requests ==> id in s'.requests && s'.requests[id] == s.requests[id]
    ensures SyncKept(s')
  {
    forall i | 0 <= i < |s.done| ensures CompletionSynced(s', s.done[i]) {
      assert CompletionSynced(s, s.done[i]);
    }
  }

  /** A step of a writer that is not the leader leaves the contents alone. */
  lemma SameContents(s: State, s': State)
    requires ContentsOk(s) && s'.done == s.done && s'.mem == s.mem && s'.log == s.log && s'.leader == s.leader
    requires s'.lastSequence == s.lastSequence && s'.syncedRecords == s.syncedRecords
    requires s'.queue != [] && s'.queue[0] in s'.requests ==> s.leader.Some? ==>
               && s.queue != [] && s'.queue[0] == s.queue[0] && s.queue[0] in s.requests
               && s'.requests[s.queue[0]] == s.requests[s.queue[0]]
    ensures ContentsOk(s')
  {
  }

  lemma EnqueueKeepsInv(s: State, id: nat, request: Request, s': State)
    requires Inv(s) && EnqueueStep(s, id, request, s')
    ensures Inv(s')
  {
    hide QueueOk, GroupOk, ContentsOk, Consecutive, SyncKept;
    EnqueueKeepsQueue(s, id, request, s');
    EnqueueKeepsGroup(s, id, request, s');
    KeepsSynced(s, s');
    LeaderLeadsQueue(s);
    SameContents(s, s');
  }

  lemma LeaderLeadsQueue(s: State)
    requires Known(s.requests, s.queue) && GroupOk(s)
    ensures s.leader.Some? ==> s.queue != [] && s.queue[0] in s.requests
  {
  }

  lemma BounceKeepsQueue(s: State, status: Status, s': State)
    requires QueueOk(s) && Known(s.requests, s.queue) && BounceStep(s, status, s')
    ensures QueueOk(s') && Known(s'.requests, s'.queue) && GroupOk(s')
  {
    assert Ids(s'.done) + s'.queue == Ids(s.done) + s.queue;
  }

  lemma BounceKeepsContents(s: State, status: Status, s': State)
    requires Consecutive(s.done, s.lastSequence) && ContentsOk(s) && BounceStep(s, status, s')
    ensures Consecutive(s'.done, s'.lastSequence) && ContentsOk(s')
  {
    var c := s'.done[|s.done|];
    assert s'.done == s.done + [c] && Number(c.start, c.ops) == [];
    WrittenAppend(s.done, c, MemTable);
    WrittenAppend(s.done, c, LogFile);
    ConsecutiveAppend(s.done, s.lastSequence, c);
  }

  lemma BounceKeepsInv(s: State, status: Status, s': State)
    requires Inv(s) && BounceStep(s, status, s')
    ensures Inv(s')
  {
    hide QueueOk, GroupOk, ContentsOk, Consecutive;
    BounceKeepsQueue(s, status, s');
    BounceKeepsContents(s, status, s');
    forall i | 0 <= i < |s'.done| ensures CompletionSynced(s', s'.done[i]) {
      assert i < |s.done| ==> CompletionSynced(s, s'.done[i]);
    }
  }

  lemma LeadKeepsGroup(s: State, size: nat, s': State)
    requires Known(s.requests, s.queue) && LeadStep(s, size, s')
    ensures GroupOk(s')
  {
    var queue := RequestsOf(s.requests, s.queue);
    PrefixRequests(s.requests, s.queue, size);
    forall i | 0 <= i < size && !queue[0].sync ensures !s.requests[s.queue[i]].sync {
      assert i > 0 ==> !MustWait(queue, i);
      assert queue[i] == s.requests[s.queue[i]];
    }
  }

  lemma LeadKeepsInv(s: State, size: nat, s': State)
    requires Inv(s) && LeadStep(s, size, s')
    ensures Inv(s')
  {
    hide GroupOk, Consecutive, IsGroup, Concat;
    LeadKeepsGroup(s, size, s');
    KeepsSynced(s, s');
  }

  /** Steps of the leader leave the queue and the completed writers alone. */
  lemma KeepsRest(s: State, s': State)
    requires Inv(s) && s.syncedRecords <= s'.syncedRecords && s.leader.Some? && s'.leader.Some?
    requires s' == s.(log := s'.log, mem := s'.mem, syncedRecords := s'.syncedRecords, leader := s'.leader)
    requires s'.leader.value == s.leader.value.(stage := s'.leader.value.stage)
    requires ContentsOk(s')
    ensures Inv(s')
  {
    hide Consecutive, ContentsOk, SyncKept;
    KeepsSynced(s, s');
  }

  lemma AppendKeepsContents(s: State, ok: bool, s': State)
    requires ContentsOk(s) && AppendStep(s, ok, s')
    ensures ContentsOk(s')
  {
    var l := s.leader.value;
    LogAppend(s.log, Record(s.lastSequence + 1, l.ops));
    assert Number(s.lastSequence + 1, l.ops[..0]) == [];
  }

  lemma SyncKeepsContents(s: State, ok: bool, s': State)
    requires ContentsOk(s) && SyncStep(s, ok, s')
    ensures ContentsOk(s') && s'.syncedRecords >= s.syncedRecords
  {
    hide Written, LogContents;
    assert Number(s.lastSequence + 1, s.leader.value.ops[..0]) == [];
  }

  lemma InsertKeepsContents(s: State, s': State)
    requires ContentsOk(s) && InsertStep(s, s')
    ensures ContentsOk(s')
  {
    var ops, pos := s.leader.value.ops, s.leader.value.stage.pos;
    var start := s.lastSequence + 1;
    assert Number(start, ops[..pos + 1]) == Number(start, ops[..pos]) + [Numbered(start + pos, ops[pos])];
    Associative(Written(s.done, MemTable), Number(start, ops[..pos]), [Numbered(start + pos, ops[pos])]);
  }

  lemma FinishGroup(s: State)
    requires s.leader.Some? && s.leader.value.size <= |s.queue| && Known(s.requests, s.queue)
    ensures
      var l, group := s.leader.value, GroupCompletions(s);
      && |group| == l.size
      && forall i | 0 <= i < |group| :: group[i].id == s.queue[i] && group[i].ops == Ops(s.requests[s.queue[i]]) &&
                     (group[i].status.Ok? <==> l.stage.Inserting?) && group[i].logged == !l.stage.LogFailed? &&
                     group[i].record == if |s.log| > 0 then |s.log| - 1 else 0
  {
    var l := s.leader.value;
    GroupIds(s.requests, s.queue[..l.size], s.lastSequence + 1, if l.stage.Inserting? then Ok else Failed,
             !l.stage.LogFailed?, if |s.log| > 0 then |s.log| - 1 else 0);
  }

  lemma FinishKeepsQueue(s: State, s': State)
    requires QueueOk(s) && FinishStep(s, s')
    ensures QueueOk(s') && Known(s'.requests, s'.queue) && GroupOk(s')
  {
    FinishGroup(s);
    FinishedIds(s.done, GroupCompletions(s), s.queue);
    hide GroupCompletions;
    assert s'.arrived == s.arrived;
  }

  /** Moving the front of the queue to the completed writers changes nothing in the order of arrival. */
  lemma FinishedIds(done: seq<Completion>, group: seq<Completion>, queue: seq<nat>)
    requires |group| <= |queue| && forall i :: 0 <= i < |group| ==> group[i].id == queue[i]
    ensures Ids(done + group) + queue[|group|..] == Ids(done) + queue
  {
  }

  lemma FinishKeepsSynced(s: State, s': State)
    requires Known(s.requests, s.queue) && SyncKept(s) && GroupOk(s) && StageOk(s) && FinishStep(s, s')
    ensures SyncKept(s')
  {
    FinishGroup(s);
    hide GroupCompletions, Concat, RequestsOf;
    forall i | 0 <= i < |s'.done| ensures CompletionSynced(s', s'.done[i]) {
      if i < |s.done| {
        assert CompletionSynced(s, s.done[i]);
      } else {
        assert s'.done[i].id == s.queue[i - |s.done|];
      }
    }
  }

  lemma FinishKeepsContents(s: State, s': State)
    requires Known(s.requests, s.queue) && Consecutive(s.done, s.lastSequence) && GroupOk(s) && ContentsOk(s) &&
      FinishStep(s, s')
    ensures Consecutive(s'.done, s'.lastSequence) && ContentsOk(s')
  {
    hide Consecutive, Written, LogContents, Number, Completions, Concat, RequestsOf;
    var l := s.leader.value;
    var status, logged := if l.stage.Inserting? then Ok else Failed, !l.stage.LogFailed?;
    var record := if |s.log| > 0 then |s.log| - 1 else 0;
    var ids := s.queue[..l.size];
    GroupIsConsecutive(s.requests, ids, s.done, s.lastSequence, status, logged, record);
    GroupIsWritten(s.requests, ids, s.done, s.lastSequence + 1, status, logged, record, MemTable);
    GroupIsWritten(s.requests, ids, s.done, s.lastSequence + 1, status, logged, record, LogFile);
    assert l.ops[..|l.ops|] == l.ops;
  }

  lemma FinishKeepsInv(s: State, s': State)
    requires Inv(s) && FinishStep(s, s')
    ensures Inv(s')
  {
    hide QueueOk, GroupOk, Consecutive, SyncKept, MemOk, LogOk, StageOk, GroupCompletions;
    FinishKeepsQueue(s, s');
    FinishKeepsSynced(s, s');
    FinishKeepsContents(s, s');
  }

  lemma NextKeepsInv(s: State, step: Step, s': State)
    requires Inv(s) && Next(s, step, s')
    ensures Inv(s')
  {
    hide QueueOk, GroupOk, Consecutive, SyncKept, ContentsOk;
    match step
    case Enqueue(id, request) => EnqueueKeepsInv(s, id, request, s');
    case Bounce(status) => BounceKeepsInv(s, status, s');
    case Lead(size) => LeadKeepsInv(s, size, s');
    case AppendRecord(ok) => AppendKeepsContents(s, ok, s'); KeepsRest(s, s');
    case SyncLog(ok) => SyncKeepsContents(s, ok, s'); KeepsRest(s, s');
    case InsertOne => InsertKeepsContents(s, s'); KeepsRest(s, s');
    case Finish => FinishKeepsInv(s, s');
  }

  // ----- whole runs -----

  ghost predicate Initial(s: State) {
    s == State([], map[], 0, [], 0, [], None, false, [], [])
  }

  ghost predicate IsRun(states: seq<State>, steps: seq<Step>) {
    && |states| == |steps| + 1 && Initial(states[0])
    && forall i :: 0 <= i < |steps| ==> Next(states[i], steps[i], states[i + 1])
  }

  lemma InitialInv(s: State)
    requires Initial(s)
    ensures Inv(s)
  {
    assert Ids(s.done) + s.queue == [];
  }

  lemma {:induction false} RunsKeepInv(states: seq<State>, steps: seq<Step>, i: nat)
    requires IsRun(states, steps) && i <= |steps|
    ensures Inv(states[i])
  {
    hide Inv, Next, Initial;
    if i > 0 {
      RunsKeepInv(states, steps, i - 1);
      NextKeepsInv(states[i - 1], steps[i - 1], states[i]);
    } else {
      InitialInv(states[0]);
    }
  }

  /**
   Whatever the interleaving: writers complete in the order they queued, none twice, and with the operations it
   brought, numbered consecutively; the log and, when no group is in progress, the memtable are their concatenation in
   that order; and a successful synced write is in a synced log record.
   */
  lemma WritersCompleteInOrder(states: seq<State>, steps: seq<Step>, i: nat)
    requires IsRun(states, steps) && i <= |steps|
    ensures Ids(states[i].done) <= states[i].arrived
    ensures forall a, b :: 0 <= a < b < |states[i].done| ==> states[i].done[a].id != states[i].done[b].id
    ensures Consecutive(states[i].done, states[i].lastSequence)
    ensures states[i].leader.None? ==>
      states[i].mem == Written(states[i].done, MemTable) &&
      LogContents(states[i].log) == Written(states[i].done, LogFile)
    ensures forall k :: 0 <= k < |states[i].done| ==> CompletionSynced(states[i], states[i].done[k])
  {
    var s := states[i];
    RunsKeepInv(states, steps, i);
    forall a, b | 0 <= a < b < |s.done| ensures s.done[a].id != s.done[b].id {
      assert s.arrived[a] == Ids(s.done)[a] && s.arrived[b] == Ids(s.done)[b];
    }
  }

  /** What a failed sync leaves: a background error on its way or recorded, and nothing written since. */
  ghost predicate Stopped(before: State, s: State) {
    && s.log == before.log && s.mem == before.mem && s.syncedRecords == before.syncedRecords
    && (if s.leader.Some? then s.leader.value.stage.SyncFailed? else s.broken)
    && before.done <= s.done && forall k :: |before.done| <= k < |s.done| ==> s.done[k].status.Failed?
  }

  lemma StaysStopped(before: State, s: State, step: Step, s': State)
    requires Stopped(before, s) && Next(s, step, s')
    ensures Stopped(before, s')
  {
    if step.Finish? {
      GroupIds(s.requests, s.queue[..s.leader.value.size], s.lastSequence + 1, Failed, true,
               if |s.log| > 0 then |s.log| - 1 else 0);
      hide Completions;
    }
  }

  /**
   After a failed sync the state of the log file is indeterminate, so no later write may succeed: nothing reaches the
   log or the memtable any more, and every writer still to complete fails, those of the unlucky group included.
   */
  lemma {:induction false} SyncErrorStopsWrites(states: seq<State>, steps: seq<Step>, i: nat, j: nat)
    requires IsRun(states, steps) && i < j <= |steps| && steps[i] == SyncLog(false)
    ensures states[j].log == states[i].log && states[j].mem == states[i].mem
    ensures states[j].syncedRecords == states[i].syncedRecords
    ensures states[i].done <= states[j].done
    ensures forall k :: |states[i].done| <= k < |states[j].done| ==> states[j].done[k].status.Failed?
    ensures Stopped(states[i], states[j])
  {
    assert Next(states[j - 1], steps[j - 1], states[j]);
    if i + 1 < j {
      SyncErrorStopsWrites(states, steps, i, j - 1);
      StaysStopped(states[i], states[j - 1], steps[j - 1], states[j]);
    }
  }

  /** The record a completed writer's group went into holds its operations, under its own numbers. */
  ghost predicate InItsRecord(log: seq<Record>, c: Completion) {
    c.logged ==>
      && c.record < |log| && log[c.record].sequence <= c.start
      && Slice(log[c.record].ops, c.start - log[c.record].sequence, c.ops)
  }

  predicate Slice(all: seq<Op>, from: nat, part: seq<Op>) {
    from + |part| <= |all| && all[from..from + |part|] == part
  }

  ghost predicate RecordsOk(s: State) {
    && (forall k :: 0 <= k < |s.done| ==> InItsRecord(s.log, s.done[k]))
    && (s.leader.Some? && !s.leader.value.stage.Logging? && !s.leader.value.stage.LogFailed? ==>
          |s.log| > 0 && s.log[|s.log| - 1] == Record(s.lastSequence + 1, s.leader.value.ops))
  }

  lemma {:induction false} GroupSlices(requests: map<nat, Request>, ids: seq<nat>, start: nat, status: Status,
                                       logged: bool, record: nat, k: nat)
    requires Known(requests, ids) && k < |Completions(requests, ids, start, status, logged, record)|
    ensures
      var c := Completions(requests, ids, start, status, logged, record)[k];
      start <= c.start && Slice(Concat(RequestsOf(requests, ids)), c.start - start, c.ops)
  {
    hide Concat, RequestsOf;
    if |ids| > 0 {
      var init := ids[..|ids| - 1];
      ConcatLast(requests, ids);
      if k < |Completions(requests, init, start, status, logged, record)| {
        GroupSlices(requests, init, start, status, logged, record, k);
      }
    }
  }

  lemma GroupInItsRecord(s: State, k: nat)
    requires Known(s.requests, s.queue) && GroupOk(s) && RecordsOk(s) && s.leader.Some?
    requires !s.leader.value.stage.Logging? && k < |GroupCompletions(s)|
    ensures InItsRecord(s.log, GroupCompletions(s)[k])
  {
    FinishGroup(s);
    var l := s.leader.value;
    GroupSlices(s.requests, s.queue[..l.size], s.lastSequence + 1, if l.stage.Inserting? then Ok else Failed,
                !l.stage.LogFailed?, if |s.log| > 0 then |s.log| - 1 else 0, k);
    PrefixRequests(s.requests, s.queue, l.size);
    hide Concat, RequestsOf, Completions, GroupCompletions;
  }

  lemma FinishKeepsRecords(s: State, s': State)
    requires Known(s.requests, s.queue) && GroupOk(s) && RecordsOk(s) && FinishStep(s, s')
    ensures RecordsOk(s')
  {
    hide GroupOk, Known, GroupCompletions, InItsRecord, Concat, RequestsOf;
    forall k | 0 <= k < |s'.done| ensures InItsRecord(s'.log, s'.done[k]) {
      if k < |s.done| {
        assert InItsRecord(s.log, s.done[k]);
      } else {
        GroupInItsRecord(s, k - |s.done|);
      }
    }
  }

  lemma NextKeepsRecords(s: State, step: Step, s': State)
    requires Inv(s) && RecordsOk(s) && Next(s, step, s')
    ensures RecordsOk(s')
  {
    hide Concat, RequestsOf, Completions, QueueOk, Consecutive, SyncKept, MemOk, LogOk, GroupCompletions;
    if step.Finish? {
      FinishKeepsRecords(s, s');
    } else {
      forall k | 0 <= k < |s'.done| ensures InItsRecord(s'.log, s'.done[k]) {
        assert k < |s.done| ==> InItsRecord(s.log, s.done[k]);
      }
    }
  }

  /** A completed writer whose group was logged finds its operations in that record, under its own numbers. */
  lemma {:induction false} WritesAreInTheirRecords(states: seq<State>, steps: seq<Step>, i: nat)
    requires IsRun(states, steps) && i <= |steps|
    ensures forall k :: 0 <= k < |states[i].done| ==> InItsRecord(states[i].log, states[i].done[k])
    ensures RecordsOk(states[i])
  {
    hide Inv, Next;
    if i > 0 {
      WritesAreInTheirRecords(states, steps, i - 1);
      RunsKeepInv(states, steps, i - 1);
      NextKeepsRecords(states[i - 1], steps[i - 1], states[i]);
    }
  }

  /** Later states extend earlier ones. */
  lemma {:induction false} HistoryGrows(states: seq<State>, steps: seq<Step>, i: nat, j: nat)
    requires IsRun(states, steps) && i <= j <= |steps|
    ensures states[i].done <= states[j].done && states[i].lastSequence <= states[j].lastSequence
  {
    if i < j {
      HistoryGrows(states, steps, i, j - 1);
      assert Next(states[j - 1], steps[j - 1], states[j]);
    }
  }

  lemma {:induction false} StartsAreOrdered(done: seq<Completion>, last: nat, i: nat, j: nat)
    requires Consecutive(done, last) && i < j < |done|
    ensures done[i].start + |done[i].ops| <= done[j].start
  {
    assert FollowsAt(done, last, j - 1);
    if i + 1 < j {
      StartsAreOrdered(done, last, i, j - 1);
    }
  }

  /** The memtable holds an operation under a number if some successful writer put it there. */
  lemma {:induction false} WrittenMeans(done: seq<Completion>, e: Numbered)
    ensures e in Written(done, MemTable) <==>
            exists i :: 0 <= i < |done| && done[i].status.Ok? && e in Number(done[i].start, done[i].ops)
  {
    if |done| > 0 {
      var init, c := done[..|done| - 1], done[|done| - 1];
      WrittenMeans(init, e);
      if e in Written(init, MemTable) {
        var i :| 0 <= i < |init| && init[i].status.Ok? && e in Number(init[i].start, init[i].ops);
        assert done[i] == init[i];
      }
      if exists i :: 0 <= i < |done| && done[i].status.Ok? && e in Number(done[i].start, done[i].ops) {
        var i :| 0 <= i < |done| && done[i].status.Ok? && e in Number(done[i].start, done[i].ops);
        assert i < |done| - 1 ==> init[i] == done[i];
      }
    }
  }

  /**
   Atomic batches: a reader that took the last sequence at moment `i` and looks at the memtable at any later moment `j`,
   in the middle of a group or not, sees every operation of every successful writer completed by moment `i` and
   no operation of any other.
   */
  lemma SnapshotSeesWholeBatches(states: seq<State>, steps: seq<Step>, i: nat, j: nat, e: Numbered)
    requires IsRun(states, steps) && i <= j <= |steps|
    ensures e in states[j].mem && e.sequence <= states[i].lastSequence <==>
            exists k :: 0 <= k < |states[i].done| && states[i].done[k].status.Ok? &&
                        e in Number(states[i].done[k].start, states[i].done[k].ops)
  {
    var early, late := states[i].done, states[j].done;
    RunsKeepInv(states, steps, i);
    RunsKeepInv(states, steps, j);
    HistoryGrows(states, steps, i, j);
    MemMeans(states[j], e);
    WrittenMeans(early, e);
    if e in Written(late, MemTable) && e.sequence <= states[i].lastSequence {
      WrittenMeans(late, e);
      var k :| 0 <= k < |late| && late[k].status.Ok? && e in Number(late[k].start, late[k].ops);
      LateStart(early, states[i].lastSequence, late, states[j].lastSequence, k);
      assert early[k] == late[k];
    }
    if e in Written(early, MemTable) {
      WrittenGrows(early, late, e);
      WrittenBounded(early, states[i].lastSequence, e);
    }
  }

  /** What is in the memtable up to the last sequence was put there by completed writers. */
  lemma MemMeans(s: State, e: Numbered)
    requires Inv(s)
    ensures e in Written(s.done, MemTable) ==> e in s.mem
    ensures e in s.mem && e.sequence <= s.lastSequence ==> e in Written(s.done, MemTable)
  {
  }

  lemma {:induction false} WrittenGrows(early: seq<Completion>, late: seq<Completion>, e: Numbered)
    requires early <= late && e in Written(early, MemTable)
    ensures e in Written(late, MemTable)
  {
    if |early| < |late| {
      WrittenGrows(early, late[..|late| - 1], e);
    } else {
      assert early == late;
    }
  }

  lemma WrittenBounded(done: seq<Completion>, last: nat, e: Numbered)
    requires Consecutive(done, last) && e in Written(done, MemTable)
    ensures e.sequence <= last
  {
    WrittenMeans(done, e);
    var k :| 0 <= k < |done| && done[k].status.Ok? && e in Number(done[k].start, done[k].ops);
    assert FollowsAt(done, last, |done| - 1);
    if k < |done| - 1 {
      StartsAreOrdered(done, last, k, |done| - 1);
    }
  }

  /** A writer completed after moment `i` has numbers above the last sequence of that moment. */
  lemma LateStart(early: seq<Completion>, earlyLast: nat, late: seq<Completion>, lateLast: nat, k: nat)
    requires Consecutive(early, earlyLast) && Consecutive(late, lateLast) && early <= late && k < |late|
    ensures k >= |early| ==> late[k].start > earlyLast
  {
    if |early| <= k {
      if |early| > 0 {
        assert FollowsAt(early, earlyLast, |early| - 1) && FollowsAt(late, lateLast, |early| - 1);
        assert early[|early| - 1] == late[|early| - 1];
      }
      if |early| < k {
        StartsAreOrdered(late, lateLast, |early|, k);
      }
    }
  }

  // ----- every writer completes -----

  /** The longest group the front writer may lead. */
  lemma GroupExists(queue: seq<Request>) returns (k: nat)
    requires queue != [] && queue[0].batch.Some?
    ensures IsGroup(queue, k)
  {
    hide MustWait;
    k := 1;
    while k < |queue| && !MustWait(queue, k)
      invariant 0 < k <= |queue| && forall i :: 0 < i < k ==> !MustWait(queue, i)
    {
      k := k + 1;
    }
  }

  /** How far the front of the queue still has to go. */
  function Rank(s: State): nat
    requires Known(s.requests, s.queue)
  {
    if s.leader.None? then |Concat(RequestsOf(s.requests, s.queue))| + 4
    else
      var Leader(_, ops, stage) := s.leader.value;
      match stage
      case Logging => |ops| + 3
      case Syncing => |ops| + 2
      case Inserting(pos) => if pos <= |ops| then |ops| - pos + 1 else 0
      case LogFailed => 1
      case SyncFailed => 1
  }

  ghost predicate Nearer(s: State, s': State)
    requires Known(s.requests, s.queue) && Known(s'.requests, s'.queue)
  {
    |s'.queue| < |s.queue| || (s'.queue == s.queue && Rank(s') < Rank(s))
  }

  lemma {:induction false} ConcatGrows(queue: seq<Request>, k: nat)
    requires k <= |queue|
    ensures |Concat(queue[..k])| <= |Concat(queue)|
    decreases |queue|
  {
    if k == |queue| {
      assert queue[..k] == queue;
    } else {
      ConcatGrows(queue[..|queue| - 1], k);
      assert queue[..|queue| - 1][..k] == queue[..k];
    }
  }

  lemma LeadGetsNearer(s: State, size: nat, s': State)
    requires Known(s.requests, s.queue) && LeadStep(s, size, s')
    ensures Nearer(s, s')
  {
    ConcatGrows(RequestsOf(s.requests, s.queue), size);
  }

  /** Logging, syncing and inserting: the leader's stage moves on. */
  lemma StageGetsNearer(s: State, ok: bool, s': State)
    requires Known(s.requests, s.queue) && StageOk(s) &&
      (AppendStep(s, ok, s') || SyncStep(s, ok, s') || InsertStep(s, s'))
    ensures Known(s'.requests, s'.queue) && Nearer(s, s')
  {
    hide Concat;
  }

  lemma FinishGetsNearer(s: State, s': State)
    requires Known(s.requests, s.queue) && GroupOk(s) && FinishStep(s, s')
    ensures |s'.queue| < |s.queue|
  {
    hide Concat, GroupCompletions;
  }

  /** Every step but the arrival of a new writer brings the queue nearer to its end. */
  lemma StepsGetNearer(s: State, step: Step, s': State)
    requires Inv(s) && Next(s, step, s') && !step.Enqueue?
    ensures Known(s'.requests, s'.queue) && Nearer(s, s')
  {
    NextKeepsInv(s, step, s');
    hide MemOk, LogOk, SyncKept, Consecutive, QueueOk, GroupOk, StageOk, Known, Rank;
    match step
    case Bounce(status) => assert |s'.queue| < |s.queue|;
    case Lead(size) => LeadGetsNearer(s, size, s');
    case AppendRecord(ok) => StageGetsNearer(s, ok, s');
    case SyncLog(ok) => StageGetsNearer(s, ok, s');
    case InsertOne => StageGetsNearer(s, true, s');
    case Finish => FinishGetsNearer(s, s');
  }

  /** While anyone is queued, some step other than an arrival is possible; without an error it serves the writer. */
  lemma SomeStep(s: State) returns (step: Step, s': State)
    requires Inv(s) && s.queue != []
    ensures Next(s, step, s') && !step.Enqueue?
    ensures s.leader.None? && !s.broken ==> step.Lead? || step == Bounce(Ok)
    ensures s.leader.Some? ==> !step.Bounce?
  {
    hide MemOk, LogOk, SyncKept, Consecutive, QueueOk;
    var queue := RequestsOf(s.requests, s.queue);
    if s.leader.None? {
      if !s.broken && queue[0].batch.Some? {
        var k := GroupExists(queue);
        step := Lead(k);
        s' := s.(leader := Some(Leader(k, Concat(queue[..k]), Logging)));
      } else {
        var status := if s.broken then Failed else Ok;
        step := Bounce(status);
        s' := s.(queue := s.queue[1..],
                 done := s.done + [Completion(s.queue[0], s.lastSequence + 1, [], status, false, 0)]);
      }
    } else {
      step, s' := LeaderStep(s);
    }
  }

  lemma LeaderStep(s: State) returns (step: Step, s': State)
    requires Known(s.requests, s.queue) && GroupOk(s) && StageOk(s) && s.leader.Some?
    ensures Next(s, step, s') && !step.Enqueue? && !step.Bounce?
  {
    var l := s.leader.value;
    if l.stage.Logging? {
      step := AppendRecord(true);
      s' := s.(log := s.log + [Record(s.lastSequence + 1, l.ops)],
               leader := Some(l.(stage := if s.requests[s.queue[0]].sync then Syncing else Inserting(0))));
    } else if l.stage.Syncing? {
      step := SyncLog(true);
      s' := s.(syncedRecords := |s.log|, leader := Some(l.(stage := Inserting(0))));
    } else if l.stage.Inserting? && l.stage.pos < |l.ops| {
      step := InsertOne;
      s' := s.(mem := s.mem + [Numbered(s.lastSequence + 1 + l.stage.pos, l.ops[l.stage.pos])],
               leader := Some(l.(stage := Inserting(l.stage.pos + 1))));
    } else {
      step := Finish;
      s' := s.(lastSequence := s.lastSequence + |l.ops|, queue := s.queue[l.size..], leader := None,
               broken := s.broken || l.stage.SyncFailed?, done := s.done + GroupCompletions(s));
    }
  }

  ghost predicate Drains(s: State, states: seq<State>, steps: seq<Step>) {
    && |states| == |steps| + 1 && states[0] == s
    && (forall i :: 0 <= i < |steps| ==> Next(states[i], steps[i], states[i + 1]) && !steps[i].Enqueue?)
  }

  /** From any reachable state the queue can be emptied, and then every writer that ever arrived has completed. */
  lemma {:induction false} EveryWriterCompletes(s: State) returns (states: seq<State>, steps: seq<Step>)
    requires Inv(s)
    ensures Drains(s, states, steps) && Ids(states[|steps|].done) == s.arrived
    decreases |s.queue|, Rank(s)
  {
    hide Next, ContentsOk, SyncKept, Consecutive, GroupOk, Rank;
    if s.queue == [] {
      states, steps := [s], [];
      assert s.arrived == Ids(s.done) + s.queue == Ids(s.done);
    } else {
      var step, s' := SomeStep(s);
      NextKeepsInv(s, step, s');
      StepsGetNearer(s, step, s');
      SameArrivals(s, step, s');
      var rest, more := EveryWriterCompletes(s');
      states, steps := [s] + rest, [step] + more;
      DrainsOn(s, step, s', rest, more);
    }
  }

  lemma DrainsOn(s: State, step: Step, s': State, states: seq<State>, steps: seq<Step>)
    requires Next(s, step, s') && !step.Enqueue? && Drains(s', states, steps)
    ensures Drains(s, [s] + states, [step] + steps)
    ensures ([s] + states)[|[step] + steps|] == states[|steps|]
  {
    hide Next;
    var longer, more := [s] + states, [step] + steps;
    assert forall i :: 0 < i < |more| ==>
      more[i] == steps[i - 1] && longer[i] == states[i - 1] && longer[i + 1] == states[i];
  }

  lemma SameArrivals(s: State, step: Step, s': State)
    requires Next(s, step, s') && !step.Enqueue?
    ensures s'.arrived == s.arrived
  {
  }
}
