/**
 The skip list of db/skiplist.h: one writer linking a node level by level while
 any number of readers walk the links, as interleaved atomic pointer steps.
 */
module SkipList {
  import opened Keys
  import opened Levels

  const MAX_HEIGHT: nat := 12
  const HEAD: nat := 0

  datatype Writer =
    | Idle
    | Searched(key: UserKey, prev: seq<nat>)
    | Linking(node: nat, prev: seq<nat>, level: nat, copied: bool)   // levels below `level` are linked

  datatype Reader =
    | Walking(target: UserKey, at: nat, level: nat, seen: set<nat>)
    | Done(target: UserKey, result: Option<nat>, seen: set<nat>)

  /** `seen` of a reader records the nodes present when it started; no step looks at it. */
  datatype State = State(
    keys: map<nat, UserKey>,
    next: map<nat, seq<Option<nat>>>,    // one link per level of the node
    maxHeight: nat,
    writer: Writer,
    readers: map<nat, Reader>
  )

  predicate HasLink(s: State, n: nat, level: nat) {
    n in s.next && level < |s.next[n]|
  }

  function Link(s: State, n: nat, level: nat): Option<nat>
    requires HasLink(s, n, level)
  {
    s.next[n][level]
  }

  /** KeyIsAfterNode: null counts as infinite. */
  predicate IsAfter(s: State, key: UserKey, n: Option<nat>) {
    n.Some? && n.value in s.keys && s.keys[n.value] < key
  }

  // ----- the lists behind the links -----

  /** The node before position `p` of a level's list. */
  function Before(list: seq<nat>, p: nat): nat
    requires p <= |list|
  {
    if p == 0 then HEAD else list[p - 1]
  }

  ghost predicate LinkedAt(s: State, list: seq<nat>, level: nat, p: nat) {
    && p <= |list| && HasLink(s, Before(list, p), level)
    && Link(s, Before(list, p), level) == if p < |list| then Some(list[p]) else None
  }

  ghost predicate SortedByKey(s: State, list: seq<nat>) {
    && (forall i :: 0 <= i < |list| ==> list[i] != HEAD && list[i] in s.keys)
    && (forall i, j :: 0 <= i < j < |list| ==> s.keys[list[i]] < s.keys[list[j]])
  }

  /** One level: its links spell out a list sorted by key. */
  ghost predicate LevelOk(s: State, list: seq<nat>, level: nat) {
    SortedByKey(s, list) && forall p :: 0 <= p <= |list| ==> LinkedAt(s, list, level, p)
  }

  ghost function Members(list: seq<nat>): set<nat> {
    set n | n in list
  }

  /** Every level is sorted and holds only nodes of the level below. */
  ghost predicate ListsOk(s: State, lists: seq<seq<nat>>) {
    && |lists| == MAX_HEIGHT
    && (forall l :: 0 <= l < MAX_HEIGHT ==> LevelOk(s, lists[l], l))
    && (forall l :: 1 <= l < MAX_HEIGHT ==> Members(lists[l]) <= Members(lists[l - 1]))
    && 1 <= s.maxHeight <= MAX_HEIGHT
    && (forall l :: s.maxHeight <= l < MAX_HEIGHT ==> lists[l] == [])
  }

  /** Position `p` of the list is where `key` belongs. */
  ghost predicate Place(s: State, list: seq<nat>, p: nat, key: UserKey)
    requires SortedByKey(s, list)
  {
    && p <= |list|
    && (forall i :: 0 <= i < p ==> s.keys[list[i]] < key)
    && (forall i :: p <= i < |list| ==> s.keys[list[i]] > key)
  }

  ghost predicate FoundPlace(s: State, list: seq<nat>, prev: nat, key: UserKey)
    requires SortedByKey(s, list)
  {
    exists p: nat :: Place(s, list, p, key) && Before(list, p) == prev
  }

  ghost predicate WriterOk(s: State, lists: seq<seq<nat>>)
    requires ListsOk(s, lists)
  {
    match s.writer
    case Idle => true
    case Searched(key, prev) =>
      |prev| == s.maxHeight && forall l :: 0 <= l < s.maxHeight ==> FoundPlace(s, lists[l], prev[l], key)
    case Linking(node, prev, level, copied) =>
      && node != HEAD && node in s.keys && node in s.next && |s.next[node]| == |prev|
      && 1 <= |prev| <= s.maxHeight && level <= |prev|
      && (level == |prev| ==> !copied)
      && (forall l :: level <= l < |prev| ==> FoundPlace(s, lists[l], prev[l], s.keys[node]))
      && (forall l :: 0 <= l < level ==> node in lists[l])
      && (forall l :: level <= l < MAX_HEIGHT ==> node !in lists[l])
      && (copied ==> HasLink(s, prev[level], level) && Link(s, node, level) == Link(s, prev[level], level))
  }

  ghost predicate ReaderOk(s: State, lists: seq<seq<nat>>, r: Reader)
    requires ListsOk(s, lists)
  {
    r.seen <= Members(lists[0]) &&
    match r
    case Walking(target, at, level, _) =>
      level < MAX_HEIGHT && (at == HEAD || (at in lists[level] && s.keys[at] < target))
    case Done(target, result, seen) =>
      && (result.Some? ==> result.value in lists[0] && s.keys[result.value] >= target)
      && (forall n :: n in seen && s.keys[n] >= target ==> result.Some? && s.keys[result.value] <= s.keys[n])
  }

  ghost predicate Inv(s: State, lists: seq<seq<nat>>) {
    && ListsOk(s, lists) && WriterOk(s, lists)
    && HEAD in s.next && HEAD !in s.keys
    && s.keys.Keys <= s.next.Keys
    && forall id :: id in s.readers ==> ReaderOk(s, lists, s.readers[id])
  }

  // ----- searching -----

  /** FindGreaterOrEqual, filling `prev` for every level in use. */
  method FindGreaterOrEqual(s: State, ghost lists: seq<seq<nat>>, key: UserKey)
    returns (r: Option<nat>, prev: seq<nat>)
    requires ListsOk(s, lists)
    ensures |prev| == s.maxHeight
    ensures forall l :: 0 <= l < s.maxHeight ==> NotAfter(s, lists[l], prev[l], key)
    ensures r.None? ==> forall n :: n in lists[0] ==> s.keys[n] < key
    ensures r.Some? ==> r.value in lists[0] && s.keys[r.value] >= key
    ensures r.Some? ==> forall n :: n in lists[0] && s.keys[n] >= key ==> s.keys[r.value] <= s.keys[n]
  {
    var x, level := HEAD, s.maxHeight - 1;
    ghost var p: nat := 0;
    prev := [];
    while true
      invariant 0 <= level < s.maxHeight && p <= |lists[level]| && x == Before(lists[level], p)
      invariant LowerTo(s, lists[level], p, key)
      invariant |prev| == s.maxHeight - 1 - level
      invariant forall l :: level < l < s.maxHeight ==> NotAfter(s, lists[l], prev[l - level - 1], key)
      decreases level, |lists[level]| - p
    {
      assert LevelOk(s, lists[level], level) && LinkedAt(s, lists[level], level, p);
      var next := Link(s, x, level);
      if IsAfter(s, key, next) {
        x := next.value;
        p := p + 1;
      } else {
        prev := [x] + prev;
        assert Splits(s, lists[level], p, key);
        if level == 0 {
          r := next;
          return;
        } else {
          p := DropLevel(s, lists, level, p, key);
          level := level - 1;
        }
      }
    }
  }

  ghost predicate LowerTo(s: State, list: seq<nat>, p: nat, key: UserKey)
    requires SortedByKey(s, list)
  {
    p <= |list| && forall i :: 0 <= i < p ==> s.keys[list[i]] < key
  }

  /** Everything before position `p` is below the key, everything from it on is not. */
  ghost predicate Splits(s: State, list: seq<nat>, p: nat, key: UserKey)
    requires SortedByKey(s, list)
  {
    LowerTo(s, list, p, key) && forall i :: p <= i < |list| ==> s.keys[list[i]] >= key
  }

  /** `prev` is the last node of the list below the key, or the head. */
  ghost predicate NotAfter(s: State, list: seq<nat>, prev: nat, key: UserKey)
    requires SortedByKey(s, list)
  {
    exists p: nat :: Splits(s, list, p, key) && Before(list, p) == prev
  }

  /** The node reached at one level has a position one level down. */
  lemma DropLevel(s: State, lists: seq<seq<nat>>, level: nat, p: nat, key: UserKey) returns (q: nat)
    requires ListsOk(s, lists) && 0 < level < MAX_HEIGHT && SortedByKey(s, lists[level])
    requires LowerTo(s, lists[level], p, key)
    ensures SortedByKey(s, lists[level - 1]) && q <= |lists[level - 1]| && p <= |lists[level]| &&
      Before(lists[level - 1], q) == Before(lists[level], p)
    ensures LowerTo(s, lists[level - 1], q, key)
  {
    if p == 0 {
      q := 0;
    } else {
      var n := lists[level][p - 1];
      assert n in Members(lists[level]);
      var i :| 0 <= i < |lists[level - 1]| && lists[level - 1][i] == n;
      q := i + 1;
      assert LevelOk(s, lists[level - 1], level - 1);
    }
  }

  // ----- steps -----

  datatype Step =
    | Search(key: UserKey, prev: seq<nat>)
    | Allocate(node: nat, height: nat)
    | CopyLink
    | PublishLink
    | Finish
    | StartRead(id: nat, target: UserKey)
    | ReadLink(id: nat)

  /** The writer's search, alone with its list: the key must be new. */
  ghost predicate SearchStep(s: State, lists: seq<seq<nat>>, key: UserKey, prev: seq<nat>, s': State)
    requires ListsOk(s, lists)
  {
    && s.writer.Idle? && |prev| == s.maxHeight
    && (forall l :: 0 <= l < s.maxHeight ==> NotAfter(s, lists[l], prev[l], key))
    && (forall n :: n in lists[0] ==> s.keys[n] != key)
    && s' == s.(writer := Searched(key, prev))
  }

  /** Picks a height, raises the list's height if needed and creates the node, still unlinked. */
  ghost predicate AllocateStep(s: State, node: nat, height: nat, s': State) {
    && s.writer.Searched? && 1 <= height <= MAX_HEIGHT && node != HEAD && node !in s.next && node !in s.keys
    && s' == s.(
         keys := s.keys[node := s.writer.key],
         next := s.next[node := seq(height, _ => None)],
         maxHeight := if height > s.maxHeight then height else s.maxHeight,
         writer := Linking(node,
                           if height > |s.writer.prev| then s.writer.prev + seq(height - |s.writer.prev|, _ => HEAD)
                                 else s.writer.prev[..height], 0, false))
  }

  ghost predicate CopyStep(s: State, s': State) {
    s.writer.Linking? && !s.writer.copied && s.writer.level < |s.writer.prev| &&
    var Linking(node, prev, level, _) := s.writer;
    && HasLink(s, prev[level], level) && HasLink(s, node, level)
    && s' == s.(next := s.next[node := s.next[node][level := Link(s, prev[level], level)]],
                writer := Linking(node, prev, level, true))
  }

  ghost predicate PublishStep(s: State, s': State) {
    s.writer.Linking? && s.writer.copied && s.writer.level < |s.writer.prev| &&
    var Linking(node, prev, level, _) := s.writer;
    && HasLink(s, prev[level], level)
    && s' == s.(next := s.next[prev[level] := s.next[prev[level]][level := Some(node)]],
                writer := Linking(node, prev, level + 1, false))
  }

  ghost predicate FinishStep(s: State, s': State) {
    s.writer.Linking? && s.writer.level == |s.writer.prev| && s' == s.(writer := Idle)
  }

  ghost predicate StartReadStep(s: State, lists: seq<seq<nat>>, id: nat, target: UserKey, s': State)
    requires ListsOk(s, lists)
  {
    s' == s.(readers := s.readers[id := Walking(target, HEAD, s.maxHeight - 1, Members(lists[0]))])
  }

  /** One pointer load of a reader in FindGreaterOrEqual. */
  function Advance(s: State, r: Reader): Reader
    requires r.Walking? && HasLink(s, r.at, r.level)
  {
    var next := Link(s, r.at, r.level);
    if IsAfter(s, r.target, next) then r.(at := next.value)
    else if r.level == 0 then Done(r.target, next, r.seen)
    else r.(level := r.level - 1)
  }

  ghost predicate ReadLinkStep(s: State, id: nat, s': State) {
    && id in s.readers && s.readers[id].Walking?
    && HasLink(s, s.readers[id].at, s.readers[id].level)
    && s' == s.(readers := s.readers[id := Advance(s, s.readers[id])])
  }

  ghost predicate Next(s: State, lists: seq<seq<nat>>, step: Step, s': State)
    requires ListsOk(s, lists)
  {
    match step
    case Search(key, prev) => SearchStep(s, lists, key, prev, s')
    case Allocate(node, height) => AllocateStep(s, node, height, s')
    case CopyLink => CopyStep(s, s')
    case PublishLink => PublishStep(s, s')
    case Finish => FinishStep(s, s')
    case StartRead(id, target) => StartReadStep(s, lists, id, target, s')
    case ReadLink(id) => ReadLinkStep(s, id, s')
  }

  // ----- every step keeps the invariant -----

  lemma PositionOf(list: seq<nat>, n: nat) returns (p: nat)
    requires n == HEAD || n in list
    ensures p <= |list| && Before(list, p) == n
  {
    if n == HEAD {
      p := 0;
    } else {
      var i :| 0 <= i < |list| && list[i] == n;
      p := i + 1;
    }
  }

  /** A reader never gets stuck: the link it needs exists. */
  lemma ReaderHasLink(s: State, lists: seq<seq<nat>>, id: nat)
    requires Inv(s, lists) && id in s.readers && s.readers[id].Walking?
    ensures HasLink(s, s.readers[id].at, s.readers[id].level)
  {
    var r := s.readers[id];
    assert ReaderOk(s, lists, r);
    var p := PositionOf(lists[r.level], r.at);
    assert LevelOk(s, lists[r.level], r.level) && LinkedAt(s, lists[r.level], r.level, p);
  }

  /** The first entry of a sorted list that is not below the target is the least such. */
  lemma NothingBetween(s: State, list: seq<nat>, p: nat, target: UserKey)
    requires SortedByKey(s, list) && LowerTo(s, list, p, target)
    requires p < |list| ==> s.keys[list[p]] >= target
    ensures forall n :: n in list && s.keys[n] >= target ==> p < |list| && s.keys[list[p]] <= s.keys[n]
  {
    forall n | n in list && s.keys[n] >= target ensures p < |list| && s.keys[list[p]] <= s.keys[n] {
      var i :| 0 <= i < |list| && list[i] == n;
    }
  }

  lemma LowerToBefore(s: State, list: seq<nat>, p: nat, target: UserKey)
    requires SortedByKey(s, list) && p <= |list| && (p == 0 || s.keys[list[p - 1]] < target)
    ensures LowerTo(s, list, p, target)
  {
  }

  lemma AdvanceKeepsReader(s: State, lists: seq<seq<nat>>, r: Reader)
    requires ListsOk(s, lists) && r.Walking? && ReaderOk(s, lists, r) && HasLink(s, r.at, r.level)
    ensures ReaderOk(s, lists, Advance(s, r))
  {
    var list := lists[r.level];
    var p := PositionOf(list, r.at);
    assert LevelOk(s, list, r.level) && LinkedAt(s, list, r.level, p);
    LowerToBefore(s, list, p, r.target);
    if !IsAfter(s, r.target, Link(s, r.at, r.level)) {
      if r.level == 0 {
        NothingBetween(s, list, p, r.target);
        assert forall n :: n in r.seen ==> n in list;
      } else if r.at != HEAD {
        assert r.at in Members(list);
      }
    }
  }

  lemma SearchedPlaces(s: State, lists: seq<seq<nat>>, key: UserKey, prev: seq<nat>, l: nat)
    requires ListsOk(s, lists) && l < s.maxHeight && |prev| == s.maxHeight && SortedByKey(s, lists[l])
    requires NotAfter(s, lists[l], prev[l], key) && forall n :: n in lists[0] ==> n in s.keys && s.keys[n] != key
    ensures FoundPlace(s, lists[l], prev[l], key)
  {
    var p: nat :| Splits(s, lists[l], p, key) && Before(lists[l], p) == prev[l];
    forall i | p <= i < |lists[l]| ensures s.keys[lists[l][i]] > key {
      LevelsNest(s, lists, l, lists[l][i]);
    }
    assert Place(s, lists[l], p, key);
  }

  lemma {:induction false} LevelsNest(s: State, lists: seq<seq<nat>>, l: nat, n: nat)
    requires ListsOk(s, lists) && l < MAX_HEIGHT && n in lists[l]
    ensures n in lists[0]
  {
    if l > 0 {
      assert n in Members(lists[l]);
      LevelsNest(s, lists, l - 1, n);
    }
  }

  ghost function InsertAt(list: seq<nat>, p: nat, n: nat): seq<nat>
    requires p <= |list|
  {
    list[..p] + [n] + list[p..]
  }

  /** Links untouched by a step keep a level in order. */
  lemma LevelUnchanged(s: State, s': State, list: seq<nat>, level: nat)
    requires LevelOk(s, list, level)
    requires forall n :: n in list ==> n in s'.keys && s'.keys[n] == s.keys[n]
    requires forall n :: n == HEAD || n in list ==>
      HasLink(s, n, level) ==> HasLink(s', n, level) && Link(s', n, level) == Link(s, n, level)
    ensures LevelOk(s', list, level)
  {
    forall p | 0 <= p <= |list| ensures LinkedAt(s', list, level, p) {
      assert LinkedAt(s, list, level, p);
    }
  }

  /** Publishing the copied link inserts the node into exactly one level. */
  lemma PublishedLevel(s: State, s': State, list: seq<nat>, level: nat, p: nat, node: nat)
    requires LevelOk(s, list, level) && node in s.keys && node != HEAD && node !in list
    requires Place(s, list, p, s.keys[node]) && HasLink(s, node, level) && s'.keys == s.keys
    requires Before(list, p) in s.next && Link(s, node, level) == (if p < |list| then Some(list[p]) else None)
    requires HasLink(s, Before(list, p), level)
    requires s'.next == s.next[Before(list, p) := s.next[Before(list, p)][level := Some(node)]]
    ensures LevelOk(s', InsertAt(list, p, node), level)
  {
    var list' := InsertAt(list, p, node);
    forall q | 0 <= q <= |list'| ensures LinkedAt(s', list', level, q) {
      if q <= p {
        assert LinkedAt(s, list, level, q);
        assert Before(list', q) == Before(list, q);
        assert q < p ==> Before(list, q) != Before(list, p);
      } else if q == p + 1 {
        assert Before(list', q) == node;
      } else {
        assert LinkedAt(s, list, level, q - 1);
        assert Before(list', q) == Before(list, q - 1);
        assert Before(list, q - 1) != Before(list, p);
      }
    }
  }

  lemma SearchKeepsInv(s: State, lists: seq<seq<nat>>, key: UserKey, prev: seq<nat>, s': State)
    requires Inv(s, lists) && SearchStep(s, lists, key, prev, s')
    ensures Inv(s', lists)
  {
    StepKeepsLists(s, s', lists);
    forall l | 0 <= l < s'.maxHeight ensures FoundPlace(s', lists[l], prev[l], key) {
      assert LevelOk(s, lists[l], l) && LevelOk(s, lists[0], 0);
      SearchedPlaces(s, lists, key, prev, l);
      SamePlace(s, s', lists[l], prev[l], key);
    }
    StepKeepsReaders(s, s', lists);
  }

  lemma SamePlace(s: State, s': State, list: seq<nat>, prev: nat, key: UserKey)
    requires SortedByKey(s, list) && SortedByKey(s', list) && FoundPlace(s, list, prev, key)
    requires forall n :: n in list ==> s'.keys[n] == s.keys[n]
    ensures FoundPlace(s', list, prev, key)
  {
    var p: nat :| Place(s, list, p, key) && Before(list, p) == prev;
    assert Place(s', list, p, key);
  }

  /** A step that changes no link of a listed node keeps the lists. */
  lemma StepKeepsLists(s: State, s': State, lists: seq<seq<nat>>)
    requires ListsOk(s, lists) && s.maxHeight <= s'.maxHeight <= MAX_HEIGHT
    requires forall n :: n in s.keys ==> n in s'.keys && s'.keys[n] == s.keys[n]
    requires forall l, n | 0 <= l < MAX_HEIGHT && (n == HEAD || n in lists[l]) && HasLink(s, n, l) ::
               HasLink(s', n, l) && Link(s', n, l) == Link(s, n, l)
    ensures ListsOk(s', lists)
  {
    forall l | 0 <= l < MAX_HEIGHT ensures LevelOk(s', lists[l], l) {
      assert LevelOk(s, lists[l], l);
      LevelUnchanged(s, s', lists[l], l);
    }
  }

  lemma StepKeepsReaders(s: State, s': State, lists: seq<seq<nat>>)
    requires ListsOk(s, lists) && ListsOk(s', lists) && s'.readers == s.readers
    requires forall n :: n in s.keys ==> n in s'.keys && s'.keys[n] == s.keys[n]
    requires forall id :: id in s.readers ==> ReaderOk(s, lists, s.readers[id])
    ensures forall id :: id in s'.readers ==> ReaderOk(s', lists, s'.readers[id])
  {
    forall id | id in s'.readers ensures ReaderOk(s', lists, s'.readers[id]) {
      var r := s.readers[id];
      assert ReaderOk(s, lists, r);
      assert LevelOk(s, lists[0], 0);
      if r.Walking? {
        assert LevelOk(s, lists[r.level], r.level);
      }
    }
  }

  lemma AllocateKeepsInv(s: State, lists: seq<seq<nat>>, node: nat, height: nat, s': State)
    requires Inv(s, lists) && AllocateStep(s, node, height, s')
    ensures Inv(s', lists)
  {
    StepKeepsLists(s, s', lists);
    StepKeepsReaders(s, s', lists);
    var prev := s'.writer.prev;
    forall l | 0 <= l < |prev| ensures FoundPlace(s', lists[l], prev[l], s.writer.key) {
      assert LevelOk(s', lists[l], l);
      if l < s.maxHeight {
        assert LevelOk(s, lists[l], l);
        SamePlace(s, s', lists[l], prev[l], s.writer.key);
      } else {
        assert Place(s', lists[l], 0, s.writer.key);
      }
    }
    forall l | 0 <= l < MAX_HEIGHT ensures node !in lists[l] {
      assert LevelOk(s, lists[l], l);
    }
  }

  lemma CopyKeepsInv(s: State, lists: seq<seq<nat>>, s': State)
    requires Inv(s, lists) && CopyStep(s, s')
    ensures Inv(s', lists)
  {
    var Linking(node, prev, level, _) := s.writer;
    StepKeepsLists(s, s', lists);
    StepKeepsReaders(s, s', lists);
    forall l | level <= l < |prev| ensures FoundPlace(s', lists[l], prev[l], s.keys[node]) {
      assert LevelOk(s, lists[l], l) && LevelOk(s', lists[l], l);
      SamePlace(s, s', lists[l], prev[l], s.keys[node]);
    }
    assert LevelOk(s, lists[level], level);
    assert FoundPlace(s, lists[level], prev[level], s.keys[node]);
  }

  /** The lists after publishing. */
  ghost function PublishedLists(s: State, lists: seq<seq<nat>>, p: nat): seq<seq<nat>>
    requires s.writer.Linking? && s.writer.level < |lists| && p <= |lists[s.writer.level]|
  {
    lists[s.writer.level := InsertAt(lists[s.writer.level], p, s.writer.node)]
  }

  lemma InsertMembers(list: seq<nat>, p: nat, n: nat)
    requires p <= |list|
    ensures Members(InsertAt(list, p, n)) == Members(list) + {n}
  {
    assert list == list[..p] + list[p..];
  }

  lemma PublishKeepsLists(s: State, lists: seq<seq<nat>>, s': State) returns (p: nat)
    requires Inv(s, lists) && PublishStep(s, s')
    ensures s.writer.level < |lists| && p <= |lists[s.writer.level]| && ListsOk(s', PublishedLists(s, lists, p))
  {
    var Linking(node, prev, level, _) := s.writer;
    assert LevelOk(s, lists[level], level);
    p :| Place(s, lists[level], p, s.keys[node]) && Before(lists[level], p) == prev[level];
    assert LinkedAt(s, lists[level], level, p);
    PublishedLevel(s, s', lists[level], level, p, node);
    InsertMembers(lists[level], p, node);
    var lists' := PublishedLists(s, lists, p);
    forall l | 0 <= l < MAX_HEIGHT ensures LevelOk(s', lists'[l], l) {
      assert LevelOk(s, lists[l], l);
      if l != level {
        LevelUnchanged(s, s', lists[l], l);
      }
    }
    forall l | 1 <= l < MAX_HEIGHT ensures Members(lists'[l]) <= Members(lists'[l - 1]) {
      if l == level {
        assert node in lists[l - 1];
      }
    }
  }

  lemma PublishKeepsInv(s: State, lists: seq<seq<nat>>, s': State) returns (lists': seq<seq<nat>>)
    requires Inv(s, lists) && PublishStep(s, s')
    ensures Inv(s', lists')
    ensures forall l :: 0 <= l < MAX_HEIGHT ==> Members(lists[l]) <= Members(lists'[l])
  {
    var Linking(node, prev, level, _) := s.writer;
    var p := PublishKeepsLists(s, lists, s');
    lists' := PublishedLists(s, lists, p);
    InsertMembers(lists[level], p, node);
    forall l | level < l < |prev| ensures FoundPlace(s', lists'[l], prev[l], s.keys[node]) {
      assert LevelOk(s, lists[l], l) && LevelOk(s', lists'[l], l);
      SamePlace(s, s', lists[l], prev[l], s.keys[node]);
    }
    assert node in Members(lists'[level]);
    ReadersKeepUp(s, s', lists, lists');
  }

  lemma ReadersKeepUp(s: State, s': State, lists: seq<seq<nat>>, lists': seq<seq<nat>>)
    requires ListsOk(s, lists) && ListsOk(s', lists') && s'.readers == s.readers && s'.keys == s.keys
    requires forall l :: 0 <= l < MAX_HEIGHT ==> Members(lists[l]) <= Members(lists'[l])
    requires forall id :: id in s.readers ==> ReaderOk(s, lists, s.readers[id])
    ensures forall id :: id in s'.readers ==> ReaderOk(s', lists', s'.readers[id])
  {
    forall id | id in s'.readers ensures ReaderOk(s', lists', s'.readers[id]) {
      var r := s.readers[id];
      assert ReaderOk(s, lists, r);
      assert forall n :: n in lists[0] ==> n in Members(lists'[0]);
      if r.Walking? && r.at != HEAD {
        assert r.at in Members(lists[r.level]) && r.at in Members(lists'[r.level]);
      }
    }
  }

  lemma FinishKeepsInv(s: State, lists: seq<seq<nat>>, s': State)
    requires Inv(s, lists) && FinishStep(s, s')
    ensures Inv(s', lists)
  {
    StepKeepsLists(s, s', lists);
    StepKeepsReaders(s, s', lists);
  }

  lemma ReadKeepsInv(s: State, lists: seq<seq<nat>>, id: nat, r: Reader, s': State)
    requires Inv(s, lists) && ReaderOk(s, lists, r) && s' == s.(readers := s.readers[id := r])
    ensures Inv(s', lists)
  {
    StepKeepsLists(s, s', lists);
    forall i | i in s'.readers ensures ReaderOk(s', lists, s'.readers[i]) {
      assert ReaderOk(s, lists, s'.readers[i]);
      assert LevelOk(s, lists[0], 0);
    }
    WriterUntouched(s, s', lists);
  }

  lemma WriterUntouched(s: State, s': State, lists: seq<seq<nat>>)
    requires ListsOk(s, lists) && ListsOk(s', lists) && WriterOk(s, lists)
    requires s'.keys == s.keys && s'.next == s.next && s'.maxHeight == s.maxHeight && s'.writer == s.writer
    ensures WriterOk(s', lists)
  {
    forall l, prev, key | 0 <= l < MAX_HEIGHT && LevelOk(s, lists[l], l) && FoundPlace(s, lists[l], prev, key)
      ensures LevelOk(s', lists[l], l) && FoundPlace(s', lists[l], prev, key)
    {
      assert LevelOk(s', lists[l], l);
      SamePlace(s, s', lists[l], prev, key);
    }
    assert forall l :: 0 <= l < MAX_HEIGHT ==> LevelOk(s, lists[l], l);
  }

  /** Every step of the writer or of a reader keeps every level sorted and nested and every reader on course. */
  lemma NextKeepsInv(s: State, lists: seq<seq<nat>>, step: Step, s': State) returns (lists': seq<seq<nat>>)
    requires Inv(s, lists) && Next(s, lists, step, s')
    ensures Inv(s', lists') && Members(lists[0]) <= Members(lists'[0])
  {
    lists' := lists;
    match step
    case Search(key, prev) => SearchKeepsInv(s, lists, key, prev, s');
    case Allocate(node, height) => AllocateKeepsInv(s, lists, node, height, s');
    case CopyLink => CopyKeepsInv(s, lists, s');
    case PublishLink => lists' := PublishKeepsInv(s, lists, s');
    case Finish => FinishKeepsInv(s, lists, s');
    case StartRead(id, target) =>
      ReadKeepsInv(s, lists, id, Walking(target, HEAD, s.maxHeight - 1, Members(lists[0])), s');
    case ReadLink(id) =>
      AdvanceKeepsReader(s, lists, s.readers[id]);
      ReadKeepsInv(s, lists, id, Advance(s, s.readers[id]), s');
  }

  ghost predicate Initial(s: State) {
    && s.keys == map[] && s.next == map[HEAD := seq(MAX_HEIGHT, _ => None)]
    && s.maxHeight == 1 && s.writer == Idle && s.readers == map[]
  }

  lemma InitialInv(s: State)
    requires Initial(s)
    ensures Inv(s, seq(MAX_HEIGHT, _ => []))
  {
    var lists: seq<seq<nat>> := seq(MAX_HEIGHT, _ => []);
    forall l | 0 <= l < MAX_HEIGHT ensures LevelOk(s, lists[l], l) {
      assert LinkedAt(s, [], l, 0);
    }
  }

  // ----- whole runs -----

  /** The links alone determine the list of a level. */
  lemma {:induction false} LevelListUnique(s: State, a: seq<nat>, b: seq<nat>, level: nat, k: nat)
    requires LevelOk(s, a, level) && LevelOk(s, b, level) && k <= |a|
    ensures k <= |b| && a[..k] == b[..k]
  {
    if k > 0 {
      LevelListUnique(s, a, b, level, k - 1);
      assert LinkedAt(s, a, level, k - 1) && LinkedAt(s, b, level, k - 1);
      assert Before(a, k - 1) == Before(b, k - 1) by {
        assert k - 1 > 0 ==> a[..k - 1][k - 2] == b[..k - 1][k - 2];
      }
      assert a[..k] == a[..k - 1] + [a[k - 1]];
      assert b[..k] == b[..k - 1] + [b[k - 1]];
    }
  }

  lemma ListsUnique(s: State, a: seq<seq<nat>>, b: seq<seq<nat>>)
    requires ListsOk(s, a) && ListsOk(s, b)
    ensures a == b
  {
    forall l | 0 <= l < MAX_HEIGHT ensures a[l] == b[l] {
      assert LevelOk(s, a[l], l) && LevelOk(s, b[l], l);
      LevelListUnique(s, a[l], b[l], l, |a[l]|);
      LevelListUnique(s, b[l], a[l], l, |b[l]|);
      assert a[l][..|a[l]|] == b[l][..|b[l]|];
    }
  }

  /** One step in terms of the links alone. */
  ghost predicate StepsTo(s: State, step: Step, s': State) {
    exists lists: seq<seq<nat>> :: ListsOk(s, lists) && Next(s, lists, step, s')
  }

  /** Every interleaving of one writer's pointer stores with any number of readers' loads. */
  ghost predicate IsRun(states: seq<State>, steps: seq<Step>) {
    && |states| == |steps| + 1 && Initial(states[0])
    && forall i :: 0 <= i < |steps| ==> StepsTo(states[i], steps[i], states[i + 1])
  }

  /** At every moment of every run all levels are sorted and nested and every reader is on course. */
  lemma {:induction false} RunsKeepInv(states: seq<State>, steps: seq<Step>, i: nat) returns (lists: seq<seq<nat>>)
    requires IsRun(states, steps) && i <= |steps|
    ensures Inv(states[i], lists)
  {
    if i == 0 {
      InitialInv(states[0]);
      lists := seq(MAX_HEIGHT, _ => []);
    } else {
      var before := RunsKeepInv(states, steps, i - 1);
      assert StepsTo(states[i - 1], steps[i - 1], states[i]);
      var chosen: seq<seq<nat>> :|
        ListsOk(states[i - 1], chosen) && Next(states[i - 1], chosen, steps[i - 1], states[i]);
      ListsUnique(states[i - 1], before, chosen);
      lists := NextKeepsInv(states[i - 1], before, steps[i - 1], states[i]);
    }
  }

  /** The reader `id` was started with this target over these nodes and has not been restarted. */
  predicate Serves(s: State, id: nat, target: UserKey, seen: set<nat>) {
    id in s.readers && s.readers[id].target == target && s.readers[id].seen == seen
  }

  predicate Restarts(step: Step, id: nat) {
    step.StartRead? && step.id == id
  }

  lemma {:induction false} SeenIsKept(states: seq<State>, steps: seq<Step>, i: nat, j: nat, id: nat, target: UserKey,
                                      seen: set<nat>)
    requires IsRun(states, steps) && i <= j <= |steps| && Serves(states[i], id, target, seen)
    requires forall k :: i <= k < j ==> !Restarts(steps[k], id)
    ensures Serves(states[j], id, target, seen)
  {
    if i < j {
      SeenIsKept(states, steps, i, j - 1, id, target, seen);
      assert StepsTo(states[j - 1], steps[j - 1], states[j]) && !Restarts(steps[j - 1], id);
    }
  }

  /**
   A search started at moment `i` and finished at moment `j`, whatever the writer did in between, returns a
   linked node not below its target and misses no node that was linked when it started.
   */
  lemma SearchMissesNothing(states: seq<State>, steps: seq<Step>, i: nat, j: nat, id: nat, target: UserKey,
                            before: seq<seq<nat>>, after: seq<seq<nat>>)
    requires IsRun(states, steps) && i < j <= |steps| && steps[i] == StartRead(id, target)
    requires forall k :: i < k < j ==> !Restarts(steps[k], id)
    requires ListsOk(states[i], before) && ListsOk(states[j], after)
    requires id in states[j].readers && states[j].readers[id].Done?
    ensures forall n :: n in before[0] ==> n in after[0]
    ensures (forall n :: n in after[0] ==> n in states[j].keys) &&
            var result := states[j].readers[id].result;
            && (result.Some? ==> result.value in after[0] && states[j].keys[result.value] >= target)
            && (forall n :: n in before[0] && states[j].keys[n] >= target ==>
                  result.Some? && states[j].keys[result.value] <= states[j].keys[n])
  {
    assert StepsTo(states[i], steps[i], states[i + 1]);
    var chosen: seq<seq<nat>> :| ListsOk(states[i], chosen) && Next(states[i], chosen, steps[i], states[i + 1]);
    ListsUnique(states[i], before, chosen);
    SeenIsKept(states, steps, i + 1, j, id, target, Members(before[0]));
    var lists := RunsKeepInv(states, steps, j);
    ListsUnique(states[j], lists, after);
    assert ReaderOk(states[j], after, states[j].readers[id]);
    assert LevelOk(states[j], after[0], 0);
    forall n | n in before[0] ensures n in Members(after[0]) {
      assert n in Members(before[0]);
    }
  }

  /** When the writer finishes an insertion its node is linked on every level below its height. */
  lemma FinishedInsertIsLinked(states: seq<State>, steps: seq<Step>, i: nat, lists: seq<seq<nat>>)
    requires IsRun(states, steps) && i < |steps| && steps[i].Finish? && ListsOk(states[i], lists)
    ensures states[i].writer.Linking? && |states[i].writer.prev| <= MAX_HEIGHT
    ensures forall l :: 0 <= l < |states[i].writer.prev| ==> states[i].writer.node in lists[l]
  {
    assert StepsTo(states[i], steps[i], states[i + 1]);
    var kept := RunsKeepInv(states, steps, i);
    ListsUnique(states[i], kept, lists);
  }

  // ----- progress -----

  /** Every step of a reader moves it to the next node of its level, or down a level, or ends its search. */
  lemma ReaderGetsNearer(s: State, lists: seq<seq<nat>>, id: nat, s': State)
    requires Inv(s, lists) && ReadLinkStep(s, id, s')
    ensures
      var r, r' := s.readers[id], s'.readers[id];
      && r.level < MAX_HEIGHT && r'.target == r.target
      && (r'.Walking? ==>
            (r'.level + 1 == r.level && r'.at == r.at) ||
            (r'.level == r.level && exists p: nat :: p < |lists[r.level]| && Before(lists[r.level], p) == r.at &&
                                                     r'.at == lists[r.level][p]))
  {
    var r := s.readers[id];
    assert ReaderOk(s, lists, r);
    var p := PositionOf(lists[r.level], r.at);
    assert LevelOk(s, lists[r.level], r.level) && LinkedAt(s, lists[r.level], r.level, p);
  }

  ghost predicate Leads(s: State, steps: seq<Step>, s': State)
    decreases |steps|
  {
    if steps == [] then s' == s else exists t :: StepsTo(s, steps[0], t) && Leads(t, steps[1..], s')
  }

  lemma LeadsOn(s: State, step: Step, t: State, more: seq<Step>, s': State)
    requires StepsTo(s, step, t) && Leads(t, more, s')
    ensures Leads(s, [step] + more, s')
  {
    hide StepsTo;
    assert ([step] + more)[1..] == more;
  }

  /** Where the key belongs in a sorted list. */
  lemma SplitExists(s: State, list: seq<nat>, key: UserKey) returns (p: nat)
    requires SortedByKey(s, list)
    ensures Splits(s, list, p, key)
  {
    p := 0;
    while p < |list| && s.keys[list[p]] < key
      invariant p <= |list| && LowerTo(s, list, p, key)
    {
      p := p + 1;
    }
  }

  lemma SearchFinds(s: State, lists: seq<seq<nat>>, key: UserKey) returns (prev: seq<nat>)
    requires ListsOk(s, lists)
    ensures |prev| == s.maxHeight && forall l :: 0 <= l < s.maxHeight ==> NotAfter(s, lists[l], prev[l], key)
  {
    prev := [];
    while |prev| < s.maxHeight
      invariant |prev| <= s.maxHeight && forall l :: 0 <= l < |prev| ==> NotAfter(s, lists[l], prev[l], key)
    {
      var l := |prev|;
      assert LevelOk(s, lists[l], l);
      var p := SplitExists(s, lists[l], key);
      assert NotAfter(s, lists[l], Before(lists[l], p), key);
      prev := prev + [Before(lists[l], p)];
    }
  }

  /** The link to be copied is there. */
  lemma PrevHasLink(s: State, lists: seq<seq<nat>>)
    requires Inv(s, lists) && s.writer.Linking? && s.writer.level < |s.writer.prev|
    ensures HasLink(s, s.writer.prev[s.writer.level], s.writer.level) && HasLink(s, s.writer.node, s.writer.level)
  {
    var Linking(node, prev, level, _) := s.writer;
    assert FoundPlace(s, lists[level], prev[level], s.keys[node]);
    var p: nat :| Place(s, lists[level], p, s.keys[node]) && Before(lists[level], p) == prev[level];
    assert LevelOk(s, lists[level], level) && LinkedAt(s, lists[level], level, p);
  }

  /** Linking can always be finished, level by level. */
  lemma {:induction false} LinksOn(s: State, lists: seq<seq<nat>>)
    returns (steps: seq<Step>, s': State, lists': seq<seq<nat>>)
    requires Inv(s, lists) && s.writer.Linking? && !s.writer.copied
    ensures Leads(s, steps, s') && Inv(s', lists') && s'.writer.Idle? && s'.keys == s.keys
    ensures forall l :: 0 <= l < MAX_HEIGHT ==> (s.writer.node in lists'[l] <==> l < |s.writer.prev|)
    ensures forall l :: 0 <= l < MAX_HEIGHT ==> Members(lists[l]) <= Members(lists'[l])
    decreases |s.writer.prev| - s.writer.level
  {
    hide ListsOk, FoundPlace, Members, ReaderOk, Leads;
    var Linking(node, prev, level, _) := s.writer;
    if level == |prev| {
      s' := s.(writer := Idle);
      lists' := lists;
      FinishKeepsInv(s, lists, s');
      assert StepsTo(s, Finish, s');
      steps := [Finish];
      LastStep(s, Finish, s');
    } else {
      var copied, published, after := LinksLevel(s, lists);
      var more;
      more, s', lists' := LinksOn(published, after);
      LeadsOn(copied, PublishLink, published, more, s');
      LeadsOn(s, CopyLink, copied, [PublishLink] + more, s');
      steps := [CopyLink] + ([PublishLink] + more);
    }
  }

  lemma LastStep(s: State, step: Step, s': State)
    requires StepsTo(s, step, s')
    ensures Leads(s, [step], s')
  {
    hide StepsTo;
    assert [step][1..] == [];
    assert Leads(s', [], s');
  }

  lemma LinksLevel(s: State, lists: seq<seq<nat>>) returns (copied: State, published: State, lists': seq<seq<nat>>)
    requires Inv(s, lists) && s.writer.Linking? && !s.writer.copied && s.writer.level < |s.writer.prev|
    ensures StepsTo(s, CopyLink, copied) && StepsTo(copied, PublishLink, published) && Inv(published, lists')
    ensures published.writer == s.writer.(level := s.writer.level + 1) && published.keys == s.keys
    ensures forall l :: 0 <= l < MAX_HEIGHT ==> Members(lists[l]) <= Members(lists'[l])
  {
    hide ListsOk, WriterOk, Members, ReaderOk;
    var Linking(node, prev, level, _) := s.writer;
    PrevHasLink(s, lists);
    copied := s.(next := s.next[node := s.next[node][level := Link(s, prev[level], level)]],
                 writer := Linking(node, prev, level, true));
    assert Next(s, lists, CopyLink, copied);
    CopyKeepsInv(s, lists, copied);
    PrevHasLink(copied, lists);
    published := copied.(next := copied.next[prev[level] := copied.next[prev[level]][level := Some(node)]],
                         writer := Linking(node, prev, level + 1, false));
    assert Next(copied, lists, PublishLink, published);
    lists' := PublishKeepsInv(copied, lists, published);
  }

  /**
   Whatever readers are under way, a key that is not in the list can be inserted with any height from 1 to 12: the
   writer is never stuck, and the new node ends up on exactly the lowest `height` levels.
   */
  lemma InsertCompletes(s: State, lists: seq<seq<nat>>, key: UserKey, node: nat, height: nat)
    returns (steps: seq<Step>, s': State, lists': seq<seq<nat>>)
    requires Inv(s, lists) && s.writer.Idle? && 1 <= height <= 12
    requires (forall n :: n in lists[0] ==> s.keys[n] != key) && node != HEAD && node !in s.next && node !in s.keys
    ensures Leads(s, steps, s') && Inv(s', lists') && s'.writer.Idle?
    ensures node in s'.keys && s'.keys[node] == key
    ensures forall l :: 0 <= l < MAX_HEIGHT ==> (node in lists'[l] <==> l < height)
    ensures forall l :: 0 <= l < MAX_HEIGHT ==> Members(lists[l]) <= Members(lists'[l])
  {
    hide ListsOk, WriterOk, FoundPlace, Members, ReaderOk, Leads, NotAfter;
    var prev := SearchFinds(s, lists, key);
    var searched := s.(writer := Searched(key, prev));
    assert Next(s, lists, Search(key, prev), searched);
    SearchKeepsInv(s, lists, key, prev, searched);
    var linking := Allocates(searched, lists, node, height);
    var more;
    more, s', lists' := LinksOn(linking, lists);
    LeadsOn(searched, Allocate(node, height), linking, more, s');
    LeadsOn(s, Search(key, prev), searched, [Allocate(node, height)] + more, s');
    steps := [Search(key, prev)] + ([Allocate(node, height)] + more);
  }

  lemma Allocates(s: State, lists: seq<seq<nat>>, node: nat, height: nat) returns (s': State)
    requires Inv(s, lists) && s.writer.Searched? && 1 <= height <= 12
    requires node != HEAD && node !in s.next && node !in s.keys
    ensures StepsTo(s, Allocate(node, height), s') && Inv(s', lists)
    ensures s'.writer.Linking? && !s'.writer.copied && s'.writer.node == node && |s'.writer.prev| == height
    ensures node in s'.keys && s'.keys[node] == s.writer.key
  {
    SearchedAllLevels(s, lists);
    hide ListsOk, WriterOk, ReaderOk;
    var prev := s.writer.prev;
    s' := s.(keys := s.keys[node := s.writer.key], next := s.next[node := seq(height, _ => None)],
             maxHeight := if height > s.maxHeight then height else s.maxHeight,
             writer := Linking(node, if height > |prev| then prev + seq(height - |prev|, _ => HEAD) else prev[..height],
                               0, false));
    assert Next(s, lists, Allocate(node, height), s');
    AllocateKeepsInv(s, lists, node, height, s');
  }

  lemma SearchedAllLevels(s: State, lists: seq<seq<nat>>)
    requires Inv(s, lists) && s.writer.Searched?
    ensures |s.writer.prev| == s.maxHeight
  {
  }
}
