/**
 The compaction loop of db/db_impl.cc and the base-level scan of
 db/version_set.cc, proved against the drop rules of `CompactionRules`.
 */
module CompactionWork {
  import opened Keys
  import opened Levels
  import opened CompactionRules

  /** No file more than one level down covers the key. */
  ghost predicate IsBase(v: Version, level: nat, k: UserKey) {
    forall lvl, f | level + 2 <= lvl < NUM_LEVELS && f in v[lvl] :: !(f.smallest.user <= k <= f.largest.user)
  }

  ghost function BaseKeys(v: Version, level: nat): UserKey -> bool {
    k => IsBase(v, level, k)
  }

  ghost predicate CoversNone(files: seq<File>, k: UserKey) {
    forall f :: f in files ==> !(f.smallest.user <= k <= f.largest.user)
  }

  lemma FilesAround(files: seq<File>, p: nat, k: UserKey)
    requires (forall f :: f in files ==> FileOk(f)) && Disjoint(files) && p <= |files|
    requires forall i :: 0 <= i < p ==> files[i].largest.user < k
    requires p < |files| ==> k < files[p].smallest.user && k <= files[p].largest.user
    ensures CoversNone(files, k)
  {
    forall f | f in files ensures !(f.smallest.user <= k <= f.largest.user) {
      var i :| 0 <= i < |files| && files[i] == f;
      if i > p {
        assert files[p] in files && FileOk(files[p]);
        EntryWithinFile(files[p], files[p].entries[0]);
        assert Less(files[p].largest, files[i].smallest);
      }
    }
  }

  /** The kept ones of the first `n` entries, in order. */
  ghost function KeptPrefix(input: seq<Entry>, snapshot: nat, base: UserKey -> bool, n: nat): seq<Entry>
    requires n <= |input|
  {
    if n == 0 then []
    else
      KeptPrefix(input, snapshot, base, n - 1) + (if Dropped(input, snapshot, base, n - 1) then [] else [input[n - 1]])
  }

  lemma KeepsOneMore(input: seq<Entry>, snapshot: nat, base: UserKey -> bool, n: nat)
    requires n < |input| && Sorted(input) && Sorted(KeptPrefix(input, snapshot, base, n))
    requires Elements(KeptPrefix(input, snapshot, base, n)) ==
      set i | 0 <= i < n && !Dropped(input, snapshot, base, i) :: input[i]
    ensures Sorted(KeptPrefix(input, snapshot, base, n + 1))
    ensures Elements(KeptPrefix(input, snapshot, base, n + 1))
         == set i | 0 <= i < n + 1 && !Dropped(input, snapshot, base, i) :: input[i]
  {
    hide Dropped;
    var before, after := KeptPrefix(input, snapshot, base, n), KeptPrefix(input, snapshot, base, n + 1);
    var last := if Dropped(input, snapshot, base, n) then [] else [input[n]];
    assert after == before + last;
    forall j | 0 <= j < |before| ensures Less(before[j].ik, input[n].ik) {
      assert before[j] in Elements(before);
    }
    assert Elements(after) == Elements(before) + Elements(last);
  }

  lemma {:induction false} KeptPrefixMeaning(input: seq<Entry>, snapshot: nat, base: UserKey -> bool, n: nat)
    requires n <= |input| && Sorted(input)
    ensures Sorted(KeptPrefix(input, snapshot, base, n))
    ensures Elements(KeptPrefix(input, snapshot, base, n))
         == set i | 0 <= i < n && !Dropped(input, snapshot, base, i) :: input[i]
  {
    if n > 0 {
      KeptPrefixMeaning(input, snapshot, base, n - 1);
      KeepsOneMore(input, snapshot, base, n - 1);
    }
  }

  function Concat(files: seq<File>): seq<Entry> {
    if files == [] then [] else Concat(files[..|files| - 1]) + files[|files| - 1].entries
  }

  lemma ConcatSnoc(files: seq<File>, f: File)
    ensures Concat(files + [f]) == Concat(files) + f.entries
  {
    assert (files + [f])[..|files|] == files;
  }

  /** The fields the loop fills in for each output. */
  ghost predicate OutputOk(f: File) {
    && f.entries != []
    && f.smallest == f.entries[0].ik && f.largest == f.entries[|f.entries| - 1].ik
    && forall e :: e in f.entries ==> e.ik.seqno < MAX_SEQUENCE
  }

  ghost predicate ConsecutiveFrom(files: seq<File>, first: nat) {
    forall i :: 0 <= i < |files| ==> files[i].number == first + i
  }

  lemma SortedParts(a: seq<Entry>, b: seq<Entry>)
    requires Sorted(a + b)
    ensures Sorted(a) && Sorted(b)
    ensures forall i, j :: 0 <= i < |a| && 0 <= j < |b| ==> Less(a[i].ik, b[j].ik)
  {
    assert forall i :: 0 <= i < |a| ==> (a + b)[i] == a[i];
    assert forall j :: 0 <= j < |b| ==> (a + b)[|a| + j] == b[j];
  }

  lemma {:induction false} InConcat(files: seq<File>, i: nat, e: Entry)
    requires i < |files| && e in files[i].entries
    ensures e in Concat(files)
  {
    if i < |files| - 1 {
      InConcat(files[..|files| - 1], i, e);
    }
  }

  lemma EarlierEndsBefore(init: seq<File>, i: nat, last: File)
    requires i < |init| && OutputOk(init[i]) && OutputOk(last) && Sorted(Concat(init) + last.entries)
    ensures Less(init[i].largest, last.smallest)
  {
    SortedParts(Concat(init), last.entries);
    InConcat(init, i, init[i].entries[|init[i].entries| - 1]);
  }

  lemma JoinedEntries(init: seq<File>, last: File)
    requires FileEntries(init) == Elements(Concat(init))
    ensures FileEntries(init + [last]) == Elements(Concat(init) + last.entries)
  {
    var files := init + [last];
    assert last in files && forall f :: f in init ==> f in files;
    forall e ensures e in FileEntries(files) <==> e in FileEntries(init) || e in last.entries {
    }
  }

  /** Cutting one sorted run into files gives well-formed disjoint files. */
  lemma {:induction false} CutsAreDisjoint(files: seq<File>)
    requires (forall f :: f in files ==> OutputOk(f)) && Sorted(Concat(files))
    ensures (forall f :: f in files ==> FileOk(f)) && Disjoint(files)
    ensures FileEntries(files) == Elements(Concat(files))
  {
    if files != [] {
      var init, last := files[..|files| - 1], files[|files| - 1];
      assert files == init + [last];
      SortedParts(Concat(init), last.entries);
      CutsAreDisjoint(init);
      AddsCut(init, last);
    }
  }

  lemma AddsCut(init: seq<File>, last: File)
    requires (forall f :: f in init ==> FileOk(f) && OutputOk(f)) && OutputOk(last) && Disjoint(init)
    requires Sorted(Concat(init) + last.entries) && FileEntries(init) == Elements(Concat(init))
    ensures FileOk(last) && Disjoint(init + [last]) &&
      FileEntries(init + [last]) == Elements(Concat(init) + last.entries)
  {
    hide Concat, FileEntries, Elements;
    SortedParts(Concat(init), last.entries);
    forall i | 0 <= i < |init| ensures Less(init[i].largest, last.smallest) {
      assert init[i] in init;
      EarlierEndsBefore(init, i, last);
    }
    JoinedEntries(init, last);
  }

  /** What the loop remembers of the entry before. */
  datatype KeyState = KeyState(hasCurrent: bool, current: UserKey, lastSequence: nat)

  ghost predicate Tracks(state: KeyState, input: seq<Entry>, i: nat)
    requires i <= |input|
  {
    && (state.hasCurrent <==> i > 0 && Parses(input[i - 1].ik))
    && (!state.hasCurrent ==> state.lastSequence == MAX_SEQUENCE)
    && (state.hasCurrent ==> state.current == input[i - 1].ik.user && state.lastSequence == input[i - 1].ik.seqno)
  }

  lemma TracksDecides(state: KeyState, input: seq<Entry>, i: nat, snapshot: nat, base: UserKey -> bool)
    requires i < |input| && Tracks(state, input, i) && snapshot < MAX_SEQUENCE
    ensures Hidden(input, snapshot, i)
      <==>
        Parses(input[i].ik) && state.hasCurrent && state.current == input[i].ik.user && state.lastSequence <= snapshot
    ensures KeptPrefix(input, snapshot, base, i + 1)
      == KeptPrefix(input, snapshot, base, i) + (if Dropped(input, snapshot, base, i) then [] else [input[i]])
  {
  }

  class Compaction {
    const level: nat
    const inputVersion: Version
    var levelPtrs: array<nat>
    ghost var lastAsked: Option<UserKey>

    var outputs: seq<File>   // the last one is still being built while `building`
    var building: bool

    constructor (level: nat, inputVersion: Version)
      requires level + 1 < NUM_LEVELS && VersionOk(inputVersion)
      ensures this.level == level && this.inputVersion == inputVersion
      ensures Valid() && fresh(levelPtrs) && outputs == [] && !building && lastAsked == None
    {
      this.level := level;
      this.inputVersion := inputVersion;
      levelPtrs := new nat[NUM_LEVELS](_ => 0);
      lastAsked := None;
      outputs := [];
      building := false;
    }

    /** Every file a pointer has passed ends before the last key asked about. */
    ghost predicate Valid()
      reads this`levelPtrs, this`lastAsked, levelPtrs
    {
      && level + 1 < NUM_LEVELS && VersionOk(inputVersion) && levelPtrs.Length == NUM_LEVELS
      && (forall lvl :: 0 <= lvl < NUM_LEVELS ==> levelPtrs[lvl] <= |inputVersion[lvl]|)
      && (forall lvl, i | 0 <= lvl < NUM_LEVELS && 0 <= i < levelPtrs[lvl] ::
            lastAsked.Some? && inputVersion[lvl][i].largest.user < lastAsked.value)
    }

    /** Moves one level's pointer up to the first file that ends at or after the key. */
    method AdvancePointer(lvl: nat, k: UserKey) returns (covered: bool)
      requires Valid() && level + 2 <= lvl < NUM_LEVELS && lastAsked == Some(k)
      modifies levelPtrs
      ensures Valid()
      ensures covered <==> !CoversNone(inputVersion[lvl], k)
    {
      var files := inputVersion[lvl];
      while levelPtrs[lvl] < |files|
        invariant Valid()
        decreases |files| - levelPtrs[lvl]
      {
        var f := files[levelPtrs[lvl]];
        if k <= f.largest.user {
          if k >= f.smallest.user {
            assert f in files;
            return true;
          }
          break;
        }
        levelPtrs[lvl] := levelPtrs[lvl] + 1;
      }
      FilesAround(files, levelPtrs[lvl], k);
      return false;
    }

    /** Exact for keys asked about in increasing order, although no pointer ever moves back. */
    method IsBaseLevelForKey(k: UserKey) returns (base: bool)
      requires Valid() && (lastAsked.Some? ==> lastAsked.value <= k)
      modifies this`lastAsked, levelPtrs
      ensures Valid() && lastAsked == Some(k)
      ensures base <==> IsBase(inputVersion, level, k)
    {
      lastAsked := Some(k);
      for lvl := level + 2 to NUM_LEVELS
        invariant Valid() && lastAsked == Some(k)
        invariant forall l | level + 2 <= l < lvl :: CoversNone(inputVersion[l], k)
      {
        var covered := AdvancePointer(lvl, k);
        if covered {
          return false;
        }
      }
      return true;
    }

    /** Adds a kept entry to the current output, opening one if none is open. */
    method AddToOutput(e: Entry, firstNumber: nat)
      requires e.ik.seqno < MAX_SEQUENCE && (building ==> outputs != [])
      requires (forall f :: f in outputs ==> OutputOk(f)) && ConsecutiveFrom(outputs, firstNumber)
      modifies this`outputs, this`building
      ensures building && outputs != [] && (forall f :: f in outputs ==> OutputOk(f))
      ensures ConsecutiveFrom(outputs, firstNumber)
      ensures Concat(outputs) == old(Concat(outputs)) + [e]
    {
      var before := outputs;
      if !building {
        outputs := before + [File(firstNumber + |before|, 0, e.ik, e.ik, [e])];
        building := true;
        ConcatSnoc(before, outputs[|before|]);
      } else {
        var n := |before| - 1;
        var current := before[n];
        outputs := before[..n] + [current.(largest := e.ik, entries := current.entries + [e])];
        assert before == before[..n] + [current];
        assert current in before;
        ConcatSnoc(before[..n], current);
        ConcatSnoc(before[..n], outputs[n]);
      }
    }

    /** The drop decision for one key. */
    method DecideDrop(key: InternalKey, state: KeyState, smallestSnapshot: nat)
      returns (drop: bool, state': KeyState)
      requires Valid() && (lastAsked.Some? ==> lastAsked.value <= key.user)
      requires smallestSnapshot < MAX_SEQUENCE && (!state.hasCurrent ==> state.lastSequence == MAX_SEQUENCE)
      modifies this`lastAsked, levelPtrs
      ensures Valid() && (lastAsked.Some? ==> lastAsked.value <= key.user)
      ensures state'.hasCurrent <==> Parses(key)
      ensures state'.hasCurrent ==> state'.current == key.user && state'.lastSequence == key.seqno
      ensures !state'.hasCurrent ==> state'.lastSequence == MAX_SEQUENCE
      ensures drop <==> (Parses(key)
        && ((state.hasCurrent && state.current == key.user && state.lastSequence <= smallestSnapshot)
            || (key.kind == TYPE_DELETION && key.seqno <= smallestSnapshot && IsBase(inputVersion, level, key.user))))
    {
      drop, state' := false, state;
      if key.kind > TYPE_VALUE {
        state' := KeyState(false, 0.0, MAX_SEQUENCE);
      } else {
        if !state'.hasCurrent || key.user != state'.current {
          state' := KeyState(true, key.user, MAX_SEQUENCE);
        }
        if state'.lastSequence <= smallestSnapshot {
          drop := true;
        } else if key.kind == TYPE_DELETION && key.seqno <= smallestSnapshot {
          drop := IsBaseLevelForKey(key.user);
        }
        state' := state'.(lastSequence := key.seqno);
      }
    }

    /** The outputs hold exactly the kept ones of the first `i` entries. */
    ghost predicate Emitted(input: seq<Entry>, i: nat, smallestSnapshot: nat, firstNumber: nat)
      requires i <= |input|
      reads this`outputs, this`building
    {
      && (building ==> outputs != [])
      && (forall f :: f in outputs ==> OutputOk(f)) && ConsecutiveFrom(outputs, firstNumber)
      && Concat(outputs) == KeptPrefix(input, smallestSnapshot, BaseKeys(inputVersion, level), i)
    }

    method EmitUnlessDropped(input: seq<Entry>, i: nat, drop: bool, smallestSnapshot: nat, firstNumber: nat, full: bool)
      requires i < |input| && input[i].ik.seqno < MAX_SEQUENCE
      requires Emitted(input, i, smallestSnapshot, firstNumber)
      requires drop <==> Dropped(input, smallestSnapshot, BaseKeys(inputVersion, level), i)
      modifies this`outputs, this`building
      ensures Emitted(input, i + 1, smallestSnapshot, firstNumber)
    {
      if !drop {
        AddToOutput(input[i], firstNumber);
        if full {
          building := false;
        }
      }
    }

    /**
     DoCompactionWork over the merged input.  `stopBefore` and `full` are the
     cut decisions of ShouldStopBefore and of the output size limit.
     */
    method DoCompactionWork(input: seq<Entry>, smallestSnapshot: nat, firstNumber: nat,
                            stopBefore: seq<bool>, full: seq<bool>)
      requires Valid() && lastAsked == None && outputs == [] && !building
      requires Sorted(input) && forall e :: e in input ==> e.ik.seqno < MAX_SEQUENCE
      requires smallestSnapshot < MAX_SEQUENCE && |stopBefore| == |input| == |full|
      modifies this`lastAsked, this`outputs, this`building, levelPtrs
      ensures FileEntries(outputs) == Survivors(input, smallestSnapshot, BaseKeys(inputVersion, level))
      ensures (forall f :: f in outputs ==> FileOk(f)) && Disjoint(outputs)
      ensures ConsecutiveFrom(outputs, firstNumber)
    {
      hide VersionOk, Disjoint;
      var state := KeyState(false, 0.0, MAX_SEQUENCE);
      for i := 0 to |input|
        invariant Valid() && (lastAsked.Some? && i < |input| ==> lastAsked.value <= input[i].ik.user)
        invariant Tracks(state, input, i)
        invariant Emitted(input, i, smallestSnapshot, firstNumber)
      {
        if stopBefore[i] && building {
          building := false;
        }
        var drop;
        TracksDecides(state, input, i, smallestSnapshot, BaseKeys(inputVersion, level));
        drop, state := DecideDrop(input[i].ik, state, smallestSnapshot);
        EmitUnlessDropped(input, i, drop, smallestSnapshot, firstNumber, full[i]);
        assert i + 1 < |input| ==> Less(input[i].ik, input[i + 1].ik);
      }
      building := false;
      KeptPrefixMeaning(input, smallestSnapshot, BaseKeys(inputVersion, level), |input|);
      CutsAreDisjoint(outputs);
    }
  }
}
