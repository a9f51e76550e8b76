/**
 Which entries a compaction drops, and exactly when dropping them is invisible
 to every snapshot still in use.
 */
module CompactionRules {
  import opened Keys

  /** Rule (A): the entry before it hides it from every live snapshot. */
  ghost predicate Hidden(input: seq<Entry>, snapshot: nat, i: nat)
    requires i < |input|
  {
    && i > 0
    && Parses(input[i].ik) && Parses(input[i - 1].ik)
    && input[i - 1].ik.user == input[i].ik.user
    && input[i - 1].ik.seqno <= snapshot
  }

  /** The tombstone rule: an old deletion with nothing deeper to delete. */
  ghost predicate ObsoleteTombstone(input: seq<Entry>, snapshot: nat, base: UserKey -> bool, i: nat)
    requires i < |input|
  {
    input[i].ik.kind == TYPE_DELETION && input[i].ik.seqno <= snapshot && base(input[i].ik.user)
  }

  ghost predicate Dropped(input: seq<Entry>, snapshot: nat, base: UserKey -> bool, i: nat)
    requires i < |input|
  {
    Hidden(input, snapshot, i) || ObsoleteTombstone(input, snapshot, base, i)
  }

  ghost function Survivors(input: seq<Entry>, snapshot: nat, base: UserKey -> bool): set<Entry> {
    set i | 0 <= i < |input| && !Dropped(input, snapshot, base, i) :: input[i]
  }

  ghost function Unparsable(input: seq<Entry>): set<Entry> {
    set i | 0 <= i < |input| && !Parses(input[i].ik) :: input[i]
  }

  ghost predicate ReadsPreserved(before: set<Entry>, after: set<Entry>, snapshot: nat) {
    forall k, s :: s >= snapshot ==> Read(before, k, s) == Read(after, k, s)
  }

  /**
   A tombstone the compaction would drop while it is what snapshot `snapshot`
   reads must have nothing readable left under it: neither outside the inputs
   nor among the unparsable entries, which are never dropped.
   */
  ghost predicate NothingResurfaces(input: seq<Entry>, rest: set<Entry>, snapshot: nat, base: UserKey -> bool) {
    forall i :: 0 <= i < |input|
      && ObsoleteTombstone(input, snapshot, base, i)
      && IsNewest(Elements(input) + rest, input[i].ik.user, snapshot, input[i])
      ==> Read(rest + Unparsable(input), input[i].ik.user, snapshot) == Absent
  }

  /** Below a visible tombstone only an unparsable entry can shield a parsable one. */
  lemma ShieldedSurvivor(input: seq<Entry>, snapshot: nat, base: UserKey -> bool, i: nat, j: nat)
    requires Sorted(input) && i < j < |input| && input[i].ik.user == input[j].ik.user
    requires input[i].ik.seqno <= snapshot
    requires Parses(input[j].ik) && !Dropped(input, snapshot, base, j)
    ensures input[j - 1] in Unparsable(input) && input[j - 1] in Survivors(input, snapshot, base)
    ensures input[j - 1].ik.user == input[j].ik.user
    ensures input[j].ik.seqno <= input[j - 1].ik.seqno <= snapshot
  {
    assert Less(input[j - 1].ik, input[j].ik);
    assert i < j - 1 ==> Less(input[i].ik, input[j - 1].ik);
    assert !Parses(input[j - 1].ik);
    assert !Dropped(input, snapshot, base, j - 1);
  }

  /** What a dropped tombstone's key reads afterwards. */
  lemma ReadUnderDroppedTombstone(input: seq<Entry>, rest: set<Entry>, snapshot: nat, base: UserKey -> bool,
                                  i: nat, s: nat)
    requires Sorted(input) && Unique(Elements(input) + rest) && Elements(input) !! rest
    requires i < |input| && ObsoleteTombstone(input, snapshot, base, i)
    requires s >= snapshot && IsNewest(Elements(input) + rest, input[i].ik.user, s, input[i])
    ensures Read(Survivors(input, snapshot, base) + rest, input[i].ik.user, s)
         == Read(rest + Unparsable(input), input[i].ik.user, snapshot)
  {
    var k := input[i].ik.user;
    var S := Survivors(input, snapshot, base) + rest;
    var T := rest + Unparsable(input);
    assert S <= Elements(input) + rest && T <= Elements(input) + rest;
    if w :| w in S && Visible(w, k, s) {
      var e := NewestExists(S, k, s, w);
      forall j | i < j < |input| && Parses(input[j].ik) && input[j].ik.user == k
        && !Dropped(input, snapshot, base, j)
        ensures input[j] != e
      {
        ShieldedSurvivor(input, snapshot, base, i, j);
        assert input[j - 1] != input[j];
        assert Visible(input[j - 1], k, s);
      }
      assert e in T && IsNewest(T, k, snapshot, e);
      ReadIsNewest(S, k, s, e);
      ReadIsNewest(T, k, snapshot, e);
    } else {
      ReadNothing(T, k, snapshot);
    }
  }

  /** A key whose visible newest version survives, or lies outside, reads the same. */
  lemma ReadOfKeptVersion(before: set<Entry>, after: set<Entry>, k: UserKey, s: nat, e: Entry)
    requires Unique(before) && after <= before
    requires IsNewest(before, k, s, e) && e in after
    ensures Read(before, k, s) == Read(after, k, s)
  {
    ReadIsNewest(before, k, s, e);
    ReadIsNewest(after, k, s, e);
  }

  lemma ReadAfterDrops(input: seq<Entry>, rest: set<Entry>, snapshot: nat, base: UserKey -> bool,
                       k: UserKey, s: nat)
    requires Sorted(input) && Unique(Elements(input) + rest) && Elements(input) !! rest
    requires s >= snapshot && NothingResurfaces(input, rest, snapshot, base)
    ensures Read(Elements(input) + rest, k, s) == Read(Survivors(input, snapshot, base) + rest, k, s)
  {
    var before := Elements(input) + rest;
    var after := Survivors(input, snapshot, base) + rest;
    if w :| w in before && Visible(w, k, s) {
      var e := NewestExists(before, k, s, w);
      if e in after {
        ReadOfKeptVersion(before, after, k, s, e);
      } else {
        var i :| 0 <= i < |input| && input[i] == e;
        assert Dropped(input, snapshot, base, i);
        assert i > 0 ==> input[i - 1] in before && Less(input[i - 1].ik, input[i].ik);
        assert i > 0 && input[i - 1].ik.user == k && input[i - 1].ik.seqno <= s ==> Visible(input[i - 1], k, s);
        ReadUnderDroppedTombstone(input, rest, snapshot, base, i, s);
        assert IsNewest(before, k, snapshot, input[i]);
        ReadIsNewest(before, k, s, e);
      }
    } else {
      ReadNothing(before, k, s);
      ReadNothing(after, k, s);
    }
  }

  /**
   Compaction preserves every read at or above the oldest snapshot exactly
   when nothing resurfaces under a dropped tombstone.
   */
  lemma DropsAreInvisibleIff(input: seq<Entry>, rest: set<Entry>, snapshot: nat, base: UserKey -> bool)
    requires Sorted(input) && Unique(Elements(input) + rest) && Elements(input) !! rest
    ensures ReadsPreserved(Elements(input) + rest, Survivors(input, snapshot, base) + rest, snapshot)
        <==> NothingResurfaces(input, rest, snapshot, base)
  {
    var before := Elements(input) + rest;
    var after := Survivors(input, snapshot, base) + rest;
    if NothingResurfaces(input, rest, snapshot, base) {
      forall k, s | s >= snapshot ensures Read(before, k, s) == Read(after, k, s) {
        ReadAfterDrops(input, rest, snapshot, base, k, s);
      }
    }
    if ReadsPreserved(before, after, snapshot) {
      forall i | 0 <= i < |input|
        && ObsoleteTombstone(input, snapshot, base, i)
        && IsNewest(before, input[i].ik.user, snapshot, input[i])
        ensures Read(rest + Unparsable(input), input[i].ik.user, snapshot) == Absent
      {
        ReadUnderDroppedTombstone(input, rest, snapshot, base, i, snapshot);
        ReadIsNewest(before, input[i].ik.user, snapshot, input[i]);
        assert Read(before, input[i].ik.user, snapshot) == Read(after, input[i].ik.user, snapshot);
      }
    }
  }

  /**
   The source's own justification of the tombstone rule: data left outside the
   inputs is newer, or lies under a key that is not at its base level.
   */
  lemma RecencyPreventsResurfacing(input: seq<Entry>, rest: set<Entry>, snapshot: nat, base: UserKey -> bool)
    requires Sorted(input) && Unique(Elements(input) + rest)
    requires forall i :: 0 <= i < |input| ==> Parses(input[i].ik)
    requires forall i, f | 0 <= i < |input| && f in rest && f.ik.user == input[i].ik.user ::
               f.ik.seqno > input[i].ik.seqno || !base(f.ik.user)
    ensures NothingResurfaces(input, rest, snapshot, base)
  {
    forall i | 0 <= i < |input|
      && ObsoleteTombstone(input, snapshot, base, i)
      && IsNewest(Elements(input) + rest, input[i].ik.user, snapshot, input[i])
      ensures Read(rest + Unparsable(input), input[i].ik.user, snapshot) == Absent
    {
      var k := input[i].ik.user;
      forall f | f in rest + Unparsable(input) ensures !Visible(f, k, snapshot) {
        assert f in rest ==> f in Elements(input) + rest;
      }
      ReadNothing(rest + Unparsable(input), k, snapshot);
    }
  }

  const TOMBSTONE9 := Entry(InternalKey(1.0, 9, TYPE_DELETION), [])
  const UNKNOWN8 := Entry(InternalKey(1.0, 8, 2), [])
  const VALUE7 := Entry(InternalKey(1.0, 7, TYPE_VALUE), [65])
  const SHIELDED := [TOMBSTONE9, UNKNOWN8, VALUE7]

  lemma ShieldedInput()
    ensures Elements(SHIELDED) == {TOMBSTONE9, UNKNOWN8, VALUE7} && Sorted(SHIELDED) && Unique(Elements(SHIELDED))
  {
    assert SHIELDED[0] == TOMBSTONE9 && SHIELDED[1] == UNKNOWN8 && SHIELDED[2] == VALUE7;
  }

  lemma ShieldedSurvivors(base: UserKey -> bool)
    requires base(1.0)
    ensures Survivors(SHIELDED, 9, base) == {UNKNOWN8, VALUE7}
  {
    assert SHIELDED[0] == TOMBSTONE9 && SHIELDED[1] == UNKNOWN8 && SHIELDED[2] == VALUE7;
    assert Dropped(SHIELDED, 9, base, 0) && !Dropped(SHIELDED, 9, base, 1) && !Dropped(SHIELDED, 9, base, 2);
  }

  lemma ShieldedReads()
    ensures Read({TOMBSTONE9, UNKNOWN8, VALUE7}, 1.0, 9) == Absent && Read({UNKNOWN8, VALUE7}, 1.0, 9) == Corrupt
  {
    assert IsNewest({TOMBSTONE9, UNKNOWN8, VALUE7}, 1.0, 9, TOMBSTONE9);
    ReadIsNewest({TOMBSTONE9, UNKNOWN8, VALUE7}, 1.0, 9, TOMBSTONE9);
    assert IsNewest({UNKNOWN8, VALUE7}, 1.0, 9, UNKNOWN8);
    ReadIsNewest({UNKNOWN8, VALUE7}, 1.0, 9, UNKNOWN8);
  }

  /**
   An entry that does not parse makes the loop forget the key it was on, so a
   value two entries below a dropped tombstone survives under the bad entry and
   the key's read changes from absent to corrupt.
   */
  lemma UnparsableEntryResurfaces(base: UserKey -> bool)
    requires base(1.0)
    ensures Sorted(SHIELDED) && Unique(Elements(SHIELDED))
    ensures Read(Elements(SHIELDED), 1.0, 9) == Absent && Read(Survivors(SHIELDED, 9, base), 1.0, 9) == Corrupt
    ensures VALUE7 in Survivors(SHIELDED, 9, base)
  {
    ShieldedInput();
    ShieldedSurvivors(base);
    ShieldedReads();
  }
}
