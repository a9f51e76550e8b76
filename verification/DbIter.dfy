/**
 The user-level iterator of db/db_iter.cc over a sorted internal iterator: it is
 a cursor on the sorted list of live keys, in both directions.
 */
module DbIter {
  import opened Keys
  import opened Levels

  /** An internal iterator over a sorted run; invalid positions are all one past the end. */
  class Cursor {
    const entries: seq<Entry>
    var pos: nat

    constructor (entries: seq<Entry>)
      ensures this.entries == entries && pos == |entries|
    {
      this.entries := entries;
      pos := |entries|;
    }

    ghost predicate Ok()
      reads this
    {
      pos <= |entries|
    }

    predicate Valid()
      reads this
    {
      pos < |entries|
    }

    method SeekToFirst()
      modifies this
      ensures Ok() && pos == 0
    {
      pos := 0;
    }

    method SeekToLast()
      modifies this
      ensures Ok() && pos == if entries == [] then 0 else |entries| - 1
    {
      pos := if entries == [] then 0 else |entries| - 1;
    }

    method Seek(target: InternalKey)
      modifies this
      ensures Ok() && pos == SeekIn(entries, target)
    {
      pos := SeekIn(entries, target);
    }

    method Next()
      requires Valid()
      modifies this
      ensures Ok() && pos == old(pos) + 1
    {
      pos := pos + 1;
    }

    method Prev()
      requires Valid()
      modifies this
      ensures Ok() && pos == if old(pos) == 0 then |entries| else old(pos) - 1
    {
      pos := if pos == 0 then |entries| else pos - 1;
    }
  }

  // ----- live entries -----

  /** The iterator's sequence number reaches the entry, and the entry parses. */
  predicate Shown(E: seq<Entry>, s: nat, i: nat)
    requires i < |E|
  {
    Parses(E[i].ik) && E[i].ik.seqno <= s
  }

  /** The entry a user sees: the newest shown version of its key, and not a deletion. */
  ghost predicate Live(E: seq<Entry>, s: nat, i: nat) {
    && i < |E| && Shown(E, s, i) && E[i].ik.kind == TYPE_VALUE
    && forall j :: 0 <= j < i && E[j].ik.user == E[i].ik.user ==> !Shown(E, s, j)
  }

  ghost predicate NoneShown(E: seq<Entry>, s: nat, lo: nat, hi: nat)
    requires hi <= |E|
  {
    forall i :: lo <= i < hi ==> !Shown(E, s, i)
  }

  ghost predicate NoLive(E: seq<Entry>, s: nat, lo: nat, hi: nat) {
    forall i :: lo <= i < hi ==> !Live(E, s, i)
  }

  ghost function LiveIndices(E: seq<Entry>, s: nat, n: nat): (r: seq<nat>)
    requires n <= |E|
    ensures forall a :: 0 <= a < |r| ==> r[a] < n
  {
    if n == 0 then [] else LiveIndices(E, s, n - 1) + (if Live(E, s, n - 1) then [n - 1] else [])
  }

  lemma {:induction false} LiveIndicesMeaning(E: seq<Entry>, s: nat, n: nat)
    requires n <= |E|
    ensures forall i :: i in LiveIndices(E, s, n) <==> 0 <= i < n && Live(E, s, i)
    ensures forall a, b :: 0 <= a < b < |LiveIndices(E, s, n)| ==> LiveIndices(E, s, n)[a] < LiveIndices(E, s, n)[b]
  {
    if n > 0 {
      LiveIndicesMeaning(E, s, n - 1);
      hide Live;
      var L := LiveIndices(E, s, n - 1);
      var L' := L + (if Live(E, s, n - 1) then [n - 1] else []);
      assert LiveIndices(E, s, n) == L';
      forall i ensures i in L' <==> 0 <= i < n && Live(E, s, i) {
        assert i in L' <==> i in L || (Live(E, s, n - 1) && i == n - 1);
      }
      assert forall a :: 0 <= a < |L| ==> L[a] < n - 1;
    }
  }

  /** The list of live entries. */
  ghost function View(E: seq<Entry>, s: nat): (r: seq<nat>)
    ensures forall a :: 0 <= a < |r| ==> r[a] < |E|
  {
    LiveIndices(E, s, |E|)
  }

  lemma ViewMeaning(E: seq<Entry>, s: nat)
    ensures forall i :: i in View(E, s) <==> Live(E, s, i)
    ensures forall a, b :: 0 <= a < b < |View(E, s)| ==> View(E, s)[a] < View(E, s)[b]
  {
    LiveIndicesMeaning(E, s, |E|);
  }

  /** The view lists each user key with a value once, in key order, with the value a read returns. */
  lemma ViewIsSortedMap(E: seq<Entry>, s: nat)
    requires Sorted(E) && Unique(Elements(E)) && forall e :: e in E ==> Parses(e.ik)
    ensures forall a, b :: 0 <= a < b < |View(E, s)| ==> E[View(E, s)[a]].ik.user < E[View(E, s)[b]].ik.user
    ensures forall i :: i in View(E, s) ==> Read(Elements(E), E[i].ik.user, s) == Found(E[i].value)
    ensures forall k :: Read(Elements(E), k, s).Found? ==> exists i :: i in View(E, s) && E[i].ik.user == k
  {
    ViewMeaning(E, s);
    var L := View(E, s);
    forall a, b | 0 <= a < b < |L| ensures E[L[a]].ik.user < E[L[b]].ik.user {
      assert L[a] in L && L[b] in L;
      assert Less(E[L[a]].ik, E[L[b]].ik);
    }
    forall i | i in L ensures Read(Elements(E), E[i].ik.user, s) == Found(E[i].value) {
      LiveIsNewest(E, s, i);
    }
    forall k | Read(Elements(E), k, s).Found? ensures exists i :: i in L && E[i].ik.user == k {
      var e := Newest(Elements(E), k, s);
      var i :| 0 <= i < |E| && E[i] == e;
      NewestIsLive(E, s, i);
    }
  }

  lemma LiveIsNewest(E: seq<Entry>, s: nat, i: nat)
    requires Sorted(E) && Unique(Elements(E)) && (forall e :: e in E ==> Parses(e.ik)) && Live(E, s, i)
    ensures Read(Elements(E), E[i].ik.user, s) == Found(E[i].value)
  {
    forall f | f in Elements(E) && Visible(f, E[i].ik.user, s) ensures f.ik.seqno <= E[i].ik.seqno {
      var j :| 0 <= j < |E| && E[j] == f;
      assert Shown(E, s, j);
      assert i < j ==> Less(E[i].ik, E[j].ik);
    }
    ReadIsNewest(Elements(E), E[i].ik.user, s, E[i]);
  }

  lemma NewestIsLive(E: seq<Entry>, s: nat, i: nat)
    requires Sorted(E) && Unique(Elements(E)) && i < |E| && Parses(E[i].ik)
    requires IsNewest(Elements(E), E[i].ik.user, s, E[i]) && E[i].ik.kind == TYPE_VALUE
    ensures Live(E, s, i)
  {
    forall j | 0 <= j < i && E[j].ik.user == E[i].ik.user ensures !Shown(E, s, j) {
      assert Less(E[j].ik, E[i].ik);
      assert E[j] in Elements(E);
      assert Shown(E, s, j) ==> Visible(E[j], E[i].ik.user, s);
    }
  }

  /** Rank `r` is where keys reach `target`. */
  ghost predicate SplitsAt(E: seq<Entry>, s: nat, r: nat, target: UserKey) {
    && (forall x :: 0 <= x < r && x < |View(E, s)| ==> E[View(E, s)[x]].ik.user < target)
    && (forall x :: r <= x < |View(E, s)| ==> E[View(E, s)[x]].ik.user >= target)
  }

  // ----- walking forward to the next live entry -----

  /** Shown entries before `pos` can hide none after it but those of the skipped key. */
  ghost predicate Covers(E: seq<Entry>, s: nat, saved: Option<UserKey>, skipping: bool, pos: nat)
    requires pos <= |E|
  {
    && (skipping ==> saved.Some?)
    && (skipping ==> forall j | pos <= j < |E| && Shown(E, s, j) :: saved.value <= E[j].ik.user)
    && forall j :: 0 <= j < pos && Shown(E, s, j) ==>
         if skipping then E[j].ik.user <= saved.value
         else forall i :: pos <= i < |E| ==> E[i].ik.user != E[j].ik.user
  }

  /** From `start` to `pos` nothing live was passed but versions of the key skipped at first. */
  ghost predicate Walked(E: seq<Entry>, s: nat, start: nat, pos: nat, skip: bool, key0: Option<UserKey>,
                         skipping: bool, saved: Option<UserKey>) {
    && start <= pos <= |E| && Covers(E, s, saved, skipping, pos)
    && (skip ==> skipping && key0.Some? && key0.value <= saved.value)
    && (skipping && (skip ==> saved != key0) ==>
          exists j :: start <= j < pos && Shown(E, s, j) && E[j].ik.user == saved.value)
    && (!skipping ==> saved == key0)
    && forall i :: start <= i < pos && Live(E, s, i) ==> skip && E[i].ik.user <= key0.value
  }

  datatype Walk = Walk(E: seq<Entry>, s: nat, start: nat, pos: nat, skip: bool, key0: Option<UserKey>) {
    ghost predicate At(skipping: bool, saved: Option<UserKey>) {
      Walked(E, s, start, pos, skip, key0, skipping, saved) && pos < |E| && Sorted(E)
    }

    ghost predicate OnTo(skipping: bool, saved: Option<UserKey>) {
      Walked(E, s, start, pos + 1, skip, key0, skipping, saved)
    }
  }

  lemma WalkStarts(E: seq<Entry>, s: nat, start: nat, skip: bool, key0: Option<UserKey>)
    requires start <= |E| && Covers(E, s, key0, skip, start)
    ensures Walked(E, s, start, start, skip, key0, skip, key0)
  {
  }

  lemma WalkPastTombstone(w: Walk, skipping: bool, saved: Option<UserKey>)
    requires w.At(skipping, saved) && Shown(w.E, w.s, w.pos) && w.E[w.pos].ik.kind == TYPE_DELETION
    ensures w.OnTo(true, Some(w.E[w.pos].ik.user))
  {
    assert forall j :: 0 <= j < w.pos ==> w.E[j].ik.user <= w.E[w.pos].ik.user;
    assert forall j :: w.pos < j < |w.E| ==> w.E[w.pos].ik.user <= w.E[j].ik.user;
  }

  lemma WalkPastHidden(w: Walk, skipping: bool, saved: Option<UserKey>)
    requires w.At(skipping, saved) && Shown(w.E, w.s, w.pos) && skipping && saved.Some? &&
      w.E[w.pos].ik.user <= saved.value
    ensures w.OnTo(skipping, saved)
  {
    assert w.E[w.pos].ik.user == saved.value;
  }

  lemma WalkPastUnseen(w: Walk, skipping: bool, saved: Option<UserKey>)
    requires w.At(skipping, saved) && !Shown(w.E, w.s, w.pos)
    ensures w.OnTo(skipping, saved)
  {
  }

  lemma WalkStops(w: Walk, skipping: bool, saved: Option<UserKey>)
    requires w.At(skipping, saved) && Shown(w.E, w.s, w.pos) && w.E[w.pos].ik.kind == TYPE_VALUE
    requires skipping ==> saved.Some? && w.E[w.pos].ik.user > saved.value
    ensures Live(w.E, w.s, w.pos) && (w.skip ==> w.key0.Some? && w.E[w.pos].ik.user > w.key0.value)
    ensures forall i :: w.start <= i < w.pos && Live(w.E, w.s, i) ==> w.skip && w.E[i].ik.user <= w.key0.value
  {
  }

  lemma WalkEnds(E: seq<Entry>, s: nat, start: nat, skip: bool, key0: Option<UserKey>, skipping: bool,
                 saved: Option<UserKey>)
    requires Walked(E, s, start, |E|, skip, key0, skipping, saved)
    ensures forall i :: start <= i < |E| && Live(E, s, i) ==> skip && key0.Some? && E[i].ik.user <= key0.value
  {
  }

  datatype Direction = Forward | Reverse

  class DBIter {
    const iter: Cursor
    const sequence: nat
    var savedKey: Option<UserKey>
    var savedValue: Bytes
    var direction: Direction
    var valid: bool
    ghost var current: nat      // index of the entry shown to the user while valid

    constructor (iter: Cursor, s: nat)
      requires iter.Ok() && Sorted(iter.entries)
      ensures Ok() && this.iter == iter && sequence == s && !valid
    {
      this.iter, sequence := iter, s;
      savedKey, savedValue := None, [];
      direction, valid := Forward, false;
      current := 0;
    }

    /**
     Moving forward the internal iterator is on the current entry; in reverse it
     is before it, with no shown entry in between.
     */
    ghost predicate Ok()
      reads this, iter
    {
      && iter.Ok() && Sorted(iter.entries)
      && (valid ==> Live(iter.entries, sequence, current))
      && (valid && direction == Forward ==> iter.pos == current)
      && (valid && direction == Reverse ==>
            && savedKey == Some(iter.entries[current].ik.user) && savedValue == iter.entries[current].value
            && (if iter.Valid() then iter.pos < current && NoneShown(iter.entries, sequence, iter.pos + 1, current)
                else NoneShown(iter.entries, sequence, 0, current)))
    }

    /** The user's position: rank in the view, or the view's length when invalid. */
    ghost predicate At(rank: nat)
      reads this, iter
    {
      var view := View(iter.entries, sequence);
      rank <= |view| && (valid <==> rank < |view|) && (valid ==> current == view[rank])
    }

    method Key() returns (k: UserKey)
      requires Ok() && valid
      ensures k == iter.entries[current].ik.user
    {
      k := if direction == Forward then iter.entries[iter.pos].ik.user else savedKey.value;
    }

    method Value() returns (v: Bytes)
      requires Ok() && valid
      ensures v == iter.entries[current].value
    {
      v := if direction == Forward then iter.entries[iter.pos].value else savedValue;
    }

    ghost predicate SkipCovers(skipping: bool, pos: nat)
      requires pos <= |iter.entries|
      reads this`savedKey
    {
      Covers(iter.entries, sequence, savedKey, skipping, pos)
    }

    /** Stops at the first live entry from here on, past the skipped key. */
    method FindNextUserEntry(skip: bool)
      requires iter.Valid() && Sorted(iter.entries) && direction == Forward
      requires SkipCovers(skip, iter.pos)
      modifies this`savedKey, this`valid, this`current, iter
      ensures Ok() && direction == Forward
      ensures valid ==> current >= old(iter.pos) && (skip ==> iter.entries[current].ik.user > old(savedKey).value)
      ensures forall i | old(iter.pos) <= i < (if valid then current else |iter.entries|)
                && Live(iter.entries, sequence, i) :: skip && iter.entries[i].ik.user <= old(savedKey).value
    {
      hide View, LiveIndices, Sorted, Covers, Walked, Live;
      ghost var E, start, key0 := iter.entries, iter.pos, savedKey;
      var skipping := skip;
      WalkStarts(E, sequence, start, skip, key0);
      while iter.Valid()
        invariant iter.Ok() && iter.pos >= start && (skipping ==> savedKey.Some?)
        invariant Walked(E, sequence, start, iter.pos, skip, key0, skipping, savedKey)
        decreases |E| - iter.pos
      {
        var e := iter.entries[iter.pos];
        ghost var walk := Walk(E, sequence, start, iter.pos, skip, key0);
        if e.ik.kind <= TYPE_VALUE && e.ik.seqno <= sequence {
          if e.ik.kind == TYPE_DELETION {
            WalkPastTombstone(walk, skipping, savedKey);
            savedKey := Some(e.ik.user);
            skipping := true;
          } else if skipping && e.ik.user <= savedKey.value {
            WalkPastHidden(walk, skipping, savedKey);
          } else {
            WalkStops(walk, skipping, savedKey);
            valid := true;
            savedKey := None;
            current := iter.pos;
            return;
          }
        } else {
          WalkPastUnseen(walk, skipping, savedKey);
        }
        iter.Next();
      }
      WalkEnds(E, sequence, start, skip, key0, skipping, savedKey);
      savedKey := None;
      valid := false;
    }

    /** The greatest live entry at or before the internal position, walking back. */
    method FindPrevUserEntry()
      requires iter.Ok() && Sorted(iter.entries) && direction == Reverse
      modifies this`savedKey, this`savedValue, this`direction, this`valid, this`current, iter
      ensures Ok()
      ensures valid ==> old(iter.Valid()) && current <= old(iter.pos)
      ensures old(iter.Valid()) ==>
        NoLive(iter.entries, sequence, if valid then current + 1 else 0, old(iter.pos) + 1)
    {
      hide View, LiveIndices;
      ghost var E, start, was := iter.entries, iter.pos, iter.Valid();
      var valueType := TYPE_DELETION;
      ghost var last: nat := 0;    // the entry examined last among the shown ones
      ghost var seen := false;
      while iter.Valid()
        invariant iter.Ok() && (iter.Valid() ==> was && iter.pos <= start)
        invariant seen ==> was && last <= start && Shown(E, sequence, last) && valueType == E[last].ik.kind
        invariant seen && iter.Valid() ==> iter.pos < last
        invariant !seen ==> valueType == TYPE_DELETION
        invariant valueType != TYPE_DELETION ==> savedKey == Some(E[last].ik.user) && savedValue == E[last].value
        invariant direction == Reverse
        invariant was ==>
          NoneShown(E, sequence, if iter.Valid() then iter.pos + 1 else 0, if seen then last else start + 1)
        invariant was && seen ==> NoLive(E, sequence, last + 1, start + 1)
        decreases if iter.Valid() then iter.pos + 1 else 0
      {
        var e := iter.entries[iter.pos];
        if e.ik.kind <= TYPE_VALUE && e.ik.seqno <= sequence {
          if valueType != TYPE_DELETION && e.ik.user < savedKey.value {
            break;
          }
          valueType := e.ik.kind;
          if valueType == TYPE_DELETION {
            savedKey := None;
            savedValue := [];
          } else {
            savedKey := Some(e.ik.user);
            savedValue := e.value;
          }
          last, seen := iter.pos, true;
        }
        iter.Prev();
      }
      if valueType == TYPE_DELETION {
        valid := false;
        savedKey := None;
        savedValue := [];
        direction := Forward;
      } else {
        valid := true;
        current := last;
      }
    }

    method Next()
      requires Ok() && valid
      modifies this`savedKey, this`valid, this`direction, this`current, iter
      ensures Ok()
      ensures forall r: nat :: old(At(r)) ==> At(r + 1)
    {
      ghost var E, cur := iter.entries, current;
      if direction == Reverse {
        direction := Forward;
        if !iter.Valid() {
          iter.SeekToFirst();
        } else {
          iter.Next();
        }
      } else {
        savedKey := Some(iter.entries[iter.pos].ik.user);
        iter.Next();
      }
      if !iter.Valid() {
        valid := false;
        savedKey := None;
        ViewStep(E, sequence, cur, false, 0);
        return;
      }
      FindNextUserEntry(true);
      forall i | cur < i < (if valid then current else |E|) ensures !Live(E, sequence, i) {
        LiveKeysIncrease(E, sequence, cur, i);
      }
      ViewStep(E, sequence, cur, valid, current);
    }

    method Prev()
      requires Ok() && valid
      modifies this`savedKey, this`savedValue, this`valid, this`direction, this`current, iter
      ensures Ok()
      ensures forall r: nat :: old(At(r)) ==> At(if r == 0 then |View(iter.entries, sequence)| else r - 1)
    {
      ghost var E, cur := iter.entries, current;
      if direction == Forward {
        savedKey := Some(iter.entries[iter.pos].ik.user);
        while true
          invariant iter.Valid() && iter.pos <= cur && savedKey == Some(E[cur].ik.user)
          invariant forall j :: iter.pos <= j <= cur ==> E[j].ik.user == E[cur].ik.user
          decreases iter.pos
        {
          iter.Prev();
          if !iter.Valid() {
            valid := false;
            savedKey := None;
            savedValue := [];
            ViewStepBack(E, sequence, cur, false, 0);
            return;
          }
          assert Less(E[iter.pos].ik, E[cur].ik);
          if iter.entries[iter.pos].ik.user < savedKey.value {
            break;
          }
        }
        direction := Reverse;
      }
      FindPrevUserEntry();
      ViewStepBack(E, sequence, cur, valid, current);
    }

    method Seek(target: UserKey)
      requires Ok()
      modifies this`savedKey, this`savedValue, this`valid, this`direction, this`current, iter
      ensures Ok()
      ensures exists r: nat :: At(r) && SplitsAt(iter.entries, sequence, r, target)
    {
      direction := Forward;
      savedValue := [];
      savedKey := None;
      iter.Seek(InternalKey(target, sequence, TYPE_VALUE));
      ghost var from := iter.pos;
      if iter.Valid() {
        FindNextUserEntry(false);
      } else {
        valid := false;
      }
      ghost var r := ViewFrom(iter.entries, sequence, from, valid, current);
      assert At(r);
      SeekSplits(iter.entries, sequence, r, target);
    }

    method SeekToFirst()
      requires Ok()
      modifies this`savedKey, this`savedValue, this`valid, this`direction, this`current, iter
      ensures Ok() && At(0)
    {
      direction := Forward;
      savedValue := [];
      iter.SeekToFirst();
      if iter.Valid() {
        FindNextUserEntry(false);
      } else {
        valid := false;
      }
      ghost var r := ViewFrom(iter.entries, sequence, 0, valid, current);
    }

    method SeekToLast()
      requires Ok()
      modifies this`savedKey, this`savedValue, this`valid, this`direction, this`current, iter
      ensures Ok()
      ensures At(if View(iter.entries, sequence) == [] then 0 else |View(iter.entries, sequence)| - 1)
    {
      direction := Reverse;
      savedValue := [];
      iter.SeekToLast();
      FindPrevUserEntry();
      ViewEnd(iter.entries, sequence, valid, current);
    }
  }

  // ----- ranks in the view -----

  /** Seeking the internal key of the target splits the view at the target. */
  lemma SeekSplits(E: seq<Entry>, s: nat, r: nat, target: UserKey)
    requires forall x :: 0 <= x < r && x < |View(E, s)| ==>
      View(E, s)[x] < SeekIn(E, InternalKey(target, s, TYPE_VALUE))
    requires forall x :: r <= x < |View(E, s)| ==> View(E, s)[x] >= SeekIn(E, InternalKey(target, s, TYPE_VALUE))
    requires Sorted(E)
    ensures SplitsAt(E, s, r, target)
  {
    ViewMeaning(E, s);
    forall x | 0 <= x < |View(E, s)| ensures Live(E, s, View(E, s)[x]) {
      assert View(E, s)[x] in View(E, s);
    }
  }

  lemma LiveKeysIncrease(E: seq<Entry>, s: nat, i: nat, j: nat)
    requires Sorted(E) && Live(E, s, i) && i < j < |E|
    ensures Live(E, s, j) ==> E[i].ik.user < E[j].ik.user
  {
    assert Less(E[i].ik, E[j].ik);
  }

  /** The rank of the first live entry from `a` on is the number of live entries before `a`. */
  lemma ViewFrom(E: seq<Entry>, s: nat, a: nat, valid: bool, c: nat) returns (r: nat)
    requires a <= |E| && (valid ==> Live(E, s, c) && c >= a && NoLive(E, s, a, c))
    requires !valid ==> NoLive(E, s, a, |E|)
    ensures r <= |View(E, s)| && (valid <==> r < |View(E, s)|) && (valid ==> View(E, s)[r] == c)
    ensures forall x :: 0 <= x < r ==> View(E, s)[x] < a
    ensures forall x :: r <= x < |View(E, s)| ==> View(E, s)[x] >= a
    ensures a == 0 ==> r == 0
  {
    ViewMeaning(E, s);
    var L := View(E, s);
    r := 0;
    while r < |L| && L[r] < a
      invariant r <= |L| && forall x :: 0 <= x < r ==> L[x] < a
    {
      r := r + 1;
    }
    if valid {
      assert c in L;
      var x :| 0 <= x < |L| && L[x] == c;
      assert L[r] in L;
    } else {
      assert r < |L| ==> L[r] in L;
    }
  }

  lemma ViewStep(E: seq<Entry>, s: nat, cur: nat, valid: bool, c: nat)
    requires Live(E, s, cur) && (valid ==> Live(E, s, c) && c > cur && NoLive(E, s, cur + 1, c))
    requires !valid ==> NoLive(E, s, cur + 1, |E|)
    ensures forall r :: 0 <= r < |View(E, s)| && View(E, s)[r] == cur ==>
      (valid <==> r + 1 < |View(E, s)|) && (valid ==> View(E, s)[r + 1] == c)
  {
    ViewMeaning(E, s);
    var r := ViewFrom(E, s, cur + 1, valid, c);
    forall q | 0 <= q < |View(E, s)| && View(E, s)[q] == cur ensures q + 1 == r {
      assert q < r;
      assert q + 1 < |View(E, s)| ==> View(E, s)[q] < View(E, s)[q + 1];
    }
  }

  lemma ViewStepBack(E: seq<Entry>, s: nat, cur: nat, valid: bool, c: nat)
    requires Live(E, s, cur) && (valid ==> Live(E, s, c) && c < cur && NoLive(E, s, c + 1, cur))
    requires !valid ==> NoLive(E, s, 0, cur)
    ensures forall r :: 0 <= r < |View(E, s)| && View(E, s)[r] == cur ==>
      (valid <==> r > 0) && (valid ==> View(E, s)[r - 1] == c)
  {
    ViewMeaning(E, s);
    var L := View(E, s);
    if valid {
      ViewStep(E, s, c, true, cur);
      assert c in L;
      var q :| 0 <= q < |L| && L[q] == c;
      assert q + 1 < |L| && L[q + 1] == cur;
      assert forall r :: 0 <= r < |L| && L[r] == cur ==> r == q + 1;
    } else {
      forall x | 0 <= x < |L| ensures L[x] >= cur {
        assert L[x] in L;
      }
      assert |L| > 0 ==> L[0] >= cur;
    }
  }

  lemma ViewEnd(E: seq<Entry>, s: nat, valid: bool, c: nat)
    requires valid ==> Live(E, s, c) && NoLive(E, s, c + 1, |E|)
    requires !valid ==> NoLive(E, s, 0, |E|)
    ensures valid <==> View(E, s) != []
    ensures valid ==> View(E, s)[|View(E, s)| - 1] == c
  {
    ViewMeaning(E, s);
    var L := View(E, s);
    assert |L| == 0 || L[0] in L;
    if valid {
      assert c in L;
      ViewStep(E, s, c, false, 0);
      var q :| 0 <= q < |L| && L[q] == c;
    }
  }
}
