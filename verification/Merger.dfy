/**
 The merging iterator of table/merger.cc: over children with distinct keys it is
 one cursor on the sorted union, whichever way and in whatever order it is moved.
 */
module Merger {
  import opened Keys
  import opened Levels

  /** A child iterator: a sorted run and a position in it; invalid is one past the end. */
  datatype Child = Child(entries: seq<Entry>, pos: nat) {
    predicate Valid() { pos < |entries| }

    function Key(): InternalKey
      requires Valid()
    {
      entries[pos].ik
    }

    function SeekToFirst(): Child { this.(pos := 0) }

    function SeekToLast(): Child { this.(pos := if entries == [] then 0 else |entries| - 1) }

    function Seek(target: InternalKey): Child { this.(pos := SeekIn(entries, target)) }

    function Next(): Child
      requires Valid()
    {
      this.(pos := pos + 1)
    }

    function Prev(): Child
      requires Valid()
    {
      this.(pos := if pos == 0 then |entries| else pos - 1)
    }

    /** How a child other than the current one is placed when the merge turns forward. */
    function TurnForward(key: InternalKey): Child {
      var c := Seek(key);
      if c.Valid() && c.Key() == key then c.Next() else c
    }

    /** How a child other than the current one is placed when the merge turns back. */
    function TurnBack(key: InternalKey): Child {
      var c := Seek(key);
      if c.Valid() then c.Prev() else c.SeekToLast()
    }
  }

  datatype Direction = Forward | Reverse

  ghost predicate RunOf(run: seq<Entry>, merged: seq<Entry>) {
    Sorted(run) && forall j :: 0 <= j < |run| ==> run[j] in merged
  }

  ghost predicate Held(lists: seq<seq<Entry>>, e: Entry) {
    exists i :: 0 <= i < |lists| && e in lists[i]
  }

  ghost predicate ShareNoKey(a: seq<Entry>, b: seq<Entry>) {
    forall e, f | e in a && f in b :: e.ik != f.ik
  }

  /** `merged` is the sorted union of runs that share no key. */
  ghost predicate IsMerge(lists: seq<seq<Entry>>, merged: seq<Entry>) {
    && Sorted(merged)
    && (forall i :: 0 <= i < |lists| ==> RunOf(lists[i], merged))
    && (forall m :: 0 <= m < |merged| ==> Held(lists, merged[m]))
    && (forall i, j :: 0 <= i < |lists| && 0 <= j < |lists| && i != j ==> ShareNoKey(lists[i], lists[j]))
  }

  /** The first `cut` entries of a run are the ones before `merged[m]`. */
  ghost predicate CutsRun(run: seq<Entry>, cut: nat, merged: seq<Entry>, m: nat) {
    && cut <= |run| && m <= |merged| && (cut < |run| ==> m < |merged|)
    && (m < |merged| ==> forall j :: 0 <= j < cut ==> Less(run[j].ik, merged[m].ik))
    && (m < |merged| ==> forall j :: cut <= j < |run| ==> LessEq(merged[m].ik, run[j].ik))
  }

  /** The entries at or before the child's position; none when it is invalid. */
  function BackCut(c: Child): nat {
    if c.Valid() then c.pos + 1 else 0
  }

  lemma InMergedAt(merged: seq<Entry>, e: Entry) returns (m: nat)
    requires e in merged
    ensures m < |merged| && merged[m] == e
  {
    m :| 0 <= m < |merged| && merged[m] == e;
  }

  /** Seeking a run and the merge for one key cuts the run where it cuts the merge. */
  lemma SeekCuts(run: seq<Entry>, merged: seq<Entry>, target: InternalKey)
    requires Sorted(merged) && RunOf(run, merged)
    ensures CutsRun(run, SeekIn(run, target), merged, SeekIn(merged, target))
  {
    var cut, m := SeekIn(run, target), SeekIn(merged, target);
    InRuns(run, merged);
    hide Sorted, RunOf, SeekIn;
    forall j | 0 <= j < |run|
      ensures j < cut && m < |merged| ==> Less(run[j].ik, merged[m].ik)
      ensures cut <= j ==> m < |merged| && LessEq(merged[m].ik, run[j].ik)
    {
      if cut <= j {
        SoughtAndAfter(run, target, j);
        var a := InMergedAt(merged, run[j]);
        SoughtBefore(merged, target, a);
      }
    }
  }

  lemma InRuns(run: seq<Entry>, merged: seq<Entry>)
    requires RunOf(run, merged)
    ensures Sorted(run) && forall j :: 0 <= j < |run| ==> run[j] in merged
  {
  }

  lemma SoughtAndAfter(run: seq<Entry>, target: InternalKey, j: nat)
    requires Sorted(run) && SeekIn(run, target) <= j < |run|
    ensures LessEq(target, run[j].ik)
  {
    var cut := SeekIn(run, target);
    assert j > cut ==> Less(run[cut].ik, run[j].ik);
  }

  lemma SoughtBefore(run: seq<Entry>, target: InternalKey, a: nat)
    requires Sorted(run) && a < |run| && LessEq(target, run[a].ik)
    ensures SeekIn(run, target) <= a && LessEq(run[SeekIn(run, target)].ik, run[a].ik)
  {
    var m := SeekIn(run, target);
    assert m < a ==> Less(run[m].ik, run[a].ik);
  }

  lemma KeySeeksToItself(merged: seq<Entry>, m: nat)
    requires Sorted(merged) && m < |merged|
    ensures SeekIn(merged, merged[m].ik) == m
  {
    var a := SeekIn(merged, merged[m].ik);
    assert a < m ==> Less(merged[a].ik, merged[m].ik);
  }

  ghost predicate LacksKey(run: seq<Entry>, key: InternalKey) {
    forall j :: 0 <= j < |run| ==> run[j].ik != key
  }

  /** Past an entry no other run holds, a run is cut in the same place. */
  lemma CutMovesOn(run: seq<Entry>, cut: nat, merged: seq<Entry>, m: nat)
    requires Sorted(merged) && m < |merged| && CutsRun(run, cut, merged, m)
    requires RunOf(run, merged) && LacksKey(run, merged[m].ik)
    ensures CutsRun(run, cut, merged, m + 1)
  {
    assert m + 1 < |merged| ==> Less(merged[m].ik, merged[m + 1].ik);
    if cut < |run| {
      AfterMeansNext(merged, m, run[cut]);
    }
    forall j | cut <= j < |run| ensures LessEq(merged[m + 1].ik, run[j].ik) {
      AfterMeansNext(merged, m, run[j]);
    }
  }

  lemma CutMovesBack(run: seq<Entry>, cut: nat, merged: seq<Entry>, m: nat)
    requires Sorted(merged) && m < |merged| && CutsRun(run, cut, merged, m + 1)
    requires RunOf(run, merged) && LacksKey(run, merged[m].ik)
    ensures CutsRun(run, cut, merged, m)
  {
    assert m + 1 < |merged| ==> Less(merged[m].ik, merged[m + 1].ik);
    forall j | 0 <= j < |run| ensures (j < cut <==> Less(run[j].ik, merged[m].ik)) {
      var a := InMergedAt(merged, run[j]);
      assert a != m;
      assert a > m ==> Less(merged[m].ik, merged[a].ik);
      assert a < m ==> Less(merged[a].ik, merged[m].ik);
      assert a > m + 1 ==> Less(merged[m + 1].ik, merged[a].ik);
    }
  }

  /** The run that holds an entry, cut just before it. */
  lemma OwnCutBefore(run: seq<Entry>, pos: nat, merged: seq<Entry>, m: nat)
    requires Sorted(run) && pos < |run| && m < |merged| && run[pos] == merged[m]
    ensures CutsRun(run, pos, merged, m)
  {
    assert forall j :: 0 <= j < pos ==> Less(run[j].ik, run[pos].ik);
    assert forall j :: pos < j < |run| ==> Less(run[pos].ik, run[j].ik);
  }

  /** The run that holds an entry, cut just after it. */
  lemma OwnCutAfter(run: seq<Entry>, pos: nat, merged: seq<Entry>, m: nat)
    requires RunOf(run, merged) && Sorted(merged) && pos < |run| && m < |merged| && run[pos] == merged[m]
    ensures CutsRun(run, pos + 1, merged, m + 1)
  {
    var cut, n := pos + 1, m + 1;
    assert n < |merged| ==> Less(merged[m].ik, merged[n].ik);
    forall j | 0 <= j < cut ensures n < |merged| ==> Less(run[j].ik, merged[n].ik) {
      assert j < pos ==> Less(run[j].ik, run[pos].ik);
    }
    if cut < |run| {
      assert Less(run[pos].ik, run[cut].ik);
      AfterMeansNext(merged, m, run[cut]);
    }
    forall j | cut <= j < |run| ensures LessEq(merged[n].ik, run[j].ik) {
      assert Less(run[pos].ik, run[j].ik);
      AfterMeansNext(merged, m, run[j]);
    }
  }

  lemma AfterMeansNext(merged: seq<Entry>, m: nat, e: Entry)
    requires Sorted(merged) && m < |merged| && e in merged && Less(merged[m].ik, e.ik)
    ensures m + 1 < |merged| && LessEq(merged[m + 1].ik, e.ik)
  {
    var a := InMergedAt(merged, e);
    assert !(a < m) && a != m;
    assert a > m + 1 ==> Less(merged[m + 1].ik, merged[a].ik);
  }

  lemma RunsOfMerge(lists: seq<seq<Entry>>, merged: seq<Entry>)
    requires IsMerge(lists, merged)
    ensures Sorted(merged) && forall i :: 0 <= i < |lists| ==> RunOf(lists[i], merged)
    ensures forall m :: 0 <= m < |merged| ==> Held(lists, merged[m])
  {
  }

  lemma InRun(run: seq<Entry>, merged: seq<Entry>, j: nat)
    requires RunOf(run, merged)
    ensures Sorted(run) && (j < |run| ==> run[j] in merged)
  {
  }

  lemma LessEqBothWays(a: InternalKey, b: InternalKey)
    requires LessEq(a, b) && LessEq(b, a)
    ensures a == b
  {
  }

  class MergingIterator {
    const children: array<Child>
    ghost const lists: seq<seq<Entry>>
    ghost const merged: seq<Entry>
    var current: Option<nat>
    var direction: Direction
    ghost var pos: nat      // position in `merged`

    constructor (kids: array<Child>, ghost merged: seq<Entry>)
      requires IsMerge(Runs(kids[..]), merged)
      ensures Ok() && this.children == kids && this.merged == merged && pos == |merged|
    {
      children := kids;
      lists := Runs(kids[..]);
      this.merged := merged;
      current := None;
      direction := Forward;
      pos := |merged|;
    }

    static ghost function Runs(kids: seq<Child>): seq<seq<Entry>> {
      seq(|kids|, i requires 0 <= i < |kids| => kids[i].entries)
    }

    ghost predicate Wired()
      reads children
    {
      IsMerge(lists, merged) && Runs(children[..]) == lists
    }

    /** Child `i` is positioned on `merged[m]`. */
    ghost predicate OnEntry(i: nat, m: nat)
      reads children
    {
      i < children.Length && children[i].Valid() && m < |merged| && children[i].entries[children[i].pos] == merged[m]
    }

    ghost predicate CutForward(m: nat)
      requires Wired()
      reads children
    {
      forall i :: 0 <= i < children.Length ==> CutsRun(lists[i], children[i].pos, merged, m)
    }

    ghost predicate CutReverse(m: nat)
      requires Wired()
      reads children
    {
      forall i :: 0 <= i < children.Length ==> CutsRun(lists[i], BackCut(children[i]), merged, m)
    }

    ghost predicate Ok()
      reads this, children
    {
      && Wired() && pos <= |merged|
      && (current.None? <==> pos == |merged|)
      && (current.Some? ==>
            && OnEntry(current.value, pos)
            && (direction == Forward ==> CutForward(pos))
            && (direction == Reverse ==> CutReverse(pos + 1)))
    }

    predicate Valid()
      reads this
    {
      current.Some?
    }

    method Current() returns (e: Entry)
      requires Ok() && Valid()
      ensures e == merged[pos]
    {
      e := children[current.value].entries[children[current.value].pos];
    }

    /** The child with the least key is on the first entry past the cut. */
    method FindSmallest(ghost m: nat)
      requires Wired() && m <= |merged| && CutForward(m)
      modifies this
      ensures Wired() && CutForward(m) && pos == m && direction == old(direction)
      ensures current.None? <==> m == |merged|
      ensures current.Some? ==> OnEntry(current.value, m)
    {
      hide IsMerge, CutsRun;
      var smallest: Option<nat> := None;
      for i := 0 to children.Length
        invariant smallest.None? ==> forall j :: 0 <= j < i ==> !children[j].Valid()
        invariant smallest.Some? ==> smallest.value < children.Length && children[smallest.value].Valid()
        invariant smallest.Some? ==>
          forall j | 0 <= j < i && children[j].Valid() :: LessEq(children[smallest.value].Key(), children[j].Key())
      {
        if children[i].Valid() {
          if smallest.None? || Less(children[i].Key(), children[smallest.value].Key()) {
            smallest := Some(i);
          }
        }
      }
      current := smallest;
      pos := m;
      SmallestIsNext(smallest, m);
    }

    ghost predicate LeastValid(smallest: Option<nat>)
      reads children
    {
      && (smallest.None? ==> forall j :: 0 <= j < children.Length ==> !children[j].Valid())
      && (smallest.Some? ==> smallest.value < children.Length && children[smallest.value].Valid())
      && (smallest.Some? ==> forall j | 0 <= j < children.Length && children[j].Valid() ::
            LessEq(children[smallest.value].Key(), children[j].Key()))
    }

    lemma SmallestIsNext(smallest: Option<nat>, m: nat)
      requires Wired() && m <= |merged| && CutForward(m) && LeastValid(smallest)
      ensures smallest.None? <==> m == |merged|
      ensures smallest.Some? ==> OnEntry(smallest.value, m)
    {
      RunsOfMerge(lists, merged);
      forall j | 0 <= j < children.Length && children[j].Valid()
        ensures m < |merged| && LessEq(merged[m].ik, children[j].Key())
      {
        assert CutsRun(lists[j], children[j].pos, merged, m);
      }
      hide IsMerge, CutsRun, Sorted, RunOf;
      if m < |merged| {
        var i :| 0 <= i < |lists| && merged[m] in lists[i];
        InRun(lists[i], merged, 0);
        HeldAtCut(lists[i], children[i].pos, merged, m);
        assert children[i].Valid();
        var k := smallest.value;
        InRun(lists[k], merged, children[k].pos);
        LessEqBothWays(lists[k][children[k].pos].ik, merged[m].ik);
        SameKeySameEntry(merged, lists[k][children[k].pos], m);
      }
    }

    ghost predicate GreatestValid(largest: Option<nat>)
      reads children
    {
      && (largest.None? ==> forall j :: 0 <= j < children.Length ==> !children[j].Valid())
      && (largest.Some? ==> largest.value < children.Length && children[largest.value].Valid())
      && (largest.Some? ==> forall j | 0 <= j < children.Length && children[j].Valid() ::
            LessEq(children[j].Key(), children[largest.value].Key()))
    }

    lemma SomeChildTookLast(m: nat) returns (i: nat)
      requires Wired() && 0 < m <= |merged| && CutReverse(m)
      ensures OnEntry(i, m - 1)
    {
      hide IsMerge, CutsRun, Sorted, RunOf, Held;
      RunsOfMerge(lists, merged);
      i := Holder(lists, merged[m - 1]);
      HeldBeforeCut(lists[i], BackCut(children[i]), merged, m);
    }

    lemma UpToLast(k: nat, m: nat)
      requires Wired() && m <= |merged| && CutReverse(m) && k < children.Length && children[k].Valid()
      ensures k < |lists| && lists[k] == children[k].entries && m > 0 && Sorted(merged)
      ensures lists[k][children[k].pos] in merged && LessEq(lists[k][children[k].pos].ik, merged[m - 1].ik)
    {
      RunsOfMerge(lists, merged);
      hide IsMerge, CutsRun, Sorted;
      BeforeCut(lists[k], merged, m, BackCut(children[k]), children[k].pos);
    }

    lemma SomeChildIsValid(m: nat)
      requires Wired() && 0 < m <= |merged| && CutReverse(m)
      ensures exists j :: 0 <= j < children.Length && children[j].Valid()
    {
      var i := SomeChildTookLast(m);
    }

    lemma LargestIsLast(largest: Option<nat>, m: nat)
      requires Wired() && m <= |merged| && CutReverse(m) && GreatestValid(largest)
      ensures largest.None? <==> m == 0
      ensures largest.Some? ==> OnEntry(largest.value, m - 1)
    {
      hide IsMerge, CutsRun, Sorted, RunOf, CutReverse, Wired;
      if largest.Some? {
        ValidIsLast(largest.value, m);
      } else if m > 0 {
        SomeChildIsValid(m);
      }
    }

    lemma ValidIsLast(k: nat, m: nat)
      requires Wired() && m <= |merged| && CutReverse(m) && GreatestValid(Some(k))
      ensures m > 0 && OnEntry(k, m - 1)
    {
      hide IsMerge, CutsRun, Sorted, RunOf, CutReverse;
      UpToLast(k, m);
      var i := SomeChildTookLast(m);
      LessEqBothWays(lists[k][children[k].pos].ik, merged[m - 1].ik);
      SameKeySameEntry(merged, lists[k][children[k].pos], m - 1);
    }

    /** The child with the greatest key is on the last entry before the cut. */
    method FindLargest(ghost m: nat)
      requires Wired() && m <= |merged| && CutReverse(m)
      modifies this
      ensures Wired() && CutReverse(m) && direction == old(direction)
      ensures current.None? <==> m == 0
      ensures pos == if m == 0 then |merged| else m - 1
      ensures current.Some? ==> OnEntry(current.value, m - 1)
    {
      hide IsMerge, CutsRun;
      var largest: Option<nat> := None;
      for i := children.Length downto 0
        invariant largest.None? ==> forall j :: i <= j < children.Length ==> !children[j].Valid()
        invariant largest.Some? ==> largest.value < children.Length && children[largest.value].Valid()
        invariant largest.Some? ==> forall j | i <= j < children.Length && children[j].Valid() ::
          LessEq(children[j].Key(), children[largest.value].Key())
      {
        if children[i].Valid() {
          if largest.None? || Less(children[largest.value].Key(), children[i].Key()) {
            largest := Some(i);
          }
        }
      }
      current := largest;
      pos := if m == 0 then |merged| else m - 1;
      LargestIsLast(largest, m);
    }

    /** Repositions one child; the others and all runs stay. */
    method Place(i: nat, c: Child)
      requires Wired() && i < children.Length && c.entries == lists[i]
      modifies children
      ensures Wired() && children[i] == c
      ensures forall j :: 0 <= j < children.Length && j != i ==> children[j] == old(children[j])
    {
      children[i] := c;
      assert Runs(children[..]) == lists;
    }

    method SeekToFirst()
      requires Ok()
      modifies this, children
      ensures Ok() && pos == 0
    {
      for i := 0 to children.Length
        invariant Wired()
        invariant forall j :: 0 <= j < i ==> children[j].pos == 0
      {
        Place(i, children[i].SeekToFirst());
      }
      forall i | 0 <= i < children.Length ensures CutsRun(lists[i], 0, merged, 0) {
        CutAtStart(lists[i], merged);
      }
      direction := Forward;
      FindSmallest(0);
    }

    method SeekToLast()
      requires Ok()
      modifies this, children
      ensures Ok() && pos == if merged == [] then 0 else |merged| - 1
    {
      for i := 0 to children.Length
        invariant Wired()
        invariant forall j :: 0 <= j < i ==> BackCut(children[j]) == |lists[j]|
      {
        Place(i, children[i].SeekToLast());
      }
      direction := Reverse;
      FindLargest(|merged|);
    }

    method Seek(target: InternalKey)
      requires Ok()
      modifies this, children
      ensures Ok() && pos == SeekIn(merged, target)
    {
      hide IsMerge, CutsRun;
      for i := 0 to children.Length
        invariant Wired()
        invariant forall j :: 0 <= j < i ==> children[j].pos == SeekIn(lists[j], target)
      {
        Place(i, children[i].Seek(target));
      }
      SeeksCut(target);
      direction := Forward;
      FindSmallest(SeekIn(merged, target));
    }

    lemma SeeksCut(target: InternalKey)
      requires Wired() && forall j :: 0 <= j < children.Length ==> children[j].pos == SeekIn(lists[j], target)
      ensures SeekIn(merged, target) <= |merged| && CutForward(SeekIn(merged, target))
    {
      forall i | 0 <= i < children.Length
        ensures CutsRun(lists[i], SeekIn(lists[i], target), merged, SeekIn(merged, target))
      {
        SeekCuts(lists[i], merged, target);
      }
    }

    method TurnForward(cur: nat, ghost m: nat)
      requires Wired() && OnEntry(cur, m)
      modifies children
      ensures Wired() && OnEntry(cur, m) && CutForward(m)
    {
      RunsOfMerge(lists, merged);
      hide IsMerge, CutsRun, Sorted, RunOf;
      var key := children[cur].Key();
      for i := 0 to children.Length
        invariant Wired() && OnEntry(cur, m) && children[cur].Key() == key
        invariant forall j :: 0 <= j < i && j != cur ==> CutsRun(lists[j], children[j].pos, merged, m)
      {
        if i != cur {
          OthersTurnForward(lists, merged, cur, i, m, children[i]);
          Place(i, children[i].TurnForward(key));
        }
      }
      InRun(lists[cur], merged, 0);
      OwnCutBefore(lists[cur], children[cur].pos, merged, m);
    }

    method Next()
      requires Ok() && Valid()
      modifies this, children
      ensures Ok() && pos == old(pos) + 1
    {
      hide IsMerge, CutsRun;
      var cur := current.value;
      ghost var m := pos;
      if direction != Forward {
        TurnForward(cur, m);
        direction := Forward;
      }
      CutsPastCurrent(cur, m);
      Place(cur, children[cur].Next());
      FindSmallest(m + 1);
    }

    lemma CutsPastCurrent(cur: nat, m: nat)
      requires Wired() && OnEntry(cur, m) && CutForward(m)
      ensures CutsRun(lists[cur], children[cur].pos + 1, merged, m + 1)
      ensures forall i :: 0 <= i < children.Length && i != cur ==> CutsRun(lists[i], children[i].pos, merged, m + 1)
    {
      RunsOfMerge(lists, merged);
      hide IsMerge, CutsRun, Sorted, RunOf;
      forall i | 0 <= i < children.Length && i != cur ensures CutsRun(lists[i], children[i].pos, merged, m + 1) {
        OtherRunsLackKey(lists, merged, cur, i, m);
        CutMovesOn(lists[i], children[i].pos, merged, m);
      }
      OwnCutAfter(lists[cur], children[cur].pos, merged, m);
    }

    method TurnBack(cur: nat, ghost m: nat)
      requires Wired() && OnEntry(cur, m)
      modifies children
      ensures Wired() && OnEntry(cur, m) && CutsBefore(cur, m)
    {
      RunsOfMerge(lists, merged);
      hide IsMerge, CutsRun, Sorted, RunOf;
      var key := children[cur].Key();
      for i := 0 to children.Length
        invariant Wired() && OnEntry(cur, m) && children[cur].Key() == key
        invariant forall j :: 0 <= j < i && j != cur ==> CutsRun(lists[j], BackCut(children[j]), merged, m)
      {
        if i != cur {
          OthersTurnBack(lists[i], merged, m, children[i]);
          Place(i, children[i].TurnBack(key));
        }
      }
      InRun(lists[cur], merged, 0);
      OwnCutBefore(lists[cur], children[cur].pos, merged, m);
    }

    /** The others are cut before the current entry, and stepping the current child back joins them. */
    ghost predicate CutsBefore(cur: nat, m: nat)
      requires Wired() && OnEntry(cur, m)
      reads children
    {
      forall j :: 0 <= j < children.Length ==>
        CutsRun(lists[j], if j == cur then children[j].pos else BackCut(children[j]), merged, m)
    }

    lemma CutsBeforeCurrent(cur: nat, m: nat)
      requires Wired() && OnEntry(cur, m) && CutReverse(m + 1)
      ensures CutsBefore(cur, m)
    {
      RunsOfMerge(lists, merged);
      hide IsMerge, CutsRun, Sorted, RunOf;
      forall i | 0 <= i < children.Length && i != cur ensures CutsRun(lists[i], BackCut(children[i]), merged, m) {
        OtherRunsLackKey(lists, merged, cur, i, m);
        CutMovesBack(lists[i], BackCut(children[i]), merged, m);
      }
      InRun(lists[cur], merged, 0);
      OwnCutBefore(lists[cur], children[cur].pos, merged, m);
    }

    method Prev()
      requires Ok() && Valid()
      modifies this, children
      ensures Ok() && pos == if old(pos) == 0 then |merged| else old(pos) - 1
    {
      hide IsMerge, CutsRun;
      var cur := current.value;
      ghost var m := pos;
      if direction != Reverse {
        TurnBack(cur, m);
        direction := Reverse;
      } else {
        CutsBeforeCurrent(cur, m);
      }
      Place(cur, children[cur].Prev());
      FindLargest(m);
    }
  }

  lemma OthersTurnBack(run: seq<Entry>, merged: seq<Entry>, m: nat, c: Child)
    requires Sorted(merged) && RunOf(run, merged) && c.entries == run && m < |merged|
    ensures CutsRun(run, BackCut(c.TurnBack(merged[m].ik)), merged, m)
  {
    SeekCuts(run, merged, merged[m].ik);
    KeySeeksToItself(merged, m);
  }

  /** Turning forward, another child lands on its first entry past the current key. */
  lemma OthersTurnForward(lists: seq<seq<Entry>>, merged: seq<Entry>, cur: nat, i: nat, m: nat, c: Child)
    requires IsMerge(lists, merged) && cur < |lists| && i < |lists| && i != cur && c.entries == lists[i]
    requires m < |merged| && merged[m] in lists[cur]
    ensures CutsRun(lists[i], c.TurnForward(merged[m].ik).pos, merged, m)
  {
    SeekCuts(lists[i], merged, merged[m].ik);
    KeySeeksToItself(merged, m);
    OtherRunsLackKey(lists, merged, cur, i, m);
  }

  lemma CutAtStart(run: seq<Entry>, merged: seq<Entry>)
    requires Sorted(merged) && RunOf(run, merged)
    ensures CutsRun(run, 0, merged, 0)
  {
    assert |run| > 0 ==> run[0] in merged;
    forall j | 0 <= j < |run| ensures LessEq(merged[0].ik, run[j].ik) {
      var a := InMergedAt(merged, run[j]);
      assert a > 0 ==> Less(merged[0].ik, merged[a].ik);
    }
  }

  lemma OtherRunsLackKey(lists: seq<seq<Entry>>, merged: seq<Entry>, cur: nat, i: nat, m: nat)
    requires IsMerge(lists, merged) && cur < |lists| && i < |lists| && i != cur
    requires m < |merged| && merged[m] in lists[cur]
    ensures LacksKey(lists[i], merged[m].ik)
  {
    assert ShareNoKey(lists[i], lists[cur]);
    forall j | 0 <= j < |lists[i]| ensures lists[i][j].ik != merged[m].ik {
      assert lists[i][j] in lists[i];
    }
  }

  /** A run that holds the entry at the cut has it next. */
  lemma HeldAtCut(run: seq<Entry>, cut: nat, merged: seq<Entry>, m: nat)
    requires Sorted(run) && CutsRun(run, cut, merged, m) && m < |merged| && merged[m] in run
    ensures cut < |run| && run[cut] == merged[m]
  {
    var j := InMergedAt(run, merged[m]);
    assert j >= cut;
    assert cut < j ==> Less(run[cut].ik, run[j].ik);
  }

  /** What a run has before the cut is at most the merge's last entry before it. */
  lemma BeforeCut(run: seq<Entry>, merged: seq<Entry>, m: nat, cut: nat, j: nat)
    requires Sorted(merged) && RunOf(run, merged) && m <= |merged| && CutsRun(run, cut, merged, m) && j < cut
    ensures m > 0 && LessEq(run[j].ik, merged[m - 1].ik)
  {
    var a := InMergedAt(merged, run[j]);
    assert !(m < |merged| && m <= a);
    assert a < m;
    assert a < m - 1 ==> Less(merged[a].ik, merged[m - 1].ik);
  }

  lemma Holder(lists: seq<seq<Entry>>, e: Entry) returns (i: nat)
    requires Held(lists, e)
    ensures i < |lists| && e in lists[i]
  {
    i :| 0 <= i < |lists| && e in lists[i];
  }

  /** A run that holds the entry before the cut has taken it last. */
  lemma HeldBeforeCut(run: seq<Entry>, cut: nat, merged: seq<Entry>, m: nat)
    requires Sorted(merged) && RunOf(run, merged) && CutsRun(run, cut, merged, m) && m > 0 && merged[m - 1] in run
    ensures 0 < cut && run[cut - 1] == merged[m - 1]
  {
    var j := InMergedAt(run, merged[m - 1]);
    assert m < |merged| ==> Less(merged[m - 1].ik, merged[m].ik);
    assert j < cut;
    assert j < cut - 1 ==> Less(run[j].ik, run[cut - 1].ik);
    BeforeCut(run, merged, m, cut, cut - 1);
    SameKeySameEntry(merged, run[cut - 1], m - 1);
  }

  lemma SameKeySameEntry(merged: seq<Entry>, e: Entry, m: nat)
    requires Sorted(merged) && e in merged && m < |merged| && e.ik == merged[m].ik
    ensures e == merged[m]
  {
    var a := InMergedAt(merged, e);
    assert !(a < m) && !(m < a);
  }
}
