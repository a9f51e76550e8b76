/**
 Applying version edits (VersionSet::Builder in db/version_set.cc): one builder
 fed a whole manifest gives the version that installing edit after edit gives.
 */
module VersionBuilder {
  import opened Keys
  import opened Levels

  /** What an edit changes; a file is named by its level and number, a compaction pointer by its level. */
  datatype Edit = Edit(deleted: set<(nat, nat)>, added: seq<(nat, File)>, pointers: seq<(nat, InternalKey)> := [])

  datatype LevelState = LevelState(deleted: set<nat>, added: seq<File>)

  const FRESH := LevelState({}, [])

  /** BySmallestKey: smallest key first, file number to break ties. */
  predicate BySmallest(f: File, g: File) {
    Less(f.smallest, g.smallest) || (f.smallest == g.smallest && f.number < g.number)
  }

  ghost predicate InOrder(files: seq<File>) {
    forall i, j :: 0 <= i < j < |files| ==> BySmallest(files[i], files[j])
  }

  ghost function FileSet(files: seq<File>): set<File> {
    set f | f in files
  }

  /** Neither file sorts before the other, so the ordered set treats them as one. */
  predicate SameSlot(f: File, g: File) {
    f.smallest == g.smallest && f.number == g.number
  }

  /** Insertion into the ordered set of added files; an occupied slot is left alone. */
  function InsertFile(files: seq<File>, f: File): (r: seq<File>)
    requires InOrder(files)
    ensures InOrder(r)
    ensures forall g :: g in r ==> g in files || g == f
    ensures forall g :: g in files ==> g in r
  {
    if files == [] then [f]
    else if BySmallest(f, files[0]) then [f] + files
    else if SameSlot(f, files[0]) then files
    else
      var rest := InsertFile(files[1..], f);
      assert forall g :: g in files[1..] ==> BySmallest(files[0], g);
      [files[0]] + rest
  }

  lemma {:induction false} InsertFileFillsSlot(files: seq<File>, f: File)
    requires InOrder(files)
    ensures exists g :: g in InsertFile(files, f) && SameSlot(f, g)
    ensures (forall g :: g in files ==> !SameSlot(f, g)) ==> FileSet(InsertFile(files, f)) == FileSet(files) + {f}
  {
    if files != [] && !BySmallest(f, files[0]) && !SameSlot(f, files[0]) {
      InsertFileFillsSlot(files[1..], f);
      var g :| g in InsertFile(files[1..], f) && SameSlot(f, g);
      assert g in InsertFile(files, f);
      if forall g :: g in files ==> !SameSlot(f, g) {
        assert f in FileSet(InsertFile(files[1..], f));
        assert f in InsertFile(files, f);
      }
    } else {
      var r := InsertFile(files, f);
      assert r == files || r == [f] + files;
      assert r[0] in r && SameSlot(f, r[0]);
    }
  }

  function AddFiles(s: LevelState, level: nat, added: seq<(nat, File)>): (r: LevelState)
    requires InOrder(s.added)
    ensures InOrder(r.added)
  {
    if added == [] then s
    else
      var before := AddFiles(s, level, added[..|added| - 1]);
      var (lvl, f) := added[|added| - 1];
      if lvl == level then LevelState(before.deleted - {f.number}, InsertFile(before.added, f)) else before
  }

  function DeletedAt(edit: Edit, level: nat): set<nat> {
    set p | p in edit.deleted && p.0 == level :: p.1
  }

  function ApplyLevel(s: LevelState, level: nat, edit: Edit): (r: LevelState)
    requires InOrder(s.added)
    ensures InOrder(r.added)
  {
    AddFiles(s.(deleted := s.deleted + DeletedAt(edit, level)), level, edit.added)
  }

  /** A level's compaction pointer after a run of settings. */
  function PointerAfter(before: Option<InternalKey>, level: nat,
                        pointers: seq<(nat, InternalKey)>): Option<InternalKey> {
    if pointers == [] then before
    else
      var (l, key) := pointers[|pointers| - 1];
      if l == level then Some(key) else PointerAfter(before, level, pointers[..|pointers| - 1])
  }

  /** The last setting of a level wins, and without one the pointer stays. */
  lemma {:induction false} LastPointerWins(before: Option<InternalKey>, level: nat, pointers: seq<(nat, InternalKey)>,
                                           n: nat)
    requires n <= |pointers| && forall j :: n <= j < |pointers| ==> pointers[j].0 != level
    ensures n > 0 && pointers[n - 1].0 == level ==> PointerAfter(before, level, pointers) == Some(pointers[n - 1].1)
    ensures n == 0 ==> PointerAfter(before, level, pointers) == before
  {
    if n < |pointers| {
      LastPointerWins(before, level, pointers[..|pointers| - 1], n);
    }
  }

  /** The files a save keeps: base and added ones whose number is not deleted. */
  ghost function Live(base: set<File>, s: LevelState): set<File> {
    set f | f in base + FileSet(s.added) && f.number !in s.deleted
  }

  lemma FileSetSnoc(files: seq<File>, f: File)
    ensures FileSet(files + [f]) == FileSet(files) + {f}
  {
  }

  lemma LiveAddsOne(base: seq<File>, deleted: set<nat>, added: seq<File>, i: nat)
    requires i < |added|
    ensures Live(FileSet(base), LevelState(deleted, added[..i + 1]))
         == Live(FileSet(base), LevelState(deleted, added[..i]))
            + (if added[i].number in deleted then {} else {added[i]})
  {
    assert added[..i + 1] == added[..i] + [added[i]];
    FileSetSnoc(added[..i], added[i]);
  }

  lemma LiveAddsBase(base: seq<File>, s: LevelState, b: nat)
    requires b < |base|
    ensures Live(FileSet(base[..b + 1]), s)
         == Live(FileSet(base[..b]), s) + (if base[b].number in s.deleted then {} else {base[b]})
  {
    assert base[..b + 1] == base[..b] + [base[b]];
    FileSetSnoc(base[..b], base[b]);
  }

  ghost predicate LevelsInRange(edit: Edit) {
    && (forall p :: p in edit.deleted ==> p.0 < NUM_LEVELS)
    && (forall p :: p in edit.added ==> p.0 < NUM_LEVELS)
    && (forall p :: p in edit.pointers ==> p.0 < NUM_LEVELS)
  }

  class Builder {
    const base: Version
    var levels: array<LevelState>
    const compactPointers: array<Option<InternalKey>>    // the version set's own

    ghost predicate Valid()
      reads this, levels
    {
      && levels.Length == NUM_LEVELS == compactPointers.Length
      && (forall l :: 0 <= l < NUM_LEVELS ==> InOrder(base[l]) && InOrder(levels[l].added))
    }

    constructor (base: Version, compactPointers: array<Option<InternalKey>>)
      requires compactPointers.Length == NUM_LEVELS && forall l :: 0 <= l < NUM_LEVELS ==> InOrder(base[l])
      ensures Valid() && this.base == base && this.compactPointers == compactPointers && fresh(levels)
      ensures forall l :: 0 <= l < NUM_LEVELS ==> levels[l] == FRESH
    {
      this.base, this.compactPointers := base, compactPointers;
      levels := new LevelState[NUM_LEVELS](_ => FRESH);
    }

    /** Compaction pointers first, then deletions, then additions, each of which takes back a deletion. */
    method Apply(edit: Edit)
      requires Valid() && LevelsInRange(edit)
      modifies levels, compactPointers
      ensures Valid()
      ensures forall l :: 0 <= l < NUM_LEVELS ==> levels[l] == ApplyLevel(old(levels[l]), l, edit)
      ensures forall l :: 0 <= l < NUM_LEVELS ==>
        compactPointers[l] == PointerAfter(old(compactPointers[l]), l, edit.pointers)
    {
      ApplyPointers(edit.pointers);
      ApplyFiles(edit);
    }

    method ApplyPointers(pointers: seq<(nat, InternalKey)>)
      requires compactPointers.Length == NUM_LEVELS && forall p :: p in pointers ==> p.0 < NUM_LEVELS
      modifies compactPointers
      ensures forall l :: 0 <= l < NUM_LEVELS ==>
        compactPointers[l] == PointerAfter(old(compactPointers[l]), l, pointers)
    {
      for i := 0 to |pointers|
        invariant forall l :: 0 <= l < NUM_LEVELS ==>
          compactPointers[l] == PointerAfter(old(compactPointers[l]), l, pointers[..i])
      {
        var (level, key) := pointers[i];
        assert pointers[i] in pointers && pointers[..i + 1][..i] == pointers[..i];
        compactPointers[level] := Some(key);
      }
      assert pointers[..|pointers|] == pointers;
    }

    method ApplyFiles(edit: Edit)
      requires Valid() && LevelsInRange(edit)
      modifies levels
      ensures Valid()
      ensures forall l :: 0 <= l < NUM_LEVELS ==> levels[l] == ApplyLevel(old(levels[l]), l, edit)
    {
      ghost var before := levels[..];
      for l := 0 to NUM_LEVELS
        invariant Valid()
        invariant forall j :: 0 <= j < l ==> levels[j] == before[j].(deleted := before[j].deleted + DeletedAt(edit, j))
        invariant forall j :: l <= j < NUM_LEVELS ==> levels[j] == before[j]
      {
        levels[l] := levels[l].(deleted := levels[l].deleted + DeletedAt(edit, l));
      }
      ghost var middle := levels[..];
      assert edit.added[..0] == [];
      for i := 0 to |edit.added|
        invariant Valid()
        invariant forall j :: 0 <= j < NUM_LEVELS ==> levels[j] == AddFiles(middle[j], j, edit.added[..i])
      {
        var (level, f) := edit.added[i];
        assert edit.added[i] in edit.added;
        assert edit.added[..i + 1][..i] == edit.added[..i];
        levels[level] := LevelState(levels[level].deleted - {f.number}, InsertFile(levels[level].added, f));
      }
      assert edit.added[..|edit.added|] == edit.added;
    }

    /** Merges the base files of one level with the added ones, skipping deleted numbers. */
    static method SaveLevel(base: seq<File>, state: LevelState) returns (files: seq<File>)
      requires InOrder(base) && InOrder(state.added)
      requires forall f, g | f in base && g in state.added :: !SameSlot(f, g)
      ensures InOrder(files) && FileSet(files) == Live(FileSet(base), state)
    {
      var added := state.added;
      files := [];
      var b := 0;
      for i := 0 to |added|
        invariant 0 <= b <= |base| && InOrder(files)
        invariant FileSet(files) == Live(FileSet(base[..b]), LevelState(state.deleted, added[..i]))
        invariant forall f :: f in files && i < |added| ==> BySmallest(f, added[i])
        invariant forall f :: f in files && b < |base| ==> BySmallest(f, base[b])
      {
        files, b := AddSmaller(base, LevelState(state.deleted, added[..i]), added[i], files, b);
        files := AddNext(base[..b], state, i, files);
      }
      assert LevelState(state.deleted, added[..|added|]) == state;
      files := AddRest(base, state, files, b);
    }

    static method AddNext(base: seq<File>, state: LevelState, i: nat, files: seq<File>) returns (r: seq<File>)
      requires InOrder(files) && InOrder(state.added) && i < |state.added|
      requires FileSet(files) == Live(FileSet(base), LevelState(state.deleted, state.added[..i]))
      requires forall f :: f in files ==> BySmallest(f, state.added[i])
      ensures InOrder(r) && FileSet(r) == Live(FileSet(base), LevelState(state.deleted, state.added[..i + 1]))
      ensures forall f :: f in r ==> f in files || f == state.added[i]
      ensures forall f :: f in r && i + 1 < |state.added| ==> BySmallest(f, state.added[i + 1])
    {
      assert i + 1 < |state.added| ==> BySmallest(state.added[i], state.added[i + 1]);
      LiveAddsOne(base, state.deleted, state.added, i);
      r := MaybeAddFile(files, state.added[i], state.deleted);
    }

    /** One base file. */
    static method AddBase(base: seq<File>, state: LevelState, files: seq<File>, b: nat) returns (r: seq<File>)
      requires InOrder(base) && InOrder(files) && b < |base|
      requires FileSet(files) == Live(FileSet(base[..b]), state)
      requires forall f :: f in files ==> BySmallest(f, base[b])
      ensures InOrder(r) && FileSet(r) == Live(FileSet(base[..b + 1]), state)
      ensures forall f :: f in r ==> f in files || f == base[b]
      ensures forall f :: f in r && b + 1 < |base| ==> BySmallest(f, base[b + 1])
    {
      assert b + 1 < |base| ==> BySmallest(base[b], base[b + 1]);
      LiveAddsBase(base, state, b);
      hide InOrder, Live;
      r := MaybeAddFile(files, base[b], state.deleted);
    }

    /** The remaining base files. */
    static method AddRest(base: seq<File>, state: LevelState, files: seq<File>, from: nat) returns (r: seq<File>)
      requires InOrder(base) && InOrder(files) && from <= |base|
      requires FileSet(files) == Live(FileSet(base[..from]), state)
      requires forall f :: f in files && from < |base| ==> BySmallest(f, base[from])
      ensures InOrder(r) && FileSet(r) == Live(FileSet(base), state)
    {
      hide InOrder, Live, BySmallest;
      r := files;
      var b := from;
      while b < |base|
        invariant 0 <= b <= |base| && InOrder(r)
        invariant FileSet(r) == Live(FileSet(base[..b]), state)
        invariant forall f :: f in r && b < |base| ==> BySmallest(f, base[b])
      {
        r := AddBase(base, state, r, b);
        b := b + 1;
      }
      assert base[..|base|] == base;
    }

    /** The base files up to the upper bound of `next`. */
    static method AddSmaller(base: seq<File>, state: LevelState, next: File, files: seq<File>, from: nat)
      returns (files': seq<File>, b: nat)
      requires InOrder(base) && InOrder(files) && from <= |base| && forall f :: f in base ==> !SameSlot(f, next)
      requires FileSet(files) == Live(FileSet(base[..from]), state)
      requires forall f :: f in files ==> BySmallest(f, next)
      requires forall f :: f in files && from < |base| ==> BySmallest(f, base[from])
      ensures from <= b <= |base| && InOrder(files') && FileSet(files') == Live(FileSet(base[..b]), state)
      ensures forall f :: f in files' ==> BySmallest(f, next)
      ensures forall f :: f in files' && b < |base| ==> BySmallest(f, base[b])
      ensures b < |base| ==> BySmallest(next, base[b])
    {
      hide InOrder, Live;
      files', b := files, from;
      while b < |base| && !BySmallest(next, base[b])
        invariant from <= b <= |base| && InOrder(files')
        invariant FileSet(files') == Live(FileSet(base[..b]), state)
        invariant forall f :: f in files' ==> BySmallest(f, next)
        invariant forall f :: f in files' && b < |base| ==> BySmallest(f, base[b])
      {
        assert base[b] in base;
        files' := AddBase(base, state, files', b);
        b := b + 1;
      }
    }

    static method MaybeAddFile(files: seq<File>, f: File, deleted: set<nat>) returns (r: seq<File>)
      requires InOrder(files) && forall g :: g in files ==> BySmallest(g, f)
      ensures InOrder(r) && r == if f.number in deleted then files else files + [f]
      ensures FileSet(r) == FileSet(files) + (if f.number in deleted then {} else {f})
    {
      FileSetSnoc(files, f);
      if f.number in deleted {
        r := files;
      } else {
        r := files + [f];
      }
    }

    method SaveTo() returns (v: Version)
      requires Valid()
      requires forall l, f, g | 0 <= l < NUM_LEVELS && f in base[l] && g in levels[l].added :: !SameSlot(f, g)
      ensures forall l :: 0 <= l < NUM_LEVELS ==> InOrder(v[l]) && FileSet(v[l]) == Live(FileSet(base[l]), levels[l])
    {
      var saved: seq<seq<File>> := [];
      for l := 0 to NUM_LEVELS
        invariant |saved| == l
        invariant forall j :: 0 <= j < l ==>
          InOrder(saved[j]) && FileSet(saved[j]) == Live(FileSet(base[j]), levels[j])
      {
        var files := SaveLevel(base[l], levels[l]);
        saved := saved + [files];
      }
      v := saved;
    }
  }

  // ----- replaying a manifest -----

  /** `v'` is `v` with one edit installed by a builder of its own. */
  ghost predicate Installs(v: Version, edit: Edit, v': Version) {
    forall l :: 0 <= l < NUM_LEVELS ==>
      InOrder(v'[l]) && FileSet(v'[l]) == Live(FileSet(v[l]), ApplyLevel(FRESH, l, edit))
  }

  /** A builder's state for one level after a run of edits. */
  function FoldEdits(edits: seq<Edit>, level: nat): (s: LevelState)
    ensures InOrder(s.added)
  {
    if edits == [] then FRESH else ApplyLevel(FoldEdits(edits[..|edits| - 1], level), level, edits[|edits| - 1])
  }

  function FilesAt(added: seq<(nat, File)>, level: nat): set<File> {
    set p | p in added && p.0 == level :: p.1
  }

  ghost function Numbers(files: set<File>): set<nat> {
    set f | f in files :: f.number
  }

  ghost predicate DistinctNumbers(added: seq<(nat, File)>, level: nat) {
    forall i, j | 0 <= i < j < |added| && added[i].0 == level && added[j].0 == level ::
      added[i].1.number != added[j].1.number
  }

  /** At one level, every number is added at most once and is new to `used`. */
  ghost predicate FreshNumbers(used: set<nat>, edits: seq<Edit>, level: nat) {
    edits == [] ||
    var before, last := edits[..|edits| - 1], edits[|edits| - 1];
    && FreshNumbers(used, before, level)
    && DistinctNumbers(last.added, level)
    && Numbers(FilesAt(last.added, level)) !! used + Numbers(FileSet(FoldEdits(before, level).added))
  }

  lemma NextFileHasOwnSlot(s: LevelState, level: nat, init: seq<(nat, File)>, f: File)
    requires InOrder(s.added) && DistinctNumbers(init + [(level, f)], level)
    requires Numbers(FilesAt(init + [(level, f)], level)) !! Numbers(FileSet(s.added))
    requires FileSet(AddFiles(s, level, init).added) == FileSet(s.added) + FilesAt(init, level)
    ensures forall g :: g in AddFiles(s, level, init).added ==> !SameSlot(f, g)
  {
    hide InOrder;
    var added := init + [(level, f)];
    assert added[|init|] in added && f in FilesAt(added, level) && f.number in Numbers(FilesAt(added, level));
    forall g | g in AddFiles(s, level, init).added ensures !SameSlot(f, g) {
      assert g in FileSet(AddFiles(s, level, init).added);
      if g in FilesAt(init, level) {
        var i :| 0 <= i < |init| && init[i].0 == level && init[i].1 == g;
        assert added[i] == init[i];
      } else {
        assert g.number in Numbers(FileSet(s.added));
      }
    }
  }

  lemma OneMoreAt(init: seq<(nat, File)>, lvl: nat, f: File, level: nat)
    ensures FilesAt(init + [(lvl, f)], level) == FilesAt(init, level) + (if lvl == level then {f} else {})
    ensures Numbers(FilesAt(init + [(lvl, f)], level)) ==
      Numbers(FilesAt(init, level)) + (if lvl == level then {f.number} else {})
  {
    var added := init + [(lvl, f)];
    forall g ensures g in FilesAt(added, level) <==> g in FilesAt(init, level) || (lvl == level && g == f) {
      assert (level, g) in added <==> (level, g) in init || (level, g) == (lvl, f);
    }
  }

  lemma {:induction false} AddFilesMeaning(s: LevelState, level: nat, added: seq<(nat, File)>)
    requires InOrder(s.added) && DistinctNumbers(added, level)
    requires Numbers(FilesAt(added, level)) !! Numbers(FileSet(s.added))
    ensures FileSet(AddFiles(s, level, added).added) == FileSet(s.added) + FilesAt(added, level)
    ensures AddFiles(s, level, added).deleted == s.deleted - Numbers(FilesAt(added, level))
  {
    if added != [] {
      var n := |added| - 1;
      var init := added[..n];
      var (lvl, f) := added[n];
      assert added == init + [added[n]];
      OneMoreAt(init, lvl, f, level);
      AddFilesMeaning(s, level, init);
      if lvl == level {
        assert added == init + [(level, f)];
        NextFileHasOwnSlot(s, level, init, f);
        InsertFileFillsSlot(AddFiles(s, level, init).added, f);
      }
    }
  }

  /** One more edit on the running builder acts as that edit alone on the version reached. */
  lemma FoldStep(base: set<File>, s: LevelState, level: nat, edit: Edit)
    requires InOrder(s.added) && DistinctNumbers(edit.added, level)
    requires Numbers(FilesAt(edit.added, level)) !! Numbers(base) + Numbers(FileSet(s.added))
    ensures Live(base, ApplyLevel(s, level, edit)) == Live(Live(base, s), ApplyLevel(FRESH, level, edit))
  {
    var gone, arrivals := DeletedAt(edit, level), FilesAt(edit.added, level);
    AddFilesMeaning(s.(deleted := s.deleted + gone), level, edit.added);
    AddFilesMeaning(FRESH.(deleted := FRESH.deleted + gone), level, edit.added);
    var left, right := Live(base, ApplyLevel(s, level, edit)), Live(Live(base, s), ApplyLevel(FRESH, level, edit));
    forall f ensures f in left <==> f in right {
      if f in base + FileSet(s.added) {
        assert f.number in Numbers(base) + Numbers(FileSet(s.added));
      }
      if f in arrivals {
        assert f.number in Numbers(arrivals);
      }
    }
  }

  lemma {:induction false} OrderedFilesUnique(a: seq<File>, b: seq<File>)
    requires InOrder(a) && InOrder(b) && FileSet(a) == FileSet(b)
    ensures a == b
  {
    forall f ensures f in a <==> f in b {
      assert f in FileSet(a) <==> f in FileSet(b);
    }
    assert |b| > 0 ==> b[0] in b;
    if a != [] {
      assert a[0] in b && b != [];
      assert b[0] in a;
      assert a[0] == b[0];
      forall f ensures f in FileSet(a[1..]) <==> f in FileSet(b[1..]) {
        assert f in a <==> f == a[0] || f in a[1..];
        assert f in b <==> f == b[0] || f in b[1..];
      }
      OrderedFilesUnique(a[1..], b[1..]);
      assert a == [a[0]] + a[1..] && b == [b[0]] + b[1..];
    }
  }

  /** The level reached by installing the edits one version at a time. */
  lemma {:induction false} LevelAfterEdits(versions: seq<Version>, edits: seq<Edit>, n: nat, level: nat)
    requires |versions| == |edits| + 1 && n <= |edits| && level < NUM_LEVELS
    requires forall i :: 0 <= i < |edits| ==> Installs(versions[i], edits[i], versions[i + 1])
    requires FreshNumbers(Numbers(FileSet(versions[0][level])), edits[..n], level)
    ensures FileSet(versions[n][level]) == Live(FileSet(versions[0][level]), FoldEdits(edits[..n], level))
  {
    if n > 0 {
      assert edits[..n][..n - 1] == edits[..n - 1];
      LevelAfterEdits(versions, edits, n - 1, level);
      FoldStep(FileSet(versions[0][level]), FoldEdits(edits[..n - 1], level), level, edits[n - 1]);
      assert Installs(versions[n - 1], edits[n - 1], versions[n]);
    }
  }

  /**
   VersionSet::Recover feeds every manifest record to one builder and saves once.
   The result is the version the running database had reached, file for file.
   */
  lemma ReplayIsStepwise(versions: seq<Version>, edits: seq<Edit>, recovered: Version)
    requires |versions| == |edits| + 1
    requires forall i :: 0 <= i < |edits| ==> Installs(versions[i], edits[i], versions[i + 1])
    requires forall l :: 0 <= l < NUM_LEVELS ==>
      InOrder(versions[0][l]) && FreshNumbers(Numbers(FileSet(versions[0][l])), edits, l)
    requires forall l :: 0 <= l < NUM_LEVELS ==>
      InOrder(recovered[l]) && FileSet(recovered[l]) == Live(FileSet(versions[0][l]), FoldEdits(edits, l))
    ensures recovered == versions[|edits|]
  {
    var n := |edits|;
    assert edits[..n] == edits;
    forall l | 0 <= l < NUM_LEVELS ensures recovered[l] == versions[n][l] {
      LevelAfterEdits(versions, edits, n, l);
      assert n > 0 ==> Installs(versions[n - 1], edits[n - 1], versions[n]);
      OrderedFilesUnique(recovered[l], versions[n][l]);
    }
  }

  /** The added files of a builder never take the slot of a base file. */
  ghost predicate SlotsApart(v: Version, edits: seq<Edit>) {
    forall l, f, g | 0 <= l < NUM_LEVELS && f in v[l] && g in FoldEdits(edits, l).added :: !SameSlot(f, g)
  }

  lemma NoPointers()
    ensures forall before, level :: PointerAfter(before, level, []) == before
  {
  }

  /** All compaction pointers that a run of edits sets, in order. */
  function PointersOf(edits: seq<Edit>): seq<(nat, InternalKey)> {
    if edits == [] then [] else PointersOf(edits[..|edits| - 1]) + edits[|edits| - 1].pointers
  }

  lemma {:induction false} PointersCompose(before: Option<InternalKey>, level: nat, a: seq<(nat, InternalKey)>,
                                           b: seq<(nat, InternalKey)>)
    ensures PointerAfter(before, level, a + b) == PointerAfter(PointerAfter(before, level, a), level, b)
  {
    if b == [] {
      assert a + b == a;
    } else {
      PointersCompose(before, level, a, b[..|b| - 1]);
      assert (a + b)[..|a + b| - 1] == a + b[..|b| - 1];
    }
  }

  /** The builder part of VersionSet::Recover. */
  method RecoverVersion(base: Version, edits: seq<Edit>, compactPointers: array<Option<InternalKey>>)
    returns (v: Version)
    requires (forall l :: 0 <= l < NUM_LEVELS ==> InOrder(base[l])) && SlotsApart(base, edits)
    requires (forall e :: e in edits ==> LevelsInRange(e)) && compactPointers.Length == NUM_LEVELS
    modifies compactPointers
    ensures forall l :: 0 <= l < NUM_LEVELS ==>
      InOrder(v[l]) && FileSet(v[l]) == Live(FileSet(base[l]), FoldEdits(edits, l))
    ensures forall l :: 0 <= l < NUM_LEVELS ==>
      compactPointers[l] == PointerAfter(old(compactPointers[l]), l, PointersOf(edits))
  {
    hide PointerAfter, ApplyLevel, LevelsInRange;
    NoPointers();
    var builder := new Builder(base, compactPointers);
    assert edits[..0] == [];
    for i := 0 to |edits|
      invariant builder.Valid() && builder.base == base && builder.compactPointers == compactPointers
      invariant fresh(builder) && fresh(builder.levels)
      invariant forall l :: 0 <= l < NUM_LEVELS ==> builder.levels[l] == FoldEdits(edits[..i], l)
      invariant forall l :: 0 <= l < NUM_LEVELS ==>
        compactPointers[l] == PointerAfter(old(compactPointers[l]), l, PointersOf(edits[..i]))
    {
      forall l | 0 <= l < NUM_LEVELS
        ensures PointerAfter(old(compactPointers[l]), l, PointersOf(edits[..i]) + edits[i].pointers) ==
          PointerAfter(compactPointers[l], l, edits[i].pointers)
      {
        PointersCompose(old(compactPointers[l]), l, PointersOf(edits[..i]), edits[i].pointers);
      }
      assert edits[..i + 1][..i] == edits[..i];
      assert edits[i] in edits;
      builder.Apply(edits[i]);
    }
    assert edits[..|edits|] == edits;
    v := builder.SaveTo();
  }

  /** The builder part of VersionSet::LogAndApply. */
  method InstallEdit(v: Version, edit: Edit, compactPointers: array<Option<InternalKey>>) returns (v': Version)
    requires (forall l :: 0 <= l < NUM_LEVELS ==> InOrder(v[l])) && SlotsApart(v, [edit]) && LevelsInRange(edit)
    requires compactPointers.Length == NUM_LEVELS
    modifies compactPointers
    ensures Installs(v, edit, v')
    ensures forall l :: 0 <= l < NUM_LEVELS ==>
      compactPointers[l] == PointerAfter(old(compactPointers[l]), l, edit.pointers)
  {
    assert [edit][..0] == [] && PointersOf([edit]) == [] + edit.pointers == edit.pointers;
    v' := RecoverVersion(v, [edit], compactPointers);
    assert forall l :: FoldEdits([edit], l) == ApplyLevel(FRESH, l, edit);
  }
}
