/**
 Installing a flushed table or a compaction's outputs keeps a version sound:
 files above level 0 stay disjoint and shallower levels stay newer.
 */
module Installation {
  import opened Keys
  import opened Levels
  import opened InputSelection
  import opened VersionBuilder

  ghost predicate NumbersIdentify(v: Version) {
    forall i, j, f, g | 0 <= i < NUM_LEVELS && 0 <= j < NUM_LEVELS && f in v[i] && g in v[j] && f.number == g.number ::
      i == j && f == g
  }

  /** A version as the version set keeps it. */
  ghost predicate Sound(v: Version, nextFile: nat) {
    && VersionOk(v)
    && (forall l :: 0 <= l < NUM_LEVELS ==> InOrder(v[l]))
    && NumbersIdentify(v)
    && (forall l, f | 0 <= l < NUM_LEVELS && f in v[l] :: f.number < nextFile)
  }

  lemma InFileSet(files: seq<File>)
    ensures forall f :: f in files <==> f in FileSet(files)
  {
  }

  /** Files ordered by smallest key whose ranges do not cross are disjoint. */
  lemma DisjointFromPairs(files: seq<File>)
    requires InOrder(files) && forall f :: f in files ==> FileOk(f)
    requires forall f, g | f in files && g in files && f != g ::
      Less(f.largest, g.smallest) || Less(g.largest, f.smallest)
    ensures Disjoint(files)
  {
    RangesAreOrdered(files);
    forall i, j | 0 <= i < j < |files| ensures Less(files[i].largest, files[j].smallest) {
      assert files[i] in files && files[j] in files;
    }
  }

  /** `v'` is `v` with `removed0`/`removed1` taken from two levels and `added` put in the deeper one. */
  ghost predicate Replaces(v: Version, level: nat, removed0: set<File>, removed1: set<File>, added: set<File>,
                           v': Version)
    requires level + 1 < NUM_LEVELS
  {
    && (forall l | 0 <= l < NUM_LEVELS && l != level && l != level + 1 :: FileSet(v'[l]) == FileSet(v[l]))
    && FileSet(v'[level]) == FileSet(v[level]) - removed0
    && FileSet(v'[level + 1]) == FileSet(v[level + 1]) - removed1 + added
  }

  /** What a compaction may assume of the files around its inputs. */
  ghost predicate Clear(v: Version, level: nat, inputs0: seq<File>, inputs1: seq<File>)
    requires level + 1 < NUM_LEVELS
  {
    && (forall f :: f in inputs0 ==> f in v[level]) && (forall f :: f in inputs1 ==> f in v[level + 1])
    && (forall r, f | r in v[level] && r !in inputs0 && f in inputs0 ::
          NewerThan(Elements(r.entries), Elements(f.entries)))
    && (forall r | r in v[level + 1] && r !in inputs1 :: Beside(r, inputs0 + inputs1))
  }

  lemma UniqueWithinLevel(v: Version, i: nat, r: File, f: File)
    requires Unique(VersionEntries(v)) && i < NUM_LEVELS && r in v[i] && f in v[i]
    ensures Unique(Elements(r.entries) + Elements(f.entries))
  {
    assert Elements(r.entries) + Elements(f.entries) <= FileEntries(v[i]) <= VersionEntries(v);
  }

  lemma SelectedRemainderIsNewer(v: Version, level: nat, files: seq<File>, inputs: seq<File>)
    requires level < NUM_LEVELS && files == v[level] && Unique(VersionEntries(v))
    requires (forall f :: f in files ==> FileOk(f)) && (level > 0 ==> Disjoint(files))
    requires Eligible(level, files, inputs) && exists last | last in inputs :: LastOfChoice(last, inputs, files)
    ensures forall r, f | r in files && r !in inputs && f in inputs ::
      NewerThan(Elements(r.entries), Elements(f.entries))
  {
    forall r, f | r in files && r !in inputs && f in inputs
      ensures NewerThan(Elements(r.entries), Elements(f.entries))
    {
      UniqueWithinLevel(v, level, r, f);
      RemainderIsNewer(level, files, inputs, r, f);
    }
  }

  /** The source's input selection leaves the version clear around its inputs. */
  lemma SelectionIsClear(v: Version, level: nat, inputs0: seq<File>, inputs1: seq<File>)
    requires VersionOk(v) && level + 1 < NUM_LEVELS && Selected(v, level, inputs0, inputs1)
    ensures Clear(v, level, inputs0, inputs1)
  {
    SelectedRemainderIsNewer(v, level, v[level], inputs0);
    var lo, hi :| IsUserRange(inputs0, lo, hi) && inputs1 == OverlappingFiles(v[level + 1], Some(lo), Some(hi));
    RangesAreOrdered(v[level]);
    forall r | r in v[level + 1] && r !in inputs1 ensures Beside(r, inputs0 + inputs1) {
      ParentsStandAside(v[level + 1], lo, hi, inputs0, r);
    }
  }

  lemma BesideOutputs(r: File, inputs: seq<File>, o: File)
    requires Beside(r, inputs) && FileOk(o) && forall f :: f in inputs ==> FileOk(f)
    requires Elements(o.entries) <= FileEntries(inputs)
    ensures Less(r.largest, o.smallest) || Less(o.largest, r.smallest)
  {
    var first, last := o.entries[0], o.entries[|o.entries| - 1];
    assert first in Elements(o.entries) && last in Elements(o.entries);
    var f :| f in inputs && first in f.entries;
    var g :| g in inputs && last in g.entries;
    EntryWithinFile(f, first);
    EntryWithinFile(g, last);
  }

  lemma OutputLevelDisjoint(parents: seq<File>, inputs0: seq<File>, inputs1: seq<File>, outputs: seq<File>,
                            level': seq<File>)
    requires Disjoint(parents) && (forall f :: f in parents ==> FileOk(f))
    requires (forall f :: f in inputs0 + inputs1 ==> FileOk(f)) && (forall f :: f in outputs ==> FileOk(f))
    requires Disjoint(outputs) && FileEntries(outputs) <= FileEntries(inputs0 + inputs1)
    requires forall r | r in parents && r !in inputs1 :: Beside(r, inputs0 + inputs1)
    requires InOrder(level') && FileSet(level') == FileSet(parents) - FileSet(inputs1) + FileSet(outputs)
    ensures (forall f :: f in level' ==> FileOk(f)) && Disjoint(level')
  {
    InFileSet(level');
    forall f, g | f in level' && g in level' && f != g
      ensures Less(f.largest, g.smallest) || Less(g.largest, f.smallest)
    {
      if f in outputs && g in outputs {
        FilesAreOrdered(outputs, f, g);
      } else if f in outputs {
        assert Elements(f.entries) <= FileEntries(outputs);
        BesideOutputs(g, inputs0 + inputs1, f);
      } else if g in outputs {
        assert Elements(g.entries) <= FileEntries(outputs);
        BesideOutputs(f, inputs0 + inputs1, g);
      } else {
        FilesAreOrdered(parents, f, g);
      }
    }
    DisjointFromPairs(level');
  }

  lemma SubsetStaysDisjoint(files: seq<File>, level': seq<File>)
    requires Disjoint(files) && (forall f :: f in files ==> FileOk(f))
    requires InOrder(level') && FileSet(level') <= FileSet(files)
    ensures Disjoint(level')
  {
    InFileSet(level');
    forall f, g | f in level' && g in level' && f != g
      ensures Less(f.largest, g.smallest) || Less(g.largest, f.smallest)
    {
      FilesAreOrdered(files, f, g);
    }
    DisjointFromPairs(level');
  }

  lemma EntriesOfSubset(files: seq<File>, level': seq<File>)
    requires FileSet(level') <= FileSet(files)
    ensures FileEntries(level') <= FileEntries(files)
  {
    InFileSet(level');
  }

  /** Where the entries of the rearranged levels come from. */
  lemma EntriesAfterReplace(v: Version, level: nat, inputs0: seq<File>, inputs1: seq<File>, outputs: seq<File>,
                            v': Version)
    requires level + 1 < NUM_LEVELS
    requires Replaces(v, level, FileSet(inputs0), FileSet(inputs1), FileSet(outputs), v')
    requires forall f :: f in inputs1 ==> f in v[level + 1]
    requires FileEntries(outputs) <= FileEntries(inputs0 + inputs1)
    ensures forall l | 0 <= l < NUM_LEVELS && l != level + 1 :: FileEntries(v'[l]) <= FileEntries(v[l])
    ensures FileEntries(v'[level + 1]) <= FileEntries(v[level + 1]) + FileEntries(inputs0)
    ensures forall e :: e in FileEntries(v'[level]) ==> exists r :: r in v[level] && r !in inputs0 && e in r.entries
  {
    forall l | 0 <= l < NUM_LEVELS && l != level + 1 ensures FileEntries(v'[l]) <= FileEntries(v[l]) {
      EntriesOfSubset(v[l], v'[l]);
    }
    InFileSet(v'[level]);
    InFileSet(v'[level + 1]);
    var allowed := FileEntries(v[level + 1]) + FileEntries(inputs0);
    forall e | e in FileEntries(v'[level + 1]) ensures e in allowed {
      var f :| f in v'[level + 1] && e in f.entries;
      if f in outputs {
        assert e in FileEntries(outputs);
        var g :| g in inputs0 + inputs1 && e in g.entries;
      }
    }
  }

  /** What stays at a level is newer than what a compaction takes from it. */
  lemma RemainderAboveInputs(rest: set<Entry>, files: seq<File>, inputs0: seq<File>)
    requires forall e :: e in rest ==> exists r :: r in files && r !in inputs0 && e in r.entries
    requires forall r, f | r in files && r !in inputs0 && f in inputs0 ::
      NewerThan(Elements(r.entries), Elements(f.entries))
    ensures NewerThan(rest, FileEntries(inputs0))
  {
    forall e, f | e in rest && f in FileEntries(inputs0) && e.ik.user == f.ik.user ensures e.ik.seqno > f.ik.seqno {
      var r :| r in files && r !in inputs0 && e in r.entries;
      var g :| g in inputs0 && f in g.entries;
      assert NewerThan(Elements(r.entries), Elements(g.entries));
      assert e in Elements(r.entries) && f in Elements(g.entries);
    }
  }

  lemma NewerAfterTaking(S: set<Entry>, T: set<Entry>, taken: set<Entry>, S': set<Entry>, T': set<Entry>)
    requires NewerThan(S, T) && S' <= S + taken && T' <= T && NewerThan(taken, T)
    ensures NewerThan(S', T')
  {
  }

  lemma NewerAfterGiving(S: set<Entry>, T: set<Entry>, taken: set<Entry>, S': set<Entry>, T': set<Entry>)
    requires NewerThan(S, T) && S' <= S && T' <= T + taken && NewerThan(S', taken)
    ensures NewerThan(S', T')
  {
  }

  lemma NewerThanSubsets(S: set<Entry>, T: set<Entry>, S': set<Entry>, T': set<Entry>)
    requires NewerThan(S, T) && S' <= S && T' <= T
    ensures NewerThan(S', T')
  {
  }

  lemma ReplaceStaysNewer(v: Version, level: nat, inputs0: seq<File>, inputs1: seq<File>, outputs: seq<File>,
                          v': Version)
    requires ShallowerIsNewer(v) && level + 1 < NUM_LEVELS
    requires (forall f :: f in inputs0 ==> f in v[level]) && (forall f :: f in inputs1 ==> f in v[level + 1])
    requires forall r, f | r in v[level] && r !in inputs0 && f in inputs0 ::
               NewerThan(Elements(r.entries), Elements(f.entries))
    requires Replaces(v, level, FileSet(inputs0), FileSet(inputs1), FileSet(outputs), v')
    requires FileEntries(outputs) <= FileEntries(inputs0 + inputs1)
    ensures ShallowerIsNewer(v')
  {
    EntriesAfterReplace(v, level, inputs0, inputs1, outputs, v');
    RemainderAboveInputs(FileEntries(v'[level]), v[level], inputs0);
    var taken := FileEntries(inputs0);
    assert taken <= FileEntries(v[level]);
    forall i, j | 0 <= i < j < NUM_LEVELS ensures NewerThan(FileEntries(v'[i]), FileEntries(v'[j])) {
      var S, T := FileEntries(v[i]), FileEntries(v[j]);
      if i == level + 1 {
        NewerThanSubsets(FileEntries(v[level]), T, taken, T);
        NewerAfterTaking(S, T, taken, FileEntries(v'[i]), FileEntries(v'[j]));
      } else if j == level + 1 {
        if i < level {
          NewerThanSubsets(S, FileEntries(v[level]), FileEntries(v'[i]), taken);
        }
        NewerAfterGiving(S, T, taken, FileEntries(v'[i]), FileEntries(v'[j]));
      } else {
        NewerThanSubsets(S, T, FileEntries(v'[i]), FileEntries(v'[j]));
      }
    }
  }

  lemma ReplaceShrinksEntries(v: Version, level: nat, inputs0: seq<File>, inputs1: seq<File>, outputs: seq<File>,
                              v': Version)
    requires level + 1 < NUM_LEVELS
    requires (forall f :: f in inputs0 ==> f in v[level]) && (forall f :: f in inputs1 ==> f in v[level + 1])
    requires Replaces(v, level, FileSet(inputs0), FileSet(inputs1), FileSet(outputs), v')
    requires FileEntries(outputs) <= FileEntries(inputs0 + inputs1)
    ensures VersionEntries(v') <= VersionEntries(v)
  {
    EntriesAfterReplace(v, level, inputs0, inputs1, outputs, v');
    assert FileEntries(inputs0) <= FileEntries(v[level]);
  }

  lemma LevelLosesFiles(v: Version, l: nat, files: seq<File>)
    requires VersionOk(v) && l < NUM_LEVELS && InOrder(files) && FileSet(files) <= FileSet(v[l])
    ensures (forall f :: f in files ==> FileOk(f)) && (l > 0 ==> Disjoint(files)) && (l == 0 ==> NumberedByAge(files))
  {
    hide FileOk, ShallowerIsNewer, Unique;
    InFileSet(v[l]);
    InFileSet(files);
    if l > 0 {
      SubsetStaysDisjoint(v[l], files);
    }
  }

  lemma ReplaceOtherLevels(v: Version, level: nat, inputs0: seq<File>, inputs1: seq<File>, outputs: seq<File>,
                           v': Version)
    requires VersionOk(v) && level + 1 < NUM_LEVELS && Clear(v, level, inputs0, inputs1)
    requires forall l :: 0 <= l < NUM_LEVELS ==> InOrder(v'[l])
    requires Replaces(v, level, FileSet(inputs0), FileSet(inputs1), FileSet(outputs), v')
    ensures forall l | 0 <= l < NUM_LEVELS && l != level + 1 ::
      (forall f :: f in v'[l] ==> FileOk(f)) && (l > 0 ==> Disjoint(v'[l])) && (l == 0 ==> NumberedByAge(v'[l]))
  {
    hide VersionOk, Clear, InOrder, NumberedByAge, Disjoint, FileOk;
    forall l | 0 <= l < NUM_LEVELS && l != level + 1
      ensures (forall f :: f in v'[l] ==> FileOk(f)) && (l > 0 ==> Disjoint(v'[l])) && (l == 0 ==> NumberedByAge(v'[l]))
    {
      LevelLosesFiles(v, l, v'[l]);
    }
  }

  lemma ReplaceNextLevel(v: Version, level: nat, inputs0: seq<File>, inputs1: seq<File>, outputs: seq<File>,
                         v': Version)
    requires VersionOk(v) && level + 1 < NUM_LEVELS && Clear(v, level, inputs0, inputs1)
    requires forall l :: 0 <= l < NUM_LEVELS ==> InOrder(v'[l])
    requires Replaces(v, level, FileSet(inputs0), FileSet(inputs1), FileSet(outputs), v')
    requires (forall f :: f in outputs ==> FileOk(f)) && Disjoint(outputs)
    requires FileEntries(outputs) <= FileEntries(inputs0 + inputs1)
    ensures (forall f :: f in v'[level + 1] ==> FileOk(f)) && Disjoint(v'[level + 1])
  {
    hide FileOk, Disjoint, ShallowerIsNewer, Unique, InOrder, NumberedByAge, Beside;
    OutputLevelDisjoint(v[level + 1], inputs0, inputs1, outputs, v'[level + 1]);
  }

  lemma ReplaceEntries(v: Version, level: nat, inputs0: seq<File>, inputs1: seq<File>, outputs: seq<File>, v': Version)
    requires VersionOk(v) && level + 1 < NUM_LEVELS && Clear(v, level, inputs0, inputs1)
    requires forall l :: 0 <= l < NUM_LEVELS ==> InOrder(v'[l])
    requires Replaces(v, level, FileSet(inputs0), FileSet(inputs1), FileSet(outputs), v')
    requires (forall f :: f in outputs ==> FileOk(f)) && Disjoint(outputs)
    requires FileEntries(outputs) <= FileEntries(inputs0 + inputs1)
    ensures ShallowerIsNewer(v') && Unique(VersionEntries(v'))
  {
    ReplaceStaysNewer(v, level, inputs0, inputs1, outputs, v');
    ReplaceShrinksEntries(v, level, inputs0, inputs1, outputs, v');
    hide Replaces, ShallowerIsNewer, InOrder, Disjoint, FileOk;
  }

  /** Replacing selected inputs by files cut from their entries keeps the version sound. */
  lemma ReplaceKeepsVersionOk(v: Version, level: nat, inputs0: seq<File>, inputs1: seq<File>, outputs: seq<File>,
                              v': Version)
    requires VersionOk(v) && level + 1 < NUM_LEVELS && Clear(v, level, inputs0, inputs1)
    requires forall l :: 0 <= l < NUM_LEVELS ==> InOrder(v'[l])
    requires Replaces(v, level, FileSet(inputs0), FileSet(inputs1), FileSet(outputs), v')
    requires (forall f :: f in outputs ==> FileOk(f)) && Disjoint(outputs)
    requires FileEntries(outputs) <= FileEntries(inputs0 + inputs1)
    ensures VersionOk(v')
  {
    hide FileOk, Disjoint, ShallowerIsNewer, Unique, InOrder, Replaces, Clear, NumberedByAge;
    ReplaceOtherLevels(v, level, inputs0, inputs1, outputs, v');
    ReplaceNextLevel(v, level, inputs0, inputs1, outputs, v');
    ReplaceEntries(v, level, inputs0, inputs1, outputs, v');
  }

  // ----- adding a flushed table -----

  ghost predicate AddsFile(v: Version, level: nat, f: File, v': Version)
    requires level < NUM_LEVELS
  {
    && (forall l | 0 <= l < NUM_LEVELS && l != level :: FileSet(v'[l]) == FileSet(v[l]))
    && FileSet(v'[level]) == FileSet(v[level]) + {f}
  }

  lemma NoMeetingMeansNoSharedKey(files: seq<File>, f: File)
    requires FileOk(f) && (forall g :: g in files ==> FileOk(g))
    requires !LevelMeets(files, f.smallest.user, f.largest.user)
    ensures forall e, g | e in FileEntries(files) && g in f.entries :: e.ik.user != g.ik.user
    ensures forall g :: g in files ==> g.largest.user < f.smallest.user || f.largest.user < g.smallest.user
  {
    forall g | g in files ensures g.largest.user < f.smallest.user || f.largest.user < g.smallest.user {
      assert !Overlaps(g, Some(f.smallest.user), Some(f.largest.user));
    }
    forall e, g | e in FileEntries(files) && g in f.entries ensures e.ik.user != g.ik.user {
      var h :| h in files && e in h.entries;
      EntryWithinFile(h, e);
      EntryWithinFile(f, g);
    }
  }

  lemma EntriesAfterAdd(v: Version, level: nat, f: File, v': Version)
    requires level < NUM_LEVELS && AddsFile(v, level, f, v')
    ensures forall l | 0 <= l < NUM_LEVELS && l != level :: FileEntries(v'[l]) == FileEntries(v[l])
    ensures FileEntries(v'[level]) == FileEntries(v[level]) + Elements(f.entries)
    ensures VersionEntries(v') == VersionEntries(v) + Elements(f.entries)
  {
    forall l | 0 <= l < NUM_LEVELS ensures forall g :: g in v'[l] <==> g in v[l] || (l == level && g == f) {
      InFileSet(v[l]);
      InFileSet(v'[l]);
    }
    assert f in v'[level];
    forall l | 0 <= l < NUM_LEVELS && l != level ensures FileEntries(v'[l]) == FileEntries(v[l]) {
    }
    assert FileEntries(v'[level]) == FileEntries(v[level]) + Elements(f.entries);
    forall e ensures e in VersionEntries(v') <==> e in VersionEntries(v) + Elements(f.entries) {
      if e in f.entries {
        assert e in FileEntries(v'[level]);
      }
      if i :| 0 <= i < NUM_LEVELS && e in FileEntries(v[i]) {
        assert e in FileEntries(v'[i]);
      }
    }
  }

  lemma LevelInVersion(v: Version, j: nat)
    requires j < NUM_LEVELS
    ensures FileEntries(v[j]) <= VersionEntries(v)
  {
  }

  lemma AddStaysNewer(v: Version, level: nat, f: File, v': Version)
    requires ShallowerIsNewer(v) && level < NUM_LEVELS && AddsFile(v, level, f, v') && FileOk(f)
    requires forall i, g | 0 <= i < NUM_LEVELS && g in v[i] :: FileOk(g)
    requires NewerThan(Elements(f.entries), VersionEntries(v))
    requires level > 0 ==> forall i :: 0 <= i <= level ==> !LevelMeets(v[i], f.smallest.user, f.largest.user)
    ensures ShallowerIsNewer(v')
  {
    hide FileOk, LevelMeets, FileEntries, VersionEntries, AddsFile;
    EntriesAfterAdd(v, level, f, v');
    forall i, j | 0 <= i < j < NUM_LEVELS ensures NewerThan(FileEntries(v'[i]), FileEntries(v'[j])) {
      assert NewerThan(FileEntries(v[i]), FileEntries(v[j]));
      LevelInVersion(v, j);
      if j == level {
        NoMeetingMeansNoSharedKey(v[i], f);
      }
    }
  }

  lemma AddedLevelDisjoint(files: seq<File>, f: File, level': seq<File>)
    requires Disjoint(files) && (forall g :: g in files ==> FileOk(g)) && FileOk(f)
    requires !LevelMeets(files, f.smallest.user, f.largest.user)
    requires InOrder(level') && FileSet(level') == FileSet(files) + {f}
    ensures Disjoint(level')
  {
    InFileSet(level');
    NoMeetingMeansNoSharedKey(files, f);
    forall a, b | a in level' && b in level' && a != b
      ensures Less(a.largest, b.smallest) || Less(b.largest, a.smallest)
    {
      if a != f && b != f {
        FilesAreOrdered(files, a, b);
      }
    }
    DisjointFromPairs(level');
  }

  lemma Level0StaysNumbered(files: seq<File>, f: File, level': seq<File>)
    requires NumberedByAge(files) && forall g :: g in files ==> g.number < f.number
    requires NewerThan(Elements(f.entries), FileEntries(files))
    requires FileSet(level') == FileSet(files) + {f}
    ensures NumberedByAge(level')
  {
    InFileSet(level');
    forall a, b | a in level' && b in level' && a.number > b.number
      ensures NewerThan(Elements(a.entries), Elements(b.entries))
    {
      assert b != f;
      assert Elements(b.entries) <= FileEntries(files);
    }
  }

  /** A memtable's table placed by PickLevelForMemTableOutput keeps the version sound. */
  lemma AddKeepsVersionOk(v: Version, level: nat, f: File, v': Version)
    requires VersionOk(v) && level < NUM_LEVELS && AddsFile(v, level, f, v') && FileOk(f)
    requires forall l :: 0 <= l < NUM_LEVELS ==> InOrder(v'[l])
    requires forall g :: g in v[0] ==> g.number < f.number
    requires NewerThan(Elements(f.entries), VersionEntries(v)) && Unique(VersionEntries(v) + Elements(f.entries))
    requires level > 0 ==> forall i :: 0 <= i <= level ==> !LevelMeets(v[i], f.smallest.user, f.largest.user)
    ensures VersionOk(v') && VersionEntries(v') == VersionEntries(v) + Elements(f.entries)
  {
    EntriesAfterAdd(v, level, f, v');
    AddStaysNewer(v, level, f, v');
    forall l | 0 <= l < NUM_LEVELS
      ensures (forall g :: g in v'[l] ==> FileOk(g)) && (l > 0 ==> Disjoint(v'[l])) && (l == 0 ==> NumberedByAge(v'[l]))
    {
      InFileSet(v[l]);
      InFileSet(v'[l]);
      assert FileEntries(v[0]) <= VersionEntries(v);
      if l != level {
        OrderedSetsAgree(v[l], v'[l]);
      } else if l == 0 {
        Level0StaysNumbered(v[0], f, v'[0]);
      } else {
        AddedLevelDisjoint(v[l], f, v'[l]);
      }
    }
  }

  lemma OrderedSetsAgree(files: seq<File>, level': seq<File>)
    requires InOrder(level') && FileSet(level') == FileSet(files) && forall f :: f in files ==> FileOk(f)
    ensures Disjoint(files) ==> Disjoint(level')
    ensures NumberedByAge(files) ==> NumberedByAge(level')
  {
    InFileSet(files);
    InFileSet(level');
    if Disjoint(files) {
      SubsetStaysDisjoint(files, level');
    }
  }
}
