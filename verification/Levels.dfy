/**
 Table files, the seven levels of a version, and the searches over them
 (db/version_set.cc).  A file carries the entries its table holds.
 */
module Levels {
  import opened Keys

  const NUM_LEVELS: nat := 7
  const MAX_MEM_COMPACT_LEVEL: nat := 2

  datatype Option<+T> = None | Some(value: T)

  datatype File = File(number: nat, size: nat, smallest: InternalKey, largest: InternalKey, entries: seq<Entry>)

  type Version = v: seq<seq<File>> | |v| == NUM_LEVELS witness [[], [], [], [], [], [], []]

  ghost predicate FileOk(f: File) {
    && f.entries != [] && Sorted(f.entries)
    && f.smallest == f.entries[0].ik
    && f.largest == f.entries[|f.entries| - 1].ik
    && forall e :: e in f.entries ==> e.ik.seqno < MAX_SEQUENCE
  }

  /** Files of a level above 0 are sorted and share no internal key range. */
  ghost predicate Disjoint(files: seq<File>) {
    forall i, j :: 0 <= i < j < |files| ==> Less(files[i].largest, files[j].smallest)
  }

  ghost function FileEntries(files: seq<File>): set<Entry> {
    set f, e | f in files && e in f.entries :: e
  }

  ghost function VersionEntries(v: Version): set<Entry> {
    set i, e | 0 <= i < NUM_LEVELS && e in FileEntries(v[i]) :: e
  }

  /** Every version of a key in `S` is newer than every version of it in `T`. */
  ghost predicate NewerThan(S: set<Entry>, T: set<Entry>) {
    forall e, f | e in S && f in T && e.ik.user == f.ik.user :: e.ik.seqno > f.ik.seqno
  }

  /** Higher numbered level-0 files hold newer data. */
  ghost predicate NumberedByAge(files: seq<File>) {
    && (forall a, b | a in files && b in files && a.number == b.number :: a == b)
    && (forall a, b | a in files && b in files && a.number > b.number ::
          NewerThan(Elements(a.entries), Elements(b.entries)))
  }

  ghost predicate ShallowerIsNewer(v: Version) {
    forall i, j | 0 <= i < j < NUM_LEVELS :: NewerThan(FileEntries(v[i]), FileEntries(v[j]))
  }

  ghost predicate VersionOk(v: Version) {
    && (forall i, f | 0 <= i < NUM_LEVELS && f in v[i] :: FileOk(f))
    && (forall i | 1 <= i < NUM_LEVELS :: Disjoint(v[i]))
    && NumberedByAge(v[0])
    && ShallowerIsNewer(v)
    && Unique(VersionEntries(v))
  }

  lemma EntryWithinFile(f: File, e: Entry)
    requires FileOk(f) && e in f.entries
    ensures LessEq(f.smallest, e.ik) && LessEq(e.ik, f.largest)
  {
    var i :| 0 <= i < |f.entries| && f.entries[i] == e;
    assert i > 0 ==> Less(f.entries[0].ik, f.entries[i].ik);
    assert i < |f.entries| - 1 ==> Less(f.entries[i].ik, f.entries[|f.entries| - 1].ik);
  }

  // ----- FindFile -----

  /** The earliest file whose largest key is at or after `key`. */
  method FindFile(files: seq<File>, key: InternalKey) returns (index: nat)
    requires Disjoint(files) && forall f :: f in files ==> FileOk(f)
    ensures index <= |files|
    ensures forall i :: 0 <= i < index ==> Less(files[i].largest, key)
    ensures forall i :: index <= i < |files| ==> LessEq(key, files[i].largest)
  {
    var left, right := 0, |files|;
    while left < right
      invariant 0 <= left <= right <= |files|
      invariant forall i :: 0 <= i < left ==> Less(files[i].largest, key)
      invariant forall i :: right <= i < |files| ==> LessEq(key, files[i].largest)
    {
      var mid := (left + right) / 2;
      LargestAscend(files, mid);
      if Less(files[mid].largest, key) {
        left := mid + 1;
      } else {
        right := mid;
      }
    }
    index := right;
  }

  lemma LargestAscend(files: seq<File>, mid: nat)
    requires Disjoint(files) && mid < |files| && forall f :: f in files ==> FileOk(f)
    ensures forall i :: 0 <= i < mid ==> Less(files[i].largest, files[mid].largest)
    ensures forall i :: mid < i < |files| ==> Less(files[mid].largest, files[i].largest)
  {
    forall i | 0 <= i < |files| ensures LessEq(files[i].smallest, files[i].largest) {
      assert FileOk(files[i]);
      EntryWithinFile(files[i], files[i].entries[0]);
    }
  }

  // ----- range overlap -----

  /** The user key, if given, lies past every key of the file. */
  predicate AfterFile(user: Option<UserKey>, f: File) {
    user.Some? && user.value > f.largest.user
  }

  predicate BeforeFile(user: Option<UserKey>, f: File) {
    user.Some? && user.value < f.smallest.user
  }

  /** The file's user-key range meets the given one; a missing bound is unbounded. */
  predicate Overlaps(f: File, begin: Option<UserKey>, end: Option<UserKey>) {
    !AfterFile(begin, f) && !BeforeFile(end, f)
  }

  /** Binary search over disjoint files finds an overlap exactly when one exists. */
  method SomeFileOverlapsRange(disjoint: bool, files: seq<File>, smallest: Option<UserKey>, largest: Option<UserKey>)
    returns (overlap: bool)
    requires forall f :: f in files ==> FileOk(f)
    requires disjoint ==> Disjoint(files)
    ensures overlap <==> exists f :: f in files && Overlaps(f, smallest, largest)
  {
    if !disjoint {
      for i := 0 to |files|
        invariant forall j :: 0 <= j < i ==> !Overlaps(files[j], smallest, largest)
      {
        if !AfterFile(smallest, files[i]) && !BeforeFile(largest, files[i]) {
          assert files[i] in files && Overlaps(files[i], smallest, largest);
          return true;
        }
      }
      return false;
    }
    var index := 0;
    if smallest.Some? {
      index := FindFile(files, InternalKey(smallest.value, MAX_SEQUENCE, TYPE_VALUE));
    }
    forall i | 0 <= i < index ensures !Overlaps(files[i], smallest, largest) {
      assert FileOk(files[i]);
      assert files[i].largest == files[i].entries[|files[i].entries| - 1].ik;
    }
    forall i | index <= i < |files| ensures LessEq(files[index].smallest, files[i].smallest) {
      assert FileOk(files[index]);
      EntryWithinFile(files[index], files[index].entries[0]);
      assert i > index ==> Less(files[index].largest, files[i].smallest);
    }
    if index >= |files| {
      return false;
    }
    overlap := !BeforeFile(largest, files[index]);
    assert overlap ==> Overlaps(files[index], smallest, largest);
  }

  // ----- where a flushed memtable goes -----

  ghost predicate LevelMeets(files: seq<File>, lo: UserKey, hi: UserKey) {
    exists f :: f in files && Overlaps(f, Some(lo), Some(hi))
  }

  /**
   `crowded[i]` stands for the check on overlapping bytes two levels down, which
   bounds later compaction cost and nothing else.
   */
  method PickLevelForMemTableOutput(v: Version, lo: UserKey, hi: UserKey, crowded: seq<bool>) returns (level: nat)
    requires VersionOk(v) && lo <= hi && |crowded| == MAX_MEM_COMPACT_LEVEL
    ensures level <= MAX_MEM_COMPACT_LEVEL
    ensures level > 0 ==> forall i :: 0 <= i <= level ==> !LevelMeets(v[i], lo, hi)
    ensures level == 0 ==> LevelMeets(v[0], lo, hi) || LevelMeets(v[1], lo, hi) || crowded[0]
    ensures 0 < level < MAX_MEM_COMPACT_LEVEL ==> LevelMeets(v[level + 1], lo, hi) || crowded[level]
  {
    level := 0;
    var meets := SomeFileOverlapsRange(false, v[0], Some(lo), Some(hi));
    if !meets {
      while level < MAX_MEM_COMPACT_LEVEL
        invariant level <= MAX_MEM_COMPACT_LEVEL
        invariant forall i :: 0 <= i <= level ==> !LevelMeets(v[i], lo, hi)
      {
        meets := SomeFileOverlapsRange(true, v[level + 1], Some(lo), Some(hi));
        if meets { break; }
        if level + 2 < NUM_LEVELS {
          if crowded[level] { break; }
        }
        level := level + 1;
      }
    }
  }

  // ----- looking a key up -----

  /** The position of the first entry at or after `key` (Table::InternalGet). */
  function SeekIn(entries: seq<Entry>, key: InternalKey): (i: nat)
    ensures i <= |entries|
    ensures forall j :: 0 <= j < i ==> Less(entries[j].ik, key)
    ensures i < |entries| ==> LessEq(key, entries[i].ik)
  {
    if entries == [] then 0
    else if Less(entries[0].ik, key) then 1 + SeekIn(entries[1..], key)
    else 0
  }

  function LookupKey(k: UserKey, s: nat): InternalKey {
    InternalKey(k, s, TYPE_VALUE)
  }

  /** No entry for `k` hides at exactly sequence `s` behind an unparsable type. */
  ghost predicate Seekable(S: set<Entry>, k: UserKey, s: nat) {
    forall e :: e in S && e.ik.user == k && e.ik.seqno == s ==> Parses(e.ik)
  }

  datatype SaverState = NotFoundYet | Saved(entry: Entry) | SawCorrupt

  /**
   What Table::InternalGet promises of a table (SortedTable.InternalGet): it hands over the
   first entry at or after the key or nothing, and that entry whenever it has the key's user key.
   */
  ghost predicate Delivers(entries: seq<Entry>, key: InternalKey, r: Option<Entry>) {
    var i := SeekIn(entries, key);
    && (r.Some? ==> i < |entries| && r.value == entries[i])
    && (i < |entries| && entries[i].ik.user == key.user ==> r == Some(entries[i]))
  }

  /** The tables behind the files; how each is cut into blocks and filtered decides what else it hands over. */
  type TableGet = get: (File, InternalKey) -> Option<Entry> |
    forall f: File, key :: Delivers(f.entries, key, get(f, key))
    witness (f: File, key: InternalKey) =>
      var i := SeekIn(f.entries, key);
      if i < |f.entries| then Some(f.entries[i]) else None

  /** A file whose range covers `k`, whose table hands the lookup an unparsable entry of another user key. */
  ghost predicate Stray(get: TableGet, f: File, k: UserKey, s: nat) {
    var r := get(f, LookupKey(k, s));
    f.smallest.user <= k && r.Some? && !Parses(r.value.ik) && r.value.ik.user != k
  }

  /** A stray entry is the first of its file at or after the lookup key. */
  lemma StrayIsLanding(get: TableGet, f: File, k: UserKey, s: nat)
    requires Stray(get, f, k, s)
    ensures
      var i := SeekIn(f.entries, LookupKey(k, s));
      i < |f.entries| && !Parses(f.entries[i].ik) && f.entries[i].ik.user > k && f.entries[i] in Elements(f.entries)
  {
    assert Delivers(f.entries, LookupKey(k, s), get(f, LookupKey(k, s)));
  }

  ghost predicate NewestIsCorrupt(S: set<Entry>, k: UserKey, s: nat) {
    exists e :: IsNewest(S, k, s, e) && !Parses(e.ik)
  }

  /** The entry a lookup lands on is the newest visible version, or there is none. */
  lemma LandingIsNewest(entries: seq<Entry>, k: UserKey, s: nat)
    requires Sorted(entries) && Seekable(Elements(entries), k, s)
    ensures
      var i := SeekIn(entries, LookupKey(k, s));
      if i < |entries| && entries[i].ik.user == k then IsNewest(Elements(entries), k, s, entries[i])
      else forall e :: e in entries ==> !Visible(e, k, s)
  {
    var i := SeekIn(entries, LookupKey(k, s));
    assert forall j :: 0 <= j < i ==> entries[j] in Elements(entries);
    assert forall j :: i < j < |entries| ==> Less(entries[i].ik, entries[j].ik);
  }

  lemma CorruptIsLanded(entries: seq<Entry>, k: UserKey, s: nat)
    requires Sorted(entries) && Seekable(Elements(entries), k, s)
    ensures
      var i := SeekIn(entries, LookupKey(k, s));
      NewestIsCorrupt(Elements(entries), k, s) <==>
      i < |entries| && entries[i].ik.user == k && !Parses(entries[i].ik)
  {
    LandingIsNewest(entries, k, s);
    var i := SeekIn(entries, LookupKey(k, s));
    if e :| IsNewest(Elements(entries), k, s, e) && !Parses(e.ik) {
      var j :| 0 <= j < |entries| && entries[j] == e;
      assert i < |entries| && entries[i].ik.user == k && entries[i] in Elements(entries);
      assert i < j ==> Less(entries[i].ik, entries[j].ik);
    }
  }

  /**
   One file's contribution to a lookup: SaveValue looks at the entry the table
   hands over, and finds it corrupt before it looks at whose it is.
   */
  method GetFromFile(get: TableGet, f: File, k: UserKey, s: nat) returns (r: SaverState)
    requires FileOk(f) && Seekable(Elements(f.entries), k, s) && f.smallest.user <= k
    ensures r.Saved? ==> IsNewest(Elements(f.entries), k, s, r.entry) && Parses(r.entry.ik)
    ensures r.NotFoundYet? ==> Misses(f, k, s)
    ensures r.SawCorrupt? <==> Stray(get, f, k, s) || NewestIsCorrupt(Elements(f.entries), k, s)
  {
    hide Sorted, Seekable, IsNewest, NewestIsCorrupt;
    LandingIsNewest(f.entries, k, s);
    CorruptIsLanded(f.entries, k, s);
    var delivered := get(f, LookupKey(k, s));
    assert Delivers(f.entries, LookupKey(k, s), delivered);
    if delivered.Some? {
      var entry := delivered.value;
      if !Parses(entry.ik) {
        return SawCorrupt;
      } else if entry.ik.user == k {
        return Saved(entry);
      }
    }
    return NotFoundYet;
  }

  /** The files of level 0 that may hold the key, newest first. */
  function NewestFirst(files: seq<File>): (sorted: seq<File>)
    ensures multiset(sorted) == multiset(files)
    ensures forall f :: f in sorted <==> f in files
    ensures forall i, j :: 0 <= i < j < |sorted| ==> sorted[i].number >= sorted[j].number
  {
    if files == [] then []
    else
      assert files == [files[0]] + files[1..];
      assert forall g :: g in files <==> g == files[0] || g in files[1..];
      InsertKeepsAll(files[0], NewestFirst(files[1..]));
      InsertByNumber(files[0], NewestFirst(files[1..]))
  }

  function InsertByNumber(f: File, sorted: seq<File>): (r: seq<File>)
    requires forall i, j :: 0 <= i < j < |sorted| ==> sorted[i].number >= sorted[j].number
    ensures forall g :: g in r <==> g == f || g in sorted
    ensures forall i, j :: 0 <= i < j < |r| ==> r[i].number >= r[j].number
  {
    if sorted == [] then [f]
    else if f.number >= sorted[0].number then [f] + sorted
    else
      var rest := InsertByNumber(f, sorted[1..]);
      assert forall g :: g in sorted <==> g == sorted[0] || g in sorted[1..];
      assert forall g :: g in sorted[1..] ==> g.number <= sorted[0].number;
      [sorted[0]] + rest
  }

  lemma {:induction false} InsertKeepsAll(f: File, sorted: seq<File>)
    requires forall i, j :: 0 <= i < j < |sorted| ==> sorted[i].number >= sorted[j].number
    ensures multiset(InsertByNumber(f, sorted)) == multiset(sorted) + multiset{f}
  {
    if sorted != [] && f.number < sorted[0].number {
      InsertKeepsAll(f, sorted[1..]);
      assert sorted == [sorted[0]] + sorted[1..];
    }
  }

  /** The file holds no version of `k` that snapshot `s` can see. */
  ghost predicate Misses(f: File, k: UserKey, s: nat) {
    forall e :: e in f.entries ==> !Visible(e, k, s)
  }

  lemma OutOfRangeMisses(f: File, k: UserKey, s: nat)
    requires FileOk(f) && (k < f.smallest.user || k > f.largest.user)
    ensures Misses(f, k, s)
  {
    forall e | e in f.entries ensures !Visible(e, k, s) {
      EntryWithinFile(f, e);
    }
  }

  lemma MissInEvery(files: seq<File>, k: UserKey, s: nat)
    requires forall f :: f in files ==> Misses(f, k, s)
    ensures forall e :: e in FileEntries(files) ==> !Visible(e, k, s)
  {
  }

  /** A level-0 hit after every newer level-0 file missed is the newest version anywhere. */
  lemma Level0HitIsNewest(v: Version, k: UserKey, s: nat, f: File, e: Entry)
    requires VersionOk(v) && f in v[0] && IsNewest(Elements(f.entries), k, s, e)
    requires forall g :: g in v[0] && g.number > f.number ==> Misses(g, k, s)
    ensures IsNewest(VersionEntries(v), k, s, e)
  {
    assert e in FileEntries(v[0]);
    forall g | g in VersionEntries(v) && Visible(g, k, s) ensures g.ik.seqno <= e.ik.seqno {
      var level :| 0 <= level < NUM_LEVELS && g in FileEntries(v[level]);
      if level > 0 {
        assert NewerThan(FileEntries(v[0]), FileEntries(v[level]));
      } else {
        var h :| h in v[0] && g in h.entries;
        assert g in Elements(h.entries) && !Misses(h, k, s);
        assert h.number < f.number ==> NewerThan(Elements(f.entries), Elements(h.entries));
      }
    }
  }

  /** A hit at a deeper level after every shallower level missed is the newest version anywhere. */
  lemma DeeperHitIsNewest(v: Version, k: UserKey, s: nat, level: nat, e: Entry)
    requires VersionOk(v) && 0 < level < NUM_LEVELS && IsNewest(FileEntries(v[level]), k, s, e)
    requires forall i :: 0 <= i < level ==> forall g :: g in FileEntries(v[i]) ==> !Visible(g, k, s)
    ensures IsNewest(VersionEntries(v), k, s, e)
  {
    forall g | g in VersionEntries(v) && Visible(g, k, s) ensures g.ik.seqno <= e.ik.seqno {
      var i :| 0 <= i < NUM_LEVELS && g in FileEntries(v[i]);
      assert i > level ==> NewerThan(FileEntries(v[level]), FileEntries(v[i]));
    }
  }

  /** A stray entry that the search reaches: nothing searched before the file shows a version of the key. */
  ghost predicate DivertedBy(get: TableGet, v: Version, level: nat, f: File, k: UserKey, s: nat) {
    && level < NUM_LEVELS && f in v[level] && Stray(get, f, k, s)
    && (forall i, e | 0 <= i < level && e in FileEntries(v[i]) :: !Visible(e, k, s))
    && (level == 0 ==> forall g :: g in v[0] && g.number > f.number ==> Misses(g, k, s))
  }

  ghost predicate Diverted(get: TableGet, v: Version, k: UserKey, s: nat) {
    exists level: nat, f :: DivertedBy(get, v, level, f, k, s)
  }

  lemma CorruptNewest(v: Version, k: UserKey, s: nat)
    requires Unique(VersionEntries(v)) && NewestIsCorrupt(VersionEntries(v), k, s)
    ensures Read(VersionEntries(v), k, s) == Corrupt
  {
    var e :| IsNewest(VersionEntries(v), k, s, e) && !Parses(e.ik);
    ReadIsNewest(VersionEntries(v), k, s, e);
  }

  /** Nothing visible in the levels before `level`, and no stray entry either. */
  ghost predicate SearchedTo(get: TableGet, v: Version, k: UserKey, s: nat, level: nat)
    requires level <= NUM_LEVELS
  {
    && (forall i, e | 0 <= i < level && e in FileEntries(v[i]) :: !Visible(e, k, s))
    && (forall i, f | 0 <= i < level && f in v[i] :: !Stray(get, f, k, s))
  }

  lemma AnsweredAt(get: TableGet, v: Version, k: UserKey, s: nat, level: nat, e: Entry)
    requires VersionOk(v) && 0 < level < NUM_LEVELS && SearchedTo(get, v, k, s, level)
    requires IsNewest(FileEntries(v[level]), k, s, e)
    ensures IsNewest(VersionEntries(v), k, s, e)
    ensures (forall f :: f in v[level] ==> !Stray(get, f, k, s)) ==> !Diverted(get, v, k, s)
  {
    DeeperHitIsNewest(v, k, s, level, e);
    hide VersionOk, IsNewest, Stray;
    if forall f :: f in v[level] ==> !Stray(get, f, k, s) {
      forall i: nat, f ensures !DivertedBy(get, v, i, f, k, s) {
        assert i > level ==>
          e in FileEntries(v[level]) && Visible(e, k, s) by { assert IsNewest(FileEntries(v[level]), k, s, e); }
      }
    }
  }

  /**
   Version::Get: level by level, stopping at the first file that answers.  The
   answer is the newest version, unless the search meets a stray entry first;
   then, and only then, a read that is not corrupt comes out corrupt.
   */
  method Get(get: TableGet, v: Version, k: UserKey, s: nat) returns (r: ReadResult)
    requires VersionOk(v) && Seekable(VersionEntries(v), k, s)
    ensures r == if Diverted(get, v, k, s) then Corrupt else Read(VersionEntries(v), k, s)
  {
    hide VersionOk, Seekable, SearchedTo, Diverted, Visible, IsNewest, NewestIsCorrupt, Stray, Unique, Disjoint, FileOk;
    LevelsSearchable(v, k, s);
    var saver := GetLevel0(get, v, k, s);
    if saver.Saved? {
      ReadIsNewest(VersionEntries(v), k, s, saver.entry);
      return Outcome(saver.entry);
    } else if saver.SawCorrupt? {
      return Corrupt;
    }
    for level := 1 to NUM_LEVELS
      invariant SearchedTo(get, v, k, s, level)
    {
      saver := GetDisjointLevel(get, v[level], k, s);
      if saver.Saved? {
        AnsweredAt(get, v, k, s, level, saver.entry);
        ReadIsNewest(VersionEntries(v), k, s, saver.entry);
        return Outcome(saver.entry);
      } else if saver.SawCorrupt? {
        CorruptAt(get, v, k, s, level);
        return Corrupt;
      }
      SearchedOneMore(get, v, k, s, level);
    }
    NothingFound(get, v, k, s);
    return Absent;
  }

  lemma LevelsSearchable(v: Version, k: UserKey, s: nat)
    requires VersionOk(v) && Seekable(VersionEntries(v), k, s)
    ensures Unique(VersionEntries(v))
    ensures forall i | 1 <= i < NUM_LEVELS ::
      Disjoint(v[i]) && (forall f :: f in v[i] ==> FileOk(f)) && Seekable(FileEntries(v[i]), k, s)
  {
    forall i | 1 <= i < NUM_LEVELS ensures Seekable(FileEntries(v[i]), k, s) {
      assert FileEntries(v[i]) <= VersionEntries(v);
    }
  }

  lemma SearchedOneMore(get: TableGet, v: Version, k: UserKey, s: nat, level: nat)
    requires level < NUM_LEVELS && SearchedTo(get, v, k, s, level)
    requires forall e :: e in FileEntries(v[level]) ==> !Visible(e, k, s)
    requires forall f :: f in v[level] ==> !Stray(get, f, k, s)
    ensures SearchedTo(get, v, k, s, level + 1)
  {
  }

  lemma NothingFound(get: TableGet, v: Version, k: UserKey, s: nat)
    requires SearchedTo(get, v, k, s, NUM_LEVELS)
    ensures !Diverted(get, v, k, s) && Read(VersionEntries(v), k, s) == Absent
  {
    hide Stray, Visible;
    ReadNothing(VersionEntries(v), k, s);
  }

  lemma CorruptAt(get: TableGet, v: Version, k: UserKey, s: nat, level: nat)
    requires VersionOk(v) && 0 < level < NUM_LEVELS && SearchedTo(get, v, k, s, level)
    requires (exists f :: f in v[level] && Stray(get, f, k, s)) || NewestIsCorrupt(FileEntries(v[level]), k, s)
    ensures Diverted(get, v, k, s) || Read(VersionEntries(v), k, s) == Corrupt
  {
    if f :| f in v[level] && Stray(get, f, k, s) {
      assert DivertedBy(get, v, level, f, k, s);
    } else {
      var e :| IsNewest(FileEntries(v[level]), k, s, e) && !Parses(e.ik);
      DeeperHitIsNewest(v, k, s, level, e);
      CorruptNewest(v, k, s);
    }
  }

  /** The level-0 files whose range covers the key. */
  method CoveringFiles(files: seq<File>, k: UserKey) returns (tmp: seq<File>)
    requires forall f :: f in files ==> FileOk(f)
    ensures forall f :: f in tmp <==> f in files && f.smallest.user <= k <= f.largest.user
  {
    tmp := [];
    for i := 0 to |files|
      invariant forall f :: f in tmp <==> f in files[..i] && f.smallest.user <= k <= f.largest.user
    {
      if k >= files[i].smallest.user && k <= files[i].largest.user {
        tmp := tmp + [files[i]];
      }
    }
    assert files[..|files|] == files;
  }

  lemma FileWithinVersion(v: Version, i: nat, f: File)
    requires i < NUM_LEVELS && f in v[i]
    ensures Elements(f.entries) <= VersionEntries(v)
  {
    assert Elements(f.entries) <= FileEntries(v[i]);
  }

  /** A file outside the key's range cannot divert the search. */
  lemma NewerFilesDoNotDivert(get: TableGet, files: seq<File>, tmp: seq<File>, i: nat, k: UserKey, s: nat)
    requires forall f :: f in files ==> FileOk(f)
    requires forall f :: f in tmp <==> f in files && f.smallest.user <= k <= f.largest.user
    requires forall j, l :: 0 <= j < l < |tmp| ==> tmp[j].number >= tmp[l].number
    requires i <= |tmp| && forall j :: 0 <= j < i ==> !Stray(get, tmp[j], k, s)
    ensures forall f :: f in files && (i < |tmp| ==> f.number > tmp[i].number) ==> !Stray(get, f, k, s)
  {
    forall f | f in files && (i < |tmp| ==> f.number > tmp[i].number) ensures !Stray(get, f, k, s) {
      if f in tmp {
        var j :| 0 <= j < |tmp| && tmp[j] == f;
      } else if Stray(get, f, k, s) {
        StrayIsLanding(get, f, k, s);
        EntryWithinFile(f, f.entries[SeekIn(f.entries, LookupKey(k, s))]);
      }
    }
  }

  /** Files at least as new as `tmp[i]` either fail to cover the key or come before it. */
  lemma NewerFilesMiss(files: seq<File>, tmp: seq<File>, i: nat, k: UserKey, s: nat)
    requires forall f :: f in files ==> FileOk(f)
    requires forall f :: f in tmp <==> f in files && f.smallest.user <= k <= f.largest.user
    requires forall j, l :: 0 <= j < l < |tmp| ==> tmp[j].number >= tmp[l].number
    requires i <= |tmp| && forall j :: 0 <= j < i ==> Misses(tmp[j], k, s)
    ensures forall f :: f in files && (i < |tmp| ==> f.number > tmp[i].number) ==> Misses(f, k, s)
  {
    forall f | f in files && (i < |tmp| ==> f.number > tmp[i].number) ensures Misses(f, k, s) {
      if f in tmp {
        var j :| 0 <= j < |tmp| && tmp[j] == f;
      } else {
        OutOfRangeMisses(f, k, s);
      }
    }
  }

  /** Asks the files in order until one answers. */
  method GetFromFiles(get: TableGet, files: seq<File>, k: UserKey, s: nat) returns (r: SaverState, ghost at: nat)
    requires forall f :: f in files ==> FileOk(f) && Seekable(Elements(f.entries), k, s) && f.smallest.user <= k
    ensures at <= |files| && forall j :: 0 <= j < at ==> Misses(files[j], k, s) && !Stray(get, files[j], k, s)
    ensures r.NotFoundYet? <==> at == |files|
    ensures r.Saved? ==> IsNewest(Elements(files[at].entries), k, s, r.entry) && !Stray(get, files[at], k, s)
    ensures r.SawCorrupt? ==> Stray(get, files[at], k, s) || NewestIsCorrupt(Elements(files[at].entries), k, s)
  {
    hide Stray, NewestIsCorrupt, Misses;
    for i := 0 to |files|
      invariant forall j :: 0 <= j < i ==> Misses(files[j], k, s) && !Stray(get, files[j], k, s)
    {
      r := GetFromFile(get, files[i], k, s);
      if !r.NotFoundYet? {
        return r, i;
      }
    }
    return NotFoundYet, |files|;
  }

  method GetLevel0(get: TableGet, v: Version, k: UserKey, s: nat) returns (r: SaverState)
    requires VersionOk(v) && Seekable(VersionEntries(v), k, s)
    ensures r.Saved? ==> IsNewest(VersionEntries(v), k, s, r.entry) && !Diverted(get, v, k, s)
    ensures r.SawCorrupt? ==> Diverted(get, v, k, s) || Read(VersionEntries(v), k, s) == Corrupt
    ensures r.NotFoundYet? ==> SearchedTo(get, v, k, s, 1)
  {
    hide Stray, Misses, FileOk, VersionOk, Seekable, IsNewest, Diverted, NewestIsCorrupt, NumberedByAge, SearchedTo;
    StartOfSearch(get, v, k, s);
    Level0Searchable(v, k, s);
    var tmp := CoveringFiles(v[0], k);
    tmp := NewestFirst(tmp);
    ghost var at;
    r, at := GetFromFiles(get, tmp, k, s);
    NewerFilesMiss(v[0], tmp, at, k, s);
    NewerFilesDoNotDivert(get, v[0], tmp, at, k, s);
    if r.Saved? {
      Level0HitIsNewest(v, k, s, tmp[at], r.entry);
      NotDivertedFrom0(get, v, k, s, tmp[at], r.entry);
    } else if r.SawCorrupt? {
      CorruptAt0(get, v, k, s, tmp[at]);
    } else {
      MissInEvery(v[0], k, s);
      SearchedOneMore(get, v, k, s, 0);
    }
  }

  lemma StartOfSearch(get: TableGet, v: Version, k: UserKey, s: nat)
    ensures SearchedTo(get, v, k, s, 0)
  {
  }

  lemma Level0Searchable(v: Version, k: UserKey, s: nat)
    requires VersionOk(v) && Seekable(VersionEntries(v), k, s)
    ensures NumberedByAge(v[0]) && forall f :: f in v[0] ==> FileOk(f) && Seekable(Elements(f.entries), k, s)
  {
    forall f | f in v[0] ensures FileOk(f) && Seekable(Elements(f.entries), k, s) {
      FileWithinVersion(v, 0, f);
    }
  }

  lemma NotDivertedFrom0(get: TableGet, v: Version, k: UserKey, s: nat, f: File, e: Entry)
    requires NumberedByAge(v[0]) && f in v[0] && IsNewest(Elements(f.entries), k, s, e) && !Stray(get, f, k, s)
    requires forall g :: g in v[0] && g.number > f.number ==> !Stray(get, g, k, s)
    ensures !Diverted(get, v, k, s)
  {
    assert e in FileEntries(v[0]) && !Misses(f, k, s);
    forall i: nat, g ensures !DivertedBy(get, v, i, g, k, s) {
    }
  }

  lemma CorruptAt0(get: TableGet, v: Version, k: UserKey, s: nat, f: File)
    requires VersionOk(v) && f in v[0] && forall g :: g in v[0] && g.number > f.number ==> Misses(g, k, s)
    requires Stray(get, f, k, s) || NewestIsCorrupt(Elements(f.entries), k, s)
    ensures Diverted(get, v, k, s) || Read(VersionEntries(v), k, s) == Corrupt
  {
    if Stray(get, f, k, s) {
      assert DivertedBy(get, v, 0, f, k, s);
    } else {
      var e :| IsNewest(Elements(f.entries), k, s, e) && !Parses(e.ik);
      Level0HitIsNewest(v, k, s, f, e);
      CorruptNewest(v, k, s);
    }
  }

  /** In a disjoint level a stray entry is in the one file that the search opens. */
  lemma StrayIsOpened(get: TableGet, files: seq<File>, index: nat, k: UserKey, s: nat, f: File)
    requires Disjoint(files) && (forall f :: f in files ==> FileOk(f)) && index <= |files|
    requires forall i :: 0 <= i < index ==> Less(files[i].largest, LookupKey(k, s))
    requires forall i :: index <= i < |files| ==> LessEq(LookupKey(k, s), files[i].largest)
    requires f in files && Stray(get, f, k, s)
    ensures index < |files| && f == files[index]
  {
    var i :| 0 <= i < |files| && files[i] == f;
    StrayIsLanding(get, f, k, s);
    var j := SeekIn(f.entries, LookupKey(k, s));
    EntryWithinFile(f, f.entries[j]);
    assert f.entries[0].ik == f.smallest && (0 < j ==> Less(f.smallest, LookupKey(k, s)));
    assert index < i ==> Less(files[index].largest, f.smallest);
  }

  method GetDisjointLevel(get: TableGet, files: seq<File>, k: UserKey, s: nat) returns (r: SaverState)
    requires Disjoint(files) && (forall f :: f in files ==> FileOk(f)) && Seekable(FileEntries(files), k, s)
    ensures r.Saved? ==> IsNewest(FileEntries(files), k, s, r.entry)
    ensures r.SawCorrupt? ==>
      (exists f :: f in files && Stray(get, f, k, s)) || NewestIsCorrupt(FileEntries(files), k, s)
    ensures !r.SawCorrupt? ==> forall f :: f in files ==> !Stray(get, f, k, s)
    ensures r.NotFoundYet? ==> forall e :: e in FileEntries(files) ==> !Visible(e, k, s)
  {
    var index := FindFile(files, LookupKey(k, s));
    EarlierFilesMiss(files, index, k, s);
    forall f | f in files && Stray(get, f, k, s) ensures index < |files| && f == files[index] {
      StrayIsOpened(get, files, index, k, s, f);
    }
    if index == |files| {
      MissInEvery(files, k, s);
      return NotFoundYet;
    }
    var f := files[index];
    if k < f.smallest.user {
      LaterFilesStartAfter(files, index, k, s);
      MissInEvery(files, k, s);
      return NotFoundYet;
    }
    assert Elements(f.entries) <= FileEntries(files);
    r := GetFromFile(get, f, k, s);
    if r.NotFoundYet? {
      LaterFilesMiss(files, index, k, s);
      MissInEvery(files, k, s);
    } else if r.Saved? {
      EarlierFileIsNewer(files, index, k, s, r.entry);
    } else if !Stray(get, f, k, s) {
      ghost var e :| IsNewest(Elements(f.entries), k, s, e) && !Parses(e.ik);
      EarlierFileIsNewer(files, index, k, s, e);
    }
  }

  lemma EarlierFilesMiss(files: seq<File>, index: nat, k: UserKey, s: nat)
    requires index <= |files| && forall f :: f in files ==> FileOk(f)
    requires Seekable(FileEntries(files), k, s)
    requires forall i :: 0 <= i < index ==> Less(files[i].largest, LookupKey(k, s))
    ensures forall i :: 0 <= i < index ==> Misses(files[i], k, s)
  {
    forall i, e | 0 <= i < index && e in files[i].entries ensures !Visible(e, k, s) {
      EntryWithinFile(files[i], e);
      assert e in FileEntries(files);
    }
  }

  lemma LaterFilesStartAfter(files: seq<File>, index: nat, k: UserKey, s: nat)
    requires index < |files| && Disjoint(files) && forall f :: f in files ==> FileOk(f)
    requires k < files[index].smallest.user
    ensures forall i :: index <= i < |files| ==> Misses(files[i], k, s)
  {
    assert FileOk(files[index]);
    EntryWithinFile(files[index], files[index].entries[0]);
    forall i | index <= i < |files| ensures Misses(files[i], k, s) {
      assert i > index ==> Less(files[index].largest, files[i].smallest);
      OutOfRangeMisses(files[i], k, s);
    }
  }

  /** Past a file that ends at or after the lookup key without a match, nothing matches. */
  lemma LaterFilesMiss(files: seq<File>, index: nat, k: UserKey, s: nat)
    requires index < |files| && Disjoint(files) && forall f :: f in files ==> FileOk(f)
    requires LessEq(LookupKey(k, s), files[index].largest) && Misses(files[index], k, s)
    ensures forall i :: index <= i < |files| ==> Misses(files[i], k, s)
  {
    assert FileOk(files[index]);
    var last := files[index].entries[|files[index].entries| - 1];
    assert last in files[index].entries && !Visible(last, k, s);
    forall i | index < i < |files| ensures Misses(files[i], k, s) {
      assert Less(files[index].largest, files[i].smallest);
      OutOfRangeMisses(files[i], k, s);
    }
  }

  /** Versions of one key that span several files of a level get older from file to file. */
  lemma EarlierFileIsNewer(files: seq<File>, index: nat, k: UserKey, s: nat, e: Entry)
    requires index < |files| && Disjoint(files) && forall f :: f in files ==> FileOk(f)
    requires forall i :: 0 <= i < index ==> Misses(files[i], k, s)
    requires IsNewest(Elements(files[index].entries), k, s, e)
    ensures IsNewest(FileEntries(files), k, s, e)
  {
    assert e in files[index].entries;
    EntryWithinFile(files[index], e);
    forall g | g in FileEntries(files) && Visible(g, k, s) ensures g.ik.seqno <= e.ik.seqno {
      var f :| f in files && g in f.entries;
      var i :| 0 <= i < |files| && files[i] == f;
      EntryWithinFile(f, g);
      assert i == index ==> g in Elements(files[index].entries);
      assert i > index ==> Less(files[index].largest, files[i].smallest);
    }
  }

  /**
   A lookup goes astray: key 0 has no version at or below sequence 3, and the
   next entry of its file is one of key 1 that does not parse.  If the table
   hands that entry over, the lookup is corrupt; otherwise it is absent.
   */
  lemma LookupGoesAstray(get: TableGet)
    ensures
      var a, b := Entry(InternalKey(0.0, 5, TYPE_VALUE), [1]), Entry(InternalKey(1.0, 7, 2), []);
      var f := File(1, 1, a.ik, b.ik, [a, b]);
      var v: Version := [[], [f], [], [], [], [], []];
      && VersionOk(v) && Read(VersionEntries(v), 0.0, 3) == Absent
      && (Diverted(get, v, 0.0, 3) <==> get(f, LookupKey(0.0, 3)).Some?)
  {
    hide VersionOk, Diverted, Read;
    var a, b := Entry(InternalKey(0.0, 5, TYPE_VALUE), [1]), Entry(InternalKey(1.0, 7, 2), []);
    var f := File(1, 1, a.ik, b.ik, [a, b]);
    var v: Version := [[], [f], [], [], [], [], []];
    TwoEntryVersion(a, b, f, v);
    assert SeekIn(f.entries, LookupKey(0.0, 3)) == 1 by {
      assert [a, b][1..] == [b];
    }
    assert Delivers(f.entries, LookupKey(0.0, 3), get(f, LookupKey(0.0, 3)));
    OneFileDiverts(get, v, f, 0.0, 3);
    ReadNothing(VersionEntries(v), 0.0, 3);
  }

  lemma TwoEntryVersion(a: Entry, b: Entry, f: File, v: Version)
    requires Less(a.ik, b.ik) && a.ik.user < b.ik.user && a.ik.seqno < MAX_SEQUENCE && b.ik.seqno < MAX_SEQUENCE
    requires f == File(1, 1, a.ik, b.ik, [a, b]) && v == [[], [f], [], [], [], [], []]
    ensures VersionOk(v) && VersionEntries(v) == {a, b}
  {
    hide VersionOk;
    OneFileVersion(v, f);
    assert Elements(f.entries) == {a, b};
  }

  /** With a single file, at level 1, only its own stray entry can divert the search. */
  lemma OneFileDiverts(get: TableGet, v: Version, f: File, k: UserKey, s: nat)
    requires v == [[], [f], [], [], [], [], []]
    ensures Diverted(get, v, k, s) <==> Stray(get, f, k, s)
  {
    hide Stray;
    assert forall i | 0 <= i < NUM_LEVELS && i != 1 :: v[i] == [];
    assert forall e :: e !in FileEntries(v[0]);
    assert Stray(get, f, k, s) ==> DivertedBy(get, v, 1, f, k, s);
    forall level: nat, g | DivertedBy(get, v, level, g, k, s) ensures g == f {
      assert level == 1;
    }
  }

  lemma OneFileVersion(v: Version, f: File)
    requires v == [[], [f], [], [], [], [], []]
    ensures VersionEntries(v) == Elements(f.entries) &&
      forall i | 0 <= i < NUM_LEVELS && i != 1 :: FileEntries(v[i]) == {}
    ensures FileOk(f) && Unique(Elements(f.entries)) ==> VersionOk(v)
  {
    assert forall i | 0 <= i < NUM_LEVELS && i != 1 :: v[i] == [];
    assert FileEntries([f]) == Elements(f.entries) by {
      assert f in [f];
    }
    assert VersionEntries(v) == FileEntries(v[1]);
  }
}
