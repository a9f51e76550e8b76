/**
 Choosing the files of a compaction (db/version_set.cc): overlap closure,
 boundary files, and what the choice guarantees about the files left behind.
 */
module InputSelection {
  import opened Keys
  import opened Levels

  /** The files that meet a range, in order. */
  function OverlappingFiles(files: seq<File>, begin: Option<UserKey>, end: Option<UserKey>): (r: seq<File>)
    ensures forall f :: f in r <==> f in files && Overlaps(f, begin, end)
  {
    if files == [] then []
    else
      var last := files[|files| - 1];
      assert forall f :: f in files <==> f == last || f in files[..|files| - 1];
      OverlappingFiles(files[..|files| - 1], begin, end) + (if Overlaps(last, begin, end) then [last] else [])
  }

  ghost predicate WithinRange(f: File, begin: Option<UserKey>, end: Option<UserKey>) {
    (begin.Some? ==> begin.value <= f.smallest.user) && (end.Some? ==> f.largest.user <= end.value)
  }

  /** `C` holds every file that meets the range or meets a file of `C`. */
  ghost predicate OverlapClosed(C: set<File>, files: seq<File>, begin: Option<UserKey>, end: Option<UserKey>) {
    && (forall f | f in files && Overlaps(f, begin, end) :: f in C)
    && (forall f, g | f in files && g in files && f in C && Overlaps(g, Some(f.smallest.user), Some(f.largest.user)) ::
          g in C)
  }

  /** The range reached so far lies inside every overlap-closed set. */
  ghost predicate Forced(files: seq<File>, begin: Option<UserKey>, end: Option<UserKey>,
                         lo: Option<UserKey>, hi: Option<UserKey>) {
    forall C | OverlapClosed(C, files, begin, end) :: forall f | f in files && Overlaps(f, lo, hi) :: f in C
  }

  /** Stretching the range over a file that meets it stays inside every overlap-closed set. */
  lemma StretchStaysForced(files: seq<File>, begin: Option<UserKey>, end: Option<UserKey>,
                           lo: Option<UserKey>, hi: Option<UserKey>, f: File,
                           lo': Option<UserKey>, hi': Option<UserKey>)
    requires Forced(files, begin, end, lo, hi) && f in files && Overlaps(f, lo, hi)
    requires f.smallest.user <= f.largest.user && forall g :: g in files ==> g.smallest.user <= g.largest.user
    requires (lo' == lo && hi' == Some(f.largest.user)) || (hi' == hi && lo' == Some(f.smallest.user))
    ensures Forced(files, begin, end, lo', hi')
  {
    forall C, g | OverlapClosed(C, files, begin, end) && g in files && Overlaps(g, lo', hi')
      ensures g in C
    {
      assert f in C;
      assert Overlaps(g, lo, hi) || Overlaps(g, Some(f.smallest.user), Some(f.largest.user));
    }
  }

  lemma StartsForced(files: seq<File>, begin: Option<UserKey>, end: Option<UserKey>)
    ensures Forced(files, begin, end, begin, end)
  {
  }

  ghost function BelowRange(files: seq<File>, lo: Option<UserKey>): set<File> {
    set f | f in files && lo.Some? && f.smallest.user < lo.value
  }

  ghost function AboveRange(files: seq<File>, hi: Option<UserKey>): set<File> {
    set f | f in files && hi.Some? && f.largest.user > hi.value
  }

  lemma BelowShrinks(files: seq<File>, f: File, lo: Option<UserKey>)
    requires f in files && lo.Some? && f.smallest.user < lo.value
    ensures BelowRange(files, Some(f.smallest.user)) < BelowRange(files, lo)
  {
    assert f in BelowRange(files, lo) && f !in BelowRange(files, Some(f.smallest.user));
  }

  lemma AboveShrinks(files: seq<File>, f: File, hi: Option<UserKey>)
    requires f in files && hi.Some? && f.largest.user > hi.value
    ensures AboveRange(files, Some(f.largest.user)) < AboveRange(files, hi)
  {
    assert f in AboveRange(files, hi) && f !in AboveRange(files, Some(f.largest.user));
  }

  lemma NoFilesOverlap()
    ensures forall begin, end :: OverlappingFiles([], begin, end) == []
  {
  }

  lemma OverlappingFilesSnoc(files: seq<File>, i: nat, begin: Option<UserKey>, end: Option<UserKey>)
    requires i < |files|
    ensures OverlappingFiles(files[..i + 1], begin, end)
      == OverlappingFiles(files[..i], begin, end) + (if Overlaps(files[i], begin, end) then [files[i]] else [])
  {
    assert files[..i + 1][..i] == files[..i];
  }

  /**
   Above level 0 the inputs are the overlapping files.  At level 0 the range
   grows until no chosen file sticks out of it; the result is the least
   overlap-closed choice.
   */
  method GetOverlappingInputs(level: nat, files: seq<File>, begin: Option<UserKey>, end: Option<UserKey>)
    returns (inputs: seq<File>, ghost lo: Option<UserKey>, ghost hi: Option<UserKey>)
    requires forall f :: f in files ==> f.smallest.user <= f.largest.user
    ensures inputs == OverlappingFiles(files, lo, hi)
    ensures level > 0 ==> lo == begin && hi == end
    ensures level == 0 ==> forall f :: f in inputs ==> WithinRange(f, lo, hi)
    ensures (lo.Some? <==> begin.Some?) && (hi.Some? <==> end.Some?)
    ensures (begin.Some? ==> lo.value <= begin.value) && (end.Some? ==> hi.value >= end.value)
    ensures Forced(files, begin, end, lo, hi)
  {
    hide Forced, BelowRange, AboveRange, OverlappingFiles;
    StartsForced(files, begin, end);
    NoFilesOverlap();
    inputs := [];
    var userBegin, userEnd := begin, end;
    var i := 0;
    while i < |files|
      invariant 0 <= i <= |files|
      invariant inputs == OverlappingFiles(files[..i], userBegin, userEnd)
      invariant level > 0 ==> userBegin == begin && userEnd == end
      invariant level == 0 ==> forall f :: f in inputs ==> WithinRange(f, userBegin, userEnd)
      invariant (userBegin.Some? <==> begin.Some?) && (userEnd.Some? <==> end.Some?)
      invariant begin.Some? ==> userBegin.value <= begin.value
      invariant end.Some? ==> userEnd.value >= end.value
      invariant Forced(files, begin, end, userBegin, userEnd)
      decreases BelowRange(files, userBegin), AboveRange(files, userEnd), |files| - i
    {
      var f := files[i];
      OverlappingFilesSnoc(files, i, userBegin, userEnd);
      i := i + 1;
      if begin.Some? && f.largest.user < userBegin.value {
      } else if end.Some? && f.smallest.user > userEnd.value {
      } else {
        inputs := inputs + [f];
        if level == 0 {
          if begin.Some? && f.smallest.user < userBegin.value {
            StretchStaysForced(files, begin, end, userBegin, userEnd, f, Some(f.smallest.user), userEnd);
            BelowShrinks(files, f, userBegin);
            userBegin := Some(f.smallest.user);
            inputs := [];
            i := 0;
          } else if end.Some? && f.largest.user > userEnd.value {
            StretchStaysForced(files, begin, end, userBegin, userEnd, f, userBegin, Some(f.largest.user));
            AboveShrinks(files, f, userEnd);
            userEnd := Some(f.largest.user);
            inputs := [];
            i := 0;
          }
        }
      }
    }
    assert files[..|files|] == files;
    lo, hi := userBegin, userEnd;
  }

  // ----- boundary files -----

  method FindLargestKey(files: seq<File>) returns (largest: Option<InternalKey>)
    ensures largest.None? <==> files == []
    ensures largest.Some? ==> exists f :: f in files && f.largest == largest.value
    ensures largest.Some? ==> forall f :: f in files ==> LessEq(f.largest, largest.value)
  {
    if files == [] {
      return None;
    }
    var key := files[0].largest;
    for i := 1 to |files|
      invariant exists f :: f in files && f.largest == key
      invariant forall f :: f in files[..i] ==> LessEq(f.largest, key)
    {
      if Less(key, files[i].largest) {
        key := files[i].largest;
        assert files[i] in files;
      }
    }
    assert files[..|files|] == files;
    return Some(key);
  }

  /** The file starts past `key` under the same user key. */
  predicate StartsAtBoundary(f: File, key: InternalKey) {
    Less(key, f.smallest) && f.smallest.user == key.user
  }

  method FindSmallestBoundaryFile(levelFiles: seq<File>, largest: InternalKey) returns (r: Option<File>)
    ensures r.None? <==> forall f :: f in levelFiles ==> !StartsAtBoundary(f, largest)
    ensures r.Some? ==> r.value in levelFiles && StartsAtBoundary(r.value, largest)
    ensures r.Some? ==>
      forall f | f in levelFiles && StartsAtBoundary(f, largest) :: LessEq(r.value.smallest, f.smallest)
  {
    r := None;
    for i := 0 to |levelFiles|
      invariant r.None? <==> forall f :: f in levelFiles[..i] ==> !StartsAtBoundary(f, largest)
      invariant r.Some? ==> r.value in levelFiles && StartsAtBoundary(r.value, largest)
      invariant r.Some? ==>
        forall f | f in levelFiles[..i] && StartsAtBoundary(f, largest) :: LessEq(r.value.smallest, f.smallest)
    {
      var f := levelFiles[i];
      assert f in levelFiles[..i + 1];
      assert forall g :: g in levelFiles[..i + 1] <==> g in levelFiles[..i] || g == f;
      if Less(largest, f.smallest) && f.smallest.user == largest.user {
        if r.None? || Less(f.smallest, r.value.smallest) {
          r := Some(f);
        }
      }
    }
    assert levelFiles[..|levelFiles|] == levelFiles;
  }

  /** `last` ends the chosen files and no file of the level continues its user key. */
  ghost predicate LastOfChoice(last: File, chosen: seq<File>, levelFiles: seq<File>) {
    && (forall f :: f in chosen ==> LessEq(f.largest, last.largest))
    && (forall f :: f in levelFiles ==> !StartsAtBoundary(f, last.largest))
  }

  ghost function StartingAfter(files: seq<File>, key: InternalKey): set<File> {
    set f | f in files && Less(key, f.smallest)
  }

  /** Files between two chosen ones are chosen. */
  ghost predicate Convex(files: seq<File>, chosen: seq<File>) {
    forall f, r, g | f in chosen && r in files && g in chosen
      && Less(f.largest, r.smallest) && Less(r.largest, g.smallest) :: r in chosen
  }

  /** No file outside the choice shares a user key with one inside it. */
  ghost predicate Isolated(files: seq<File>, chosen: seq<File>) {
    forall r, f | r in files && r !in chosen && f in chosen ::
      r.largest.user < f.smallest.user || r.smallest.user > f.largest.user
  }

  /** What a set of inputs for a level must satisfy before its boundary files are added. */
  ghost predicate Eligible(level: nat, files: seq<File>, chosen: seq<File>) {
    && chosen != [] && (forall f :: f in chosen ==> f in files)
    && (if level == 0 then Isolated(files, chosen) else Convex(files, chosen))
  }

  /** Adding the file that follows the choice keeps it convex. */
  lemma AddNextFile(files: seq<File>, chosen: seq<File>, last: File, next: File)
    requires Disjoint(files) && forall f :: f in files ==> FileOk(f)
    requires (forall f :: f in chosen ==> f in files) && Convex(files, chosen)
    requires last in chosen && forall f :: f in chosen ==> LessEq(f.largest, last.largest)
    requires next in files && StartsAtBoundary(next, last.largest)
    requires forall f | f in files && StartsAtBoundary(f, last.largest) :: LessEq(next.smallest, f.smallest)
    ensures Convex(files, chosen + [next])
  {
    forall f, r, g | f in chosen + [next] && r in files && g in chosen + [next]
      && Less(f.largest, r.smallest) && Less(r.largest, g.smallest)
      ensures r in chosen + [next]
    {
      EntryWithinFile(r, r.entries[0]);
      EntryWithinFile(next, next.entries[0]);
      if g == next && f in chosen {
        EntryWithinFile(last, last.entries[0]);
        FilesAreOrdered(files, r, last);
        assert Less(last.largest, r.smallest) ==> StartsAtBoundary(r, last.largest);
      }
    }
  }

  lemma FilesAreOrdered(files: seq<File>, a: File, b: File)
    requires Disjoint(files) && a in files && b in files
    ensures a == b || Less(a.largest, b.smallest) || Less(b.largest, a.smallest)
  {
    var i :| 0 <= i < |files| && files[i] == a;
    var j :| 0 <= j < |files| && files[j] == b;
  }

  /** An isolated choice already holds every file under its largest user key. */
  lemma IsolatedHasNoBoundary(files: seq<File>, chosen: seq<File>, last: File)
    requires (forall f :: f in files ==> FileOk(f)) && last in chosen && last in files
    requires Isolated(files, chosen) && forall f :: f in chosen ==> LessEq(f.largest, last.largest)
    ensures forall f :: f in files ==> !StartsAtBoundary(f, last.largest)
  {
    EntryWithinFile(last, last.entries[0]);
    forall f | f in files ensures !StartsAtBoundary(f, last.largest) {
      EntryWithinFile(f, f.entries[0]);
    }
  }

  lemma AddNextKeepsEligible(level: nat, files: seq<File>, chosen: seq<File>, last: File, next: File)
    requires (forall f :: f in files ==> FileOk(f)) && Eligible(level, files, chosen) && level > 0 && Disjoint(files)
    requires last in chosen && forall f :: f in chosen ==> LessEq(f.largest, last.largest)
    requires next in files && StartsAtBoundary(next, last.largest)
    requires forall f | f in files && StartsAtBoundary(f, last.largest) :: LessEq(next.smallest, f.smallest)
    ensures Eligible(level, files, chosen + [next])
    ensures forall f :: f in chosen + [next] ==> LessEq(f.largest, next.largest)
    ensures StartingAfter(files, next.largest) < StartingAfter(files, last.largest)
  {
    AddNextFile(files, chosen, last, next);
    EntryWithinFile(next, next.entries[0]);
    assert next in StartingAfter(files, last.largest) && next !in StartingAfter(files, next.largest);
    assert StartingAfter(files, next.largest) <= StartingAfter(files, last.largest);
  }

  /**
   Afterwards no file of the level starts past the largest chosen key under the
   same user key.
   */
  method AddBoundaryInputs(level: nat, files: seq<File>, base: seq<File>) returns (r: seq<File>)
    requires (forall f :: f in files ==> FileOk(f)) && (level > 0 ==> Disjoint(files))
    requires base != [] ==> Eligible(level, files, base)
    ensures base <= r && (base == [] ==> r == [])
    ensures base != [] ==> Eligible(level, files, r)
    ensures base != [] ==> exists last | last in r :: LastOfChoice(last, r, files)
  {
    r := base;
    var key := FindLargestKey(base);
    if key.None? {
      return;
    }
    var largest := key.value;
    ghost var last: File :| last in r && last.largest == largest;
    var searching := true;
    while searching
      invariant base <= r && Eligible(level, files, r)
      invariant last in r && last.largest == largest && forall f :: f in r ==> LessEq(f.largest, largest)
      invariant !searching ==> forall f :: f in files ==> !StartsAtBoundary(f, largest)
      decreases searching, StartingAfter(files, largest)
    {
      if level == 0 {
        IsolatedHasNoBoundary(files, r, last);
      }
      var boundary := FindSmallestBoundaryFile(files, largest);
      if boundary.Some? {
        AddNextKeepsEligible(level, files, r, last, boundary.value);
        r := r + [boundary.value];
        largest := boundary.value.largest;
        last := boundary.value;
      } else {
        searching := false;
      }
    }
    assert LastOfChoice(last, r, files);
  }

  // ----- the whole choice -----

  function TotalFileSize(files: seq<File>): nat {
    if files == [] then 0 else files[0].size + TotalFileSize(files[1..])
  }

  /** Every file lies in the user range, and both ends of the range are reached. */
  ghost predicate IsUserRange(files: seq<File>, lo: UserKey, hi: UserKey) {
    && (forall f :: f in files ==> lo <= f.smallest.user && f.largest.user <= hi)
    && (exists f :: f in files && f.smallest.user == lo)
    && (exists f :: f in files && f.largest.user == hi)
  }

  /** The minimal range that covers all files. */
  method GetRange(files: seq<File>) returns (smallest: InternalKey, largest: InternalKey)
    requires files != []
    ensures IsUserRange(files, smallest.user, largest.user)
    ensures forall f :: f in files ==> LessEq(smallest, f.smallest) && LessEq(f.largest, largest)
    ensures exists f :: f in files && f.largest == largest
  {
    smallest, largest := files[0].smallest, files[0].largest;
    ghost var a, b := files[0], files[0];
    for i := 1 to |files|
      invariant a in files && a.smallest == smallest && b in files && b.largest == largest
      invariant forall f :: f in files[..i] ==> LessEq(smallest, f.smallest) && LessEq(f.largest, largest)
    {
      if Less(files[i].smallest, smallest) {
        smallest, a := files[i].smallest, files[i];
      }
      if Less(largest, files[i].largest) {
        largest, b := files[i].largest, files[i];
      }
    }
    assert files[..|files|] == files;
  }

  /** What the chosen inputs guarantee about the files they leave behind. */
  ghost predicate Selected(v: Version, level: nat, inputs0: seq<File>, inputs1: seq<File>)
    requires level + 1 < NUM_LEVELS
  {
    && Eligible(level, v[level], inputs0)
    && (exists last | last in inputs0 :: LastOfChoice(last, inputs0, v[level]))
    && (exists lo, hi | IsUserRange(inputs0, lo, hi) :: inputs1 == OverlappingFiles(v[level + 1], Some(lo), Some(hi)))
  }

  lemma OverlapChoiceEligible(level: nat, files: seq<File>, lo: Option<UserKey>, hi: Option<UserKey>)
    requires (forall f :: f in files ==> FileOk(f)) && (level > 0 ==> Disjoint(files))
    requires OverlappingFiles(files, lo, hi) != []
    requires level == 0 ==> forall f :: f in OverlappingFiles(files, lo, hi) ==> WithinRange(f, lo, hi)
    ensures Eligible(level, files, OverlappingFiles(files, lo, hi))
  {
    forall f | f in files ensures f.smallest.user <= f.largest.user {
      EntryWithinFile(f, f.entries[0]);
    }
  }

  /** VersionSet::PickCompaction once a file of the level has been picked. */
  method PickCompaction(v: Version, level: nat, picked: File) returns (inputs: seq<File>)
    requires VersionOk(v) && level + 1 < NUM_LEVELS && picked in v[level]
    ensures Eligible(level, v[level], inputs) && picked in inputs
  {
    hide ShallowerIsNewer, Unique, NumberedByAge, Forced;
    inputs := [picked];
    RangesAreOrdered(v[level]);
    if level == 0 {
      hide FileOk, Eligible;
      var smallest, largest := GetRange(inputs);
      ghost var lo, hi;
      inputs, lo, hi := GetOverlappingInputs(0, v[0], Some(smallest.user), Some(largest.user));
      OverlapChoiceEligible(0, v[0], lo, hi);
    }
  }

  lemma RangesAreOrdered(files: seq<File>)
    requires forall f :: f in files ==> FileOk(f)
    ensures forall f :: f in files ==> LessEq(f.smallest, f.largest) && f.smallest.user <= f.largest.user
  {
    forall f | f in files ensures LessEq(f.smallest, f.largest) {
      EntryWithinFile(f, f.entries[0]);
    }
  }

  lemma {:induction false} PrefixOfOverlapping(files: seq<File>, lo: Option<UserKey>, hi: Option<UserKey>, n: nat)
    returns (m: nat)
    requires n <= |OverlappingFiles(files, lo, hi)|
    ensures m <= |files| && OverlappingFiles(files, lo, hi)[..n] == OverlappingFiles(files[..m], lo, hi)
  {
    var all := OverlappingFiles(files, lo, hi);
    if n == |all| {
      m := |files|;
      assert files[..m] == files && all[..n] == all;
    } else {
      m := PrefixOfOverlapping(files[..|files| - 1], lo, hi, n);
      assert files[..|files| - 1][..m] == files[..m];
    }
  }

  lemma InPrefix(files: seq<File>, m: nat, r: File, g: File)
    requires Disjoint(files) && m <= |files| && r in files && g in files[..m]
    requires LessEq(g.smallest, g.largest) && LessEq(r.smallest, r.largest) && Less(r.largest, g.smallest)
    ensures r in files[..m]
  {
    var i :| 0 <= i < |files| && files[i] == r;
    var j :| 0 <= j < m && files[j] == g;
    assert !(j < i);
    assert files[..m][i] == r;
  }

  lemma OverlapOfPrefixConvex(files: seq<File>, lo: Option<UserKey>, hi: Option<UserKey>, m: nat)
    requires (forall f :: f in files ==> FileOk(f)) && Disjoint(files) && m <= |files|
    ensures Convex(files, OverlappingFiles(files[..m], lo, hi))
  {
    RangesAreOrdered(files);
    var chosen := OverlappingFiles(files[..m], lo, hi);
    forall f, r, g | f in chosen && r in files && g in chosen
      && Less(f.largest, r.smallest) && Less(r.largest, g.smallest)
      ensures r in chosen
    {
      assert f in files && g in files;
      InPrefix(files, m, r, g);
      assert Overlaps(r, lo, hi);
    }
  }

  /** Cutting the overlapping files of a disjoint level short leaves no gap. */
  lemma TruncatedChoiceEligible(level: nat, files: seq<File>, lo: Option<UserKey>, hi: Option<UserKey>, n: nat)
    requires (forall f :: f in files ==> FileOk(f)) && level > 0 && Disjoint(files)
    requires 0 < n <= |OverlappingFiles(files, lo, hi)|
    ensures Eligible(level, files, OverlappingFiles(files, lo, hi)[..n])
  {
    var chosen := OverlappingFiles(files, lo, hi)[..n];
    var m := PrefixOfOverlapping(files, lo, hi, n);
    OverlapOfPrefixConvex(files, lo, hi, m);
    assert forall f :: f in chosen ==> f in files[..m];
  }

  /** VersionSet::CompactRange: above level 0 the inputs are cut at the file-size limit. */
  method CompactRangeInputs(v: Version, level: nat, begin: Option<UserKey>, end: Option<UserKey>, limit: nat)
    returns (inputs: seq<File>)
    requires VersionOk(v) && level + 1 < NUM_LEVELS
    ensures inputs != [] ==> Eligible(level, v[level], inputs)
    ensures inputs == [] ==> forall f :: f in v[level] ==> !Overlaps(f, begin, end)
    ensures level == 0 ==> forall f :: f in v[level] && Overlaps(f, begin, end) ==> f in inputs
    ensures level > 0 ==> inputs <= OverlappingFiles(v[level], begin, end)
  {
    ghost var lo, hi;
    RangesAreOrdered(v[level]);
    inputs, lo, hi := GetOverlappingInputs(level, v[level], begin, end);
    if inputs == [] {
      return;
    }
    OverlapChoiceEligible(level, v[level], lo, hi);
    if level > 0 {
      var total := 0;
      for i := 0 to |inputs|
        invariant inputs == OverlappingFiles(v[level], lo, hi)
      {
        total := total + inputs[i].size;
        if total >= limit {
          TruncatedChoiceEligible(level, v[level], lo, hi, i + 1);
          inputs := inputs[..i + 1];
          break;
        }
      }
    }
  }

  lemma PrefixMembers(a: seq<File>, b: seq<File>)
    requires a <= b
    ensures forall f :: f in a ==> f in b
  {
  }

  /** Files of the level within a range overlap any range at least as wide. */
  lemma RangeCovers(files: seq<File>, inputs0: seq<File>, inputs1: seq<File>, start: UserKey, limit: UserKey,
                    lo: Option<UserKey>, hi: Option<UserKey>)
    requires IsUserRange(inputs0 + inputs1, start, limit) && (forall f :: f in inputs0 ==> f in files)
    requires forall f :: f in files ==> f.smallest.user <= f.largest.user
    requires lo.Some? && hi.Some? && lo.value <= start && limit <= hi.value
    ensures forall f :: f in inputs0 ==> f in OverlappingFiles(files, lo, hi)
  {
    forall f | f in inputs0 ensures Overlaps(f, lo, hi) {
      assert f in inputs0 + inputs1;
    }
  }

  /** The files of the next level that meet the user range of the inputs. */
  ghost predicate ParentsOf(parents: seq<File>, files: seq<File>, inputs: seq<File>) {
    exists lo, hi | IsUserRange(inputs, lo, hi) :: parents == OverlappingFiles(files, Some(lo), Some(hi))
  }

  /** Every file of the level that meets the user range of the inputs and their parents is in `wider`. */
  ghost predicate Widens(wider: seq<File>, files: seq<File>, inputs: seq<File>) {
    exists lo, hi | IsUserRange(inputs, lo, hi) ::
      forall f :: f in files && Overlaps(f, Some(lo), Some(hi)) ==> f in wider
  }

  /** The wider choice has more files, stays under the limit and meets as many parents. */
  ghost predicate Grows(files: seq<File>, inputs0: seq<File>, inputs1: seq<File>, wider: seq<File>, limit: nat) {
    && inputs1 != [] && |wider| > |inputs0| && TotalFileSize(inputs1) + TotalFileSize(wider) < limit
    && exists parents | ParentsOf(parents, files, wider) :: |parents| == |inputs1|
  }

  /** `key` is the greatest key of the files: where the next compaction of their level starts. */
  ghost predicate EndsAt(files: seq<File>, key: InternalKey) {
    (forall f :: f in files ==> LessEq(f.largest, key)) && exists f :: f in files && f.largest == key
  }

  /** The files of a disjoint level that meet the range of the inputs, and the inputs' greatest key. */
  method GetParents(level: nat, files: seq<File>, inputs: seq<File>)
    returns (parents: seq<File>, largest: InternalKey)
    requires level > 0 && inputs != [] && forall f :: f in files ==> FileOk(f)
    ensures ParentsOf(parents, files, inputs) && EndsAt(inputs, largest)
  {
    hide FileOk, Forced;
    RangesAreOrdered(files);
    var smallest;
    smallest, largest := GetRange(inputs);
    ghost var lo, hi;
    parents, lo, hi := GetOverlappingInputs(level, files, Some(smallest.user), Some(largest.user));
  }

  lemma GreatestEnds(files: seq<File>, key: InternalKey)
    requires (forall f :: f in files ==> LessEq(f.largest, key)) && exists f :: f in files && f.largest == key
    ensures EndsAt(files, key)
  {
  }

  lemma LevelsAreOk(v: Version)
    requires VersionOk(v)
    ensures forall l, f | 0 <= l < NUM_LEVELS && f in v[l] :: FileOk(f)
    ensures forall l | 0 < l < NUM_LEVELS :: Disjoint(v[l])
  {
  }

  lemma NotEmpty(level: nat, files: seq<File>, inputs: seq<File>)
    requires Eligible(level, files, inputs)
    ensures inputs != [] && forall f :: f in inputs ==> f in files
  {
  }

  lemma MakesSelected(v: Version, level: nat, inputs0: seq<File>, inputs1: seq<File>)
    requires level + 1 < NUM_LEVELS && Eligible(level, v[level], inputs0) && ParentsOf(inputs1, v[level + 1], inputs0)
    requires exists last | last in inputs0 :: LastOfChoice(last, inputs0, v[level])
    ensures Selected(v, level, inputs0, inputs1)
  {
  }

  lemma UserRangeUnique(files: seq<File>, lo: UserKey, hi: UserKey, lo': UserKey, hi': UserKey)
    requires IsUserRange(files, lo, hi) && IsUserRange(files, lo', hi')
    ensures lo == lo' && hi == hi'
  {
  }

  lemma {:induction false} WiderRangeHoldsMore(files: seq<File>, lo: UserKey, hi: UserKey, lo': UserKey, hi': UserKey)
    requires lo' <= lo && hi <= hi'
    ensures
      var few, many := OverlappingFiles(files, Some(lo), Some(hi)), OverlappingFiles(files, Some(lo'), Some(hi'));
      |few| <= |many| && (|few| == |many| ==> few == many)
  {
    if files != [] {
      WiderRangeHoldsMore(files[..|files| - 1], lo, hi, lo', hi');
    }
  }

  /** A wider choice that meets as many parents meets the same ones. */
  lemma AsManyParentsAreTheSame(files: seq<File>, inputs: seq<File>, wider: seq<File>, parents: seq<File>,
                                parents': seq<File>)
    requires ParentsOf(parents, files, inputs) && ParentsOf(parents', files, wider)
    requires (forall f :: f in inputs ==> f in wider) && |parents'| == |parents|
    ensures parents' == parents
  {
    var lo, hi :| IsUserRange(inputs, lo, hi) && parents == OverlappingFiles(files, Some(lo), Some(hi));
    var lo', hi' :| IsUserRange(wider, lo', hi') && parents' == OverlappingFiles(files, Some(lo'), Some(hi'));
    WiderRangeHoldsMore(files, lo, hi, lo', hi');
  }

  lemma ParentsUnique(files: seq<File>, inputs: seq<File>, parents: seq<File>, parents': seq<File>)
    requires ParentsOf(parents, files, inputs) && ParentsOf(parents', files, inputs)
    ensures parents == parents'
  {
    var lo, hi :| IsUserRange(inputs, lo, hi) && parents == OverlappingFiles(files, Some(lo), Some(hi));
    var lo', hi' :| IsUserRange(inputs, lo', hi') && parents' == OverlappingFiles(files, Some(lo'), Some(hi'));
    UserRangeUnique(inputs, lo, hi, lo', hi');
  }

  lemma GrowsIff(files: seq<File>, inputs0: seq<File>, inputs1: seq<File>, wider: seq<File>, limit: nat,
                 parents: seq<File>)
    requires ParentsOf(parents, files, wider)
    ensures Grows(files, inputs0, inputs1, wider, limit) <==>
      && inputs1 != [] && |wider| > |inputs0| && TotalFileSize(inputs1) + TotalFileSize(wider) < limit
      && |parents| == |inputs1|
  {
    if Grows(files, inputs0, inputs1, wider, limit) {
      var p :| ParentsOf(p, files, wider) && |p| == |inputs1|;
      ParentsUnique(files, wider, parents, p);
    }
  }

  lemma NeverGrows(files: seq<File>, inputs0: seq<File>, inputs1: seq<File>, wider: seq<File>, limit: nat)
    requires inputs1 == [] || |wider| <= |inputs0| || TotalFileSize(inputs1) + TotalFileSize(wider) >= limit
    ensures !Grows(files, inputs0, inputs1, wider, limit)
  {
  }

  lemma SelectedParents(v: Version, level: nat, inputs0: seq<File>, inputs1: seq<File>)
    requires level + 1 < NUM_LEVELS && Selected(v, level, inputs0, inputs1)
    ensures Eligible(level, v[level], inputs0) && ParentsOf(inputs1, v[level + 1], inputs0)
  {
  }

  /** The choice grows within the level when that is small enough and pulls in no more parents. */
  method GrowInputs(v: Version, level: nat, inputs0: seq<File>, inputs1: seq<File>, expandedLimit: nat)
    returns (r0: seq<File>, r1: seq<File>, ghost wider: seq<File>)
    requires VersionOk(v) && level + 1 < NUM_LEVELS && Selected(v, level, inputs0, inputs1)
    ensures Selected(v, level, r0, r1) && r1 == inputs1
    ensures inputs1 != [] ==> Widens(wider, v[level], inputs0 + inputs1) && forall f :: f in inputs0 ==> f in wider
    ensures r0 == if Grows(v[level + 1], inputs0, inputs1, wider, expandedLimit) then wider else inputs0
  {
    hide VersionOk, Eligible, LastOfChoice, ParentsOf, Widens, Grows;
    LevelsAreOk(v);
    SelectedParents(v, level, inputs0, inputs1);
    r0, r1, wider := inputs0, inputs1, [];
    if inputs1 != [] {
      var expanded0 := WiderInputs(v, level, inputs0, inputs1);
      wider := expanded0;
      NotEmpty(level, v[level], expanded0);
      if |expanded0| > |inputs0| && TotalFileSize(inputs1) + TotalFileSize(expanded0) < expandedLimit {
        var expanded1, newLimit := GetParents(level + 1, v[level + 1], expanded0);
        GrowsIff(v[level + 1], inputs0, inputs1, expanded0, expandedLimit, expanded1);
        if |expanded1| == |inputs1| {
          AsManyParentsAreTheSame(v[level + 1], inputs0, expanded0, inputs1, expanded1);
          MakesSelected(v, level, expanded0, expanded1);
          r0, r1 := expanded0, expanded1;
        }
        return;
      }
    }
    NeverGrows(v[level + 1], inputs0, inputs1, wider, expandedLimit);
  }

  /** Everything in the level that meets the range of the inputs and their parents, with boundary files. */
  method WiderInputs(v: Version, level: nat, inputs0: seq<File>, inputs1: seq<File>) returns (expanded0: seq<File>)
    requires VersionOk(v) && level + 1 < NUM_LEVELS && Eligible(level, v[level], inputs0)
    ensures Widens(expanded0, v[level], inputs0 + inputs1) && forall f :: f in inputs0 ==> f in expanded0
    ensures Eligible(level, v[level], expanded0)
    ensures exists last | last in expanded0 :: LastOfChoice(last, expanded0, v[level])
  {
    hide VersionOk, FileOk, Disjoint, Eligible, LastOfChoice, IsUserRange, Forced, Widens, WithinRange;
    LevelsAreOk(v);
    NotEmpty(level, v[level], inputs0);
    RangesAreOrdered(v[level]);
    var allStart, allLimit := GetRange(inputs0 + inputs1);
    ghost var lo, hi;
    expanded0, lo, hi := GetOverlappingInputs(level, v[level], Some(allStart.user), Some(allLimit.user));
    RangeCovers(v[level], inputs0, inputs1, allStart.user, allLimit.user, lo, hi);
    assert inputs0[0] in expanded0;
    OverlapChoiceEligible(level, v[level], lo, hi);
    ghost var overlapping := expanded0;
    expanded0 := AddBoundaryInputs(level, v[level], expanded0);
    PrefixMembers(overlapping, expanded0);
    RangeWidens(expanded0, v[level], inputs0 + inputs1, allStart.user, allLimit.user);
  }

  lemma RangeWidens(wider: seq<File>, files: seq<File>, inputs: seq<File>, lo: UserKey, hi: UserKey)
    requires IsUserRange(inputs, lo, hi) && forall f :: f in files && Overlaps(f, Some(lo), Some(hi)) ==> f in wider
    ensures Widens(wider, files, inputs)
  {
  }

  /**
   VersionSet::SetupOtherInputs: add boundary files, take the overlapping parents, grow the choice when that
   pulls in no more parents, note the grandparents that overlap it all, and where the next compaction starts.
   */
  method SetupOtherInputs(v: Version, level: nat, picked: seq<File>, expandedLimit: nat)
    returns (inputs0: seq<File>, inputs1: seq<File>, grandparents: seq<File>, pointer: InternalKey,
             ghost first: seq<File>, ghost wider: seq<File>)
    requires VersionOk(v) && level + 1 < NUM_LEVELS && Eligible(level, v[level], picked)
    ensures Selected(v, level, inputs0, inputs1) && picked <= first && Selected(v, level, first, inputs1)
    ensures inputs1 != [] ==> Widens(wider, v[level], first + inputs1) && forall f :: f in first ==> f in wider
    ensures inputs0 == if Grows(v[level + 1], first, inputs1, wider, expandedLimit) then wider else first
    ensures level + 2 < NUM_LEVELS ==> ParentsOf(grandparents, v[level + 2], inputs0 + inputs1)
    ensures level + 2 == NUM_LEVELS ==> grandparents == []
    ensures EndsAt(inputs0, pointer)
  {
    hide VersionOk, Eligible, LastOfChoice, Grows, Widens, ParentsOf, EndsAt;
    LevelsAreOk(v);
    NotEmpty(level, v[level], picked);
    inputs0 := AddBoundaryInputs(level, v[level], picked);
    first := inputs0;
    inputs1, pointer := GetParents(level + 1, v[level + 1], inputs0);
    MakesSelected(v, level, first, inputs1);
    inputs0, inputs1, wider := GrowInputs(v, level, inputs0, inputs1, expandedLimit);
    SelectedParents(v, level, inputs0, inputs1);
    NotEmpty(level, v[level], inputs0);
    var smallest;
    smallest, pointer := GetRange(inputs0);
    GreatestEnds(inputs0, pointer);
    grandparents := [];
    if level + 2 < NUM_LEVELS {
      var limit;
      grandparents, limit := GetParents(level + 2, v[level + 2], inputs0 + inputs1);
    }
  }

  // ----- what the choice guarantees -----

  /** A file left behind precedes a chosen one or shares no user key with it. */
  lemma RemainderStandsApart(level: nat, files: seq<File>, inputs: seq<File>, last: File, r: File, f: File)
    requires (forall f :: f in files ==> FileOk(f)) && (level > 0 ==> Disjoint(files))
    requires Eligible(level, files, inputs) && last in inputs && LastOfChoice(last, inputs, files)
    requires r in files && r !in inputs && f in inputs
    ensures (level > 0 && Less(r.largest, f.smallest))
         || r.largest.user < f.smallest.user || r.smallest.user > f.largest.user
  {
    if level > 0 {
      FilesAreOrdered(files, r, f);
      FilesAreOrdered(files, r, last);
    }
  }

  lemma ApartIsNewer(r: File, f: File)
    requires FileOk(r) && FileOk(f) && Unique(Elements(r.entries) + Elements(f.entries))
    requires Less(r.largest, f.smallest) || r.largest.user < f.smallest.user || r.smallest.user > f.largest.user
    ensures NewerThan(Elements(r.entries), Elements(f.entries))
  {
    forall e, g | e in Elements(r.entries) && g in Elements(f.entries) && e.ik.user == g.ik.user
      ensures e.ik.seqno > g.ik.seqno
    {
      EntryWithinFile(r, e);
      EntryWithinFile(f, g);
      assert e in Elements(r.entries) + Elements(f.entries) && g in Elements(r.entries) + Elements(f.entries);
    }
  }

  /** Files of the level left behind hold only newer versions of the inputs' keys. */
  lemma RemainderIsNewer(level: nat, files: seq<File>, inputs: seq<File>, r: File, f: File)
    requires (forall f :: f in files ==> FileOk(f)) && (level > 0 ==> Disjoint(files))
    requires Eligible(level, files, inputs) && exists last | last in inputs :: LastOfChoice(last, inputs, files)
    requires r in files && r !in inputs && f in inputs && Unique(Elements(r.entries) + Elements(f.entries))
    ensures NewerThan(Elements(r.entries), Elements(f.entries))
  {
    var last: File :| last in inputs && LastOfChoice(last, inputs, files);
    RemainderStandsApart(level, files, inputs, last, r, f);
    ApartIsNewer(r, f);
  }

  /** A file lies wholly before or wholly after all the inputs. */
  ghost predicate Beside(r: File, inputs: seq<File>) {
    || (forall f :: f in inputs ==> Less(r.largest, f.smallest))
    || (forall f :: f in inputs ==> Less(f.largest, r.smallest))
  }

  lemma ParentBeforeOrAfter(files: seq<File>, lo: UserKey, hi: UserKey, r: File, f: File)
    requires Disjoint(files) && (forall f :: f in files ==> FileOk(f)) && lo <= hi
    requires r in files && !Overlaps(r, Some(lo), Some(hi))
    requires f in files && Overlaps(f, Some(lo), Some(hi))
    ensures r.largest.user < lo ==> Less(r.largest, f.smallest)
    ensures r.smallest.user > hi ==> Less(f.largest, r.smallest)
  {
    FilesAreOrdered(files, r, f);
    RangesAreOrdered(files);
  }

  /** Parents left behind leave room for everything the inputs hold. */
  lemma ParentsStandAside(parents: seq<File>, lo: UserKey, hi: UserKey, inputs0: seq<File>, r: File)
    requires (forall f :: f in parents ==> FileOk(f)) && Disjoint(parents)
    requires IsUserRange(inputs0, lo, hi) && lo <= hi
    requires r in parents && r !in OverlappingFiles(parents, Some(lo), Some(hi))
    ensures Beside(r, inputs0 + OverlappingFiles(parents, Some(lo), Some(hi)))
  {
    var inputs1 := OverlappingFiles(parents, Some(lo), Some(hi));
    forall f | f in inputs1
      ensures r.largest.user < lo ==> Less(r.largest, f.smallest)
      ensures r.smallest.user > hi ==> Less(f.largest, r.smallest)
    {
      ParentBeforeOrAfter(parents, lo, hi, r, f);
    }
  }
}
