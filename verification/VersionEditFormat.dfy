/** How version edits are written to and read from the MANIFEST (db/version_edit.cc). */
module VersionEditFormat {
  import opened Levels
  import opened ByteKeys
  import opened Coding


  datatype FileMetaData = FileMetaData(number: nat, size: nat, smallest: seq<byte>, largest: seq<byte>)
  datatype Numbered = Numbered(level: nat, number: nat)
  datatype Pointer = Pointer(level: nat, key: seq<byte>)
  datatype NewFile = NewFile(level: nat, file: FileMetaData)

  /** The deleted files are a sorted set; internal keys are in their encoded form. */
  datatype Fields = Fields(
    comparator: Option<seq<byte>>,
    logNumber: Option<nat>,
    prevLogNumber: Option<nat>,
    nextFile: Option<nat>,
    lastSequence: Option<nat>,
    pointers: seq<Pointer>,
    deleted: seq<Numbered>,
    added: seq<NewFile>
  )

  const EMPTY := Fields(None, None, None, None, None, [], [], [])

  /** One tagged record of an encoded edit. */
  datatype Item =
    | Comparator(name: seq<byte>)
    | LogNumber(number: nat)
    | PrevLogNumber(number: nat)
    | NextFileNumber(number: nat)
    | LastSequence(number: nat)
    | CompactPointer(pointer: Pointer)
    | DeletedFile(file: Numbered)
    | AddedFile(added: NewFile)

  function EncodeItem(item: Item): seq<byte> {
    match item
    case Comparator(name) => Varint(1) + PutSlice(name)
    case LogNumber(n) => Varint(2) + Varint(n)
    case PrevLogNumber(n) => Varint(9) + Varint(n)
    case NextFileNumber(n) => Varint(3) + Varint(n)
    case LastSequence(n) => Varint(4) + Varint(n)
    case CompactPointer(p) => Varint(5) + (Varint(p.level) + PutSlice(p.key))
    case DeletedFile(f) => Varint(6) + (Varint(f.level) + Varint(f.number))
    case AddedFile(NewFile(level, f)) =>
      Varint(7) + (Varint(level) + (Varint(f.number) + (Varint(f.size) + (PutSlice(f.smallest) + PutSlice(f.largest)))))
  }

  function EncodeItems(items: seq<Item>): seq<byte> {
    if |items| == 0 then [] else EncodeItem(items[0]) + EncodeItems(items[1..])
  }

  function Settings(e: Fields): seq<Item> {
    (if e.comparator.Some? then [Comparator(e.comparator.value)] else []) +
    (if e.logNumber.Some? then [LogNumber(e.logNumber.value)] else []) +
    (if e.prevLogNumber.Some? then [PrevLogNumber(e.prevLogNumber.value)] else []) +
    (if e.nextFile.Some? then [NextFileNumber(e.nextFile.value)] else []) +
    (if e.lastSequence.Some? then [LastSequence(e.lastSequence.value)] else [])
  }

  function PointerItems(p: seq<Pointer>): seq<Item> {
    seq(|p|, i requires 0 <= i < |p| => CompactPointer(p[i]))
  }

  function DeletedItems(f: seq<Numbered>): seq<Item> {
    seq(|f|, i requires 0 <= i < |f| => DeletedFile(f[i]))
  }

  function AddedItems(f: seq<NewFile>): seq<Item> {
    seq(|f|, i requires 0 <= i < |f| => AddedFile(f[i]))
  }

  /** The order EncodeTo writes in. */
  function Items(e: Fields): seq<Item> {
    Settings(e) + PointerItems(e.pointers) + DeletedItems(e.deleted) + AddedItems(e.added)
  }

  function Encode(e: Fields): seq<byte> {
    EncodeItems(Items(e))
  }

  // ----- decoding -----

  datatype ItemResult = Read(item: Item, rest: seq<byte>) | Malformed

  /** GetLevel: a level that exists. */
  function GetLevel(input: seq<byte>): (r: Option<Parsed<nat>>)
    ensures r.Some? ==> |r.value.rest| < |input|
  {
    var v := GetVarint32(input);
    if v.Some? && v.value.value < NUM_LEVELS then v else None
  }

  /** GetInternalKey: no key is empty. */
  function GetKey(input: seq<byte>): (r: Option<Parsed<seq<byte>>>)
    ensures r.Some? ==> |r.value.rest| < |input|
  {
    var s := GetSlice(input);
    if s.Some? && s.value.value != [] then s else None
  }

  /** What follows a tag. */
  function DecodeItem(tag: nat, input: seq<byte>): (r: ItemResult)
    ensures r.Read? ==> |r.rest| < |input|
  {
    if tag == 1 then
      var name := GetSlice(input);
      if name.Some? then Read(Comparator(name.value.value), name.value.rest) else Malformed
    else if tag == 2 || tag == 9 || tag == 3 || tag == 4 then
      var n := GetVarint64(input);
      if n.None? then Malformed
      else
        var v := n.value.value;
        Read(if tag == 2 then LogNumber(v) else if tag == 9 then PrevLogNumber(v)
             else if tag == 3 then NextFileNumber(v) else LastSequence(v), n.value.rest)
    else if tag == 5 || tag == 6 || tag == 7 then
      var level := GetLevel(input);
      if level.None? then Malformed
      else if tag == 5 then
        var key := GetKey(level.value.rest);
        if key.Some? then Read(CompactPointer(Pointer(level.value.value, key.value.value)), key.value.rest)
        else Malformed
      else
        var number := GetVarint64(level.value.rest);
        if number.None? then Malformed
        else if tag == 6 then Read(DeletedFile(Numbered(level.value.value, number.value.value)), number.value.rest)
        else DecodeFile(level.value.value, number.value.value, number.value.rest)
    else Malformed
  }

  function DecodeFile(level: nat, number: nat, input: seq<byte>): (r: ItemResult)
    ensures r.Read? ==> |r.rest| < |input|
  {
    var size := GetVarint64(input);
    if size.None? then Malformed
    else
      var smallest := GetKey(size.value.rest);
      if smallest.None? then Malformed
      else
        var largest := GetKey(smallest.value.rest);
        if largest.None? then Malformed
        else
          Read(AddedFile(NewFile(level, FileMetaData(number, size.value.value, smallest.value.value,
                                                     largest.value.value))),
               largest.value.rest)
  }

  predicate Before(a: Numbered, b: Numbered) {
    a.level < b.level || (a.level == b.level && a.number < b.number)
  }

  /** Insertion into the sorted set of deleted files. */
  function Insert(s: seq<Numbered>, x: Numbered): seq<Numbered> {
    if |s| == 0 then [x]
    else
      var last := s[|s| - 1];
      if Before(last, x) then s + [x]
      else if last == x then s
      else Insert(s[..|s| - 1], x) + [last]
  }

  function Apply(e: Fields, item: Item): Fields {
    match item
    case Comparator(name) => e.(comparator := Some(name))
    case LogNumber(n) => e.(logNumber := Some(n))
    case PrevLogNumber(n) => e.(prevLogNumber := Some(n))
    case NextFileNumber(n) => e.(nextFile := Some(n))
    case LastSequence(n) => e.(lastSequence := Some(n))
    case CompactPointer(p) => e.(pointers := e.pointers + [p])
    case DeletedFile(f) => e.(deleted := Insert(e.deleted, f))
    case AddedFile(f) => e.(added := e.added + [f])
  }

  datatype Outcome = Outcome(fields: Fields, ok: bool)

  /** The loop of DecodeFrom: records until no tag can be read, which must be the end of the input. */
  function DecodeFrom(e: Fields, input: seq<byte>): Outcome
    decreases |input|
  {
    var tag := GetVarint32(input);
    if tag.None? then Outcome(e, input == [])
    else
      match DecodeItem(tag.value.value, tag.value.rest)
      case Malformed => Outcome(e, false)
      case Read(item, rest) => DecodeFrom(Apply(e, item), rest)
  }

  /** Clear leaves the compaction pointers. */
  function Cleared(e: Fields): Fields {
    EMPTY.(pointers := e.pointers)
  }

  class VersionEdit {
    var fields: Fields

    constructor ()
      ensures fields == EMPTY
    {
      fields := EMPTY;
    }

    method Clear()
      modifies this
      ensures fields == Cleared(old(fields))
    {
      fields := fields.(comparator := None, logNumber := None, prevLogNumber := None, nextFile := None,
                        lastSequence := None,
                        deleted := [], added := []);
    }

    method Decode(src: seq<byte>) returns (ok: bool)
      modifies this
      ensures Outcome(fields, ok) == DecodeFrom(Cleared(old(fields)), src)
    {
      Clear();
      var input := src;
      var malformed := false;
      var tag := GetVarint32(input);
      while !malformed && tag.Some?
        invariant malformed ==> DecodeFrom(Cleared(old(fields)), src) == Outcome(fields, false)
        invariant !malformed ==>
          DecodeFrom(Cleared(old(fields)), src) == DecodeFrom(fields, input) && tag == GetVarint32(input)
        decreases !malformed, |input|
      {
        match DecodeItem(tag.value.value, tag.value.rest)
        case Malformed => malformed := true;
        case Read(item, rest) =>
          fields := Apply(fields, item);
          input := rest;
          tag := GetVarint32(input);
      }
      ok := !malformed && input == [];
    }
  }

  // ----- round trip -----

  /** What the source's types and assertions guarantee of an edit. */
  predicate ItemOk(item: Item) {
    match item
    case Comparator(name) => |name| < TWO_32
    case LogNumber(n) => n < TWO_64
    case PrevLogNumber(n) => n < TWO_64
    case NextFileNumber(n) => n < TWO_64
    case LastSequence(n) => n < TWO_64
    case CompactPointer(p) => p.level < NUM_LEVELS && 0 < |p.key| < TWO_32
    case DeletedFile(f) => f.level < NUM_LEVELS && f.number < TWO_64
    case AddedFile(NewFile(level, f)) =>
      && level < NUM_LEVELS && f.number < TWO_64 && f.size < TWO_64
      && 0 < |f.smallest| < TWO_32 && 0 < |f.largest| < TWO_32
  }

  ghost predicate EditOk(e: Fields) {
    SortedSet(e.deleted) && forall item :: item in Items(e) ==> ItemOk(item)
  }

  function Tag(item: Item): nat {
    match item
    case Comparator(_) => 1
    case LogNumber(_) => 2
    case PrevLogNumber(_) => 9
    case NextFileNumber(_) => 3
    case LastSequence(_) => 4
    case CompactPointer(_) => 5
    case DeletedFile(_) => 6
    case AddedFile(_) => 7
  }

  lemma ItemRoundTrip(item: Item, t: seq<byte>)
    requires ItemOk(item)
    ensures
      var tag := GetVarint32(EncodeItem(item) + t);
      && tag.Some? && tag.value.value == Tag(item)
      && DecodeItem(tag.value.value, tag.value.rest) == Read(item, t)
  {
    hide Varint, PutSlice, GetVarint32, GetVarint64, GetSlice;
    var tag := Varint(Tag(item));
    match item
    case Comparator(name) =>
      Join2(tag, PutSlice(name), t);
      Varint32RoundTrip(1, PutSlice(name) + t);
      SliceRoundTrip(name, t);
    case LogNumber(n) => NumberRoundTrip(tag, 2, n, t);
    case PrevLogNumber(n) => NumberRoundTrip(tag, 9, n, t);
    case NextFileNumber(n) => NumberRoundTrip(tag, 3, n, t);
    case LastSequence(n) => NumberRoundTrip(tag, 4, n, t);
    case CompactPointer(p) =>
      Join3(tag, Varint(p.level), PutSlice(p.key), t);
      Varint32RoundTrip(5, Varint(p.level) + (PutSlice(p.key) + t));
      Varint32RoundTrip(p.level, PutSlice(p.key) + t);
      SliceRoundTrip(p.key, t);
    case DeletedFile(f) =>
      Join3(tag, Varint(f.level), Varint(f.number), t);
      Varint32RoundTrip(6, Varint(f.level) + (Varint(f.number) + t));
      Varint32RoundTrip(f.level, Varint(f.number) + t);
      Varint64RoundTrip(f.number, t);
    case AddedFile(NewFile(level, f)) =>
      var keys := PutSlice(f.smallest) + PutSlice(f.largest);
      Join3(tag, Varint(level), Varint(f.number) + (Varint(f.size) + keys), t);
      Join3(Varint(f.number), Varint(f.size), keys, t);
      Join2(PutSlice(f.smallest), PutSlice(f.largest), t);
      var sizes := Varint(f.size) + (PutSlice(f.smallest) + (PutSlice(f.largest) + t));
      Varint32RoundTrip(7, Varint(level) + (Varint(f.number) + sizes));
      Varint32RoundTrip(level, Varint(f.number) + sizes);
      Varint64RoundTrip(f.number, sizes);
      Varint64RoundTrip(f.size, PutSlice(f.smallest) + (PutSlice(f.largest) + t));
      SliceRoundTrip(f.smallest, PutSlice(f.largest) + t);
      SliceRoundTrip(f.largest, t);
  }

  lemma Join2(a: seq<byte>, b: seq<byte>, t: seq<byte>)
    ensures a + b + t == a + (b + t)
  {
  }

  lemma Join3(a: seq<byte>, b: seq<byte>, c: seq<byte>, t: seq<byte>)
    ensures a + (b + c) + t == a + (b + (c + t))
  {
  }

  lemma NumberRoundTrip(tag: seq<byte>, k: nat, n: nat, t: seq<byte>)
    requires tag == Varint(k) && k < 128 && n < TWO_64
    ensures GetVarint32(tag + Varint(n) + t) == Some(Parsed(k, Varint(n) + t)) &&
      GetVarint64(Varint(n) + t) == Some(Parsed(n, t))
  {
    Join2(tag, Varint(n), t);
    Varint32RoundTrip(k, Varint(n) + t);
    Varint64RoundTrip(n, t);
  }

  function ApplyAll(e: Fields, items: seq<Item>): Fields
    decreases |items|
  {
    if |items| == 0 then e else ApplyAll(Apply(e, items[0]), items[1..])
  }

  /** Decoding applies the records in the order they were written. */
  lemma {:induction false} DecodesItems(e: Fields, items: seq<Item>)
    requires forall i :: 0 <= i < |items| ==> ItemOk(items[i])
    ensures DecodeFrom(e, EncodeItems(items)) == Outcome(ApplyAll(e, items), true)
    decreases |items|
  {
    hide EncodeItem, DecodeItem, Apply, GetVarint32;
    if |items| == 0 {
      NothingToRead();
    } else {
      ItemRoundTrip(items[0], EncodeItems(items[1..]));
      DecodesItems(Apply(e, items[0]), items[1..]);
    }
  }

  lemma NothingToRead()
    ensures GetVarint32([]).None?
  {
  }

  lemma {:induction false} ApplyConcat(e: Fields, a: seq<Item>, b: seq<Item>)
    ensures ApplyAll(e, a + b) == ApplyAll(ApplyAll(e, a), b)
    decreases |a|
  {
    hide Apply;
    if |a| == 0 {
      assert a + b == b;
    } else {
      assert (a + b)[1..] == a[1..] + b;
      ApplyConcat(Apply(e, a[0]), a[1..], b);
    }
  }

  lemma {:induction false} ApplyPointers(e: Fields, p: seq<Pointer>, k: nat)
    requires k <= |p|
    ensures ApplyAll(e, PointerItems(p)[..k]) == e.(pointers := e.pointers + p[..k])
  {
    if k == 0 {
      assert e.pointers + p[..0] == e.pointers;
    } else {
      ApplyPointers(e, p, k - 1);
      assert PointerItems(p)[..k] == PointerItems(p)[..k - 1] + [CompactPointer(p[k - 1])];
      ApplyConcat(e, PointerItems(p)[..k - 1], [CompactPointer(p[k - 1])]);
      assert e.pointers + p[..k] == e.pointers + p[..k - 1] + [p[k - 1]];
    }
  }

  predicate SortedSet(s: seq<Numbered>) {
    forall i, j :: 0 <= i < j < |s| ==> Before(s[i], s[j])
  }

  lemma {:induction false} InsertAdds(s: seq<Numbered>, x: Numbered, y: Numbered)
    ensures y in Insert(s, x) <==> y in s || y == x
  {
    if |s| > 0 {
      InsertAdds(s[..|s| - 1], x, y);
      assert s == s[..|s| - 1] + [s[|s| - 1]];
    }
  }

  /** std::set of (level, number): by level, then by number, no pair twice. */
  predicate Ascending(s: seq<Numbered>) {
    forall i, j :: 0 <= i < j < |s| ==>
      s[i].level < s[j].level || (s[i].level == s[j].level && s[i].number < s[j].number)
  }

  lemma {:induction false} InsertKeepsAscending(s: seq<Numbered>, x: Numbered)
    requires Ascending(s)
    ensures Ascending(Insert(s, x)) && forall y :: y in Insert(s, x) <==> y in s || y == x
  {
    forall y ensures y in Insert(s, x) <==> y in s || y == x {
      InsertAdds(s, x, y);
    }
    if |s| > 0 {
      var init, last := s[..|s| - 1], s[|s| - 1];
      InsertKeepsAscending(init, x);
      if !Before(last, x) && last != x {
        AscendingOn(Insert(init, x), last);
      }
    }
  }

  lemma AscendingOn(s: seq<Numbered>, last: Numbered)
    requires Ascending(s)
    requires forall y :: y in s ==> y.level < last.level || (y.level == last.level && y.number < last.number)
    ensures Ascending(s + [last])
  {
    assert forall i :: 0 <= i < |s| ==> s[i] in s;
  }

  /** A level that does not exist makes the edit malformed, whatever follows it. */
  lemma BadLevelIsMalformed(tag: nat, level: nat, rest: seq<byte>)
    requires 5 <= tag <= 7 && level < TWO_32
    ensures level >= 7 ==> DecodeItem(tag, Varint(level) + rest) == Malformed
    ensures level < 7 ==> GetLevel(Varint(level) + rest) == Some(Parsed(level, rest))
  {
    hide Varint, GetVarint32;
    Varint32RoundTrip(level, rest);
  }

  lemma {:induction false} ApplyDeleted(e: Fields, f: seq<Numbered>, k: nat)
    requires k <= |f| && SortedSet(f) && e.deleted == []
    ensures ApplyAll(e, DeletedItems(f)[..k]) == e.(deleted := f[..k])
  {
    if k > 0 {
      ApplyDeleted(e, f, k - 1);
      assert DeletedItems(f)[..k] == DeletedItems(f)[..k - 1] + [DeletedFile(f[k - 1])];
      ApplyConcat(e, DeletedItems(f)[..k - 1], [DeletedFile(f[k - 1])]);
      assert k > 1 ==> Before(f[k - 2], f[k - 1]);
      assert f[..k] == f[..k - 1] + [f[k - 1]];
    }
  }

  lemma {:induction false} ApplyAdded(e: Fields, f: seq<NewFile>, k: nat)
    requires k <= |f|
    ensures ApplyAll(e, AddedItems(f)[..k]) == e.(added := e.added + f[..k])
  {
    if k == 0 {
      assert e.added + f[..0] == e.added;
    } else {
      ApplyAdded(e, f, k - 1);
      assert AddedItems(f)[..k] == AddedItems(f)[..k - 1] + [AddedFile(f[k - 1])];
      ApplyConcat(e, AddedItems(f)[..k - 1], [AddedFile(f[k - 1])]);
      assert e.added + f[..k] == e.added + f[..k - 1] + [f[k - 1]];
    }
  }

  lemma ApplySettings(e: Fields, f: Fields)
    requires e.comparator.None? && e.logNumber.None? && e.prevLogNumber.None? && e.nextFile.None? &&
      e.lastSequence.None?
    ensures ApplyAll(e, Settings(f)) ==
            e.(comparator := f.comparator, logNumber := f.logNumber, prevLogNumber := f.prevLogNumber,
               nextFile := f.nextFile, lastSequence := f.lastSequence)
  {
    var a := if f.comparator.Some? then [Comparator(f.comparator.value)] else [];
    var b := if f.logNumber.Some? then [LogNumber(f.logNumber.value)] else [];
    var c := if f.prevLogNumber.Some? then [PrevLogNumber(f.prevLogNumber.value)] else [];
    var d := if f.nextFile.Some? then [NextFileNumber(f.nextFile.value)] else [];
    var l := if f.lastSequence.Some? then [LastSequence(f.lastSequence.value)] else [];
    ApplyConcat(e, a + b + c + d, l);
    ApplyConcat(e, a + b + c, d);
    ApplyConcat(e, a + b, c);
    ApplyConcat(e, a, b);
  }

  /** The three lists, whole. */
  lemma ApplyLists(e: Fields, p: seq<Pointer>, d: seq<Numbered>, a: seq<NewFile>)
    requires SortedSet(d) && e.deleted == []
    ensures ApplyAll(e, PointerItems(p)) == e.(pointers := e.pointers + p)
    ensures ApplyAll(e, DeletedItems(d)) == e.(deleted := d)
    ensures ApplyAll(e, AddedItems(a)) == e.(added := e.added + a)
  {
    hide Apply, ApplyAll;
    ApplyPointers(e, p, |p|);
    ApplyDeleted(e, d, |d|);
    ApplyAdded(e, a, |a|);
    assert PointerItems(p)[..|p|] == PointerItems(p) && DeletedItems(d)[..|d|] == DeletedItems(d) &&
      AddedItems(a)[..|a|] == AddedItems(a);
    assert p[..|p|] == p && d[..|d|] == d && a[..|a|] == a;
  }

  /** Decoding an encoded edit yields it, with the pointers the decoding edit already had in front. */
  lemma EditRoundTrip(e: Fields, into: Fields)
    requires EditOk(e)
    ensures DecodeFrom(Cleared(into), Encode(e)) == Outcome(e.(pointers := into.pointers + e.pointers), true)
  {
    hide Apply, ApplyAll, Settings, PointerItems, DeletedItems, AddedItems, DecodeFrom, EncodeItems;
    var s, p, d, a := Settings(e), PointerItems(e.pointers), DeletedItems(e.deleted), AddedItems(e.added);
    var start := Cleared(into);
    DecodesItems(start, Items(e));
    ApplyConcat(start, s + p + d, a);
    ApplyConcat(start, s + p, d);
    ApplyConcat(start, s, p);
    ApplySettings(start, e);
    var one := ApplyAll(start, s);
    ApplyLists(one, e.pointers, [], []);
    var two := one.(pointers := one.pointers + e.pointers);
    ApplyLists(two, [], e.deleted, []);
    var three := two.(deleted := e.deleted);
    AddedLast(three, e.added);
  }

  lemma AddedLast(e: Fields, a: seq<NewFile>)
    requires e.added == []
    ensures ApplyAll(e, AddedItems(a)) == e.(added := a)
  {
    ApplyAdded(e, a, |a|);
    assert AddedItems(a)[..|a|] == AddedItems(a) && a[..|a|] == a && [] + a == a;
  }

  /** Because Clear leaves the pointers, the edit itself comes back exactly when there were none. */
  lemma RoundTripIff(e: Fields, into: Fields)
    requires EditOk(e)
    ensures DecodeFrom(Cleared(into), Encode(e)) == Outcome(e, true) <==> into.pointers == []
  {
    hide DecodeFrom, Encode, Cleared, EditOk;
    EditRoundTrip(e, into);
    assert |into.pointers + e.pointers| == |into.pointers| + |e.pointers|;
    assert [] + e.pointers == e.pointers;
  }
}
