/**
 Reading a damaged log (db/log_reader.cc): on any bytes whatever, only fragments whose checksum holds become part of a
 record; and in a log that was written whole, damage the checksum shows costs no more than the records that touch the
 rest of its block.
 */
module LogDamage {
  import opened Levels
  import opened ByteKeys
  import opened Coding
  import opened LogFormat
  import opened LogReader

  // ----- any bytes -----

  /** An intact chunk in the file: it lies in one block, and header, checksum and payload agree. */
  predicate ChunkAt(crc: Checksum, file: seq<byte>, q: nat, kind: byte, data: seq<byte>) {
    var end := q + HEADER + |data|;
    && |data| < 0x1_0000 && end <= |file| && end <= BlockEnd(q)
    && file[q..end] == Chunk(crc, kind, data)
  }

  /** A chunk of type 0 without a payload passes for preallocated space. */
  predicate Blank(kind: byte, data: seq<byte>) {
    kind == 0 && data == []
  }

  /** The end of what the reader has in its buffer at `q`. */
  function BufferEnd(file: seq<byte>, q: nat): nat {
    if BlockEnd(q) <= |file| then BlockEnd(q) else |file|
  }

  lemma ReadsAtStart(crc: Checksum, file: seq<byte>, p: nat)
    requires p <= |file|
    ensures
      var q := FragmentStart(p);
      if q + HEADER <= |file| then
        && q + HEADER <= BlockEnd(q)
        && ReadPhysical(crc, file, p) == Parse(crc, file, q, BufferEnd(file, q), BlockEnd(q) <= |file|)
      else ReadPhysical(crc, file, p).event == Eof
  {
    hide Parse;
    assert BlockEnd(p) - p == Left(p) && BlockEnd(FragmentStart(p)) - FragmentStart(p) == Left(FragmentStart(p));
  }

  /** What the bytes at `q` say is a chunk exactly if it parses as a fragment. */
  lemma ParseMeans(crc: Checksum, file: seq<byte>, q: nat, kind: byte, data: seq<byte>)
    requires q + HEADER <= |file| && q + HEADER <= BlockEnd(q)
    ensures Parse(crc, file, q, BufferEnd(file, q), BlockEnd(q) <= |file|) ==
            Seen(Fragment(kind, data), q + HEADER + |data|) <==>
            ChunkAt(crc, file, q, kind, data) && !Blank(kind, data)
  {
    var end := BufferEnd(file, q);
    var seen := Parse(crc, file, q, end, BlockEnd(q) <= |file|);
    if ChunkAt(crc, file, q, kind, data) && !Blank(kind, data) {
      ChunkBytes(crc, file, q, kind, data);
    } else if seen == Seen(Fragment(kind, data), q + HEADER + |data|) {
      BytesAreChunk(crc, file, q, kind, data);
    }
  }

  lemma ChunkBytes(crc: Checksum, file: seq<byte>, q: nat, kind: byte, data: seq<byte>)
    requires ChunkAt(crc, file, q, kind, data)
    ensures Length(file[q + 4], file[q + 5]) == |data| && file[q + 6] == kind
    ensures file[q + HEADER..q + HEADER + |data|] == data
    ensures DecodeFixed(file[q..q + 4]) == Stored(crc, kind, data)
  {
    var chunk, end := Chunk(crc, kind, data), q + HEADER + |data|;
    forall i | 0 <= i < HEADER ensures file[q + i] == chunk[i] {
      assert file[q..end][i] == file[q + i];
    }
    assert file[q + HEADER..end] == file[q..end][HEADER..] == data;
    assert file[q..q + 4] == chunk[..4] == Fixed(Stored(crc, kind, data), 4);
    Powers();
    FixedRoundTrip(Stored(crc, kind, data), 4);
  }

  lemma BytesAreChunk(crc: Checksum, file: seq<byte>, q: nat, kind: byte, data: seq<byte>)
    requires q + HEADER + |data| <= |file| && q + HEADER + |data| <= BlockEnd(q)
    requires Length(file[q + 4], file[q + 5]) == |data| && file[q + 6] == kind
    requires file[q + HEADER..q + HEADER + |data|] == data
    requires DecodeFixed(file[q..q + 4]) == Stored(crc, kind, data)
    ensures ChunkAt(crc, file, q, kind, data)
  {
    var chunk, end := Chunk(crc, kind, data), q + HEADER + |data|;
    FixedSurjective(file[q..q + 4]);
    assert chunk[..4] == file[q..q + 4];
    assert file[q..end] == file[q..q + 4] + file[q + 4..q + HEADER] + file[q + HEADER..end];
    assert file[q + 4..q + HEADER] == [|data| % 256, |data| / 256, kind];
  }

  /** On any bytes: a fragment is returned exactly if an intact chunk stands where the reader looks for one. */
  lemma FragmentsAreChecked(crc: Checksum, file: seq<byte>, p: nat, kind: byte, data: seq<byte>)
    requires p <= |file|
    ensures
      var q := FragmentStart(p);
      ReadPhysical(crc, file, p) == Seen(Fragment(kind, data), q + HEADER + |data|) <==>
      ChunkAt(crc, file, q, kind, data) && !Blank(kind, data)
    ensures ReadPhysical(crc, file, p).event == Fragment(kind, data) ==>
              ReadPhysical(crc, file, p).at == FragmentStart(p) + HEADER + |data|
  {
    var q := FragmentStart(p);
    ReadsAtStart(crc, file, p);
    if q + HEADER <= |file| {
      ParseMeans(crc, file, q, kind, data);
    }
  }

  /** One chunk of a record. */
  datatype Part = Part(at: nat, kind: byte, data: seq<byte>)

  /** The parts are intact and follow each other with nothing between them but filler. */
  predicate Follow(crc: Checksum, file: seq<byte>, p: nat, parts: seq<Part>, at: nat)
    decreases |parts|
  {
    if parts == [] then p == at
    else
      var Part(q, kind, data) := parts[0];
      && q == FragmentStart(p) && ChunkAt(crc, file, q, kind, data)
      && Follow(crc, file, q + HEADER + |data|, parts[1..], at)
  }

  /** MIDDLE* LAST. */
  predicate IsRest(parts: seq<Part>) {
    && parts != []
    && if |parts| == 1 then parts[0].kind == LAST else parts[0].kind == MIDDLE && IsRest(parts[1..])
  }

  /** FULL, or FIRST MIDDLE* LAST. */
  predicate IsWhole(parts: seq<Part>) {
    && parts != []
    && if |parts| == 1 then parts[0].kind == FULL else parts[0].kind == FIRST && IsRest(parts[1..])
  }

  function Data(parts: seq<Part>): seq<byte> {
    if parts == [] then [] else parts[0].data + Data(parts[1..])
  }

  /** The parts of a record, or what is missing to the fragments gathered so far. */
  ghost predicate Spells(crc: Checksum, file: seq<byte>, p: nat, scratch: Option<seq<byte>>, record: seq<byte>,
                         from: nat, parts: seq<Part>, at: nat) {
    && p <= from && Follow(crc, file, from, parts, at)
    && if IsWhole(parts) then record == Data(parts)
       else scratch.Some? && from == p && IsRest(parts) && record == scratch.value + Data(parts)
  }

  lemma OnePart(crc: Checksum, file: seq<byte>, p: nat, part: Part, parts: seq<Part>, at: nat)
    requires part.at == FragmentStart(p) && ChunkAt(crc, file, part.at, part.kind, part.data)
    requires Follow(crc, file, part.at + HEADER + |part.data|, parts, at)
    ensures Follow(crc, file, p, [part] + parts, at) && Data([part] + parts) == part.data + Data(parts)
    ensures IsRest(parts) ==> parts != []
    ensures IsRest([part] + parts) <==> if parts == [] then part.kind == LAST else part.kind == MIDDLE && IsRest(parts)
    ensures IsWhole([part] + parts) <==> if parts == [] then part.kind == FULL else part.kind == FIRST && IsRest(parts)
  {
    assert ([part] + parts)[1..] == parts;
  }

  /** Whether a fragment of this type ends the search for a record. */
  predicate Ending(kind: byte, scratch: Option<seq<byte>>) {
    kind == FULL || kind == EOF_TYPE || (kind == LAST && scratch.Some?)
  }

  /** What has been gathered of the record being put together, and the drops so far. */
  datatype Gathered = Gathered(scratch: Option<seq<byte>>, drops: seq<nat>)

  function Gather(kind: byte, data: seq<byte>, scratch: Option<seq<byte>>, drops: seq<nat>): Gathered {
    if kind == FIRST then Gathered(Some(data), Report(drops, Unfinished(scratch)))
    else if kind == MIDDLE && scratch.Some? then Gathered(Some(scratch.value + data), drops)
    else if kind == BAD_TYPE then Gathered(None, if scratch.Some? then drops + [|scratch.value|] else drops)
    else Gathered(None, drops + [|data| + |Collected(scratch)|])
  }

  lemma GatherStep(crc: Checksum, file: seq<byte>, p: nat, scratch: Option<seq<byte>>, drops: seq<nat>)
    requires p <= |file| && ReadPhysical(crc, file, p).event.Fragment?
    requires !Ending(ReadPhysical(crc, file, p).event.kind, scratch)
    ensures
      var Seen(event, at) := ReadPhysical(crc, file, p);
      var g := Gather(event.kind, event.data, scratch, drops);
      NextRecord(crc, file, p, scratch, drops) == NextRecord(crc, file, at, g.scratch, g.drops)
  {
    hide ReadPhysical;
  }

  lemma EndingStep(crc: Checksum, file: seq<byte>, p: nat, scratch: Option<seq<byte>>, drops: seq<nat>)
    requires p <= |file| && ReadPhysical(crc, file, p).event.Fragment?
    requires Ending(ReadPhysical(crc, file, p).event.kind, scratch)
    ensures
      var Seen(Fragment(kind, data), at) := ReadPhysical(crc, file, p);
      NextRecord(crc, file, p, scratch, drops) ==
      if kind == FULL then Outcome(Some(data), at, Report(drops, Unfinished(scratch)))
      else if kind == LAST then Outcome(Some(Collected(scratch) + data), at, drops)
      else Outcome(None, at, drops)
  {
    hide ReadPhysical;
  }

  lemma BadStep(crc: Checksum, file: seq<byte>, p: nat, scratch: Option<seq<byte>>, drops: seq<nat>)
    requires p <= |file| && ReadPhysical(crc, file, p).event.Bad?
    ensures
      var Seen(Bad(dropped), at) := ReadPhysical(crc, file, p);
      NextRecord(crc, file, p, scratch, drops) ==
      NextRecord(crc, file, at, None, if scratch.Some? then Report(drops, dropped) + [|scratch.value|]
                                      else Report(drops, dropped))
  {
    hide ReadPhysical;
  }

  /** Every record the reader returns is spelt out in the file by intact chunks. */
  lemma {:induction false} RecordIsSpelt(crc: Checksum, file: seq<byte>, p: nat, scratch: Option<seq<byte>>,
                                         drops: seq<nat>) returns (from: nat, parts: seq<Part>)
    requires p <= |file| && NextRecord(crc, file, p, scratch, drops).record.Some?
    ensures
      var o := NextRecord(crc, file, p, scratch, drops);
      Spells(crc, file, p, scratch, o.record.value, from, parts, o.at)
    decreases |file| - p
  {
    hide ReadPhysical, ChunkAt, FragmentStart, Follow, IsRest, IsWhole, Data;
    var Seen(event, at) := ReadPhysical(crc, file, p);
    match event
    case Bad(dropped) =>
      var reported := Report(drops, dropped);
      reported := if scratch.Some? then reported + [|scratch.value|] else reported;
      assert NextRecord(crc, file, p, scratch, drops) == NextRecord(crc, file, at, None, reported);
      from, parts := RecordIsSpelt(crc, file, at, None, reported);
    case Fragment(kind, data) =>
      FragmentsAreChecked(crc, file, p, kind, data);
      var part := Part(FragmentStart(p), kind, data);
      if kind == FULL || (kind == LAST && scratch.Some?) {
        from, parts := p, [part];
        Ends(crc, file, at);
        OnePart(crc, file, p, part, [], at);
        assert Data([part]) == data + [] == data by { assert [part] + [] == [part]; }
        assert [part] + [] == [part];
      } else {
        var g := Gather(kind, data, scratch, drops);
        GatherStep(crc, file, p, scratch, drops);
        from, parts := RecordIsSpelt(crc, file, at, g.scratch, g.drops);
        if !IsWhole(parts) {
          OnePart(crc, file, p, part, parts, NextRecord(crc, file, p, scratch, drops).at);
          Joined(Collected(scratch), data, Data(parts));
          from, parts := p, [part] + parts;
        }
      }
  }

  lemma Ends(crc: Checksum, file: seq<byte>, at: nat)
    ensures Follow(crc, file, at, [], at) && Data([]) == []
  {
  }

  /** The records found one after the other, each spelt out by intact chunks after those of the one before. */
  ghost predicate AllSpelt(crc: Checksum, file: seq<byte>, p: nat, records: seq<seq<byte>>)
    decreases |records|
  {
    records != [] ==>
      exists from, parts, at ::
        && p <= from && Follow(crc, file, from, parts, at) && IsWhole(parts)
        && records[0] == Data(parts) && AllSpelt(crc, file, at, records[1..])
  }

  /**
   On any file whatever, every record returned is the data of intact chunks of types FULL, or FIRST MIDDLE* LAST, that
   follow each other in the file, and no chunk serves two records.
   */
  lemma {:induction false} OnlyIntactRecords(crc: Checksum, file: seq<byte>, p: nat)
    requires p <= |file|
    ensures AllSpelt(crc, file, p, ReadAll(crc, file, p).records)
    decreases |file| - p
  {
    hide NextRecord, Follow, IsWhole, Data;
    var o := NextRecord(crc, file, p, None, []);
    if o.record.Some? {
      var from, parts := RecordIsSpelt(crc, file, p, None, []);
      OnlyIntactRecords(crc, file, o.at);
      var records := ReadAll(crc, file, p).records;
      assert records[1..] == ReadAll(crc, file, o.at).records;
    }
  }

  // ----- conservation -----

  function Sum(sizes: seq<nat>): nat {
    if sizes == [] then 0 else Sum(sizes[..|sizes| - 1]) + sizes[|sizes| - 1]
  }

  function Total(records: seq<seq<byte>>): nat {
    if records == [] then 0 else |records[0]| + Total(records[1..])
  }

  function Size(scratch: Option<seq<byte>>): Option<nat> {
    if scratch.Some? then Some(|scratch.value|) else None
  }

  /** The bytes reading comes across: payloads of intact fragments and what is cut off at damage. */
  function Met(crc: Checksum, file: seq<byte>, p: nat): nat
    requires p <= |file|
    decreases |file| - p
  {
    var Seen(event, at) := ReadPhysical(crc, file, p);
    match event
    case Eof => 0
    case Bad(dropped) => (if dropped.Some? then dropped.value else 0) + Met(crc, file, at)
    case Fragment(kind, data) =>
      if kind == EOF_TYPE then 0 else (if kind == BAD_TYPE then 0 else |data|) + Met(crc, file, at)
  }

  /** The bytes of a record that the end of the file leaves unfinished, `open` of them gathered so far. */
  function LeftOpen(crc: Checksum, file: seq<byte>, p: nat, open: Option<nat>): nat
    requires p <= |file|
    decreases |file| - p
  {
    var Seen(event, at) := ReadPhysical(crc, file, p);
    match event
    case Eof => if open.Some? then open.value else 0
    case Bad(_) => LeftOpen(crc, file, at, None)
    case Fragment(kind, data) =>
      if kind == FIRST then LeftOpen(crc, file, at, Some(|data|))
      else if kind == MIDDLE && open.Some? then LeftOpen(crc, file, at, Some(open.value + |data|))
      else if kind == EOF_TYPE then if open.Some? then open.value else 0
      else LeftOpen(crc, file, at, None)
  }

  lemma SumAppend(sizes: seq<nat>, n: nat)
    ensures Sum(sizes + [n]) == Sum(sizes) + n
  {
    assert (sizes + [n])[..|sizes|] == sizes;
  }

  lemma SumReport(drops: seq<nat>, size: Option<nat>)
    ensures Sum(Report(drops, size)) == Sum(drops) + if size.Some? then size.value else 0
  {
    if size.Some? {
      SumAppend(drops, size.value);
    }
  }

  lemma UnfinishedSize(scratch: Option<seq<byte>>)
    ensures (if Unfinished(scratch).Some? then Unfinished(scratch).value else 0) == |Collected(scratch)|
  {
  }

  lemma SumGather(kind: byte, data: seq<byte>, scratch: Option<seq<byte>>, drops: seq<nat>)
    requires !Ending(kind, scratch)
    ensures
      var g := Gather(kind, data, scratch, drops);
      && Sum(g.drops) + |Collected(g.scratch)| ==
         Sum(drops) + |Collected(scratch)| + (if kind == BAD_TYPE then 0 else |data|)
      && Size(g.scratch) == if kind == FIRST then Some(|data|)
                            else if kind == MIDDLE && scratch.Some? then Some(|scratch.value| + |data|) else None
  {
    hide Sum;
    SumReport(drops, Unfinished(scratch));
    SumAppend(drops, |Collected(scratch)|);
    SumAppend(drops, |data| + |Collected(scratch)|);
  }

  /** Looking for the next record neither loses a byte nor counts one twice. */
  lemma {:induction false} RecordIsAccounted(crc: Checksum, file: seq<byte>, p: nat, scratch: Option<seq<byte>>,
                                             drops: seq<nat>)
    requires p <= |file|
    ensures
      var o := NextRecord(crc, file, p, scratch, drops);
      var before, open := |Collected(scratch)| + Sum(drops) + Met(crc, file, p), LeftOpen(crc, file, p, Size(scratch));
      if o.record.Some? then
        before == |o.record.value| + Sum(o.drops) + Met(crc, file, o.at) && open == LeftOpen(crc, file, o.at, None)
      else before == Sum(o.drops) + open
    decreases |file| - p
  {
    hide ReadPhysical, Sum, Gather, NextRecord, Report, Unfinished;
    var Seen(event, at) := ReadPhysical(crc, file, p);
    match event
    case Eof => EndStep(crc, file, p, scratch, drops);
    case Bad(dropped) =>
      var reported := Report(drops, dropped);
      SumReport(drops, dropped);
      SumAppend(reported, |Collected(scratch)|);
      BadStep(crc, file, p, scratch, drops);
      RecordIsAccounted(crc, file, at, None, if scratch.Some? then reported + [|scratch.value|] else reported);
    case Fragment(kind, data) =>
      if Ending(kind, scratch) {
        EndingStep(crc, file, p, scratch, drops);
        SumReport(drops, Unfinished(scratch));
        UnfinishedSize(scratch);
      } else {
        var g := Gather(kind, data, scratch, drops);
        SumGather(kind, data, scratch, drops);
        GatherStep(crc, file, p, scratch, drops);
        RecordIsAccounted(crc, file, at, g.scratch, g.drops);
      }
  }

  /**
   On any file: every byte of an intact fragment or cut off at damage is in a record returned or in a drop reported,
   except those of a record that the end of the file leaves unfinished.
   */
  lemma {:induction false} BytesAreAccounted(crc: Checksum, file: seq<byte>, p: nat)
    requires p <= |file|
    ensures
      var contents := ReadAll(crc, file, p);
      Total(contents.records) + Sum(contents.drops) + LeftOpen(crc, file, p, None) == Met(crc, file, p)
    decreases |file| - p
  {
    hide ReadPhysical, NextRecord, Sum, Met, LeftOpen;
    var o := NextRecord(crc, file, p, None, []);
    RecordIsAccounted(crc, file, p, None, []);
    assert Sum([]) == 0 by { SumOfNone(); }
    if o.record.Some? {
      BytesAreAccounted(crc, file, o.at);
      var rest := ReadAll(crc, file, o.at);
      SumConcat(o.drops, rest.drops);
      assert ([o.record.value] + rest.records)[1..] == rest.records;
    }
  }

  lemma SumOfNone()
    ensures Sum([]) == 0
  {
  }

  lemma {:induction false} SumConcat(a: seq<nat>, b: seq<nat>)
    ensures Sum(a + b) == Sum(a) + Sum(b)
  {
    if b == [] {
      assert a + b == a;
    } else {
      SumConcat(a, b[..|b| - 1]);
      assert a + b == a + b[..|b| - 1] + [b[|b| - 1]];
      SumAppend(a + b[..|b| - 1], b[|b| - 1]);
    }
  }

  /**
   The fragment types share their numbers with the reader's own events: an intact fragment of type 5, which no writer
   emits, ends the reading without a word, whatever follows it.
   */
  lemma EofTypeEndsReading(crc: Checksum, file: seq<byte>, p: nat, data: seq<byte>)
    requires p <= |file| && ChunkAt(crc, file, FragmentStart(p), EOF_TYPE, data)
    ensures ReadAll(crc, file, p) == Contents([], [])
  {
    hide ReadPhysical;
    FragmentsAreChecked(crc, file, p, EOF_TYPE, data);
  }

  // ----- damage to a written log -----

  /** The header of a chunk with its payload replaced. */
  lemma ChangedBytes(crc: Checksum, full: seq<byte>, file: seq<byte>, q: nat, kind: byte, data: seq<byte>)
    requires ChunkAt(crc, full, q, kind, data) && |file| == |full| && file[q..q + HEADER] == full[q..q + HEADER]
    ensures Length(file[q + 4], file[q + 5]) == |data| && file[q + 6] == kind
    ensures DecodeFixed(file[q..q + 4]) == Stored(crc, kind, data)
  {
    ChunkBytes(crc, full, q, kind, data);
    hide ChunkAt, Stored, DecodeFixed, Length;
    var header := full[q..q + HEADER];
    assert header[4] == file[q + 4] && header[5] == file[q + 5] && header[6] == file[q + 6];
    assert header[4] == full[q + 4] && header[5] == full[q + 5] && header[6] == full[q + 6];
    assert file[q..q + 4] == header[..4] == full[q..q + 4];
  }

  /** A payload changed so that the checksum shows it is not returned, and the rest of its block is reported dropped. */
  lemma ChangedPayloadIsReported(crc: Checksum, full: seq<byte>, file: seq<byte>, p: nat, kind: byte, data: seq<byte>,
                                 changed: seq<byte>)
    requires p <= |file| && |file| == |full| && |changed| == |data| && !Blank(kind, data)
    requires
      var q := FragmentStart(p);
      && ChunkAt(crc, full, q, kind, data)
      && file[q..q + HEADER] == full[q..q + HEADER] && file[q + HEADER..q + HEADER + |data|] == changed
    requires Stored(crc, kind, changed) != Stored(crc, kind, data)
    ensures
      var q := FragmentStart(p);
      ReadPhysical(crc, file, p) == Seen(Bad(Some(BufferEnd(file, q) - q)), BufferEnd(file, q))
  {
    hide Stored, DecodeFixed, Chunk, ReadPhysical, Length, FragmentStart, Parse;
    var q := FragmentStart(p);
    ReadsAtStart(crc, file, p);
    ChangedBytes(crc, full, file, q, kind, data);
    ParseRejects(crc, file, q, BufferEnd(file, q), BlockEnd(q) <= |file|, changed);
  }

  lemma ParseRejects(crc: Checksum, file: seq<byte>, q: nat, end: nat, full: bool, data: seq<byte>)
    requires q + HEADER + |data| <= end <= |file| && data == file[q + HEADER..q + HEADER + |data|]
    requires Length(file[q + 4], file[q + 5]) == |data| && !Blank(file[q + 6], data)
    requires DecodeFixed(file[q..q + 4]) != Stored(crc, file[q + 6], data)
    ensures Parse(crc, file, q, end, full) == Seen(Bad(Some(end - q)), end)
  {
    hide Stored, DecodeFixed, Length;
  }

  /** The chunk at `q` is one of those the record appended at `p` is cut into. */
  predicate IsFragment(p: nat, data: seq<byte>, q: nat): (b: bool)
    ensures b ==> p <= FragmentStart(p) <= q
    decreases if p <= q then q - p else 0
  {
    var f := FirstOf(p, data);
    q == f.start || (f.size < |data| && f.end <= q && IsFragment(f.end, data[f.size..], q))
  }

  /** The chunk at `q` belongs to the i-th of the records appended from `p` on. */
  predicate IsFragmentOf(crc: Checksum, p: nat, records: seq<seq<byte>>, i: nat, q: nat): (b: bool)
    requires i < |records|
    ensures b ==> p <= q
    decreases i
  {
    if i == 0 then IsFragment(p, records[0], q)
    else IsFragmentOf(crc, p + |Encode(crc, p, records[0], true)|, records[1..], i - 1, q)
  }

  /** How many of the records appended from `p` on start before position `e`. */
  function Started(crc: Checksum, p: nat, records: seq<seq<byte>>, e: nat): (k: nat)
    ensures k <= |records|
    decreases |records|
  {
    if records == [] || FragmentStart(p) >= e then 0
    else 1 + Started(crc, p + |Encode(crc, p, records[0], true)|, records[1..], e)
  }

  lemma EncodeReaches(crc: Checksum, p: nat, data: seq<byte>, begin: bool)
    ensures
      var f, end := FirstOf(p, data), p + |Encode(crc, p, data, begin)|;
      && p <= f.start < f.end <= end && f.end <= BlockEnd(f.start)
      && (f.size == |data| ==> f.end == end)
      && Encode(crc, p, data, begin)[f.end - p..] ==
         if f.size == |data| then [] else Encode(crc, f.end, data[f.size..], false)
  {
    hide Encode, Chunk, Kind, FirstOf;
    FirstFits(p, data);
    FragmentEnds(p, data);
    EncodeIsSplit(crc, p, data, begin);
  }

  /** What had been read before only goes in front of the drops. */
  lemma {:induction false} DropsShift(crc: Checksum, file: seq<byte>, p: nat, scratch: Option<seq<byte>>,
                                      drops: seq<nat>, before: seq<nat>)
    requires p <= |file|
    ensures
      var o, o' := NextRecord(crc, file, p, scratch, drops), NextRecord(crc, file, p, scratch, before + drops);
      o' == o.(drops := before + o.drops)
    decreases |file| - p
  {
    hide ReadPhysical;
    var Seen(event, at) := ReadPhysical(crc, file, p);
    match event
    case Eof =>
    case Bad(dropped) =>
      var reported := Report(drops, dropped);
      var after := if scratch.Some? then reported + [|scratch.value|] else reported;
      DropsShift(crc, file, at, None, after, before);
      assert before + after ==
             if scratch.Some? then Report(before + drops, dropped) + [|scratch.value|]
             else Report(before + drops, dropped);
    case Fragment(kind, data) =>
      if !Ending(kind, scratch) {
        var Gathered(scratch', after) := Gather(kind, data, scratch, drops);
        GatherStep(crc, file, p, scratch, drops);
        GatherStep(crc, file, p, scratch, before + drops);
        DropsShift(crc, file, at, scratch', after, before);
        assert Gather(kind, data, scratch, before + drops).drops == before + after;
      }
  }


  /** Up to the damage the record's fragments are read as before; then the damage and what was gathered are reported. */
  lemma {:induction false} ReadsUpToDamage(crc: Checksum, full: seq<byte>, file: seq<byte>, p: nat, data: seq<byte>,
                                           scratch: Option<seq<byte>>, rest: seq<byte>, drops: seq<nat>, q: nat,
                                           size: nat, at: nat) returns (lost: seq<nat>)
    requires p <= |full| && full[p..] == Encode(crc, p, data, scratch.None?) + rest && IsFragment(p, data, q)
    requires q <= |file| && q <= |full| && file[..q] == full[..q]
    requires ReadPhysical(crc, file, q) == Seen(Bad(Some(size)), at)
    ensures at <= |file| &&
            NextRecord(crc, file, p, scratch, drops) == NextRecord(crc, file, at, None, drops + [size] + lost)
    decreases if p <= q then q - p else 0
  {
    hide Encode, Chunk, ReadPhysical, Kind, FragmentStart, FirstOf;
    var f := FirstOf(p, data);
    FirstFits(p, data);
    SkipsToFragment(crc, file, p, f.start);
    if q == f.start {
      lost := if scratch.Some? then [|scratch.value|] else [];
      DamageStep(crc, file, p, scratch, drops, size, at, lost);
    } else {
      FragmentStays(crc, full, file, p, data, scratch.None?, rest, q);
      FragmentInFile(crc, full, p, data, scratch.None?, rest);
      FragmentStep(crc, file, p, scratch, drops, data[..f.size], true, f.end);
      lost := ReadsUpToDamage(crc, full, file, f.end, data[f.size..], Some(Collected(scratch) + data[..f.size]), rest,
                              drops, q, size, at);
    }
  }

  lemma DamageStep(crc: Checksum, file: seq<byte>, p: nat, scratch: Option<seq<byte>>, drops: seq<nat>, size: nat,
                   at: nat, lost: seq<nat>)
    requires p <= |file| && ReadPhysical(crc, file, p) == Seen(Bad(Some(size)), at)
    requires lost == if scratch.Some? then [|scratch.value|] else []
    ensures at <= |file| &&
            NextRecord(crc, file, p, scratch, drops) == NextRecord(crc, file, at, None, drops + [size] + lost)
  {
    hide ReadPhysical;
    assert drops + [size] + [] == drops + [size];
  }

  /** The first fragment of a record stands in the file as an intact chunk. */
  lemma WrittenChunk(crc: Checksum, full: seq<byte>, p: nat, data: seq<byte>, begin: bool, rest: seq<byte>)
    requires p <= |full| && full[p..] == Encode(crc, p, data, begin) + rest
    ensures
      var f := FirstOf(p, data);
      && f.start == FragmentStart(p) && f.size <= |data| && f.end == f.start + HEADER + f.size
      && ChunkAt(crc, full, f.start, Kind(begin, f.size == |data|), data[..f.size])
  {
    hide FirstOf, Kind, BlockEnd, Encode, Chunk, FragmentStart;
    FragmentInFile(crc, full, p, data, begin, rest);
    FirstFits(p, data);
    StartOf(p, data);
  }

  lemma ChunkStays(crc: Checksum, full: seq<byte>, file: seq<byte>, at: nat, kind: byte, data: seq<byte>, q: nat)
    requires ChunkAt(crc, full, at, kind, data) && at + HEADER + |data| <= q
    requires q <= |file| && q <= |full| && file[..q] == full[..q]
    ensures ChunkAt(crc, file, at, kind, data)
  {
    hide Chunk, BlockEnd;
    var end := at + HEADER + |data|;
    assert file[at..end] == file[..q][at..end] == full[at..end];
  }

  /** A fragment before the damage is read as it was written. */
  lemma FragmentStays(crc: Checksum, full: seq<byte>, file: seq<byte>, p: nat, data: seq<byte>, begin: bool,
                      rest: seq<byte>, q: nat)
    requires p <= |full| && full[p..] == Encode(crc, p, data, begin) + rest
    requires q <= |file| && q <= |full| && file[..q] == full[..q] && FirstOf(p, data).end <= q
    ensures
      var f := FirstOf(p, data);
      p <= |file| && f.size <= |data| &&
      ReadPhysical(crc, file, p) == Seen(Fragment(Kind(begin, f.size == |data|), data[..f.size]), f.end)
  {
    hide FirstOf, Kind, Encode, ChunkAt, ReadPhysical, FragmentStart;
    var f := FirstOf(p, data);
    var kind := Kind(begin, f.size == |data|);
    WrittenChunk(crc, full, p, data, begin, rest);
    ChunkStays(crc, full, file, f.start, kind, data[..f.size], q);
    KindIsNotZero(begin, f.size == |data|);
    FragmentsAreChecked(crc, file, p, kind, data[..f.size]);
  }

  lemma OrphanStep(crc: Checksum, file: seq<byte>, p: nat, drops: seq<nat>, data: seq<byte>, last: bool, at: nat)
    requires p <= |file| && ReadPhysical(crc, file, p) == Seen(Fragment(Kind(false, last), data), at)
    ensures at <= |file| &&
            NextRecord(crc, file, p, None, drops) == NextRecord(crc, file, at, None, drops + [|data|])
  {
    hide ReadPhysical;
  }

  /** The fragments of a record whose beginning was lost are reported one by one. */
  lemma {:induction false} ReportsRest(crc: Checksum, file: seq<byte>, p: nat, data: seq<byte>, rest: seq<byte>,
                                       drops: seq<nat>) returns (lost: seq<nat>)
    requires p <= |file| && file[p..] == Encode(crc, p, data, false) + rest
    ensures
      var end := p + |Encode(crc, p, data, false)|;
      end <= |file| && NextRecord(crc, file, p, None, drops) == NextRecord(crc, file, end, None, drops + lost)
    decreases |file| - p
  {
    hide Encode, Chunk, ReadPhysical, FirstOf, NextRecord, Kind;
    var f := FirstOf(p, data);
    FragmentInFile(crc, file, p, data, false, rest);
    assert file[..|file|] == file;
    ReadsFragment(crc, file, |file|, p, data, false, rest);
    FragmentEnds(p, data);
    EncodeReaches(crc, p, data, false);
    OrphanStep(crc, file, p, drops, data[..f.size], f.size == |data|, f.end);
    if f.size == |data| {
      lost := [f.size];
    } else {
      var more := ReportsRest(crc, file, f.end, data[f.size..], rest, drops + [f.size]);
      lost := [f.size] + more;
      assert drops + [f.size] + more == drops + lost;
    }
  }

  /** A block boundary in the middle of a record cuts it between two fragments. */
  lemma {:induction false} BoundaryInRecord(crc: Checksum, p: nat, data: seq<byte>, begin: bool, e: nat)
    returns (left: seq<byte>)
    requires FragmentStart(p) < e < p + |Encode(crc, p, data, begin)| && e % BLOCK == 0
    ensures Encode(crc, p, data, begin)[e - p..] == Encode(crc, e, left, false)
    decreases if p <= e then e - p else 0
  {
    hide Encode, Chunk, FirstOf;
    var f := FirstOf(p, data);
    EncodeReaches(crc, p, data, begin);
    StartOf(p, data);
    FragmentEnds(p, data);
    AtMostToBoundary(f.start, e);
    left := data[f.size..];
    var more := Encode(crc, f.end, left, false);
    assert Encode(crc, p, data, begin)[e - p..] == more[e - f.end..];
    if FragmentStart(f.end) < e {
      left := BoundaryInRecord(crc, f.end, left, false, e);
    } else if f.end < e {
      AtMostToBoundary(f.end, e);
      EncodeSkips(crc, f.end, left, false);
    }
  }

  lemma StartOf(p: nat, data: seq<byte>)
    ensures FirstOf(p, data).start == FragmentStart(p)
  {
  }

  lemma AtMostToBoundary(q: nat, e: nat)
    requires q < e && e % BLOCK == 0
    ensures BlockEnd(q) <= e && BlockEnd(q) == q + Left(q)
  {
  }

  /**
   From a block boundary, or from its end, a written log reads on with the first record that starts there or later.
   */
  lemma {:induction false} ReadsOn(crc: Checksum, file: seq<byte>, p: nat, records: seq<seq<byte>>, e: nat)
    requires p <= e <= |file| && |file| == p + |EncodeAll(crc, p, records)| && (e % BLOCK == 0 || e == |file|)
    requires file[e..] == EncodeAll(crc, p, records)[e - p..]
    ensures ReadAll(crc, file, e).records == records[Started(crc, p, records, e)..]
    decreases |records|
  {
    hide Encode, NextRecord, ReadPhysical, Started, FragmentStart;
    StartedMeans(crc, p, records, e);
    if records == [] {
      NothingThere(crc, file, e);
    } else if FragmentStart(p) >= e {
      StartsAtBoundary(crc, file, p, records, e);
      assert file[..|file|] == file;
      PrefixReadsBack(crc, file, |file|, e, records);
      AllComplete(crc, e, records);
    } else {
      var s := Encode(crc, p, records[0], true);
      var end := p + |s|;
      var rest := EncodeAll(crc, end, records[1..]);
      if end <= e {
        assert EncodeAll(crc, p, records)[e - p..] == rest[e - end..];
        ReadsOn(crc, file, end, records[1..], e);
      } else {
        ReadsRest(crc, file, p, records, e);
      }
    }
  }

  lemma StartedMeans(crc: Checksum, p: nat, records: seq<seq<byte>>, e: nat)
    ensures records == [] || FragmentStart(p) >= e ==> Started(crc, p, records, e) == 0
    ensures records != [] && FragmentStart(p) < e ==>
      Started(crc, p, records, e) == 1 + Started(crc, p + |Encode(crc, p, records[0], true)|, records[1..], e)
  {
  }

  /** The filler before a record is all that can stand between it and the boundary. */
  lemma StartsAtBoundary(crc: Checksum, file: seq<byte>, p: nat, records: seq<seq<byte>>, e: nat)
    requires records != [] && p <= e <= FragmentStart(p) && e <= |file|
    requires |file| == p + |EncodeAll(crc, p, records)| && (e % BLOCK == 0 || e == |file|)
    requires file[e..] == EncodeAll(crc, p, records)[e - p..]
    ensures file[e..] == EncodeAll(crc, e, records)
  {
    hide Encode, Zeros, FragmentStart, EncodeAll, FirstOf;
    EncodeReaches(crc, p, records[0], true);
    StartOf(p, records[0]);
    FirstAndRest(crc, p, records);
    if p < e {
      SkipsToBoundary(p, e);
      WithoutFiller(crc, p, records);
    }
  }

  lemma WithoutFiller(crc: Checksum, p: nat, records: seq<seq<byte>>)
    requires records != [] && Left(p) < HEADER
    ensures EncodeAll(crc, p, records) == Zeros(Left(p)) + EncodeAll(crc, p + Left(p), records)
  {
    hide Encode, Zeros, EncodeAll;
    var e := p + Left(p);
    var s := Encode(crc, e, records[0], true);
    EncodeSkips(crc, p, records[0], true);
    FirstAndRest(crc, p, records);
    FirstAndRest(crc, e, records);
    Joined(Zeros(Left(p)), s, EncodeAll(crc, e + |s|, records[1..]));
  }

  lemma SkipsToBoundary(p: nat, e: nat)
    requires p < e <= FragmentStart(p) && e % BLOCK == 0
    ensures Left(p) < HEADER && e == p + Left(p)
  {
    AtMostToBoundary(p, e);
  }

  lemma DroppedWithin(s: seq<byte>, rest: seq<byte>, k: nat)
    requires k <= |s|
    ensures (s + rest)[k..] == s[k..] + rest
  {
  }

  /** A record that starts before the boundary and ends after it. */
  lemma ReadsRest(crc: Checksum, file: seq<byte>, p: nat, records: seq<seq<byte>>, e: nat)
    requires records != [] && p <= e <= |file| && FragmentStart(p) < e < p + |Encode(crc, p, records[0], true)|
    requires |file| == p + |EncodeAll(crc, p, records)| && (e % BLOCK == 0 || e == |file|)
    requires file[e..] == EncodeAll(crc, p, records)[e - p..]
    ensures ReadAll(crc, file, e).records == records[1..] && Started(crc, p, records, e) == 1
  {
    hide Encode, NextRecord, ReadPhysical, FragmentStart, EncodeAll, Started, ReadAll;
    var s := Encode(crc, p, records[0], true);
    var end := p + |s|;
    var rest := EncodeAll(crc, end, records[1..]);
    FirstAndRest(crc, p, records);
    var left := BoundaryInRecord(crc, p, records[0], true, e);
    DroppedWithin(s, rest, e - p);
    var lost := ReportsRest(crc, file, e, left, rest, []);
    DropsShift(crc, file, end, None, [], lost);
    assert [] + lost == lost + [];
    SameRecords(crc, file, e, end, lost);
    TailInFile(file, e, s[e - p..], rest);
    assert file[..|file|] == file;
    PrefixReadsBack(crc, file, |file|, end, records[1..]);
    AllComplete(crc, end, records[1..]);
    StartedMeans(crc, p, records, e);
    StartedMeans(crc, end, records[1..], e);
  }

  lemma FirstAndRest(crc: Checksum, p: nat, records: seq<seq<byte>>)
    requires records != []
    ensures
      var s := Encode(crc, p, records[0], true);
      EncodeAll(crc, p, records) == s + EncodeAll(crc, p + |s|, records[1..])
  {
    hide Encode;
  }

  lemma SameRecords(crc: Checksum, file: seq<byte>, p: nat, at: nat, lost: seq<nat>)
    requires p <= |file| && at <= |file|
    requires
      var o := NextRecord(crc, file, at, None, []);
      NextRecord(crc, file, p, None, []) == o.(drops := lost + o.drops)
    ensures ReadAll(crc, file, p).records == ReadAll(crc, file, at).records
    ensures lost <= ReadAll(crc, file, p).drops
  {
    hide NextRecord;
  }

  /** Damage in the first record. */
  lemma DamageInFirst(crc: Checksum, full: seq<byte>, file: seq<byte>, p: nat, records: seq<seq<byte>>, q: nat)
    requires p <= |full| && full[p..] == EncodeAll(crc, p, records) && |file| == |full|
    requires records != [] && IsFragment(p, records[0], q) && q <= |file|
    requires
      var e := BufferEnd(file, q);
      && file[..q] == full[..q] && file[e..] == full[e..]
      && ReadPhysical(crc, file, q) == Seen(Bad(Some(e - q)), e)
    ensures
      var e, contents := BufferEnd(file, q), ReadAll(crc, file, p);
      && 0 < Started(crc, p, records, e) && contents.records == records[Started(crc, p, records, e)..]
      && contents.drops != [] && contents.drops[0] == e - q
  {
    hide Encode, NextRecord, ReadPhysical, FragmentStart, IsFragment, BufferEnd, EncodeAll, Started, ReadAll;
    var e := BufferEnd(file, q);
    BufferEnds(file, q);
    FirstAndRest(crc, p, records);
    StartedMeans(crc, p, records, e);
    var s := Encode(crc, p, records[0], true);
    var rest := EncodeAll(crc, p + |s|, records[1..]);
    var lost := ReadsUpToDamage(crc, full, file, p, records[0], None, rest, [], q, e - q, e);
    assert [] + [e - q] + lost == ([e - q] + lost) + [];
    DropsShift(crc, file, e, None, [], [e - q] + lost);
    SameRecords(crc, file, p, e, [e - q] + lost);
    assert full[e..] == full[p..][e - p..];
    ReadsOn(crc, file, p, records, e);
  }

  /**
   Damage is contained: if the reader finds the bytes of a written log damaged at one of its fragments and all
   other blocks are as written, it returns every record before the damaged one and every record that starts
   in a later block, in order, none of them changed, and reports the rest of the block as dropped.
   */
  lemma {:induction false} DamageIsContained(crc: Checksum, full: seq<byte>, file: seq<byte>, p: nat,
                                             records: seq<seq<byte>>, i: nat, q: nat)
    requires p <= |full| && full[p..] == EncodeAll(crc, p, records) && |file| == |full|
    requires i < |records| && IsFragmentOf(crc, p, records, i, q) && q <= |file|
    requires
      var e := BufferEnd(file, q);
      && file[..q] == full[..q] && file[e..] == full[e..]
      && ReadPhysical(crc, file, q) == Seen(Bad(Some(e - q)), e)
    ensures
      var e, contents := BufferEnd(file, q), ReadAll(crc, file, p);
      && i < Started(crc, p, records, e)
      && contents.records == records[..i] + records[Started(crc, p, records, e)..]
      && contents.drops != [] && contents.drops[0] == e - q
    decreases i
  {
    hide Encode, NextRecord, ReadPhysical, FragmentStart, IsFragment, BufferEnd, EncodeAll, Started, ReadAll;
    var e := BufferEnd(file, q);
    var s := Encode(crc, p, records[0], true);
    var end := p + |s|;
    if i == 0 {
      DamageInFirst(crc, full, file, p, records, q);
      assert records[..0] == [];
    } else {
      FirstAndRest(crc, p, records);
      StartsBefore(crc, p, records, e);
      TailInFile(full, p, s, EncodeAll(crc, end, records[1..]));
      FrontStays(full, file, p, s, EncodeAll(crc, end, records[1..]), q);
      assert file[..|file|] == file;
      ReadsRecord(crc, file, |file|, p, records[0], None, file[end..], []);
      DamageIsContained(crc, full, file, end, records[1..], i - 1, q);
      ReadsFirst(crc, file, p, records[0], end);
      OneMoreRecord(records, i, Started(crc, end, records[1..], e));
    }
  }

  lemma OneMoreRecord(records: seq<seq<byte>>, i: nat, k: nat)
    requires 0 < i <= k + 1 <= |records|
    ensures records[..i] + records[k + 1..] == [records[0]] + (records[1..][..i - 1] + records[1..][k..])
  {
  }

  lemma StartsBefore(crc: Checksum, p: nat, records: seq<seq<byte>>, e: nat)
    requires records != []
    ensures
      var end := p + |Encode(crc, p, records[0], true)|;
      && FragmentStart(p) < end
      && (end <= e ==> Started(crc, p, records, e) == 1 + Started(crc, end, records[1..], e))
  {
    hide Encode, FragmentStart, FirstOf;
    EncodeReaches(crc, p, records[0], true);
    StartOf(p, records[0]);
  }

  lemma ReadsFirst(crc: Checksum, file: seq<byte>, p: nat, record: seq<byte>, end: nat)
    requires p <= |file| && end <= |file|
    requires NextRecord(crc, file, p, None, []) == Outcome(Some(Collected(None) + record), end, [])
    ensures ReadAll(crc, file, p).records == [record] + ReadAll(crc, file, end).records
    ensures ReadAll(crc, file, p).drops == ReadAll(crc, file, end).drops
  {
    hide NextRecord;
    assert Collected(None) + record == record;
  }

  lemma BufferEnds(file: seq<byte>, q: nat)
    requires q <= |file|
    ensures q <= BufferEnd(file, q) <= |file| && (BufferEnd(file, q) % BLOCK == 0 || BufferEnd(file, q) == |file|)
  {
  }

  lemma FrontStays(full: seq<byte>, file: seq<byte>, p: nat, s: seq<byte>, rest: seq<byte>, q: nat)
    requires p + |s| <= q <= |full| && q <= |file| && full[p..] == s + rest && file[..q] == full[..q]
    ensures file[p..] == s + file[p + |s|..]
  {
    assert file[p..p + |s|] == file[..q][p..p + |s|] == full[p..p + |s|] == full[p..][..|s|] == s;
  }

  /** The same when no more is known than that a fragment's payload was changed and its checksum shows it. */
  lemma ChangedPayloadIsContained(crc: Checksum, records: seq<seq<byte>>, file: seq<byte>, i: nat, q: nat, kind: byte,
                                  data: seq<byte>)
    requires i < |records| && IsFragmentOf(crc, 0, records, i, q)
    requires
      var full, end := EncodeAll(crc, 0, records), q + HEADER + |data|;
      && ChunkAt(crc, full, q, kind, data) && kind != 0 && |file| == |full|
      && file[..q + HEADER] == full[..q + HEADER] && file[end..] == full[end..]
      && Stored(crc, kind, file[q + HEADER..end]) != Stored(crc, kind, data)
    ensures
      var e, contents := BufferEnd(file, q), ReadAll(crc, file, 0);
      && i < Started(crc, 0, records, e)
      && contents.records == records[..i] + records[Started(crc, 0, records, e)..]
      && contents.drops != [] && contents.drops[0] == e - q
  {
    hide Encode, EncodeAll, Stored, Chunk, ReadPhysical, ReadAll, Started, IsFragmentOf;
    var full, end, e := EncodeAll(crc, 0, records), q + HEADER + |data|, BufferEnd(file, q);
    assert FragmentStart(q) == q;
    assert file[..q] == file[..q + HEADER][..q] == full[..q];
    assert file[q..q + HEADER] == file[..q + HEADER][q..] == full[q..q + HEADER];
    assert file[e..] == file[end..][e - end..] == full[e..];
    ChangedPayloadIsReported(crc, full, file, q, kind, data, file[q + HEADER..end]);
    DamageIsContained(crc, full, file, 0, records, i, q);
  }
}
