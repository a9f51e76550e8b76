/**
 Reading a log back (db/log_reader.cc): a reader of 32 KiB blocks that works on any bytes whatever, what it computes,
 and what that is on a log that was written whole or cut short anywhere.
 */
module LogReader {
  import opened Levels
  import opened ByteKeys
  import opened Coding
  import opened LogFormat

  // ----- what the reader computes, by position in the file -----

  /** One physical record, a drop (reported with its size, or silent), or the end. */
  datatype Event = Fragment(kind: byte, data: seq<byte>) | Bad(dropped: Option<nat>) | Eof

  /** An event and the position after it. */
  datatype Seen = Seen(event: Event, at: nat)

  function BlockEnd(p: nat): (end: nat)
    ensures p < end <= p + BLOCK
  {
    p + BLOCK - p % BLOCK
  }

  function Length(low: byte, high: byte): nat {
    low as int + 256 * (high as int)
  }

  /** The physical record at `p` in a buffer that ends at `end`; `full` if a whole block was read. */
  function Parse(crc: Checksum, file: seq<byte>, p: nat, end: nat, full: bool): (seen: Seen)
    requires p + HEADER <= end <= |file|
    ensures seen.at <= |file| && (seen.event.Eof? || p < seen.at)
  {
    var length := Length(file[p + 4], file[p + 5]);
    var kind := file[p + 6];
    if HEADER + length > end - p then
      if full then Seen(Bad(Some(end - p)), end) else Seen(Eof, end)
    else if kind == 0 && length == 0 then Seen(Bad(None), end)
    else
      var data := file[p + HEADER..p + HEADER + length];
      if DecodeFixed(file[p..p + 4]) != Stored(crc, kind, data) then Seen(Bad(Some(end - p)), end)
      else Seen(Fragment(kind, data), p + HEADER + length)
  }

  function ReadPhysical(crc: Checksum, file: seq<byte>, p: nat): (seen: Seen)
    requires p <= |file|
    ensures seen.at <= |file| && (seen.event.Eof? || p < seen.at)
    decreases |file| - p
  {
    var end := BlockEnd(p);
    if end <= |file| then
      if end - p < HEADER then ReadPhysical(crc, file, end) else Parse(crc, file, p, end, true)
    else if |file| - p < HEADER then Seen(Eof, |file|)
    else Parse(crc, file, p, |file|, false)
  }

  /** The next whole record, the position after it and what was reported dropped on the way. */
  datatype Outcome = Outcome(record: Option<seq<byte>>, at: nat, drops: seq<nat>)

  function Report(drops: seq<nat>, size: Option<nat>): seq<nat> {
    if size.Some? then drops + [size.value] else drops
  }

  /** An unfinished record is reported when it held anything. */
  function Unfinished(scratch: Option<seq<byte>>): Option<nat> {
    if scratch.Some? && scratch.value != [] then Some(|scratch.value|) else None
  }

  function Collected(scratch: Option<seq<byte>>): seq<byte> {
    if scratch.Some? then scratch.value else []
  }

  /** Types beyond LAST that the reader's own events share: a fragment of type 5 passes for the end of the file. */
  const EOF_TYPE: byte := 5
  const BAD_TYPE: byte := 6

  /** `scratch` holds the fragments of the record being put together, if one is. */
  function NextRecord(crc: Checksum, file: seq<byte>, p: nat, scratch: Option<seq<byte>>, drops: seq<nat>): (o: Outcome)
    requires p <= |file|
    ensures o.at <= |file| && (o.record.Some? ==> p < o.at)
    decreases |file| - p
  {
    var Seen(event, at) := ReadPhysical(crc, file, p);
    match event
    case Eof => Outcome(None, at, drops)
    case Bad(dropped) =>
      var reported := Report(drops, dropped);
      NextRecord(crc, file, at, None, if scratch.Some? then reported + [|scratch.value|] else reported)
    case Fragment(kind, data) =>
      if kind == FULL then Outcome(Some(data), at, Report(drops, Unfinished(scratch)))
      else if kind == FIRST then NextRecord(crc, file, at, Some(data), Report(drops, Unfinished(scratch)))
      else if kind == MIDDLE || kind == LAST then
        if scratch.None? then NextRecord(crc, file, at, None, drops + [|data|])
        else if kind == MIDDLE then NextRecord(crc, file, at, Some(scratch.value + data), drops)
        else Outcome(Some(scratch.value + data), at, drops)
      else if kind == EOF_TYPE then Outcome(None, at, drops)
      else if kind == BAD_TYPE then
        NextRecord(crc, file, at, None, if scratch.Some? then drops + [|scratch.value|] else drops)
      else NextRecord(crc, file, at, None, drops + [|data| + |Collected(scratch)|])
  }

  /** Everything a reader returns until it reports the end of the file. */
  datatype Contents = Contents(records: seq<seq<byte>>, drops: seq<nat>)

  function ReadAll(crc: Checksum, file: seq<byte>, p: nat): Contents
    requires p <= |file|
    decreases |file| - p
  {
    var o := NextRecord(crc, file, p, None, []);
    if o.record.None? then Contents([], o.drops)
    else
      var rest := ReadAll(crc, file, o.at);
      Contents([o.record.value] + rest.records, o.drops + rest.drops)
  }

  lemma FullBlock(p: nat, end: nat)
    requires end % BLOCK == 0 && p < end <= p + BLOCK
    ensures BlockEnd(p) == end
  {
  }

  lemma LastBlock(p: nat, size: nat)
    requires p <= size && size - p <= size % BLOCK
    ensures BlockEnd(p) > size
  {
  }

  // ----- the reader -----

  /** Counting in whole blocks, the next block ends on a boundary and a short one has the size's remainder. */
  lemma BlockSteps(at: nat, size: nat)
    requires at % BLOCK == 0 && at <= size
    ensures (at + BLOCK) % BLOCK == 0
    ensures size < at + BLOCK ==> size - at == size % BLOCK
  {
  }

  class Reader {
    const crc: Checksum
    const file: seq<byte>
    var buffer: seq<byte>
    var eof: bool                 // the last read was short
    var endOfBuffer: nat
    var drops: seq<nat>           // sizes passed to the reporter

    /** The buffer is what is left of the last read, which was of a whole block unless the end was met. */
    predicate Valid()
      reads this`buffer, this`eof, this`endOfBuffer
    {
      && |buffer| <= endOfBuffer <= |file| && buffer == file[endOfBuffer - |buffer|..endOfBuffer]
      && if eof then endOfBuffer == |file| && |buffer| <= |file| % BLOCK
         else endOfBuffer % BLOCK == 0 && |buffer| <= BLOCK
    }

    function Position(): (p: nat)
      requires Valid()
      reads this`buffer, this`eof, this`endOfBuffer
      ensures p <= |file|
    {
      endOfBuffer - |buffer|
    }

    constructor (crc: Checksum, file: seq<byte>)
      ensures Valid() && this.crc == crc && this.file == file && Position() == 0 && drops == []
    {
      this.crc, this.file, buffer, eof, endOfBuffer, drops := crc, file, [], false, 0, [];
    }

    /** What is parsed is the rest of the block the position is in. */
    lemma BufferIsBlock()
      requires Valid() && |buffer| >= HEADER
      ensures ReadPhysical(crc, file, Position()) == Parse(crc, file, Position(), endOfBuffer, !eof)
    {
      if eof {
        LastBlock(Position(), |file|);
      } else {
        FullBlock(Position(), endOfBuffer);
      }
    }

    /** A trailer is skipped; too little at the end of the file is the end. */
    lemma ShortBuffer()
      requires Valid() && |buffer| < HEADER
      ensures ReadPhysical(crc, file, Position()) ==
        if eof then Seen(Eof, |file|) else ReadPhysical(crc, file, endOfBuffer)
    {
      if eof {
        LastBlock(Position(), |file|);
      } else if |buffer| > 0 {
        FullBlock(Position(), endOfBuffer);
      }
    }

    /** file_->Read: a block, short only at the end of the file. */
    method Fill()
      requires Valid() && !eof && |buffer| < HEADER
      modifies this
      ensures Valid() && drops == old(drops)
      ensures Position() == old(endOfBuffer) && (eof || |buffer| == BLOCK) &&
        (eof <==> |file| < old(endOfBuffer) + BLOCK)
    {
      BlockSteps(endOfBuffer, |file|);
      var end := if endOfBuffer + BLOCK < |file| then endOfBuffer + BLOCK else |file|;
      buffer := file[endOfBuffer..end];
      endOfBuffer := end;
      if |buffer| < BLOCK {
        eof := true;
      }
    }

    method ReadPhysicalRecord() returns (event: Event)
      requires Valid()
      modifies this
      ensures Valid()
      ensures Seen(event, Position()) == ReadPhysical(crc, file, old(Position()))
      ensures drops == Report(old(drops), if event.Bad? then event.dropped else None)
    {
      hide ReadPhysical, Parse;
      while |buffer| < HEADER
        invariant Valid() && drops == old(drops)
        invariant ReadPhysical(crc, file, Position()) == ReadPhysical(crc, file, old(Position()))
        decreases !eof, |file| - endOfBuffer
      {
        ShortBuffer();
        if !eof {
          Fill();
        } else {
          buffer := [];
          return Eof;
        }
      }
      BufferIsBlock();
      event := ParseHeader();
    }

    /** The rest of ReadPhysicalRecord: the header and what follows it. */
    method ParseHeader() returns (event: Event)
      requires Valid() && |buffer| >= HEADER
      modifies this
      ensures Valid()
      ensures Seen(event, Position()) == Parse(crc, file, old(Position()), old(endOfBuffer), !old(eof))
      ensures drops == Report(old(drops), if event.Bad? then event.dropped else None)
    {
      hide DecodeFixed, Stored, Length;
      assert forall i :: 0 <= i < |buffer| ==> buffer[i] == file[Position() + i];
      var length := Length(buffer[4], buffer[5]);
      var kind := buffer[6];
      if HEADER + length > |buffer| {
        var dropSize := |buffer|;
        buffer := [];
        if !eof {
          drops := drops + [dropSize];
          return Bad(Some(dropSize));
        }
        return Eof;
      }
      if kind == 0 && length == 0 {
        buffer := [];
        return Bad(None);
      }
      assert buffer[..4] == file[Position()..Position() + 4];
      assert buffer[HEADER..HEADER + length] == file[Position() + HEADER..Position() + HEADER + length];
      if DecodeFixed(buffer[..4]) != Stored(crc, kind, buffer[HEADER..HEADER + length]) {
        var dropSize := |buffer|;
        buffer := [];
        drops := drops + [dropSize];
        return Bad(Some(dropSize));
      }
      event := Fragment(kind, buffer[HEADER..HEADER + length]);
      buffer := buffer[HEADER + length..];
    }

    /** The next record of the file, whatever its bytes. */
    method ReadRecord() returns (record: Option<seq<byte>>)
      requires Valid()
      modifies this
      ensures Valid() && Outcome(record, Position(), drops) == NextRecord(crc, file, old(Position()), None, old(drops))
    {
      hide ReadPhysical, Unfinished, Collected, Valid, Position;
      var scratch: Option<seq<byte>> := None;
      while true
        invariant Valid()
        invariant NextRecord(crc, file, Position(), scratch, drops) ==
          NextRecord(crc, file, old(Position()), None, old(drops))
        decreases |file| - Position()
      {
        var event := ReadPhysicalRecord();
        match event
        case Eof => return None;
        case Bad(dropped) =>
          if scratch.Some? {
            drops := drops + [|scratch.value|];
            scratch := None;
          }
        case Fragment(kind, data) =>
          if kind == FULL {
            drops := Report(drops, Unfinished(scratch));
            return Some(data);
          } else if kind == FIRST {
            drops := Report(drops, Unfinished(scratch));
            scratch := Some(data);
          } else if kind == MIDDLE {
            if scratch.None? {
              drops := drops + [|data|];
            } else {
              scratch := Some(scratch.value + data);
            }
          } else if kind == LAST {
            if scratch.None? {
              drops := drops + [|data|];
            } else {
              return Some(scratch.value + data);
            }
          } else if kind == EOF_TYPE {
            return None;
          } else if kind == BAD_TYPE {
            if scratch.Some? {
              drops := drops + [|scratch.value|];
              scratch := None;
            }
          } else {
            drops := drops + [|data| + |Collected(scratch)|];
            scratch := None;
          }
      }
    }
  }

  // ----- reading what was written -----

  /** Where the first fragment of a record starting at `p` begins and ends, and how much of the record it holds. */
  function FragmentStart(p: nat): (q: nat)
    ensures p <= q && Left(q) >= HEADER && (Left(p) >= HEADER ==> q == p)
  {
    if Left(p) < HEADER then p + Left(p) else p
  }

  lemma ParsesChunk(crc: Checksum, full: seq<byte>, n: nat, q: nat, end: nat, whole: bool, kind: byte, data: seq<byte>)
    requires kind != 0 && |data| < 0x1_0000 && q + HEADER <= end <= n <= |full|
    requires q + HEADER + |data| <= |full| && full[q..q + HEADER + |data|] == Chunk(crc, kind, data)
    requires whole ==> q + HEADER + |data| <= end
    ensures Parse(crc, full[..n], q, end, whole) ==
            if q + HEADER + |data| <= end then Seen(Fragment(kind, data), q + HEADER + |data|) else Seen(Eof, end)
  {
    var chunk := Chunk(crc, kind, data);
    var file := full[..n];
    var length := HEADER + |data|;
    forall i | 0 <= i < HEADER ensures file[q + i] == chunk[i] {
      assert full[q..q + length][i] == full[q + i];
    }
    assert chunk[4] == |data| % 256 && chunk[5] == |data| / 256 && chunk[6] == kind;
    if q + HEADER + |data| <= end {
      assert file[q + HEADER..q + HEADER + |data|] == full[q..q + HEADER + |data|][HEADER..] == data;
      assert file[q..q + 4] == chunk[..4] == Fixed(Stored(crc, kind, data), 4);
      Powers();
      FixedRoundTrip(Stored(crc, kind, data), 4);
    }
  }

  /** The fragment of a record starting at `p`: where it begins, how much of the record it holds and where it ends. */
  datatype First = First(start: nat, size: nat, end: nat)

  function FirstOf(p: nat, data: seq<byte>): First {
    var q := FragmentStart(p);
    var n := FragmentLength(q, data);
    First(q, n, q + HEADER + n)
  }

  /** The written bytes from `p` on are the filler, the first fragment and the rest. */
  lemma FragmentInFile(crc: Checksum, full: seq<byte>, p: nat, data: seq<byte>, begin: bool, rest: seq<byte>)
    requires p <= |full| && full[p..] == Encode(crc, p, data, begin) + rest
    ensures
      var f := FirstOf(p, data);
      && f.end <= |full| && full[f.start..f.end] == Chunk(crc, Kind(begin, f.size == |data|), data[..f.size])
      && full[f.end..] == (if f.size == |data| then rest else Encode(crc, f.end, data[f.size..], false) + rest)
      && p + |Encode(crc, p, data, begin)| ==
        (if f.size == |data| then f.end else f.end + |Encode(crc, f.end, data[f.size..], false)|)
  {
    hide Encode, Chunk, Zeros, FragmentLength;
    var f := FirstOf(p, data);
    var chunk := Chunk(crc, Kind(begin, f.size == |data|), data[..f.size]);
    var more := if f.size == |data| then [] else Encode(crc, f.end, data[f.size..], false);
    var filler := Zeros(f.start - p);
    EncodeIsSplit(crc, p, data, begin);
    SplitsInFile(full, p, filler, chunk, more, rest);
  }

  lemma EncodeIsSplit(crc: Checksum, p: nat, data: seq<byte>, begin: bool)
    ensures
      var f := FirstOf(p, data);
      Encode(crc, p, data, begin) ==
        Zeros(f.start - p) + (Chunk(crc, Kind(begin, f.size == |data|), data[..f.size]) +
                              if f.size == |data| then [] else Encode(crc, f.end, data[f.size..], false))
  {
    hide Encode, Chunk, FragmentLength;
    var f := FirstOf(p, data);
    EncodeStarts(crc, f.start, data, begin);
    if Left(p) < HEADER {
      EncodeSkips(crc, p, data, begin);
    } else {
      NoFiller(Encode(crc, p, data, begin));
    }
  }

  lemma NoFiller(s: seq<byte>)
    ensures Zeros(0) + s == s
  {
  }

  lemma SplitsInFile(full: seq<byte>, p: nat, filler: seq<byte>, chunk: seq<byte>, more: seq<byte>, rest: seq<byte>)
    requires p <= |full| && full[p..] == filler + (chunk + more) + rest
    ensures
      var q := p + |filler|;
      q + |chunk| <= |full| && full[q..q + |chunk|] == chunk && full[q + |chunk|..] == more + rest
  {
    var q := p + |filler|;
    assert |full| - p == |filler| + |chunk| + |more| + |rest|;
    assert full[q..q + |chunk|] == full[p..][|filler|..|filler| + |chunk|];
    assert full[q + |chunk|..] == full[p..][|filler| + |chunk|..];
  }

  /** Too little of a block for a header is skipped, or is the end of the file. */
  lemma SkipsToFragment(crc: Checksum, file: seq<byte>, p: nat, start: nat)
    requires p <= |file| && (start == p || (start == BlockEnd(p) && start - p < HEADER))
    ensures if start <= |file| then ReadPhysical(crc, file, p) == ReadPhysical(crc, file, start)
            else ReadPhysical(crc, file, p).event == Eof
  {
    hide Parse;
  }

  /** Reading the first fragment from the first `n` bytes of the file: it is found, or the end is reported. */
  lemma ReadsFragment(crc: Checksum, full: seq<byte>, n: nat, p: nat, data: seq<byte>, begin: bool, rest: seq<byte>)
    requires p <= n <= |full| && full[p..] == Encode(crc, p, data, begin) + rest
    ensures
      var f := FirstOf(p, data);
      if f.end <= n then
        ReadPhysical(crc, full[..n], p) == Seen(Fragment(Kind(begin, f.size == |data|), data[..f.size]), f.end)
      else ReadPhysical(crc, full[..n], p).event == Eof
  {
    hide FirstOf, Kind, BlockEnd, Encode, Chunk, ReadPhysical;
    var f := FirstOf(p, data);
    FragmentInFile(crc, full, p, data, begin, rest);
    FirstFits(p, data);
    SkipsToFragment(crc, full[..n], p, f.start);
    if f.start <= n {
      KindIsNotZero(begin, f.size == |data|);
      ReadsChunk(crc, full, n, f.start, Kind(begin, f.size == |data|), data[..f.size]);
    }
  }

  /** The first fragment starts at once, or in the next block when no header fits, and stays within its block. */
  lemma FirstFits(p: nat, data: seq<byte>)
    ensures
      var f := FirstOf(p, data);
      && (f.start == p || (f.start == BlockEnd(p) && f.start - p < HEADER))
      && f.size <= |data| && f.size < 0x1_0000 && f.end == f.start + HEADER + f.size <= BlockEnd(f.start)
  {
    var f := FirstOf(p, data);
    assert BlockEnd(p) - p == Left(p) && BlockEnd(f.start) - f.start == Left(f.start);
  }

  lemma KindIsNotZero(begin: bool, end: bool)
    ensures Kind(begin, end) != 0
  {
  }

  /** A chunk within its block is read from the first `n` bytes of the file if it is in them. */
  lemma ReadsChunk(crc: Checksum, full: seq<byte>, n: nat, q: nat, kind: byte, data: seq<byte>)
    requires kind != 0 && |data| < 0x1_0000 && q <= n <= |full| && q + HEADER + |data| <= |full|
    requires full[q..q + HEADER + |data|] == Chunk(crc, kind, data) && q + HEADER + |data| <= BlockEnd(q)
    ensures
      var end := q + HEADER + |data|;
      if end <= n then ReadPhysical(crc, full[..n], q) == Seen(Fragment(kind, data), end)
      else ReadPhysical(crc, full[..n], q).event == Eof
  {
    hide Chunk, Parse;
    var end := BlockEnd(q);
    if end <= n {
      ParsesChunk(crc, full, n, q, end, true, kind, data);
    } else if n - q >= HEADER {
      ParsesChunk(crc, full, n, q, n, false, kind, data);
    }
  }

  /** A record is read back if all of it is there; otherwise the reader stops at the end without complaint. */
  lemma {:induction false} ReadsRecord(crc: Checksum, full: seq<byte>, n: nat, p: nat, data: seq<byte>,
                                       scratch: Option<seq<byte>>,
                                       rest: seq<byte>, drops: seq<nat>)
    requires p <= n <= |full| && full[p..] == Encode(crc, p, data, scratch.None?) + rest
    ensures
      var end := p + |Encode(crc, p, data, scratch.None?)|;
      var o := NextRecord(crc, full[..n], p, scratch, drops);
      && o.drops == drops
      && (if end <= n then o.record == Some(Collected(scratch) + data) && o.at == end else o.record == None)
    decreases |full| - p
  {
    hide Encode, ReadPhysical, FirstOf, NextRecord, Kind;
    var f := FirstOf(p, data);
    FragmentInFile(crc, full, p, data, scratch.None?, rest);
    ReadsFragment(crc, full, n, p, data, scratch.None?, rest);
    FragmentEnds(p, data);
    if f.end <= n {
      FragmentStep(crc, full[..n], p, scratch, drops, data[..f.size], f.size < |data|, f.end);
      if f.size == |data| {
        assert data[..f.size] == data;
      } else {
        var got := Collected(scratch) + data[..f.size];
        ReadsRecord(crc, full, n, f.end, data[f.size..], Some(got), rest, drops);
        assert got + data[f.size..] == Collected(scratch) + data;
      }
    } else {
      EndStep(crc, full[..n], p, scratch, drops);
    }
  }

  lemma FragmentStep(crc: Checksum, file: seq<byte>, p: nat, scratch: Option<seq<byte>>, drops: seq<nat>,
                     data: seq<byte>, more: bool, at: nat)
    requires p <= |file| && ReadPhysical(crc, file, p) == Seen(Fragment(Kind(scratch.None?, !more), data), at)
    ensures at <= |file| && NextRecord(crc, file, p, scratch, drops) ==
            if more then NextRecord(crc, file, at, Some(Collected(scratch) + data), drops)
            else Outcome(Some(Collected(scratch) + data), at, drops)
  {
    assert [] + data == data;
  }

  lemma EndStep(crc: Checksum, file: seq<byte>, p: nat, scratch: Option<seq<byte>>, drops: seq<nat>)
    requires p <= |file| && ReadPhysical(crc, file, p).event == Eof
    ensures NextRecord(crc, file, p, scratch, drops) == Outcome(None, ReadPhysical(crc, file, p).at, drops)
  {
  }

  lemma FragmentEnds(p: nat, data: seq<byte>)
    ensures FirstOf(p, data).end > p && FirstOf(p, data).size <= |data|
  {
  }

  /** How many of the records appended from position `p` on lie wholly within the first `n` bytes. */
  function Complete(crc: Checksum, p: nat, records: seq<seq<byte>>, n: nat): (k: nat)
    ensures k <= |records|
    decreases |records|
  {
    if records == [] then 0
    else
      var end := p + |Encode(crc, p, records[0], true)|;
      if end <= n then 1 + Complete(crc, end, records[1..], n) else 0
  }

  /**
   Crash prefix: from any prefix of a log, reading returns exactly the records wholly inside it, in order, and reports
   no corruption.
   */
  lemma {:induction false} PrefixReadsBack(crc: Checksum, full: seq<byte>, n: nat, p: nat, records: seq<seq<byte>>)
    requires p <= n <= |full| && full[p..] == EncodeAll(crc, p, records)
    ensures ReadAll(crc, full[..n], p) == Contents(records[..Complete(crc, p, records, n)], [])
    decreases |records|
  {
    hide Encode, NextRecord, ReadPhysical;
    if records == [] {
      NothingThere(crc, full[..n], p);
    } else {
      var s := Encode(crc, p, records[0], true);
      var end := p + |s|;
      var rest := EncodeAll(crc, end, records[1..]);
      ReadsRecord(crc, full, n, p, records[0], None, rest, []);
      if end <= n {
        TailInFile(full, p, s, rest);
        PrefixReadsBack(crc, full, n, end, records[1..]);
        var k := Complete(crc, end, records[1..], n);
        assert records[..k + 1] == [records[0]] + records[1..][..k];
        assert Collected(None) + records[0] == records[0];
      }
    }
  }

  lemma TailInFile(full: seq<byte>, p: nat, s: seq<byte>, rest: seq<byte>)
    requires p <= |full| && full[p..] == s + rest
    ensures p + |s| <= |full| && full[p + |s|..] == rest
  {
    assert full[p + |s|..] == full[p..][|s|..];
  }

  lemma NothingThere(crc: Checksum, file: seq<byte>, p: nat)
    requires p == |file|
    ensures NextRecord(crc, file, p, None, []) == Outcome(None, p, [])
  {
    assert BlockEnd(p) > p;
  }

  lemma {:induction false} AllComplete(crc: Checksum, p: nat, records: seq<seq<byte>>)
    ensures Complete(crc, p, records, p + |EncodeAll(crc, p, records)|) == |records|
    decreases |records|
  {
    if records != [] {
      AllComplete(crc, p + |Encode(crc, p, records[0], true)|, records[1..]);
    }
  }

  /** Round trip: a log written from the start of a file, by any number of writers, reads back as it was written. */
  lemma LogRoundTrip(crc: Checksum, records: seq<seq<byte>>)
    ensures ReadAll(crc, EncodeAll(crc, 0, records), 0) == Contents(records, [])
  {
    hide Encode, EncodeAll, Complete, ReadAll;
    var full := EncodeAll(crc, 0, records);
    AllComplete(crc, 0, records);
    PrefixReadsBack(crc, full, |full|, 0, records);
    assert full[..|full|] == full && records[..|records|] == records;
  }
}
