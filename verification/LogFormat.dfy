/**
 The log file format (db/log_writer.cc, db/log_reader.cc): records cut into fragments that never cross a 32 KiB block,
 and the reader that puts them together again from any file, whole, cut short or damaged.
 */
module LogFormat {
  import opened ByteKeys
  import opened Coding

  const BLOCK: nat := 32768
  const HEADER: nat := 7
  const FULL: byte := 1
  const FIRST: byte := 2
  const MIDDLE: byte := 3
  const LAST: byte := 4

  /** The masked checksum of type and payload, as stored. */
  type Checksum = seq<byte> -> nat

  function Stored(crc: Checksum, kind: byte, data: seq<byte>): nat {
    crc([kind] + data) % TWO_32
  }

  function Chunk(crc: Checksum, kind: byte, data: seq<byte>): (s: seq<byte>)
    requires |data| < 0x1_0000
    ensures |s| == HEADER + |data|
  {
    Fixed(Stored(crc, kind, data), 4) + [|data| % 256, |data| / 256, kind] + data
  }

  // ----- writing -----

  /** Bytes left in the block that position `pos` is in. */
  function Left(pos: nat): (left: nat)
    ensures 0 < left <= BLOCK
  {
    BLOCK - pos % BLOCK
  }

  function Kind(begin: bool, end: bool): byte {
    if begin && end then FULL else if begin then FIRST else if end then LAST else MIDDLE
  }

  function Zeros(n: nat): (s: seq<byte>)
    ensures |s| == n
  {
    seq(n, _ => 0)
  }

  function FragmentLength(pos: nat, data: seq<byte>): (n: nat)
    requires Left(pos) >= HEADER
    ensures n <= |data| && n <= Left(pos) - HEADER && n < 0x1_0000
  {
    if |data| < Left(pos) - HEADER then |data| else Left(pos) - HEADER
  }

  function Turn(pos: nat): nat {
    if Left(pos) < HEADER then 1 else if Left(pos) == HEADER then 2 else 0
  }

  /** What a record becomes when it is appended to a file of length `pos`. */
  function Encode(crc: Checksum, pos: nat, data: seq<byte>, begin: bool): (s: seq<byte>)
    ensures |s| >= HEADER
    decreases |data|, Turn(pos)
  {
    if Left(pos) < HEADER then
      Zeros(Left(pos)) + Encode(crc, pos + Left(pos), data, begin)
    else
      var n := FragmentLength(pos, data);
      Chunk(crc, Kind(begin, n == |data|), data[..n]) +
      if n == |data| then [] else Encode(crc, pos + HEADER + n, data[n..], false)
  }

  function EncodeAll(crc: Checksum, pos: nat, records: seq<seq<byte>>): seq<byte>
    decreases |records|
  {
    if records == [] then []
    else
      var s := Encode(crc, pos, records[0], true);
      s + EncodeAll(crc, pos + |s|, records[1..])
  }

  /** A record that starts in a trailer starts in the next block, after filler. */
  lemma EncodeSkips(crc: Checksum, pos: nat, data: seq<byte>, begin: bool)
    requires Left(pos) < HEADER
    ensures Encode(crc, pos, data, begin) == Zeros(Left(pos)) + Encode(crc, pos + Left(pos), data, begin)
    ensures Left(pos + Left(pos)) == BLOCK && Turn(pos + Left(pos)) < Turn(pos)
  {
  }

  /** Otherwise the first fragment comes first. */
  lemma EncodeStarts(crc: Checksum, pos: nat, data: seq<byte>, begin: bool)
    requires Left(pos) >= HEADER
    ensures
      var n := FragmentLength(pos, data);
      && Encode(crc, pos, data, begin) == Chunk(crc, Kind(begin, n == |data|), data[..n]) +
           (if n == |data| then [] else Encode(crc, pos + HEADER + n, data[n..], false))
      && (n == 0 < |data| ==> Turn(pos + HEADER) < Turn(pos))
  {
  }

  lemma SameOffset(a: nat, b: nat, n: nat)
    requires a % BLOCK == b % BLOCK
    ensures (a + n) % BLOCK == (b + n) % BLOCK
  {
  }

  lemma Joined(a: seq<byte>, b: seq<byte>, c: seq<byte>)
    ensures a + (b + c) == a + b + c
  {
  }

  lemma {:induction false} EncodeAllAppend(crc: Checksum, pos: nat, records: seq<seq<byte>>, r: seq<byte>)
    ensures EncodeAll(crc, pos, records + [r]) ==
            EncodeAll(crc, pos, records) + Encode(crc, pos + |EncodeAll(crc, pos, records)|, r, true)
    decreases |records|
  {
    hide Encode;
    if records == [] {
      assert [r][1..] == [];
    } else {
      var s := Encode(crc, pos, records[0], true);
      EncodeAllAppend(crc, pos + |s|, records[1..], r);
      assert (records + [r])[1..] == records[1..] + [r];
    }
  }

  class Writer {
    const crc: Checksum
    var dest: seq<byte>          // the file
    var blockOffset: nat

    /** The offset is the file's length within its block; a full block may still be current. */
    predicate Valid()
      reads this
    {
      blockOffset <= BLOCK && blockOffset % BLOCK == |dest| % BLOCK
    }

    /** For a new file or one reopened at its length. */
    constructor (crc: Checksum, dest: seq<byte>)
      ensures Valid() && this.crc == crc && this.dest == dest
    {
      this.crc, this.dest, blockOffset := crc, dest, |dest| % BLOCK;
    }

    method AddRecord(data: seq<byte>)
      requires Valid()
      modifies this
      ensures Valid() && dest == old(dest) + Encode(crc, |old(dest)|, data, true)
    {
      hide Encode, Chunk, Zeros, Turn;
      var rest, begin, more := data, true, true;
      ghost var goal := dest + Encode(crc, |dest|, data, true);
      while more
        invariant Valid() && dest + (if more then Encode(crc, |dest|, rest, begin) else []) == goal
        decreases more, |rest|, Turn(|dest|)
      {
        SwitchBlock(rest, begin);
        EncodeStarts(crc, |dest|, rest, begin);
        var available := BLOCK - blockOffset - HEADER;
        var length := if |rest| < available then |rest| else available;
        var end := |rest| == length;
        Joined(dest, Chunk(crc, Kind(begin, end), rest[..length]),
               if end then [] else Encode(crc, |dest| + HEADER + length, rest[length..], false));
        EmitPhysicalRecord(Kind(begin, end), rest[..length]);
        rest, begin, more := rest[length..], false, !end;
      }
    }

    /** Fills a trailer too short for a header and moves to the next block. */
    method SwitchBlock(ghost data: seq<byte>, ghost begin: bool)
      requires Valid()
      modifies this
      ensures Valid() && Left(|dest|) == BLOCK - blockOffset && Left(|dest|) >= HEADER &&
        Turn(|dest|) <= old(Turn(|dest|))
      ensures dest + Encode(crc, |dest|, data, begin) == old(dest) + Encode(crc, |old(dest)|, data, begin)
    {
      hide Encode, Zeros;
      var leftover := BLOCK - blockOffset;
      if leftover < HEADER {
        if leftover > 0 {
          EncodeSkips(crc, |dest|, data, begin);
          Joined(dest, Zeros(leftover), Encode(crc, |dest| + leftover, data, begin));
          dest := dest + Zeros(leftover);
        }
        blockOffset := 0;
      }
    }

    method EmitPhysicalRecord(kind: byte, data: seq<byte>)
      requires Valid() && |data| <= 0xffff && blockOffset + HEADER + |data| <= BLOCK
      modifies this
      ensures Valid() && dest == old(dest) + Chunk(crc, kind, data) && blockOffset == old(blockOffset) + HEADER + |data|
    {
      hide Stored, Fixed;
      SameOffset(blockOffset, |dest|, HEADER + |data|);
      dest := dest + Fixed(Stored(crc, kind, data), 4) + [|data| % 256, |data| / 256, kind];
      dest := dest + data;
      blockOffset := blockOffset + HEADER + |data|;
    }
  }
}
