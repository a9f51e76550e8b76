/**
 nanopb's encoder (pb_encode.c) as it writes: to a stream with room for so many bytes, or to one that only counts, which
 is how the size of a submessage or a packed array is known before its first byte is sent.
 */
module PbEncode {
  import opened ByteKeys
  import opened Coding
  import opened PbMessages

  /** A stream at one moment. */
  datatype Contents = Contents(sizing: bool, maxSize: nat, written: nat, bytes: seq<byte>)

  /**
   What encoding `s` does to a stream: it succeeds exactly if the whole of `s` fits; a counting stream always has room,
   and counts exactly what the other would be sent.
   */
  predicate Wrote(before: Contents, after: Contents, s: seq<byte>, ok: bool) {
    && after.sizing == before.sizing && after.maxSize == before.maxSize && before.bytes <= after.bytes
    && ok == (before.sizing || before.written + |s| <= before.maxSize)
    && (ok ==> after.written == before.written + |s|)
    && (ok ==> after.bytes == if before.sizing then before.bytes else before.bytes + s)
  }

  lemma WroteBoth(a: Contents, b: Contents, c: Contents, s: seq<byte>, t: seq<byte>, ok: bool)
    requires Wrote(a, b, s, true) && Wrote(b, c, t, ok)
    ensures Wrote(a, c, s + t, ok)
  {
    assert a.bytes + s + t == a.bytes + (s + t);
  }

  lemma WroteNeither(a: Contents, b: Contents, s: seq<byte>, t: seq<byte>)
    requires Wrote(a, b, s, false)
    ensures Wrote(a, b, s + t, false)
  {
  }

  lemma WroteNothing(a: Contents)
    requires a.sizing || a.written <= a.maxSize
    ensures Wrote(a, a, [], true)
  {
  }

  class OStream {
    const sizing: bool         // no callback: bytes are counted, not written
    const maxSize: nat
    var written: nat
    var bytes: seq<byte>

    predicate Valid()
      reads this
    {
      !sizing ==> written == |bytes| <= maxSize
    }

    function Now(): Contents
      reads this
    {
      Contents(sizing, maxSize, written, bytes)
    }

    constructor Sizing()
      ensures Valid() && Now() == Contents(true, 0, 0, [])
    {
      sizing, maxSize, written, bytes := true, 0, 0, [];
    }

    constructor Writing(maxSize: nat)
      ensures Valid() && Now() == Contents(false, maxSize, 0, [])
    {
      sizing, this.maxSize, written, bytes := false, maxSize, 0, [];
    }

    /** pb_write with data. */
    method Write(s: seq<byte>) returns (ok: bool)
      requires Valid()
      modifies this
      ensures Valid() && Wrote(old(Now()), Now(), s, ok)
    {
      if |s| > 0 && !sizing {
        if written + |s| > maxSize {
          return false;
        }
        bytes := bytes + s;
      }
      written := written + |s|;
      return true;
    }

    /** pb_write without data: only counting. */
    method Count(ghost s: seq<byte>, n: nat)
      requires Valid() && sizing && n == |s|
      modifies this
      ensures Valid() && Wrote(old(Now()), Now(), s, true)
    {
      written := written + n;
    }

    /** The substream of a submessage shares the callback: what it wrote is in the stream. */
    method Absorb(substream: OStream)
      requires Valid() && substream.Valid() && !sizing && !substream.sizing && written + substream.written <= maxSize
      modifies this
      ensures Valid() && Wrote(old(Now()), Now(), old(substream.bytes), true)
    {
      bytes, written := bytes + substream.bytes, written + substream.written;
    }
  }

  /** pb_encode_varint's buffer: seven bits a byte, the top bit taken off the last. */
  method VarintBytes(value: nat) returns (buffer: seq<byte>)
    ensures buffer == Varint(value)
  {
    if value <= 0x7f {
      return [value];
    }
    buffer := [];
    var v := value;
    while v > 0
      invariant v == value ==> buffer == []
      invariant v > 0 ==> buffer + Varint(v) == Varint(value)
      invariant v == 0 ==>
        buffer != [] && buffer[|buffer| - 1] >= 128 &&
        buffer[..|buffer| - 1] + [buffer[|buffer| - 1] - 128] == Varint(value)
    {
      ghost var was := buffer;
      buffer := buffer + [v % 128 + 128];
      v := v / 128;
      assert buffer[..|buffer| - 1] == was;
      assert was + ([buffer[|buffer| - 1]] + Varint(v)) == buffer + Varint(v);
    }
    buffer := buffer[|buffer| - 1 := buffer[|buffer| - 1] - 128];
    assert buffer == buffer[..|buffer| - 1] + [buffer[|buffer| - 1]];
  }

  method EncodeVarint(stream: OStream, value: nat) returns (ok: bool)
    requires stream.Valid()
    modifies stream
    ensures stream.Valid() && Wrote(old(stream.Now()), stream.Now(), Varint(value), ok)
  {
    var buffer := VarintBytes(value);
    ok := stream.Write(buffer);
  }

  /** pb_encode_string: a length and the bytes. */
  method EncodeString(stream: OStream, s: seq<byte>) returns (ok: bool)
    requires stream.Valid()
    modifies stream
    ensures stream.Valid() && Wrote(old(stream.Now()), stream.Now(), Delimited(s), ok)
  {
    hide Varint, Wrote;
    ghost var a := stream.Now();
    ok := EncodeVarint(stream, |s|);
    if !ok {
      WroteNeither(a, stream.Now(), Varint(|s|), s);
      return;
    }
    ghost var b := stream.Now();
    ok := stream.Write(s);
    WroteBoth(a, b, stream.Now(), Varint(|s|), s, ok);
  }

  /** The field encoders. */
  method Encode(stream: OStream, t: LType, v: Value) returns (ok: bool)
    requires stream.Valid() && TypeOk(t) && ValueOk(t, v)
    modifies stream
    ensures stream.Valid() && Wrote(old(stream.Now()), stream.Now(), EncodeValue(t, v), ok)
    decreases t, 0, 0
  {
    hide Wrote, Varint, Fixed;
    match t
    case SubmessageT(fields) => ok := EncodeSubmessage(stream, fields, v.slots);
    case BytesT(_) => ok := EncodeString(stream, v.bytes);
    case StringT(_) => ok := EncodeString(stream, v.bytes);
    case FixedBytesT(_) => ok := EncodeString(stream, v.bytes);
    case Fixed32T => ok := stream.Write(Fixed(v.n, 4));
    case Fixed64T => ok := stream.Write(Fixed(v.n, 8));
    case SVarintT(_) => ok := EncodeVarint(stream, Zigzag(v.n));
    case VarintT(_) => ok := EncodeVarint(stream, if v.n < 0 then v.n + TWO_64 else v.n);
    case BoolT => ok := EncodeVarint(stream, v.n);
    case UVarintT(_) => ok := EncodeVarint(stream, v.n);
  }

  /** Once to learn the size, once to write; the second pass may not write a different number of bytes. */
  method EncodeSubmessage(stream: OStream, fields: seq<Field>, slots: seq<Slot>) returns (ok: bool)
    requires stream.Valid() && SchemaOk(fields) && MessageOk(fields, slots)
    modifies stream
    ensures stream.Valid() && Wrote(old(stream.Now()), stream.Now(), Delimited(EncodeFrom(fields, slots, 0)), ok)
    decreases fields, 1, 0
  {
    hide Varint, EncodeFrom, SchemaOk, MessageOk;
    ghost var body, a := EncodeFrom(fields, slots, 0), stream.Now();
    var counter := new OStream.Sizing();
    ok := EncodeMessage(counter, fields, slots);
    var size := counter.written;
    ok := EncodeVarint(stream, size);
    ghost var b := stream.Now();
    if !ok {
      WroteNeither(a, b, Varint(size), body);
      return;
    }
    if stream.sizing {
      stream.Count(body, size);
      WroteBoth(a, b, stream.Now(), Varint(size), body, true);
      return;
    }
    if stream.written + size > stream.maxSize {
      return false;
    }
    var substream := new OStream.Writing(size);
    var status := EncodeMessage(substream, fields, slots);
    stream.Absorb(substream);
    WroteBoth(a, b, stream.Now(), Varint(size), body, true);
    ok := status && substream.written == size;
  }

  /** pb_encode: the fields in order. */
  method EncodeMessage(stream: OStream, fields: seq<Field>, slots: seq<Slot>) returns (ok: bool)
    requires stream.Valid() && SchemaOk(fields) && MessageOk(fields, slots)
    modifies stream
    ensures stream.Valid() && Wrote(old(stream.Now()), stream.Now(), EncodeFrom(fields, slots, 0), ok)
    decreases fields, 0, 0
  {
    hide Wrote, EncodeField;
    ghost var whole, done, a := EncodeFrom(fields, slots, 0), [], stream.Now();
    StartsEmpty(stream);
    assert [] + whole == whole;
    for k := 0 to |fields|
      invariant stream.Valid() && done + EncodeFrom(fields, slots, k) == whole && Wrote(a, stream.Now(), done, true)
    {
      assert FieldOk(fields[k]) && SlotOk(fields[k], slots[k]);
      ghost var b, next := stream.Now(), EncodeField(fields[k], slots[k]);
      assert done + (next + EncodeFrom(fields, slots, k + 1)) == done + next + EncodeFrom(fields, slots, k + 1);
      ok := EncodeOneField(stream, fields[k], slots[k]);
      WroteBoth(a, b, stream.Now(), done, next, ok);
      if !ok {
        WroteNeither(a, stream.Now(), done + next, EncodeFrom(fields, slots, k + 1));
        return;
      }
      done := done + next;
    }
    assert done + [] == done;
    ok := true;
  }

  lemma StartsEmpty(stream: OStream)
    requires stream.Valid()
    ensures Wrote(stream.Now(), stream.Now(), [], true)
  {
    WroteNothing(stream.Now());
  }

  /** encode_basic_field. */
  method EncodeOneField(stream: OStream, f: Field, slot: Slot) returns (ok: bool)
    requires stream.Valid() && FieldOk(f) && SlotOk(f, slot)
    modifies stream
    ensures stream.Valid() && Wrote(old(stream.Now()), stream.Now(), EncodeField(f, slot), ok)
    decreases f, 0, 0
  {
    hide Wrote, Varint;
    if slot.Many? {
      ok := EncodeAnArray(stream, f.tag, f.ltype, slot.values);
    } else if Sent(f, slot) {
      ok := EncodeTagged(stream, f.tag, f.ltype, slot.value);
    } else {
      StartsEmpty(stream);
      ok := true;
    }
  }

  /** A tag and a value. */
  method EncodeTagged(stream: OStream, tag: nat, t: LType, v: Value) returns (ok: bool)
    requires stream.Valid() && TypeOk(t) && ValueOk(t, v)
    modifies stream
    ensures stream.Valid() && Wrote(old(stream.Now()), stream.Now(), Tag(WireType(t), tag) + EncodeValue(t, v), ok)
    decreases t, 1, 0
  {
    hide Wrote, Varint, EncodeValue;
    ghost var a := stream.Now();
    ok := EncodeVarint(stream, tag * 8 + WireType(t));
    ghost var b := stream.Now();
    if !ok {
      WroteNeither(a, b, Tag(WireType(t), tag), EncodeValue(t, v));
      return;
    }
    ok := Encode(stream, t, v);
    WroteBoth(a, b, stream.Now(), Tag(WireType(t), tag), EncodeValue(t, v), ok);
  }

  /** encode_array. */
  method EncodeAnArray(stream: OStream, tag: nat, t: LType, values: seq<Value>) returns (ok: bool)
    requires stream.Valid() && TypeOk(t) && forall i :: 0 <= i < |values| ==> ValueOk(t, values[i])
    modifies stream
    ensures stream.Valid() && Wrote(old(stream.Now()), stream.Now(), EncodeArray(tag, t, values), ok)
    decreases t, 3, 0
  {
    hide Wrote, Varint, EncodeValues, EncodeEach;
    if |values| == 0 {
      StartsEmpty(stream);
      ok := true;
    } else if Packable(t) {
      ghost var a, body := stream.Now(), EncodeValues(t, values);
      ok := EncodeVarint(stream, tag * 8 + 2);
      ghost var b := stream.Now();
      if !ok {
        WroteNeither(a, b, Tag(2, tag), Delimited(body));
        return;
      }
      var size := PackedSize(t, values);
      ok := EncodeVarint(stream, size);
      ghost var c := stream.Now();
      if !ok {
        WroteNeither(b, c, Varint(size), body);
        WroteBoth(a, b, c, Tag(2, tag), Delimited(body), false);
        return;
      }
      if stream.sizing {
        stream.Count(body, size);
        ok := true;
      } else {
        ok := EncodeAll(stream, t, values);
      }
      WroteBoth(b, c, stream.Now(), Varint(size), body, ok);
      WroteBoth(a, b, stream.Now(), Tag(2, tag), Delimited(body), ok);
    } else {
      ok := EncodeAllTagged(stream, tag, t, values);
    }
  }

  /** The size of a packed array: a multiple of the width, or counted. */
  method PackedSize(t: LType, values: seq<Value>) returns (size: nat)
    requires TypeOk(t) && forall i :: 0 <= i < |values| ==> ValueOk(t, values[i])
    ensures size == |EncodeValues(t, values)|
    decreases t, 2, 1
  {
    if t.Fixed32T? {
      FixedSizes(t, values, 4);
      size := 4 * |values|;
    } else if t.Fixed64T? {
      FixedSizes(t, values, 8);
      size := 8 * |values|;
    } else {
      var counter := new OStream.Sizing();
      var ok := EncodeAll(counter, t, values);
      size := counter.written;
    }
  }

  lemma {:induction false} FixedSizes(t: LType, values: seq<Value>, w: nat)
    requires (t.Fixed32T? && w == 4) || (t.Fixed64T? && w == 8)
    requires forall i :: 0 <= i < |values| ==> ValueOk(t, values[i])
    ensures |EncodeValues(t, values)| == w * |values|
  {
    if |values| > 0 {
      FixedSizes(t, values[1..], w);
    }
  }

  method EncodeAll(stream: OStream, t: LType, values: seq<Value>) returns (ok: bool)
    requires stream.Valid() && TypeOk(t) && forall i :: 0 <= i < |values| ==> ValueOk(t, values[i])
    modifies stream
    ensures stream.Valid() && Wrote(old(stream.Now()), stream.Now(), EncodeValues(t, values), ok)
    decreases t, 2, 0
  {
    hide Wrote, EncodeValue, EncodeValues;
    ghost var done, a := [], stream.Now();
    StartsEmpty(stream);
    assert values[0..] == values && [] + EncodeValues(t, values) == EncodeValues(t, values);
    for i := 0 to |values|
      invariant stream.Valid() && done + EncodeValues(t, values[i..]) == EncodeValues(t, values) &&
        Wrote(a, stream.Now(), done, true)
    {
      ghost var b, next := stream.Now(), EncodeValue(t, values[i]);
      ValuesSplit(t, values, i);
      assert done + (next + EncodeValues(t, values[i + 1..])) == done + next + EncodeValues(t, values[i + 1..]);
      ok := Encode(stream, t, values[i]);
      WroteBoth(a, b, stream.Now(), done, next, ok);
      if !ok {
        WroteNeither(a, stream.Now(), done + next, EncodeValues(t, values[i + 1..]));
        return;
      }
      done := done + next;
    }
    ValuesEnd(t, values);
    assert done + [] == done;
    ok := true;
  }

  method EncodeAllTagged(stream: OStream, tag: nat, t: LType, values: seq<Value>) returns (ok: bool)
    requires stream.Valid() && TypeOk(t) && forall i :: 0 <= i < |values| ==> ValueOk(t, values[i])
    modifies stream
    ensures stream.Valid() && Wrote(old(stream.Now()), stream.Now(), EncodeEach(tag, t, values), ok)
    decreases t, 2, 0
  {
    hide Wrote, EncodeValue, EncodeEach, Tag;
    ghost var done, a := [], stream.Now();
    StartsEmpty(stream);
    assert values[0..] == values && [] + EncodeEach(tag, t, values) == EncodeEach(tag, t, values);
    for i := 0 to |values|
      invariant stream.Valid() && done + EncodeEach(tag, t, values[i..]) == EncodeEach(tag, t, values) &&
        Wrote(a, stream.Now(), done, true)
    {
      ghost var b, next := stream.Now(), Tag(WireType(t), tag) + EncodeValue(t, values[i]);
      EachSplit(tag, t, values, i);
      assert done + (next + EncodeEach(tag, t, values[i + 1..])) == done + next + EncodeEach(tag, t, values[i + 1..]);
      ok := EncodeTagged(stream, tag, t, values[i]);
      WroteBoth(a, b, stream.Now(), done, next, ok);
      if !ok {
        WroteNeither(a, stream.Now(), done + next, EncodeEach(tag, t, values[i + 1..]));
        return;
      }
      done := done + next;
    }
    EachEnd(tag, t, values);
    assert done + [] == done;
    ok := true;
  }

  lemma ValuesSplit(t: LType, values: seq<Value>, i: nat)
    requires TypeOk(t) && i < |values| && forall j :: 0 <= j < |values| ==> ValueOk(t, values[j])
    ensures EncodeValues(t, values[i..]) == EncodeValue(t, values[i]) + EncodeValues(t, values[i + 1..])
  {
    assert values[i..][1..] == values[i + 1..];
  }

  lemma ValuesEnd(t: LType, values: seq<Value>)
    requires TypeOk(t) && forall j :: 0 <= j < |values| ==> ValueOk(t, values[j])
    ensures EncodeValues(t, values[|values|..]) == []
  {
  }

  lemma EachSplit(tag: nat, t: LType, values: seq<Value>, i: nat)
    requires TypeOk(t) && i < |values| && forall j :: 0 <= j < |values| ==> ValueOk(t, values[j])
    ensures EncodeEach(tag, t, values[i..]) ==
      Tag(WireType(t), tag) + EncodeValue(t, values[i]) + EncodeEach(tag, t, values[i + 1..])
  {
    assert values[i..][1..] == values[i + 1..];
  }

  lemma EachEnd(tag: nat, t: LType, values: seq<Value>)
    requires TypeOk(t) && forall j :: 0 <= j < |values| ==> ValueOk(t, values[j])
    ensures EncodeEach(tag, t, values[|values|..]) == []
  {
  }

  /** Counting pass and writing pass agree: what the first counts is what the second needs room for and sends. */
  method EncodeTwice(fields: seq<Field>, slots: seq<Slot>, room: nat) returns (size: nat, ok: bool, bytes: seq<byte>)
    requires SchemaOk(fields) && MessageOk(fields, slots)
    ensures size == |EncodeFrom(fields, slots, 0)| && ok == (size <= room) &&
      (ok ==> bytes == EncodeFrom(fields, slots, 0))
  {
    var counter := new OStream.Sizing();
    ok := EncodeMessage(counter, fields, slots);
    size := counter.written;
    var stream := new OStream.Writing(room);
    ok := EncodeMessage(stream, fields, slots);
    bytes := stream.bytes;
    assert ok ==> [] + EncodeFrom(fields, slots, 0) == EncodeFrom(fields, slots, 0);
  }
}
