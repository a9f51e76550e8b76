/**
 nanopb's decoder loops (pb_decode.c, pb_common.c): the varint reader, the field iterator that goes round and round, the
 bit mask of required fields, and the message loop, each against what PbDecode says it computes.
 */
module PbDecoder {
  import opened Levels
  import opened ByteKeys
  import opened Coding
  import opened PbMessages
  import opened PbDecode

  /** pb_decode_varint32_eof, byte by byte. */
  method DecodeVarint32(s: seq<byte>) returns (r: Option<Parsed<nat>>)
    ensures r == ReadVarint32(s)
  {
    if s == [] {
      return None;
    }
    if s[0] < 128 {
      return Some(Parsed(s[0], s[1..]));
    }
    hide Power;
    var position: nat, result: nat, i: nat := 7, s[0] as int % 128, 1;
    while true
      invariant 1 <= i <= |s| && ReadVarint32(s) == Varint32Loop(s[i..], result, position)
      decreases |s| - i
    {
      if i == |s| {
        return None;
      }
      var b := s[i];
      assert s[i..][0] == b && s[i..][1..] == s[i + 1..];
      if position >= 32 {
        var extension := if position < 63 then 0xff else 1;
        if b as int % 128 != 0 && (result < 0x8000_0000 || b != extension) {
          return None;
        }
      } else {
        result := AddBits(result, b, Power(2, position));
      }
      position, i := (position + 7) % 256, i + 1;
      if b < 128 {
        if position == 35 && b as int / 16 % 8 != 0 {
          return None;
        }
        return Some(Parsed(result, s[i..]));
      }
    }
  }

  /** The iterator over a message's fields. */
  class FieldIter {
    const fields: seq<Field>
    var pos: nat
    var requiredIndex: nat      // how many required fields come before the current one

    predicate Valid()
      reads this
    {
      && (|fields| == 0 ==> pos == 0) && (|fields| > 0 ==> pos < |fields|) && pos <= |fields|
      && requiredIndex == RequiredBefore(fields, pos)
    }

    constructor (fields: seq<Field>)
      ensures Valid() && this.fields == fields && pos == 0
    {
      this.fields, pos, requiredIndex := fields, 0, 0;
    }

    /** pb_field_iter_next: on to the next field, or back to the first after the last. */
    method Next() returns (more: bool)
      requires Valid()
      modifies this
      ensures Valid() && more == (old(pos) + 1 < |fields|) && pos == if more then old(pos) + 1 else 0
    {
      if |fields| == 0 {
        return false;
      }
      var previous := fields[pos];
      pos := pos + 1;
      if pos == |fields| {
        pos, requiredIndex := 0, 0;
        return false;
      }
      if previous.htype.Required? {
        requiredIndex := requiredIndex + 1;
      }
      return true;
    }

    /**
     pb_field_iter_find: once round from wherever the iterator is; it stays where it was if the tag is unknown.
     Without fields it stands on the terminator, whose tag is zero.
     */
    method FindTag(tag: nat) returns (found: bool)
      requires Valid() && (forall i, j :: 0 <= i < j < |fields| ==> fields[i].tag != fields[j].tag)
      modifies this
      ensures Valid() && (|fields| > 0 ==> found == Find(fields, tag).Some?)
      ensures |fields| == 0 ==> found == (tag == 0)
      ensures pos == if Find(fields, tag).Some? then Find(fields, tag).value else old(pos)
    {
      var start := pos;
      if |fields| == 0 {
        return tag == 0;
      }
      ghost var steps := 0;
      while true
        invariant Valid() && steps < |fields| &&
          pos == (if start + steps < |fields| then start + steps else start + steps - |fields|)
        invariant forall i :: 0 <= i < |fields| && Visited(start, steps, |fields|, i) ==> fields[i].tag != tag
        decreases |fields| - steps
      {
        if fields[pos].tag == tag {
          return true;
        }
        var more := Next();
        steps := steps + 1;
        if pos == start {
          return false;
        }
      }
    }

    /** To the end of the fields: how many required ones there are, counted up to 64, as pb_decode_noinit does. */
    method CountRequired() returns (count: nat)
      requires Valid()
      modifies this
      ensures Valid() && pos == 0
      ensures count ==
        if RequiredBefore(fields, |fields|) > MAX_REQUIRED then MAX_REQUIRED else RequiredBefore(fields, |fields|)
    {
      var more := |fields| > 0;
      count := requiredIndex;
      var last := pos;
      while more
        invariant Valid() && (more ==> pos < |fields|)
        invariant !more ==> pos == 0 && (|fields| > 0 ==> last == |fields| - 1 && count == RequiredBefore(fields, last))
        invariant |fields| == 0 ==> count == 0
        decreases more, |fields| - pos
      {
        count, last := requiredIndex, pos;
        more := Next();
      }
      if |fields| > 0 && fields[last].htype.Required? {
        count := count + 1;
      }
      if count > MAX_REQUIRED {
        count := MAX_REQUIRED;
      }
    }
  }

  /** Fields the search has been at. */
  predicate Visited(start: nat, steps: nat, n: nat, i: nat) {
    start <= i < start + steps || start <= i + n < start + steps
  }

  // ----- the required-field mask -----

  const WORD: nat := 32

  /** The first `n` bits of word `w` are set and no others. */
  predicate LowBitsSet(mask: seq<bool>, w: nat, n: nat)
    requires (w + 1) * WORD <= |mask|
  {
    forall b :: w * WORD <= b < (w + 1) * WORD ==> mask[b] == (b < w * WORD + n)
  }

  /** The check at the end of pb_decode_noinit: whole words, then the bits left over. */
  method MaskComplete(mask: seq<bool>, count: nat) returns (ok: bool)
    requires |mask| == MAX_REQUIRED && count <= MAX_REQUIRED && forall b :: count <= b < |mask| ==> !mask[b]
    ensures ok <==> forall b :: 0 <= b < count ==> mask[b]
  {
    for w := 0 to count / WORD
      invariant forall b :: 0 <= b < w * WORD ==> mask[b]
    {
      if !LowBitsSet(mask, w, WORD) {
        return false;
      }
    }
    var w := count / WORD;
    if count % WORD != 0 && !LowBitsSet(mask, w, count % WORD) {
      return false;
    }
    return true;
  }

  // ----- the message loop -----

  /** pb_decode_noinit. */
  method DecodeNoInit(fields: seq<Field>, slots: seq<Slot>, s: seq<byte>) returns (r: Option<seq<Slot>>)
    requires SchemaOk(fields) && |slots| == |fields|
    ensures r == Decode(fields, slots, s)
  {
    hide DecodeField, Skip, ReadVarint32, SchemaOk;
    TagsDiffer(fields);
    var iter := new FieldIter(fields);
    var mask := seq(MAX_REQUIRED, _ => false);
    var st := State(slots, {}, None);
    var input, ended := s, false;
    while !ended && input != []
      invariant iter.Valid() && iter.fields == fields && |st.slots| == |fields|
      invariant MaskMeans(mask, st.seen, fields)
      invariant DecodeLoop(fields, State(slots, {}, None), s) ==
        if ended then Some(st) else DecodeLoop(fields, st, input)
      decreases !ended, |input|
    {
      var tag := DecodeVarint32(input);
      if tag.None? {
        return None;
      }
      if tag.value.value == 0 {
        ended := true;
      } else {
        var found := iter.FindTag(tag.value.value / 8);
        var wireType, rest := tag.value.value % 8, tag.value.rest;
        if !found {
          var after := Skip(wireType, rest);
          if after.None? {
            return None;
          }
          input := after.value;
        } else if |fields| == 0 {
          var flag := DecodeVarint32(rest);
          if flag.None? {
            return None;
          }
          input := flag.value.rest;
        } else {
          var after := DecodeField(fields, st, iter.pos, wireType, rest);
          if after.None? {
            return None;
          }
          Marks(fields, st, iter.pos, wireType, rest);
          if fields[iter.pos].htype.Required? && iter.requiredIndex < MAX_REQUIRED {
            mask := mask[iter.requiredIndex := true];
          }
          st, input := after.value.value, after.value.rest;
        }
      }
    }
    if !FixedComplete(fields, st) {
      return None;
    }
    var count := iter.CountRequired();
    var complete := MaskComplete(mask, count);
    return if complete then Some(st.slots) else None;
  }

  lemma TagsDiffer(fields: seq<Field>)
    requires SchemaOk(fields)
    ensures forall i, j :: 0 <= i < j < |fields| ==> fields[i].tag != fields[j].tag
  {
  }

  /** The mask has the bits of the required fields seen, all of them below the number of required fields. */
  ghost predicate MaskMeans(mask: seq<bool>, seen: set<nat>, fields: seq<Field>) {
    && |mask| == MAX_REQUIRED
    && (forall b: nat :: b < MAX_REQUIRED ==> (mask[b] <==> b in seen))
    && (forall b :: b in seen ==> b < RequiredBefore(fields, |fields|))
  }

  lemma {:induction false} RequiredGrows(fields: seq<Field>, i: nat, j: nat)
    requires i <= j <= |fields|
    ensures RequiredBefore(fields, i) <= RequiredBefore(fields, j)
  {
    if i < j {
      RequiredGrows(fields, i, j - 1);
    }
  }

  /** A decoded field is marked as seen, and nothing else is. */
  lemma Marks(fields: seq<Field>, st: State, i: nat, wireType: nat, s: seq<byte>)
    requires SchemaOk(fields) && i < |fields| == |st.slots| && DecodeField(fields, st, i, wireType, s).Some?
    ensures
      var required := fields[i].htype.Required? && RequiredBefore(fields, i) < MAX_REQUIRED;
      && DecodeField(fields, st, i, wireType, s).value.value.seen ==
        (if required then st.seen + {RequiredBefore(fields, i)} else st.seen)
      && (required ==> RequiredBefore(fields, i) < RequiredBefore(fields, |fields|))
  {
    hide DecodeSlot, Store;
    RequiredGrows(fields, i + 1, |fields|);
  }
}
