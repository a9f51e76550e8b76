/** What nanopb's decoder makes of any bytes (pb_decode.c, pb_common.c). */
module PbDecode {
  import opened Levels
  import opened ByteKeys
  import opened Coding
  import opened PbMessages

  // ----- varints -----

  /** `result | (byte & 0x7f) << position`, where the bits do not overlap and those past the word are cut off. */
  function AddBits(result: nat, b: byte, shifted: nat): nat {
    (result + (b as int % 128) * shifted) % TWO_32
  }

  /** The loop of pb_decode_varint32 after a first byte with its high bit set; the position counts in eight bits. */
  function Varint32Loop(s: seq<byte>, result: nat, position: nat): (r: Option<Parsed<nat>>)
    ensures r.Some? ==> |r.value.rest| < |s|
    decreases |s|
  {
    if s == [] then None
    else
      var b := s[0];
      var extension: byte := if position < 63 then 0xff else 1;
      if position >= 32 && b as int % 128 != 0 && (result < 0x8000_0000 || b != extension) then None
      else
        var result' := if position >= 32 then result else AddBits(result, b, Power(2, position));
        var position' := (position + 7) % 256;
        if b >= 128 then Varint32Loop(s[1..], result', position')
        else if position' == 35 && b as int / 16 % 8 != 0 then None
        else Some(Parsed(result', s[1..]))
  }

  /** pb_decode_varint32. */
  function ReadVarint32(s: seq<byte>): (r: Option<Parsed<nat>>)
    ensures r.Some? ==> |r.value.rest| < |s|
  {
    if s == [] then None
    else if s[0] < 128 then Some(Parsed(s[0], s[1..]))
    else Varint32Loop(s[1..], s[0] as int % 128, 7)
  }

  /** pb_decode_varint: at most ten bytes. */
  function ReadVarint64(s: seq<byte>): (r: Option<Parsed<nat>>)
    ensures r.Some? ==> |r.value.rest| < |s|
  {
    GetVarint64(s)
  }

  // ----- values -----

  function Signed(n: nat, range: nat): int {
    if n < range / 2 then n else n - range
  }

  function Unzigzag(n: nat): int {
    if n % 2 == 1 then -(n / 2) - 1 else n / 2
  }

  function ParsedNumber(n: int, rest: seq<byte>): Option<Parsed<Value>> {
    Some(Parsed(Number(n), rest))
  }

  function Take(s: seq<byte>, n: nat): (r: Option<Parsed<seq<byte>>>)
    ensures r.Some? ==> |r.value.rest| <= |s|
  {
    if n <= |s| then Some(Parsed(s[..n], s[n..])) else None
  }

  /** A length and that many bytes: pb_make_string_substream, or a string read in place. */
  function TakeDelimited(s: seq<byte>): (r: Option<Parsed<seq<byte>>>)
    ensures r.Some? ==> |r.value.rest| < |s|
  {
    var n := ReadVarint32(s);
    if n.None? then None else Take(n.value.rest, n.value.value)
  }

  /** The field decoders; a submessage is decoded over what is already there. */
  function DecodeValue(t: LType, current: Value, s: seq<byte>): (r: Option<Parsed<Value>>)
    requires TypeOk(t)
    ensures r.Some? ==> |r.value.rest| <= |s|
    decreases t, 0, 0
  {
    match t
    case BoolT =>
      var n := ReadVarint32(s);
      if n.None? then None else ParsedNumber(if n.value.value == 0 then 0 else 1, n.value.rest)
    case VarintT(w) =>
      var n := ReadVarint64(s);
      if n.None? then None
      else
        var v := if w == 8 then Signed(n.value.value, TWO_64) else Signed(n.value.value % TWO_32, TWO_32);
        if InWidth(w, v) then ParsedNumber(v, n.value.rest) else None
    case UVarintT(w) =>
      var n := ReadVarint64(s);
      if n.None? || n.value.value >= Range(w) then None else ParsedNumber(n.value.value, n.value.rest)
    case SVarintT(w) =>
      var n := ReadVarint64(s);
      if n.None? || !InWidth(w, Unzigzag(n.value.value)) then None
      else ParsedNumber(Unzigzag(n.value.value), n.value.rest)
    case Fixed32T =>
      var b := Take(s, 4);
      if b.None? then None else ParsedNumber(DecodeFixed(b.value.value), b.value.rest)
    case Fixed64T =>
      var b := Take(s, 8);
      if b.None? then None else ParsedNumber(DecodeFixed(b.value.value), b.value.rest)
    case SubmessageT(fields) =>
      var b := TakeDelimited(s);
      if b.None? || !current.Message? || |current.slots| != |fields| then None
      else
        var slots := Decode(fields, current.slots, b.value.value);
        if slots.None? then None else Some(Parsed(Message(slots.value), b.value.rest))
    case BytesT(max) =>
      var b := TakeDelimited(s);
      if b.None? || |b.value.value| > max then None else Some(Parsed(Text(b.value.value), b.value.rest))
    case StringT(max) =>
      var b := TakeDelimited(s);
      if b.None? || |b.value.value| + 1 > max then None else Some(Parsed(Text(b.value.value), b.value.rest))
    case FixedBytesT(size) =>
      var b := TakeDelimited(s);
      if b.None? then None
      else if b.value.value == [] then Some(Parsed(Text(seq(size, _ => 0)), b.value.rest))
      else if |b.value.value| != size then None
      else Some(Parsed(Text(b.value.value), b.value.rest))
  }

  /** A packed array: elements until the substream is empty, which it must be by the time the array is full. */
  function DecodePacked(t: LType, values: seq<Value>, max: nat, s: seq<byte>): Option<seq<Value>>
    requires TypeOk(t)
    decreases t, 1, max - |values|
  {
    if s == [] then Some(values)
    else if |values| >= max then None
    else
      var v := DecodeValue(t, DefaultValue(t), s);
      if v.None? then None else DecodePacked(t, values + [v.value.value], max, v.value.rest)
  }

  // ----- fields -----

  function Max(h: HType): nat {
    if h.Repeated? then h.max else if h.FixedCount? then h.count else 0
  }

  /** decode_static_field: what becomes of the field's own slot. */
  function DecodeSlot(f: Field, slot: Slot, wireType: nat, s: seq<byte>): (r: Option<Parsed<Slot>>)
    requires FieldOk(f) && (slot.Many? <==> f.htype.Repeated? || f.htype.FixedCount?)
    ensures r.Some? ==> |r.value.rest| <= |s| && (r.value.value.Many? <==> slot.Many?)
    decreases f, 0, 0
  {
    if slot.Many? then
      if wireType == 2 && Packable(f.ltype) then
        var b := TakeDelimited(s);
        if b.None? then None
        else
          var values := DecodePacked(f.ltype, slot.values, Max(f.htype), b.value.value);
          if values.None? then None else Some(Parsed(Many(values.value), b.value.rest))
      else if |slot.values| >= Max(f.htype) then None
      else
        var v := DecodeValue(f.ltype, DefaultValue(f.ltype), s);
        if v.None? then None else Some(Parsed(Many(slot.values + [v.value.value]), v.value.rest))
    else
      var current := if f.htype.Oneof? && f.ltype.SubmessageT? && !slot.present then DefaultValue(f.ltype)
                     else slot.value;
      var v := DecodeValue(f.ltype, current, s);
      if v.None? then None else Some(Parsed(One(true, v.value.value), v.value.rest))
  }

  /** The fields of a oneof share their storage. */
  predicate Sibling(fields: seq<Field>, i: nat, j: nat)
    requires i < |fields| && j < |fields|
  {
    i != j && fields[i].htype.Oneof? && fields[j].htype == fields[i].htype
  }

  function Store(fields: seq<Field>, slots: seq<Slot>, i: nat, slot: Slot): (r: seq<Slot>)
    requires i < |fields| == |slots|
    ensures |r| == |fields|
  {
    seq(|fields|, j requires 0 <= j < |fields| =>
      if j == i then slot else if Sibling(fields, i, j) then DefaultSlot(fields[j]) else slots[j])
  }

  /** pb_field_iter_find: the field with this tag. */
  function Find(fields: seq<Field>, tag: nat): (i: Option<nat>)
    ensures i.Some? ==> i.value < |fields| && fields[i.value].tag == tag
    ensures i.None? ==> forall j :: 0 <= j < |fields| ==> fields[j].tag != tag
  {
    if |fields| == 0 then None
    else if fields[|fields| - 1].tag == tag then Some(|fields| - 1)
    else Find(fields[..|fields| - 1], tag)
  }

  /** pb_skip_field. */
  function Skip(wireType: nat, s: seq<byte>): (r: Option<seq<byte>>)
    ensures r.Some? ==> |r.value| <= |s|
  {
    if wireType == 0 then SkipVarint(s)
    else if wireType == 1 then if |s| >= 8 then Some(s[8..]) else None
    else if wireType == 5 then if |s| >= 4 then Some(s[4..]) else None
    else if wireType == 2 then
      var b := TakeDelimited(s);
      if b.None? then None else Some(b.value.rest)
    else None
  }

  function SkipVarint(s: seq<byte>): (r: Option<seq<byte>>)
    ensures r.Some? ==> |r.value| <= |s|
  {
    if s == [] then None else if s[0] < 128 then Some(s[1..]) else SkipVarint(s[1..])
  }

  /**
   What happens to a field without a declaration: it is skipped by its wire type, except that in a message type
   without fields the number zero finds the terminator, whose zero type reads it as a bool.
   */
  function PassOver(fields: seq<Field>, number: nat, wireType: nat, s: seq<byte>): (r: Option<seq<byte>>)
    ensures r.Some? ==> |r.value| <= |s|
  {
    if fields == [] && number == 0 then
      var flag := ReadVarint32(s);
      if flag.None? then None else Some(flag.value.rest)
    else Skip(wireType, s)
  }

  // ----- messages -----

  /** The struct, the required fields seen and the fixed-count array being received. */
  datatype State = State(slots: seq<Slot>, seen: set<nat>, fixed: Option<nat>)

  /** The last fixed-count array has all its elements. */
  predicate FixedComplete(fields: seq<Field>, st: State) {
    st.fixed.Some? && st.fixed.value < |fields| && st.fixed.value < |st.slots| && st.slots[st.fixed.value].Many? ==>
      |st.slots[st.fixed.value].values| == Max(fields[st.fixed.value].htype)
  }

  /** A fixed-count array starts over when it is not the one being received. */
  function StartFixed(fields: seq<Field>, st: State, i: nat): (r: Option<State>)
    requires i < |fields| == |st.slots|
    ensures r.Some? ==> |r.value.slots| == |fields|
  {
    if !fields[i].htype.FixedCount? || st.fixed == Some(i) then Some(st)
    else if !FixedComplete(fields, st) then None
    else Some(st.(fixed := Some(i), slots := st.slots[i := Many([])]))
  }

  const MAX_REQUIRED: nat := 64

  function RequiredBefore(fields: seq<Field>, i: nat): nat
    requires i <= |fields|
  {
    if i == 0 then 0 else RequiredBefore(fields, i - 1) + if fields[i - 1].htype.Required? then 1 else 0
  }

  /** The fields_seen mask has room for 64 required fields. */
  function Mark(fields: seq<Field>, st: State, i: nat): State
    requires i < |fields|
  {
    if fields[i].htype.Required? && RequiredBefore(fields, i) < MAX_REQUIRED then
      st.(seen := st.seen + {RequiredBefore(fields, i)})
    else st
  }

  /** The loop of pb_decode_noinit. A zero tag ends the message early. */
  function DecodeLoop(fields: seq<Field>, st: State, s: seq<byte>): (r: Option<State>)
    requires SchemaOk(fields) && |st.slots| == |fields|
    ensures r.Some? ==> |r.value.slots| == |fields|
    decreases fields, 0, |s|
  {
    if s == [] then Some(st)
    else
      var tag := ReadVarint32(s);
      if tag.None? then None
      else if tag.value.value == 0 then Some(st)
      else
        var wireType, rest := tag.value.value % 8, tag.value.rest;
        var i := Find(fields, tag.value.value / 8);
        if i.None? then
          var after := PassOver(fields, tag.value.value / 8, wireType, rest);
          if after.None? then None else DecodeLoop(fields, st, after.value)
        else
          var after := DecodeField(fields, st, i.value, wireType, rest);
          if after.None? then None else DecodeLoop(fields, after.value.value, after.value.rest)
  }

  function DecodeField(fields: seq<Field>, st: State, i: nat, wireType: nat, s: seq<byte>): (r: Option<Parsed<State>>)
    requires SchemaOk(fields) && i < |fields| == |st.slots|
    ensures r.Some? ==> |r.value.rest| <= |s| && |r.value.value.slots| == |fields|
    decreases fields, 0, 0
  {
    var started := StartFixed(fields, st, i);
    var many := fields[i].htype.Repeated? || fields[i].htype.FixedCount?;
    if started.None? || started.value.slots[i].Many? != many then None
    else
      var st' := Mark(fields, started.value, i);
      var slot := DecodeSlot(fields[i], st'.slots[i], wireType, s);
      if slot.None? then None
      else Some(Parsed(st'.(slots := Store(fields, st'.slots, i, slot.value.value)), slot.value.rest))
  }

  /** pb_decode_noinit: and the fixed arrays are complete and the required fields all there. */
  function Decode(fields: seq<Field>, slots: seq<Slot>, s: seq<byte>): (r: Option<seq<Slot>>)
    requires SchemaOk(fields) && |slots| == |fields|
    ensures r.Some? ==> |r.value| == |fields|
    decreases fields, 1, |s|
  {
    var st := DecodeLoop(fields, State(slots, {}, None), s);
    if st.None? || !FixedComplete(fields, st.value) || !AllSeen(fields, st.value) then None else Some(st.value.slots)
  }

  predicate AllSeen(fields: seq<Field>, st: State) {
    forall r :: 0 <= r < RequiredBefore(fields, |fields|) && r < MAX_REQUIRED ==> r in st.seen
  }
}
