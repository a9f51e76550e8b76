/**
 Protocol buffer messages as nanopb lays them out (pb.h, pb_encode.c): schemas of static fields, the structs they
 describe and the bytes the encoder makes of them.
 */
module PbMessages {
  import opened Levels
  import opened ByteKeys
  import opened Coding

  /** How a value is stored and sent; widths in bytes, sizes as the struct has room for. */
  datatype LType =
    | BoolT
    | VarintT(width: nat)
    | UVarintT(width: nat)
    | SVarintT(width: nat)
    | Fixed32T
    | Fixed64T
    | BytesT(max: nat)
    | StringT(max: nat)
    | SubmessageT(fields: seq<Field>)
    | FixedBytesT(size: nat)

  /** Optional fields have a flag, singular (proto3) ones do not; `union` names the oneof a field belongs to. */
  datatype HType = Required | Optional | Singular | Repeated(max: nat) | FixedCount(count: nat) | Oneof(union: nat)

  /** `declared` is the default value that the schema gives the field, if it gives one. */
  datatype Field = Field(tag: nat, ltype: LType, htype: HType, declared: Option<Value>)

  datatype Value = Number(n: int) | Text(bytes: seq<byte>) | Message(slots: seq<Slot>)

  /** The part of a struct that belongs to one field. */
  datatype Slot = One(present: bool, value: Value) | Many(values: seq<Value>)

  predicate Packable(t: LType) {
    t.BoolT? || t.VarintT? || t.UVarintT? || t.SVarintT? || t.Fixed32T? || t.Fixed64T?
  }

  predicate WidthOk(w: nat) {
    w == 1 || w == 2 || w == 4 || w == 8
  }

  /** 2 to the power 8w. */
  function Range(w: nat): nat
    requires WidthOk(w)
  {
    if w == 1 then 0x100 else if w == 2 then 0x1_0000 else if w == 4 then TWO_32 else TWO_64
  }

  /** The signed numbers of that many bytes. */
  predicate InWidth(w: nat, n: int)
    requires WidthOk(w)
  {
    -(Range(w) as int / 2) <= n < Range(w) / 2
  }

  // ----- schemas and the structs that fit them -----

  predicate TypeOk(t: LType)
    decreases t, 0
  {
    match t
    case VarintT(w) => WidthOk(w)
    case UVarintT(w) => WidthOk(w)
    case SVarintT(w) => WidthOk(w)
    case SubmessageT(fields) => SchemaOk(fields)
    case _ => true
  }

  predicate SchemaOk(fields: seq<Field>)
    decreases fields, 0
  {
    && (forall i, j :: 0 <= i < j < |fields| ==> fields[i].tag != fields[j].tag)
    && (forall i :: 0 <= i < |fields| ==> FieldOk(fields[i]))
  }

  predicate FieldOk(f: Field)
    decreases f, 0
  {
    && 0 < f.tag < 0x2000_0000 && TypeOk(f.ltype)
    && (f.declared.Some? ==> !f.ltype.SubmessageT? && ValueOk(f.ltype, f.declared.value))
  }

  predicate ValueOk(t: LType, v: Value)
    requires TypeOk(t)
    decreases t, 1
  {
    match t
    case BoolT => v.Number? && (v.n == 0 || v.n == 1)
    case VarintT(w) => v.Number? && InWidth(w, v.n)
    case UVarintT(w) => v.Number? && 0 <= v.n < Range(w)
    case SVarintT(w) => v.Number? && InWidth(w, v.n)
    case Fixed32T => v.Number? && 0 <= v.n < TWO_32
    case Fixed64T => v.Number? && 0 <= v.n < TWO_64
    case BytesT(max) => v.Text? && |v.bytes| <= max
    case StringT(max) => v.Text? && |v.bytes| < max && forall i :: 0 <= i < |v.bytes| ==> v.bytes[i] != 0
    case SubmessageT(fields) => v.Message? && MessageOk(fields, v.slots)
    case FixedBytesT(size) => v.Text? && |v.bytes| == size
  }

  predicate SlotOk(f: Field, slot: Slot)
    requires FieldOk(f)
    decreases f, 1
  {
    match f.htype
    case Repeated(max) =>
      slot.Many? && |slot.values| <= max && forall i :: 0 <= i < |slot.values| ==> ValueOk(f.ltype, slot.values[i])
    case FixedCount(count) =>
      slot.Many? && |slot.values| == count && forall i :: 0 <= i < |slot.values| ==> ValueOk(f.ltype, slot.values[i])
    case _ => slot.One? && ValueOk(f.ltype, slot.value) && (f.htype.Required? || f.htype.Singular? ==> slot.present)
  }

  predicate MessageOk(fields: seq<Field>, slots: seq<Slot>)
    requires SchemaOk(fields)
    decreases fields, 1
  {
    && |slots| == |fields|
    && (forall i :: 0 <= i < |fields| ==> SlotOk(fields[i], slots[i]))
    && (forall i, j :: 0 <= i < j < |fields| && fields[i].htype.Oneof? && fields[j].htype == fields[i].htype ==>
          !(slots[i].present && slots[j].present))
  }

  // ----- defaults -----

  function DefaultValue(t: LType): Value
    decreases t
  {
    match t
    case BytesT(_) => Text([])
    case StringT(_) => Text([])
    case FixedBytesT(size) => Text(seq(size, _ => 0))
    case SubmessageT(fields) => Message(DefaultSlots(fields))
    case _ => Number(0)
  }

  /** pb_field_set_to_default: the declared value or zeros; an array is emptied and a oneof unset. */
  function DefaultSlot(f: Field): Slot
    decreases f
  {
    if f.htype.Repeated? || f.htype.FixedCount? then Many([])
    else
      var declares := f.declared.Some? && !f.ltype.SubmessageT? && !f.htype.Oneof?;
      One(f.htype.Required? || f.htype.Singular?, if declares then f.declared.value else DefaultValue(f.ltype))
  }

  /** pb_message_set_to_defaults. */
  function DefaultSlots(fields: seq<Field>): (slots: seq<Slot>)
    ensures |slots| == |fields|
    decreases fields
  {
    seq(|fields|, i requires 0 <= i < |fields| => DefaultSlot(fields[i]))
  }

  // ----- encoding -----

  /** pb_check_proto3_default_value: a singular field with such a value is not sent. */
  predicate IsZero(t: LType, v: Value)
    requires TypeOk(t) && ValueOk(t, v)
    decreases t
  {
    match t
    case BytesT(_) => v.bytes == []
    case StringT(_) => v.bytes == []
    case FixedBytesT(size) => size == 0
    case SubmessageT(fields) =>
      assert SchemaOk(fields) && MessageOk(fields, v.slots);
      assert forall i :: 0 <= i < |fields| ==> FieldOk(fields[i]) && SlotOk(fields[i], v.slots[i]);
      forall i :: 0 <= i < |fields| ==> IsZeroSlot(fields[i], v.slots[i])
    case _ => v.n == 0
  }

  predicate IsZeroSlot(f: Field, slot: Slot)
    requires FieldOk(f) && SlotOk(f, slot)
    decreases f
  {
    match f.htype
    case Required => false
    case Repeated(_) => slot.values == []
    case FixedCount(_) => false
    case Oneof(_) => !slot.present
    case Optional => !slot.present
    case Singular => IsZero(f.ltype, slot.value)
  }

  function WireType(t: LType): (w: nat)
    ensures w < 8
  {
    match t
    case Fixed32T => 5
    case Fixed64T => 1
    case BytesT(_) => 2
    case StringT(_) => 2
    case SubmessageT(_) => 2
    case FixedBytesT(_) => 2
    case _ => 0
  }

  function Tag(wireType: nat, tag: nat): seq<byte> {
    Varint(tag * 8 + wireType)
  }

  function Zigzag(n: int): nat {
    if n < 0 then -2 * n - 1 else 2 * n
  }

  function Delimited(s: seq<byte>): seq<byte> {
    Varint(|s|) + s
  }

  function EncodeValue(t: LType, v: Value): seq<byte>
    requires TypeOk(t) && ValueOk(t, v)
    decreases t, 0
  {
    match t
    case BoolT => Varint(v.n)
    case VarintT(_) => Varint(if v.n < 0 then v.n + TWO_64 else v.n)
    case UVarintT(_) => Varint(v.n)
    case SVarintT(_) => Varint(Zigzag(v.n))
    case Fixed32T => Fixed(v.n, 4)
    case Fixed64T => Fixed(v.n, 8)
    case SubmessageT(fields) => Delimited(EncodeFrom(fields, v.slots, 0))
    case _ => Delimited(v.bytes)
  }

  /** The values one after the other: the body of a packed array. */
  function EncodeValues(t: LType, values: seq<Value>): seq<byte>
    requires TypeOk(t) && forall i :: 0 <= i < |values| ==> ValueOk(t, values[i])
    decreases t, 1 + |values|
  {
    if |values| == 0 then [] else EncodeValue(t, values[0]) + EncodeValues(t, values[1..])
  }

  /** One tagged value after the other: an unpacked array. */
  function EncodeEach(tag: nat, t: LType, values: seq<Value>): seq<byte>
    requires TypeOk(t) && forall i :: 0 <= i < |values| ==> ValueOk(t, values[i])
    decreases t, 1 + |values|
  {
    if |values| == 0 then [] else Tag(WireType(t), tag) + EncodeValue(t, values[0]) + EncodeEach(tag, t, values[1..])
  }

  /** encode_array: always packed when the type allows it, and nothing at all for no elements. */
  function EncodeArray(tag: nat, t: LType, values: seq<Value>): seq<byte>
    requires TypeOk(t) && forall i :: 0 <= i < |values| ==> ValueOk(t, values[i])
    decreases t, 2 + |values|
  {
    if |values| == 0 then []
    else if Packable(t) then Tag(2, tag) + Delimited(EncodeValues(t, values))
    else EncodeEach(tag, t, values)
  }

  /** Whether encode_basic_field sends a field that is not an array. */
  predicate Sent(f: Field, slot: Slot)
    requires FieldOk(f) && SlotOk(f, slot) && slot.One?
  {
    if f.htype.Singular? then !IsZero(f.ltype, slot.value) else slot.present
  }

  function EncodeField(f: Field, slot: Slot): seq<byte>
    requires FieldOk(f) && SlotOk(f, slot)
    decreases f
  {
    if slot.Many? then EncodeArray(f.tag, f.ltype, slot.values)
    else if Sent(f, slot) then Tag(WireType(f.ltype), f.tag) + EncodeValue(f.ltype, slot.value)
    else []
  }

  /** pb_encode, from field `k` on. */
  function EncodeFrom(fields: seq<Field>, slots: seq<Slot>, k: nat): seq<byte>
    requires SchemaOk(fields) && MessageOk(fields, slots) && k <= |fields|
    decreases fields, |fields| - k
  {
    if k == |fields| then [] else EncodeField(fields[k], slots[k]) + EncodeFrom(fields, slots, k + 1)
  }
}
