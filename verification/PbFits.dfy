/**
 Whatever bytes nanopb's decoder is given, what it stores fits the struct: numbers their width, strings and bytes their
 buffers, arrays their room, and arrays of fixed length are complete or empty.
 */
module PbFits {
  import opened Levels
  import opened ByteKeys
  import opened Coding
  import opened PbMessages
  import opened PbDecode

  /** What a field's storage can hold; a string has a terminator behind it. */
  predicate Fits(t: LType, v: Value)
    requires TypeOk(t)
    decreases t
  {
    match t
    case BoolT => v.Number? && (v.n == 0 || v.n == 1)
    case VarintT(w) => v.Number? && InWidth(w, v.n)
    case UVarintT(w) => v.Number? && 0 <= v.n < Range(w)
    case SVarintT(w) => v.Number? && InWidth(w, v.n)
    case Fixed32T => v.Number? && 0 <= v.n < TWO_32
    case Fixed64T => v.Number? && 0 <= v.n < TWO_64
    case BytesT(max) => v.Text? && |v.bytes| <= max
    case StringT(max) => v.Text? && (v.bytes == [] || |v.bytes| + 1 <= max)
    case SubmessageT(fields) =>
      assert SchemaOk(fields);
      && v.Message? && |v.slots| == |fields|
      && forall i :: 0 <= i < |fields| ==> FieldOk(fields[i]) && FitsSlot(fields[i], v.slots[i])
    case FixedBytesT(size) => v.Text? && |v.bytes| == size
  }

  predicate FitsSlot(f: Field, slot: Slot)
    requires FieldOk(f)
    decreases f, 1
  {
    HasRoom(f, slot) && (f.htype.FixedCount? ==> slot.values == [] || |slot.values| == f.htype.count)
  }

  predicate HasRoom(f: Field, slot: Slot)
    requires FieldOk(f)
    decreases f, 0
  {
    if f.htype.Repeated? || f.htype.FixedCount? then
      slot.Many? && |slot.values| <= Max(f.htype) && forall i :: 0 <= i < |slot.values| ==>
        Fits(f.ltype, slot.values[i])
    else slot.One? && Fits(f.ltype, slot.value)
  }

  predicate FitsAll(fields: seq<Field>, slots: seq<Slot>)
    requires SchemaOk(fields)
  {
    && |slots| == |fields|
    && forall i :: 0 <= i < |fields| ==> FieldOk(fields[i]) && FitsSlot(fields[i], slots[i])
  }

  /** While decoding, only the array being received may be incomplete. */
  predicate FitsSoFar(fields: seq<Field>, st: State)
    requires SchemaOk(fields)
  {
    && |st.slots| == |fields|
    && forall i :: 0 <= i < |fields| ==> SlotSoFar(fields, st, i)
  }

  predicate SlotSoFar(fields: seq<Field>, st: State, i: nat)
    requires SchemaOk(fields) && i < |fields| == |st.slots|
  {
    && FieldOk(fields[i])
    && if st.fixed == Some(i) then HasRoom(fields[i], st.slots[i]) else FitsSlot(fields[i], st.slots[i])
  }

  // ----- defaults -----

  lemma {:induction false} DefaultFits(t: LType)
    requires TypeOk(t)
    ensures Fits(t, DefaultValue(t))
    decreases t
  {
    match t
    case SubmessageT(fields) =>
      assert SchemaOk(fields);
      forall i | 0 <= i < |fields| ensures FieldOk(fields[i]) && FitsSlot(fields[i], DefaultSlots(fields)[i]) {
        assert FieldOk(fields[i]);
        DefaultSlotFits(fields[i]);
      }
    case _ =>
  }

  lemma {:induction false} DefaultSlotFits(f: Field)
    requires FieldOk(f)
    ensures FitsSlot(f, DefaultSlot(f))
    decreases f
  {
    DefaultFits(f.ltype);
    if f.declared.Some? {
      DeclaredFits(f.ltype, f.declared.value);
    }
  }

  lemma DeclaredFits(t: LType, v: Value)
    requires TypeOk(t) && ValueOk(t, v) && !t.SubmessageT?
    ensures Fits(t, v)
  {
  }

  // ----- any bytes -----

  lemma NumberFits(t: LType, current: Value, s: seq<byte>)
    requires TypeOk(t) && Packable(t) && DecodeValue(t, current, s).Some?
    ensures Fits(t, DecodeValue(t, current, s).value.value)
  {
    hide ReadVarint32, GetVarint64, DecodeFixed, Power;
    match t
    case Fixed32T =>
      FixedBounded(s[..4]);
      Powers();
    case Fixed64T =>
      FixedBounded(s[..8]);
      Powers();
    case _ =>
      VarintBounded(s);
  }

  lemma VarintBounded(s: seq<byte>)
    ensures ReadVarint64(s).Some? ==> 0 <= ReadVarint64(s).value.value < TWO_64
  {
  }

  lemma ValueFits(t: LType, current: Value, s: seq<byte>)
    requires TypeOk(t) && Fits(t, current) && DecodeValue(t, current, s).Some?
    ensures Fits(t, DecodeValue(t, current, s).value.value)
    decreases t, 0, 0
  {
    hide TakeDelimited, Decode;
    match t
    case SubmessageT(fields) =>
      var b := TakeDelimited(s).value.value;
      MessageFits(fields, current.slots, b);
    case BytesT(_) =>
    case StringT(_) =>
    case FixedBytesT(_) =>
    case _ => NumberFits(t, current, s);
  }

  lemma {:induction false} PackedFits(t: LType, values: seq<Value>, max: nat, s: seq<byte>)
    requires TypeOk(t) && Packable(t) && DecodePacked(t, values, max, s).Some? && |values| <= max
    requires forall i :: 0 <= i < |values| ==> Fits(t, values[i])
    ensures
      var r := DecodePacked(t, values, max, s).value;
      |r| <= max && forall i :: 0 <= i < |r| ==> Fits(t, r[i])
    decreases max - |values|
  {
    hide DecodeValue, Fits;
    if s != [] {
      NumberFits(t, DefaultValue(t), s);
      var v := DecodeValue(t, DefaultValue(t), s).value;
      PackedFits(t, values + [v.value], max, v.rest);
    }
  }

  lemma SlotFits(f: Field, slot: Slot, wireType: nat, s: seq<byte>)
    requires FieldOk(f) && HasRoom(f, slot) && DecodeSlot(f, slot, wireType, s).Some?
    ensures HasRoom(f, DecodeSlot(f, slot, wireType, s).value.value)
    decreases f, 0, 0
  {
    hide DecodeValue, TakeDelimited, Fits;
    DefaultFits(f.ltype);
    if slot.Many? {
      if wireType == 2 && Packable(f.ltype) {
        PackedFits(f.ltype, slot.values, Max(f.htype), TakeDelimited(s).value.value);
      } else {
        ValueFits(f.ltype, DefaultValue(f.ltype), s);
      }
    } else {
      var current := if f.htype.Oneof? && f.ltype.SubmessageT? && !slot.present then DefaultValue(f.ltype)
                     else slot.value;
      ValueFits(f.ltype, current, s);
    }
  }

  lemma StartFits(fields: seq<Field>, st: State, i: nat)
    requires SchemaOk(fields) && FitsSoFar(fields, st) && i < |fields| && StartFixed(fields, st, i).Some?
    ensures
      var st' := StartFixed(fields, st, i).value;
      FitsSoFar(fields, st') && (fields[i].htype.FixedCount? ==> st'.fixed == Some(i))
  {
    hide Fits;
    var st' := StartFixed(fields, st, i).value;
    forall j: nat | j < |fields| ensures SlotSoFar(fields, st', j) {
      assert SlotSoFar(fields, st, j);
    }
  }

  lemma FieldFits(fields: seq<Field>, st: State, i: nat, wireType: nat, s: seq<byte>)
    requires SchemaOk(fields) && FitsSoFar(fields, st) && i < |fields| && DecodeField(fields, st, i, wireType, s).Some?
    ensures FitsSoFar(fields, DecodeField(fields, st, i, wireType, s).value.value)
    decreases fields, 0, 0
  {
    hide DecodeSlot, Fits, DefaultSlot, StartFixed;
    StartFits(fields, st, i);
    var started := StartFixed(fields, st, i).value;
    assert SlotSoFar(fields, started, i);
    SlotFits(fields[i], started.slots[i], wireType, s);
    var st' := DecodeField(fields, st, i, wireType, s).value.value;
    forall j: nat | j < |fields| ensures SlotSoFar(fields, st', j) {
      assert SlotSoFar(fields, started, j);
      if Sibling(fields, i, j) {
        DefaultSlotFits(fields[j]);
      }
    }
  }

  lemma {:induction false} LoopFits(fields: seq<Field>, st: State, s: seq<byte>)
    requires SchemaOk(fields) && |st.slots| == |fields| && FitsSoFar(fields, st) && DecodeLoop(fields, st, s).Some?
    ensures FitsSoFar(fields, DecodeLoop(fields, st, s).value)
    decreases fields, 0, |s|
  {
    hide ReadVarint32, DecodeField, PassOver, FitsSoFar, Find;
    if s != [] {
      var tag := ReadVarint32(s).value;
      if tag.value != 0 {
        var i := Find(fields, tag.value / 8);
        if i.None? {
          var after := PassOver(fields, tag.value / 8, tag.value % 8, tag.rest).value;
          LoopFits(fields, st, after);
        } else {
          FieldFits(fields, st, i.value, tag.value % 8, tag.rest);
          var after := DecodeField(fields, st, i.value, tag.value % 8, tag.rest).value;
          LoopFits(fields, after.value, after.rest);
        }
      }
    }
  }

  /** On any bytes: if decoding succeeds, everything in the struct fits, and arrays of fixed length are whole. */
  lemma MessageFits(fields: seq<Field>, slots: seq<Slot>, s: seq<byte>)
    requires SchemaOk(fields) && FitsAll(fields, slots) && Decode(fields, slots, s).Some?
    ensures FitsAll(fields, Decode(fields, slots, s).value)
    decreases fields, 1, |s|
  {
    hide Fits, DecodeLoop;
    var st := State(slots, {}, None);
    forall i: nat | i < |fields| ensures SlotSoFar(fields, st, i) {
      assert FitsSlot(fields[i], slots[i]);
    }
    LoopFits(fields, st, s);
    var st' := DecodeLoop(fields, st, s).value;
    forall i: nat | i < |fields| ensures FieldOk(fields[i]) && FitsSlot(fields[i], st'.slots[i]) {
      assert SlotSoFar(fields, st', i);
    }
  }

  /** Decoding into a fresh struct never stores what does not fit. */
  lemma AnyBytesFit(fields: seq<Field>, s: seq<byte>)
    requires SchemaOk(fields) && Decode(fields, DefaultSlots(fields), s).Some?
    ensures FitsAll(fields, Decode(fields, DefaultSlots(fields), s).value)
  {
    forall i | 0 <= i < |fields| ensures FieldOk(fields[i]) && FitsSlot(fields[i], DefaultSlots(fields)[i]) {
      assert FieldOk(fields[i]);
      DefaultSlotFits(fields[i]);
    }
    MessageFits(fields, DefaultSlots(fields), s);
  }
}
