/**
 Messages between two nanopb programs: what comes back, told without the encoder's own rules, and what a program makes
 of a message whose schema has other fields than its own.
 */
module PbExchange {
  import opened Levels
  import opened ByteKeys
  import opened Coding
  import opened PbMessages
  import opened PbDecode
  import opened PbRoundTrip

  // ----- what it means that a message came back -----

  /** The value itself; of a submessage, field by field. */
  predicate Restores(t: LType, v: Value, got: Value)
    requires TypeOk(t) && ValueOk(t, v)
    decreases t
  {
    match t
    case SubmessageT(fields) =>
      assert SchemaOk(fields) && MessageOk(fields, v.slots);
      assert forall i :: 0 <= i < |fields| ==> FieldOk(fields[i]) && SlotOk(fields[i], v.slots[i]);
      && got.Message? && |got.slots| == |fields|
      && forall i :: 0 <= i < |fields| ==> RestoresSlot(fields[i], v.slots[i], got.slots[i])
    case _ => got == v
  }

  /** A singular field at zero is not sent, so the receiver's declared default takes its place. */
  predicate Overridden(f: Field, v: Value) {
    f.htype.Singular? && f.declared.Some? && !f.ltype.SubmessageT? && !f.ltype.FixedBytesT? && v ==
      DefaultValue(f.ltype)
  }

  /** All elements of an array; of any other field whether it is there and, if so, its value. */
  predicate RestoresSlot(f: Field, slot: Slot, got: Slot)
    requires FieldOk(f) && SlotOk(f, slot)
    decreases f
  {
    if slot.Many? then
      && got.Many? && |got.values| == |slot.values|
      && forall i :: 0 <= i < |slot.values| ==> Restores(f.ltype, slot.values[i], got.values[i])
    else
      && got.One? && got.present == slot.present
      && (slot.present ==>
            if Overridden(f, slot.value) then got.value == f.declared.value
            else Restores(f.ltype, slot.value, got.value))
  }

  lemma {:induction false} ZeroRestores(t: LType, v: Value)
    requires TypeOk(t) && ValueOk(t, v) && IsZero(t, v)
    ensures Restores(t, v, DefaultValue(t))
    decreases t
  {
    match t
    case SubmessageT(fields) =>
      forall i | 0 <= i < |fields| ensures RestoresSlot(fields[i], v.slots[i], DefaultSlots(fields)[i]) {
        assert FieldOk(fields[i]) && SlotOk(fields[i], v.slots[i]) && IsZeroSlot(fields[i], v.slots[i]);
        ZeroSlotRestores(fields[i], v.slots[i]);
      }
    case _ =>
  }

  lemma {:induction false} ZeroSlotRestores(f: Field, slot: Slot)
    requires FieldOk(f) && SlotOk(f, slot) && IsZeroSlot(f, slot)
    ensures RestoresSlot(f, slot, DefaultSlot(f))
    decreases f
  {
    if f.htype.Singular? {
      ZeroRestores(f.ltype, slot.value);
    }
  }

  lemma {:induction false} CanonValueRestores(t: LType, v: Value)
    requires TypeOk(t) && ValueOk(t, v)
    ensures Restores(t, v, CanonValue(t, v))
    decreases t
  {
    match t
    case SubmessageT(fields) =>
      forall i | 0 <= i < |fields| ensures RestoresSlot(fields[i], v.slots[i], Canon(fields, v.slots)[i]) {
        assert FieldOk(fields[i]) && SlotOk(fields[i], v.slots[i]);
        CanonSlotRestores(fields[i], v.slots[i]);
      }
    case _ =>
  }

  lemma {:induction false} CanonSlotRestores(f: Field, slot: Slot)
    requires FieldOk(f) && SlotOk(f, slot)
    ensures RestoresSlot(f, slot, CanonSlot(f, slot))
    decreases f
  {
    if slot.Many? {
      forall i | 0 <= i < |slot.values| ensures Restores(f.ltype, slot.values[i], CanonSlot(f, slot).values[i]) {
        CanonValueRestores(f.ltype, slot.values[i]);
      }
    } else {
      CanonValueRestores(f.ltype, slot.value);
      if f.htype.Singular? && IsZero(f.ltype, slot.value) {
        ZeroRestores(f.ltype, slot.value);
      }
    }
  }

  /** A field that is not a submessage and not a zero in the place of a declared default is restored as it was. */
  lemma SlotComesBack(f: Field, slot: Slot, got: Slot)
    requires FieldOk(f) && SlotOk(f, slot) && RestoresSlot(f, slot, got) && !f.ltype.SubmessageT?
    requires slot.Many? || (slot.present && !Overridden(f, slot.value))
    ensures got == slot
  {
    if slot.Many? {
      assert got.values == slot.values;
    }
  }

  /**
   Round trip, on the message itself: whatever fits the schema and encodes to less than 4 GiB is decoded, and every
   field comes back.
   */
  lemma MessageComesBack(fields: seq<Field>, slots: seq<Slot>) returns (r: seq<Slot>)
    requires SchemaOk(fields) && MessageOk(fields, slots) && |EncodeFrom(fields, slots, 0)| < TWO_32
    ensures Decode(fields, DefaultSlots(fields), EncodeFrom(fields, slots, 0)) == Some(r) && |r| == |fields|
    ensures forall i :: 0 <= i < |fields| ==>
                          FieldOk(fields[i]) && SlotOk(fields[i], slots[i]) && RestoresSlot(fields[i], slots[i], r[i])
    ensures forall i :: 0 <= i < |fields| && !fields[i].ltype.SubmessageT? &&
                        (slots[i].Many? || (slots[i].present && !Overridden(fields[i], slots[i].value))) ==>
                          r[i] == slots[i]
  {
    MessageReads(fields, slots);
    r := Canon(fields, slots);
    forall i | 0 <= i < |fields|
      ensures FieldOk(fields[i]) && SlotOk(fields[i], slots[i]) && RestoresSlot(fields[i], slots[i], r[i])
    {
      CanonSlotRestores(fields[i], slots[i]);
    }
    forall i | 0 <= i < |fields| && !fields[i].ltype.SubmessageT? &&
               (slots[i].Many? || (slots[i].present && !Overridden(fields[i], slots[i].value)))
      ensures r[i] == slots[i]
    {
      SlotComesBack(fields[i], slots[i], r[i]);
    }
  }

  // ----- passing over what is unknown -----

  lemma {:induction false} SkipsVarint(v: nat, rest: seq<byte>)
    ensures SkipVarint(Varint(v) + rest) == Some(rest)
  {
    if v >= 128 {
      SkipsVarint(v / 128, rest);
      assert (Varint(v) + rest)[1..] == Varint(v / 128) + rest;
    } else {
      assert (Varint(v) + rest)[1..] == rest;
    }
  }

  lemma SkipsDelimited(s: seq<byte>, rest: seq<byte>)
    requires |s| < TWO_32
    ensures Skip(2, Delimited(s) + rest) == Some(rest)
  {
    DelimitedReads(s, rest);
  }

  /** The wire type alone tells where any value ends. */
  lemma SkipsValue(t: LType, v: Value, rest: seq<byte>)
    requires TypeOk(t) && ValueOk(t, v) && |EncodeValue(t, v)| < TWO_32
    ensures Skip(WireType(t), EncodeValue(t, v) + rest) == Some(rest)
  {
    hide TakeDelimited, Varint, Fixed, SkipVarint, EncodeFrom;
    match t
    case BoolT => SkipsVarint(v.n, rest);
    case VarintT(_) => SkipsVarint(if v.n < 0 then v.n + TWO_64 else v.n, rest);
    case UVarintT(_) => SkipsVarint(v.n, rest);
    case SVarintT(_) => SkipsVarint(Zigzag(v.n), rest);
    case Fixed32T => assert (Fixed(v.n, 4) + rest)[4..] == rest;
    case Fixed64T => assert (Fixed(v.n, 8) + rest)[8..] == rest;
    case SubmessageT(fields) => SkipsDelimited(EncodeFrom(fields, v.slots, 0), rest);
    case _ => SkipsDelimited(v.bytes, rest);
  }

  /** A field the receiver does not know leads past its value. */
  lemma LoopSkips(fields: seq<Field>, st: State, tag: nat, wireType: nat, value: seq<byte>, rest: seq<byte>)
    requires SchemaOk(fields) && |st.slots| == |fields| && wireType < 8
    requires 0 < tag < 0x2000_0000 && Find(fields, tag).None? && Skip(wireType, value + rest) == Some(rest)
    ensures DecodeLoop(fields, st, Tag(wireType, tag) + (value + rest)) == DecodeLoop(fields, st, rest)
  {
    hide Varint, ReadVarint32, DecodeField, Find, SchemaOk, Skip, DecodeLoop;
    var n := tag * 8 + wireType;
    Varint32Reads(n, value + rest);
    assert n % 8 == wireType && n / 8 == tag;
    LoopPasses(fields, st, Tag(wireType, tag) + (value + rest), n, value + rest, rest);
  }

  lemma LoopPasses(fields: seq<Field>, st: State, s: seq<byte>, n: nat, value: seq<byte>, rest: seq<byte>)
    requires SchemaOk(fields) && |st.slots| == |fields|
    requires ReadVarint32(s) == Some(Parsed(n, value)) && n >= 8
    requires Find(fields, n / 8).None? && Skip(n % 8, value) == Some(rest)
    ensures DecodeLoop(fields, st, s) == DecodeLoop(fields, st, rest)
  {
    hide ReadVarint32, DecodeField, Find, SchemaOk, Skip;
    assert s != [] by {
      SomethingThere(s);
    }
  }

  /**
   The field number zero is nobody's: its value is passed over by its wire type, except that a message type without
   fields reads a varint there, whatever the wire type says.
   */
  lemma ZeroFieldNumber(fields: seq<Field>, st: State, wireType: byte, s: seq<byte>)
    requires SchemaOk(fields) && |st.slots| == |fields| && 1 <= wireType < 8
    ensures
      var after := if fields != [] then Skip(wireType, s)
                   else if ReadVarint32(s).Some? then Some(ReadVarint32(s).value.rest) else None;
      DecodeLoop(fields, st, [wireType] + s) == if after.None? then None else DecodeLoop(fields, st, after.value)
  {
    hide DecodeLoop, DecodeField, Skip, SchemaOk, Varint32Loop, Find;
    assert ([wireType] + s)[1..] == s;
    if Find(fields, 0).Some? {
      TagInRange(fields, Find(fields, 0).value);
    }
    LoopAtUnknown(fields, st, [wireType] + s, wireType, s);
  }

  lemma LoopAtUnknown(fields: seq<Field>, st: State, s: seq<byte>, n: nat, value: seq<byte>)
    requires SchemaOk(fields) && |st.slots| == |fields| && s != []
    requires ReadVarint32(s) == Some(Parsed(n, value)) && n > 0 && Find(fields, n / 8).None?
    ensures
      var after := PassOver(fields, n / 8, n % 8, value);
      DecodeLoop(fields, st, s) == if after.None? then None else DecodeLoop(fields, st, after.value)
  {
    hide ReadVarint32, DecodeField, Find, SchemaOk, PassOver;
  }

  lemma SomethingThere(s: seq<byte>)
    requires ReadVarint32(s).Some?
    ensures s != []
  {
  }

  lemma {:induction false} SkipsEach(fields: seq<Field>, st: State, tag: nat, t: LType, values: seq<Value>,
                                     rest: seq<byte>)
    requires SchemaOk(fields) && |st.slots| == |fields| && 0 < tag < 0x2000_0000 && Find(fields, tag).None?
    requires TypeOk(t) && (forall i :: 0 <= i < |values| ==> ValueOk(t, values[i]))
    requires |EncodeEach(tag, t, values)| < TWO_32
    ensures DecodeLoop(fields, st, EncodeEach(tag, t, values) + rest) == DecodeLoop(fields, st, rest)
    decreases |values|
  {
    hide DecodeLoop, EncodeValue, Tag, SchemaOk, Find, ValueOk;
    if values == [] {
      assert [] + rest == rest;
    } else {
      var later := EncodeEach(tag, t, values[1..]);
      assert values[0..] == values;
      EachSplits(tag, t, values, 0, rest);
      SkipsValue(t, values[0], later + rest);
      LoopSkips(fields, st, tag, WireType(t), EncodeValue(t, values[0]), later + rest);
      SkipsEach(fields, st, tag, t, values[1..], rest);
    }
  }

  /** Whatever a field of any kind was sent as, a receiver without that field passes over it. */
  lemma UnknownFieldSkipped(fields: seq<Field>, st: State, f: Field, slot: Slot, rest: seq<byte>)
    requires SchemaOk(fields) && |st.slots| == |fields| && Find(fields, f.tag).None?
    requires FieldOk(f) && SlotOk(f, slot) && |EncodeField(f, slot)| < TWO_32
    ensures DecodeLoop(fields, st, EncodeField(f, slot) + rest) == DecodeLoop(fields, st, rest)
  {
    hide DecodeLoop, EncodeValue, EncodeValues, EncodeEach, Tag, Varint, SchemaOk, Find, Skip;
    if slot.One? && Sent(f, slot) {
      OneFieldIs(f, slot, rest);
      SkipsValue(f.ltype, slot.value, rest);
      LoopSkips(fields, st, f.tag, WireType(f.ltype), EncodeValue(f.ltype, slot.value), rest);
    } else if slot.Many? && slot.values != [] && Packable(f.ltype) {
      PackedFieldIs(f, slot, rest);
      SkipsDelimited(EncodeValues(f.ltype, slot.values), rest);
      LoopSkips(fields, st, f.tag, 2, Delimited(EncodeValues(f.ltype, slot.values)), rest);
    } else if slot.Many? && slot.values != [] {
      SkipsEach(fields, st, f.tag, f.ltype, slot.values, rest);
    } else {
      assert EncodeField(f, slot) + rest == rest;
    }
  }

  // ----- sender and receiver with different schemas -----

  /** The two schemas agree on the fields they share, which may stand in any order. */
  ghost predicate Agree(ours: seq<Field>, theirs: seq<Field>) {
    && SchemaOk(ours) && SchemaOk(theirs)
    && forall i, j :: 0 <= i < |ours| && 0 <= j < |theirs| && ours[i].tag == theirs[j].tag ==> ours[i] == theirs[j]
  }

  predicate Shared(ours: seq<Field>, theirs: seq<Field>, i: nat)
    requires i < |ours|
  {
    Find(theirs, ours[i].tag).Some?
  }

  /** The shared fields among the sender's first `k`. */
  function SharedUpTo(ours: seq<Field>, theirs: seq<Field>, k: nat): set<nat> {
    set i: nat | i < |ours| && Shared(ours, theirs, i) && Find(theirs, ours[i].tag).value < k
  }

  /** The sender's slots in the receiver's order; those the sender does not have are never looked at. */
  function Ours(ours: seq<Field>, theirs: seq<Field>, slots: seq<Slot>): (r: seq<Slot>)
    requires |slots| == |theirs|
    ensures |r| == |ours|
  {
    seq(|ours|, i requires 0 <= i < |ours| =>
      if Shared(ours, theirs, i) then slots[Find(theirs, ours[i].tag).value] else DefaultSlot(ours[i]))
  }

  lemma SharedCarries(ours: seq<Field>, theirs: seq<Field>, slots: seq<Slot>)
    requires Agree(ours, theirs) && MessageOk(theirs, slots)
    ensures Carries(ours, Ours(ours, theirs, slots), SharedUpTo(ours, theirs, |theirs|))
  {
    var sent, r := SharedUpTo(ours, theirs, |theirs|), Ours(ours, theirs, slots);
    forall i | i in sent ensures i < |ours| && SlotOk(ours[i], r[i]) {
      var j := Find(theirs, ours[i].tag).value;
      assert SlotOk(theirs[j], slots[j]) && ours[i] == theirs[j];
    }
    forall i, j | i in sent && j in sent && Sibling(ours, i, j) ensures !(r[i].present && r[j].present) {
      var a, b := Find(theirs, ours[i].tag).value, Find(theirs, ours[j].tag).value;
      assert ours[i] == theirs[a] && ours[j] == theirs[b] && ours[i].tag != ours[j].tag;
      assert SlotOk(theirs[a], slots[a]) && SlotOk(theirs[b], slots[b]);
      assert a < b || b < a;
    }
  }

  /** The receiver takes in the sender's fields from `k` on, and passes over those it does not have. */
  lemma {:induction false} TheirFieldsRead(ours: seq<Field>, theirs: seq<Field>, slots: seq<Slot>, k: nat, st: State)
    returns (st': State)
    requires Agree(ours, theirs) && MessageOk(theirs, slots) && k <= |theirs| && |EncodeFrom(theirs, slots, k)| < TWO_32
    requires |st.slots| == |ours|
    requires
      var sent, r := SharedUpTo(ours, theirs, |theirs|), Ours(ours, theirs, slots);
      Carries(ours, r, sent) && Ready(ours, r, sent, SharedUpTo(ours, theirs, k), st)
    ensures |st'.slots| == |ours| && DecodeLoop(ours, st, EncodeFrom(theirs, slots, k)) == Some(st')
    ensures
      var sent, r := SharedUpTo(ours, theirs, |theirs|), Ours(ours, theirs, slots);
      Ready(ours, r, sent, sent, st')
    decreases |theirs| - k
  {
    hide Ready, EncodeField, Carries, EncodeFrom, DecodeLoop, SlotOk, FieldOk, Find, SharedUpTo, Ours;
    var sent, r := SharedUpTo(ours, theirs, |theirs|), Ours(ours, theirs, slots);
    if k == |theirs| {
      st' := st;
      NothingMore(ours, theirs, slots, st);
    } else {
      FirstLeft(theirs, slots, k);
      var rest := EncodeFrom(theirs, slots, k + 1);
      var i := Find(ours, theirs[k].tag);
      NextShared(ours, theirs, slots, k);
      var next := st;
      if i.Some? {
        next := FieldReads(ours, r, sent, SharedUpTo(ours, theirs, k), i.value, st, rest);
      } else {
        UnknownFieldSkipped(ours, st, theirs[k], slots[k], rest);
      }
      st' := TheirFieldsRead(ours, theirs, slots, k + 1, next);
    }
  }

  lemma NothingMore(ours: seq<Field>, theirs: seq<Field>, slots: seq<Slot>, st: State)
    requires SchemaOk(ours) && SchemaOk(theirs) && MessageOk(theirs, slots) && |st.slots| == |ours|
    ensures DecodeLoop(ours, st, EncodeFrom(theirs, slots, |theirs|)) == Some(st)
  {
  }

  lemma NextShared(ours: seq<Field>, theirs: seq<Field>, slots: seq<Slot>, k: nat)
    requires Agree(ours, theirs) && MessageOk(theirs, slots) && k < |theirs|
    ensures
      var i, got := Find(ours, theirs[k].tag), SharedUpTo(ours, theirs, k);
      if i.Some? then
        && i.value !in got && i.value in SharedUpTo(ours, theirs, |theirs|)
        && SharedUpTo(ours, theirs, k + 1) == got + {i.value}
        && ours[i.value] == theirs[k] && Ours(ours, theirs, slots)[i.value] == slots[k]
      else SharedUpTo(ours, theirs, k + 1) == got
  {
    FindsTag(theirs, k);
    forall i: nat | i < |ours| && Shared(ours, theirs, i) && Find(theirs, ours[i].tag).value == k
      ensures Find(ours, theirs[k].tag) == Some(i)
    {
      FindsTag(ours, i);
    }
  }

  lemma {:induction false} RequiredAscend(fields: seq<Field>, i: nat, j: nat)
    requires i < j <= |fields|
    ensures RequiredBefore(fields, i) + (if fields[i].htype.Required? then 1 else 0) <= RequiredBefore(fields, j)
  {
    if i + 1 < j {
      RequiredAscend(fields, i, j - 1);
    }
  }

  /** The mask tells exactly whether one of the first 64 required fields is missing. */
  lemma MissingIsSeen(fields: seq<Field>, got: set<nat>, st: State)
    requires (forall i :: i in got ==> i < |fields|) && st.seen == Marks(fields, got)
    ensures AllSeen(fields, st) <==>
            forall i: nat :: i < |fields| && fields[i].htype.Required? && RequiredBefore(fields, i) < MAX_REQUIRED ==>
                               i in got
  {
    hide RequiredBefore;
    if AllSeen(fields, st) {
      forall i: nat | i < |fields| && fields[i].htype.Required? && RequiredBefore(fields, i) < MAX_REQUIRED
        ensures i in got
      {
        RequiredAscend(fields, i, |fields|);
        assert RequiredBefore(fields, i) in st.seen;
        var j :| j in got && fields[j].htype.Required? && RequiredBefore(fields, j) == RequiredBefore(fields, i);
        if i < j {
          RequiredAscend(fields, i, j);
        } else if j < i {
          RequiredAscend(fields, j, i);
        }
      }
    } else {
      var r :| 0 <= r < RequiredBefore(fields, |fields|) && r < MAX_REQUIRED && r !in st.seen;
      var i := SomeRequired(fields, |fields|, r);
      MarkOf(fields, got, i);
    }
  }

  lemma MarkOf(fields: seq<Field>, got: set<nat>, i: nat)
    requires (forall j :: j in got ==> j < |fields|) && i < |fields|
    requires fields[i].htype.Required? && RequiredBefore(fields, i) < MAX_REQUIRED
    ensures i in got ==> RequiredBefore(fields, i) in Marks(fields, got)
  {
  }

  /** What the receiver holds of one of its fields. */
  ghost predicate Received(ours: seq<Field>, theirs: seq<Field>, slots: seq<Slot>, r: seq<Slot>, i: nat)
    requires |slots| == |theirs| && i < |ours| == |r|
  {
    match Find(theirs, ours[i].tag)
    case Some(j) => FieldOk(ours[i]) && SlotOk(ours[i], slots[j]) && RestoresSlot(ours[i], slots[j], r[i])
    case None => r[i] == DefaultSlot(ours[i])
  }

  /**
   Old and new programs: what was encoded under one schema is decoded under another that agrees with it on the fields
   they share. Fields that only the sender has are passed over, fields that only the receiver has are at their
   defaults, shared ones come back, in whatever order; and decoding fails exactly if one of the receiver's first
   64 required fields is not among the sender's.
   */
  lemma MessageExchanged(ours: seq<Field>, theirs: seq<Field>, slots: seq<Slot>)
    requires Agree(ours, theirs) && MessageOk(theirs, slots) && |EncodeFrom(theirs, slots, 0)| < TWO_32
    ensures
      match Decode(ours, DefaultSlots(ours), EncodeFrom(theirs, slots, 0))
      case Some(r) => forall i: nat :: i < |ours| ==> Received(ours, theirs, slots, r, i)
      case None =>
        exists i: nat :: i < |ours| && ours[i].htype.Required? && RequiredBefore(ours, i) < MAX_REQUIRED &&
                         !Shared(ours, theirs, i)
    ensures Decode(ours, DefaultSlots(ours), EncodeFrom(theirs, slots, 0)).Some? ==>
              forall i: nat :: i < |ours| && ours[i].htype.Required? && RequiredBefore(ours, i) < MAX_REQUIRED ==>
                                 Shared(ours, theirs, i)
  {
    hide EncodeFrom, DecodeLoop, RequiredBefore, SlotOk, RestoresSlot;
    var sent, merged := SharedUpTo(ours, theirs, |theirs|), Ours(ours, theirs, slots);
    var st := State(DefaultSlots(ours), {}, None);
    SharedCarries(ours, theirs, slots);
    var st' := TheirFieldsRead(ours, theirs, slots, 0, st);
    MissingIsSeen(ours, sent, st');
    forall i: nat | i < |ours| ensures Received(ours, theirs, slots, st'.slots, i) {
      if Shared(ours, theirs, i) {
        assert i in sent;
        CanonSlotRestores(ours[i], merged[i]);
      }
    }
  }

  // ----- what fields can take -----

  /** A 64-bit field takes any varint there is, and a signed 32-bit one its low word; nothing is out of range. */
  lemma EveryWordDecodes(n: nat, current: Value, rest: seq<byte>)
    requires n < TWO_64
    ensures DecodeValue(UVarintT(8), current, Varint(n) + rest) == Some(Parsed(Number(n), rest))
    ensures DecodeValue(VarintT(8), current, Varint(n) + rest) ==
            Some(Parsed(Number(if n < 0x8000_0000_0000_0000 then n else n - TWO_64), rest))
    ensures DecodeValue(SVarintT(8), current, Varint(n) + rest).Some?
    ensures DecodeValue(VarintT(4), current, Varint(n) + rest) ==
            Some(Parsed(Number(if n % TWO_32 < TWO_31 then n % TWO_32 else n % TWO_32 - TWO_32), rest))
  {
    hide Varint, GetVarint64;
    Varint64RoundTrip(n, rest);
  }

  /** The first part of a packed array of fixed length replaces what the struct held, however much that was. */
  lemma FixedArrayReplaced(fields: seq<Field>, st: State, i: nat, values: seq<Value>, rest: seq<byte>)
    requires SchemaOk(fields) && i < |fields| == |st.slots| && FieldOk(fields[i]) && fields[i].htype.FixedCount?
    requires st.slots[i].Many? && st.fixed != Some(i) && FixedComplete(fields, st) && Packable(fields[i].ltype)
    requires |values| <= fields[i].htype.count && forall j :: 0 <= j < |values| ==> ValueOk(fields[i].ltype, values[j])
    requires |EncodeValues(fields[i].ltype, values)| < TWO_32
    ensures
      var after := DecodeField(fields, st, i, 2, Delimited(EncodeValues(fields[i].ltype, values)) + rest);
      after.Some? && after.value.rest == rest && after.value.value.slots[i] == Many(values) &&
      after.value.value.fixed == Some(i)
  {
    hide EncodeValues, DecodePacked, Varint, SchemaOk;
    DelimitedReads(EncodeValues(fields[i].ltype, values), rest);
    PackedReads(fields[i].ltype, values, [], Max(fields[i].htype));
    assert [] + values == values;
  }

  // ----- the bytes on the wire -----

  /** Keys and values as in the examples of the Protocol Buffers encoding guide, one of each wire type. */
  lemma WireExamples()
    ensures Tag(WireType(VarintT(4)), 1) == [0x08] && EncodeValue(VarintT(4), Number(150)) == [0x96, 0x01]
    ensures Tag(WireType(StringT(8)), 2) == [0x12] && EncodeValue(StringT(8), Text([0x74, 0x65])) == [2, 0x74, 0x65]
    ensures Tag(WireType(SVarintT(4)), 5) == [0x28] && EncodeValue(SVarintT(4), Number(-2)) == [0x03]
    ensures Tag(WireType(Fixed32T), 6) == [0x35] && EncodeValue(Fixed32T, Number(0x102)) == [0x02, 0x01, 0x00, 0x00]
    ensures Tag(WireType(Fixed64T), 7) == [0x39] && EncodeValue(Fixed64T, Number(1)) == [1, 0, 0, 0, 0, 0, 0, 0]
  {
    hide Fixed;
    Digits(150, 0x16, 1);
    FixedBytes();
  }

  lemma FixedBytes()
    ensures Fixed(0x102, 4) == [0x02, 0x01, 0x00, 0x00] && Fixed(1, 8) == [1, 0, 0, 0, 0, 0, 0, 0]
  {
    assert Fixed(0, 2) == [0, 0];
    assert Fixed(0, 4) == [0, 0, 0, 0];
    assert Fixed(0, 7) == [0, 0, 0] + Fixed(0, 4);
    assert Fixed(1, 8) == [1] + Fixed(0, 7);
    assert Fixed(0x102, 4) == [0x02] + Fixed(1, 3) == [0x02] + ([1] + Fixed(0, 2));
  }

  lemma Digits(v: nat, low: byte, high: byte)
    requires low < 128 && high < 128 && v == low as int + 128 * high as int && high > 0
    ensures Varint(v) == [low + 128, high]
  {
  }

  /** A packed array of the guide: one key, the length and the varints. */
  lemma PackedExample()
    ensures EncodeArray(4, VarintT(4), [Number(3), Number(270)]) == [0x22, 0x03, 0x03, 0x8e, 0x02]
  {
    Digits(270, 0x0e, 2);
    var rest := [Number(3), Number(270)][1..];
    assert rest == [Number(270)] && rest[1..] == [];
    assert EncodeValues(VarintT(4), rest) == [0x8e, 0x02];
    assert EncodeValues(VarintT(4), [Number(3), Number(270)]) == [0x03] + [0x8e, 0x02];
  }
}
