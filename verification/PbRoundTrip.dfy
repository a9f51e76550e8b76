/** Decoding what nanopb encoded: every message comes back, over every schema of static fields. */
module PbRoundTrip {
  import opened Levels
  import opened ByteKeys
  import opened Coding
  import opened PbMessages
  import opened PbDecode

  // ----- numbers -----

  /** Seven bits a byte: 128 to the power `i`. */
  function Place(i: nat): nat
    requires 1 <= i <= 4
  {
    if i == 1 then 0x80 else if i == 2 then 0x4000 else if i == 3 then 0x20_0000 else 0x1000_0000
  }

  lemma PlaceIsPower(i: nat)
    requires 1 <= i <= 4
    ensures Power(2, 7 * i) == Place(i)
  {
    assert Power(2, 7) == 0x80;
    assert Power(2, 10) == 0x400 && Power(2, 14) == 0x4000;
    assert Power(2, 17) == 0x2_0000 && Power(2, 21) == 0x20_0000;
    assert Power(2, 24) == 0x100_0000 && Power(2, 28) == 0x1000_0000;
  }

  /** One more byte in its place. */
  lemma PlaceStep(i: nat, low: nat, q: nat)
    requires 1 <= i <= 4 && low < Place(i) && low + q * Place(i) < TWO_32
    ensures q >= 128 ==>
      i < 4 && low + q % 128 * Place(i) < TWO_32 && low + q % 128 * Place(i) < Place(i + 1) &&
      low + q * Place(i) == low + q % 128 * Place(i) + q / 128 * Place(i + 1)
    ensures i == 4 ==> q < 16
  {
  }

  /** A byte that is not the last. */
  lemma LoopContinues(i: nat, low: nat, b: byte, rest: seq<byte>)
    requires 1 <= i < 4 && b >= 128 && low + (b - 128) * Place(i) < TWO_32
    ensures Varint32Loop([b] + rest, low, 7 * i) == Varint32Loop(rest, low + (b - 128) * Place(i), 7 * (i + 1))
  {
    PlaceIsPower(i);
    assert ([b] + rest)[1..] == rest;
    assert b as int % 128 == b - 128;
    Exact(low + (b - 128) * Place(i));
  }

  lemma LoopEnds(i: nat, low: nat, b: byte, rest: seq<byte>)
    requires 1 <= i <= 4 && b < 128 && low + b * Place(i) < TWO_32
    ensures Varint32Loop([b] + rest, low, 7 * i) == Some(Parsed(low + b * Place(i), rest))
  {
    PlaceIsPower(i);
    assert ([b] + rest)[1..] == rest;
    assert b as int % 128 == b;
    Exact(low + b * Place(i));
    PlaceStep(i, 0, b);
  }

  lemma Exact(n: nat)
    requires n < TWO_32
    ensures n % TWO_32 == n
  {
  }

  lemma {:induction false} Varint32LoopReads(i: nat, low: nat, q: nat, t: seq<byte>)
    requires 1 <= i <= 4 && low < Place(i) && low + q * Place(i) < TWO_32
    ensures Varint32Loop(Varint(q) + t, low, 7 * i) == Some(Parsed(low + q * Place(i), t))
    decreases 4 - i
  {
    hide Varint32Loop, Place;
    PlaceStep(i, low, q);
    if q >= 128 {
      assert Varint(q) + t == [q % 128 + 128] + (Varint(q / 128) + t);
      LoopContinues(i, low, q % 128 + 128, Varint(q / 128) + t);
      Varint32LoopReads(i + 1, low + q % 128 * Place(i), q / 128, t);
    } else {
      assert Varint(q) + t == [q] + t;
      LoopEnds(i, low, q, t);
    }
  }

  /** The lenient reader reads what the encoder writes. */
  lemma Varint32Reads(v: nat, t: seq<byte>)
    requires v < TWO_32
    ensures ReadVarint32(Varint(v) + t) == Some(Parsed(v, t))
  {
    hide Varint32Loop;
    if v >= 128 {
      assert Varint(v) + t == [v % 128 + 128] + (Varint(v / 128) + t);
      assert (v % 128 + 128) % 128 == v % 128;
      Varint32LoopReads(1, v % 128, v / 128, t);
    } else {
      assert Varint(v) + t == [v] + t;
    }
  }

  lemma DelimitedReads(s: seq<byte>, t: seq<byte>)
    requires |s| < TWO_32
    ensures TakeDelimited(Delimited(s) + t) == Some(Parsed(s, t))
  {
    Varint32Reads(|s|, s + t);
    assert Delimited(s) + t == Varint(|s|) + (s + t);
  }

  lemma FixedReads(n: nat, w: nat, t: seq<byte>)
    requires (w == 4 && n < TWO_32) || (w == 8 && n < TWO_64)
    ensures Take(Fixed(n, w) + t, w) == Some(Parsed(Fixed(n, w), t)) && DecodeFixed(Fixed(n, w)) == n
  {
    hide Fixed, DecodeFixed, Power;
    Powers();
    FixedRoundTrip(n, w);
    assert (Fixed(n, w) + t)[..w] == Fixed(n, w) && (Fixed(n, w) + t)[w..] == t;
  }

  /** Two's complement in 64 bits, read back in the field's own width. */
  lemma SignRoundTrip(w: nat, n: int)
    requires WidthOk(w) && InWidth(w, n)
    ensures
      var v := if n < 0 then n + TWO_64 else n;
      0 <= v < TWO_64 && n == if w == 8 then Signed(v, TWO_64) else Signed(v % TWO_32, TWO_32)
  {
  }

  lemma ZigzagRoundTrip(w: nat, n: int)
    requires WidthOk(w) && InWidth(w, n)
    ensures Zigzag(n) < TWO_64 && Unzigzag(Zigzag(n)) == n
  {
  }

  // ----- what a varint read by pb_decode_varint32 means, canonical or not -----

  lemma {:induction false} PlacesAgree(i: nat)
    ensures Power(2, 7 * i) == Power(128, i)
  {
    if i > 0 {
      PlacesAgree(i - 1);
      SevenMore(7 * (i - 1));
      assert 7 * (i - 1) + 7 == 7 * i;
    }
  }

  lemma SevenMore(n: nat)
    ensures Power(2, n + 7) == 128 * Power(2, n)
  {
    assert Power(2, n + 7) == 2 * Power(2, n + 6) && Power(2, n + 6) == 2 * Power(2, n + 5);
    assert Power(2, n + 5) == 2 * Power(2, n + 4) && Power(2, n + 4) == 2 * Power(2, n + 3);
    assert Power(2, n + 3) == 2 * Power(2, n + 2) && Power(2, n + 2) == 2 * Power(2, n + 1);
  }

  lemma {:induction false} BeyondWord(i: nat) returns (c: nat)
    requires i >= 5
    ensures Power(128, i) == c * TWO_32
  {
    if i == 5 {
      Powers7();
      c := 8;
    } else {
      var d := BeyondWord(i - 1);
      c := 128 * d;
      assert Power(128, i) == 128 * (d * TWO_32);
    }
  }

  /** Byte `i`, where the loop adds it or leaves it out, adds its seven bits in their place modulo 2^32. */
  lemma ByteAdds(result: nat, b: byte, i: nat)
    requires 1 <= i <= 36 && result < TWO_32
    ensures
      var result' := if 7 * i >= 32 then result else AddBits(result, b, Power(2, 7 * i));
      result' < TWO_32 && result' % TWO_32 == (result + (b as int % 128) * Power(128, i)) % TWO_32
  {
    PlacesAgree(i);
    var bits: nat := b as int % 128;
    if i >= 5 {
      var c := BeyondWord(i);
      Regrouped(bits, c, TWO_32);
      SameModulo(result, bits * c, TWO_32);
    } else {
      SameModulo(result + bits * Power(128, i), 0, TWO_32);
      TwiceModulo(result + bits * Power(128, i));
    }
  }

  lemma Regrouped(a: nat, b: nat, m: nat)
    ensures a * (b * m) == a * b * m
  {
  }

  lemma TwiceModulo(n: nat)
    ensures n % TWO_32 % TWO_32 == n % TWO_32
  {
  }

  /** The loop from byte `i` on, as long as its eight-bit position has not come round. */
  lemma {:induction false} Varint32LoopMeans(s: seq<byte>, result: nat, i: nat, k: nat)
    requires 1 <= i && i + k <= 37 && result < TWO_32 && Varint32Loop(s, result, 7 * i).Some?
    requires k == |s| - |Varint32Loop(s, result, 7 * i).value.rest|
    ensures 0 < k <= |s| &&
      Varint32Loop(s, result, 7 * i).value.value == (result + Power(128, i) * Coding.Value(s[..k])) % TWO_32
    decreases |s|
  {
    hide Power, AddBits, Coding.Value, Varint32Loop;
    LoopUnrolls(s, result, i);
    var b := s[0];
    var result' := if 7 * i >= 32 then result else AddBits(result, b, Power(2, 7 * i));
    ByteAdds(result, b, i);
    OneDigit(s, k, i);
    if b >= 128 {
      Varint32LoopMeans(s[1..], result', i + 1, k - 1);
      assert s[1..][..k - 1] == s[1..k];
      var more: nat := Power(128, i + 1) * Coding.Value(s[1..k]);
      ModuloSum(result', result + (b as int % 128) * Power(128, i), more, TWO_32);
    } else {
      NoDigits(s);
      assert s[1..k] == s[..0];
      Exact(result');
    }
  }

  /** One turn of the loop. */
  lemma LoopUnrolls(s: seq<byte>, result: nat, i: nat)
    requires 1 <= i <= 36 && Varint32Loop(s, result, 7 * i).Some?
    ensures s != [] && |Varint32Loop(s, result, 7 * i).value.rest| <= |s| - if s[0] >= 128 then 2 else 1
    ensures
      var result' := if 7 * i >= 32 then result else AddBits(result, s[0], Power(2, 7 * i));
      if s[0] >= 128 then i < 36 ==> Varint32Loop(s, result, 7 * i) == Varint32Loop(s[1..], result', 7 * (i + 1))
      else Varint32Loop(s, result, 7 * i).value == Parsed(result', s[1..])
  {
    hide Power, AddBits;
    assert i < 36 ==> (7 * i + 7) % 256 == 7 * (i + 1);
  }

  lemma OneDigit(s: seq<byte>, k: nat, i: nat)
    requires 0 < k <= |s|
    ensures Power(128, i) * Coding.Value(s[..k]) ==
      (s[0] as int % 128) * Power(128, i) + Power(128, i + 1) * Coding.Value(s[1..k])
  {
    assert s[..k][1..] == s[1..k];
    var p, low, high := Power(128, i), s[0] as int % 128, Coding.Value(s[1..k]);
    assert Power(128, i + 1) == 128 * p;
    assert p * (low + 128 * high) == low * p + 128 * p * high by {
      Spread(p, low, high);
    }
  }

  lemma Spread(p: nat, low: nat, high: nat)
    ensures p * (low + 128 * high) == low * p + 128 * p * high
  {
  }

  /**
   Canonical or not, a varint that is accepted is its base-128 value modulo 2^32, as long as it has no more
   than 37 bytes, so that the loop's eight-bit position has not come round.
   */
  lemma Varint32Means(s: seq<byte>)
    requires ReadVarint32(s).Some? && |s| - |ReadVarint32(s).value.rest| <= 37
    ensures
      var r := ReadVarint32(s).value;
      r.value == Coding.Value(s[..|s| - |r.rest|]) % TWO_32
  {
    hide Power;
    if s[0] < 128 {
      assert s[..1][1..] == [];
      Exact(s[0]);
    } else {
      var k := |s| - |ReadVarint32(s).value.rest|;
      Varint32LoopMeans(s[1..], s[0] as int % 128, 1, k - 1);
      OneDigit(s, k, 0);
      assert s[1..][..k - 1] == s[1..k];
      assert Power(128, 0) == 1 && Power(128, 1) == 128 by {
        FirstPlaces();
      }
    }
  }

  lemma FirstPlaces()
    ensures Power(128, 0) == 1 && Power(128, 1) == 128
  {
  }

  // ----- which varints are accepted -----

  /** Byte `i` of a varint too long for 32 bits may only be padding, or the sign extension of a negative number. */
  predicate Extends(word: nat, b: byte, i: nat) {
    b as int % 128 == 0 || (word >= TWO_31 && b == if i < 9 then 0xff else 1)
  }

  predicate EndsAt(s: seq<byte>, k: nat) {
    k < |s| && s[k] < 128 && forall j :: 0 <= j < k ==> s[j] >= 128
  }

  /** From byte 5 on the number no longer changes. */
  lemma {:induction false} TailAccepts(s: seq<byte>, word: nat, i: nat, k: nat)
    requires 5 <= i && i + k <= 36 && EndsAt(s, k)
    ensures Varint32Loop(s, word, 7 * i).Some? <==> forall j :: 0 <= j <= k ==> Extends(word, s[j], i + j)
    decreases k
  {
    hide Power, AddBits;
    if k > 0 {
      assert EndsAt(s[1..], k - 1);
      TailAccepts(s[1..], word, i + 1, k - 1);
      assert forall j :: 0 <= j <= k - 1 ==> s[1..][j] == s[j + 1];
      assert (7 * i + 7) % 256 == 7 * (i + 1);
      if Extends(word, s[0], i) && forall j :: 0 <= j <= k - 1 ==> Extends(word, s[1..][j], i + 1 + j) {
        forall j | 0 <= j <= k ensures Extends(word, s[j], i + j) {
          assert j > 0 ==> s[j] == s[1..][j - 1];
        }
      }
    }
  }

  lemma HeadUnrolls(s: seq<byte>, result: nat, i: nat)
    requires 1 <= i <= 4 && s != []
    ensures
      var result' := AddBits(result, s[0], Power(2, 7 * i));
      if s[0] >= 128 then Varint32Loop(s, result, 7 * i) == Varint32Loop(s[1..], result', 7 * (i + 1))
      else Varint32Loop(s, result, 7 * i).Some? <==> i < 4 || s[0] < 16
  {
    hide Power, AddBits;
  }

  /** What is accepted from byte `i` on, when `all` is the whole varint. */
  ghost predicate AcceptedFrom(all: seq<byte>, k: nat)
    requires k < |all|
  {
    k < 4 || (k == 4 && all[4] < 16) || (k > 4 && forall i :: 5 <= i <= k ==> Extends(Word(all), all[i], i))
  }

  /** The low 32 bits, which the first five bytes hold. */
  function Word(s: seq<byte>): nat
    requires |s| >= 5
  {
    Coding.Value(s[..5]) % TWO_32
  }

  lemma {:induction false} HeadAccepts(all: seq<byte>, k: nat, result: nat, i: nat)
    requires 1 <= i <= 5 && i <= k <= 36 && EndsAt(all, k) && result < TWO_32
    requires result == Coding.Value(all[..i]) % TWO_32
    ensures Varint32Loop(all[i..], result, 7 * i).Some? <==> AcceptedFrom(all, k)
    decreases 5 - i
  {
    hide Power, AddBits, Coding.Value, Varint32Loop, Extends;
    var s := all[i..];
    if i == 5 {
      assert EndsAt(s, k - 5);
      TailAccepts(s, result, 5, k - 5);
      assert forall j :: 5 <= j <= k ==> all[j] == s[j - 5];
      if forall j :: 0 <= j <= k - 5 ==> Extends(result, s[j], 5 + j) {
        forall j | 5 <= j <= k ensures Extends(result, all[j], j) {
          assert Extends(result, s[j - 5], 5 + (j - 5));
        }
      }
    } else {
      HeadUnrolls(s, result, i);
      assert s[0] == all[i] && s[1..] == all[i + 1..];
      if k > i {
        DigitAdds(all, i, result);
        HeadAccepts(all, k, AddBits(result, all[i], Power(2, 7 * i)), i + 1);
      }
    }
  }

  lemma DigitAdds(all: seq<byte>, i: nat, result: nat)
    requires 1 <= i <= 4 && i < |all| && result == Coding.Value(all[..i]) % TWO_32
    ensures
      var result' := AddBits(result, all[i], Power(2, 7 * i));
      result' < TWO_32 && result' == Coding.Value(all[..i + 1]) % TWO_32
  {
    hide Power, Coding.Value;
    ByteAdds(result, all[i], i);
    LastDigit(all, i);
    var v, more: nat := Coding.Value(all[..i]), (all[i] as int % 128) * Power(128, i);
    TwiceModulo(v);
    ModuloSum(result, v, more, TWO_32);
    Exact(AddBits(result, all[i], Power(2, 7 * i)));
  }

  /** One more byte at the end. */
  lemma {:induction false} LastDigit(all: seq<byte>, i: nat)
    requires i < |all|
    ensures Coding.Value(all[..i + 1]) == Coding.Value(all[..i]) + (all[i] as int % 128) * Power(128, i)
  {
    if i == 0 {
      assert all[..1][1..] == [] && all[..0] == [];
    } else {
      var tail := all[1..];
      LastDigit(tail, i - 1);
      assert all[..i + 1][1..] == tail[..i] && all[..i][1..] == tail[..i - 1];
      Times128(all[i] as int % 128, Power(128, i - 1));
    }
  }

  lemma Times128(a: nat, p: nat)
    ensures 128 * (a * p) == a * (128 * p)
  {
  }

  /**
   Exactly which varints of up to 37 bytes are read as 32-bit numbers: those that fit, and longer ones whose further
   bytes are zero padding or, of a negative number, its sign extension to 64 bits.
   */
  lemma Varint32AcceptsIff(s: seq<byte>, k: nat)
    requires EndsAt(s, k) && k <= 36
    ensures ReadVarint32(s).Some? <==> AcceptedFrom(s, k)
  {
    hide Power, Varint32Loop, Extends;
    if k > 0 {
      assert s[..1][1..] == [];
      assert Coding.Value(s[..1]) == s[0] as int % 128;
      Exact(s[0] as int % 128);
      HeadAccepts(s, k, s[0] as int % 128, 1);
    }
  }

  // ----- what comes back -----

  /** A value with the parts that were not sent at their defaults. */
  function CanonValue(t: LType, v: Value): Value
    requires TypeOk(t) && ValueOk(t, v)
    decreases t
  {
    match t
    case SubmessageT(fields) => Message(Canon(fields, v.slots))
    case _ => v
  }

  function CanonSlot(f: Field, slot: Slot): Slot
    requires FieldOk(f) && SlotOk(f, slot)
    decreases f
  {
    if slot.Many? then
      Many(seq(|slot.values|, i requires 0 <= i < |slot.values| => CanonValue(f.ltype, slot.values[i])))
    else if Sent(f, slot) then One(true, CanonValue(f.ltype, slot.value))
    else DefaultSlot(f)
  }

  function Canon(fields: seq<Field>, slots: seq<Slot>): (r: seq<Slot>)
    requires SchemaOk(fields) && MessageOk(fields, slots)
    ensures |r| == |fields|
    decreases fields
  {
    seq(|fields|, i requires 0 <= i < |fields| => CanonSlot(fields[i], slots[i]))
  }

  // ----- values -----

  lemma NumberReads(t: LType, v: Value, current: Value, rest: seq<byte>)
    requires TypeOk(t) && Packable(t) && ValueOk(t, v)
    ensures DecodeValue(t, current, EncodeValue(t, v) + rest) == Some(Parsed(v, rest)) && EncodeValue(t, v) != []
  {
    hide Varint, Fixed, DecodeFixed, ReadVarint32, GetVarint64, Take;
    match t
    case BoolT => Varint32Reads(v.n, rest);
    case VarintT(w) =>
      SignRoundTrip(w, v.n);
      Varint64RoundTrip(if v.n < 0 then v.n + TWO_64 else v.n, rest);
    case UVarintT(w) => Varint64RoundTrip(v.n, rest);
    case SVarintT(w) =>
      ZigzagRoundTrip(w, v.n);
      Varint64RoundTrip(Zigzag(v.n), rest);
    case Fixed32T => FixedReads(v.n, 4, rest);
    case Fixed64T => FixedReads(v.n, 8, rest);
  }

  lemma {:induction false} PackedReads(t: LType, values: seq<Value>, got: seq<Value>, max: nat)
    requires TypeOk(t) && Packable(t) && (forall i :: 0 <= i < |values| ==> ValueOk(t, values[i])) &&
      |got| + |values| <= max
    ensures DecodePacked(t, got, max, EncodeValues(t, values)) == Some(got + values)
    decreases |values|
  {
    hide DecodeValue, EncodeValue;
    if |values| == 0 {
      assert got + values == got;
    } else {
      NumberReads(t, values[0], DefaultValue(t), EncodeValues(t, values[1..]));
      PackedReads(t, values[1..], got + [values[0]], max);
      assert got + [values[0]] + values[1..] == got + values;
    }
  }

  lemma TextReads(t: LType, v: Value, current: Value, rest: seq<byte>)
    requires t.BytesT? || t.StringT? || t.FixedBytesT?
    requires ValueOk(t, v) && |v.bytes| < TWO_32
    ensures DecodeValue(t, current, EncodeValue(t, v) + rest) == Some(Parsed(v, rest))
  {
    DelimitedReads(v.bytes, rest);
    assert t.FixedBytesT? && v.bytes == [] ==> seq(t.size, _ => 0) == v.bytes;
  }

  /** Whatever the struct held before; a submessage must start from its defaults. */
  lemma ValueReads(t: LType, v: Value, current: Value, rest: seq<byte>)
    requires TypeOk(t) && ValueOk(t, v) && |EncodeValue(t, v)| < TWO_32
    requires t.SubmessageT? ==> current == DefaultValue(t)
    ensures DecodeValue(t, current, EncodeValue(t, v) + rest) == Some(Parsed(CanonValue(t, v), rest))
    decreases t, 0
  {
    match t
    case SubmessageT(fields) =>
      var body := EncodeFrom(fields, v.slots, 0);
      DelimitedReads(body, rest);
      MessageReads(fields, v.slots);
    case BytesT(_) => TextReads(t, v, current, rest);
    case StringT(_) => TextReads(t, v, current, rest);
    case FixedBytesT(_) => TextReads(t, v, current, rest);
    case _ => NumberReads(t, v, current, rest);
  }

  // ----- one field -----

  lemma {:induction false} FindsTag(fields: seq<Field>, i: nat)
    requires SchemaOk(fields) && i < |fields|
    ensures Find(fields, fields[i].tag) == Some(i)
  {
  }

  /** A tag leads to its field. */
  lemma LoopTakes(fields: seq<Field>, st: State, i: nat, wireType: nat, s: seq<byte>)
    requires SchemaOk(fields) && i < |fields| == |st.slots| && wireType < 8
    ensures
      var after := DecodeField(fields, st, i, wireType, s);
      DecodeLoop(fields, st, Tag(wireType, fields[i].tag) + s) ==
        if after.None? then None else DecodeLoop(fields, after.value.value, after.value.rest)
  {
    hide Varint, ReadVarint32, DecodeField, Find, SchemaOk;
    assert 0 < fields[i].tag < 0x2000_0000 by {
      TagInRange(fields, i);
    }
    var n := fields[i].tag * 8 + wireType;
    Varint32Reads(n, s);
    assert n % 8 == wireType && n / 8 == fields[i].tag;
    FindsTag(fields, i);
  }

  lemma TagInRange(fields: seq<Field>, i: nat)
    requires SchemaOk(fields) && i < |fields|
    ensures 0 < fields[i].tag < 0x2000_0000
  {
    assert FieldOk(fields[i]);
  }

  /**
   The fields a message carries: any of the schema's, each with a slot that fits, and of a oneof no more than one
   that is present.
   */
  ghost predicate Carries(fields: seq<Field>, slots: seq<Slot>, sent: set<nat>) {
    && SchemaOk(fields) && |slots| == |fields|
    && (forall j :: j in sent ==> j < |fields| && SlotOk(fields[j], slots[j]))
    && (forall i, j :: i in sent && j in sent && Sibling(fields, i, j) ==> !(slots[i].present && slots[j].present))
  }

  /** Of the fields the message carries, those received are as they will be, and all others at their defaults. */
  ghost predicate Ready(fields: seq<Field>, slots: seq<Slot>, sent: set<nat>, got: set<nat>, st: State)
    requires Carries(fields, slots, sent)
  {
    && got <= sent && |st.slots| == |fields|
    && (forall j :: j in got ==> st.slots[j] == CanonSlot(fields[j], slots[j]))
    && (forall j :: 0 <= j < |fields| && j !in got ==> st.slots[j] == DefaultSlot(fields[j]))
    && (st.fixed.Some? ==> st.fixed.value in got) && FixedComplete(fields, st)
    && st.seen == Marks(fields, got)
  }

  /** The marks that receiving these fields leaves. */
  function Marks(fields: seq<Field>, got: set<nat>): set<nat>
    requires forall j :: j in got ==> j < |fields|
  {
    set j | j in got && fields[j].htype.Required? && RequiredBefore(fields, j) < MAX_REQUIRED ::
      RequiredBefore(fields, j)
  }

  lemma MarkAdds(fields: seq<Field>, got: set<nat>, st: State, k: nat)
    requires (forall j :: j in got ==> j < |fields|) && k < |fields| && st.seen == Marks(fields, got)
    ensures Mark(fields, st, k).seen == Marks(fields, got + {k})
  {
    hide RequiredBefore;
    var seen := Mark(fields, st, k).seen;
    forall r ensures r in seen <==> r in Marks(fields, got + {k}) {
      if r in seen {
        if r in st.seen {
          var j :| j in got && fields[j].htype.Required? && RequiredBefore(fields, j) < MAX_REQUIRED &&
                   r == RequiredBefore(fields, j);
          assert j in got + {k};
        } else {
          assert k in got + {k};
        }
      }
    }
  }

  /** A field that is not an array. */
  lemma OneReads(f: Field, slot: Slot, rest: seq<byte>)
    requires FieldOk(f) && SlotOk(f, slot) && slot.One? && Sent(f, slot) && |EncodeValue(f.ltype, slot.value)| < TWO_32
    ensures DecodeSlot(f, DefaultSlot(f), WireType(f.ltype), EncodeValue(f.ltype, slot.value) + rest) ==
      Some(Parsed(CanonSlot(f, slot), rest))
    decreases f
  {
    ValueReads(f.ltype, slot.value, DefaultSlot(f).value, rest);
  }

  /** One element of an unpacked array. */
  lemma ElementReads(f: Field, v: Value, got: seq<Value>, rest: seq<byte>)
    requires FieldOk(f) && !Packable(f.ltype) && ValueOk(f.ltype, v) && |EncodeValue(f.ltype, v)| < TWO_32
    requires (f.htype.Repeated? || f.htype.FixedCount?) && |got| < Max(f.htype)
    ensures DecodeSlot(f, Many(got), WireType(f.ltype), EncodeValue(f.ltype, v) + rest) ==
      Some(Parsed(Many(got + [CanonValue(f.ltype, v)]), rest))
    decreases f
  {
    ValueReads(f.ltype, v, DefaultValue(f.ltype), rest);
  }

  /** A whole packed array. */
  lemma PackedSlotReads(f: Field, slot: Slot, rest: seq<byte>)
    requires FieldOk(f) && SlotOk(f, slot) && slot.Many? && Packable(f.ltype) &&
      |EncodeValues(f.ltype, slot.values)| < TWO_32
    ensures DecodeSlot(f, Many([]), 2, Delimited(EncodeValues(f.ltype, slot.values)) + rest) ==
      Some(Parsed(CanonSlot(f, slot), rest))
  {
    DelimitedReads(EncodeValues(f.ltype, slot.values), rest);
    PackedReads(f.ltype, slot.values, [], Max(f.htype));
    assert [] + slot.values == slot.values;
    assert CanonSlot(f, slot).values == slot.values;
  }

  /** Receiving the whole of field `k`. */
  lemma StoreKeepsReady(fields: seq<Field>, slots: seq<Slot>, sent: set<nat>, got: set<nat>, k: nat, st: State,
                        st': State)
    requires Carries(fields, slots, sent) && k in sent - got && Ready(fields, slots, sent, got, st)
    requires fields[k].htype.Oneof? ==> slots[k].One? && slots[k].present
    requires |st'.slots| == |fields| && st'.slots == Store(fields, st'.slots, k, CanonSlot(fields[k], slots[k]))
    requires forall j :: 0 <= j < |fields| && j != k && !Sibling(fields, k, j) ==> st'.slots[j] == st.slots[j]
    requires st'.seen == Marks(fields, got + {k})
    requires st'.fixed == if fields[k].htype.FixedCount? then Some(k) else st.fixed
    ensures Ready(fields, slots, sent, got + {k}, st')
  {
    hide Marks;
    forall j | 0 <= j < |fields|
      ensures st'.slots[j] == if j in got + {k} then CanonSlot(fields[j], slots[j]) else DefaultSlot(fields[j])
    {
      if j != k && Sibling(fields, k, j) && j in got {
        assert !slots[j].present;
        assert SlotOk(fields[j], slots[j]);
      }
    }
    assert SlotOk(fields[k], slots[k]);
  }

  /** Field `k` sent as one tagged value. */
  lemma OneFieldReads(fields: seq<Field>, slots: seq<Slot>, sent: set<nat>, got: set<nat>, k: nat, st: State,
                      rest: seq<byte>) returns (st': State)
    requires Carries(fields, slots, sent) && k in sent - got && Ready(fields, slots, sent, got, st)
    requires slots[k].One? && FieldOk(fields[k]) && SlotOk(fields[k], slots[k]) && Sent(fields[k], slots[k])
    requires |EncodeField(fields[k], slots[k])| < TWO_32
    ensures Ready(fields, slots, sent, got + {k}, st')
    ensures DecodeLoop(fields, st, EncodeField(fields[k], slots[k]) + rest) == DecodeLoop(fields, st', rest)
    decreases fields, 1
  {
    var f, slot := fields[k], slots[k];
    var body := EncodeValue(f.ltype, slot.value);
    OneFieldIs(f, slot, rest);
    hide Ready, DecodeField, EncodeField, EncodeValue, DecodeLoop, SlotOk;
    LoopTakes(fields, st, k, WireType(f.ltype), body + rest);
    st' := OneFieldTaken(fields, slots, sent, got, k, st, rest);
  }

  lemma OneFieldIs(f: Field, slot: Slot, rest: seq<byte>)
    requires FieldOk(f) && SlotOk(f, slot) && slot.One? && Sent(f, slot)
    ensures EncodeField(f, slot) + rest == Tag(WireType(f.ltype), f.tag) + (EncodeValue(f.ltype, slot.value) + rest)
    ensures |EncodeValue(f.ltype, slot.value)| <= |EncodeField(f, slot)|
  {
    hide EncodeValue, Tag, Varint;
  }

  lemma OneFieldTaken(fields: seq<Field>, slots: seq<Slot>, sent: set<nat>, got: set<nat>, k: nat, st: State,
                      rest: seq<byte>) returns (st': State)
    requires Carries(fields, slots, sent) && k in sent - got && Ready(fields, slots, sent, got, st)
    requires FieldOk(fields[k]) && SlotOk(fields[k], slots[k])
    requires slots[k].One? && Sent(fields[k], slots[k]) && |EncodeValue(fields[k].ltype, slots[k].value)| < TWO_32
    ensures Ready(fields, slots, sent, got + {k}, st')
    ensures DecodeField(fields, st, k, WireType(fields[k].ltype),
                        EncodeValue(fields[k].ltype, slots[k].value) + rest) ==
      Some(Parsed(st', rest))
    decreases fields, 0
  {
    hide DecodeSlot, EncodeValue, CanonValue, Marks;
    var f, slot := fields[k], slots[k];
    OneReads(f, slot, rest);
    var marked := Mark(fields, st, k);
    MarkAdds(fields, got, st, k);
    st' := marked.(slots := Store(fields, marked.slots, k, CanonSlot(f, slot)));
    StoreKeepsReady(fields, slots, sent, got, k, st, st');
  }

  /** Field `k` sent as a packed array. */
  lemma PackedFieldReads(fields: seq<Field>, slots: seq<Slot>, sent: set<nat>, got: set<nat>, k: nat, st: State,
                         rest: seq<byte>) returns (st': State)
    requires Carries(fields, slots, sent) && k in sent - got && Ready(fields, slots, sent, got, st)
    requires FieldOk(fields[k]) && SlotOk(fields[k], slots[k])
    requires slots[k].Many? && slots[k].values != [] && Packable(fields[k].ltype) &&
      |EncodeField(fields[k], slots[k])| < TWO_32
    ensures Ready(fields, slots, sent, got + {k}, st')
    ensures DecodeLoop(fields, st, EncodeField(fields[k], slots[k]) + rest) == DecodeLoop(fields, st', rest)
  {
    var f, slot := fields[k], slots[k];
    var body := Delimited(EncodeValues(f.ltype, slot.values));
    PackedFieldIs(f, slot, rest);
    hide Ready, DecodeField, EncodeField, DecodeLoop, SlotOk;
    LoopTakes(fields, st, k, 2, body + rest);
    st' := PackedFieldTaken(fields, slots, sent, got, k, st, rest);
  }

  lemma PackedFieldIs(f: Field, slot: Slot, rest: seq<byte>)
    requires FieldOk(f) && SlotOk(f, slot) && slot.Many? && slot.values != [] && Packable(f.ltype)
    ensures EncodeField(f, slot) + rest == Tag(2, f.tag) + (Delimited(EncodeValues(f.ltype, slot.values)) + rest)
    ensures |EncodeValues(f.ltype, slot.values)| <= |EncodeField(f, slot)|
  {
    hide EncodeValues, Varint;
  }

  lemma PackedFieldTaken(fields: seq<Field>, slots: seq<Slot>, sent: set<nat>, got: set<nat>, k: nat, st: State,
                         rest: seq<byte>) returns (st': State)
    requires Carries(fields, slots, sent) && k in sent - got && Ready(fields, slots, sent, got, st)
    requires FieldOk(fields[k]) && SlotOk(fields[k], slots[k])
    requires slots[k].Many? && slots[k].values != [] && Packable(fields[k].ltype) &&
      |EncodeField(fields[k], slots[k])| < TWO_32
    ensures Ready(fields, slots, sent, got + {k}, st')
    ensures DecodeField(fields, st, k, 2, Delimited(EncodeValues(fields[k].ltype, slots[k].values)) + rest) ==
      Some(Parsed(st', rest))
  {
    var f, slot := fields[k], slots[k];
    PackedSlotReads(f, slot, rest);
    hide EncodeValues, DecodeSlot, CanonSlot, Varint, Marks;
    var started := StartFixed(fields, st, k).value;
    MarkAdds(fields, got, st, k);
    st' := started.(slots := Store(fields, started.slots, k, CanonSlot(f, slot)));
    StoreKeepsReady(fields, slots, sent, got, k, st, st');
  }

  /** In the middle of an unpacked array: `j` elements of field `k` have been received. */
  ghost predicate Receiving(fields: seq<Field>, slots: seq<Slot>, sent: set<nat>, got: set<nat>, k: nat, j: nat,
                            st: State)
    requires Carries(fields, slots, sent) && k in sent - got && slots[k].Many? && j <= |slots[k].values|
  {
    && FieldOk(fields[k]) && SlotOk(fields[k], slots[k]) && CanonSlot(fields[k], slots[k]).Many?
    && |st.slots| == |fields|
    && Ready(fields, slots, sent, got, st.(slots := st.slots[k := DefaultSlot(fields[k])], fixed := None))
    && st.slots[k] == Many(CanonSlot(fields[k], slots[k]).values[..j])
    && (if fields[k].htype.FixedCount? && j > 0 then st.fixed == Some(k)
        else (st.fixed.Some? ==> st.fixed.value in got) && FixedComplete(fields, st))
  }

  lemma ReadyIsReceiving(fields: seq<Field>, slots: seq<Slot>, sent: set<nat>, got: set<nat>, k: nat, st: State)
    requires Carries(fields, slots, sent) && k in sent - got && slots[k].Many?
    requires Ready(fields, slots, sent, got, st)
    ensures Receiving(fields, slots, sent, got, k, 0, st)
  {
    hide Marks;
    assert FieldOk(fields[k]) && SlotOk(fields[k], slots[k]);
    assert st.slots[k := DefaultSlot(fields[k])] == st.slots;
  }

  lemma ReceivedIsReady(fields: seq<Field>, slots: seq<Slot>, sent: set<nat>, got: set<nat>, k: nat, st: State)
    requires Carries(fields, slots, sent) && k in sent - got && slots[k].Many?
    requires Receiving(fields, slots, sent, got, k, |slots[k].values|, st)
    ensures Ready(fields, slots, sent, got + {k}, st)
  {
    var before := st.(slots := st.slots[k := DefaultSlot(fields[k])], fixed := None);
    var all := CanonSlot(fields[k], slots[k]).values;
    assert all[..|slots[k].values|] == all;
    ArrayUnmarked(fields, got, k);
    hide Marks;
    forall i | 0 <= i < |fields| && i != k ensures st.slots[i] == before.slots[i] {
    }
  }

  lemma ArrayUnmarked(fields: seq<Field>, got: set<nat>, k: nat)
    requires (forall j :: j in got ==> j < |fields|) && k < |fields| && !fields[k].htype.Required?
    ensures Marks(fields, got + {k}) == Marks(fields, got)
  {
    hide RequiredBefore;
  }

  /** One more element. */
  lemma ElementKeepsReceiving(fields: seq<Field>, slots: seq<Slot>, sent: set<nat>, got: set<nat>, k: nat, j: nat,
                              st: State, rest: seq<byte>) returns (st': State)
    requires Carries(fields, slots, sent) && k in sent - got && slots[k].Many? && j < |slots[k].values|
    requires Receiving(fields, slots, sent, got, k, j, st) && !Packable(fields[k].ltype)
    requires |EncodeValue(fields[k].ltype, slots[k].values[j])| < TWO_32
    ensures Receiving(fields, slots, sent, got, k, j + 1, st')
    ensures
      var t, v := fields[k].ltype, slots[k].values[j];
      DecodeLoop(fields, st, Tag(WireType(t), fields[k].tag) + (EncodeValue(t, v) + rest)) ==
        DecodeLoop(fields, st', rest)
    decreases fields, 1
  {
    hide DecodeLoop, DecodeField, EncodeValue, Tag, Marks;
    LoopTakes(fields, st, k, WireType(fields[k].ltype), EncodeValue(fields[k].ltype, slots[k].values[j]) + rest);
    st' := ElementTaken(fields, slots, sent, got, k, j, st, rest);
  }

  lemma ElementTaken(fields: seq<Field>, slots: seq<Slot>, sent: set<nat>, got: set<nat>, k: nat, j: nat, st: State,
                     rest: seq<byte>) returns (st': State)
    requires Carries(fields, slots, sent) && k in sent - got && slots[k].Many? && j < |slots[k].values|
    requires Receiving(fields, slots, sent, got, k, j, st) && !Packable(fields[k].ltype)
    requires |EncodeValue(fields[k].ltype, slots[k].values[j])| < TWO_32
    ensures Receiving(fields, slots, sent, got, k, j + 1, st')
    ensures DecodeField(fields, st, k, WireType(fields[k].ltype),
                        EncodeValue(fields[k].ltype, slots[k].values[j]) + rest) ==
      Some(Parsed(st', rest))
    decreases fields, 0
  {
    hide DecodeSlot, EncodeValue, Marks;
    var f, all := fields[k], CanonSlot(fields[k], slots[k]).values;
    assert all[..j + 1] == all[..j] + [all[j]];
    ElementReads(f, slots[k].values[j], all[..j], rest);
    var started := StartFixed(fields, st, k).value;
    assert started.slots[k] == Many(all[..j]);
    st' := started.(slots := Store(fields, started.slots, k, Many(all[..j + 1])));
    assert st'.slots[k := DefaultSlot(f)] == st.slots[k := DefaultSlot(f)];
  }

  lemma NoMore(tag: nat, t: LType, values: seq<Value>, rest: seq<byte>)
    requires TypeOk(t) && forall i :: 0 <= i < |values| ==> ValueOk(t, values[i])
    ensures EncodeEach(tag, t, values[|values|..]) + rest == rest
  {
  }

  lemma EachSplits(tag: nat, t: LType, values: seq<Value>, j: nat, rest: seq<byte>)
    requires TypeOk(t) && j < |values| && forall i :: 0 <= i < |values| ==> ValueOk(t, values[i])
    ensures EncodeEach(tag, t, values[j..]) + rest ==
            Tag(WireType(t), tag) + (EncodeValue(t, values[j]) + (EncodeEach(tag, t, values[j + 1..]) + rest))
    ensures |EncodeEach(tag, t, values[j..])| >= |EncodeValue(t, values[j])| + |EncodeEach(tag, t, values[j + 1..])|
  {
    hide EncodeValue, Tag;
    assert values[j..][1..] == values[j + 1..];
  }

  /** The elements of an unpacked array from `j` on. */
  lemma {:induction false} EachReads(fields: seq<Field>, slots: seq<Slot>, sent: set<nat>, got: set<nat>, k: nat,
                                     j: nat,
                                     st: State, rest: seq<byte>) returns (st': State)
    requires Carries(fields, slots, sent) && k in sent - got && slots[k].Many? && j <= |slots[k].values|
    requires FieldOk(fields[k]) && SlotOk(fields[k], slots[k])
    requires Receiving(fields, slots, sent, got, k, j, st) && !Packable(fields[k].ltype)
    requires |EncodeEach(fields[k].tag, fields[k].ltype, slots[k].values[j..])| < TWO_32
    ensures Ready(fields, slots, sent, got + {k}, st')
    ensures DecodeLoop(fields, st, EncodeEach(fields[k].tag, fields[k].ltype, slots[k].values[j..]) + rest) ==
      DecodeLoop(fields, st', rest)
    decreases fields, 1 + |slots[k].values| - j
  {
    hide DecodeLoop, EncodeValue, Tag, Receiving, Ready, EncodeEach;
    var f, values := fields[k], slots[k].values;
    if j == |values| {
      NoMore(f.tag, f.ltype, values, rest);
      ReceivedIsReady(fields, slots, sent, got, k, st);
      st' := st;
    } else {
      var later := EncodeEach(f.tag, f.ltype, values[j + 1..]);
      EachSplits(f.tag, f.ltype, values, j, rest);
      var next := ElementKeepsReceiving(fields, slots, sent, got, k, j, st, later + rest);
      st' := EachReads(fields, slots, sent, got, k, j + 1, next, rest);
    }
  }

  lemma ReadySlots(fields: seq<Field>, slots: seq<Slot>, sent: set<nat>, got: set<nat>, st: State)
    requires Carries(fields, slots, sent) && Ready(fields, slots, sent, got, st)
    ensures |st.slots| == |fields|
  {
  }

  /** Whatever was sent for field `k` is taken in, whichever fields came before it. */
  lemma FieldReads(fields: seq<Field>, slots: seq<Slot>, sent: set<nat>, got: set<nat>, k: nat, st: State,
                   rest: seq<byte>) returns (st': State)
    requires Carries(fields, slots, sent) && k in sent - got && Ready(fields, slots, sent, got, st)
    requires FieldOk(fields[k]) && SlotOk(fields[k], slots[k]) && |EncodeField(fields[k], slots[k])| < TWO_32
    ensures Ready(fields, slots, sent, got + {k}, st') && |st'.slots| == |fields|
    ensures DecodeLoop(fields, st, EncodeField(fields[k], slots[k]) + rest) == DecodeLoop(fields, st', rest)
    decreases fields, 2 + if slots[k].Many? then |slots[k].values| else 0
  {
    hide Ready;
    var f, slot := fields[k], slots[k];
    if slot.One? && Sent(f, slot) {
      st' := OneFieldReads(fields, slots, sent, got, k, st, rest);
    } else if slot.Many? && slot.values != [] && Packable(f.ltype) {
      st' := PackedFieldReads(fields, slots, sent, got, k, st, rest);
    } else if slot.Many? && slot.values != [] {
      ReadyIsReceiving(fields, slots, sent, got, k, st);
      assert slot.values[0..] == slot.values;
      st' := EachReads(fields, slots, sent, got, k, 0, st, rest);
    } else {
      NotSent(fields, slots, sent, got, k, st);
      assert EncodeField(f, slot) + rest == rest;
      st' := st;
    }
    ReadySlots(fields, slots, sent, got + {k}, st');
  }

  lemma NotSent(fields: seq<Field>, slots: seq<Slot>, sent: set<nat>, got: set<nat>, k: nat, st: State)
    requires Carries(fields, slots, sent) && k in sent - got && Ready(fields, slots, sent, got, st)
    requires FieldOk(fields[k]) && SlotOk(fields[k], slots[k]) && EncodeField(fields[k], slots[k]) == []
    requires slots[k].Many? ==> slots[k].values == []
    requires slots[k].One? ==> !Sent(fields[k], slots[k])
    ensures Ready(fields, slots, sent, got + {k}, st)
  {
    assert CanonSlot(fields[k], slots[k]) == DefaultSlot(fields[k]);
    ArrayUnmarked(fields, got, k);
    hide Marks;
  }

  lemma MessageCarries(fields: seq<Field>, slots: seq<Slot>)
    requires SchemaOk(fields) && MessageOk(fields, slots)
    ensures Carries(fields, slots, Below(|fields|))
  {
    forall i, j | i in Below(|fields|) && j in Below(|fields|) && Sibling(fields, i, j)
      ensures !(slots[i].present && slots[j].present)
    {
      assert SlotOk(fields[i], slots[i]) && SlotOk(fields[j], slots[j]);
      assert i < j || j < i;
    }
  }

  function Below(k: nat): (r: set<nat>)
    ensures forall j: nat :: j in r <==> j < k
  {
    if k == 0 then {} else Below(k - 1) + {k - 1}
  }

  lemma NothingLeft(fields: seq<Field>, slots: seq<Slot>, st: State)
    requires SchemaOk(fields) && MessageOk(fields, slots) && |st.slots| == |fields|
    ensures DecodeLoop(fields, st, EncodeFrom(fields, slots, |fields|)) == Some(st)
  {
  }

  lemma FirstLeft(fields: seq<Field>, slots: seq<Slot>, k: nat)
    requires SchemaOk(fields) && MessageOk(fields, slots) && k < |fields|
    ensures FieldOk(fields[k]) && SlotOk(fields[k], slots[k])
    ensures EncodeFrom(fields, slots, k) == EncodeField(fields[k], slots[k]) + EncodeFrom(fields, slots, k + 1)
  {
    hide EncodeField;
  }

  lemma {:induction false} FieldsRead(fields: seq<Field>, slots: seq<Slot>, k: nat, st: State) returns (st': State)
    requires SchemaOk(fields) && MessageOk(fields, slots) && k <= |fields|
    requires Carries(fields, slots, Below(|fields|)) && Ready(fields, slots, Below(|fields|), Below(k), st)
    requires |EncodeFrom(fields, slots, k)| < TWO_32
    requires |st.slots| == |fields|
    ensures Ready(fields, slots, Below(|fields|), Below(|fields|), st') && |st'.slots| == |fields|
    ensures DecodeLoop(fields, st, EncodeFrom(fields, slots, k)) == Some(st')
    decreases fields, 3 + Weight(slots) + |fields| - k
  {
    hide Ready, EncodeField, Weight, Carries, Below, EncodeFrom, DecodeLoop, SlotOk, FieldOk;
    if k == |fields| {
      st' := st;
      NothingLeft(fields, slots, st);
    } else {
      FirstLeft(fields, slots, k);
      Weighs(slots, k);
      assert Below(k + 1) == Below(k) + {k};
      var next := FieldReads(fields, slots, Below(|fields|), Below(k), k, st, EncodeFrom(fields, slots, k + 1));
      st' := FieldsRead(fields, slots, k + 1, next);
    }
  }

  /** The number of array elements, for termination. */
  function Weight(slots: seq<Slot>): nat {
    if |slots| == 0 then 0
    else Weight(slots[..|slots| - 1]) + if slots[|slots| - 1].Many? then |slots[|slots| - 1].values| else 0
  }

  lemma {:induction false} Weighs(slots: seq<Slot>, k: nat)
    requires k < |slots|
    ensures slots[k].Many? ==> |slots[k].values| <= Weight(slots)
  {
    if k < |slots| - 1 {
      Weighs(slots[..|slots| - 1], k);
    }
  }

  lemma {:induction false} SomeRequired(fields: seq<Field>, n: nat, r: nat) returns (j: nat)
    requires n <= |fields| && r < RequiredBefore(fields, n)
    ensures j < n && fields[j].htype.Required? && RequiredBefore(fields, j) == r
  {
    if fields[n - 1].htype.Required? && RequiredBefore(fields, n - 1) == r {
      j := n - 1;
    } else {
      j := SomeRequired(fields, n - 1, r);
    }
  }

  /**
   Round trip: decoding the encoding of a message over default contents succeeds, with every required field and every
   element of every fixed array accounted for, and restores every field that was sent.
   */
  lemma MessageReads(fields: seq<Field>, slots: seq<Slot>)
    requires SchemaOk(fields) && MessageOk(fields, slots) && |EncodeFrom(fields, slots, 0)| < TWO_32
    ensures Decode(fields, DefaultSlots(fields), EncodeFrom(fields, slots, 0)) == Some(Canon(fields, slots))
    decreases fields, 5 + Weight(slots) + |fields|
  {
    var st := State(DefaultSlots(fields), {}, None);
    MessageCarries(fields, slots);
    var st' := FieldsRead(fields, slots, 0, st);
    assert st'.slots == Canon(fields, slots);
    forall r | 0 <= r < RequiredBefore(fields, |fields|) && r < MAX_REQUIRED ensures r in st'.seen {
      var j := SomeRequired(fields, |fields|, r);
      assert j in Below(|fields|);
    }
  }
}
