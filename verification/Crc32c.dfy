/**
 CRC32C (util/crc32c.cc, util/crc32c.h): the four-stride table algorithm computes the bit-at-a-time checksum, for every
 length and alignment.
 */
module Crc32c {
  /** A byte, held in a 32-bit word. */
  type octet = b: bv32 | b <= 0xff

  const XOR: bv32 := 0xffffffff

  // ----- words; proofs about them use the laws below, never the bits -----

  function Xor(a: bv32, b: bv32): bv32 {
    a ^ b
  }

  function Half(w: bv32): bv32 {
    w >> 1
  }

  function LowBit(w: bv32): bv32 {
    w & 1
  }

  function LowByte(w: bv32): octet {
    w & 0xff
  }

  /** A byte up and a byte down. */
  function Up(w: bv32): bv32 {
    w << 8
  }

  function Down(w: bv32): bv32 {
    w >> 8
  }

  lemma XorZero(a: bv32)
    ensures Xor(a, 0) == a && Xor(0, a) == a && Xor(a, a) == 0
  {
  }

  lemma Associates(a: bv32, b: bv32, c: bv32)
    ensures Xor(Xor(a, b), c) == Xor(a, Xor(b, c))
  {
  }

  lemma Commutes(a: bv32, b: bv32)
    ensures Xor(a, b) == Xor(b, a)
  {
  }

  lemma Regroup(a: bv32, b: bv32, c: bv32, d: bv32)
    ensures Xor(Xor(a, b), Xor(c, d)) == Xor(Xor(a, c), Xor(b, d))
  {
    hide Xor;
    Associates(a, b, Xor(c, d));
    Associates(b, c, d);
    Commutes(b, c);
    Associates(c, b, d);
    Associates(a, c, Xor(b, d));
  }

  lemma HalfLinear(a: bv32, b: bv32)
    ensures Half(Xor(a, b)) == Xor(Half(a), Half(b))
  {
  }

  lemma LowBitLinear(a: bv32, b: bv32)
    ensures LowBit(Xor(a, b)) == Xor(LowBit(a), LowBit(b))
  {
  }

  lemma LowBitIsBit(a: bv32)
    ensures LowBit(a) == 0 || LowBit(a) == 1
  {
  }

  // ----- the definition: one bit at a time -----

  /** The polynomial of section 12.1 of RFC 3720, bits reversed. */
  function Feedback(bit: bv32): bv32 {
    if bit == 1 then 0x82f63b78 else 0
  }

  function Shift(w: bv32): bv32 {
    Xor(Half(w), Feedback(LowBit(w)))
  }

  /** One byte's worth of shifts. */
  function Advance1(w: bv32): bv32 {
    Shift(Shift(Shift(Shift(Shift(Shift(Shift(Shift(w))))))))
  }

  /** The register after `n` zero bytes. */
  function Advance(n: nat, w: bv32): bv32 {
    if n == 0 then w else Advance1(Advance(n - 1, w))
  }

  /** The register after the bytes. */
  function Run(l: bv32, data: seq<octet>): bv32 {
    if |data| == 0 then l else Advance1(Xor(Run(l, data[..|data| - 1]), data[|data| - 1]))
  }

  function Checksum(crc: bv32, data: seq<octet>): bv32 {
    Xor(Run(Xor(crc, XOR), data), XOR)
  }

  // ----- linearity -----

  lemma FeedbackLinear(a: bv32, b: bv32)
    requires (a == 0 || a == 1) && (b == 0 || b == 1)
    ensures Feedback(Xor(a, b)) == Xor(Feedback(a), Feedback(b))
  {
    assert Xor(0, 0) == 0 && Xor(1, 1) == 0 && Xor(1, 0) == 1 && Xor(0, 1) == 1;
  }

  lemma ShiftLinear(a: bv32, b: bv32)
    ensures Shift(Xor(a, b)) == Xor(Shift(a), Shift(b))
  {
    hide Xor, Half, LowBit, Feedback;
    HalfLinear(a, b);
    LowBitLinear(a, b);
    LowBitIsBit(a);
    LowBitIsBit(b);
    FeedbackLinear(LowBit(a), LowBit(b));
    Regroup(Half(a), Half(b), Feedback(LowBit(a)), Feedback(LowBit(b)));
  }

  lemma Advance1Linear(a: bv32, b: bv32)
    ensures Advance1(Xor(a, b)) == Xor(Advance1(a), Advance1(b))
  {
    hide Xor, Shift;
    var a1, b1 := Shift(a), Shift(b);
    var a2, b2 := Shift(a1), Shift(b1);
    var a3, b3 := Shift(a2), Shift(b2);
    var a4, b4 := Shift(a3), Shift(b3);
    var a5, b5 := Shift(a4), Shift(b4);
    var a6, b6 := Shift(a5), Shift(b5);
    var a7, b7 := Shift(a6), Shift(b6);
    ShiftLinear(a, b);
    ShiftLinear(a1, b1);
    ShiftLinear(a2, b2);
    ShiftLinear(a3, b3);
    ShiftLinear(a4, b4);
    ShiftLinear(a5, b5);
    ShiftLinear(a6, b6);
    ShiftLinear(a7, b7);
  }

  lemma {:induction false} Linear(n: nat, a: bv32, b: bv32)
    ensures Advance(n, Xor(a, b)) == Xor(Advance(n, a), Advance(n, b))
  {
    hide Advance1, Xor;
    if n > 0 {
      Linear(n - 1, a, b);
      Advance1Linear(Advance(n - 1, a), Advance(n - 1, b));
    }
  }

  lemma {:induction false} Compose(m: nat, n: nat, w: bv32)
    ensures Advance(m, Advance(n, w)) == Advance(m + n, w)
  {
    hide Advance1;
    if m > 0 {
      Compose(m - 1, n, w);
    }
  }

  lemma AdvanceZero(n: nat)
    ensures Advance(n, 0) == 0
  {
    hide Xor, Advance;
    Linear(n, 0, 0);
    XorZero(0);
    XorZero(Advance(n, 0));
  }

  // ----- the tables -----

  function ByteTable(c: octet): bv32 {
    Advance1(c)
  }

  lemma EvenShift(w: bv32)
    requires LowBit(w) == 0
    ensures Shift(w) == Half(w)
  {
    hide Xor, Half, LowBit;
    XorZero(Half(w));
  }

  lemma HalfOfZeros(w: bv32)
    ensures w & 0xff == 0 ==> w & 1 == 0 && Half(w) & 0x7f == 0
    ensures w & 0x7f == 0 ==> w & 1 == 0 && Half(w) & 0x3f == 0
    ensures w & 0x3f == 0 ==> w & 1 == 0 && Half(w) & 0x1f == 0
    ensures w & 0x1f == 0 ==> w & 1 == 0 && Half(w) & 0xf == 0
    ensures w & 0xf == 0 ==> w & 1 == 0 && Half(w) & 7 == 0
    ensures w & 7 == 0 ==> w & 1 == 0 && Half(w) & 3 == 0
    ensures w & 3 == 0 ==> w & 1 == 0 && Half(w) & 1 == 0
  {
  }

  lemma FourHalves(w: bv32)
    ensures Half(Half(Half(Half(w)))) == w >> 4
  {
  }

  lemma EightHalves(w: bv32)
    ensures (w >> 4) >> 4 == Down(w)
  {
  }

  /** With a zero low byte nothing is fed back. */
  lemma HighBytes(high: bv32)
    requires LowByte(high) == 0
    ensures Advance1(high) == Down(high)
  {
    hide Shift, Half, Down;
    var h1 := Half(high);
    var h2 := Half(h1);
    var h3 := Half(h2);
    var h4 := Half(h3);
    var h5 := Half(h4);
    var h6 := Half(h5);
    var h7 := Half(h6);
    HalfOfZeros(high);
    HalfOfZeros(h1);
    HalfOfZeros(h2);
    HalfOfZeros(h3);
    HalfOfZeros(h4);
    HalfOfZeros(h5);
    HalfOfZeros(h6);
    FourHalves(high);
    FourHalves(h4);
    EightHalves(high);
    EvenShift(high);
    EvenShift(h1);
    EvenShift(h2);
    EvenShift(h3);
    EvenShift(h4);
    EvenShift(h5);
    EvenShift(h6);
    EvenShift(h7);
  }

  function HighPart(w: bv32): bv32 {
    w & 0xffffff00
  }

  lemma Parts(w: bv32)
    ensures w == Xor(LowByte(w), HighPart(w)) && LowByte(HighPart(w)) == 0 && Down(HighPart(w)) == Down(w)
  {
  }

  /** One table lookup is eight shifts. */
  lemma LookupIsAdvance(w: bv32)
    ensures Xor(ByteTable(LowByte(w)), Down(w)) == Advance1(w)
  {
    hide Xor, LowByte, HighPart, Down, Advance1;
    Parts(w);
    Advance1Linear(LowByte(w), HighPart(w));
    HighBytes(HighPart(w));
  }

  /** Byte `i` of a word, in its place. */
  function InPlace(i: nat, c: octet): bv32
    requires i <= 3
  {
    if i == 0 then c else if i == 1 then c << 8 else if i == 2 then c << 16 else c << 24
  }

  function ByteOf(i: nat, w: bv32): octet
    requires i <= 3
  {
    if i == 0 then w & 0xff else if i == 1 then (w >> 8) & 0xff else if i == 2 then (w >> 16) & 0xff else w >> 24
  }

  /** kStrideExtensionTable(3 - i): byte `i` of a word carried over sixteen bytes. */
  function StrideTable(i: nat, c: octet): bv32
    requires i <= 3
  {
    Advance(16, InPlace(i, c))
  }

  lemma WordIsBytes(w: bv32)
    ensures w == Xor(Xor(InPlace(0, ByteOf(0, w)), InPlace(1, ByteOf(1, w))),
                     Xor(InPlace(2, ByteOf(2, w)), InPlace(3, ByteOf(3, w))))
  {
  }

  /** Four lookups carry a word over sixteen bytes. */
  lemma LookupsAreStride(c: bv32)
    ensures Xor(Xor(StrideTable(0, ByteOf(0, c)), StrideTable(1, ByteOf(1, c))),
                Xor(StrideTable(2, ByteOf(2, c)), StrideTable(3, ByteOf(3, c)))) == Advance(16, c)
  {
    hide Advance, Xor, InPlace, ByteOf;
    var b0, b1 := InPlace(0, ByteOf(0, c)), InPlace(1, ByteOf(1, c));
    var b2, b3 := InPlace(2, ByteOf(2, c)), InPlace(3, ByteOf(3, c));
    WordIsBytes(c);
    Linear(16, Xor(b0, b1), Xor(b2, b3));
    Linear(16, b0, b1);
    Linear(16, b2, b3);
  }

  // ----- words of data -----

  /** ReadUint32LE. */
  function Word(data: seq<octet>, p: nat): bv32
    requires p + 4 <= |data|
  {
    Xor(data[p], Up(Xor(data[p + 1], Up(Xor(data[p + 2], Up(data[p + 3]))))))
  }

  lemma UpFits(b: octet, r: bv32)
    ensures r <= 0xff ==> Xor(b, Up(r)) <= 0xffff
    ensures r <= 0xffff ==> Xor(b, Up(r)) <= 0xff_ffff
    ensures r <= 0xff_ffff ==> LowByte(Up(r)) == 0 && Down(Up(r)) == r
  {
  }

  /** Eight shifts consume the low byte of a word and leave the others a byte lower. */
  lemma Carry(l: bv32, b: octet, r: bv32)
    requires r <= 0xff_ffff
    ensures Advance1(Xor(l, Xor(b, Up(r)))) == Xor(Advance1(Xor(l, b)), r)
  {
    hide Xor, Advance1, Up, Down, LowByte;
    Associates(l, b, Up(r));
    Advance1Linear(Xor(l, b), Up(r));
    UpFits(b, r);
    HighBytes(Up(r));
  }

  /** Four bytes at once. */
  lemma RunWord(l: bv32, data: seq<octet>, p: nat)
    requires p + 4 <= |data|
    ensures Run(l, data[..p + 4]) == Advance(4, Xor(Run(l, data[..p]), Word(data, p)))
  {
    hide Xor, Advance1, Up;
    var r, b0, b1, b2, b3 := Run(l, data[..p]), data[p], data[p + 1], data[p + 2], data[p + 3];
    assert data[..p + 1][..p] == data[..p] && data[..p + 2][..p + 1] == data[..p + 1];
    assert data[..p + 3][..p + 2] == data[..p + 2] && data[..p + 4][..p + 3] == data[..p + 3];
    assert Run(l, data[..p + 1]) == Advance1(Xor(r, b0));
    assert Run(l, data[..p + 2]) == Advance1(Xor(Run(l, data[..p + 1]), b1));
    assert Run(l, data[..p + 3]) == Advance1(Xor(Run(l, data[..p + 2]), b2));
    assert Run(l, data[..p + 4]) == Advance1(Xor(Run(l, data[..p + 3]), b3));
    var w2 := Xor(b2, Up(b3));
    var w1 := Xor(b1, Up(w2));
    UpFits(b2, b3);
    UpFits(b1, w2);
    Carry(r, b0, w1);
    var r1 := Advance1(Xor(r, b0));
    Carry(r1, b1, w2);
    var r2 := Advance1(Xor(r1, b1));
    Carry(r2, b2, b3);
    AdvanceFour(Xor(r, Word(data, p)));
  }

  lemma AdvanceFour(w: bv32)
    ensures Advance(4, w) == Advance1(Advance1(Advance1(Advance1(w))))
  {
    hide Advance1;
    AdvanceOne(w);
    AdvanceOneMore(1, w);
    AdvanceOneMore(2, w);
    AdvanceOneMore(3, w);
  }

  lemma AdvanceOne(w: bv32)
    ensures Advance(1, w) == Advance1(w)
  {
    hide Advance1;
    assert Advance(0, w) == w;
  }

  lemma AdvanceOneMore(n: nat, w: bv32)
    ensures Advance(n + 1, w) == Advance1(Advance(n, w))
  {
    hide Advance1;
  }

  // ----- the four strides -----

  /** What the four partial results stand for. */
  function Combine(c0: bv32, c1: bv32, c2: bv32, c3: bv32): bv32 {
    Xor(Xor(Advance(16, c0), Advance(12, c1)), Xor(Advance(8, c2), Advance(4, c3)))
  }

  lemma CombineLinear(a0: bv32, a1: bv32, a2: bv32, a3: bv32, b0: bv32, b1: bv32, b2: bv32, b3: bv32)
    ensures Combine(Xor(a0, b0), Xor(a1, b1), Xor(a2, b2), Xor(a3, b3)) ==
      Xor(Combine(a0, a1, a2, a3), Combine(b0, b1, b2, b3))
  {
    hide Xor, Advance;
    Linear(16, a0, b0);
    Linear(12, a1, b1);
    Linear(8, a2, b2);
    Linear(4, a3, b3);
    Regroup(Advance(16, a0), Advance(16, b0), Advance(12, a1), Advance(12, b1));
    Regroup(Advance(8, a2), Advance(8, b2), Advance(4, a3), Advance(4, b3));
    Regroup(Xor(Advance(16, a0), Advance(12, a1)), Xor(Advance(16, b0), Advance(12, b1)),
            Xor(Advance(8, a2), Advance(4, a3)), Xor(Advance(8, b2), Advance(4, b3)));
  }

  lemma CombineAdvance(n: nat, c0: bv32, c1: bv32, c2: bv32, c3: bv32)
    ensures Combine(Advance(n, c0), Advance(n, c1), Advance(n, c2), Advance(n, c3)) ==
      Advance(n, Combine(c0, c1, c2, c3))
  {
    hide Xor, Advance;
    Linear(n, Xor(Advance(16, c0), Advance(12, c1)), Xor(Advance(8, c2), Advance(4, c3)));
    Linear(n, Advance(16, c0), Advance(12, c1));
    Linear(n, Advance(8, c2), Advance(4, c3));
    Exchange(n, 16, c0);
    Exchange(n, 12, c1);
    Exchange(n, 8, c2);
    Exchange(n, 4, c3);
  }

  lemma Exchange(m: nat, n: nat, w: bv32)
    ensures Advance(m, Advance(n, w)) == Advance(n, Advance(m, w))
  {
    hide Advance;
    Compose(m, n, w);
    Compose(n, m, w);
  }

  /** Four words read one after the other. */
  lemma FourWords(r: bv32, w0: bv32, w1: bv32, w2: bv32, w3: bv32)
    ensures Advance(4, Xor(Advance(4, Xor(Advance(4, Xor(Advance(4, Xor(r, w0)), w1)), w2)), w3)) ==
            Xor(Advance(16, r), Combine(w0, w1, w2, w3))
  {
    hide Xor, Advance;
    var r1 := Advance(4, Xor(r, w0));
    var r2 := Advance(4, Xor(r1, w1));
    var r3 := Advance(4, Xor(r2, w2));
    Linear(4, r3, w3);
    Linear(4, r2, w2);
    Linear(4, Advance(4, r2), Advance(4, w2));
    Linear(4, r1, w1);
    Linear(8, Advance(4, r1), Advance(4, w1));
    Linear(4, r, w0);
    Linear(12, Advance(4, r), Advance(4, w0));
    Compose(4, 4, r2);
    Compose(4, 4, w2);
    Compose(8, 4, r1);
    Compose(8, 4, w1);
    Compose(12, 4, r);
    Compose(12, 4, w0);
    assert Advance(8, r2) == Xor(Advance(12, r1), Advance(12, w1));
    assert Advance(12, r1) == Xor(Advance(16, r), Advance(16, w0));
    Nested(Advance(16, r), Advance(16, w0), Advance(12, w1), Advance(8, w2), Advance(4, w3));
  }

  lemma Nested(r: bv32, a: bv32, b: bv32, c: bv32, d: bv32)
    ensures Xor(Xor(Xor(Xor(r, a), b), c), d) == Xor(r, Xor(Xor(a, b), Xor(c, d)))
  {
    hide Xor;
    Associates(r, a, b);
    Associates(Xor(r, Xor(a, b)), c, d);
    Associates(r, Xor(a, b), Xor(c, d));
  }

  /** STEP4: the next word of a stride. */
  function Step4(crc: bv32, word: bv32): bv32 {
    Xor(word, Xor(Xor(StrideTable(0, ByteOf(0, crc)), StrideTable(1, ByteOf(1, crc))),
                  Xor(StrideTable(2, ByteOf(2, crc)), StrideTable(3, ByteOf(3, crc)))))
  }

  lemma Step4IsAdvance(crc: bv32, word: bv32)
    ensures Step4(crc, word) == Xor(word, Advance(16, crc))
  {
    hide Xor, Advance, StrideTable, ByteOf;
    LookupsAreStride(crc);
  }

  /** STEP4W: a word through the byte table. */
  function Step4W(l: bv32, w: bv32): bv32 {
    var w1 := Xor(w, l);
    var w2 := Xor(Down(w1), ByteTable(LowByte(w1)));
    var w3 := Xor(Down(w2), ByteTable(LowByte(w2)));
    var w4 := Xor(Down(w3), ByteTable(LowByte(w3)));
    Xor(Down(w4), ByteTable(LowByte(w4)))
  }

  lemma Step4WIsAdvance(l: bv32, w: bv32)
    ensures Step4W(l, w) == Advance(4, Xor(l, w))
  {
    hide Xor, Advance, Advance1, ByteTable, LowByte, Down;
    Commutes(w, l);
    var w1 := Xor(w, l);
    var w2 := Advance1(w1);
    var w3 := Advance1(w2);
    var w4 := Advance1(w3);
    LookupStep(w1);
    LookupStep(w2);
    LookupStep(w3);
    LookupStep(w4);
    AdvanceFour(w1);
  }

  lemma LookupStep(w: bv32)
    ensures Xor(Down(w), ByteTable(LowByte(w))) == Advance1(w)
  {
    hide Xor, Advance1, ByteTable, LowByte, Down;
    Commutes(Down(w), ByteTable(LowByte(w)));
    LookupIsAdvance(w);
  }

  /** STEP1: one byte through the byte table. */
  function Step1(l: bv32, b: octet): bv32 {
    Xor(ByteTable(LowByte(Xor(l, b))), Down(l))
  }

  lemma Step1IsAdvance(l: bv32, b: octet)
    ensures Step1(l, b) == Advance1(Xor(l, b))
  {
    hide Xor, Advance1, ByteTable, LowByte, Down;
    DownIgnoresByte(l, b);
    LookupIsAdvance(Xor(l, b));
  }

  lemma DownIgnoresByte(l: bv32, b: octet)
    ensures Down(Xor(l, b)) == Down(l)
  {
  }

  lemma RunByte(l: bv32, data: seq<octet>, p: nat)
    requires p < |data|
    ensures Run(l, data[..p + 1]) == Step1(Run(l, data[..p]), data[p])
  {
    hide Step1, Advance1, Xor;
    assert data[..p + 1][..p] == data[..p];
    Step1IsAdvance(Run(l, data[..p]), data[p]);
  }

  /** Loading the first sixteen bytes into the strides, the register folded into the first. */
  lemma Loaded(l: bv32, data: seq<octet>, p: nat)
    requires p + 16 <= |data|
    ensures Combine(Xor(Word(data, p), Run(l, data[..p])), Word(data, p + 4), Word(data, p + 8), Word(data, p + 12)) ==
      Run(l, data[..p + 16])
  {
    hide Xor, Advance, Word, Run;
    var r, w0, w1, w2, w3 := Run(l, data[..p]), Word(data, p), Word(data, p + 4), Word(data, p + 8), Word(data, p + 12);
    FourRuns(l, data, p);
    FourWords(r, w0, w1, w2, w3);
    CombineLinear(w0, w1, w2, w3, r, 0, 0, 0);
    XorZero(w1);
    XorZero(w2);
    XorZero(w3);
    CombineFirst(r);
    Commutes(Combine(w0, w1, w2, w3), Advance(16, r));
  }

  lemma CombineFirst(r: bv32)
    ensures Combine(r, 0, 0, 0) == Advance(16, r)
  {
    hide Xor, Advance;
    AdvanceZero(12);
    AdvanceZero(8);
    AdvanceZero(4);
    XorZero(0);
    XorZero(Advance(16, r));
  }

  lemma FourRuns(l: bv32, data: seq<octet>, p: nat)
    requires p + 16 <= |data|
    ensures
      var r := Run(l, data[..p]);
      Run(l, data[..p + 16]) ==
        Advance(4, Xor(Advance(4, Xor(Advance(4, Xor(Advance(4, Xor(r, Word(data, p))), Word(data, p + 4))),
                                      Word(data, p + 8))), Word(data, p + 12)))
  {
    hide Xor, Advance, Word, Run;
    RunWord(l, data, p);
    RunWord(l, data, p + 4);
    RunWord(l, data, p + 8);
    RunWord(l, data, p + 12);
  }

  /** STEP16: all four strides move sixteen bytes on. */
  lemma Swath(l: bv32, data: seq<octet>, p: nat, c0: bv32, c1: bv32, c2: bv32, c3: bv32)
    requires p + 16 <= |data| && Combine(c0, c1, c2, c3) == Run(l, data[..p])
    ensures Combine(Step4(c0, Word(data, p)), Step4(c1, Word(data, p + 4)), Step4(c2, Word(data, p + 8)),
                    Step4(c3, Word(data, p + 12))) ==
            Run(l, data[..p + 16])
  {
    hide Xor, Advance, Word, Run, Combine, Step4;
    var w0, w1, w2, w3 := Word(data, p), Word(data, p + 4), Word(data, p + 8), Word(data, p + 12);
    Step4IsAdvance(c0, w0);
    Step4IsAdvance(c1, w1);
    Step4IsAdvance(c2, w2);
    Step4IsAdvance(c3, w3);
    CombineLinear(w0, w1, w2, w3, Advance(16, c0), Advance(16, c1), Advance(16, c2), Advance(16, c3));
    CombineAdvance(16, c0, c1, c2, c3);
    FourRuns(l, data, p);
    FourWords(Run(l, data[..p]), w0, w1, w2, w3);
    Commutes(Combine(w0, w1, w2, w3), Advance(16, Run(l, data[..p])));
  }

  /** One word, with the strides rotated. */
  lemma Rotated(l: bv32, data: seq<octet>, p: nat, c0: bv32, c1: bv32, c2: bv32, c3: bv32)
    requires p + 4 <= |data| && Combine(c0, c1, c2, c3) == Run(l, data[..p])
    ensures Combine(c1, c2, c3, Step4(c0, Word(data, p))) == Run(l, data[..p + 4])
  {
    hide Xor, Advance, Word, Run, Step4;
    var w := Word(data, p);
    Step4IsAdvance(c0, w);
    RunWord(l, data, p);
    Linear(4, Combine(c0, c1, c2, c3), w);
    Linear(4, Xor(Advance(16, c0), Advance(12, c1)), Xor(Advance(8, c2), Advance(4, c3)));
    Linear(4, Advance(16, c0), Advance(12, c1));
    Linear(4, Advance(8, c2), Advance(4, c3));
    Compose(4, 12, c1);
    Compose(4, 8, c2);
    Compose(4, 4, c3);
    Linear(4, w, Advance(16, c0));
    Rearranged(Advance(4, Advance(16, c0)), Advance(16, c1), Advance(12, c2), Advance(8, c3), Advance(4, w));
  }

  lemma Rearranged(a: bv32, b: bv32, c: bv32, d: bv32, e: bv32)
    ensures Xor(Xor(b, c), Xor(d, Xor(e, a))) == Xor(Xor(Xor(a, b), Xor(c, d)), e)
  {
    hide Xor;
    Associates(Xor(b, c), d, Xor(e, a));
    Associates(b, c, d);
    Associates(a, b, Xor(c, d));
    Commutes(a, Xor(b, Xor(c, d)));
    Commutes(e, a);
    Associates(Xor(b, Xor(c, d)), a, e);
  }

  /** STEP4W four times puts the partial results together. */
  lemma Combined(c0: bv32, c1: bv32, c2: bv32, c3: bv32)
    ensures Step4W(Step4W(Step4W(Step4W(0, c0), c1), c2), c3) == Combine(c0, c1, c2, c3)
  {
    hide Xor, Advance, Step4W;
    Step4WIsAdvance(0, c0);
    var l1 := Step4W(0, c0);
    Step4WIsAdvance(l1, c1);
    var l2 := Step4W(l1, c1);
    Step4WIsAdvance(l2, c2);
    Step4WIsAdvance(Step4W(l2, c2), c3);
    FourWords(0, c0, c1, c2, c3);
    AdvanceZero(16);
    XorZero(Combine(c0, c1, c2, c3));
  }

  /** Extend, for data that starts at this address: byte by byte to a word boundary, then the strides, then the tail. */
  method Extend(crc: bv32, data: seq<octet>, address: nat) returns (r: bv32)
    ensures r == Checksum(crc, data)
  {
    hide Xor, Word, Combine, Step1, Step4, Step4W, Run;
    ghost var start := Xor(crc, XOR);
    var l := Xor(crc, XOR);
    var p := 0;
    var x := (4 - address % 4) % 4;
    RunNothing(start, data);
    if x <= |data| {
      while p != x
        invariant p <= x && l == Run(start, data[..p])
      {
        RunByte(start, data, p);
        l, p := Step1(l, data[p]), p + 1;
      }
    }
    if |data| - p >= 16 {
      var crc0, crc1, crc2, crc3 := Xor(Word(data, p), l), Word(data, p + 4), Word(data, p + 8), Word(data, p + 12);
      Loaded(start, data, p);
      p := p + 16;
      while |data| - p >= 16
        invariant p <= |data| && Combine(crc0, crc1, crc2, crc3) == Run(start, data[..p])
      {
        Swath(start, data, p, crc0, crc1, crc2, crc3);
        crc0, crc1, crc2, crc3 :=
          Step4(crc0, Word(data, p)), Step4(crc1, Word(data, p + 4)),
          Step4(crc2, Word(data, p + 8)), Step4(crc3, Word(data, p + 12));
        p := p + 16;
      }
      while |data| - p >= 4
        invariant p <= |data| && Combine(crc0, crc1, crc2, crc3) == Run(start, data[..p])
      {
        Rotated(start, data, p, crc0, crc1, crc2, crc3);
        crc0, crc1, crc2, crc3 := crc1, crc2, crc3, Step4(crc0, Word(data, p));
        p := p + 4;
      }
      Combined(crc0, crc1, crc2, crc3);
      l := Step4W(0, crc0);
      l := Step4W(l, crc1);
      l := Step4W(l, crc2);
      l := Step4W(l, crc3);
    }
    while p != |data|
      invariant p <= |data| && l == Run(start, data[..p])
    {
      RunByte(start, data, p);
      l, p := Step1(l, data[p]), p + 1;
    }
    assert data[..|data|] == data;
    r := Xor(l, XOR);
  }

  lemma RunNothing(l: bv32, data: seq<octet>)
    ensures Run(l, data[..0]) == l
  {
  }

  // ----- concatenation and masking -----

  lemma {:induction false} RunConcat(l: bv32, a: seq<octet>, b: seq<octet>)
    ensures Run(l, a + b) == Run(Run(l, a), b)
  {
    hide Xor, Advance1;
    if |b| == 0 {
      assert a + b == a;
    } else {
      var init := b[..|b| - 1];
      RunConcat(l, a, init);
      assert (a + b)[..|a + b| - 1] == a + init;
    }
  }

  /** Extending by one string and then another is extending by both. */
  lemma ExtendConcat(crc: bv32, a: seq<octet>, b: seq<octet>)
    ensures Checksum(Checksum(crc, a), b) == Checksum(crc, a + b)
  {
    hide Xor, Run;
    var l := Run(Xor(crc, XOR), a);
    Associates(l, XOR, XOR);
    XorZero(XOR);
    XorZero(l);
    RunConcat(Xor(crc, XOR), a, b);
  }

  const MASK_DELTA: bv32 := 0xa282ead8

  function Mask(crc: bv32): bv32 {
    ((crc >> 15) | (crc << 17)) + MASK_DELTA
  }

  function Unmask(masked: bv32): bv32 {
    var rot := masked - MASK_DELTA;
    (rot >> 17) | (rot << 15)
  }

  /** Masking and unmasking undo each other, so stored checksums can be compared masked. */
  lemma MaskRoundTrip(x: bv32)
    ensures Unmask(Mask(x)) == x && Mask(Unmask(x)) == x
  {
  }
}
