/** Fixed-width and variable-length integers and length-prefixed slices (util/coding.cc, util/coding.h). */
module Coding {
  import opened ByteKeys
  import opened Levels

  const TWO_32: nat := 0x1_0000_0000
  const TWO_31: nat := 0x8000_0000
  const TWO_64: nat := 0x1_0000_0000_0000_0000

  // ----- fixed width, little endian -----

  function Fixed(n: nat, width: nat): (s: seq<byte>)
    ensures |s| == width
  {
    if width == 0 then [] else [n % 256] + Fixed(n / 256, width - 1)
  }

  function DecodeFixed(s: seq<byte>): nat {
    if |s| == 0 then 0 else s[0] + 256 * DecodeFixed(s[1..])
  }

  function Power(b: nat, e: nat): nat {
    if e == 0 then 1 else b * Power(b, e - 1)
  }

  lemma {:induction false} FixedRoundTrip(n: nat, width: nat)
    requires n < Power(256, width)
    ensures DecodeFixed(Fixed(n, width)) == n
  {
    if width > 0 {
      FixedRoundTrip(n / 256, width - 1);
      assert Fixed(n, width)[1..] == Fixed(n / 256, width - 1);
    }
  }

  /** What is written is cut to 32 bits. */
  lemma Fixed32RoundTrip(n: nat)
    requires n < TWO_32
    ensures DecodeFixed(Fixed(n % TWO_32, 4)) == n
  {
    hide Fixed, DecodeFixed, Power;
    Powers();
    FixedRoundTrip(n, 4);
  }

  lemma {:induction false} FixedBounded(s: seq<byte>)
    ensures DecodeFixed(s) < Power(256, |s|)
  {
    if |s| > 0 {
      FixedBounded(s[1..]);
    }
  }

  /** Every four bytes are some number's encoding. */
  lemma {:induction false} FixedSurjective(s: seq<byte>)
    ensures Fixed(DecodeFixed(s), |s|) == s
  {
    if |s| > 0 {
      FixedSurjective(s[1..]);
      var n := DecodeFixed(s);
      assert n % 256 == s[0] && n / 256 == DecodeFixed(s[1..]);
    }
  }

  lemma Powers()
    ensures Power(256, 4) == TWO_32 && Power(256, 8) == TWO_64
  {
    assert Power(256, 1) == 256 && Power(256, 2) == 0x1_0000 && Power(256, 3) == 0x100_0000;
    assert Power(256, 4) == TWO_32;
    assert Power(256, 5) == 256 * TWO_32 && Power(256, 6) == 0x1_0000 * TWO_32 && Power(256, 7) == 0x100_0000 * TWO_32;
  }

  // ----- varints -----

  /** Seven bits a byte, least significant first, the high bit set on all but the last. */
  function Varint(v: nat): (s: seq<byte>)
    ensures |s| > 0
  {
    if v < 128 then [v] else [v % 128 + 128] + Varint(v / 128)
  }

  /** The number the low seven bits of the bytes make. */
  function Value(s: seq<byte>): nat {
    if |s| == 0 then 0 else s[0] % 128 + 128 * Value(s[1..])
  }

  /** The first byte of at most `max` whose high bit is clear. */
  function Terminator(s: seq<byte>, max: nat): Option<nat> {
    if max == 0 || s == [] then None
    else if s[0] < 128 then Some(0)
    else
      var k := Terminator(s[1..], max - 1);
      if k.Some? then Some(k.value + 1) else None
  }

  lemma {:induction false} TerminatorMeans(s: seq<byte>, max: nat)
    ensures
      match Terminator(s, max)
      case Some(k) => k < max && k < |s| && s[k] < 128 && forall i :: 0 <= i < k ==> s[i] >= 128
      case None => forall i :: 0 <= i < max && i < |s| ==> s[i] >= 128
  {
    if max > 0 && s != [] && s[0] >= 128 {
      TerminatorMeans(s[1..], max - 1);
    }
  }

  datatype Parsed<+T> = Parsed(value: T, rest: seq<byte>)

  /** GetVarint32 with at most 5 bytes modulo 2^32, GetVarint64 with at most 10 modulo 2^64. */
  function GetVarint(s: seq<byte>, max: nat, modulus: nat): (r: Option<Parsed<nat>>)
    requires modulus > 0
    ensures r.Some? ==> |r.value.rest| < |s|
  {
    TerminatorMeans(s, max);
    var k := Terminator(s, max);
    if k.Some? then Some(Parsed(Value(s[..k.value + 1]) % modulus, s[k.value + 1..])) else None
  }

  function GetVarint32(s: seq<byte>): (r: Option<Parsed<nat>>)
    ensures r.Some? ==> |r.value.rest| < |s|
  {
    GetVarint(s, 5, TWO_32)
  }

  function GetVarint64(s: seq<byte>): (r: Option<Parsed<nat>>)
    ensures r.Some? ==> |r.value.rest| < |s|
  {
    GetVarint(s, 10, TWO_64)
  }

  lemma {:induction false} VarintParses(v: nat, t: seq<byte>, max: nat)
    requires |Varint(v)| <= max
    ensures Terminator(Varint(v) + t, max) == Some(|Varint(v)| - 1) && Value(Varint(v)) == v
  {
    var s := Varint(v) + t;
    if v >= 128 {
      VarintParses(v / 128, t, max - 1);
      assert s[1..] == Varint(v / 128) + t && Varint(v)[1..] == Varint(v / 128);
    }
  }

  lemma {:induction false} VarintLength(v: nat, max: nat)
    requires max > 0 && v < Power(128, max)
    ensures |Varint(v)| <= max
  {
    if v >= 128 {
      VarintLength(v / 128, max - 1);
    }
  }

  /** Decoding undoes encoding and leaves what follows. */
  lemma VarintRoundTrip(v: nat, t: seq<byte>, max: nat, modulus: nat)
    requires v < modulus && |Varint(v)| <= max
    ensures GetVarint(Varint(v) + t, max, modulus) == Some(Parsed(v, t))
  {
    VarintParses(v, t, max);
    DivisionUnique(v, 0, v, modulus);
    assert (Varint(v) + t)[..|Varint(v)|] == Varint(v);
    assert (Varint(v) + t)[|Varint(v)|..] == t;
  }

  lemma Powers7()
    ensures Power(128, 5) == 0x8_0000_0000 && TWO_64 <= Power(128, 10)
  {
    assert Power(128, 1) == 128 && Power(128, 2) == 0x4000 && Power(128, 3) == 0x20_0000 &&
      Power(128, 4) == 0x1000_0000;
    assert Power(128, 6) == 128 * 0x8_0000_0000 && Power(128, 7) == 0x4000 * 0x8_0000_0000;
    assert Power(128, 8) == 0x20_0000 * 0x8_0000_0000 && Power(128, 9) == 0x1000_0000 * 0x8_0000_0000;
  }

  lemma Varint32RoundTrip(v: nat, t: seq<byte>)
    requires v < TWO_32
    ensures GetVarint32(Varint(v) + t) == Some(Parsed(v, t)) && |Varint(v)| <= 5
  {
    Powers7();
    VarintLength(v, 5);
    VarintRoundTrip(v, t, 5, TWO_32);
  }

  lemma Varint64RoundTrip(v: nat, t: seq<byte>)
    requires v < TWO_64
    ensures GetVarint64(Varint(v) + t) == Some(Parsed(v, t)) && |Varint(v)| <= 10
  {
    Powers7();
    VarintLength(v, 10);
    VarintRoundTrip(v, t, 10, TWO_64);
  }

  /** EncodeVarint64's loop. */
  method EncodeVarint64(v: nat) returns (s: seq<byte>)
    ensures s == Varint(v)
  {
    s := [];
    var rest := v;
    while rest >= 128
      invariant s + Varint(rest) == Varint(v)
    {
      assert s + Varint(rest) == s + [rest % 128 + 128] + Varint(rest / 128);
      s, rest := s + [rest % 128 + 128], rest / 128;
    }
    s := s + [rest];
  }

  /** EncodeVarint32's unrolled cases agree with the loop. */
  method EncodeVarint32(v: nat) returns (s: seq<byte>)
    requires v < TWO_32
    ensures s == Varint(v)
  {
    Unrolled(v, v / 0x4000, v / 0x20_0000, v / 0x1000_0000);
    if v < 0x80 {
      s := [v];
    } else if v < 0x4000 {
      s := [v % 128 + 128, v / 128];
    } else if v < 0x20_0000 {
      s := [v % 128 + 128, v / 128 % 128 + 128, v / 0x4000];
    } else if v < 0x1000_0000 {
      s := [v % 128 + 128, v / 128 % 128 + 128, v / 0x4000 % 128 + 128, v / 0x20_0000];
    } else {
      s := [v % 128 + 128, v / 128 % 128 + 128, v / 0x4000 % 128 + 128, v / 0x20_0000 % 128 + 128, v / 0x1000_0000];
    }
  }

  lemma Unrolled(v: nat, v2: nat, v3: nat, v4: nat)
    requires v < TWO_32 && v2 == v / 0x4000 && v3 == v / 0x20_0000 && v4 == v / 0x1000_0000
    ensures Varint(v) ==
              if v < 0x80 then [v]
              else if v < 0x4000 then [v % 128 + 128, v / 128]
              else if v < 0x20_0000 then [v % 128 + 128, v / 128 % 128 + 128, v2]
              else if v < 0x1000_0000 then [v % 128 + 128, v / 128 % 128 + 128, v2 % 128 + 128, v3]
              else [v % 128 + 128, v / 128 % 128 + 128, v2 % 128 + 128, v3 % 128 + 128, v4]
  {
    assert v / 128 / 128 == v2 && v2 / 128 == v3 && v3 / 128 == v4 && v4 < 128;
    assert v3 >= 128 ==> Varint(v3) == [v3 % 128 + 128, v4];
    assert v2 >= 128 ==> Varint(v2) == [v2 % 128 + 128] + Varint(v3);
    assert v / 128 >= 128 ==> Varint(v / 128) == [v / 128 % 128 + 128] + Varint(v2);
    assert v >= 128 ==> Varint(v) == [v % 128 + 128] + Varint(v / 128);
  }

  /** The decoding loop of GetVarint32 and GetVarint64: OR-ing in seven shifted bits at a time adds them. */
  method DecodeVarint(s: seq<byte>, max: nat, modulus: nat) returns (r: Option<Parsed<nat>>)
    requires modulus > 0
    ensures r == GetVarint(s, max, modulus)
  {
    hide Value;
    var result: nat, shifted: nat, i: nat := 0, 1, 0;
    TerminatorMeans(s, max);
    NoDigits(s);
    while i < max && i < |s|
      invariant i <= max && i <= |s| && shifted == Power(128, i)
      invariant forall j :: 0 <= j < i ==> s[j] >= 128
      invariant result % modulus == Value(s[..i]) % modulus
    {
      var last := s[i] < 128;
      result := AddDigit(s, i, result, shifted, modulus);
      shifted, i := shifted * 128, i + 1;
      if last {
        return Some(Parsed(result % modulus, s[i..]));
      }
    }
    return None;
  }

  lemma NoDigits(s: seq<byte>)
    ensures Value(s[..0]) == 0
  {
  }

  /** The seven bits of byte `i`, shifted to their place. */
  method AddDigit(s: seq<byte>, i: nat, result: nat, shifted: nat, modulus: nat) returns (sum: nat)
    requires i < |s| && modulus > 0 && shifted == Power(128, i) && result % modulus == Value(s[..i]) % modulus
    ensures sum % modulus == Value(s[..i + 1]) % modulus
  {
    ValueAppend(s, i);
    var part: nat := (s[i] as int % 128) * shifted;
    ModuloSum(result, Value(s[..i]), part, modulus);
    sum := result + part;
  }

  lemma ModuloSum(a: nat, b: nat, c: nat, m: nat)
    requires m > 0 && a % m == b % m
    ensures (a + c) % m == (b + c) % m
  {
    var x, y := a / m, b / m;
    assert a == x * m + a % m && b == y * m + a % m;
    assert a - b == (x - y) * m;
    SameModulo(b + c, x - y, m);
  }

  lemma SameModulo(n: int, k: int, m: nat)
    requires m > 0
    ensures (n + k * m) % m == n % m
  {
    var q, r := n / m, n % m;
    assert n + k * m == (q + k) * m + r;
    DivisionUnique(n + k * m, q + k, r, m);
  }

  lemma DivisionUnique(n: int, q: int, r: int, m: nat)
    requires m > 0 && n == q * m + r && 0 <= r < m
    ensures n % m == r
  {
    var d := q - n / m;
    assert n == n / m * m + n % m;
    Distribute(q, n / m, m);
    if d > 0 {
      AtLeastOnce(d, m);
    }
    if d < 0 {
      AtLeastOnce(-d, m);
      Distribute(0, d, m);
    }
  }

  lemma Distribute(a: int, b: int, m: int)
    ensures (a - b) * m == a * m - b * m
  {
  }

  lemma AtLeastOnce(d: int, m: nat)
    requires d > 0
    ensures d * m >= m
  {
  }

  lemma Regroup(v: nat, digit: nat, power: nat)
    ensures 128 * (v + digit * power) == 128 * v + digit * (128 * power)
  {
  }

  lemma {:induction false} ValueAppend(s: seq<byte>, i: nat)
    requires i < |s|
    ensures Value(s[..i + 1]) == Value(s[..i]) + (s[i] as int % 128) * Power(128, i)
  {
    if i > 0 {
      ValueAppend(s[1..], i - 1);
      assert s[..i + 1][1..] == s[1..][..i] && s[..i][1..] == s[1..][..i - 1];
      assert Value(s[..i + 1]) == s[0] % 128 + 128 * Value(s[1..][..i]);
      assert Value(s[..i]) == s[0] % 128 + 128 * Value(s[1..][..i - 1]);
      Regroup(Value(s[1..][..i - 1]), s[i] % 128, Power(128, i - 1));
    } else {
      assert s[..1] == [s[0]];
    }
  }

  // ----- length-prefixed slices -----

  function PutSlice(value: seq<byte>): seq<byte> {
    Varint(|value| % TWO_32) + value
  }

  function GetSlice(s: seq<byte>): (r: Option<Parsed<seq<byte>>>)
    ensures r.Some? ==> |r.value.rest| < |s|
  {
    var n := GetVarint32(s);
    if n.Some? && |n.value.rest| >= n.value.value then
      Some(Parsed(n.value.rest[..n.value.value], n.value.rest[n.value.value..]))
    else None
  }

  lemma SliceRoundTrip(value: seq<byte>, t: seq<byte>)
    requires |value| < TWO_32
    ensures GetSlice(PutSlice(value) + t) == Some(Parsed(value, t))
  {
    hide Varint, GetVarint32;
    Varint32RoundTrip(|value|, value + t);
    Splits(Varint(|value|), value, t);
  }

  lemma Splits(a: seq<byte>, b: seq<byte>, c: seq<byte>)
    ensures a + b + c == a + (b + c) && (b + c)[..|b|] == b && (b + c)[|b|..] == c
  {
  }
}
