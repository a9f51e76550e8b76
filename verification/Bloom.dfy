/** The Bloom filter policy (util/bloom.cc), for an arbitrary hash function. */
module Bloom {
  import opened ByteKeys
  import opened Coding

  type Key = seq<byte>

  const TWO_62: nat := 0x4000_0000_0000_0000

  /** The number of probes is between 1 and 30. */
  datatype Policy = Policy(hash: Key -> nat, bitsPerKey: nat, probes: nat)

  predicate PolicyOk(p: Policy) {
    1 <= p.probes <= 30 && p.bitsPerKey < TWO_31
  }

  // ----- bits -----

  /** Bit `i` of a number: `b & (1 << i)`. */
  predicate HasBit(b: nat, i: nat) {
    if i == 0 then b % 2 == 1 else HasBit(b / 2, i - 1)
  }

  /** `b | (1 << i)`. */
  function WithBit(b: nat, i: nat): nat {
    if i == 0 then b / 2 * 2 + 1 else WithBit(b / 2, i - 1) * 2 + b % 2
  }

  lemma PowerDoubles(n: nat)
    requires n > 0
    ensures Power(2, n) == 2 * Power(2, n - 1)
  {
  }

  lemma Halves(b: nat, m: nat)
    requires b < 2 * m
    ensures b / 2 < m && b == b / 2 * 2 + b % 2
  {
  }

  lemma {:induction false} WithBitFits(b: nat, i: nat, n: nat)
    requires i < n && b < Power(2, n)
    ensures WithBit(b, i) < Power(2, n)
  {
    hide Power;
    PowerDoubles(n);
    Halves(b, Power(2, n - 1));
    if i > 0 {
      WithBitFits(b / 2, i - 1, n - 1);
    }
  }

  /** The bit is set and no bit is cleared. */
  lemma {:induction false} WithBitMeans(b: nat, i: nat, j: nat)
    ensures HasBit(WithBit(b, i), j) <==> i == j || HasBit(b, j)
  {
    if i > 0 && j > 0 {
      WithBitMeans(b / 2, i - 1, j - 1);
    }
  }

  function SetBit(b: byte, i: nat): (r: byte)
    requires i < 8
  {
    assert Power(2, 8) == 256 by {
      assert Power(2, 4) == 16 && Power(2, 5) == 32 && Power(2, 6) == 64 && Power(2, 7) == 128;
    }
    WithBitFits(b, i, 8);
    WithBit(b, i)
  }

  predicate BitIn(array_: seq<byte>, pos: nat)
    requires pos < 8 * |array_|
  {
    HasBit(array_[pos / 8], pos % 8)
  }

  function PutBit(array_: seq<byte>, pos: nat): (r: seq<byte>)
    requires pos < 8 * |array_|
    ensures |r| == |array_|
  {
    array_[pos / 8 := SetBit(array_[pos / 8], pos % 8)]
  }

  lemma PutBitMeans(array_: seq<byte>, pos: nat, q: nat)
    requires pos < 8 * |array_| && q < 8 * |array_|
    ensures BitIn(PutBit(array_, pos), q) <==> pos == q || BitIn(array_, q)
  {
    WithBitMeans(array_[pos / 8], pos % 8, q % 8);
  }

  // ----- probes: double hashing with a rotated hash -----

  function Rotate(h: nat): nat {
    h / 0x2_0000 + h % 0x2_0000 * 0x8000
  }

  /** Probe `j`: the hash plus `j` times its rotation, modulo 2^32. */
  function Probe(h: nat, j: nat): nat {
    if j == 0 then h % TWO_32 else (Probe(h, j - 1) + Rotate(h % TWO_32)) % TWO_32
  }

  /** All probes of the hash hit set bits. */
  ghost predicate AllSet(array_: seq<byte>, h: nat, probes: nat)
    requires |array_| > 0
  {
    forall j: nat :: j < probes ==> BitIn(array_, Probe(h, j) % (8 * |array_|))
  }

  /** A product of two ints that are not negative stays far below 64 bits. */
  lemma ProductFits(n: nat, bitsPerKey: nat)
    requires n < TWO_31 && bitsPerKey < TWO_31
    ensures 0 <= n * bitsPerKey < TWO_62
  {
    assert n * bitsPerKey <= n * TWO_31 <= TWO_31 * TWO_31;
  }

  /** The product of an int and a size, which have 32 and 64 bits. */
  function SizeTimes(n: int, bitsPerKey: nat): (bits: nat)
    ensures 0 <= n < TWO_31 && bitsPerKey < TWO_31 ==> bits == n * bitsPerKey < TWO_62
  {
    if 0 <= n < TWO_31 && bitsPerKey < TWO_31 then
      ProductFits(n, bitsPerKey);
      n * bitsPerKey
    else
      n * bitsPerKey % TWO_64
  }

  /** The bytes of bits for `n` keys. */
  function Bytes(n: int, bitsPerKey: nat): (b: nat)
    ensures 0 <= n < TWO_31 && bitsPerKey < TWO_31 ==> b >= 8
  {
    var bits := SizeTimes(n, bitsPerKey);
    ((if bits < 64 then 64 else bits) + 7) % TWO_64 / 8
  }

  /** Room for the bits asked for, and for at least 64, rounded up to whole bytes. */
  lemma FilterSize(n: int, bitsPerKey: nat)
    requires 0 <= n < TWO_31 && bitsPerKey < TWO_31
    ensures
      var asked := if n * bitsPerKey < 64 then 64 else n * bitsPerKey;
      asked <= 8 * Bytes(n, bitsPerKey) < asked + 8
  {
    ProductFits(n, bitsPerKey);
  }

  /** The bits of some filter for the first `n` keys, then the number of probes. */
  ghost predicate IsFilter(p: Policy, keys: seq<Key>, n: int, filter: seq<byte>)
    requires n <= |keys| && n < TWO_31
  {
    && |filter| == Bytes(n, p.bitsPerKey) + 1 && PolicyOk(p) && filter[|filter| - 1] == p.probes
    && forall i :: 0 <= i < n ==> AllSet(filter[..|filter| - 1], p.hash(keys[i]), p.probes)
  }

  lemma PutBitKeepsAll(array_: seq<byte>, pos: nat, h: nat, probes: nat)
    requires 0 < |array_| && pos < 8 * |array_| && AllSet(array_, h, probes)
    ensures AllSet(PutBit(array_, pos), h, probes)
  {
    forall j: nat | j < probes ensures BitIn(PutBit(array_, pos), Probe(h, j) % (8 * |array_|)) {
      PutBitMeans(array_, pos, Probe(h, j) % (8 * |array_|));
    }
  }

  predicate Hits(p: Policy, key: Key, j: nat, pos: nat, bits: nat)
    requires bits > 0
  {
    j < p.probes && pos == Probe(p.hash(key), j) % bits
  }

  ghost predicate SomeProbe(p: Policy, keys: seq<Key>, n: nat, pos: nat, bits: nat)
    requires n <= |keys| && bits > 0
  {
    exists k: nat, j: nat :: k < n && Hits(p, keys[k], j, pos, bits)
  }

  /** No bit is set but by a probe of one of the first `n` keys. */
  ghost predicate OnlyProbes(p: Policy, keys: seq<Key>, n: nat, array_: seq<byte>)
    requires n <= |keys|
  {
    forall pos: nat :: pos < 8 * |array_| && BitIn(array_, pos) ==> SomeProbe(p, keys, n, pos, 8 * |array_|)
  }

  lemma {:induction false} ZeroHasNoBit(i: nat)
    ensures !HasBit(0, i)
  {
    if i > 0 {
      ZeroHasNoBit(i - 1);
    }
  }

  lemma StartsClear(p: Policy, keys: seq<Key>, array_: seq<byte>)
    requires forall i :: 0 <= i < |array_| ==> array_[i] == 0
    ensures OnlyProbes(p, keys, 0, array_)
  {
    forall pos: nat | pos < 8 * |array_| ensures !BitIn(array_, pos) {
      ZeroHasNoBit(pos % 8);
    }
  }

  lemma ProbeAdds(p: Policy, keys: seq<Key>, i: nat, array_: seq<byte>, j: nat)
    requires i < |keys| && j < p.probes && 0 < |array_| && OnlyProbes(p, keys, i + 1, array_)
    ensures OnlyProbes(p, keys, i + 1, PutBit(array_, Probe(p.hash(keys[i]), j) % (8 * |array_|)))
  {
    var at := Probe(p.hash(keys[i]), j) % (8 * |array_|);
    forall pos: nat | pos < 8 * |array_| && BitIn(PutBit(array_, at), pos)
      ensures SomeProbe(p, keys, i + 1, pos, 8 * |array_|)
    {
      PutBitMeans(array_, at, pos);
      assert pos == at ==> Hits(p, keys[i], j, pos, 8 * |array_|);
    }
  }

  lemma MoreKeys(p: Policy, keys: seq<Key>, i: nat, array_: seq<byte>)
    requires i < |keys| && OnlyProbes(p, keys, i, array_)
    ensures OnlyProbes(p, keys, i + 1, array_)
  {
  }

  /** CreateFilter, for the first `n` of the keys; `n` is an int, and with a negative one no key is looked at. */
  method CreateFilter(p: Policy, keys: seq<Key>, n: int) returns (filter: seq<byte>)
    requires PolicyOk(p) && n <= |keys| && n < TWO_31
    ensures IsFilter(p, keys, n, filter)
    ensures OnlyProbes(p, keys, if n < 0 then 0 else n, filter[..|filter| - 1])
  {
    hide OnlyProbes, AllSet, BitIn;
    var bytes := Bytes(n, p.bitsPerKey);
    var array_ := seq(bytes, _ => 0);
    StartsClear(p, keys, array_);
    var i := 0;
    while i < n
      invariant 0 <= i && (i <= n || i == 0)
      invariant |array_| == bytes && OnlyProbes(p, keys, i, array_)
      invariant forall k :: 0 <= k < i ==> AllSet(array_, p.hash(keys[k]), p.probes)
    {
      array_ := AddProbes(p, keys, i, array_);
      i := i + 1;
    }
    filter := array_ + [p.probes];
    assert filter[..bytes] == array_;
  }

  /** One turn of CreateFilter's loop: the probes of key `i` are set, and those of the keys before it stay. */
  method AddProbes(p: Policy, keys: seq<Key>, i: nat, before: seq<byte>) returns (array_: seq<byte>)
    requires i < |keys| && |before| > 0 && OnlyProbes(p, keys, i, before)
    requires forall k :: 0 <= k < i ==> AllSet(before, p.hash(keys[k]), p.probes)
    ensures |array_| == |before| && OnlyProbes(p, keys, i + 1, array_)
    ensures forall k :: 0 <= k < i + 1 ==> AllSet(array_, p.hash(keys[k]), p.probes)
  {
    hide OnlyProbes, AllSet, BitIn, PutBit, Rotate;
    array_ := before;
    var bits := |array_| * 8;
    var key := p.hash(keys[i]);
    var h := key % TWO_32;
    var delta := Rotate(h);
    MoreKeys(p, keys, i, array_);
    NoProbesYet(array_, key);
    for j := 0 to p.probes
      invariant |array_| == |before| && OnlyProbes(p, keys, i + 1, array_)
      invariant h == Probe(key, j) && delta == Rotate(key % TWO_32)
      invariant forall k :: 0 <= k < i ==> AllSet(array_, p.hash(keys[k]), p.probes)
      invariant AllSet(array_, key, j)
    {
      var pos := h % bits;
      OneMoreProbe(array_, key, j);
      ProbeAdds(p, keys, i, array_, j);
      forall k | 0 <= k < i ensures AllSet(PutBit(array_, pos), p.hash(keys[k]), p.probes) {
        PutBitKeepsAll(array_, pos, p.hash(keys[k]), p.probes);
      }
      array_ := PutBit(array_, pos);
      h := (h + delta) % TWO_32;
    }
  }

  lemma NoProbesYet(array_: seq<byte>, h: nat)
    requires |array_| > 0
    ensures AllSet(array_, h, 0)
  {
  }

  lemma OneMoreProbe(array_: seq<byte>, h: nat, j: nat)
    requires 0 < |array_| && AllSet(array_, h, j)
    ensures AllSet(PutBit(array_, Probe(h, j) % (8 * |array_|)), h, j + 1)
  {
    var pos := Probe(h, j) % (8 * |array_|);
    PutBitKeepsAll(array_, pos, h, j);
    PutBitMeans(array_, pos, pos);
  }

  /** What KeyMayMatch answers, for any bytes. */
  ghost predicate MayMatch(hash: Key -> nat, key: Key, filter: seq<byte>) {
    |filter| >= 2 &&
    (filter[|filter| - 1] > 30 || AllSet(filter[..|filter| - 1], hash(key), filter[|filter| - 1]))
  }

  method KeyMayMatch(hash: Key -> nat, key: Key, filter: seq<byte>) returns (match_: bool)
    ensures match_ <==> MayMatch(hash, key, filter)
  {
    var len := |filter|;
    if len < 2 {
      return false;
    }
    var array_ := filter[..len - 1];
    var bits := (len - 1) * 8;
    var k := filter[len - 1];
    if k > 30 {
      return true;
    }
    var h := hash(key) % TWO_32;
    var delta := Rotate(h);
    for j := 0 to k
      invariant h == Probe(hash(key), j) && AllSet(array_, hash(key), j)
    {
      var pos := h % bits;
      if !BitIn(array_, pos) {
        return false;
      }
      h := (h + delta) % TWO_32;
    }
    return true;
  }

  /** No false negatives: a filter matches every key it was made from. */
  lemma NoFalseNegatives(p: Policy, keys: seq<Key>, n: int, filter: seq<byte>, i: nat)
    requires i < n <= |keys| && n < TWO_31 && IsFilter(p, keys, n, filter)
    ensures MayMatch(p.hash, keys[i], filter)
  {
  }

  /** Nor is any filter read by fewer probes than it was made with: a key matches exactly if all its bits are set. */
  lemma FilterReadsExactly(p: Policy, keys: seq<Key>, n: int, filter: seq<byte>, key: Key)
    requires 0 <= n <= |keys| && n < TWO_31 && IsFilter(p, keys, n, filter)
    ensures |filter| >= 9
    ensures MayMatch(p.hash, key, filter) <==> AllSet(filter[..|filter| - 1], p.hash(key), p.probes)
  {
    hide AllSet;
    FilterSize(n, p.bitsPerKey);
  }
}
