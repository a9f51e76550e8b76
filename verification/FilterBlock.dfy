/**
 The filter block of a table (table/filter_block.cc): one Bloom filter for every 2 KiB of data block offsets, an array
 of where each starts, and a reader that must never deny a key of the data block it is asked about.
 */
module FilterBlock {
  import opened Levels
  import opened ByteKeys
  import opened Coding
  import opened Bloom

  const BASE_LG: nat := 11
  const BASE: nat := 2048

  /** A key and the offset of the data block that was open when it was added. */
  datatype Added = Added(offset: nat, key: Key)

  /** A count as an `int`: `static_cast<int>(count)`. */
  function AsInt(count: nat): (n: int)
    ensures n <= count && -0x8000_0000 <= n < TWO_31 && (count < TWO_31 ==> n == count)
  {
    var low := count % TWO_32;
    if low < TWO_31 then low else low - TWO_32
  }

  /** Filter `i` lies between its offset and the next. */
  function EndOf(offsets: seq<nat>, size: nat, i: nat): nat
    requires i < |offsets|
  {
    if i + 1 < |offsets| then offsets[i + 1] else size
  }

  ghost predicate FilterAt(p: Policy, result: seq<byte>, offsets: seq<nat>, groups: seq<seq<Key>>, i: nat)
    requires i < |offsets| == |groups|
  {
    var end := EndOf(offsets, |result|, i);
    && offsets[i] <= end <= |result|
    && (groups[i] != [] ==> IsFilter(p, groups[i], AsInt(|groups[i]|), result[offsets[i]..end]))
  }

  /** The filters written so far, one for each group of keys; a group without keys has none. */
  ghost predicate FiltersOk(p: Policy, result: seq<byte>, offsets: seq<nat>, groups: seq<seq<Key>>) {
    |offsets| == |groups| && forall i: nat :: i < |groups| ==> FilterAt(p, result, offsets, groups, i)
  }

  /** The flattened keys: key `i` runs from `start[i]` to the next start. */
  ghost predicate Flat(flat: seq<byte>, start: seq<nat>, keys: seq<Key>) {
    && |start| == |keys|
    && forall i :: 0 <= i < |keys| ==> KeyAt(flat, start, keys, i)
  }

  ghost predicate KeyAt(flat: seq<byte>, start: seq<nat>, keys: seq<Key>, i: nat)
    requires i < |start| == |keys|
  {
    var end := EndOf(start, |flat|, i);
    start[i] <= end <= |flat| && flat[start[i]..end] == keys[i]
  }

  class FilterBlockBuilder {
    const policy: Policy
    var keys: seq<byte>            // the pending keys, flattened
    var start: seq<nat>            // where each starts
    var result: seq<byte>
    var offsets: seq<nat>
    ghost var pending: seq<Key>
    ghost var groups: seq<seq<Key>>
    ghost var current: nat         // the offset of the open data block
    ghost var added: set<Added>

    /** Every key is in the filter of its block's 2 KiB, or pending for the next one. */
    ghost predicate Accounted()
      reads this`pending, this`groups, this`added
    {
      forall a :: a in added ==>
        && a.offset / BASE <= |groups|
        && a.key in if a.offset / BASE < |groups| then groups[a.offset / BASE] else pending
    }

    ghost predicate Valid()
      reads this
    {
      && PolicyOk(policy) && Flat(keys, start, pending) && FiltersOk(policy, result, offsets, groups)
      && Accounted() && current / BASE == |groups|
    }

    constructor (policy: Policy)
      requires PolicyOk(policy)
      ensures Valid() && this.policy == policy && added == {} && offsets == []
    {
      this.policy, keys, start, result, offsets := policy, [], [], [], [];
      pending, groups, current, added := [], [], 0, {};
    }

    /** A data block opens; filters for the 2 KiB ranges passed over are written. */
    method StartBlock(offset: nat)
      requires Valid() && offset / BASE >= |offsets|
      modifies this
      ensures Valid() && added == old(added) && current == offset
    {
      var index := offset / BASE;
      while index > |offsets|
        invariant PolicyOk(policy) && Flat(keys, start, pending) && FiltersOk(policy, result, offsets, groups)
        invariant Accounted() && |offsets| <= index && added == old(added)
      {
        GenerateFilter();
      }
      current := offset;
    }

    method AddKey(key: Key)
      requires Valid()
      modifies this`keys, this`start, this`pending, this`added
      ensures Valid() && added == old(added) + {Added(current, key)}
    {
      AppendFlat(keys, start, pending, key);
      start := start + [|keys|];
      keys := keys + key;
      pending := pending + [key];
      added := added + {Added(current, key)};
    }

    method GenerateFilter()
      requires PolicyOk(policy) && Flat(keys, start, pending) && FiltersOk(policy, result, offsets, groups) &&
        Accounted()
      modifies this`keys, this`start, this`result, this`offsets, this`pending, this`groups
      ensures Flat(keys, start, pending) && FiltersOk(policy, result, offsets, groups) && Accounted()
      ensures pending == [] && groups == old(groups) + [old(pending)]
    {
      var numKeys := |start|;
      if numKeys == 0 {
        AppendFilter(policy, result, offsets, groups, [], []);
        offsets := offsets + [|result|];
        assert result + [] == result;
      } else {
        var all := start + [|keys|];
        var tmpKeys: seq<Key> := [];
        for i := 0 to numKeys
          invariant tmpKeys == pending[..i]
        {
          assert KeyAt(keys, start, pending, i);
          tmpKeys := tmpKeys + [keys[all[i]..all[i + 1]]];
        }
        assert tmpKeys == pending;
        var filter := CreateFilter(policy, tmpKeys, AsInt(numKeys));
        AppendFilter(policy, result, offsets, groups, pending, filter);
        offsets := offsets + [|result|];
        result := result + filter;
        keys, start := [], [];
      }
      groups := groups + [pending];
      pending := [];
    }

    /**
     The filters, where they start, where that array starts and the size of a range.  For filter data
     under 4 GiB, no key in a group of fewer than 2^31 is denied.
     */
    method Finish() returns (contents: seq<byte>)
      requires Valid()
      modifies this
      ensures forall a :: a in old(added) ==> a.offset / BASE < |groups| && a.key in groups[a.offset / BASE]
      ensures |result| < TWO_32 ==>
        forall a :: a in old(added) && |groups[a.offset / BASE]| < TWO_31 ==>
          ReaderMayMatch(policy.hash, contents, a.offset, a.key)
    {
      if start != [] {
        GenerateFilter();
      }
      var arrayOffset := |result|;
      contents := result;
      for i := 0 to |offsets|
        invariant contents == result + FixedSeq(offsets[..i])
      {
        assert offsets[..i + 1][..i] == offsets[..i];
        contents := contents + Fixed(offsets[i] % TWO_32, 4);
      }
      assert offsets[..|offsets|] == offsets;
      contents := contents + Fixed(arrayOffset % TWO_32, 4) + [BASE_LG];
      if |result| < TWO_32 {
        forall a | a in old(added) && |groups[a.offset / BASE]| < TWO_31
          ensures ReaderMayMatch(policy.hash, contents, a.offset, a.key)
        {
          var j: nat :| j < |groups[a.offset / BASE]| && groups[a.offset / BASE][j] == a.key;
          ReaderFinds(policy, result, offsets, groups, a.offset, j);
        }
      }
    }
  }

  function FixedSeq(offsets: seq<nat>): (s: seq<byte>)
    ensures |s| == 4 * |offsets|
  {
    if |offsets| == 0 then [] else FixedSeq(offsets[..|offsets| - 1]) + Fixed(offsets[|offsets| - 1] % TWO_32, 4)
  }

  lemma AppendFlat(flat: seq<byte>, start: seq<nat>, keys: seq<Key>, key: Key)
    requires Flat(flat, start, keys)
    ensures Flat(flat + key, start + [|flat|], keys + [key])
  {
    forall i | 0 <= i < |keys + [key]| ensures KeyAt(flat + key, start + [|flat|], keys + [key], i) {
      assert i < |keys| ==> KeyAt(flat, start, keys, i);
    }
  }

  lemma AppendFilter(p: Policy, result: seq<byte>, offsets: seq<nat>, groups: seq<seq<Key>>, keys: seq<Key>,
                     filter: seq<byte>)
    requires FiltersOk(p, result, offsets, groups) && (keys != [] ==> IsFilter(p, keys, AsInt(|keys|), filter))
    ensures FiltersOk(p, result + filter, offsets + [|result|], groups + [keys])
  {
    hide IsFilter;
    var result', offsets', groups' := result + filter, offsets + [|result|], groups + [keys];
    forall i: nat | i < |groups'| ensures FilterAt(p, result', offsets', groups', i) {
      if i < |groups| {
        assert FilterAt(p, result, offsets, groups, i);
        assert EndOf(offsets', |result'|, i) == EndOf(offsets, |result|, i);
        assert result'[offsets[i]..EndOf(offsets, |result|, i)] == result[offsets[i]..EndOf(offsets, |result|, i)];
      } else {
        assert EndOf(offsets', |result'|, i) == |result'| && offsets'[i] == |result| && groups'[i] == keys;
        assert result'[|result|..|result'|] == filter;
      }
    }
  }

  // ----- the reader -----

  /** What the FilterBlockReader constructor finds: where the offset array starts and how many offsets there are. */
  datatype Found = Found(arrayStart: nat, count: nat, lg: nat)

  function Open(contents: seq<byte>): (f: Option<Found>)
    ensures f.Some? ==> f.value.arrayStart + 4 * f.value.count + 5 <= |contents|
  {
    var n := |contents|;
    if n < 5 then None
    else
      var lastWord := DecodeFixed(contents[n - 5..n - 1]);
      if lastWord > n - 5 then None else Some(Found(lastWord, (n - 5 - lastWord) / 4, contents[n - 1]))
  }

  /** FilterBlockReader::KeyMayMatch: anything unreadable counts as a match. */
  ghost predicate ReaderMayMatch(hash: Key -> nat, contents: seq<byte>, offset: nat, key: Key) {
    var f := Open(contents);
    f.None? ||
    var Found(arrayStart, count, lg) := f.value;
    PowerPositive(2, lg);
    var index := offset / Power(2, lg);
    index < count ==>
      var start := DecodeFixed(contents[arrayStart + index * 4..arrayStart + index * 4 + 4]);
      var limit := DecodeFixed(contents[arrayStart + index * 4 + 4..arrayStart + index * 4 + 8]);
      if start <= limit <= arrayStart then MayMatch(hash, key, contents[start..limit]) else start != limit
  }

  /**
   The reader denies a key only for an offset it has a filter for, and only if that filter is empty or can be read and
   lacks a bit of the key: whatever is damaged counts as a match.
   */
  lemma DeniesOnlyIf(hash: Key -> nat, contents: seq<byte>, offset: nat, key: Key) returns (found: Found, index: nat)
    requires !ReaderMayMatch(hash, contents, offset, key)
    ensures Open(contents) == Some(found) && Power(2, found.lg) > 0
    ensures index == offset / Power(2, found.lg) && index < found.count
    ensures
      var at := found.arrayStart + index * 4;
      var start, limit := DecodeFixed(contents[at..at + 4]), DecodeFixed(contents[at + 4..at + 8]);
      start == limit || (start < limit <= found.arrayStart && !MayMatch(hash, key, contents[start..limit]))
  {
    hide DecodeFixed, MayMatch, Power;
    found := Open(contents).value;
    PowerPositive(2, found.lg);
    index := offset / Power(2, found.lg);
  }

  lemma {:induction false} PowerPositive(b: nat, e: nat)
    requires b > 0
    ensures Power(b, e) > 0
  {
    if e > 0 {
      PowerPositive(b, e - 1);
    }
  }

  function Contents(result: seq<byte>, offsets: seq<nat>): seq<byte> {
    result + FixedSeq(offsets) + Fixed(|result| % TWO_32, 4) + [BASE_LG]
  }

  lemma {:induction false} FixedAt(offsets: seq<nat>, i: nat)
    requires i < |offsets|
    ensures FixedSeq(offsets)[4 * i..4 * i + 4] == Fixed(offsets[i] % TWO_32, 4)
  {
    var last := |offsets| - 1;
    if i < last {
      FixedAt(offsets[..last], i);
      assert FixedSeq(offsets)[4 * i..4 * i + 4] == FixedSeq(offsets[..last])[4 * i..4 * i + 4];
    }
  }

  /** The reader finds the array and each filter's bounds in it. */
  lemma OpensContents(result: seq<byte>, offsets: seq<nat>)
    requires |result| < TWO_32
    ensures Open(Contents(result, offsets)) == Some(Found(|result|, |offsets|, BASE_LG))
  {
    hide Fixed, DecodeFixed, FixedSeq;
    var contents := Contents(result, offsets);
    var n := |contents|;
    assert contents[n - 5..n - 1] == Fixed(|result| % TWO_32, 4);
    Fixed32RoundTrip(|result|);
  }

  lemma FindsBounds(result: seq<byte>, offsets: seq<nat>, i: nat)
    requires |result| < TWO_32 && i < |offsets| && offsets[i] <= EndOf(offsets, |result|, i) <= |result|
    ensures
      var contents, at := Contents(result, offsets), |result| + 4 * i;
      && at + 8 <= |contents|
      && DecodeFixed(contents[at..at + 4]) == offsets[i]
      && DecodeFixed(contents[at + 4..at + 8]) == EndOf(offsets, |result|, i)
  {
    hide Fixed, DecodeFixed, FixedSeq;
    var contents, at := Contents(result, offsets), |result| + 4 * i;
    FixedAt(offsets, i);
    WordInside(result, FixedSeq(offsets), Fixed(|result| % TWO_32, 4) + [BASE_LG], i);
    assert contents == result + FixedSeq(offsets) + (Fixed(|result| % TWO_32, 4) + [BASE_LG]);
    Fixed32RoundTrip(offsets[i]);
    Fixed32RoundTrip(EndOf(offsets, |result|, i));
    if i + 1 < |offsets| {
      FixedAt(offsets, i + 1);
      WordInside(result, FixedSeq(offsets), Fixed(|result| % TWO_32, 4) + [BASE_LG], i + 1);
    } else {
      assert contents[at + 4..at + 8] == Fixed(|result| % TWO_32, 4);
    }
  }

  lemma WordInside(a: seq<byte>, b: seq<byte>, c: seq<byte>, i: nat)
    requires 4 * i + 4 <= |b|
    ensures (a + b + c)[|a| + 4 * i..|a| + 4 * i + 4] == b[4 * i..4 * i + 4]
  {
  }

  /**
   A key of a group matches whatever data block offset leads to that group, if
   the group's count as an int reaches it: below 2^31 keys, every key.
   */
  lemma ReaderFinds(p: Policy, result: seq<byte>, offsets: seq<nat>, groups: seq<seq<Key>>, offset: nat, j: nat)
    requires FiltersOk(p, result, offsets, groups) && |result| < TWO_32
    requires offset / BASE < |groups| && j < AsInt(|groups[offset / BASE]|)
    ensures ReaderMayMatch(p.hash, Contents(result, offsets), offset, groups[offset / BASE][j])
  {
    hide Fixed, DecodeFixed, FixedSeq, IsFilter, MayMatch;
    var i := offset / BASE;
    var contents := Contents(result, offsets);
    OpensContents(result, offsets);
    BasePower();
    assert FilterAt(p, result, offsets, groups, i);
    FindsBounds(result, offsets, i);
    var end := EndOf(offsets, |result|, i);
    assert contents[offsets[i]..end] == result[offsets[i]..end];
    NoFalseNegatives(p, groups[i], AsInt(|groups[i]|), result[offsets[i]..end], j);
  }

  lemma BasePower()
    ensures Power(2, BASE_LG) == BASE
  {
    assert Power(2, 4) == 16 && Power(2, 7) == 128;
  }

  // ----- filter data of 4 GiB and more -----

  lemma {:induction false} ZeroWord(s: seq<byte>)
    requires forall i :: 0 <= i < |s| ==> s[i] == 0
    ensures DecodeFixed(s) == 0
  {
    if s != [] {
      ZeroWord(s[1..]);
    }
  }

  /** `size - 1` bytes, all zero but the one at `at`, and one probe. */
  function OneByteFilter(size: nat, at: nat, b: byte): seq<byte>
    requires at < size - 1
  {
    seq(size - 1, i => if i == at then b else 0) + [1]
  }

  /** The filter of `count` empty keys, whose only probe hits the first bit of byte `at`. */
  lemma OneByteIsFilter(count: nat, bitsPerKey: nat, at: nat)
    requires 0 < count < TWO_31 && bitsPerKey < TWO_31 && at <= 200 && at < Bytes(count, bitsPerKey)
    ensures
      var p, keys: seq<Key> := Policy(_ => 8 * at, bitsPerKey, 1), seq(count, _ => []);
      var filter := OneByteFilter(Bytes(count, bitsPerKey) + 1, at, 1);
      IsFilter(p, keys, count, filter) && OnlyProbes(p, keys, count, filter[..|filter| - 1])
  {
    hide Bytes;
    var p, keys: seq<Key> := Policy(_ => 8 * at, bitsPerKey, 1), seq(count, _ => []);
    var filter := OneByteFilter(Bytes(count, bitsPerKey) + 1, at, 1);
    var array_ := filter[..|filter| - 1];
    assert |array_| == Bytes(count, bitsPerKey) && array_[at] == 1;
    assert Probe(8 * at, 0) == 8 * at;
    AtOwnPlace(8 * at, 8 * |array_|);
    assert BitIn(array_, 8 * at);
    assert AllSet(array_, 8 * at, 1);
    forall pos: nat | pos < 8 * |array_| && BitIn(array_, pos) ensures SomeProbe(p, keys, count, pos, 8 * |array_|) {
      ZeroHasNoBit(pos % 8);
      assert pos / 8 == at;
      OnlyFirstBit(pos % 8);
      assert Hits(p, keys[0], 0, pos, 8 * |array_|);
    }
  }

  lemma AtOwnPlace(n: nat, m: nat)
    requires n < m
    ensures n % m == n
  {
  }

  lemma OnlyFirstBit(i: nat)
    requires HasBit(1, i)
    ensures i == 0
  {
    if i > 0 {
      ZeroHasNoBit(i - 1);
    }
  }

  /**
   Whatever number of keys and of bits for each make one filter reach 4 GiB, there is such a filter block
   that denies a key it was made from: the array's offset is cut to 32 bits, so the reader takes zero
   bytes of the filter for the offsets of an empty one.
   */
  lemma OversizedFilterDenies(count: nat, bitsPerKey: nat) returns (p: Policy, keys: seq<Key>, result: seq<byte>)
    requires 0 < count < TWO_31 && bitsPerKey < TWO_31 && Bytes(count, bitsPerKey) + 1 >= TWO_32
    ensures |keys| == count && p.bitsPerKey == bitsPerKey && |result| == Bytes(count, bitsPerKey) + 1
    ensures FiltersOk(p, result, [0], [keys]) && OnlyProbes(p, keys, count, result[..|result| - 1])
    ensures !ReaderMayMatch(p.hash, Contents(result, [0]), 0, keys[0])
  {
    hide IsFilter, OnlyProbes, ReaderMayMatch, DecodeFixed, Open, Contents, Fixed, Bytes;
    var size := Bytes(count, bitsPerKey) + 1;
    var word := size % TWO_32;
    var at := if word <= 100 then 200 else 0;
    p, keys, result := Policy(_ => 8 * at, bitsPerKey, 1), seq(count, _ => []), OneByteFilter(size, at, 1);
    OneByteIsFilter(count, bitsPerKey, at);
    assert result[0..size] == result;
    assert FilterAt(p, result, [0], [keys], 0);
    OpensCut(result, [0]);
    CutWordsAreZero(size, at, word);
    ZeroBoundsDeny(p.hash, Contents(result, [0]), keys[0], word, (size - word) / 4 + 1);
  }

  lemma CutWordsAreZero(size: nat, at: nat, word: nat)
    requires size >= TWO_32 && word == size % TWO_32 && at == if word <= 100 then 200 else 0
    ensures
      var contents := Contents(OneByteFilter(size, at, 1), [0]);
      && word + 8 <= |contents|
      && DecodeFixed(contents[word..word + 4]) == 0 && DecodeFixed(contents[word + 4..word + 8]) == 0
  {
    hide Fixed, DecodeFixed, FixedSeq;
    var result := OneByteFilter(size, at, 1);
    var contents := Contents(result, [0]);
    assert forall i :: word <= i < word + 8 ==> contents[i] == result[i] == 0;
    ZeroWord(contents[word..word + 4]);
    ZeroWord(contents[word + 4..word + 8]);
  }

  /** Two zero offsets bound an empty filter, which matches nothing. */
  lemma ZeroBoundsDeny(hash: Key -> nat, contents: seq<byte>, key: Key, word: nat, count: nat)
    requires Open(contents) == Some(Found(word, count, BASE_LG)) && 0 < count
    requires DecodeFixed(contents[word..word + 4]) == 0 && DecodeFixed(contents[word + 4..word + 8]) == 0
    ensures !ReaderMayMatch(hash, contents, 0, key)
  {
    hide DecodeFixed;
    BasePower();
    assert contents[0..0] == [];
  }

  lemma OpensCut(result: seq<byte>, offsets: seq<nat>)
    ensures
      var word := |result| % TWO_32;
      word <= |result| && Open(Contents(result, offsets)) ==
        Some(Found(word, (|result| - word) / 4 + |offsets|, BASE_LG))
  {
    hide Fixed, DecodeFixed, FixedSeq;
    var contents, word := Contents(result, offsets), |result| % TWO_32;
    var n := |contents|;
    assert contents[n - 5..n - 1] == Fixed(word, 4);
    AtOwnPlace(word, TWO_32);
    Fixed32RoundTrip(word);
    assert (n - 5 - word) / 4 == (|result| - word + 4 * |offsets|) / 4;
  }

  // ----- groups of 2^31 keys and more -----

  /** The filter of the first `n` keys when those are empty and their only probe hits the very first bit. */
  lemma FirstBitIsFilter(n: nat, count: nat, bitsPerKey: nat)
    requires n < count && n < TWO_31 && bitsPerKey < TWO_31
    ensures
      var p := Policy((key: Key) => if key == [] then 0 else 8, bitsPerKey, 1);
      var keys: seq<Key> := seq(count, i => if i < n then [] else [0]);
      var filter := OneByteFilter(Bytes(n, bitsPerKey) + 1, 0, if n == 0 then 0 else 1);
      && IsFilter(p, keys, n, filter) && OnlyProbes(p, keys, n, filter[..|filter| - 1])
      && !MayMatch(p.hash, keys[n], filter)
  {
    hide Bytes;
    var p := Policy((key: Key) => if key == [] then 0 else 8, bitsPerKey, 1);
    var keys: seq<Key> := seq(count, i => if i < n then [] else [0]);
    var filter := OneByteFilter(Bytes(n, bitsPerKey) + 1, 0, if n == 0 then 0 else 1);
    var array_ := filter[..|filter| - 1];
    assert |array_| == Bytes(n, bitsPerKey) && array_[1] == 0;
    ZeroHasNoBit(0);
    assert Probe(8, 0) == 8 && Probe(0, 0) == 0;
    AtOwnPlace(8, 8 * |array_|);
    AtOwnPlace(0, 8 * |array_|);
    assert !BitIn(array_, Probe(8, 0) % (8 * |array_|));
    assert n > 0 ==> AllSet(array_, 0, 1);
    forall pos: nat | pos < 8 * |array_| && BitIn(array_, pos) ensures SomeProbe(p, keys, n, pos, 8 * |array_|) {
      ZeroHasNoBit(pos % 8);
      OnlyFirstBit(pos % 8);
      assert Hits(p, keys[0], 0, pos, 8 * |array_|);
    }
  }

  /**
   A group of 2^32 keys or more is cut to what is left of its count as an int: wherever that is not negative
   and the filter is under 4 GiB, there are such keys of which the first one past the cut is denied.
   */
  lemma CountCutDenies(count: nat, bitsPerKey: nat) returns (p: Policy, keys: seq<Key>, result: seq<byte>)
    requires count >= TWO_32 && AsInt(count) >= 0 && bitsPerKey < TWO_31 && Bytes(AsInt(count), bitsPerKey) + 1 < TWO_32
    ensures |keys| == count && p.bitsPerKey == bitsPerKey && 0 < |result| < TWO_32
    ensures FiltersOk(p, result, [0], [keys]) && OnlyProbes(p, keys, AsInt(count), result[..|result| - 1])
    ensures !ReaderMayMatch(p.hash, Contents(result, [0]), 0, keys[AsInt(count)])
  {
    hide IsFilter, OnlyProbes, MayMatch, DecodeFixed, Open, Contents, Fixed, Bytes;
    var n := AsInt(count);
    p := Policy((key: Key) => if key == [] then 0 else 8, bitsPerKey, 1);
    keys := seq(count, i => if i < n then [] else [0]);
    result := OneByteFilter(Bytes(n, bitsPerKey) + 1, 0, if n == 0 then 0 else 1);
    FirstBitIsFilter(n, count, bitsPerKey);
    assert result[0..|result|] == result;
    assert FilterAt(p, result, [0], [keys], 0);
    OneFilterAsked(p.hash, result, keys[n]);
  }

  /** At offset 0 the reader of a single filter asks that filter. */
  lemma OneFilterAsked(hash: Key -> nat, result: seq<byte>, key: Key)
    requires |result| < TWO_32
    ensures ReaderMayMatch(hash, Contents(result, [0]), 0, key) <==> MayMatch(hash, key, result)
  {
    hide MayMatch, DecodeFixed, Fixed, FixedSeq;
    OpensContents(result, [0]);
    FindsBounds(result, [0], 0);
    BasePower();
    assert Contents(result, [0])[0..|result|] == result;
  }

  /** A negative count asks for more bytes than any string holds, unless it cancels the rounding. */
  lemma NegativeCountAsksTooMuch(n: int, bitsPerKey: nat)
    requires -0x8000_0000 <= n && bitsPerKey < TWO_31 && n * bitsPerKey <= -8
    ensures Bytes(n, bitsPerKey) >= 0x1000_0000_0000_0000
  {
    NegativeProduct(n, bitsPerKey);
    var m := n * bitsPerKey;
    WrapsOnce(m);
    assert SizeTimes(n, bitsPerKey) == m % TWO_64;
  }

  lemma NegativeProduct(n: int, bitsPerKey: nat)
    requires -0x8000_0000 <= n && bitsPerKey < TWO_31 && n * bitsPerKey <= -8
    ensures n < 0 && 0 - TWO_62 <= n * bitsPerKey
  {
    ScaleKeepsOrder(-0x8000_0000, n, bitsPerKey);
    if n >= 0 {
      ScaleKeepsOrder(0, n, bitsPerKey);
    }
  }

  lemma ScaleKeepsOrder(a: int, b: int, c: nat)
    requires a <= b
    ensures a * c <= b * c
  {
  }

  lemma WrapsOnce(m: int)
    requires 0 - TWO_62 <= m <= -8
    ensures m % TWO_64 == m + TWO_64 && (m % TWO_64 + 7) % TWO_64 == m + TWO_64 + 7
  {
  }
}
