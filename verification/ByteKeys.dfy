/**
 Byte strings under the default comparator (util/comparator.cc) and internal
 keys over them (db/dbformat.cc): separators, successors, and the order
 embedding that lets the rest of the model rank user keys by reals.
 */
module ByteKeys {
  import opened Keys

  type byte = x: int | 0 <= x < 256

  /** Lexicographic order on unsigned bytes. */
  predicate BytesLess(a: seq<byte>, b: seq<byte>) {
    b != [] && (a == [] || a[0] < b[0] || (a[0] == b[0] && BytesLess(a[1..], b[1..])))
  }

  function Rank(s: seq<byte>): (r: real)
    ensures 0.0 <= r < 1.0
    ensures r == 0.0 <==> s == []
  {
    if s == [] then 0.0 else (s[0] as real + 1.0 + Rank(s[1..])) / 257.0
  }

  /** The bytewise order is the order of the ranks. */
  lemma {:induction false} RankIsOrderEmbedding(a: seq<byte>, b: seq<byte>)
    ensures BytesLess(a, b) <==> Rank(a) < Rank(b)
    ensures a == b <==> Rank(a) == Rank(b)
  {
    if a != [] && b != [] {
      RankIsOrderEmbedding(a[1..], b[1..]);
      assert a == [a[0]] + a[1..] && b == [b[0]] + b[1..];
      if a[0] < b[0] {
        assert a[0] + 1 <= b[0];
        assert (a[0] as real) + 1.0 <= b[0] as real;
      } else if b[0] < a[0] {
        assert b[0] + 1 <= a[0];
        assert (b[0] as real) + 1.0 <= a[0] as real;
      }
    }
  }

  lemma {:induction false} LessAtDifference(a: seq<byte>, b: seq<byte>, d: nat)
    requires d < |a| && d < |b| && a[..d] == b[..d] && a[d] < b[d]
    ensures BytesLess(a, b)
  {
    if d > 0 {
      assert a[0] == a[..d][0] && b[0] == b[..d][0];
      assert a[1..][..d - 1] == a[..d][1..] && b[1..][..d - 1] == b[..d][1..];
      LessAtDifference(a[1..], b[1..], d - 1);
    }
  }

  /** A shorter string between the two bounds, or the start unchanged. */
  method FindShortestSeparator(start: seq<byte>, limit: seq<byte>) returns (r: seq<byte>)
    ensures r == start || (BytesLess(start, r) && BytesLess(r, limit) && |r| <= |start|)
  {
    r := start;
    var minLength := if |start| < |limit| then |start| else |limit|;
    var diff := 0;
    while diff < minLength && start[diff] == limit[diff]
      invariant diff <= minLength && start[..diff] == limit[..diff]
    {
      diff := diff + 1;
    }
    if diff >= minLength {
    } else if start[diff] < 0xff && start[diff] + 1 < limit[diff] {
      r := start[..diff] + [start[diff] + 1];
      assert r[..diff] == start[..diff];
      LessAtDifference(start, r, diff);
      LessAtDifference(r, limit, diff);
    }
  }

  /** A string at or past the key that is no longer than it. */
  method FindShortSuccessor(key: seq<byte>) returns (r: seq<byte>)
    ensures r == key || (BytesLess(key, r) && |r| <= |key|)
    ensures r == key <==> forall i :: 0 <= i < |key| ==> key[i] == 0xff
  {
    for i := 0 to |key|
      invariant forall j :: 0 <= j < i ==> key[j] == 0xff
    {
      if key[i] != 0xff {
        r := key[..i] + [key[i] + 1];
        assert r[..i] == key[..i] && r[i] != key[i];
        LessAtDifference(key, r, i);
        return;
      }
    }
    return key;
  }

  // ----- internal keys over bytes -----

  /** User key and packed tag (sequence * 256 + type). */
  datatype ByteKey = ByteKey(user: seq<byte>, tag: nat)

  const MAX_TAG: nat := MAX_SEQUENCE * 256 + TYPE_VALUE

  function ToKey(k: ByteKey): InternalKey {
    InternalKey(Rank(k.user), k.tag / 256, k.tag % 256)
  }

  /** InternalKeyComparator::Compare: increasing user key, then decreasing packed tag. */
  predicate ByteKeyLess(a: ByteKey, b: ByteKey) {
    BytesLess(a.user, b.user) || (a.user == b.user && a.tag > b.tag)
  }

  /** Comparing packed tags is comparing sequence numbers, then types. */
  lemma ByteKeyOrder(a: ByteKey, b: ByteKey)
    ensures ByteKeyLess(a, b) <==> Less(ToKey(a), ToKey(b))
    ensures a == b <==> ToKey(a) == ToKey(b)
  {
    RankIsOrderEmbedding(a.user, b.user);
    assert a.tag == a.tag / 256 * 256 + a.tag % 256 && b.tag == b.tag / 256 * 256 + b.tag % 256;
  }

  /** The separator is at or past the start, and either the start or under a user key strictly inside. */
  method InternalSeparator(start: ByteKey, limit: ByteKey) returns (r: ByteKey)
    ensures r == start || (Rank(start.user) < Rank(r.user) < Rank(limit.user) && r.tag == MAX_TAG)
  {
    var tmp := FindShortestSeparator(start.user, limit.user);
    RankIsOrderEmbedding(start.user, tmp);
    RankIsOrderEmbedding(tmp, limit.user);
    if |tmp| < |start.user| && BytesLess(start.user, tmp) {
      r := ByteKey(tmp, MAX_TAG);
    } else {
      r := start;
    }
  }

  method InternalSuccessor(key: ByteKey) returns (r: ByteKey)
    ensures r == key || (Rank(key.user) < Rank(r.user) && r.tag == MAX_TAG)
  {
    var tmp := FindShortSuccessor(key.user);
    RankIsOrderEmbedding(key.user, tmp);
    if |tmp| < |key.user| && BytesLess(key.user, tmp) {
      r := ByteKey(tmp, MAX_TAG);
    } else {
      r := key;
    }
  }
}
