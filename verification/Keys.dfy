/**
 Internal keys and what a read of a set of entries means.

 A user key reaches the store only through the user comparator, so it is
 modelled by its rank in the comparator's order.  Every countable total order
 embeds in the reals; `ByteKeys.RankIsOrderEmbedding` gives the embedding for
 the default bytewise comparator.
 */
module Keys {

  type UserKey = real
  type Bytes = seq<int>

  // Type bytes of an internal key.  Any other type byte fails to parse.
  const TYPE_DELETION: nat := 0
  const TYPE_VALUE: nat := 1

  const MAX_SEQUENCE: nat := 0xFF_FFFF_FFFF_FFFF

  datatype InternalKey = InternalKey(user: UserKey, seqno: nat, kind: nat)

  datatype Entry = Entry(ik: InternalKey, value: Bytes)

  /** Increasing user key, then decreasing sequence number, then decreasing type. */
  predicate Less(a: InternalKey, b: InternalKey) {
    a.user < b.user
    || (a.user == b.user && (a.seqno > b.seqno || (a.seqno == b.seqno && a.kind > b.kind)))
  }

  predicate LessEq(a: InternalKey, b: InternalKey) {
    a == b || Less(a, b)
  }

  /** Whether ParseInternalKey accepts the key. */
  predicate Parses(k: InternalKey) {
    k.kind <= TYPE_VALUE
  }

  ghost predicate Sorted(s: seq<Entry>) {
    forall i, j :: 0 <= i < j < |s| ==> Less(s[i].ik, s[j].ik)
  }

  ghost function Elements(s: seq<Entry>): set<Entry> {
    set e | e in s
  }

  // ----- reads -----

  datatype ReadResult = Found(value: Bytes) | Absent | Corrupt

  /** What a lookup reports for the entry it lands on. */
  function Outcome(e: Entry): ReadResult {
    if e.ik.kind == TYPE_VALUE then Found(e.value)
    else if e.ik.kind == TYPE_DELETION then Absent
    else Corrupt
  }

  predicate Visible(e: Entry, k: UserKey, s: nat) {
    e.ik.user == k && e.ik.seqno <= s
  }

  /** `e` is the newest version of `k` in `S` that snapshot `s` can see. */
  ghost predicate IsNewest(S: set<Entry>, k: UserKey, s: nat, e: Entry) {
    && e in S && Visible(e, k, s)
    && forall f :: f in S && Visible(f, k, s) ==> f.ik.seqno <= e.ik.seqno
  }

  /** Sequence numbers are handed out once, so they tell versions of a key apart. */
  ghost predicate Unique(S: set<Entry>) {
    forall e, f :: e in S && f in S && e.ik.user == f.ik.user && e.ik.seqno == f.ik.seqno ==> e == f
  }

  ghost function Newest(S: set<Entry>, k: UserKey, s: nat): (e: Entry)
    requires exists e :: IsNewest(S, k, s, e)
    ensures IsNewest(S, k, s, e)
  {
    var e :| IsNewest(S, k, s, e);
    e
  }

  ghost function Read(S: set<Entry>, k: UserKey, s: nat): ReadResult {
    if exists e :: IsNewest(S, k, s, e) then Outcome(Newest(S, k, s)) else Absent
  }

  /** A key with a visible version has a newest one. */
  lemma {:induction false} NewestExists(S: set<Entry>, k: UserKey, s: nat, w: Entry) returns (e: Entry)
    requires w in S && Visible(w, k, s)
    ensures IsNewest(S, k, s, e)
    decreases |S|
  {
    if x :| x in S && Visible(x, k, s) && x.ik.seqno > w.ik.seqno {
      assert S - {w} + {w} == S;
      e := NewestExists(S - {w}, k, s, x);
      assert forall f :: f in S ==> f in S - {w} || f == w;
    } else {
      e := w;
    }
  }

  /** Unique sequence numbers make a read the outcome of the newest version. */
  lemma ReadIsNewest(S: set<Entry>, k: UserKey, s: nat, e: Entry)
    requires Unique(S) && IsNewest(S, k, s, e)
    ensures Read(S, k, s) == Outcome(e)
  {
    var f := Newest(S, k, s);
    assert Visible(f, k, s) && Visible(e, k, s);
  }

  lemma ReadNothing(S: set<Entry>, k: UserKey, s: nat)
    requires forall e :: e in S ==> !Visible(e, k, s)
    ensures Read(S, k, s) == Absent
  {
  }

  /** Two sets with the same versions visible to a snapshot read the same. */
  lemma ReadAgrees(S: set<Entry>, T: set<Entry>, k: UserKey, s: nat, t: nat)
    requires Unique(S) && Unique(T)
    requires forall e :: e in S && Visible(e, k, s) ==> e in T && Visible(e, k, t)
    requires forall e :: e in T && Visible(e, k, t) ==> e in S && Visible(e, k, s)
    ensures Read(S, k, s) == Read(T, k, t)
  {
    if w :| w in S && Visible(w, k, s) {
      var e := NewestExists(S, k, s, w);
      assert IsNewest(T, k, t, e);
      ReadIsNewest(S, k, s, e);
      ReadIsNewest(T, k, t, e);
    }
  }
}
