/** Write batches as bytes (db/write_batch.cc): a header with a sequence number and a count, then the operations. */
module WriteBatch {
  import opened ByteKeys
  import opened Coding

  datatype Op = Put(key: seq<byte>, value: seq<byte>) | Delete(key: seq<byte>)

  const HEADER: nat := 12

  function EncodeOp(op: Op): (s: seq<byte>)
    ensures s != []
  {
    match op
    case Put(key, value) => [1] + (PutSlice(key) + PutSlice(value))
    case Delete(key) => [0] + PutSlice(key)
  }

  function EncodeOps(ops: seq<Op>): seq<byte> {
    if |ops| == 0 then [] else EncodeOp(ops[0]) + EncodeOps(ops[1..])
  }

  function Rep(sequence: nat, ops: seq<Op>): seq<byte> {
    Fixed(sequence, 8) + Fixed(|ops|, 4) + EncodeOps(ops)
  }

  /** What Iterate hands to its handler, and whether the batch is well formed. */
  datatype Walk = Walk(ops: seq<Op>, ok: bool)

  function WalkOps(input: seq<byte>, found: seq<Op>): Walk
    decreases |input|
  {
    if input == [] then Walk(found, true)
    else if input[0] == 1 then
      var key := GetSlice(input[1..]);
      if key.None? then Walk(found, false)
      else
        var value := GetSlice(key.value.rest);
        if value.None? then Walk(found, false)
        else WalkOps(value.value.rest, found + [Put(key.value.value, value.value.value)])
    else if input[0] == 0 then
      var key := GetSlice(input[1..]);
      if key.None? then Walk(found, false) else WalkOps(key.value.rest, found + [Delete(key.value.value)])
    else Walk(found, false)
  }

  /** Every operation found must be counted in the header. */
  function Iterate(rep: seq<byte>): Walk {
    if |rep| < HEADER then Walk([], false)
    else
      var w := WalkOps(rep[HEADER..], []);
      if w.ok then w.(ok := |w.ops| == DecodeFixed(rep[8..HEADER])) else w
  }

  /** An operation in the memtable. */
  datatype Inserted = Inserted(sequence: nat, op: Op)

  function Numbered(sequence: nat, ops: seq<Op>): seq<Inserted> {
    seq(|ops|, i requires 0 <= i < |ops| => Inserted(sequence + i, ops[i]))
  }

  class Batch {
    var rep: seq<byte>
    ghost var ops: seq<Op>
    ghost var sequence: nat

    ghost predicate Valid()
      reads this
    {
      rep == Rep(sequence, ops)
    }

    constructor ()
      ensures Valid() && ops == [] && sequence == 0
    {
      rep := seq(HEADER, _ => 0);
      ops, sequence := [], 0;
      new;
      ZeroHeader();
    }

    lemma ZeroHeader()
      requires rep == seq(HEADER, _ => 0)
      ensures rep == Rep(0, [])
    {
      Zeros(8);
      Zeros(4);
    }

    /** SetCount patches four bytes of the header in place. */
    method SetCount(n: nat)
      requires |rep| >= HEADER
      modifies this`rep
      ensures rep == old(rep)[..8] + Fixed(n, 4) + old(rep)[HEADER..]
    {
      rep := rep[..8] + Fixed(n, 4) + rep[HEADER..];
    }

    method SetSequence(n: nat)
      requires Valid()
      modifies this
      ensures Valid() && sequence == n && ops == old(ops)
    {
      HeaderParts(sequence, ops);
      rep := Fixed(n, 8) + rep[8..];
      sequence := n;
      assert rep == Fixed(n, 8) + (Fixed(|ops|, 4) + EncodeOps(ops));
    }

    function Count(): nat
      requires |rep| >= HEADER
      reads this
    {
      DecodeFixed(rep[8..HEADER])
    }

    method Put(key: seq<byte>, value: seq<byte>)
      requires Valid() && |ops| + 1 < TWO_32
      modifies this
      ensures Valid() && ops == old(ops) + [Op.Put(key, value)] && sequence == old(sequence)
    {
      hide EncodeOps, PutSlice, DecodeFixed, Fixed;
      CountIsLength(sequence, ops);
      SetCount(Count() + 1);
      rep := rep + [1];
      rep := rep + PutSlice(key);
      rep := rep + PutSlice(value);
      OneMore(sequence, ops, Op.Put(key, value));
      ops := ops + [Op.Put(key, value)];
    }

    method Delete(key: seq<byte>)
      requires Valid() && |ops| + 1 < TWO_32
      modifies this
      ensures Valid() && ops == old(ops) + [Op.Delete(key)] && sequence == old(sequence)
    {
      hide EncodeOps, PutSlice, DecodeFixed, Fixed;
      CountIsLength(sequence, ops);
      SetCount(Count() + 1);
      rep := rep + [0];
      rep := rep + PutSlice(key);
      OneMore(sequence, ops, Op.Delete(key));
      ops := ops + [Op.Delete(key)];
    }

    /** The other batch's operations follow this one's. */
    method Append(source: Batch)
      requires Valid() && source.Valid() && source != this && |ops| + |source.ops| < TWO_32
      modifies this
      ensures Valid() && ops == old(ops) + source.ops && sequence == old(sequence)
    {
      hide EncodeOps, DecodeFixed, Fixed;
      CountIsLength(sequence, ops);
      CountIsLength(source.sequence, source.ops);
      SetCount(Count() + source.Count());
      rep := rep + source.rep[HEADER..];
      EncodeConcat(ops, source.ops);
      ghost var all := ops + source.ops;
      assert rep == Fixed(sequence, 8) + Fixed(|all|, 4) + EncodeOps(ops) + EncodeOps(source.ops);
      assert rep == Fixed(sequence, 8) + Fixed(|all|, 4) + (EncodeOps(ops) + EncodeOps(source.ops));
      ops := all;
    }
  }

  // ----- reading a batch -----

  /** Iterate's loop with a handler that numbers what it gets: MemTableInserter. */
  method InsertInto(rep: seq<byte>) returns (inserted: seq<Inserted>, ok: bool)
    requires |rep| >= HEADER
    ensures ok == Iterate(rep).ok && inserted == Numbered(DecodeFixed(rep[..8]), Iterate(rep).ops)
  {
    hide DecodeFixed, GetSlice;
    ghost var found: seq<Op> := [];
    var first := DecodeFixed(rep[..8]);
    var sequence, input, malformed := first, rep[HEADER..], false;
    inserted := [];
    while !malformed && input != []
      invariant malformed ==> WalkOps(rep[HEADER..], []) == Walk(found, false)
      invariant !malformed ==> WalkOps(rep[HEADER..], []) == WalkOps(input, found)
      invariant inserted == Numbered(first, found) && sequence == first + |found|
      decreases !malformed, |input|
    {
      var tag := input[0];
      var key := GetSlice(input[1..]);
      if (tag == 1 || tag == 0) && key.Some? {
        if tag == 0 {
          inserted := inserted + [Inserted(sequence, Delete(key.value.value))];
          found := found + [Delete(key.value.value)];
          sequence, input := sequence + 1, key.value.rest;
        } else {
          var value := GetSlice(key.value.rest);
          if value.Some? {
            inserted := inserted + [Inserted(sequence, Put(key.value.value, value.value.value))];
            found := found + [Put(key.value.value, value.value.value)];
            sequence, input := sequence + 1, value.value.rest;
          } else {
            malformed := true;
          }
        }
      } else {
        malformed := true;
      }
    }
    ok := !malformed && |inserted| == DecodeFixed(rep[8..HEADER]);
  }

  // ----- a batch reads back as it was built -----

  lemma {:induction false} Zeros(w: nat)
    ensures Fixed(0, w) == seq(w, _ => 0)
  {
    if w > 0 {
      Zeros(w - 1);
    }
  }

  lemma HeaderParts(sequence: nat, ops: seq<Op>)
    ensures
      var rep := Rep(sequence, ops);
      && |rep| >= HEADER && rep[..8] == Fixed(sequence, 8) && rep[8..HEADER] == Fixed(|ops|, 4)
      && rep[HEADER..] == EncodeOps(ops)
      && rep[8..] == Fixed(|ops|, 4) + EncodeOps(ops)
  {
    hide Fixed, EncodeOps;
  }

  lemma CountIsLength(sequence: nat, ops: seq<Op>)
    requires |ops| < TWO_32
    ensures |Rep(sequence, ops)| >= HEADER && DecodeFixed(Rep(sequence, ops)[8..HEADER]) == |ops|
    ensures Rep(sequence, ops)[..8] == Fixed(sequence, 8) && Rep(sequence, ops)[HEADER..] == EncodeOps(ops)
  {
    hide Fixed, EncodeOps, DecodeFixed, Power;
    HeaderParts(sequence, ops);
    Powers();
    FixedRoundTrip(|ops|, 4);
  }

  lemma {:induction false} EncodeConcat(a: seq<Op>, b: seq<Op>)
    ensures EncodeOps(a + b) == EncodeOps(a) + EncodeOps(b)
  {
    hide EncodeOp;
    if |a| == 0 {
      assert a + b == b;
    } else {
      assert (a + b)[1..] == a[1..] + b;
      EncodeConcat(a[1..], b);
    }
  }

  lemma OneMore(sequence: nat, ops: seq<Op>, op: Op)
    ensures Rep(sequence, ops + [op]) == Fixed(sequence, 8) + Fixed(|ops| + 1, 4) + EncodeOps(ops) + EncodeOp(op)
  {
    hide Fixed, EncodeOp;
    EncodeConcat(ops, [op]);
    assert EncodeOps([op]) == EncodeOp(op) + EncodeOps([]);
  }

  predicate OpOk(op: Op) {
    |op.key| < TWO_32 && (op.Put? ==> |op.value| < TWO_32)
  }

  lemma {:induction false} WalksOps(ops: seq<Op>, found: seq<Op>)
    requires forall i :: 0 <= i < |ops| ==> OpOk(ops[i])
    ensures WalkOps(EncodeOps(ops), found) == Walk(found + ops, true)
    decreases |ops|
  {
    hide EncodeOp, WalkOps;
    if |ops| == 0 {
      assert found + ops == found;
      WalkEnds(found);
    } else {
      WalksOne(ops[0], EncodeOps(ops[1..]), found);
      WalksOps(ops[1..], found + [ops[0]]);
      assert found + [ops[0]] + ops[1..] == found + ops;
    }
  }

  lemma WalkEnds(found: seq<Op>)
    ensures WalkOps([], found) == Walk(found, true)
  {
  }

  /** One operation is read whole. */
  lemma WalksOne(op: Op, rest: seq<byte>, found: seq<Op>)
    requires OpOk(op)
    ensures WalkOps(EncodeOp(op) + rest, found) == WalkOps(rest, found + [op])
  {
    hide PutSlice, GetSlice;
    var s := EncodeOp(op) + rest;
    if op.Put? {
      assert s == [1] + (PutSlice(op.key) + (PutSlice(op.value) + rest));
      assert s[1..] == PutSlice(op.key) + (PutSlice(op.value) + rest);
      SliceRoundTrip(op.key, PutSlice(op.value) + rest);
      SliceRoundTrip(op.value, rest);
    } else {
      assert s == [0] + (PutSlice(op.key) + rest);
      assert s[1..] == PutSlice(op.key) + rest;
      SliceRoundTrip(op.key, rest);
    }
  }

  /** Iterating a batch yields its operations in order and finds nothing wrong. */
  lemma BatchRoundTrip(sequence: nat, ops: seq<Op>)
    requires |ops| < TWO_32 && sequence < TWO_64 && forall i :: 0 <= i < |ops| ==> OpOk(ops[i])
    ensures Iterate(Rep(sequence, ops)) == Walk(ops, true) && DecodeFixed(Rep(sequence, ops)[..8]) == sequence
  {
    hide WalkOps, EncodeOps, Fixed, DecodeFixed, Power;
    CountIsLength(sequence, ops);
    WalksOps(ops, []);
    assert [] + ops == ops;
    Powers();
    FixedRoundTrip(sequence, 8);
  }
}
