/** Write batches (db/write_batch.cc): a sequence number, a count, and the operations one after the other. */
module WriteBatch {
  import opened Keys
  import opened Coding

  const HEADER: nat := 12

  /** One operation of a batch. */
  datatype Op = Set(key: Bytes, value: Bytes) | Unset(key: Bytes)

  predicate Small(op: Op) { |op.key| < LIMIT32 && (op.Set? ==> |op.value| < LIMIT32) }

  function Encode(op: Op): Bytes {
    match op
    case Set(key, value) => [1] + (LengthPrefixed(key) + LengthPrefixed(value))
    case Unset(key) => [0] + LengthPrefixed(key)
  }

  function Encodings(ops: seq<Op>): (r: seq<Bytes>)
    ensures |r| == |ops|
  {
    seq(|ops|, i requires 0 <= i < |ops| => Encode(ops[i]))
  }

  /** These bytes are a batch with these operations. */
  ghost predicate Holds(rep: Bytes, ops: seq<Op>) {
    && |rep| >= HEADER && Read32(rep, 8) == |ops| < LIMIT32
    && rep[HEADER..] == Concat(Encodings(ops), |ops|)
    && forall i {:trigger ops[i]} :: 0 <= i < |ops| ==> Small(ops[i])
  }

  // ----- reading

  /** One turn of Iterate's loop: the operation at `p` and where it ends; None when it is malformed. */
  method GetOp(s: Bytes, p: nat, ghost op: Op) returns (r: Option<(Op, nat)>)
    requires p < |s|
    ensures r.Some? ==> p < r.value.1 <= |s|
    ensures Small(op) && IsAt(s, p, Encode(op)) ==> r.Some? && r.value.0 == op && r.value.1 == p + |Encode(op)|
  {
    ghost var sound := Small(op) && IsAt(s, p, Encode(op));
    if sound { OpStands(s, p, op); }
    var tag := s[p];
    if tag == 1 {
      var key := GetLengthPrefixedSlice(s, p + 1, op.key);
      if key.None? { return None; }
      var value := GetLengthPrefixedSlice(s, key.value.1, if op.Set? then op.value else []);
      if value.None? { return None; }
      return Some((Set(key.value.0, value.value.0), value.value.1));
    } else if tag == 0 {
      var key := GetLengthPrefixedSlice(s, p + 1, op.key);
      if key.None? { return None; }
      return Some((Unset(key.value.0), key.value.1));
    }
    return None;
  }

  /** The tag and the slices of an operation that stands at `p`. */
  lemma OpStands(s: Bytes, p: nat, op: Op)
    requires IsAt(s, p, Encode(op))
    ensures p < |s| && s[p] == (if op.Set? then 1 else 0) && IsAt(s, p + 1, LengthPrefixed(op.key))
    ensures op.Set? ==> IsAt(s, p + 1 + |LengthPrefixed(op.key)|, LengthPrefixed(op.value))
    ensures |Encode(op)| == 1 + |LengthPrefixed(op.key)| + if op.Set? then |LengthPrefixed(op.value)| else 0
  {
    if op.Set? {
      var a, b := LengthPrefixed(op.key), LengthPrefixed(op.value);
      IsAtJoin(s, p, [1], a + b);
      IsAtJoin(s, p + 1, a, b);
      assert s[p..p + 1][0] == 1;
    } else {
      IsAtJoin(s, p, [0], LengthPrefixed(op.key));
      assert s[p..p + 1][0] == 0;
    }
  }

  /** The first operations have been read, and the input up to `p`. */
  ghost predicate ReadTo(ops: seq<Op>, calls: seq<Op>, p: nat) {
    |calls| <= |ops| && calls == ops[..|calls|] && p == |Concat(Encodings(ops), |calls|)|
  }

  lemma {:induction false} NextOp(ops: seq<Op>, calls: seq<Op>, p: nat, input: Bytes) returns (op: Op)
    requires input == Concat(Encodings(ops), |ops|) && ReadTo(ops, calls, p) && p < |input|
    ensures |calls| < |ops| && op == ops[|calls|] && IsAt(input, p, Encode(op))
    ensures ReadTo(ops, calls + [op], p + |Encode(op)|)
  {
    var k := |calls|;
    OpAt(ops, k, p, input);
    op := ops[k];
    assert ops[..k + 1] == ops[..k] + [op];
  }

  lemma {:induction false} OpAt(ops: seq<Op>, k: nat, p: nat, input: Bytes)
    requires input == Concat(Encodings(ops), |ops|) && k <= |ops| && p == |Concat(Encodings(ops), k)| < |input|
    ensures k < |ops| && IsAt(input, p, Encode(ops[k]))
    ensures |Concat(Encodings(ops), k + 1)| == p + |Encode(ops[k])|
  {
    PartAt(Encodings(ops), k, |ops|);
  }

  /** Iterate: the operations that the handler is called with, and whether the batch is well-formed. */
  method Iterate(rep: Bytes, ghost ops: seq<Op>) returns (calls: seq<Op>, ok: bool)
    ensures Holds(rep, ops) ==> ok && calls == ops
  {
    calls := [];
    if |rep| < HEADER { return calls, false; }
    var input, p := rep[HEADER..], 0;
    ghost var sound := Holds(rep, ops);
    while p < |input|
      invariant p <= |input|
      invariant sound ==> ReadTo(ops, calls, p)
      decreases |input| - p
    {
      ghost var op := Unset([]);
      if sound { op := NextOp(ops, calls, p, input); }
      var next := GetOp(input, p, op);
      if next.None? { return calls, false; }
      calls := calls + [next.value.0];
      p := next.value.1;
    }
    if sound { AllRead(ops, |calls|); }
    ok := |calls| == Read32(rep, 8);
  }

  /** At the end of the input every operation has been read. */
  lemma {:induction false} AllRead(ops: seq<Op>, k: nat)
    requires k <= |ops| && |Concat(Encodings(ops), k)| == |Concat(Encodings(ops), |ops|)|
    ensures k == |ops|
  {
    if k < |ops| {
      ConcatPrefix(Encodings(ops), k + 1, |ops|);
      PartAt(Encodings(ops), k, |ops|);
    }
  }

  /** InsertInto: each operation becomes an entry with the next sequence number. */
  method InsertInto(rep: Bytes, ghost first: nat, ghost ops: seq<Op>) returns (entries: seq<(nat, Op)>, ok: bool)
    requires |rep| >= HEADER
    ensures Holds(rep, ops) && FixedValue(rep[..8]) == first ==>
              && ok && |entries| == |ops|
              && forall i :: 0 <= i < |ops| ==> entries[i] == (first + i, ops[i])
  {
    var calls;
    calls, ok := Iterate(rep, ops);
    var sequence := FixedValue(rep[..8]);
    entries := seq(|calls|, i requires 0 <= i < |calls| => (sequence + i, calls[i]));
  }

  // ----- writing

  /** The batch with another count, and with more bytes after it. */
  function Extended(rep: Bytes, count: nat, more: Bytes): Bytes
    requires |rep| >= HEADER
  {
    rep[..8] + Fixed(count, 4) + rep[HEADER..] + more
  }

  lemma {:induction false} ExtendedHolds(rep: Bytes, ops: seq<Op>, more: seq<Op>, bytes: Bytes)
    requires Holds(rep, ops) && bytes == Concat(Encodings(more), |more|) && |ops| + |more| < LIMIT32
    requires forall i {:trigger more[i]} :: 0 <= i < |more| ==> Small(more[i])
    ensures Holds(Extended(rep, |ops| + |more|, bytes), ops + more)
    ensures Extended(rep, |ops| + |more|, bytes)[..8] == rep[..8]
  {
    var n := |ops| + |more|;
    ExtendedParts(rep, n, bytes);
    BodyJoins(ops, more);
    forall i {:trigger (ops + more)[i]} | 0 <= i < n ensures Small((ops + more)[i]) {
      assert (ops + more)[i] == if i < |ops| then ops[i] else more[i - |ops|];
    }
  }

  lemma ExtendedParts(rep: Bytes, n: nat, bytes: Bytes)
    requires |rep| >= HEADER && n < LIMIT32
    ensures var rep' := Extended(rep, n, bytes);
            && |rep'| >= HEADER && Read32(rep', 8) == n && rep'[..8] == rep[..8]
            && rep'[HEADER..] == rep[HEADER..] + bytes
  {
    HeadReads(rep[..8], n, rep[HEADER..] + bytes);
    assert Extended(rep, n, bytes) == rep[..8] + Fixed(n, 4) + (rep[HEADER..] + bytes);
  }

  lemma {:induction false} BodyJoins(ops: seq<Op>, more: seq<Op>)
    ensures Concat(Encodings(ops + more), |ops| + |more|)
         == Concat(Encodings(ops), |ops|) + Concat(Encodings(more), |more|)
  {
    assert Encodings(ops + more) == Encodings(ops) + Encodings(more);
    ConcatJoin(Encodings(ops), Encodings(more), |more|);
  }

  lemma HeadReads(head: Bytes, n: nat, rest: Bytes)
    requires |head| == 8 && n < LIMIT32
    ensures |head + Fixed(n, 4) + rest| >= HEADER && Read32(head + Fixed(n, 4) + rest, 8) == n
  {
    Fixed32Reads(head, n);
    NumberKept(head + Fixed(n, 4), rest, 8, 0, n);
  }

  lemma {:induction false} ConcatJoin(a: seq<Bytes>, b: seq<Bytes>, k: nat)
    requires k <= |b|
    ensures Concat(a + b, |a| + k) == Concat(a, |a|) + Concat(b, k)
  {
    if k == 0 {
      ConcatOfPrefix(a, b, |a|);
    } else {
      ConcatJoin(a, b, k - 1);
      assert (a + b)[|a| + k - 1] == b[k - 1];
    }
  }

  class WriteBatch {
    var rep: Bytes
    ghost var ops: seq<Op>

    ghost predicate Valid()
      reads this
    {
      Holds(rep, ops)
    }

    constructor ()
      ensures Valid() && ops == [] && FixedValue(rep[..8]) == 0
    {
      rep, ops := seq(HEADER, i => 0), [];
      new;
      EmptyHolds(rep);
    }

    /** Clear */
    method Clear()
      modifies this
      ensures Valid() && ops == []
    {
      rep, ops := seq(HEADER, i => 0), [];
      EmptyHolds(rep);
    }

    /** SetSequence */
    method SetSequence(first: nat)
      requires Valid() && first < LIMIT64
      modifies this`rep
      ensures Valid() && FixedValue(rep[..8]) == first
    {
      SequenceHolds(rep, ops, first);
      rep := Fixed(first, 8) + rep[8..];
    }

    method Put(key: Bytes, value: Bytes)
      requires Valid() && |ops| + 1 < LIMIT32 && |key| < LIMIT32 && |value| < LIMIT32
      modifies this
      ensures Valid() && ops == old(ops) + [Set(key, value)] && rep[..8] == old(rep)[..8]
    {
      AddOp(Set(key, value));
    }

    method Delete(key: Bytes)
      requires Valid() && |ops| + 1 < LIMIT32 && |key| < LIMIT32
      modifies this
      ensures Valid() && ops == old(ops) + [Unset(key)] && rep[..8] == old(rep)[..8]
    {
      AddOp(Unset(key));
    }

    /** SetCount, then the bytes of the operation. */
    method AddOp(op: Op)
      requires Valid() && |ops| + 1 < LIMIT32 && Small(op)
      modifies this
      ensures Valid() && ops == old(ops) + [op] && rep[..8] == old(rep)[..8]
    {
      OneEncoding(op);
      ExtendedHolds(rep, ops, [op], Encode(op));
      rep := Extended(rep, Read32(rep, 8) + 1, Encode(op));
      ops := ops + [op];
    }

    /** WriteBatchInternal::Append */
    method Append(src: WriteBatch)
      requires Valid() && src.Valid() && |ops| + |src.ops| < LIMIT32
      modifies this
      ensures Valid() && ops == old(ops) + old(src.ops) && rep[..8] == old(rep)[..8]
    {
      ExtendedHolds(rep, ops, src.ops, src.rep[HEADER..]);
      ghost var more := src.ops;
      rep := Extended(rep, Read32(rep, 8) + Read32(src.rep, 8), src.rep[HEADER..]);
      ops := ops + more;
    }
  }

  lemma OneEncoding(op: Op)
    ensures Concat(Encodings([op]), 1) == Encode(op)
  {
    assert Concat(Encodings([op]), 1) == Concat(Encodings([op]), 0) + Encodings([op])[0];
  }

  lemma EmptyHolds(rep: Bytes)
    requires rep == seq(HEADER, i => 0)
    ensures Holds(rep, []) && FixedValue(rep[..8]) == 0
  {
    ZeroValue(rep[8..12]);
    ZeroValue(rep[..8]);
  }

  lemma {:induction false} ZeroValue(s: Bytes)
    requires forall i :: 0 <= i < |s| ==> s[i] == 0
    ensures FixedValue(s) == 0
  {
    if s != [] { ZeroValue(s[1..]); }
  }

  lemma SequenceHolds(rep: Bytes, ops: seq<Op>, first: nat)
    requires Holds(rep, ops) && first < LIMIT64
    ensures var rep' := Fixed(first, 8) + rep[8..]; Holds(rep', ops) && FixedValue(rep'[..8]) == first
  {
    var rep' := Fixed(first, 8) + rep[8..];
    assert rep'[..8] == Fixed(first, 8) && rep'[8..12] == rep[8..12] && rep'[HEADER..] == rep[HEADER..];
    Words();
    FixedRoundTrip(first, 8);
  }
}
