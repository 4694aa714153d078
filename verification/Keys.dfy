/** User keys, internal keys and their orders (db/dbformat.h, db/dbformat.cc, util/comparator.cc).

    The engine looks at user keys only through the user comparator, which is a total order.  Every
    total order on countably many keys embeds in the real line, so the modules that need nothing but
    the order represent a user key by its position there.  `PositionOrdersBytes` gives the embedding
    for the comparator that ships with the engine, the bytewise one.
 */
module Keys {

  type byte = x: int | 0 <= x < 256
  type Bytes = seq<byte>

  function Pow2(n: nat): (r: nat)
    ensures r > 0
  {
    if n == 0 then 1 else 2 * Pow2(n - 1)
  }

  /** memcmp followed by a comparison of the lengths: Slice::compare. */
  predicate BytesLess(a: Bytes, b: Bytes) {
    if a == [] || b == [] then |a| < |b|
    else a[0] < b[0] || (a[0] == b[0] && BytesLess(a[1..], b[1..]))
  }

  /** The position of a byte string: its bytes, plus one, read as digits in base 257. */
  ghost function Position(a: Bytes): (r: real)
    ensures 0.0 <= r < 1.0
    ensures a != [] ==> r > 0.0
  {
    if a == [] then 0.0 else (a[0] as real + 1.0 + Position(a[1..])) / 257.0
  }

  lemma DigitOrder(x: int, y: int, p: real, q: real)
    requires 0.0 <= p < 1.0 && 0.0 <= q < 1.0
    ensures x < y ==> (x as real + 1.0 + p) / 257.0 < (y as real + 1.0 + q) / 257.0
    ensures x == y ==>
      ((x as real + 1.0 + p) / 257.0 < (y as real + 1.0 + q) / 257.0 <==> p < q)
  {
    if x < y { assert x as real + 1.0 <= y as real; }
  }

  /** Positions are ordered exactly as the bytewise comparator orders the strings. */
  lemma {:induction false} PositionOrdersBytes(a: Bytes, b: Bytes)
    ensures BytesLess(a, b) <==> Position(a) < Position(b)
    ensures a == b <==> Position(a) == Position(b)
  {
    if a != [] && b != [] {
      PositionOrdersBytes(a[1..], b[1..]);
      DigitOrder(a[0], b[0], Position(a[1..]), Position(b[1..]));
      DigitOrder(b[0], a[0], Position(b[1..]), Position(a[1..]));
      assert a == [a[0]] + a[1..] && b == [b[0]] + b[1..];
    }
  }

  /** config::kNumLevels */
  const NUM_LEVELS: nat := 7

  type UserKey = real
  type Value = Bytes

  datatype ValueType = Deletion | Put

  /** What a Get answers: a value, or not-found (never written, or deleted). */
  datatype Option<T> = None | Some(value: T)

  /** One (user key, sequence, type) => value entry. */
  datatype Entry = Entry(user: UserKey, seqno: nat, typ: ValueType, value: Value)

  /** An internal key as a search target. */
  datatype IKey = IKey(user: UserKey, tag: nat)

  /** PackSequenceAndType: the sequence number shifted over the type byte. */
  function Pack(seqno: nat, typ: ValueType): (r: nat)
  {
    seqno * 256 + if typ.Put? then 1 else 0
  }

  function KeyOf(e: Entry): IKey { IKey(e.user, Pack(e.seqno, e.typ)) }

  /** InternalKeyComparator: user key ascending, then packed number descending. */
  predicate KeyLess(a: IKey, b: IKey) {
    a.user < b.user || (a.user == b.user && a.tag > b.tag)
  }

  predicate Less(a: Entry, b: Entry) { KeyLess(KeyOf(a), KeyOf(b)) }

  /** The search target for reading `k` at sequence number `s` (LookupKey). */
  function LookupKey(k: UserKey, s: nat): IKey { IKey(k, Pack(s, Put)) }

  /** A lookup target stands just before the entries of `k` that are visible at `s`. */
  lemma LookupSplits(e: Entry, k: UserKey, s: nat)
    ensures KeyLess(KeyOf(e), LookupKey(k, s)) <==> e.user < k || (e.user == k && e.seqno > s)
  {}

  ghost predicate Sorted(es: seq<Entry>) {
    forall i, j :: 0 <= i < j < |es| ==> Less(es[i], es[j])
  }

  /** Binary search: the place of the first entry at or after `key`. */
  method LowerBound(es: seq<Entry>, key: IKey) returns (pos: nat)
    requires Sorted(es)
    ensures pos <= |es|
    ensures forall i :: 0 <= i < pos ==> KeyLess(KeyOf(es[i]), key)
    ensures forall i :: pos <= i < |es| ==> !KeyLess(KeyOf(es[i]), key)
  {
    pos := 0;
    var hi := |es|;
    while pos < hi
      invariant 0 <= pos <= hi <= |es|
      invariant forall i :: 0 <= i < pos ==> KeyLess(KeyOf(es[i]), key)
      invariant forall i :: hi <= i < |es| ==> !KeyLess(KeyOf(es[i]), key)
    {
      var mid := (pos + hi) / 2;
      if KeyLess(KeyOf(es[mid]), key) { pos := mid + 1; } else { hi := mid; }
    }
  }

  /** The newest entry of `S` for `k` at sequence number `s`. */
  ghost predicate Newest(S: set<Entry>, k: UserKey, s: nat, e: Entry) {
    && e in S && e.user == k && e.seqno <= s
    && forall x :: x in S && x.user == k && x.seqno <= s ==> x.seqno <= e.seqno
  }

  /** No two entries share a sequence number. */
  ghost predicate UniqueSeqs(S: set<Entry>) {
    forall x, y :: x in S && y in S && x.seqno == y.seqno ==> x == y
  }

  /** What a reader of `k` at `s` is told by the entries of `S`. */
  ghost function View(S: set<Entry>, k: UserKey, s: nat): Option<Value> {
    if exists e :: Newest(S, k, s, e) && e.typ.Put?
    then var e :| Newest(S, k, s, e) && e.typ.Put?; Some(e.value)
    else None
  }

  function Answer(e: Entry): Option<Value> { if e.typ.Put? then Some(e.value) else None }

  lemma ViewIs(S: set<Entry>, k: UserKey, s: nat, e: Entry)
    requires UniqueSeqs(S) && Newest(S, k, s, e)
    ensures View(S, k, s) == Answer(e)
  {
    forall x | Newest(S, k, s, x) ensures x == e {}
  }

  lemma ViewIsNone(S: set<Entry>, k: UserKey, s: nat)
    requires forall x :: x in S && x.user == k ==> x.seqno > s
    ensures View(S, k, s) == None
  {}

  /** Any visible entry has a newest one above it. */
  lemma {:induction false} NewestExists(S: set<Entry>, k: UserKey, s: nat, x: Entry) returns (e: Entry)
    requires x in S && x.user == k && x.seqno <= s
    ensures Newest(S, k, s, e)
    decreases s - x.seqno
  {
    if exists y :: y in S && y.user == k && y.seqno <= s && y.seqno > x.seqno {
      var y :| y in S && y.user == k && y.seqno <= s && y.seqno > x.seqno;
      e := NewestExists(S, k, s, y);
    } else {
      e := x;
    }
  }
}
