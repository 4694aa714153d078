/** The bytewise comparator and the internal-key comparator on real keys, with the methods that shorten index keys
    (util/comparator.cc, db/dbformat.cc). */
module Comparator {
  import opened Keys
  import opened Coding

  /** An internal key: the user key and the packed sequence number and type. */
  datatype InternalKey = InternalKey(user: Bytes, tag: nat)

  const MAX_TAG: nat := 0xFFFF_FFFF_FFFF_FF01

  /** InternalKeyComparator::Compare(a, b) < 0 */
  predicate Precedes(a: InternalKey, b: InternalKey) {
    BytesLess(a.user, b.user) || (a.user == b.user && a.tag > b.tag)
  }

  predicate AtMost(a: InternalKey, b: InternalKey) { a == b || Precedes(a, b) }

  lemma UserOrder(a: Bytes, b: Bytes, c: Bytes)
    ensures !BytesLess(a, a) && (BytesLess(a, b) ==> !BytesLess(b, a))
    ensures a == b || BytesLess(a, b) || BytesLess(b, a)
    ensures BytesLess(a, b) && BytesLess(b, c) ==> BytesLess(a, c)
  {
    PositionOrdersBytes(a, a);
    PositionOrdersBytes(a, b);
    PositionOrdersBytes(b, a);
    PositionOrdersBytes(b, c);
    PositionOrdersBytes(a, c);
  }

  /** The internal order is a strict total order. */
  lemma KeyOrder(a: InternalKey, b: InternalKey, c: InternalKey)
    ensures !Precedes(a, a) && (Precedes(a, b) ==> !Precedes(b, a))
    ensures a == b || Precedes(a, b) || Precedes(b, a)
    ensures Precedes(a, b) && Precedes(b, c) ==> Precedes(a, c)
  {
    UserOrder(a.user, b.user, c.user);
    UserOrder(b.user, c.user, a.user);
  }

  /** AppendInternalKey: the user key, then the tag as eight bytes. */
  function Encoded(k: InternalKey): Bytes { k.user + Fixed(k.tag, 8) }

  /** Where an internal key stands on the real line: the user key's bytes, plus one, are digits in base 257; the digit
      zero ends them, and after it larger tags come first. */
  function Place(user: Bytes, tag: nat): (r: real)
    ensures tag < LIMIT64 ==> 0.0 <= r < 1.0
  {
    if user == [] then (LIMIT64 - 1 - tag) as real / LIMIT64 as real / 257.0
    else (user[0] as real + 1.0 + Place(user[1..], tag)) / 257.0
  }

  /** The place of an encoded internal key. */
  function Rank(key: Bytes): real {
    if |key| < 8 then 0.0 else Place(key[..|key| - 8], FixedValue(key[|key| - 8..]))
  }

  lemma {:induction false} PlaceOrdersKeys(a: InternalKey, b: InternalKey)
    requires a.tag < LIMIT64 && b.tag < LIMIT64
    ensures Precedes(a, b) <==> Place(a.user, a.tag) < Place(b.user, b.tag)
    ensures a == b <==> Place(a.user, a.tag) == Place(b.user, b.tag)
    decreases |a.user|
  {
    if a.user != [] && b.user != [] {
      var a', b' := InternalKey(a.user[1..], a.tag), InternalKey(b.user[1..], b.tag);
      PlaceOrdersKeys(a', b');
      DigitOrder(a.user[0], b.user[0], Place(a'.user, a.tag), Place(b'.user, b.tag));
      DigitOrder(b.user[0], a.user[0], Place(b'.user, b.tag), Place(a'.user, a.tag));
      assert a.user == [a.user[0]] + a'.user && b.user == [b.user[0]] + b'.user;
    }
  }

  /** On encoded internal keys the ranks are ordered exactly as the internal comparator orders the keys. */
  lemma RankOrdersKeys(a: InternalKey, b: InternalKey)
    requires a.tag < LIMIT64 && b.tag < LIMIT64
    ensures Precedes(a, b) <==> Rank(Encoded(a)) < Rank(Encoded(b))
    ensures a == b <==> Rank(Encoded(a)) == Rank(Encoded(b))
  {
    RankOfEncoded(a);
    RankOfEncoded(b);
    PlaceOrdersKeys(a, b);
  }

  lemma RankOfEncoded(k: InternalKey)
    requires k.tag < LIMIT64
    ensures Rank(Encoded(k)) == Place(k.user, k.tag)
  {
    var key := Encoded(k);
    assert key[..|key| - 8] == k.user && key[|key| - 8..] == Fixed(k.tag, 8);
    Words();
    FixedRoundTrip(k.tag, 8);
  }

  /** Two strings that agree on `n` bytes and then differ are ordered by the next byte. */
  lemma {:induction false} FirstDifference(a: Bytes, b: Bytes, n: nat)
    requires n < |a| && n < |b| && a[..n] == b[..n] && a[n] < b[n]
    ensures BytesLess(a, b)
  {
    if n > 0 {
      assert a[0] == a[..n][0] && b[0] == b[..n][0];
      assert a[1..][..n - 1] == a[..n][1..] && b[1..][..n - 1] == b[..n][1..];
      FirstDifference(a[1..], b[1..], n - 1);
    }
  }

  /** The two strings agree on `n` bytes and no more. */
  predicate FirstDifferAt(a: Bytes, b: Bytes, n: nat) {
    n <= |a| && n <= |b| && a[..n] == b[..n] && (n < |a| && n < |b| ==> a[n] != b[n])
  }

  /** Strings are ordered by their first byte that differs; a string comes before its extensions. */
  lemma {:induction false} OrderAtDifference(a: Bytes, b: Bytes, n: nat)
    requires FirstDifferAt(a, b, n)
    ensures BytesLess(a, b) <==> n < |b| && (n == |a| || a[n] < b[n])
  {
    if n > 0 {
      assert a[0] == a[..n][0] && b[0] == b[..n][0];
      assert a[1..][..n - 1] == a[..n][1..] && b[1..][..n - 1] == b[..n][1..];
      OrderAtDifference(a[1..], b[1..], n - 1);
    }
  }

  /** The order of encoded internal keys is the order of the model's entries: user keys ascending, then newest first. */
  lemma PrecedesIsKeyLess(a: InternalKey, b: InternalKey)
    ensures Precedes(a, b) <==> KeyLess(IKey(Position(a.user), a.tag), IKey(Position(b.user), b.tag))
  {
    PositionOrdersBytes(a.user, b.user);
  }

  /** BytewiseComparator::FindShortestSeparator: the start, or a string between the start and the limit that is no
      longer than the start. The start is cut after its first byte that differs, and that byte is raised by one,
      exactly when the result is still below the limit's byte. */
  method FindShortestSeparator(start: Bytes, limit: Bytes) returns (r: Bytes, ghost n: nat)
    ensures r == start || (BytesLess(start, r) && BytesLess(r, limit) && |r| <= |start|)
    ensures FirstDifferAt(start, limit, n)
    ensures r == if n < |start| && n < |limit| && start[n] < 255 && start[n] + 1 < limit[n]
                 then start[..n] + [start[n] + 1] else start
  {
    var least := if |start| < |limit| then |start| else |limit|;
    var i := 0;
    while i < least && start[i] == limit[i]
      invariant i <= least && start[..i] == limit[..i]
    {
      assert start[..i + 1] == start[..i] + [start[i]] && limit[..i + 1] == limit[..i] + [limit[i]];
      i := i + 1;
    }
    n := i;
    if i >= least { return start, n; }
    if start[i] < 0xff && start[i] + 1 < limit[i] {
      r := start[..i] + [start[i] + 1];
      FirstDifference(start, r, i);
      FirstDifference(r, limit, i);
    } else {
      r := start;
    }
  }

  /** BytewiseComparator::FindShortSuccessor: the key, or a larger string that is no longer. The key is cut after its
      first byte that can be raised, and that byte is raised by one. */
  method FindShortSuccessor(key: Bytes) returns (r: Bytes, ghost n: nat)
    ensures r == key || (BytesLess(key, r) && |r| <= |key|)
    ensures FirstBelow255(key, n)
    ensures r == if n < |key| then key[..n] + [key[n] + 1] else key
  {
    n := |key|;
    for i := 0 to |key|
      invariant forall j :: 0 <= j < i ==> key[j] == 255
    {
      if key[i] != 0xff {
        n := i;
        r := key[..i] + [key[i] + 1];
        FirstDifference(key, r, i);
        return;
      }
    }
    r := key;
  }

  /** The key that the comparator puts between these two: the first one, or a shorter one that goes up by one at the
      first byte that differs. */
  ghost predicate ShortBetween(start: InternalKey, r: InternalKey, limit: InternalKey) {
    exists n: nat :: FirstDifferAt(start.user, limit.user, n) &&
      r == if n + 1 < |start.user| && n < |limit.user| && start.user[n] < 255 && start.user[n] + 1 < limit.user[n]
           then InternalKey(start.user[..n] + [start.user[n] + 1], 0xFFFF_FFFF_FFFF_FF01) else start
  }

  /** The key that the comparator puts after this one: itself, or a shorter one that goes up by one at the first byte that
      can. */
  ghost predicate ShortAfter(key: InternalKey, r: InternalKey) {
    exists n: nat :: FirstBelow255(key.user, n) &&
      r == if n + 1 < |key.user| then InternalKey(key.user[..n] + [key.user[n] + 1], 0xFFFF_FFFF_FFFF_FF01) else key
  }

  predicate FirstBelow255(s: Bytes, n: nat) {
    n <= |s| && (forall i :: 0 <= i < n ==> s[i] == 255) && (n < |s| ==> s[n] != 255)
  }

  /** InternalKeyComparator::FindShortestSeparator: the start itself, or a key whose user key is strictly between the
      two user keys; that is the case exactly when the bytewise separator is shorter than the start. */
  method InternalSeparator(start: InternalKey, limit: InternalKey) returns (r: InternalKey, ghost n: nat)
    ensures r == start || (BytesLess(start.user, r.user) && BytesLess(r.user, limit.user) && |r.user| < |start.user|)
    ensures FirstDifferAt(start.user, limit.user, n)
    ensures r == if n + 1 < |start.user| && n < |limit.user| && start.user[n] < 255 && start.user[n] + 1 < limit.user[n]
                 then InternalKey(start.user[..n] + [start.user[n] + 1], 0xFFFF_FFFF_FFFF_FF01) else start
    ensures ShortBetween(start, r, limit)
  {
    var tmp;
    tmp, n := FindShortestSeparator(start.user, limit.user);
    UserOrder(start.user, start.user, start.user);
    if |tmp| < |start.user| && BytesLess(start.user, tmp) {
      r := InternalKey(tmp, MAX_TAG);
    } else {
      r := start;
    }
  }

  /** InternalKeyComparator::FindShortSuccessor */
  method InternalSuccessor(key: InternalKey) returns (r: InternalKey, ghost n: nat)
    ensures r == key || (BytesLess(key.user, r.user) && |r.user| < |key.user|)
    ensures FirstBelow255(key.user, n)
    ensures r == if n + 1 < |key.user| then InternalKey(key.user[..n] + [key.user[n] + 1], 0xFFFF_FFFF_FFFF_FF01) else key
    ensures ShortAfter(key, r)
  {
    var tmp;
    tmp, n := FindShortSuccessor(key.user);
    if |tmp| < |key.user| && BytesLess(key.user, tmp) {
      r := InternalKey(tmp, MAX_TAG);
    } else {
      r := key;
    }
  }

  /** An index key built from the last key of a block and the first key of the next: it separates them, and no key
      with the next block's first user key is at or before it unless the last key is. */
  lemma SeparatorSeparates(last: InternalKey, sep: InternalKey, next: InternalKey, k: InternalKey)
    requires Precedes(last, next)
    requires sep == last || (BytesLess(last.user, sep.user) && BytesLess(sep.user, next.user))
    ensures AtMost(last, sep) && Precedes(sep, next)
    ensures k.user == next.user && Precedes(last, k) ==> Precedes(sep, k)
  {
    UserOrder(last.user, sep.user, next.user);
  }
}
