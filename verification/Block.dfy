/** Blocks of sorted key-value pairs with prefix-compressed keys and restart points
    (table/block_builder.cc, table/block.cc). */
module Block {
  import opened Keys
  import opened Coding

  datatype Pair = Pair(key: Bytes, value: Bytes)

  // ----- one entry

  function Header(shared: nat, nonShared: nat, valueLength: nat): Bytes {
    Varint(shared) + Varint(nonShared) + Varint(valueLength)
  }

  /** An entry as it is stored: it leaves out the bytes that its key shares with the key before. */
  function Piece(p: Pair, shared: nat): Bytes
    requires shared <= |p.key|
  {
    Header(shared, |p.key| - shared, |p.value|) + p.key[shared..] + p.value
  }

  /** The bytes of an entry with short lengths. */
  lemma PieceBytes(p: Pair, shared: nat)
    requires shared <= |p.key| < 128 && |p.value| < 128
    ensures Piece(p, shared) == [shared, |p.key| - shared, |p.value|] + p.key[shared..] + p.value
  {
    assert Varint(shared) == [shared] && Varint(|p.key| - shared) == [|p.key| - shared] && Varint(|p.value|) == [|p.value|];
  }

  datatype Fields = Fields(shared: nat, nonShared: nat, valueLength: nat, start: nat)

  /** The header of such an entry stands at `p`, and the entry ends before the limit. */
  ghost predicate HeaderAt(s: Bytes, p: nat, limit: nat, e: Fields) {
    && e.shared < LIMIT32 && e.nonShared < LIMIT32 && e.valueLength < LIMIT32 && limit <= |s|
    && IsAt(s, p, Header(e.shared, e.nonShared, e.valueLength))
    && e.start == p + |Header(e.shared, e.nonShared, e.valueLength)|
    && e.start + e.nonShared + e.valueLength <= limit
  }

  function Checked(e: Fields, limit: nat): Option<Fields> {
    if e.start + e.nonShared + e.valueLength <= limit then Some(e) else None
  }

  /** DecodeEntry: NULL on a bad header, or when the entry does not end before the limit. */
  method DecodeEntry(s: Bytes, p: nat, limit: nat, ghost e: Fields) returns (r: Option<Fields>)
    requires p <= limit <= |s|
    ensures r.Some? ==> p < r.value.start && r.value.start + r.value.nonShared + r.value.valueLength <= limit
    ensures HeaderAt(s, p, limit, e) ==> r == Some(e)
  {
    ghost var a', b' := p + |Varint(e.shared)|, p + |Varint(e.shared)| + |Varint(e.nonShared)|;
    if HeaderAt(s, p, limit, e) { HeaderDecodes(s, p, limit, e, a', b'); }
    if limit - p < 3 { return None; }
    if s[p] < 128 && s[p + 1] < 128 && s[p + 2] < 128 {
      return Checked(Fields(s[p], s[p + 1], s[p + 2], p + 3), limit);
    }
    var head := s[..limit];
    var a := GetVarint32(head, p);
    if a.None? { return None; }
    var b := GetVarint32(head, a.value.1);
    if b.None? { return None; }
    var c := GetVarint32(head, b.value.1);
    if c.None? { return None; }
    return Checked(Fields(a.value.0, b.value.0, c.value.0, c.value.1), limit);
  }

  /** What the decoder sees of a header whose second and third numbers stand at `a` and `b`. */
  lemma HeaderDecodes(s: Bytes, p: nat, limit: nat, e: Fields, a: nat, b: nat)
    requires HeaderAt(s, p, limit, e)
    requires a == p + |Varint(e.shared)| && b == a + |Varint(e.nonShared)|
    ensures p + 3 <= limit && a <= limit && b <= limit
    ensures var head := s[..limit];
            && Decoded32(head, p) == Some((e.shared, a)) && Decoded32(head, a) == Some((e.nonShared, b))
            && Decoded32(head, b) == Some((e.valueLength, e.start))
    ensures s[p] < 128 && s[p + 1] < 128 && s[p + 2] < 128 ==>
              s[p] == e.shared && s[p + 1] == e.nonShared && s[p + 2] == e.valueLength && e.start == p + 3
  {
    var head, x, y, z := s[..limit], Varint(e.shared), Varint(e.nonShared), Varint(e.valueLength);
    HeadIsAt(s, limit, p, x + y + z);
    IsAtJoin(head, p, x + y, z);
    IsAtJoin(head, p, x, y);
    Number(head, p, e.shared, a);
    Number(head, a, e.nonShared, b);
    Number(head, b, e.valueLength, e.start);
  }

  lemma HeadIsAt(s: Bytes, limit: nat, p: nat, part: Bytes)
    requires IsAt(s, p, part) && p + |part| <= limit <= |s|
    ensures IsAt(s[..limit], p, part)
  {
    assert s[..limit][p..p + |part|] == s[p..p + |part|];
  }

  /** A varint at `p` decodes; one whose first byte is small is that byte. */
  lemma Number(s: Bytes, p: nat, v: nat, q: nat)
    requires IsAt(s, p, Varint(v)) && v < LIMIT32 && q == p + |Varint(v)|
    ensures Decoded32(s, p) == Some((v, q))
    ensures p < q <= |s| && (s[p] < 128 ==> v == s[p] && q == p + 1)
  {
    Varint32RoundTrip(s, p, v);
    assert s[p] == s[p..p + |Varint(v)|][0];
  }

  // ----- a block

  /** What a block holds: its pairs, how many bytes each key shares with the key before, where each entry starts
      (and where the last one ends), and which entries are restart points. */
  datatype Layout = Layout(pairs: seq<Pair>, shared: seq<nat>, offsets: seq<nat>, marks: seq<nat>)

  /** The first `n` bytes agree. */
  predicate Share(a: Bytes, b: Bytes, n: nat) { n <= |a| && n <= |b| && a[..n] == b[..n] }

  ghost predicate Formed(l: Layout) {
    var n := |l.pairs|;
    && |l.shared| == n && |l.offsets| == n + 1 && l.offsets[0] == 0 && |l.marks| > 0 && l.marks[0] == 0
    && (forall i, j :: 0 <= i < j <= n ==> l.offsets[i] < l.offsets[j])
    && (forall i :: 0 < i < n ==> Share(l.pairs[i - 1].key, l.pairs[i].key, l.shared[i]))
    && (if n == 0 then l.marks == [0]
        else forall j :: 0 <= j < |l.marks| ==> l.marks[j] < n && l.shared[l.marks[j]] == 0)
    && (forall j, k :: 0 <= j < k < |l.marks| ==> l.marks[j] < l.marks[k])
  }

  function FieldsOf(p: Pair, shared: nat, offset: nat): Fields {
    var nonShared := if shared <= |p.key| then |p.key| - shared else 0;
    Fields(shared, nonShared, |p.value|, offset + |Header(shared, nonShared, |p.value|)|)
  }

  /** The entry of this pair stands in the data, from `offset` to `end`. */
  ghost predicate EntryAt(data: Bytes, p: Pair, shared: nat, offset: nat, end: nat) {
    && shared <= |p.key|
    && var e := FieldsOf(p, shared, offset);
    && HeaderAt(data, offset, end, e) && end == e.start + e.nonShared + e.valueLength
    && IsAt(data, e.start, p.key[shared..]) && IsAt(data, e.start + e.nonShared, p.value)
  }

  /** This is the block, with its restart array at `restarts`. */
  ghost predicate Stored(data: Bytes, restarts: nat, l: Layout) {
    && Formed(l) && restarts == l.offsets[|l.pairs|] && restarts + 4 * |l.marks| + 4 == |data|
    && Read32(data, |data| - 4) == |l.marks|
    && (forall i {:trigger FieldsOf(l.pairs[i], l.shared[i], l.offsets[i])} :: 0 <= i < |l.pairs| ==>
          EntryAt(data, l.pairs[i], l.shared[i], l.offsets[i], l.offsets[i + 1]))
    && (forall j {:trigger l.offsets[l.marks[j]]} :: 0 <= j < |l.marks| && l.marks[j] < |l.offsets| ==>
          NumberAt(data, restarts, j, l.offsets[l.marks[j]]))
  }

  /** What ParseNextKey makes of an entry, given the bytes that its key shares. */
  lemma EntryDecodes(data: Bytes, p: Pair, shared: nat, offset: nat, end: nat, limit: nat, key: Bytes)
    requires EntryAt(data, p, shared, offset, end) && end <= limit <= |data| && Share(key, p.key, shared)
    ensures var e := FieldsOf(p, shared, offset);
            && HeaderAt(data, offset, limit, e) && e.start + e.nonShared + e.valueLength == end
            && key[..shared] + data[e.start..e.start + e.nonShared] == p.key
            && data[e.start + e.nonShared..end] == p.value
  {}

  /** The next entry to parse is number `i`: where it starts is known, and the key has the bytes that it shares. */
  ghost predicate Before(l: Layout, i: nat, restartIndex: nat, key: Bytes, valueEnd: nat) {
    && Formed(l) && i <= |l.pairs| && valueEnd == l.offsets[i]
    && restartIndex < |l.marks| && l.marks[restartIndex] <= i
    && (i < |l.pairs| ==> Share(key, l.pairs[i].key, l.shared[i]))
  }

  /** Parsing the next entry. */
  lemma ParsesNext(l: Layout, i: nat, data: Bytes, limit: nat, restartIndex: nat, key: Bytes, valueEnd: nat)
    requires Stored(data, limit, l) && Before(l, i, restartIndex, key, valueEnd)
    ensures i < |l.pairs| <==> valueEnd < limit
    ensures i < |l.pairs| ==>
              var e := FieldsOf(l.pairs[i], l.shared[i], valueEnd);
              && HeaderAt(data, valueEnd, limit, e) && e.shared <= |key|
              && At(l, i, data, valueEnd, restartIndex, key[..e.shared] + data[e.start..e.start + e.nonShared],
                    e.start + e.nonShared, e.start + e.nonShared + e.valueLength)
  {
    if i < |l.pairs| {
      EntryDecodes(data, l.pairs[i], l.shared[i], l.offsets[i], l.offsets[i + 1], limit, key);
    }
  }

  /** The iterator is at pair `i`. */
  ghost predicate At(
    l: Layout, i: nat, data: Bytes, current: nat, restartIndex: nat, key: Bytes, valueStart: nat, valueEnd: nat)
  {
    && Formed(l) && i < |l.pairs| && current == l.offsets[i] && valueEnd == l.offsets[i + 1]
    && key == l.pairs[i].key && valueStart <= valueEnd <= |data| && data[valueStart..valueEnd] == l.pairs[i].value
    && restartIndex < |l.marks| && l.marks[restartIndex] <= i
  }

  lemma AtThenBefore(
    l: Layout, i: nat, data: Bytes, current: nat, restartIndex: nat, key: Bytes, valueStart: nat, valueEnd: nat)
    requires At(l, i, data, current, restartIndex, key, valueStart, valueEnd)
    ensures Before(l, i + 1, restartIndex, key, valueEnd)
  {}

  lemma AtRestart(l: Layout, j: nat, offset: nat)
    requires Formed(l) && j < |l.marks| && l.marks[j] < |l.offsets| && offset == l.offsets[l.marks[j]]
    ensures Before(l, l.marks[j], j, [], offset)
  {}

  class Iter {
    const data: Bytes
    const restarts: nat
    const numRestarts: nat
    const rank: Bytes -> real
    var current: nat
    var restartIndex: nat
    var key: Bytes
    var valueStart: nat
    var valueEnd: nat
    var corrupt: bool

    ghost predicate Good()
      reads this`current, this`restartIndex
    {
      && numRestarts > 0 && restarts + 4 * numRestarts + 4 <= |data|
      && current <= restarts && (current < restarts ==> restartIndex < numRestarts)
    }

    /** Good, and at an entry or at the end: what every public operation leaves. */
    ghost predicate Valid()
      reads this
    {
      Good() && (current < restarts ==> current < valueEnd <= restarts && valueStart <= valueEnd)
    }

    /** The data is this block. */
    ghost predicate Holds(l: Layout) { Stored(data, restarts, l) && numRestarts == |l.marks| }

    ghost predicate AtPair(l: Layout, i: nat)
      reads this
    {
      At(l, i, data, current, restartIndex, key, valueStart, valueEnd)
    }

    ghost predicate BeforePair(l: Layout, i: nat)
      reads this`restartIndex, this`key, this`valueEnd
    {
      Before(l, i, restartIndex, key, valueEnd)
    }

    constructor (data: Bytes, restarts: nat, numRestarts: nat, rank: Bytes -> real)
      requires numRestarts > 0 && restarts + 4 * numRestarts + 4 <= |data|
      ensures Valid() && current == restarts && !corrupt
      ensures this.data == data && this.restarts == restarts && this.numRestarts == numRestarts && this.rank == rank
    {
      this.data, this.restarts, this.numRestarts, this.rank := data, restarts, numRestarts, rank;
      current, restartIndex, key, valueStart, valueEnd, corrupt := restarts, numRestarts, [], 0, 0, false;
    }

    function GetRestartPoint(index: nat): nat
      requires index < numRestarts && restarts + 4 * numRestarts + 4 <= |data|
    {
      Read32(data, restarts + 4 * index)
    }

    lemma RestartPoint(l: Layout, j: nat)
      requires Holds(l) && j < numRestarts
      ensures restarts + 4 * numRestarts + 4 <= |data| && l.marks[j] < |l.offsets|
      ensures GetRestartPoint(j) == l.offsets[l.marks[j]]
    {
      assert l.marks[j] < |l.offsets|;
      assert NumberAt(data, restarts, j, l.offsets[l.marks[j]]);
    }

    method CorruptionError()
      requires Good()
      modifies this
      ensures Valid() && current == restarts
    {
      current, restartIndex, corrupt, key, valueStart, valueEnd := restarts, numRestarts, true, [], 0, 0;
    }

    method SeekToRestartPoint(index: nat, ghost l: Layout)
      requires Good() && index < numRestarts
      modifies this`key, this`restartIndex, this`valueStart, this`valueEnd
      ensures Good() && restartIndex == index
      ensures Holds(l) ==> BeforePair(l, l.marks[index])
    {
      key, restartIndex := [], index;
      valueStart, valueEnd := GetRestartPoint(index), GetRestartPoint(index);
      if Holds(l) {
        RestartPoint(l, index);
        AtRestart(l, index, valueEnd);
      }
    }

    /** ParseNextKey, told for a block in which pair `i` is next. */
    method ParseNextKey(ghost l: Layout, ghost i: nat) returns (ok: bool)
      requires Good() && restartIndex < numRestarts
      modifies this
      ensures Valid() && (ok ==> current == old(valueEnd) && current < restarts)
      ensures !ok ==> current == restarts
      ensures Holds(l) && old(BeforePair(l, i)) ==>
                && corrupt == old(corrupt) && ok == (i < |l.pairs|) && (ok ==> AtPair(l, i))
    {
      ghost var sound := Holds(l) && BeforePair(l, i);
      if sound { ParsesNext(l, i, data, restarts, restartIndex, key, valueEnd); }
      if valueEnd >= restarts {
        current, restartIndex := restarts, numRestarts;
        return false;
      }
      current := valueEnd;
      ghost var e := if sound then FieldsOf(l.pairs[i], l.shared[i], valueEnd) else Fields(0, 0, 0, 0);
      var r := DecodeEntry(data, current, restarts, e);
      if r.None? || |key| < r.value.shared {
        CorruptionError();
        return false;
      }
      var f := r.value;
      key := key[..f.shared] + data[f.start..f.start + f.nonShared];
      valueStart, valueEnd := f.start + f.nonShared, f.start + f.nonShared + f.valueLength;
      AdvanceRestart(l, i);
      return true;
    }

    /** The loop at the end of ParseNextKey: the restart point before the current entry. */
    method AdvanceRestart(ghost l: Layout, ghost i: nat)
      requires numRestarts > 0 && restarts + 4 * numRestarts + 4 <= |data| && restartIndex < numRestarts
      modifies this`restartIndex
      ensures restartIndex < numRestarts
      ensures Holds(l) && old(AtPair(l, i)) ==> AtPair(l, i)
    {
      ghost var sound := Holds(l) && AtPair(l, i);
      while restartIndex + 1 < numRestarts && GetRestartPoint(restartIndex + 1) < current
        invariant restartIndex < numRestarts
        invariant sound ==> l.marks[restartIndex] <= i
        decreases numRestarts - restartIndex
      {
        if sound { RestartPoint(l, restartIndex + 1); }
        restartIndex := restartIndex + 1;
      }
    }

    method SeekToFirst(ghost l: Layout)
      requires Valid()
      modifies this
      ensures Valid()
      ensures Holds(l) ==> corrupt == old(corrupt) && if l.pairs == [] then current == restarts else AtPair(l, 0)
    {
      SeekToRestartPoint(0, l);
      var ok := ParseNextKey(l, 0);
    }

    method Next(ghost l: Layout, ghost i: nat)
      requires Valid() && current < restarts
      modifies this
      ensures Valid() && (current == restarts || current > old(current))
      ensures Holds(l) && old(AtPair(l, i)) ==>
                && corrupt == old(corrupt)
                && if i + 1 == |l.pairs| then current == restarts else AtPair(l, i + 1)
    {
      if AtPair(l, i) { AtThenBefore(l, i, data, current, restartIndex, key, valueStart, valueEnd); }
      var ok := ParseNextKey(l, i + 1);
    }

    /** Parsing on until the entry that ends at `stop` or later, or the end. */
    method ParseUntil(stop: nat, ghost l: Layout, ghost i: nat, ghost last: nat)
      requires Good() && restartIndex < numRestarts
      modifies this
      ensures Valid()
      ensures Holds(l) && old(BeforePair(l, i)) && i <= last < |l.pairs| && stop == l.offsets[last + 1] ==>
                corrupt == old(corrupt) && AtPair(l, last)
      ensures Holds(l) && old(BeforePair(l, i)) && i == |l.pairs| ==> corrupt == old(corrupt) && current == restarts
    {
      ghost var sound := Holds(l) && BeforePair(l, i) && i <= last < |l.pairs| && stop == l.offsets[last + 1];
      var ok := ParseNextKey(l, i);
      ghost var k: nat := i;
      while ok && valueEnd < stop
        invariant Valid() && (ok ==> current < restarts)
        invariant Holds(l) && old(BeforePair(l, i)) && i == |l.pairs| ==>
                    !ok && corrupt == old(corrupt) && current == restarts
        invariant sound ==> ok && corrupt == old(corrupt) && i <= k <= last && AtPair(l, k)
        decreases ok, restarts - valueEnd
      {
        if sound {
          AtThenBefore(l, k, data, current, restartIndex, key, valueStart, valueEnd);
        }
        k := k + 1;
        ok := ParseNextKey(l, k);
      }
    }

    method SeekToLast(ghost l: Layout)
      requires Valid()
      modifies this
      ensures Valid()
      ensures Holds(l) ==>
                && corrupt == old(corrupt)
                && if l.pairs == [] then current == restarts else AtPair(l, |l.pairs| - 1)
    {
      SeekToRestartPoint(numRestarts - 1, l);
      ParseUntil(restarts, l, if Holds(l) then l.marks[numRestarts - 1] else 0, if |l.pairs| > 0 then |l.pairs| - 1 else 0);
    }

    /** Prev: back to a restart point before the current entry, then forward again. */
    method Prev(ghost l: Layout, ghost i: nat)
      requires Valid() && current < restarts
      modifies this
      ensures Valid()
      ensures Holds(l) && old(AtPair(l, i)) ==>
                corrupt == old(corrupt) && if i == 0 then current == restarts else AtPair(l, i - 1)
    {
      var original := current;
      ghost var sound := Holds(l) && AtPair(l, i);
      while GetRestartPoint(restartIndex) >= original
        invariant Good() && restartIndex < numRestarts && corrupt == old(corrupt)
        decreases restartIndex
      {
        if sound { RestartPoint(l, restartIndex); }
        if restartIndex == 0 {
          current, restartIndex := restarts, numRestarts;
          return;
        }
        restartIndex := restartIndex - 1;
      }
      if sound { RestartPoint(l, restartIndex); }
      SeekToRestartPoint(restartIndex, l);
      ParseUntil(original, l, if sound then l.marks[restartIndex] else 0, if i > 0 then i - 1 else 0);
    }

    /** The key of a restart point, as Seek decodes it. */
    method RestartKey(index: nat, ghost l: Layout) returns (ok: bool, k: Bytes)
      requires Good() && index < numRestarts
      ensures Holds(l) && l.marks[index] < |l.pairs| ==> ok && k == l.pairs[l.marks[index]].key
    {
      var region := GetRestartPoint(index);
      ghost var e := Fields(0, 0, 0, 0);
      if Holds(l) && l.marks[index] < |l.pairs| {
        RestartPoint(l, index);
        var m := l.marks[index];
        e := FieldsOf(l.pairs[m], l.shared[m], l.offsets[m]);
        EntryDecodes(data, l.pairs[m], l.shared[m], l.offsets[m], l.offsets[m + 1], restarts, []);
      }
      if region > restarts { return false, []; }
      var r := DecodeEntry(data, region, restarts, e);
      if r.None? || r.value.shared != 0 { return false, []; }
      return true, data[r.value.start..r.value.start + r.value.nonShared];
    }

    /** Seek's binary search: the last restart point whose key is below the target, or the first one. */
    method FindRestart(target: Bytes, ghost l: Layout) returns (left: nat, ok: bool)
      requires Good()
      ensures left < numRestarts
      ensures Holds(l) && KeysIncrease(rank, l) ==>
                ok && BelowFrom(rank, l, left, rank(target)) && AboveAfter(rank, l, left, rank(target))
    {
      var right := numRestarts - 1;
      left := 0;
      while left < right
        invariant left <= right < numRestarts
        invariant Holds(l) && KeysIncrease(rank, l) ==>
                    BelowFrom(rank, l, left, rank(target)) && AboveAfter(rank, l, right, rank(target))
      {
        var mid := (left + right + 1) / 2;
        var found, midKey := RestartKey(mid, l);
        if !found { return left, false; }
        if rank(midKey) < rank(target) {
          left := mid;
        } else {
          if Holds(l) && KeysIncrease(rank, l) { AboveFrom(rank, l, mid, rank(target)); }
          right := mid - 1;
        }
      }
      ok := true;
    }

    /** Seek's linear search, from pair `i` on. */
    method ScanTo(target: Bytes, ghost l: Layout, ghost start: nat) returns (ghost i: nat)
      requires Good() && restartIndex < numRestarts
      modifies this
      ensures Valid()
      ensures && Holds(l) && old(BeforePair(l, start))
              && (forall k :: 0 <= k < start ==> rank(l.pairs[k].key) < rank(target)) ==>
                && FirstAtOrAfter(rank, l, rank(target), i) && corrupt == old(corrupt)
                && if i == |l.pairs| then current == restarts else AtPair(l, i)
    {
      ghost var sound := && Holds(l) && BeforePair(l, start)
                         && forall k :: 0 <= k < start ==> rank(l.pairs[k].key) < rank(target);
      i := start;
      var ok := ParseNextKey(l, i);
      while ok && rank(key) < rank(target)
        invariant Valid() && (ok ==> current < restarts)
        invariant sound ==> i <= |l.pairs| && corrupt == old(corrupt) && ok == (i < |l.pairs|)
        invariant sound ==> if ok then AtPair(l, i) else current == restarts
        invariant sound ==> forall k :: 0 <= k < i ==> rank(l.pairs[k].key) < rank(target)
        decreases ok, restarts - valueEnd
      {
        if sound { AtThenBefore(l, i, data, current, restartIndex, key, valueStart, valueEnd); }
        i := i + 1;
        ok := ParseNextKey(l, i);
      }
    }

    /** Seek: the first pair at or after the target; `i` is its number, or how many pairs there are. */
    method Seek(target: Bytes, ghost l: Layout) returns (ghost i: nat)
      requires Valid()
      modifies this
      ensures Valid()
      ensures Holds(l) && KeysIncrease(rank, l) ==>
                && FirstAtOrAfter(rank, l, rank(target), i) && corrupt == old(corrupt)
                && if i == |l.pairs| then current == restarts else AtPair(l, i)
    {
      var left, found := FindRestart(target, l);
      if !found {
        CorruptionError();
        return 0;
      }
      SeekToRestartPoint(left, l);
      if Holds(l) && KeysIncrease(rank, l) { AllBelow(rank, l, left, rank(target)); }
      i := ScanTo(target, l, if Holds(l) then l.marks[left] else 0);
    }
  }

  /** The keys increase in the comparator's order. */
  ghost predicate KeysIncrease(rank: Bytes -> real, l: Layout) {
    forall i, j :: 0 <= i < j < |l.pairs| ==> rank(l.pairs[i].key) < rank(l.pairs[j].key)
  }

  ghost predicate FirstAtOrAfter(rank: Bytes -> real, l: Layout, t: real, i: nat) {
    && i <= |l.pairs| && (forall k :: 0 <= k < i ==> rank(l.pairs[k].key) < t)
    && (i < |l.pairs| ==> t <= rank(l.pairs[i].key))
  }

  /** Restart point `j` is the first one, or its key is below `t`. */
  ghost predicate BelowFrom(rank: Bytes -> real, l: Layout, j: nat, t: real) {
    && Formed(l) && j < |l.marks|
    && (j > 0 ==> l.marks[j] < |l.pairs| && rank(l.pairs[l.marks[j]].key) < t)
  }

  /** The keys of the restart points after `j` are not below `t`. */
  ghost predicate AboveAfter(rank: Bytes -> real, l: Layout, j: nat, t: real) {
    forall k :: j < k < |l.marks| && l.marks[k] < |l.pairs| ==> t <= rank(l.pairs[l.marks[k]].key)
  }

  lemma AboveFrom(rank: Bytes -> real, l: Layout, mid: nat, t: real)
    requires Formed(l) && KeysIncrease(rank, l) && 0 < mid < |l.marks| && l.marks[mid] < |l.pairs|
    requires t <= rank(l.pairs[l.marks[mid]].key)
    ensures AboveAfter(rank, l, mid - 1, t)
  {
    forall k | mid - 1 < k < |l.marks| && l.marks[k] < |l.pairs| ensures t <= rank(l.pairs[l.marks[k]].key) {
      if k > mid { assert l.marks[mid] < l.marks[k]; }
    }
  }

  lemma AllBelow(rank: Bytes -> real, l: Layout, j: nat, t: real)
    requires BelowFrom(rank, l, j, t) && KeysIncrease(rank, l)
    ensures l.marks[j] <= |l.pairs| && forall k :: 0 <= k < l.marks[j] ==> rank(l.pairs[k].key) < t
  {}

  // ----- the builder

  /** The block so far. */
  ghost predicate Built(buffer: Bytes, restarts: seq<nat>, l: Layout) {
    && Formed(l) && |buffer| == l.offsets[|l.pairs|] && |restarts| == |l.marks|
    && (forall j :: 0 <= j < |restarts| ==> l.marks[j] <= |l.pairs| && restarts[j] == l.offsets[l.marks[j]])
    && (forall i {:trigger FieldsOf(l.pairs[i], l.shared[i], l.offsets[i])} :: 0 <= i < |l.pairs| ==>
          EntryAt(buffer, l.pairs[i], l.shared[i], l.offsets[i], l.offsets[i + 1]))
  }

  function LastKey(l: Layout): Bytes { if l.pairs == [] then [] else l.pairs[|l.pairs| - 1].key }

  /** The layout with one more pair. */
  function Grown(l: Layout, p: Pair, shared: nat, end: nat, restart: bool): Layout {
    Layout(l.pairs + [p], l.shared + [shared], l.offsets + [end], if restart then l.marks + [|l.pairs|] else l.marks)
  }

  lemma EntryKept(buffer: Bytes, more: Bytes, p: Pair, shared: nat, offset: nat, end: nat)
    requires EntryAt(buffer, p, shared, offset, end)
    ensures EntryAt(buffer + more, p, shared, offset, end)
  {
    var e := FieldsOf(p, shared, offset);
    var h := Header(e.shared, e.nonShared, e.valueLength);
    IsAtKept(buffer, more, offset, h);
    IsAtKept(buffer, more, e.start, p.key[shared..]);
    IsAtKept(buffer, more, e.start + e.nonShared, p.value);
  }

  lemma EntryAppended(buffer: Bytes, p: Pair, shared: nat)
    requires shared <= |p.key| < LIMIT32 && |p.value| < LIMIT32
    ensures var buffer' := buffer + Piece(p, shared); EntryAt(buffer', p, shared, |buffer|, |buffer'|)
  {
    var h, k := Header(shared, |p.key| - shared, |p.value|), p.key[shared..];
    var buffer' := buffer + Piece(p, shared);
    assert buffer'[|buffer|..] == (h + k) + p.value;
    assert IsAt(buffer', |buffer|, (h + k) + p.value);
    IsAtJoin(buffer', |buffer|, h + k, p.value);
    IsAtJoin(buffer', |buffer|, h, k);
  }

  lemma GrownFormed(l: Layout, p: Pair, shared: nat, end: nat, restart: bool)
    requires Formed(l) && l.offsets[|l.pairs|] < end && shared <= |p.key|
    requires l.pairs != [] ==> Share(LastKey(l), p.key, shared)
    requires l.pairs == [] ==> shared == 0 && !restart
    requires restart ==> shared == 0
    ensures Formed(Grown(l, p, shared, end, restart))
  {
    var l', n := Grown(l, p, shared, end, restart), |l.pairs|;
    forall i, j | 0 <= i < j <= n + 1 ensures l'.offsets[i] < l'.offsets[j] {
      assert l'.offsets[i] == l.offsets[i] && (i == n || l.offsets[i] < l.offsets[n]);
    }
    forall i | 0 < i < n + 1 ensures Share(l'.pairs[i - 1].key, l'.pairs[i].key, l'.shared[i]) {
      assert l'.pairs[i - 1] == l.pairs[i - 1];
    }
    MarksGrow(l.marks, l.shared, n, shared, restart);
  }

  lemma MarksGrow(marks: seq<nat>, shareds: seq<nat>, n: nat, shared: nat, restart: bool)
    requires |shareds| == n && (n == 0 ==> marks == [0] && shared == 0 && !restart) && (restart ==> shared == 0)
    requires forall j :: 0 <= j < |marks| && n > 0 ==> marks[j] < n && shareds[marks[j]] == 0
    requires forall j, k :: 0 <= j < k < |marks| ==> marks[j] < marks[k]
    ensures var marks', shareds' := if restart then marks + [n] else marks, shareds + [shared];
            && (forall j :: 0 <= j < |marks'| ==> marks'[j] < n + 1 && shareds'[marks'[j]] == 0)
            && (forall j, k :: 0 <= j < k < |marks'| ==> marks'[j] < marks'[k])
  {}

  lemma GrownBuilt(
    buffer: Bytes, restarts: seq<nat>, l: Layout, p: Pair, shared: nat, restart: bool, buffer': Bytes, restarts': seq<nat>)
    requires Built(buffer, restarts, l) && shared <= |p.key| < LIMIT32 && |p.value| < LIMIT32
    requires l.pairs != [] ==> Share(LastKey(l), p.key, shared)
    requires l.pairs == [] ==> shared == 0 && !restart
    requires restart ==> shared == 0
    requires buffer' == buffer + Piece(p, shared) && restarts' == if restart then restarts + [|buffer|] else restarts
    ensures Built(buffer', restarts', Grown(l, p, shared, |buffer'|, restart))
  {
    var l' := Grown(l, p, shared, |buffer'|, restart);
    EntryAppended(buffer, p, shared);
    GrownFormed(l, p, shared, |buffer'|, restart);
    forall i | 0 <= i < |l'.pairs|
      ensures EntryAt(buffer', l'.pairs[i], l'.shared[i], l'.offsets[i], l'.offsets[i + 1])
    {
      GrownEntry(buffer, restarts, l, p, shared, l', i);
    }
  }

  lemma GrownEntry(buffer: Bytes, restarts: seq<nat>, l: Layout, p: Pair, shared: nat, l': Layout, i: nat)
    requires Built(buffer, restarts, l) && shared <= |p.key| < LIMIT32 && |p.value| < LIMIT32 && i <= |l.pairs|
    requires l'.pairs == l.pairs + [p] && l'.shared == l.shared + [shared]
    requires l'.offsets == l.offsets + [|buffer + Piece(p, shared)|]
    ensures EntryAt(buffer + Piece(p, shared), l'.pairs[i], l'.shared[i], l'.offsets[i], l'.offsets[i + 1])
  {
    if i < |l.pairs| {
      var e := FieldsOf(l.pairs[i], l.shared[i], l.offsets[i]);
      EntryKept(buffer, Piece(p, shared), l.pairs[i], l.shared[i], l.offsets[i], l.offsets[i + 1]);
    } else {
      EntryAppended(buffer, p, shared);
    }
  }

  /** How many bytes two keys share. */
  method SharedLength(a: Bytes, b: Bytes) returns (shared: nat)
    ensures Share(a, b, shared)
    ensures shared < |a| && shared < |b| ==> a[shared] != b[shared]
  {
    var least := if |a| < |b| then |a| else |b|;
    shared := 0;
    while shared < least && a[shared] == b[shared]
      invariant shared <= least && Share(a, b, shared)
    {
      assert a[..shared + 1] == a[..shared] + [a[shared]] && b[..shared + 1] == b[..shared] + [b[shared]];
      shared := shared + 1;
    }
  }

  /** The two keys share `n` bytes and no more. */
  predicate Longest(a: Bytes, b: Bytes, n: nat) { Share(a, b, n) && (n < |a| && n < |b| ==> a[n] != b[n]) }

  /** Every entry that is not a restart point leaves out all that its key shares with the key before. */
  ghost predicate Compressed(l: Layout) {
    |l.shared| == |l.pairs| && forall i :: 0 < i < |l.pairs| ==>
      i in l.marks || Longest(l.pairs[i - 1].key, l.pairs[i].key, l.shared[i])
  }

  lemma GrownCompressed(l: Layout, p: Pair, shared: nat, end: nat, restart: bool)
    requires Compressed(l) && (restart || l.pairs == [] || Longest(LastKey(l), p.key, shared))
    ensures Compressed(Grown(l, p, shared, end, restart))
  {
    var l' := Grown(l, p, shared, end, restart);
    forall i | 0 < i < |l'.pairs| && i !in l'.marks ensures Longest(l'.pairs[i - 1].key, l'.pairs[i].key, l'.shared[i]) {
      if i < |l.pairs| {
        assert l'.pairs[i - 1] == l.pairs[i - 1] && l'.pairs[i] == l.pairs[i] && l'.shared[i] == l.shared[i];
        assert i !in l.marks;
      } else {
        assert l'.pairs[i - 1].key == LastKey(l) && !restart;
      }
    }
  }

  class BlockBuilder {
    const interval: nat
    var buffer: Bytes
    var restarts: seq<nat>
    var counter: nat
    var lastKey: Bytes
    ghost var l: Layout

    /** Every `interval`-th pair is a restart point: the counter is the distance from the last one. */
    ghost predicate Valid()
      reads this
    {
      && interval >= 1 && counter <= interval && Built(buffer, restarts, l) && lastKey == LastKey(l)
      && counter == |l.pairs| - l.marks[|l.marks| - 1] && Compressed(l)
    }

    constructor (interval: nat)
      requires interval >= 1
      ensures Valid() && l.pairs == [] && this.interval == interval
    {
      this.interval := interval;
      buffer, restarts, counter, lastKey, l := [], [0], 0, [], Layout([], [], [0], [0]);
    }

    method Reset()
      requires Valid()
      modifies this
      ensures Valid() && l.pairs == []
    {
      buffer, restarts, counter, lastKey, l := [], [0], 0, [], Layout([], [], [0], [0]);
    }

    method Add(p: Pair)
      requires Valid() && |p.key| < LIMIT32 && |p.value| < LIMIT32
      modifies this
      ensures Valid() && l.pairs == old(l.pairs) + [p]
      ensures l.marks == if old(counter) == interval then old(l.marks) + [|old(l.pairs)|] else old(l.marks)
      ensures |l.shared| > 0 && var shared := l.shared[|l.shared| - 1];
              && shared <= |p.key| && buffer == old(buffer) + Piece(p, shared)
              && if old(counter) == interval then shared == 0 else Longest(LastKey(old(l)), p.key, shared)
    {
      var shared, restart := 0, counter >= interval;
      if counter < interval {
        shared := SharedLength(lastKey, p.key);
      } else {
        restarts := restarts + [|buffer|];
        counter := 0;
      }
      var buffer' := AppendEntry(buffer, p, shared);
      GrownBuilt(buffer, old(restarts), l, p, shared, restart, buffer', restarts);
      GrownCompressed(l, p, shared, |buffer'|, restart);
      l := Grown(l, p, shared, |buffer'|, restart);
      buffer := buffer';
      lastKey := lastKey[..shared] + p.key[shared..];
      counter := counter + 1;
    }

    method Finish() returns (data: Bytes)
      requires Valid()
      ensures |data| < LIMIT32 ==> Stored(data, |buffer|, l)
      ensures Compressed(l)
    {
      data := AppendRestarts(buffer, restarts, l);
    }
  }

  /** The restart array and its length, after the entries. */
  method AppendRestarts(buffer: Bytes, restarts: seq<nat>, ghost l: Layout) returns (data: Bytes)
    requires Built(buffer, restarts, l)
    ensures |data| < LIMIT32 ==> Stored(data, |buffer|, l)
  {
    data := PutNumbers(buffer, Truncated(restarts + [|restarts|]));
    if |data| < LIMIT32 {
      forall j | 0 <= j < |restarts| ensures restarts[j] < LIMIT32 { RestartBelow(buffer, restarts, l, j); }
      assert Truncated(restarts + [|restarts|]) == restarts + [|restarts|];
      assert forall j :: 0 <= j < |restarts| ==> (restarts + [|restarts|])[j] == restarts[j];
      assert NumberAt(data, |buffer|, |restarts|, |restarts|) by {
        assert (restarts + [|restarts|])[|restarts|] == |restarts|;
      }
      FinishedBlock(data, buffer, restarts, l);
    }
  }

  lemma RestartBelow(buffer: Bytes, restarts: seq<nat>, l: Layout, i: nat)
    requires Built(buffer, restarts, l) && i < |restarts|
    ensures restarts[i] <= |buffer|
  {}

  lemma FinishedEntries(data: Bytes, buffer: Bytes, restarts: seq<nat>, l: Layout, i: nat)
    requires Built(buffer, restarts, l) && IsPrefix(buffer, data) && i < |l.pairs|
    ensures EntryAt(data, l.pairs[i], l.shared[i], l.offsets[i], l.offsets[i + 1])
  {
    assert buffer + data[|buffer|..] == data;
    var e := FieldsOf(l.pairs[i], l.shared[i], l.offsets[i]);
    EntryKept(buffer, data[|buffer|..], l.pairs[i], l.shared[i], l.offsets[i], l.offsets[i + 1]);
  }

  lemma FinishedBlock(data: Bytes, buffer: Bytes, restarts: seq<nat>, l: Layout)
    requires Built(buffer, restarts, l) && IsPrefix(buffer, data)
    requires |data| == |buffer| + 4 * |restarts| + 4 && Read32(data, |data| - 4) == |restarts|
    requires forall j :: 0 <= j < |restarts| ==> NumberAt(data, |buffer|, j, restarts[j])
    ensures Stored(data, |buffer|, l)
  {
    forall i | 0 <= i < |l.pairs| ensures EntryAt(data, l.pairs[i], l.shared[i], l.offsets[i], l.offsets[i + 1]) {
      FinishedEntries(data, buffer, restarts, l, i);
    }
  }

  /** Block's constructor and NewIterator: where the restart array is, and its length; None for a bad block. */
  method Open(data: Bytes, ghost restarts: nat, ghost l: Layout) returns (r: Option<(nat, nat)>)
    ensures r.Some? ==> r.value.0 + 4 * r.value.1 + 4 == |data|
    ensures Stored(data, restarts, l) ==> r == Some((restarts, |l.marks|))
  {
    if |data| < 4 { return None; }
    var num := Read32(data, |data| - 4);
    if num > (|data| - 4) / 4 { return None; }
    return Some((|data| - (1 + num) * 4, num));
  }

  /** Iterating a finished block gives back its pairs. */
  method ReadAll(data: Bytes, rank: Bytes -> real, ghost restarts: nat, ghost l: Layout) returns (out: seq<Pair>)
    ensures Stored(data, restarts, l) ==> out == l.pairs
  {
    out := [];
    var place := Open(data, restarts, l);
    if place.None? || place.value.1 == 0 { return; }
    var it := new Iter(data, place.value.0, place.value.1, rank);
    it.SeekToFirst(l);
    ghost var sound := Stored(data, restarts, l);
    while it.current < it.restarts
      invariant it.Valid() && it.data == data
      invariant sound ==> it.Holds(l) && |out| <= |l.pairs| && out == l.pairs[..|out|]
      invariant sound ==> if |out| == |l.pairs| then it.current == it.restarts else it.AtPair(l, |out|)
      decreases it.restarts - it.current
    {
      ghost var i := |out|;
      out := out + [Pair(it.key, data[it.valueStart..it.valueEnd])];
      it.Next(l, i);
    }
  }

  /** The bytes that Add appends. */
  method AppendEntry(buffer: Bytes, p: Pair, shared: nat) returns (buffer': Bytes)
    requires shared <= |p.key| < LIMIT32 && |p.value| < LIMIT32
    ensures buffer' == buffer + Piece(p, shared)
  {
    var a := EncodeVarint32(shared);
    var b := EncodeVarint32(|p.key| - shared);
    var c := EncodeVarint32(|p.value|);
    buffer' := buffer + a;
    buffer' := buffer' + b;
    buffer' := buffer' + c;
    buffer' := buffer' + p.key[shared..];
    buffer' := buffer' + p.value;
  }
}
