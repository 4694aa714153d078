/** The filter block: one Bloom filter for every 2 KB of file (table/filter_block.cc). The keys are user keys, as
    InternalFilterPolicy passes them on. */
module FilterBlock {
  import opened Keys
  import opened Coding
  import opened Bloom

  const BASE_LG: nat := 11
  const BASE: nat := 2048

  // ----- format

  /** The filters, one after the other; `starts` has one number more, where the last one ends. */
  ghost predicate Laid(data: Bytes, filters: seq<Bytes>, starts: seq<nat>) {
    && |starts| == |filters| + 1 && starts[0] == 0 && starts[|filters|] <= |data|
    && (forall i :: 0 <= i < |filters| ==> starts[i + 1] == starts[i] + |filters[i]|)
    && (forall i :: 0 <= i < |filters| ==> IsAt(data, starts[i], filters[i]))
  }

  /** A finished filter block: the filters, the array of their starts, and the size parameter. */
  ghost predicate Finished(contents: Bytes, filters: seq<Bytes>, starts: seq<nat>) {
    && Laid(contents, filters, starts)
    && |contents| == starts[|filters|] + 4 * |starts| + 1 && contents[|contents| - 1] == BASE_LG
    && forall i :: 0 <= i < |starts| ==> NumberAt(contents, starts[|filters|], i, starts[i])
  }

  lemma LaidGrows(data: Bytes, filters: seq<Bytes>, starts: seq<nat>, f: Bytes)
    requires Laid(data, filters, starts) && |data| == starts[|filters|]
    ensures Laid(data + f, filters + [f], starts + [|data + f|])
  {
    forall i | 0 <= i < |filters| ensures IsAt(data + f, starts[i], filters[i]) {
      IsAtKept(data, f, starts[i], filters[i]);
    }
  }

  lemma {:induction false} StartsBelow(data: Bytes, filters: seq<Bytes>, starts: seq<nat>, i: nat)
    requires Laid(data, filters, starts) && i <= |filters|
    ensures starts[i] <= starts[|filters|]
    decreases |filters| - i
  {
    if i < |filters| { StartsBelow(data, filters, starts, i + 1); }
  }

  // ----- reader

  /** x >> n */
  function Shifted(x: nat, n: nat): nat { if n == 0 then x else Shifted(x / 2, n - 1) }

  lemma HalfThenDivide(x: nat, m: nat)
    requires m > 0
    ensures x / 2 / m == x / (2 * m)
  {
    var q, r := x / (2 * m), x % (2 * m);
    assert x == 2 * m * q + r;
    assert x / 2 == m * q + r / 2;
    assert 0 <= r / 2 < m;
    Quotient(x / 2, m, q, r / 2);
  }

  lemma Quotient(x: nat, m: nat, q: nat, r: nat)
    requires m > 0 && x == m * q + r && r < m
    ensures x / m == q
  {
    var q' := x / m;
    assert x == m * q' + x % m;
    assert q' < q ==> m * (q' + 1) <= m * q;
    assert q < q' ==> m * (q + 1) <= m * q';
  }

  lemma {:induction false} ShiftedDivides(x: nat, n: nat)
    ensures Shifted(x, n) == x / Pow2(n)
  {
    if n > 0 {
      ShiftedDivides(x / 2, n - 1);
      HalfThenDivide(x, Pow2(n - 1));
    }
  }

  lemma ShiftedByBase(x: nat)
    ensures Shifted(x, BASE_LG) == x / BASE
  {
    ShiftedDivides(x, BASE_LG);
    assert Pow2(11) == 2048 by { assert Pow2(5) == 32; assert Pow2(8) == 256; }
  }

  /** What the reader finds out about filter `i`, where the filters end at `end`. */
  lemma FilterAt(contents: Bytes, filters: seq<Bytes>, starts: seq<nat>, i: nat, end: nat)
    requires Finished(contents, filters, starts) && i < |filters| && end == starts[|filters|]
    ensures |contents| >= 5 && Read32(contents, |contents| - 5) == end <= |contents| - 5
    ensures i < (|contents| - 5 - end) / 4
    ensures Read32(contents, end + 4 * i) == starts[i] && Read32(contents, end + 4 * i + 4) == starts[i + 1]
    ensures starts[i] <= starts[i + 1] <= end && contents[starts[i]..starts[i + 1]] == filters[i]
  {
    assert NumberAt(contents, end, |filters|, starts[|filters|]);
    assert NumberAt(contents, end, i, starts[i]);
    assert NumberAt(contents, end, i + 1, starts[i + 1]);
    StartsBelow(contents, filters, starts, i + 1);
    assert IsAt(contents, starts[i], filters[i]);
  }

  lemma FilterCount(contents: Bytes, filters: seq<Bytes>, starts: seq<nat>)
    requires Finished(contents, filters, starts)
    ensures |contents| >= 5 && var end := Read32(contents, |contents| - 5);
            end <= |contents| - 5 && (|contents| - 5 - end) / 4 == |filters|
  {
    assert NumberAt(contents, starts[|filters|], |filters|, starts[|filters|]);
  }

  /** The filter for a block offset, as the reader finds it; None when something is wrong. */
  method FindFilter(contents: Bytes, blockOffset: nat, ghost filters: seq<Bytes>, ghost starts: seq<nat>)
    returns (filter: Option<Bytes>)
    ensures Finished(contents, filters, starts) && blockOffset / BASE < |filters| ==>
              filter == Some(filters[blockOffset / BASE])
    ensures |contents| < 5 || (Finished(contents, filters, starts) && blockOffset / BASE >= |filters|) ==> filter.None?
  {
    ghost var i := blockOffset / BASE;
    if Finished(contents, filters, starts) && i < |filters| {
      FilterAt(contents, filters, starts, i, starts[|filters|]);
    }
    if Finished(contents, filters, starts) { FilterCount(contents, filters, starts); }
    ShiftedByBase(blockOffset);
    var n := |contents|;
    if n < 5 { return None; }
    var lastWord := Read32(contents, n - 5);
    if lastWord > n - 5 { return None; }
    var num, index := (n - 5 - lastWord) / 4, Shifted(blockOffset, contents[n - 1]);
    if index >= num { return None; }
    var start, limit := Read32(contents, lastWord + 4 * index), Read32(contents, lastWord + 4 * index + 4);
    if start <= limit && limit <= lastWord { return Some(contents[start..limit]); }
    return if start == limit then Some([]) else None;
  }

  /** FilterBlockReader::KeyMayMatch on a block offset and the hash of a key: errors count as matches. */
  method KeyMayMatch(contents: Bytes, blockOffset: nat, h: nat, ghost filters: seq<Bytes>, ghost starts: seq<nat>)
    returns (r: bool)
    requires h < LIMIT32
    ensures Finished(contents, filters, starts) && blockOffset / BASE < |filters| ==>
              r == Matches(filters[blockOffset / BASE], h)
    ensures Finished(contents, filters, starts) && blockOffset / BASE >= |filters| ==> r
    ensures |contents| < 5 ==> r
  {
    var filter := FindFilter(contents, blockOffset, filters, starts);
    if filter.None? { return true; }
    r := Bloom.KeyMayMatch(h, filter.value);
  }

  // ----- builder

  class FilterBlockBuilder {
    const hash: Bytes -> nat
    const bitsPerKey: nat
    const probes: nat
    var pending: seq<Bytes>
    var result: Bytes
    var offsets: seq<nat>
    ghost var filters: seq<Bytes>
    /** Which keys were added for which filter. */
    ghost var added: set<(nat, Bytes)>
    /** The keys of each filter. */
    ghost var groups: seq<seq<Bytes>>

    ghost predicate Valid()
      reads this
    {
      && 1 <= probes <= 30 && |offsets| == |filters| && Laid(result, filters, offsets + [|result|])
      && (forall a :: a in added ==> Kept(a, filters, pending, hash)) && Grouped(added, groups, pending)
      && |groups| == |filters|
      && forall i :: 0 <= i < |groups| ==> FilterOf(filters[i], groups[i], hash, bitsPerKey, probes)
    }

    constructor (hash: Bytes -> nat, bitsPerKey: nat, probes: nat)
      requires 1 <= probes <= 30
      ensures Valid() && added == {} && offsets == [] && this.hash == hash
      ensures this.bitsPerKey == bitsPerKey && this.probes == probes
    {
      this.hash, this.bitsPerKey, this.probes := hash, bitsPerKey, probes;
      pending, result, offsets, filters, added, groups := [], [], [], [], {}, [];
    }

    /** GenerateFilter: the filter of the pending keys, empty when there are none. */
    method GenerateFilter()
      requires Valid()
      modifies this`pending, this`result, this`offsets, this`filters, this`groups
      ensures Valid() && |offsets| == |old(offsets)| + 1 && pending == [] && groups == old(groups) + [old(pending)]
    {
      var filter := PendingFilter();
      LaidGrows(result, filters, offsets + [|result|], filter);
      KeptMade(added, filters, pending, filter, hash);
      GroupMade(added, groups, pending);
      offsets := offsets + [|result|];
      result, filters, groups, pending := result + filter, filters + [filter], groups + [pending], [];
    }

    method PendingFilter() returns (filter: Bytes)
      requires Valid()
      ensures FilterOf(filter, pending, hash, bitsPerKey, probes)
      ensures forall i :: 0 <= i < |pending| ==> Matches(filter, hash(pending[i]) % LIMIT32)
    {
      if pending == [] { return []; }
      var hashes := Hashes(hash, pending);
      filter := CreateFilter(hashes, bitsPerKey, probes);
      forall i | 0 <= i < |pending| ensures Matches(filter, hash(pending[i]) % LIMIT32) {
        assert hashes[i] == hash(pending[i]) % LIMIT32;
      }
    }

    /** StartBlock: from here on keys go into the filter of this offset. */
    method StartBlock(blockOffset: nat)
      requires Valid() && blockOffset / BASE >= |offsets|
      modifies this`pending, this`result, this`offsets, this`filters, this`groups
      ensures Valid() && |offsets| == blockOffset / BASE
      ensures Regrouped(old(groups), old(pending), groups, pending)
    {
      var index := blockOffset / BASE;
      while index > |offsets|
        invariant Valid() && |offsets| <= index && Regrouped(old(groups), old(pending), groups, pending)
      {
        GenerateFilter();
      }
    }

    method AddKey(key: Bytes)
      requires Valid()
      modifies this`pending, this`added
      ensures Valid() && added == old(added) + {(|offsets|, key)} && pending == old(pending) + [key]
    {
      pending, added := pending + [key], added + {(|offsets|, key)};
    }

    /** Finish: every key matches the filter that it was added for. */
    method Finish() returns (contents: Bytes, ghost starts: seq<nat>)
      requires Valid()
      modifies this`pending, this`result, this`offsets, this`filters, this`groups
      ensures added == old(added) && groups == old(groups) + (if old(pending) == [] then [] else [old(pending)])
      ensures |groups| == |filters|
      ensures forall i :: 0 <= i < |groups| ==> FilterOf(filters[i], groups[i], hash, bitsPerKey, probes)
      ensures forall i, key :: 0 <= i < |groups| ==> (key in groups[i] <==> (i, key) in added)
      ensures |contents| < LIMIT32 ==> Finished(contents, filters, starts)
      ensures forall a :: a in added ==> a.0 < |filters| && Matches(filters[a.0], hash(a.1) % LIMIT32)
    {
      if pending != [] { GenerateFilter(); }
      starts := offsets + [|result|];
      contents := PutNumbers(result, Truncated(offsets + [|result|]));
      Appended(contents, result, Truncated(offsets + [|result|]), [BASE_LG]);
      contents := contents + [BASE_LG];
      if |contents| < LIMIT32 { FinishedBlock(contents, result, filters, starts); }
    }
  }

  lemma Appended(data: Bytes, result: Bytes, numbers: seq<nat>, more: Bytes)
    requires IsPrefix(result, data) && forall i :: 0 <= i < |numbers| ==> NumberAt(data, |result|, i, numbers[i])
    ensures IsPrefix(result, data + more)
    ensures forall i :: 0 <= i < |numbers| ==> NumberAt(data + more, |result|, i, numbers[i])
  {
    assert (data + more)[..|result|] == data[..|result|];
    forall i | 0 <= i < |numbers| ensures NumberAt(data + more, |result|, i, numbers[i]) {
      NumberKept(data, more, |result|, i, numbers[i]);
    }
  }

  lemma FinishedBlock(contents: Bytes, result: Bytes, filters: seq<Bytes>, starts: seq<nat>)
    requires Laid(result, filters, starts) && starts[|filters|] == |result| && |contents| < LIMIT32
    requires |contents| == |result| + 4 * |starts| + 1 && contents[|contents| - 1] == BASE_LG
    requires IsPrefix(result, contents)
    requires forall i :: 0 <= i < |starts| ==> NumberAt(contents, |result|, i, Truncated(starts)[i])
    ensures Finished(contents, filters, starts)
  {
    forall i | 0 <= i < |starts| ensures starts[i] < LIMIT32 { StartsBelow(result, filters, starts, i); }
    assert Truncated(starts) == starts;
    assert result + contents[|result|..] == contents;
    forall i | 0 <= i < |filters| ensures IsAt(contents, starts[i], filters[i]) {
      IsAtKept(result, contents[|result|..], starts[i], filters[i]);
    }
  }

  function Hashes(hash: Bytes -> nat, keys: seq<Bytes>): (r: seq<nat>)
    ensures |r| == |keys| && forall i :: 0 <= i < |r| ==> r[i] < LIMIT32
  {
    seq(|keys|, i requires 0 <= i < |keys| => hash(keys[i]) % LIMIT32)
  }

  /** A key that was added for a filter is in that filter, or waits for it. */
  ghost predicate Kept(a: (nat, Bytes), filters: seq<Bytes>, pending: seq<Bytes>, hash: Bytes -> nat) {
    || (a.0 < |filters| && Matches(filters[a.0], hash(a.1) % LIMIT32))
    || (a.0 == |filters| && a.1 in pending)
  }

  /** The filter of these keys: none without keys, otherwise the bits of their probes and no others. */
  ghost predicate FilterOf(filter: Bytes, keys: seq<Bytes>, hash: Bytes -> nat, bitsPerKey: nat, k: nat) {
    if keys == [] then filter == [] else
      && |filter| == (if |keys| * bitsPerKey < 64 then 8 else (|keys| * bitsPerKey + 7) / 8) + 1
      && filter[|filter| - 1] == k && Exact(filter[..|filter| - 1], Hashes(hash, keys), k)
  }

  /** A key was added for a filter if and only if it is one of the filter's keys, or waits for it. */
  ghost predicate Grouped(added: set<(nat, Bytes)>, groups: seq<seq<Bytes>>, pending: seq<Bytes>) {
    && (forall i, key :: 0 <= i < |groups| ==> (key in groups[i] <==> (i, key) in added))
    && (forall key :: key in pending <==> (|groups|, key) in added)
    && (forall a :: a in added ==> a.0 <= |groups|)
  }

  lemma KeptMade(added: set<(nat, Bytes)>, filters: seq<Bytes>, keys: seq<Bytes>, filter: Bytes, hash: Bytes -> nat)
    requires forall a :: a in added ==> Kept(a, filters, keys, hash)
    requires forall i :: 0 <= i < |keys| ==> Matches(filter, hash(keys[i]) % LIMIT32)
    ensures forall a :: a in added ==> Kept(a, filters + [filter], [], hash)
  {
    forall a | a in added ensures Kept(a, filters + [filter], [], hash) {
      assert Kept(a, filters, keys, hash);
      if a.0 == |filters| { var i :| 0 <= i < |keys| && keys[i] == a.1; }
    }
  }

  lemma GroupMade(added: set<(nat, Bytes)>, groups: seq<seq<Bytes>>, pending: seq<Bytes>)
    requires Grouped(added, groups, pending)
    ensures Grouped(added, groups + [pending], [])
  {}

  /** The waiting keys are those of the next filter, and the filters after it have no keys. */
  ghost predicate Regrouped(groups: seq<seq<Bytes>>, pending: seq<Bytes>, groups': seq<seq<Bytes>>, pending': seq<Bytes>) {
    if |groups'| == |groups| then groups' == groups && pending' == pending else
      && |groups'| > |groups| && groups'[..|groups|] == groups && groups'[|groups|] == pending && pending' == []
      && forall i :: |groups| < i < |groups'| ==> groups'[i] == []
  }
}
