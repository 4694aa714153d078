/** The two-level iterator (table/two_level_iterator.cc): an index iterator over blocks and a data iterator in one of
    them, together a cursor over the rows of all blocks. Blocks may be empty. */
module TwoLevel {
  import opened Keys

  /** Block `j` has the rows from cuts[j] to cuts[j + 1]. */
  ghost predicate Blocks(n: nat, cuts: seq<nat>) {
    && |cuts| > 0 && cuts[0] == 0 && cuts[|cuts| - 1] == n
    && forall i, j :: 0 <= i <= j < |cuts| ==> cuts[i] <= cuts[j]
  }

  /** The key of index entry `j` is at or after every row of block `j` and before every row of the next blocks. */
  ghost predicate Index(data: seq<Entry>, cuts: seq<nat>, seps: seq<IKey>) {
    && |cuts| == |seps| + 1 && Blocks(|data|, cuts)
    && (forall j, i :: 0 <= j < |seps| && 0 <= i < |data| ==> (i < cuts[j + 1] <==> !KeyLess(seps[j], KeyOf(data[i]))))
  }

  class TwoLevelIterator {
    const data: seq<Entry>
    const cuts: seq<nat>
    const seps: seq<IKey>
    /** The index iterator's position; |seps| when it is not valid. */
    var index: nat
    /** The data iterator, if there is one: its block and its position, which is the block's end when not valid. */
    var hasData: bool
    var handle: nat
    var pos: nat

    ghost predicate Good()
      reads this
    {
      && Sorted(data) && Index(data, cuts, seps) && index <= |seps|
      && (hasData ==> handle < |seps| && cuts[handle] <= pos <= cuts[handle + 1])
    }

    predicate DataValid()
      requires hasData ==> handle + 1 < |cuts|
      reads this
    {
      hasData && pos < cuts[handle + 1]
    }

    /** What every operation leaves: at a row of the index iterator's block, or not valid. */
    ghost predicate Valid()
      reads this
    {
      Good() && (DataValid() ==> index == handle)
    }

    /** The row that the iterator is at; |data| when it is not valid. */
    ghost function Position(): nat
      requires Good()
      reads this
    {
      if DataValid() then pos else |data|
    }

    constructor (data: seq<Entry>, cuts: seq<nat>, seps: seq<IKey>)
      requires Sorted(data) && Index(data, cuts, seps)
      ensures Valid() && Position() == |data|
      ensures this.data == data && this.cuts == cuts && this.seps == seps
    {
      this.data, this.cuts, this.seps := data, cuts, seps;
      index, hasData, handle, pos := |seps|, false, 0, 0;
    }

    /** InitDataBlock: the data iterator is kept if it is for the same block. */
    method InitDataBlock()
      requires Good()
      modifies this`hasData, this`handle, this`pos
      ensures Good() && hasData == (index < |seps|) && (hasData ==> handle == index)
    {
      if index >= |seps| {
        hasData := false;
      } else if !(hasData && handle == index) {
        hasData, handle, pos := true, index, cuts[index + 1];
      }
    }

    /** SkipEmptyDataBlocksForward: on to row `q`, which is the position, or the first row after the index
        iterator's block. */
    method SkipForward(ghost q: nat)
      requires Good() && Ahead(q)
      modifies this`index, this`hasData, this`handle, this`pos
      ensures Valid() && Position() == q
    {
      while !hasData || !DataValid()
        invariant Good() && Ahead(q)
        decreases |seps| - index
      {
        if index >= |seps| {
          hasData := false;
          return;
        }
        index := index + 1;
        InitDataBlock();
        if hasData { pos := cuts[handle]; }
      }
    }

    /** Row `q` is where the data iterator is, or the next one after the index iterator's block. */
    ghost predicate Ahead(q: nat)
      requires Good()
      reads this
    {
      if DataValid() then index == handle && pos == q
      else if index < |seps| then q == cuts[index + 1] else q == |data|
    }

    /** SkipEmptyDataBlocksBackward: back to the row before `limit`, if there is one. */
    method SkipBackward(ghost limit: nat)
      requires Good() && Behind(limit)
      modifies this`index, this`hasData, this`handle, this`pos
      ensures Valid() && Position() == if limit == 0 then |data| else limit - 1
    {
      while !hasData || !DataValid()
        invariant Good() && Behind(limit)
        decreases if index < |seps| then index + 1 else 0
      {
        if index >= |seps| {
          hasData := false;
          return;
        }
        index := if index == 0 then |seps| else index - 1;
        InitDataBlock();
        if hasData { pos := if cuts[handle] < cuts[handle + 1] then cuts[handle + 1] - 1 else cuts[handle + 1]; }
      }
    }

    /** The data iterator is at the row before `limit`, or `limit` is where the index iterator's block begins. */
    ghost predicate Behind(limit: nat)
      requires Good()
      reads this
    {
      && limit <= |data|
      && if DataValid() then index == handle && pos + 1 == limit
         else if index < |seps| then limit == cuts[index] else limit == 0
    }

    method SeekToFirst()
      requires Valid()
      modifies this`index, this`hasData, this`handle, this`pos
      ensures Valid() && Position() == 0
    {
      index := 0;
      InitDataBlock();
      if hasData { pos := cuts[handle]; }
      SkipForward(0);
    }

    method SeekToLast()
      requires Valid()
      modifies this`index, this`hasData, this`handle, this`pos
      ensures Valid() && Position() == if data == [] then 0 else |data| - 1
    {
      index := if |seps| == 0 then 0 else |seps| - 1;
      InitDataBlock();
      if hasData { pos := if cuts[handle] < cuts[handle + 1] then cuts[handle + 1] - 1 else cuts[handle + 1]; }
      SkipBackward(|data|);
    }

    method Next()
      requires Valid() && DataValid()
      modifies this`index, this`hasData, this`handle, this`pos
      ensures Valid() && Position() == old(Position()) + 1
    {
      ghost var q := pos + 1;
      pos := pos + 1;
      SkipForward(q);
    }

    method Prev()
      requires Valid() && DataValid()
      modifies this`index, this`hasData, this`handle, this`pos
      ensures Valid() && Position() == if old(Position()) == 0 then |data| else old(Position()) - 1
    {
      ghost var limit := pos;
      pos := if pos == cuts[handle] then cuts[handle + 1] else pos - 1;
      SkipBackward(limit);
    }

    /** The index iterator's Seek. */
    method SeekIndex(key: IKey)
      requires Good()
      modifies this`index
      ensures Good() && (forall j :: 0 <= j < index ==> KeyLess(seps[j], key))
      ensures index < |seps| ==> !KeyLess(seps[index], key)
    {
      index := 0;
      while index < |seps| && KeyLess(seps[index], key)
        invariant Good() && forall j :: 0 <= j < index ==> KeyLess(seps[j], key)
        decreases |seps| - index
      {
        index := index + 1;
      }
    }

    /** The data iterator's Seek. */
    method SeekData(key: IKey)
      requires Good() && hasData
      modifies this`pos
      ensures Good() && (forall i :: cuts[handle] <= i < pos ==> KeyLess(KeyOf(data[i]), key))
      ensures pos < cuts[handle + 1] ==> !KeyLess(KeyOf(data[pos]), key)
    {
      pos := cuts[handle];
      while pos < cuts[handle + 1] && KeyLess(KeyOf(data[pos]), key)
        invariant Good() && forall i :: cuts[handle] <= i < pos ==> KeyLess(KeyOf(data[i]), key)
        decreases cuts[handle + 1] - pos
      {
        pos := pos + 1;
      }
    }

    /** Seek: the first row at or after the key. */
    method Seek(key: IKey)
      requires Valid()
      modifies this`index, this`hasData, this`handle, this`pos
      ensures Valid() && Position() <= |data|
      ensures forall i :: 0 <= i < Position() ==> KeyLess(KeyOf(data[i]), key)
      ensures Position() < |data| ==> !KeyLess(KeyOf(data[Position()]), key)
    {
      SeekIndex(key);
      InitDataBlock();
      ghost var q := |data|;
      if hasData {
        SeekData(key);
        q := pos;
      }
      SeekSplits(data, cuts, seps, key, index, q);
      SkipForward(q);
    }
  }

  /** Where a search that goes by the index ends. */
  lemma SeekSplits(data: seq<Entry>, cuts: seq<nat>, seps: seq<IKey>, key: IKey, index: nat, q: nat)
    requires Sorted(data) && Index(data, cuts, seps) && index <= |seps|
    requires forall j :: 0 <= j < index ==> KeyLess(seps[j], key)
    requires index < |seps| ==> !KeyLess(seps[index], key) && cuts[index] <= q <= cuts[index + 1]
    requires index == |seps| ==> q == |data|
    requires index < |seps| ==> forall i :: cuts[index] <= i < q ==> KeyLess(KeyOf(data[i]), key)
    requires index < |seps| && q < cuts[index + 1] ==> !KeyLess(KeyOf(data[q]), key)
    ensures forall i :: 0 <= i < q ==> KeyLess(KeyOf(data[i]), key)
    ensures q < |data| ==> !KeyLess(KeyOf(data[q]), key)
  {
    forall i | 0 <= i < q ensures KeyLess(KeyOf(data[i]), key) {
      if index > 0 && i < cuts[index] { assert !KeyLess(seps[index - 1], KeyOf(data[i])); }
    }
  }
}
