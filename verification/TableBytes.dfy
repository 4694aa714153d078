/** Point reads in the bytes of a table (Table::InternalGet and Table::BlockReader in table/table.cc, BlockHandle in
    table/format.cc). */
module TableBytes {
  import opened Keys
  import opened Coding
  import opened Comparator
  import opened Table
  import Block
  import FilterBlock

  function PairOf(row: Row): Block.Pair { Block.Pair(Encoded(row.key), row.value) }

  /** The bytes are a block of these rows. */
  ghost predicate Spells(data: Bytes, restarts: nat, l: Block.Layout, rows: seq<Row>) {
    && Block.Stored(data, restarts, l) && |l.pairs| == |rows|
    && forall i :: 0 <= i < |rows| ==> rows[i].key.tag < LIMIT64 && l.pairs[i] == PairOf(rows[i])
  }

  // ----- writing

  ghost predicate Storable(row: Row) {
    row.key.tag < LIMIT64 && |row.key.user| + 8 < LIMIT32 && |row.value| < LIMIT32
  }

  /** A block of rows, added one after the other. */
  method EncodeBlock(rows: seq<Row>, interval: nat) returns (data: Bytes, ghost restarts: nat, ghost l: Block.Layout)
    requires interval >= 1 && forall i :: 0 <= i < |rows| ==> Storable(rows[i])
    ensures |data| < LIMIT32 ==> Spells(data, restarts, l, rows)
  {
    var builder := new Block.BlockBuilder(interval);
    AddRows(builder, rows);
    data := builder.Finish();
    restarts, l := |builder.buffer|, builder.l;
  }

  method AddRows(builder: Block.BlockBuilder, rows: seq<Row>)
    requires builder.Valid() && builder.l.pairs == [] && forall i :: 0 <= i < |rows| ==> Storable(rows[i])
    modifies builder
    ensures builder.Valid() && builder.l.pairs == PairsOf(rows)
  {
    for i := 0 to |rows|
      invariant builder.Valid() && builder.l.pairs == PairsOf(rows[..i])
    {
      PairsGrow(rows, i);
      assert Storable(rows[i]);
      builder.Add(PairOf(rows[i]));
    }
    assert rows[..|rows|] == rows;
  }

  function PairsOf(rows: seq<Row>): seq<Block.Pair> { seq(|rows|, i requires 0 <= i < |rows| => PairOf(rows[i])) }

  lemma PairsGrow(rows: seq<Row>, i: nat)
    requires i < |rows|
    ensures PairsOf(rows[..i + 1]) == PairsOf(rows[..i]) + [PairOf(rows[i])]
    ensures |PairOf(rows[i]).key| == |rows[i].key.user| + 8
  {}

  /** BlockHandle::EncodeTo */
  function Handle(offset: nat, size: nat): Bytes { Varint(offset) + Varint(size) }

  /** BlockHandle::DecodeFrom: the offset; None for a bad handle. */
  method DecodeHandle(value: Bytes, ghost offset: nat, ghost size: nat) returns (r: Option<nat>)
    ensures offset < LIMIT64 && size < LIMIT64 && value == Handle(offset, size) ==> r == Some(offset)
  {
    if offset < LIMIT64 && size < LIMIT64 && value == Handle(offset, size) { HandleDecodes(value, offset, size); }
    var a := GetVarint64(value, 0);
    if a.None? { return None; }
    var b := GetVarint64(value, a.value.1);
    return if b.None? then None else Some(a.value.0);
  }

  lemma HandleDecodes(value: Bytes, offset: nat, size: nat)
    requires offset < LIMIT64 && size < LIMIT64 && value == Handle(offset, size)
    ensures Decoded64(value, 0) == Some((offset, |Varint(offset)|)) && |Varint(offset)| <= |value|
    ensures Decoded64(value, |Varint(offset)|) == Some((size, |value|))
  {
    assert IsAt(value, 0, Varint(offset)) && IsAt(value, |Varint(offset)|, Varint(size));
    Varint64RoundTrip(value, 0, offset);
    Varint64RoundTrip(value, |Varint(offset)|, size);
  }

  // ----- searching a block

  lemma SpelledIncrease(data: Bytes, restarts: nat, l: Block.Layout, rows: seq<Row>)
    requires Spells(data, restarts, l, rows) && RowsSorted(rows)
    ensures Block.KeysIncrease(Rank, l)
  {
    forall i, j | 0 <= i < j < |l.pairs| ensures Rank(l.pairs[i].key) < Rank(l.pairs[j].key) {
      RankOrdersKeys(rows[i].key, rows[j].key);
    }
  }

  /** What the search by ranks means for the rows. */
  lemma SeekMeans(data: Bytes, restarts: nat, l: Block.Layout, rows: seq<Row>, k: InternalKey, i: nat)
    requires Spells(data, restarts, l, rows) && k.tag < LIMIT64
    requires Block.FirstAtOrAfter(Rank, l, Rank(Encoded(k)), i)
    ensures First(rows, k, i)
  {
    forall j | 0 <= j < i ensures Precedes(rows[j].key, k) { RankOrdersKeys(rows[j].key, k); }
    if i < |rows| { RankOrdersKeys(rows[i].key, k); }
  }

  /** Seek on a block's iterator: the first row at or after `k`. */
  method SeekBlock(data: Bytes, k: InternalKey, ghost restarts: nat, ghost l: Block.Layout, ghost rows: seq<Row>)
    returns (r: Option<Block.Pair>, ghost i: nat)
    ensures Spells(data, restarts, l, rows) && RowsSorted(rows) && k.tag < LIMIT64 ==>
              First(rows, k, i) && r == if i < |rows| then Some(PairOf(rows[i])) else None
  {
    ghost var sound := Spells(data, restarts, l, rows) && RowsSorted(rows) && k.tag < LIMIT64;
    if sound { SpelledIncrease(data, restarts, l, rows); }
    var place := Block.Open(data, restarts, l);
    if place.None? || place.value.1 == 0 { return None, 0; }
    var it := new Block.Iter(data, place.value.0, place.value.1, Rank);
    i := it.Seek(Encoded(k), l);
    if sound { SeekMeans(data, restarts, l, rows, k, i); }
    r := if it.current < it.restarts then Some(Block.Pair(it.key, data[it.valueStart..it.valueEnd])) else None;
  }

  // ----- searching a table

  /** A table's block, and how its bytes are laid out. */
  datatype Bytewise = Bytewise(restarts: nat, l: Block.Layout)

  /** The index block's rows: each entry's value is the handle of its block. */
  ghost function IndexRows(index: seq<IndexEntry>, sizes: seq<nat>): seq<Row>
    requires |sizes| == |index|
  {
    seq(|index|, j requires 0 <= j < |index| => Row(index[j].key, Handle(index[j].offset, sizes[j])))
  }

  /** These bytes are the table. */
  ghost predicate Written(
    t: Table, index: Bytes, blocks: map<nat, Bytes>, sizes: seq<nat>, at: Bytewise, ats: map<nat, Bytewise>)
  {
    && |sizes| == |t.index| && Spells(index, at.restarts, at.l, IndexRows(t.index, sizes))
    && (forall j {:trigger t.index[j]} :: 0 <= j < |t.index| ==> t.index[j].offset < LIMIT64 && sizes[j] < LIMIT64)
    && (forall o :: o in t.file ==> o in blocks && o in ats && Spells(blocks[o], ats[o].restarts, ats[o].l, t.file[o]))
  }

  /** The index keys increase: each stands before the next block, and the next index key not before that block's end. */
  lemma IndexSorted(t: Table, rows: seq<Row>, cuts: seq<nat>, i: nat, j: nat)
    requires RowsSorted(rows) && Indexed(t.index, t.file, rows, cuts) && |cuts| == |t.index| + 1
    requires cuts[|t.index|] == |rows| && i < j < |t.index|
    requires Succeeds(rows[|rows| - 1].key, t.index[|t.index| - 1].key)
    ensures Precedes(t.index[i].key, t.index[j].key)
  {
    var e, f := t.index[i], t.index[j];
    var next, last := rows[cuts[i + 1]].key, rows[cuts[j + 1] - 1].key;
    SeparatorSeparates(rows[cuts[i + 1] - 1].key, e.key, next, next);
    assert next == last || Precedes(next, last);
    assert f.key == last || Precedes(last, f.key);
    KeyOrder(e.key, next, last);
    KeyOrder(e.key, last, f.key);
  }

  /** The right answer: the pair of the first row at or after `k`, if that has its user key; else none with that user key. */
  ghost predicate RightPair(rows: seq<Row>, k: InternalKey, first: nat, r: Option<Block.Pair>) {
    if Hit(rows, k, first) then r == Some(PairOf(rows[first]))
    else r.None? || exists row: Row :: r.value == PairOf(row) && row.key.user != k.user
  }

  /** InternalGet: at most one index entry, one filter and one data block are looked at. The result is what the
      saver is called with. `hash` hashes user keys. */
  method InternalGet(
    index: Bytes, blocks: map<nat, Bytes>, filter: Option<Bytes>, k: InternalKey, hash: Bytes -> nat,
    ghost t: Table, ghost sizes: seq<nat>, ghost at: Bytewise, ghost ats: map<nat, Bytewise>,
    ghost rows: seq<Row>, ghost cuts: seq<nat>, ghost filters: seq<Bytes>, ghost starts: seq<nat>, ghost first: nat)
    returns (r: Option<Block.Pair>)
    ensures (&& Written(t, index, blocks, sizes, at, ats) && t.filter == filter && k.tag < LIMIT64
             && Holds(t, rows, cuts, filters, starts, hash) && First(rows, k, first)) ==>
              RightPair(rows, k, first, r)
  {
    ghost var sound := && Written(t, index, blocks, sizes, at, ats) && t.filter == filter && k.tag < LIMIT64
                       && Holds(t, rows, cuts, filters, starts, hash) && First(rows, k, first);
    ghost var entries := if sound then IndexRows(t.index, sizes) else [];
    if sound { EntriesSorted(t, rows, cuts, sizes); }
    var entry;
    ghost var j;
    entry, j := SeekBlock(index, k, at.restarts, at.l, entries);
    if sound { EntryFinds(t, rows, cuts, sizes, k, first, j); }
    if entry.None? { return None; }
    ghost var offset, size := 0, 0;
    if sound { offset, size := t.index[j].offset, sizes[j]; }
    var handle := DecodeHandle(entry.value.value, offset, size);
    if sound { NotFiltered(t, rows, cuts, filters, starts, hash, k, first, j); }
    if handle.None? || handle.value !in blocks { return None; }
    var may := MayMatch(filter, handle.value, k, hash, filters, starts);
    if !may { return None; }
    ghost var place, block := Bytewise(0, Block.Layout([], [], [], [])), [];
    if sound { place, block := ats[offset], t.file[offset]; BlockSorted(t, rows, cuts, j); }
    ghost var i;
    r, i := SeekBlock(blocks[handle.value], k, place.restarts, place.l, block);
    if sound { BlockFinds(t, rows, cuts, k, first, j, i); }
  }

  method MayMatch(
    filter: Option<Bytes>, offset: nat, k: InternalKey, hash: Bytes -> nat,
    ghost filters: seq<Bytes>, ghost starts: seq<nat>)
    returns (may: bool)
    ensures filter.None? ==> may
    ensures filter.Some? && FilterBlock.Finished(filter.value, filters, starts) ==>
              InFilter(filters, offset, k.user, hash) ==> may
  {
    if filter.None? { return true; }
    may := FilterBlock.KeyMayMatch(filter.value, offset, hash(k.user) % LIMIT32, filters, starts);
  }

  lemma EntriesSorted(t: Table, rows: seq<Row>, cuts: seq<nat>, sizes: seq<nat>)
    requires RowsSorted(rows) && Indexed(t.index, t.file, rows, cuts) && |cuts| == |t.index| + 1
    requires cuts[|t.index|] == |rows| && |sizes| == |t.index|
    requires t.index != [] ==> Succeeds(rows[|rows| - 1].key, t.index[|t.index| - 1].key)
    ensures RowsSorted(IndexRows(t.index, sizes))
  {
    forall i, j | 0 <= i < j < |t.index| ensures Precedes(t.index[i].key, t.index[j].key) {
      IndexSorted(t, rows, cuts, i, j);
    }
  }

  /** Where the search in the index ends. */
  lemma EntryFinds(t: Table, rows: seq<Row>, cuts: seq<nat>, sizes: seq<nat>, k: InternalKey, first: nat, j: nat)
    requires RowsSorted(rows) && Indexed(t.index, t.file, rows, cuts) && |cuts| == |t.index| + 1
    requires cuts[|t.index|] == |rows| && First(rows, k, first) && |sizes| == |t.index|
    requires t.index != [] ==> Succeeds(rows[|rows| - 1].key, t.index[|t.index| - 1].key)
    requires First(IndexRows(t.index, sizes), k, j)
    ensures Hit(rows, k, first) ==> j < |t.index| && cuts[j] <= first < cuts[j + 1]
  {
    var entries := IndexRows(t.index, sizes);
    forall m | 0 <= m < j ensures Precedes(t.index[m].key, k) { assert entries[m].key == t.index[m].key; }
    IndexFinds(t, rows, cuts, k, first, j);
  }

  lemma BlockSorted(t: Table, rows: seq<Row>, cuts: seq<nat>, j: nat)
    requires RowsSorted(rows) && Indexed(t.index, t.file, rows, cuts) && j < |t.index|
    ensures t.index[j].offset in t.file && RowsSorted(t.file[t.index[j].offset])
  {
    var block := t.file[t.index[j].offset];
    forall m | 0 <= m < |block| ensures block[m] == rows[cuts[j] + m] {}
  }
}
