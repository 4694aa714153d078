/** Tables: data blocks, an index block with shortened keys, and a filter block
    (table/table_builder.cc). A block is the sequence of its rows here; the module TableBytes joins it to its bytes. */
module Table {
  import opened Keys
  import opened Coding
  import opened Comparator
  import opened Bloom
  import FilterBlock

  datatype Row = Row(key: InternalKey, value: Bytes)

  /** An index entry: a key at or after the last key of a block and before the next block, and the block's handle. */
  datatype IndexEntry = IndexEntry(key: InternalKey, offset: nat)

  /** A finished table file: the index, the data blocks by their offset, and the filter block. */
  datatype Table = Table(index: seq<IndexEntry>, file: map<nat, seq<Row>>, filter: Option<Bytes>)

  ghost predicate RowsSorted(rows: seq<Row>) {
    forall i, j :: 0 <= i < j < |rows| ==> Precedes(rows[i].key, rows[j].key)
  }

  /** The index key may stand between these two rows. */
  predicate Separates(last: InternalKey, sep: InternalKey, next: InternalKey) {
    sep == last || (BytesLess(last.user, sep.user) && BytesLess(sep.user, next.user))
  }

  predicate Succeeds(last: InternalKey, sep: InternalKey) { sep == last || BytesLess(last.user, sep.user) }

  /** The rows are cut into blocks: block `j` has the rows from cuts[j] to cuts[j + 1]. */
  ghost predicate Cut(n: nat, cuts: seq<nat>) {
    && |cuts| > 0 && cuts[0] == 0 && cuts[|cuts| - 1] <= n
    && forall i, j :: 0 <= i < j < |cuts| ==> cuts[i] < cuts[j]
  }

  /** The first `m` index entries fit the blocks that they point to. */
  ghost predicate Indexed(index: seq<IndexEntry>, file: map<nat, seq<Row>>, rows: seq<Row>, cuts: seq<nat>) {
    && Cut(|rows|, cuts) && |index| < |cuts|
    && (forall j {:trigger index[j]} :: 0 <= j < |index| ==>
          index[j].offset in file && file[index[j].offset] == rows[cuts[j]..cuts[j + 1]])
    && (forall j {:trigger index[j]} :: 0 <= j < |index| && cuts[j + 1] < |rows| ==>
          Separates(rows[cuts[j + 1] - 1].key, index[j].key, rows[cuts[j + 1]].key))
  }

  /** The filter for this offset knows this user key. */
  ghost predicate InFilter(filters: seq<Bytes>, offset: nat, user: Bytes, hash: Bytes -> nat) {
    && offset / FilterBlock.BASE < |filters|
    && Matches(filters[offset / FilterBlock.BASE], hash(user) % LIMIT32)
  }

  /** Every row's user key is in the filter of its block. */
  ghost predicate Filtered(
    index: seq<IndexEntry>, rows: seq<Row>, cuts: seq<nat>, filters: seq<Bytes>, hash: Bytes -> nat)
  {
    forall j, i {:trigger index[j], rows[i]} ::
      0 <= j < |index| && j + 1 < |cuts| && cuts[j] <= i < cuts[j + 1] && i < |rows| ==>
        InFilter(filters, index[j].offset, rows[i].key.user, hash)
  }

  /** The table holds these rows. */
  ghost predicate Holds(
    t: Table, rows: seq<Row>, cuts: seq<nat>, filters: seq<Bytes>, starts: seq<nat>, hash: Bytes -> nat)
  {
    && RowsSorted(rows) && Indexed(t.index, t.file, rows, cuts)
    && |cuts| == |t.index| + 1 && cuts[|t.index|] == |rows|
    && (t.index != [] ==> Succeeds(rows[|rows| - 1].key, t.index[|t.index| - 1].key))
    && (t.filter.Some? ==>
          FilterBlock.Finished(t.filter.value, filters, starts) && Filtered(t.index, rows, cuts, filters, hash))
  }

  /** Row `i` is the first one at or after `k`. */
  ghost predicate First(rows: seq<Row>, k: InternalKey, i: nat) {
    && i <= |rows| && (forall j :: 0 <= j < i ==> Precedes(rows[j].key, k))
    && (i < |rows| ==> !Precedes(rows[i].key, k))
  }

  /** The block of a row. */
  lemma {:induction false} BlockOf(cuts: seq<nat>, n: nat, i: nat) returns (b: nat)
    requires Cut(n, cuts) && i < cuts[|cuts| - 1]
    ensures b + 1 < |cuts| && cuts[b] <= i < cuts[b + 1]
    decreases |cuts|
  {
    var m := |cuts| - 2;
    if cuts[m] <= i { b := m; } else { b := BlockOf(cuts[..m + 1], n, i); }
  }

  /** The index key of the block that holds the first row at or after `k` is itself at or after `k`. */
  lemma IndexReaches(t: Table, rows: seq<Row>, cuts: seq<nat>, k: InternalKey, i: nat, b: nat)
    requires RowsSorted(rows) && Indexed(t.index, t.file, rows, cuts) && |cuts| == |t.index| + 1
    requires cuts[|t.index|] == |rows| && b < |t.index| && cuts[b] <= i < cuts[b + 1]
    requires Succeeds(rows[|rows| - 1].key, t.index[|t.index| - 1].key)
    requires First(rows, k, i)
    ensures !Precedes(t.index[b].key, k)
  {
    var last, sep := rows[cuts[b + 1] - 1].key, t.index[b].key;
    KeyOrder(rows[i].key, last, k);
    KeyOrder(last, k, rows[i].key);
    assert !Precedes(last, k);
    if b + 1 < |t.index| { assert cuts[b + 1] < cuts[|t.index|]; }
    assert Succeeds(last, sep);
    UserOrder(last.user, sep.user, k.user);
    UserOrder(sep.user, k.user, last.user);
    UserOrder(k.user, last.user, sep.user);
  }

  /** The index keys of the blocks before are below `k`, if that row has the user key of `k`. */
  lemma IndexSkips(t: Table, rows: seq<Row>, cuts: seq<nat>, k: InternalKey, i: nat, b: nat, j: nat)
    requires RowsSorted(rows) && Indexed(t.index, t.file, rows, cuts) && |cuts| == |t.index| + 1
    requires cuts[|t.index|] == |rows| && b < |t.index| && cuts[b] <= i < cuts[b + 1] && j < b
    requires First(rows, k, i) && rows[i].key.user == k.user
    ensures Precedes(t.index[j].key, k)
  {
    var c := cuts[j + 1];
    assert c <= cuts[b];
    var last, sep, next := rows[c - 1].key, t.index[j].key, rows[c].key;
    assert Precedes(last, k) && Separates(last, sep, next);
    assert c == i || Precedes(next, rows[i].key);
    SeparatorSeparates(last, sep, next, k);
    KeyOrder(sep, next, k);
  }

  /** The row that InternalGet has to find. */
  ghost predicate Hit(rows: seq<Row>, k: InternalKey, first: nat) {
    first < |rows| && rows[first].key.user == k.user
  }

  /** The right answer for `k`: the first row at or after it, if that has its user key; else no such row. */
  ghost predicate Right(rows: seq<Row>, k: InternalKey, first: nat, r: Option<Row>) {
    if Hit(rows, k, first) then r == Some(rows[first]) else r.None? || r.value.key.user != k.user
  }

  /** Where the index search ends. */
  lemma IndexFinds(t: Table, rows: seq<Row>, cuts: seq<nat>, k: InternalKey, first: nat, j: nat)
    requires RowsSorted(rows) && Indexed(t.index, t.file, rows, cuts) && |cuts| == |t.index| + 1
    requires cuts[|t.index|] == |rows| && First(rows, k, first)
    requires t.index != [] ==> Succeeds(rows[|rows| - 1].key, t.index[|t.index| - 1].key)
    requires j <= |t.index| && (forall m :: 0 <= m < j ==> Precedes(t.index[m].key, k))
    requires j < |t.index| ==> !Precedes(t.index[j].key, k)
    ensures Hit(rows, k, first) ==> j < |t.index| && cuts[j] <= first < cuts[j + 1]
  {
    if Hit(rows, k, first) {
      var b := BlockOf(cuts, |rows|, first);
      IndexReaches(t, rows, cuts, k, first, b);
      if j < b { IndexSkips(t, rows, cuts, k, first, b, j); }
    }
  }

  /** The filter does not hide the row. */
  lemma NotFiltered(
    t: Table, rows: seq<Row>, cuts: seq<nat>, filters: seq<Bytes>, starts: seq<nat>, hash: Bytes -> nat,
    k: InternalKey, first: nat, j: nat)
    requires Holds(t, rows, cuts, filters, starts, hash) && j < |t.index|
    requires Hit(rows, k, first) ==> cuts[j] <= first < cuts[j + 1]
    ensures t.index[j].offset in t.file
    ensures Hit(rows, k, first) && t.filter.Some? ==>
              && FilterBlock.Finished(t.filter.value, filters, starts)
              && InFilter(filters, t.index[j].offset, k.user, hash)
  {}

  /** What the search in the block finds. */
  lemma BlockFinds(t: Table, rows: seq<Row>, cuts: seq<nat>, k: InternalKey, first: nat, j: nat, i: nat)
    requires RowsSorted(rows) && Indexed(t.index, t.file, rows, cuts) && First(rows, k, first)
    requires j < |t.index| && t.index[j].offset in t.file
    requires var block := t.file[t.index[j].offset];
             && i <= |block| && (forall m :: 0 <= m < i ==> Precedes(block[m].key, k))
             && (i < |block| ==> !Precedes(block[i].key, k))
    requires Hit(rows, k, first) ==> cuts[j] <= first < cuts[j + 1]
    ensures var block := t.file[t.index[j].offset];
            Right(rows, k, first, if i < |block| then Some(block[i]) else None)
  {
    var block, c := t.file[t.index[j].offset], cuts[j];
    assert forall m :: 0 <= m < |block| ==> block[m] == rows[c + m];
    if Hit(rows, k, first) {
      assert block[first - c] == rows[first];
      assert forall m :: 0 <= m < first - c ==> block[m] == rows[c + m];
    } else if i < |block| {
      NoHit(rows, k, first, c + i);
    }
  }

  /** A row at or after `k` with its user key means that the first row at or after `k` has it. */
  lemma NoHit(rows: seq<Row>, k: InternalKey, first: nat, m: nat)
    requires RowsSorted(rows) && First(rows, k, first) && m < |rows| && !Precedes(rows[m].key, k)
    ensures rows[m].key.user == k.user ==> Hit(rows, k, first)
  {
    if first < m && rows[m].key.user == k.user { Between(k, rows[first].key, rows[m].key); }
  }

  /** A key between two keys with the same user key has that user key. */
  lemma Between(k: InternalKey, x: InternalKey, y: InternalKey)
    requires !Precedes(x, k) && Precedes(x, y) && y.user == k.user
    ensures x.user == k.user
  {
    UserOrder(x.user, k.user, y.user);
    UserOrder(k.user, x.user, y.user);
  }

  // ----- the builder

  /** The data blocks written so far: one at each offset, at increasing offsets. */
  ghost predicate Blocks(file: map<nat, seq<Row>>, rows: seq<Row>, cuts: seq<nat>, offsets: seq<nat>, offset: nat) {
    && |cuts| == |offsets| + 1 && Cut(|rows|, cuts)
    && (forall j {:trigger offsets[j]} :: 0 <= j < |offsets| ==>
          offsets[j] in file && file[offsets[j]] == rows[cuts[j]..cuts[j + 1]])
    && (forall j :: 0 <= j < |offsets| ==> offsets[j] < offset)
  }

  /** The key that the builder writes between two rows. */
  ghost predicate Parts(last: InternalKey, sep: InternalKey, next: InternalKey) {
    Separates(last, sep, next) && ShortBetween(last, sep, next)
  }

  /** The index entries so far. */
  ghost predicate Entries(index: seq<IndexEntry>, rows: seq<Row>, cuts: seq<nat>, offsets: seq<nat>) {
    && |index| <= |offsets| < |cuts| && Cut(|rows|, cuts)
    && (forall j :: 0 <= j < |index| ==> index[j].offset == offsets[j])
    && (forall j {:trigger index[j]} :: 0 <= j < |index| ==>
          cuts[j + 1] < |rows| && Parts(rows[cuts[j + 1] - 1].key, index[j].key, rows[cuts[j + 1]].key))
  }

  lemma BlocksKept(file: map<nat, seq<Row>>, rows: seq<Row>, cuts: seq<nat>, offsets: seq<nat>, offset: nat, row: Row)
    requires Blocks(file, rows, cuts, offsets, offset)
    ensures Blocks(file, rows + [row], cuts, offsets, offset)
  {
    forall j | 0 <= j < |offsets| ensures file[offsets[j]] == (rows + [row])[cuts[j]..cuts[j + 1]] {
      assert cuts[j + 1] <= cuts[|offsets|];
      assert (rows + [row])[cuts[j]..cuts[j + 1]] == rows[cuts[j]..cuts[j + 1]];
    }
  }

  lemma BlocksGrow(file: map<nat, seq<Row>>, rows: seq<Row>, cuts: seq<nat>, offsets: seq<nat>, offset: nat, offset': nat)
    requires Blocks(file, rows, cuts, offsets, offset) && cuts[|offsets|] < |rows| && offset < offset'
    ensures Blocks(file[offset := rows[cuts[|offsets|]..]], rows, cuts + [|rows|], offsets + [offset], offset')
  {}

  lemma EntriesKept(index: seq<IndexEntry>, rows: seq<Row>, cuts: seq<nat>, offsets: seq<nat>, row: Row)
    requires Entries(index, rows, cuts, offsets)
    ensures Entries(index, rows + [row], cuts, offsets)
  {
    forall j | 0 <= j < |index|
      ensures Parts((rows + [row])[cuts[j + 1] - 1].key, index[j].key, (rows + [row])[cuts[j + 1]].key)
    {
      var e := index[j];
      assert 0 < cuts[j + 1] < |rows|;
    }
  }

  lemma EntriesGrow(index: seq<IndexEntry>, rows: seq<Row>, cuts: seq<nat>, offsets: seq<nat>, sep: InternalKey)
    requires Entries(index, rows, cuts, offsets) && |offsets| == |index| + 1 && cuts[|index| + 1] < |rows|
    requires Parts(rows[cuts[|index| + 1] - 1].key, sep, rows[cuts[|index| + 1]].key)
    ensures Entries(index + [IndexEntry(sep, offsets[|index|])], rows, cuts, offsets)
  {}

  lemma RowsGrow(rows: seq<Row>, row: Row)
    requires RowsSorted(rows) && (rows != [] ==> Precedes(rows[|rows| - 1].key, row.key))
    ensures RowsSorted(rows + [row])
  {
    forall i | 0 <= i < |rows| ensures Precedes(rows[i].key, row.key) {
      KeyOrder(rows[i].key, rows[|rows| - 1].key, row.key);
    }
  }

  /** The fields of TableBuilder::Rep, with the file's data blocks. */
  datatype Rep = Rep(
    data: seq<Row>, index: seq<IndexEntry>, pending: bool, pendingOffset: nat, lastKey: InternalKey, offset: nat,
    file: map<nat, seq<Row>>)

  /** What was added: the rows, and how they are cut into blocks at these offsets. */
  datatype History = History(rows: seq<Row>, cuts: seq<nat>, offsets: seq<nat>)

  ghost predicate Shape(r: Rep, h: History) {
    && RowsSorted(h.rows) && Blocks(r.file, h.rows, h.cuts, h.offsets, r.offset)
    && Entries(r.index, h.rows, h.cuts, h.offsets) && r.data == h.rows[h.cuts[|h.offsets|]..]
    && (if r.pending then |h.offsets| == |r.index| + 1 && r.data == [] && r.pendingOffset == h.offsets[|r.index|]
        else |h.offsets| == |r.index|)
    && (h.rows != [] ==> r.lastKey == h.rows[|h.rows| - 1].key)
  }

  lemma ShapeAdd(r: Rep, h: History, row: Row, sep: InternalKey, r': Rep, h': History)
    requires Shape(r, h) && (h.rows != [] ==> Precedes(h.rows[|h.rows| - 1].key, row.key))
    requires r.pending ==> Parts(r.lastKey, sep, row.key)
    requires h' == h.(rows := h.rows + [row])
    requires r' == r.(index := if r.pending then r.index + [IndexEntry(sep, r.pendingOffset)] else r.index,
                      pending := false, lastKey := row.key, data := r.data + [row])
    ensures Shape(r', h')
  {
    RowsGrow(h.rows, row);
    BlocksKept(r.file, h.rows, h.cuts, h.offsets, r.offset, row);
    EntriesAdd(r, h, row, sep, r'.index);
    DataGrows(h.rows, h.cuts[|h.offsets|], row);
  }

  lemma EntriesAdd(r: Rep, h: History, row: Row, sep: InternalKey, index: seq<IndexEntry>)
    requires Shape(r, h) && (r.pending ==> Parts(r.lastKey, sep, row.key))
    requires index == if r.pending then r.index + [IndexEntry(sep, r.pendingOffset)] else r.index
    ensures Entries(index, h.rows + [row], h.cuts, h.offsets) && |index| == |h.offsets|
  {
    if r.pending {
      PendingAtEnd(r, h);
      PendingEntry(r.index, h.rows, h.cuts, h.offsets, row, sep);
    } else {
      EntriesKept(r.index, h.rows, h.cuts, h.offsets, row);
    }
  }

  lemma PendingEntry(
    index: seq<IndexEntry>, rows: seq<Row>, cuts: seq<nat>, offsets: seq<nat>, row: Row, sep: InternalKey)
    requires Entries(index, rows, cuts, offsets) && |offsets| == |index| + 1 && cuts[|index| + 1] == |rows| > 0
    requires Parts(rows[|rows| - 1].key, sep, row.key)
    ensures Entries(index + [IndexEntry(sep, offsets[|index|])], rows + [row], cuts, offsets)
  {
    EntriesKept(index, rows, cuts, offsets, row);
    EntriesGrow(index, rows + [row], cuts, offsets, sep);
  }

  lemma DataGrows(rows: seq<Row>, c: nat, row: Row)
    requires c <= |rows|
    ensures (rows + [row])[c..] == rows[c..] + [row]
  {}

  lemma PendingAtEnd(r: Rep, h: History)
    requires Shape(r, h) && r.pending
    ensures h.cuts[|r.index| + 1] == |h.rows| > 0
  {
    assert h.cuts[0] < h.cuts[|r.index| + 1];
  }

  lemma ShapeFlush(r: Rep, h: History, size: nat, r': Rep, h': History)
    requires Shape(r, h) && r.data != [] && size > 0
    requires h' == h.(cuts := h.cuts + [|h.rows|], offsets := h.offsets + [r.offset])
    requires r' == r.(file := r.file[r.offset := r.data], pendingOffset := r.offset, pending := true, data := [],
                      offset := r.offset + size)
    ensures Shape(r', h')
  {
    BlocksGrow(r.file, h.rows, h.cuts, h.offsets, r.offset, r.offset + size);
    EntriesCut(r.index, h.rows, h.cuts, h.offsets, |h.rows|, r.offset);
  }

  lemma EntriesCut(index: seq<IndexEntry>, rows: seq<Row>, cuts: seq<nat>, offsets: seq<nat>, cut: nat, offset: nat)
    requires Entries(index, rows, cuts, offsets) && |cuts| == |offsets| + 1 && cuts[|offsets|] < cut <= |rows|
    ensures Entries(index, rows, cuts + [cut], offsets + [offset])
  {}

  /** Every row was added to the filter for the offset of its block; the rows that are not flushed yet will be a
      block at `offset`. */
  ghost predicate Added(added: set<(nat, Bytes)>, h: History, offset: nat) {
    && |h.cuts| == |h.offsets| + 1 && Cut(|h.rows|, h.cuts)
    && (forall j, i {:trigger h.offsets[j], h.rows[i]} ::
          0 <= j < |h.offsets| && h.cuts[j] <= i < h.cuts[j + 1] ==> AddedFor(added, h.offsets[j], h.rows[i]))
    && (forall i :: h.cuts[|h.offsets|] <= i < |h.rows| ==> AddedFor(added, offset, h.rows[i]))
  }

  ghost predicate AddedFor(added: set<(nat, Bytes)>, offset: nat, row: Row) {
    (offset / FilterBlock.BASE, row.key.user) in added
  }

  lemma AddedRow(added: set<(nat, Bytes)>, h: History, offset: nat, row: Row)
    requires Added(added, h, offset)
    ensures Added(added + {(offset / FilterBlock.BASE, row.key.user)}, h.(rows := h.rows + [row]), offset)
  {
    assert forall j :: 0 <= j < |h.cuts| ==> h.cuts[j] <= h.cuts[|h.offsets|] <= |h.rows|;
  }

  lemma AddedCut(added: set<(nat, Bytes)>, h: History, offset: nat, offset': nat)
    requires Added(added, h, offset) && h.cuts[|h.offsets|] < |h.rows|
    ensures Added(added, h.(cuts := h.cuts + [|h.rows|], offsets := h.offsets + [offset]), offset')
  {}

  class TableBuilder {
    const filter: FilterBlock.FilterBlockBuilder
    const useFilter: bool
    var r: Rep
    ghost var h: History

    ghost predicate Valid()
      reads this, filter
    {
      && filter.Valid() && Shape(r, h)
      && (useFilter ==> |filter.offsets| == r.offset / FilterBlock.BASE && Added(filter.added, h, r.offset))
    }

    constructor (filter: FilterBlock.FilterBlockBuilder, useFilter: bool)
      requires filter.Valid() && filter.added == {} && filter.offsets == []
      ensures Valid() && h.rows == [] && this.filter == filter && this.useFilter == useFilter
    {
      this.filter, this.useFilter := filter, useFilter;
      r, h := Rep([], [], false, 0, InternalKey([], 0), 0, map[]), History([], [0], []);
    }

    /** Add, up to the flush: a pending index entry gets its key now that the next block's first key is known. */
    method AddRow(row: Row)
      requires Valid() && (h.rows != [] ==> Precedes(h.rows[|h.rows| - 1].key, row.key))
      modifies this`r, this`h, filter`pending, filter`added
      ensures Valid() && h == old(h).(rows := old(h).rows + [row])
    {
      ghost var h' := h.(rows := h.rows + [row]);
      var r' := WithRow(r, row, h, h');
      NoteKey(row, h');
      r, h := r', h';
    }

    /** The filter takes in the row's user key. */
    method NoteKey(row: Row, ghost h': History)
      requires Valid() && h' == h.(rows := h.rows + [row])
      modifies filter`pending, filter`added
      ensures filter.Valid()
      ensures useFilter ==> |filter.offsets| == r.offset / FilterBlock.BASE && Added(filter.added, h', r.offset)
    {
      if useFilter {
        AddedRow(filter.added, h, r.offset, row);
        filter.AddKey(row.key.user);
      }
    }

    /** Flush: the data block goes to the file; `size` is what it takes there, with its trailer. */
    method Flush(size: nat)
      requires Valid() && size > 0
      modifies this`r, this`h, filter`pending, filter`result, filter`offsets, filter`filters, filter`groups
      ensures Valid() && h.rows == old(h.rows) && r.data == [] && r.index == old(r.index)
      ensures r.pending == (old(r.pending) || old(r.data) != [])
    {
      if r.data == [] { return; }
      var r' := r.(file := r.file[r.offset := r.data], pendingOffset := r.offset, pending := true, data := [],
                   offset := r.offset + size);
      ghost var h' := h.(cuts := h.cuts + [|h.rows|], offsets := h.offsets + [r.offset]);
      ShapeFlush(r, h, size, r', h');
      if useFilter { AddedCut(filter.added, h, r.offset, r'.offset); }
      r, h := r', h';
      if useFilter { filter.StartBlock(r.offset); }
    }

    /** Add: the data block is flushed once it is full. */
    method Add(row: Row, full: bool, size: nat)
      requires Valid() && (h.rows != [] ==> Precedes(h.rows[|h.rows| - 1].key, row.key)) && size > 0
      modifies this`r, this`h, filter
      ensures Valid() && h.rows == old(h.rows) + [row]
    {
      AddRow(row);
      if full { Flush(size); }
    }

    /** Finish: the last block, the filter block, and the index with its last key. */
    method Finish(size: nat) returns (t: Table, ghost filters: seq<Bytes>, ghost starts: seq<nat>)
      requires Valid() && size > 0
      modifies this`r, this`h, filter
      ensures h.rows == old(h.rows)
      ensures (t.filter.Some? ==> |t.filter.value| < LIMIT32) ==>
                Holds(t, h.rows, h.cuts, filters, starts, filter.hash)
      ensures ShortIndex(t.index, h.rows, h.cuts)
    {
      Flush(size);
      var index := FinishIndex(r, h);
      var bytes;
      bytes, filters, starts := FinishFilter(index);
      t := Table(index, r.file, bytes);
      DoneHolds(t, h, filters, starts, filter.hash);
    }

    /** The filter block, if there is one. */
    method FinishFilter(index: seq<IndexEntry>)
      returns (bytes: Option<Bytes>, ghost filters: seq<Bytes>, ghost starts: seq<nat>)
      requires filter.Valid() && (useFilter ==> Added(filter.added, h, r.offset))
      requires |index| == |h.offsets| && forall j :: 0 <= j < |index| ==> index[j].offset == h.offsets[j]
      modifies filter
      ensures bytes.Some? ==> Filtered(index, h.rows, h.cuts, filters, filter.hash)
      ensures bytes.Some? && |bytes.value| < LIMIT32 ==> FilterBlock.Finished(bytes.value, filters, starts)
    {
      if !useFilter { return None, [], []; }
      ghost var added := filter.added;
      var contents;
      contents, starts := filter.Finish();
      filters := filter.filters;
      FinishedFiltered(added, r.offset, h, index, filters, filter.hash);
      bytes := Some(contents);
    }
  }

  lemma DoneHolds(t: Table, h: History, filters: seq<Bytes>, starts: seq<nat>, hash: Bytes -> nat)
    requires IndexDone(t.index, t.file, h)
    requires t.filter.Some? ==> Filtered(t.index, h.rows, h.cuts, filters, hash)
    requires t.filter.Some? && |t.filter.value| < LIMIT32 ==> FilterBlock.Finished(t.filter.value, filters, starts)
    ensures (t.filter.Some? ==> |t.filter.value| < LIMIT32) ==> Holds(t, h.rows, h.cuts, filters, starts, hash)
  {}

  /** The builder's fields with one row more: a pending index entry gets a key that separates the blocks. */
  method WithRow(r: Rep, row: Row, ghost h: History, ghost h': History) returns (r': Rep)
    requires Shape(r, h) && (h.rows != [] ==> Precedes(h.rows[|h.rows| - 1].key, row.key))
    requires h' == h.(rows := h.rows + [row])
    ensures Shape(r', h') && r'.offset == r.offset
  {
    var sep := row.key;
    ghost var n := 0;
    if r.pending { sep, n := InternalSeparator(r.lastKey, row.key); }
    r' := r.(index := if r.pending then r.index + [IndexEntry(sep, r.pendingOffset)] else r.index,
             pending := false, lastKey := row.key, data := r.data + [row]);
    ShapeAdd(r, h, row, sep, r', h');
  }

  /** The index block at the end: a pending entry gets a short successor of the last key. */
  method FinishIndex(r: Rep, ghost h: History) returns (index: seq<IndexEntry>)
    requires Shape(r, h) && r.data == []
    ensures IndexDone(index, r.file, h)
  {
    index := r.index;
    var sep := r.lastKey;
    if r.pending {
      ghost var n;
      sep, n := InternalSuccessor(r.lastKey);
      index := index + [IndexEntry(sep, r.pendingOffset)];
    }
    FinishedHolds(r, h, sep, index);
  }

  /** The index covers all rows. */
  ghost predicate IndexDone(index: seq<IndexEntry>, file: map<nat, seq<Row>>, h: History) {
    && RowsSorted(h.rows) && Indexed(index, file, h.rows, h.cuts)
    && |h.cuts| == |index| + 1 == |h.offsets| + 1 && h.cuts[|index|] == |h.rows|
    && (forall j :: 0 <= j < |index| ==> index[j].offset == h.offsets[j])
    && (index != [] ==> h.rows != [] && Succeeds(h.rows[|h.rows| - 1].key, index[|index| - 1].key))
    && ShortIndex(index, h.rows, h.cuts)
  }

  /** The keys of the index are the short ones of the comparator. */
  ghost predicate ShortIndex(index: seq<IndexEntry>, rows: seq<Row>, cuts: seq<nat>) {
    && Cut(|rows|, cuts) && |cuts| == |index| + 1
    && (forall j {:trigger index[j]} :: 0 <= j < |index| && cuts[j + 1] < |rows| ==>
          ShortBetween(rows[cuts[j + 1] - 1].key, index[j].key, rows[cuts[j + 1]].key))
    && (index != [] ==> rows != [] && ShortAfter(rows[|rows| - 1].key, index[|index| - 1].key))
  }

  lemma FinishedHolds(r: Rep, h: History, sep: InternalKey, index: seq<IndexEntry>)
    requires Shape(r, h) && r.data == []
    requires index == if r.pending then r.index + [IndexEntry(sep, r.pendingOffset)] else r.index
    requires r.pending ==> Succeeds(r.lastKey, sep) && ShortAfter(r.lastKey, sep)
    ensures IndexDone(index, r.file, h)
  {
    if r.pending {
      PendingAtEnd(r, h);
      PendingDone(r.index, r.file, h, r.offset, sep, index);
    } else {
      NothingPending(r, h);
    }
  }

  /** Without a pending entry there is no block, and no row. */
  lemma NothingPending(r: Rep, h: History)
    requires Shape(r, h) && r.data == [] && !r.pending
    ensures IndexDone(r.index, r.file, h)
  {
    if r.index != [] { LastIsOpen(r, h); }
  }

  lemma PendingDone(
    before: seq<IndexEntry>, file: map<nat, seq<Row>>, h: History, offset: nat, sep: InternalKey, index: seq<IndexEntry>)
    requires RowsSorted(h.rows) && Blocks(file, h.rows, h.cuts, h.offsets, offset)
    requires Entries(before, h.rows, h.cuts, h.offsets) && |h.offsets| == |before| + 1
    requires h.cuts[|h.offsets|] == |h.rows| > 0 && Succeeds(h.rows[|h.rows| - 1].key, sep)
    requires ShortAfter(h.rows[|h.rows| - 1].key, sep)
    requires index == before + [IndexEntry(sep, h.offsets[|before|])]
    ensures IndexDone(index, file, h)
  {
    FinishedOffsets(before, h.offsets, sep, index);
    FinishedSeparates(before, h.rows, h.cuts, h.offsets, index);
    FinishedBlocks(file, h.rows, h.cuts, h.offsets, offset, index);
  }

  lemma FinishedOffsets(before: seq<IndexEntry>, offsets: seq<nat>, sep: InternalKey, index: seq<IndexEntry>)
    requires |before| <= |offsets| && forall j :: 0 <= j < |before| ==> before[j].offset == offsets[j]
    requires |before| < |offsets| && index == before + [IndexEntry(sep, offsets[|before|])]
    ensures forall j :: 0 <= j < |index| ==> index[j].offset == offsets[j]
  {}

  /** Only the entry of the last block is new, and no row comes after that block. */
  lemma FinishedSeparates(
    before: seq<IndexEntry>, rows: seq<Row>, cuts: seq<nat>, offsets: seq<nat>, index: seq<IndexEntry>)
    requires Entries(before, rows, cuts, offsets) && |index| == |offsets| && |cuts| == |offsets| + 1
    requires |index| <= |before| + 1 && cuts[|offsets|] == |rows|
    requires forall j :: 0 <= j < |before| ==> index[j] == before[j]
    ensures forall j {:trigger index[j]} :: 0 <= j < |index| && cuts[j + 1] < |rows| ==>
              Parts(rows[cuts[j + 1] - 1].key, index[j].key, rows[cuts[j + 1]].key)
  {
    forall j {:trigger index[j]} | 0 <= j < |index| && cuts[j + 1] < |rows|
      ensures Parts(rows[cuts[j + 1] - 1].key, index[j].key, rows[cuts[j + 1]].key)
    {
      assert index[j] == before[j];
    }
  }

  lemma FinishedBlocks(
    file: map<nat, seq<Row>>, rows: seq<Row>, cuts: seq<nat>, offsets: seq<nat>, offset: nat, index: seq<IndexEntry>)
    requires Blocks(file, rows, cuts, offsets, offset) && |index| == |offsets|
    requires forall j :: 0 <= j < |index| ==> index[j].offset == offsets[j]
    ensures forall j {:trigger index[j]} :: 0 <= j < |index| ==>
              index[j].offset in file && file[index[j].offset] == rows[cuts[j]..cuts[j + 1]]
  {}

  /** With an entry for every block there is a row after the last block. */
  lemma LastIsOpen(r: Rep, h: History)
    requires Shape(r, h) && !r.pending && r.index != []
    ensures h.cuts[|h.offsets|] < |h.rows|
  {
    var e := r.index[|r.index| - 1];
  }

  lemma FinishedFiltered(
    added: set<(nat, Bytes)>, offset: nat, h: History, index: seq<IndexEntry>, filters: seq<Bytes>, hash: Bytes -> nat)
    requires Added(added, h, offset) && |index| == |h.offsets|
    requires forall j :: 0 <= j < |index| ==> index[j].offset == h.offsets[j]
    requires forall a :: a in added ==> a.0 < |filters| && Matches(filters[a.0], hash(a.1) % LIMIT32)
    ensures Filtered(index, h.rows, h.cuts, filters, hash)
  {
    forall j, i | 0 <= j < |index| && j + 1 < |h.cuts| && h.cuts[j] <= i < h.cuts[j + 1] && i < |h.rows|
      ensures InFilter(filters, index[j].offset, h.rows[i].key.user, hash)
    {
      assert AddedFor(added, h.offsets[j], h.rows[i]);
    }
  }
}
