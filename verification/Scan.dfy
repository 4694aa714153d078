/** What a scan of the whole database shows: DBIter over the merge of the memtables, the tables of level 0 and the
    deeper levels (DBImpl::NewInternalIterator in db/db_impl.cc, Version::AddIterators in db/version_set.cc). */
module Scan {
  import opened Keys
  import opened Lsm
  import opened LsmSafety
  import opened LsmRuns
  import opened LsmReads
  import opened DbIter
  import opened Merger

  /** What a child of the merging iterator reads: a memtable, a table of level 0, or a whole deeper level. */
  datatype Source = Mem | Imm | Table0(f: File) | Level(i: nat)

  ghost function EntriesOf(st: State, src: Source): set<Entry> {
    match src
    case Mem => st.mem
    case Imm => ImmOf(st)
    case Table0(f) => if |st.levels| > 0 && f in st.levels[0] then SetOf(f.entries) else {}
    case Level(i) => if 1 <= i < |st.levels| then Contents(st.levels[i]) else {}
  }

  /** Each source has at most one child, and only a source without entries may have none. */
  ghost predicate Children(st: State, sources: seq<Source>, lists: Lists) {
    && |sources| == |lists|
    && (forall i, j :: 0 <= i < j < |sources| ==> sources[i] != sources[j])
    && (forall i :: 0 <= i < |lists| ==> Sorted(lists[i]) && SetOf(lists[i]) == EntriesOf(st, sources[i]))
    && (forall src :: EntriesOf(st, src) != {} ==> src in sources)
  }

  /** The entries of a source lie in its own stretch of the history. */
  lemma SourceAge(st: State, src: Source, e: Entry)
    requires Inv(st) && e in EntriesOf(st, src)
    ensures src.Mem? ==> e.seqno > st.memFrom
    ensures src.Imm? ==> st.immFrom < e.seqno <= st.memFrom
    ensures src.Table0? || src.Level? ==> e in Stored(st.levels) && e.seqno <= st.immFrom
  {
    MemOverImm(st);
    if src.Table0? { assert e in Contents(st.levels[0]); }
    if src.Table0? || src.Level? { StoredAge(st, e); }
  }

  lemma StoredAge(st: State, e: Entry)
    requires Sound(st) && Numbered(st.hist) && e in Stored(st.levels)
    ensures e.seqno <= st.immFrom
  {
    var i :| 0 <= i < |st.hist[..st.immFrom]| && st.hist[..st.immFrom][i] == e;
    assert e == st.hist[i];
  }

  /** No entry is in two tables, or in two levels. */
  lemma TablesApart(st: State, a: Source, b: Source, e: Entry)
    requires Shaped(st.levels) && Ordered(st.levels) && a != b && (a.Table0? || a.Level?) && (b.Table0? || b.Level?)
    ensures e !in EntriesOf(st, a) || e !in EntriesOf(st, b)
  {
    if e in EntriesOf(st, a) { assert e in Contents(st.levels[if a.Level? then a.i else 0]); }
    if e in EntriesOf(st, b) { assert e in Contents(st.levels[if b.Level? then b.i else 0]); }
  }

  lemma SourcesApart(st: State, a: Source, b: Source, x: Entry, y: Entry)
    requires Inv(st) && a != b && x in EntriesOf(st, a) && y in EntriesOf(st, b)
    ensures x.seqno != y.seqno
  {
    SourceAge(st, a, x);
    SourceAge(st, b, y);
    if x.seqno == y.seqno {
      InvUnique(st);
      TablesApart(st, a, b, x);
    }
  }

  /** The children of a reached state can be merged. */
  lemma ChildrenMergeable(st: State, sources: seq<Source>, lists: Lists)
    requires Inv(st) && Children(st, sources, lists)
    ensures Mergeable(lists)
  {
    forall i, j, a, b | 0 <= i < |lists| && 0 <= j < |lists| && i != j && 0 <= a < |lists[i]| && 0 <= b < |lists[j]|
      ensures KeyOf(lists[i][a]) != KeyOf(lists[j][b])
    {
      assert lists[i][a] in SetOf(lists[i]) && lists[j][b] in SetOf(lists[j]);
      SourcesApart(st, sources[i], sources[j], lists[i][a], lists[j][b]);
    }
  }

  lemma SourceOf(st: State, e: Entry) returns (src: Source)
    requires |st.levels| > 0 && e in st.mem + ImmOf(st) + Stored(st.levels)
    ensures e in EntriesOf(st, src)
  {
    if e in st.mem { return Mem; }
    if e in ImmOf(st) { return Imm; }
    var i :| 0 <= i < |st.levels| && e in Contents(st.levels[i]);
    var f: File :| f in st.levels[i] && e in f.entries;
    src := if i == 0 then Table0(f) else Level(i);
  }

  /** The merge holds exactly what the memtables and the tables hold. */
  lemma MergeHoldsAll(st: State, sources: seq<Source>, lists: Lists, data: seq<Entry>)
    requires Inv(st) && Children(st, sources, lists) && IsMerge(lists, data)
    ensures SetOf(data) == st.mem + ImmOf(st) + Stored(st.levels)
  {
    forall e | e in st.mem + ImmOf(st) + Stored(st.levels) ensures e in data {
      var src := SourceOf(st, e);
      var i :| 0 <= i < |sources| && sources[i] == src;
      assert e in SetOf(lists[i]);
    }
    forall e | e in data ensures e in st.mem + ImmOf(st) + Stored(st.levels) {
      var i :| 0 <= i < |lists| && e in lists[i];
      assert e in SetOf(lists[i]);
      SourceAge(st, sources[i], e);
    }
  }

  /** In every run whose moves and compactions have complete inputs, a scan at a live snapshot shows exactly the
      keys and values that the plain history of operations has there. */
  lemma ScanShowsHistory(
    states: seq<State>, steps: seq<Step>, n: nat, sources: seq<Source>, lists: Lists, data: seq<Entry>, s: nat,
    k: UserKey, v: Value)
    requires Run(states, steps) && n < |states| && Live(states[n], s)
    requires forall i :: 0 <= i < n ==> StepComplete(states[i], steps[i])
    requires Children(states[n], sources, lists) && IsMerge(lists, data)
    ensures Mergeable(lists)
    ensures View(SetOf(states[n].hist), k, s) == Some(v) <==>
            exists i :: Shown(data, s, i) && data[i].user == k && data[i].value == v
  {
    var st := states[n];
    RunKeepsInv(states, steps, n);
    ChildrenMergeable(st, sources, lists);
    MergeHoldsAll(st, sources, lists, data);
    InvUnique(st);
    RunReadsHistory(states, steps, n, k, s);
    ShownIsView(data, s, k, v);
  }
}
