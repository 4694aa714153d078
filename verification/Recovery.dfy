/** DBImpl::Recover and RecoverLogFile: replaying the logs into tables on level 0 (db/db_impl.cc). */
module Recovery {
  import opened Keys
  import Seqs
  import opened Lsm
  import opened LsmSafety
  import opened LsmNumbers
  import opened LsmRuns
  import opened Builder
  import opened VersionSet
  import opened Database

  /** The entries carry the sequence numbers from + 1, from + 2, ... */
  ghost predicate Consecutive(es: seq<Entry>, from: nat) {
    forall i :: 0 <= i < |es| ==> es[i].seqno == from + 1 + i
  }

  /** The tables written so far: one per slice of what has been replayed, numbered from `low` up to `next`. */
  ghost predicate Written(slices: seq<seq<Entry>>, files: seq<File>, low: nat, next: nat) {
    && low <= next && Recovered(slices, files, low, next)
    && (forall i :: 0 <= i < |slices| ==> slices[i] != [])
  }

  lemma {:induction false} WriteSlice(
    slices: seq<seq<Entry>>, files: seq<File>, low: nat, next: nat, slice: seq<Entry>, f: File)
    requires Written(slices, files, low, next) && slice != [] && f.number == next && SetOf(f.entries) == SetOf(slice)
    ensures Written(slices + [slice], files + [f], low, next + 1)
    ensures Flatten(slices + [slice]) == Flatten(slices) + slice
  {
    assert (slices + [slice])[..|slices|] == slices;
  }

  /** One memtable becomes a table, if it holds anything. */
  method FlushMem(now: bool, mem: seq<Entry>, ghost slice: seq<Entry>, files: seq<File>, ghost slices: seq<seq<Entry>>,
                  ghost low: nat, next: nat)
    returns (mem': seq<Entry>, ghost slice': seq<Entry>, files': seq<File>, ghost slices': seq<seq<Entry>>, next': nat)
    requires Sorted(mem) && SetOf(mem) == SetOf(slice) && Written(slices, files, low, next)
    ensures Sorted(mem') && SetOf(mem') == SetOf(slice') && Written(slices', files', low, next')
    ensures Flatten(slices') + slice' == Flatten(slices) + slice && next' >= next
    ensures if now && slice != [] then slices' == slices + [slice] && slice' == []
            else slices' == slices && slice' == slice
  {
    if !now || mem == [] {
      if slice != [] { assert slice[0] in SetOf(slice); assert mem != []; }
      return mem, slice, files, slices, next;
    }
    var f: File := FileData(next, mem);
    assert mem[0] in SetOf(mem);
    assert slice != [];
    WriteSlice(slices, files, low, next, slice, f);
    mem', slice', files', slices', next' := [], [], files + [f], slices + [slice], next + 1;
    assert Flatten(slices') + [] == Flatten(slices) + slice;
  }

  /** InsertInto: one record's entries go into the memtable. */
  method InsertBatch(batch: Batch, mem: seq<Entry>, ghost slice: seq<Entry>, ghost from: nat)
    returns (mem': seq<Entry>)
    requires Sorted(mem) && SetOf(mem) == SetOf(slice) && Consecutive(slice + batch, from)
    ensures Sorted(mem') && SetOf(mem') == SetOf(slice + batch)
  {
    mem' := mem;
    for i := 0 to |batch|
      invariant Sorted(mem') && SetOf(mem') == SetOf(slice + batch[..i])
    {
      ghost var upto := slice + batch[..i];
      assert slice + batch[..i + 1] == upto + [batch[i]];
      assert (slice + batch)[|slice| + i] == batch[i];
      forall x | x in mem' ensures x.seqno != batch[i].seqno {
        assert x in SetOf(mem');
        var j :| 0 <= j < |upto| && upto[j] == x;
        assert (slice + batch)[j] == x;
      }
      mem' := InsertSorted(mem', batch[i]);
      SetOfSplit(upto, [batch[i]]);
      assert SetOf([batch[i]]) == {batch[i]};
    }
    assert batch[..|batch|] == batch;
  }

  lemma {:induction false} FlattenTake(bs: seq<Batch>, i: nat)
    requires i < |bs|
    ensures Flatten(bs[..i + 1]) == Flatten(bs[..i]) + bs[i]
  {
    assert bs[..i + 1][..i] == bs[..i];
  }

  /** Flatten(bs[..i]) is a prefix of Flatten(bs). */
  lemma {:induction false} FlattenPrefix(bs: seq<Batch>, i: nat)
    requires i <= |bs|
    ensures |Flatten(bs[..i])| <= |Flatten(bs)| && Flatten(bs)[..|Flatten(bs[..i])|] == Flatten(bs[..i])
    decreases |bs| - i
  {
    if i == |bs| {
      assert bs[..i] == bs;
    } else {
      FlattenPrefix(bs, i + 1);
      FlattenTake(bs, i);
      var a, b, c := Flatten(bs[..i]), Flatten(bs[..i + 1]), Flatten(bs);
      assert c[..|a|] == c[..|b|][..|a|] == b[..|a|] == a;
    }
  }

  lemma SliceConsecutive(done: seq<Entry>, rest: seq<Entry>, prefix: seq<Entry>, slice: seq<Entry>, batch: Batch, from: nat)
    requires Consecutive(done + rest, from)
    requires |prefix + slice + batch| <= |done + rest| && (done + rest)[..|prefix + slice + batch|] == prefix + slice + batch
    ensures Consecutive(slice + batch, from + |prefix|)
  {
    forall i | 0 <= i < |slice + batch| ensures (slice + batch)[i].seqno == from + |prefix| + 1 + i {
      assert (prefix + slice + batch)[|prefix| + i] == (slice + batch)[i];
    }
  }

  /** One more record of the log. */
  lemma {:induction false} NextRecord(
    done: seq<Entry>, records: seq<Batch>, i: nat, prefix: seq<Entry>, slice: seq<Entry>, from: nat)
    requires i < |records| && prefix + slice == done + Flatten(records[..i])
    requires Consecutive(done + Flatten(records), from)
    ensures prefix + (slice + records[i]) == done + Flatten(records[..i + 1])
    ensures Consecutive(slice + records[i], from + |prefix|)
  {
    FlattenTake(records, i);
    FlattenPrefix(records, i + 1);
    assert prefix + slice + records[i] == done + Flatten(records[..i + 1]);
    assert prefix + (slice + records[i]) == prefix + slice + records[i];
    Prefixed(done, Flatten(records), Flatten(records[..i + 1]));
    SliceConsecutive(done, Flatten(records), prefix, slice, records[i], from);
  }

  lemma Prefixed(done: seq<Entry>, all: seq<Entry>, part: seq<Entry>)
    requires |part| <= |all| && all[..|part|] == part
    ensures (done + all)[..|done + part|] == done + part
  {}

  /** How the first `n` records of a log are cut into tables: after each record that fills the memtable. The second
      part is what is in the memtable still. */
  ghost function Cut(slices: seq<seq<Entry>>, records: seq<Batch>, n: nat, full: nat -> bool): (seq<seq<Entry>>, seq<Entry>)
    requires n <= |records|
  {
    if n == 0 then (slices, [])
    else
      var before := Cut(slices, records, n - 1, full);
      var slice := before.1 + records[n - 1];
      if full(n - 1) && slice != [] then (before.0 + [slice], []) else (before.0, slice)
  }

  /** RecoverLogFile: the records of one log go through a memtable that is written out whenever it is full, and at
      the end of the log. */
  method RecoverLogFile(records: seq<Batch>, ghost done: seq<Entry>, ghost from: nat, files: seq<File>,
                        ghost slices: seq<seq<Entry>>, ghost low: nat, next: nat, full: nat -> bool)
    returns (files': seq<File>, ghost slices': seq<seq<Entry>>, next': nat)
    requires Written(slices, files, low, next) && Flatten(slices) == done
    requires Consecutive(done + Flatten(records), from)
    ensures Written(slices', files', low, next') && Flatten(slices') == done + Flatten(records) && next' >= next
    ensures var cut := Cut(slices, records, |records|, full);
            slices' == if cut.1 == [] then cut.0 else cut.0 + [cut.1]
  {
    files', slices', next' := files, slices, next;
    var mem: seq<Entry> := [];
    ghost var slice: seq<Entry> := [];
    for i := 0 to |records|
      invariant Written(slices', files', low, next') && next' >= next
      invariant Sorted(mem) && SetOf(mem) == SetOf(slice)
      invariant Flatten(slices') + slice == done + Flatten(records[..i])
      invariant Cut(slices, records, i, full) == (slices', slice)
    {
      ghost var prefix := Flatten(slices');
      NextRecord(done, records, i, prefix, slice, from);
      mem := InsertBatch(records[i], mem, slice, from + |prefix|);
      slice := slice + records[i];
      mem, slice, files', slices', next' := FlushMem(full(i), mem, slice, files', slices', low, next');
    }
    assert records[..|records|] == records;
    mem, slice, files', slices', next' := FlushMem(true, mem, slice, files', slices', low, next');
    assert Flatten(slices') + [] == Flatten(slices');
  }

  ghost predicate Increasing(ns: seq<nat>) {
    forall i, j :: 0 <= i < j < |ns| ==> ns[i] < ns[j]
  }

  method InsertNumber(ns: seq<nat>, n: nat) returns (r: seq<nat>)
    requires Increasing(ns) && n !in ns
    ensures Increasing(r) && forall m :: m in r <==> m in ns || m == n
  {
    var p := 0;
    while p < |ns| && ns[p] < n
      invariant 0 <= p <= |ns| && forall i :: 0 <= i < p ==> ns[i] < n
    {
      p := p + 1;
    }
    forall i | p <= i < |ns| ensures n < ns[i] { assert ns[p] in ns && (i > p ==> ns[p] < ns[i]); }
    r := Seqs.InsertAt(ns, p, n);
  }

  /** The numbers of the logs to replay, in the order in which the logs were made. */
  method LiveLogNumbers(logs: map<nat, seq<Batch>>, min: nat) returns (order: seq<nat>)
    ensures Increasing(order) && forall n :: n in order <==> n in logs && n >= min
  {
    var todo := set n | n in logs && n >= min;
    order := [];
    while todo != {}
      invariant Increasing(order)
      invariant forall n :: n in order || n in todo <==> n in logs && n >= min
      invariant forall n :: n in order ==> n !in todo
      decreases todo
    {
      var n :| n in todo;
      todo := todo - {n};
      order := InsertNumber(order, n);
    }
  }

  method AddToLevel0(level0: seq<File>, files: seq<File>, ghost low: nat) returns (v: seq<File>)
    requires InOrder(level0) && Named(FileSet(level0)) && forall f :: f in level0 ==> f.number < low
    requires forall i :: 0 <= i < |files| ==> low <= files[i].number
    requires forall i, j :: 0 <= i < j < |files| ==> files[i].number < files[j].number
    ensures InOrder(v) && Named(FileSet(v)) && FileSet(v) == FileSet(level0) + FileSet(files)
  {
    v := level0;
    assert FileSet([]) == {};
    for i := 0 to |files|
      invariant InOrder(v) && Named(FileSet(v)) && FileSet(v) == FileSet(level0) + FileSet(files[..i])
      invariant forall f :: f in FileSet(v) ==> f.number < low || exists j :: 0 <= j < i && files[j] == f
    {
      assert FileSet([files[i]]) == {files[i]};
      forall f | f in v ensures f.number < files[i].number { assert f in FileSet(v); }
      assert files[..i + 1] == files[..i] + [files[i]];
      v := UpdateLevel(v, [], [files[i]]);
    }
    assert files[..|files|] == files;
  }

  lemma {:induction false} ReplaySnoc(logs: map<nat, seq<Batch>>, order: seq<nat>, i: nat)
    requires i < |order| && forall n :: n in order ==> n in logs
    ensures Replay(logs, order[..i + 1]) == Replay(logs, order[..i]) + Flatten(logs[order[i]])
  {
    assert order[..i + 1][..i] == order[..i];
  }

  lemma {:induction false} ReplayPrefix(logs: map<nat, seq<Batch>>, order: seq<nat>, i: nat)
    requires i <= |order| && forall n :: n in order ==> n in logs
    ensures |Replay(logs, order[..i])| <= |Replay(logs, order)|
    ensures Replay(logs, order)[..|Replay(logs, order[..i])|] == Replay(logs, order[..i])
    decreases |order| - i
  {
    if i == |order| {
      assert order[..i] == order;
    } else {
      ReplayPrefix(logs, order, i + 1);
      ReplaySnoc(logs, order, i);
      var a, b, c := Replay(logs, order[..i]), Replay(logs, order[..i + 1]), Replay(logs, order);
      assert c[..|a|] == c[..|b|][..|a|] == b[..|a|] == a;
    }
  }

  /** One more log. */
  lemma NextLog(logs: map<nat, seq<Batch>>, order: seq<nat>, i: nat, from: nat)
    requires i < |order| && (forall n :: n in order ==> n in logs) && Consecutive(Replay(logs, order), from)
    ensures Replay(logs, order[..i + 1]) == Replay(logs, order[..i]) + Flatten(logs[order[i]])
    ensures Consecutive(Replay(logs, order[..i]) + Flatten(logs[order[i]]), from)
  {
    ReplaySnoc(logs, order, i);
    ReplayPrefix(logs, order, i + 1);
    ConsecutivePrefix(Replay(logs, order), Replay(logs, order[..i + 1]), from);
  }

  lemma ConsecutivePrefix(all: seq<Entry>, part: seq<Entry>, from: nat)
    requires Consecutive(all, from) && |part| <= |all| && all[..|part|] == part
    ensures Consecutive(part, from)
  {
    forall j | 0 <= j < |part| ensures part[j].seqno == from + 1 + j { assert part[j] == all[..|part|][j]; }
  }

  /** One turn of DBImpl::Recover's loop: a log is replayed, and its number is marked as used. */
  method RecoverLog(
    logs: map<nat, seq<Batch>>, order: seq<nat>, i: nat, ghost from: nat, files: seq<File>, ghost slices: seq<seq<Entry>>,
    ghost low: nat, next: nat, full: nat -> bool)
    returns (files': seq<File>, ghost slices': seq<seq<Entry>>, next': nat)
    requires i < |order| && (forall n :: n in order ==> n in logs) && Consecutive(Replay(logs, order), from)
    requires Written(slices, files, low, next) && Flatten(slices) == Replay(logs, order[..i])
    ensures Written(slices', files', low, next') && Flatten(slices') == Replay(logs, order[..i + 1])
    ensures next <= next' && order[i] < next'
  {
    NextLog(logs, order, i, from);
    files', slices', next' := RecoverLogFile(logs[order[i]], Replay(logs, order[..i]), from, files, slices, low, next, full);
    assert Flatten(slices') == Replay(logs, order[..i + 1]);
    if next' <= order[i] { next' := order[i] + 1; }
  }

  /** The loop of DBImpl::Recover over the live logs. */
  method RecoverLogs(logs: map<nat, seq<Batch>>, order: seq<nat>, ghost from: nat, low: nat, full: nat -> nat -> bool)
    returns (files: seq<File>, ghost slices: seq<seq<Entry>>, next: nat)
    requires forall n :: n in order ==> n in logs
    requires Consecutive(Replay(logs, order), from)
    ensures Written(slices, files, low, next) && Flatten(slices) == Replay(logs, order)
    ensures forall n :: n in order ==> n < next
  {
    files, slices, next := [], [], low;
    for i := 0 to |order|
      invariant Written(slices, files, low, next) && Flatten(slices) == Replay(logs, order[..i])
      invariant forall j :: 0 <= j < i ==> order[j] < next
    {
      files, slices, next := RecoverLog(logs, order, i, from, files, slices, low, next, full(i));
    }
    assert order[..|order|] == order;
  }

  lemma TailConsecutive(st: State, torn: bool)
    requires MemInv(st)
    ensures Consecutive(Surviving(st, torn)[st.immFrom..], st.immFrom)
  {
    var whole := st.hist + Pending(st);
    forall i | 0 <= i < |Surviving(st, torn)| - st.immFrom
      ensures Surviving(st, torn)[st.immFrom..][i].seqno == st.immFrom + 1 + i
    {
      assert Surviving(st, torn)[st.immFrom..][i] == whole[st.immFrom + i];
    }
  }

  /** The recovered last sequence number: the manifest's, or the largest one replayed. */
  method LastSequence(es: seq<Entry>, manifestLast: nat) returns (r: nat)
    ensures r == if MaxSeq(es) > manifestLast then MaxSeq(es) else manifestLast
  {
    var m := 0;
    for i := 0 to |es|
      invariant m == MaxSeq(es[..i])
    {
      assert es[..i + 1][..i] == es[..i];
      if es[i].seqno > m { m := es[i].seqno; }
    }
    assert es[..|es|] == es;
    r := if m > manifestLast then m else manifestLast;
  }

  lemma OldLogsBelow(st: State, torn: bool, order: seq<nat>, next: nat)
    requires LogInv(st) && LiveLogs(DiskOf(st, torn), order) && forall n :: n in order ==> n < next
    ensures forall n :: n in st.logs ==> n < next
  {
    assert st.curLog in order && st.manifest.logNumber in order;
  }

  lemma NumbersBelow(st: State, levels: seq<seq<File>>)
    requires LogInv(st) && |levels| > 0 && st.levels == Sets(levels)
    ensures forall f :: f in levels[0] ==> f.number < st.manifest.nextFile
  {
    assert forall f :: f in levels[0] ==> f in st.levels[0];
  }

  /** The state that a recovered database starts from. */
  ghost function Restarted(levels: seq<set<File>>, level0: set<File>, last: nat, next: nat, hist: seq<Entry>): State
    requires |levels| > 0
  {
    State({}, None, levels[0 := level0], last, [], next + 1, map[next := []], next, Manifest(next, last, next + 1),
          None, 0, hist, |hist|, |hist|)
  }

  method Install(db: DBImpl, level0: seq<File>, last: nat, next: nat, ghost hist: seq<Entry>)
    requires db.Shape() && InOrder(level0) && Named(FileSet(level0))
    modifies db
    ensures db.Shape() && db.Abs() == Restarted(Sets(old(db.levels)), FileSet(level0), last, next, hist)
  {
    SetsUpdate(db.levels, 0, level0);
    db.mem, db.imm, db.levels, db.lastSeq, db.snapshots := [], None, db.levels[0 := level0], last, [];
    db.nextFile, db.logs, db.curLog, db.manifest := next + 1, map[next := []], next, Manifest(next, last, next + 1);
    db.inflight, db.inserted := None, 0;
    db.hist, db.immFrom, db.memFrom := hist, |hist|, |hist|;
    assert SetOf([]) == {};
  }

  /** The logs that a crash leaves, read back into level-0 tables. */
  method ReadBack(db: DBImpl, torn: bool, full: nat -> nat -> bool)
    returns (level0: seq<File>, last: nat, next: nat, ghost order: seq<nat>, ghost slices: seq<seq<Entry>>,
             ghost files: seq<File>)
    requires db.Valid()
    ensures InOrder(level0) && Named(FileSet(level0))
    ensures CrashNext(db.Abs(), torn, order, slices, files,
                      Restarted(Sets(db.levels), FileSet(level0), last, next, Surviving(db.Abs(), torn)))
  {
    ghost var st := db.Abs();
    var numbers := LiveLogNumbers(db.logs, db.manifest.logNumber);
    order := numbers;
    var records := db.logs[db.curLog];
    var logs := if torn && db.inflight.Some? && records != []
                then db.logs[db.curLog := records[..|records| - 1]] else db.logs;
    ReplayIsTail(st, torn, order);
    TailConsecutive(st, torn);
    var tables;
    tables, slices, next := RecoverLogs(logs, numbers, st.immFrom, db.manifest.nextFile, full);
    files := tables;
    last := LastSequence(Replay(logs, numbers), db.manifest.lastSeq);
    NumbersBelow(st, db.levels);
    level0 := AddToLevel0(db.levels[0], tables, db.manifest.nextFile);
    OldLogsBelow(st, torn, order, next);
  }

  /** A crash, then DB::Open: the logs that survive are replayed, and the database starts over with an empty memtable. */
  method Reopen(db: DBImpl, torn: bool, full: nat -> nat -> bool) returns (ghost step: Step)
    requires db.Valid()
    modifies db
    ensures db.Valid() && step.Crash? && step.torn == torn && Next(old(db.Abs()), step, db.Abs())
  {
    ghost var st := db.Abs();
    var level0, last, next;
    ghost var order, slices, files;
    level0, last, next, order, slices, files := ReadBack(db, torn, full);
    Install(db, level0, last, next, Surviving(st, torn));
    step := Crash(torn, order, slices, files);
    CrashKeepsInv(st, torn, order, slices, files, db.Abs());
    StepKeepsNumbers(st, step, db.Abs());
  }
}
