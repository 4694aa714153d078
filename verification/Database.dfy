/** The engine's own form: an object whose fields are vectors and counters, updated by methods (db/db_impl.cc).
    Every method is one step of the transition system in module `Lsm`. */
module Database {
  import opened Keys
  import Seqs
  import opened Lsm
  import opened LsmSafety
  import opened LsmNumbers
  import opened LsmRuns
  import opened LsmReads
  import opened Builder
  import opened VersionSet
  import VersionGet

  ghost predicate KeysDiffer(es: seq<Entry>, e: Entry) {
    forall x :: x in es ==> x.seqno != e.seqno
  }

  /** MemTable::Add: insertion at the entry's place in the sorted list. */
  method InsertSorted(es: seq<Entry>, e: Entry) returns (r: seq<Entry>)
    requires Sorted(es) && KeysDiffer(es, e)
    ensures Sorted(r) && SetOf(r) == SetOf(es) + {e}
  {
    var p := 0;
    while p < |es| && Less(es[p], e)
      invariant 0 <= p <= |es|
      invariant forall i :: 0 <= i < p ==> Less(es[i], e)
    {
      p := p + 1;
    }
    if p < |es| {
      assert es[p] in es;
      forall i | p <= i < |es| ensures Less(e, es[i]) { assert i > p ==> Less(es[p], es[i]); }
    }
    r := Seqs.InsertAt(es, p, e);
  }

  lemma OrderOfDisjoint(fs: seq<File>)
    requires InOrder(fs) && Disjoint(FileSet(fs))
    ensures SortedFiles(fs)
  {
    forall i, j | 0 <= i < j < |fs| ensures FileBefore(fs[i], fs[j]) {
      assert BySmallest(fs[i], fs[j]);
      assert fs[i] in FileSet(fs) && fs[j] in FileSet(fs);
      if fs[i] != fs[j] && FileBefore(fs[j], fs[i]) { InRange(fs[j], Largest(fs[j])); }
    }
  }

  lemma SortedIsOrdered(fs: seq<File>)
    requires SortedFiles(fs)
    ensures InOrder(fs) && Disjoint(FileSet(fs))
  {
    forall i, j | 0 <= i < j < |fs| ensures BySmallest(fs[i], fs[j]) { SortedWithin(fs, i, j); }
    forall f, g | f in FileSet(fs) && g in FileSet(fs) && f != g ensures FileBefore(f, g) || FileBefore(g, f) {
      var i :| 0 <= i < |fs| && fs[i] == f;
      var j :| 0 <= j < |fs| && fs[j] == g;
    }
  }

  /** AddInputDeletions: the numbers of the files to delete. */
  method InputDeletions(inputs: seq<File>) returns (deleted: set<nat>)
    ensures deleted == Numbers(FileSet(inputs))
  {
    deleted := {};
    for i := 0 to |inputs|
      invariant forall n :: n in deleted <==> exists j :: 0 <= j < i && inputs[j].number == n
    {
      deleted := deleted + {inputs[i].number};
    }
    forall n | n in deleted ensures n in Numbers(FileSet(inputs)) {
      var j :| 0 <= j < |inputs| && inputs[j].number == n;
      assert inputs[j] in FileSet(inputs);
    }
    forall f | f in FileSet(inputs) ensures f.number in deleted {
      var j :| 0 <= j < |inputs| && inputs[j] == f;
    }
  }

  /** Removing some files from a level by number and adding others. */
  method UpdateLevel(base: seq<File>, remove: seq<File>, add: seq<File>) returns (v: seq<File>)
    requires InOrder(base) && InOrder(add) && Distinct(base, add)
    requires Named(FileSet(base)) && FileSet(remove) <= FileSet(base)
    ensures InOrder(v) && FileSet(v) == FileSet(base) - FileSet(remove) + FileSet(add)
  {
    var deleted := InputDeletions(remove);
    v := SaveLevel(base, deleted, add);
    forall f | f in base ensures f.number in deleted <==> f in remove {
      assert f in FileSet(base);
      if f.number in deleted {
        var g :| g in remove && g.number == f.number;
        assert g in FileSet(remove);
      }
    }
    forall g | g in remove ensures g in base { assert g in FileSet(remove); }
    assert forall f :: f in add ==> f.number !in deleted;
  }

  /** The merged entries of some tables, in order: what the compaction's input iterator yields. */
  method MergeInputs(files: seq<File>) returns (merged: seq<Entry>)
    requires UniqueSeqs(Contents(FileSet(files)))
    ensures Sorted(merged) && SetOf(merged) == Contents(FileSet(files))
  {
    merged := [];
    for i := 0 to |files|
      invariant Sorted(merged) && SetOf(merged) == Contents(FileSet(files[..i]))
    {
      var es := files[i].entries;
      assert files[..i + 1] == files[..i] + [files[i]];
      assert FileSet(files[..i + 1]) == FileSet(files[..i]) + {files[i]};
      assert forall e :: e in Contents(FileSet(files[..i + 1])) <==> e in SetOf(merged) || e in es;
      assert files[i] in FileSet(files);
      forall f | f in files[..i] ensures f in FileSet(files) {}
      ghost var before := merged;
      for j := 0 to |es|
        invariant Sorted(merged) && SetOf(merged) == SetOf(before) + SetOf(es[..j])
      {
        assert es[..j + 1] == es[..j] + [es[j]];
        if es[j] !in merged {
          forall x | x in merged ensures x.seqno != es[j].seqno {
            assert x in SetOf(merged);
            assert es[j] in es;
            assert x in Contents(FileSet(files)) && es[j] in Contents(FileSet(files));
          }
          merged := InsertSorted(merged, es[j]);
        }
        assert SetOf(es[..j + 1]) == SetOf(es[..j]) + {es[j]};
      }
      assert es[..|es|] == es;
    }
    assert files[..|files|] == files;
  }

  /** Every level is in the builder's order, and below level 0 the files are disjoint. */
  ghost predicate GoodLevels(levels: seq<seq<File>>) {
    && |levels| == NUM_LEVELS
    && (forall i :: 0 <= i < NUM_LEVELS ==> InOrder(levels[i]) && Named(FileSet(levels[i])))
    && (forall i :: 1 <= i < NUM_LEVELS ==> SortedFiles(levels[i]))
  }

  lemma SetsUpdate(levels: seq<seq<File>>, i: nat, v: seq<File>)
    requires i < |levels|
    ensures Sets(levels[i := v]) == Sets(levels)[i := FileSet(v)]
  {}

  lemma GoodFromSets(levels: seq<seq<File>>)
    requires Shaped(Sets(levels))
    requires forall i :: 0 <= i < |levels| ==> InOrder(levels[i]) && Named(FileSet(levels[i]))
    ensures GoodLevels(levels)
  {
    forall i | 1 <= i < NUM_LEVELS ensures SortedFiles(levels[i]) {
      assert Sets(levels)[i] == FileSet(levels[i]);
      OrderOfDisjoint(levels[i]);
    }
  }

  /** The numbers and sequence numbers in use are below the engine's counters. */
  ghost predicate Bounded(levels: seq<seq<File>>, next: nat, last: nat) {
    forall i, g :: 0 <= i < |levels| && g in levels[i] ==> g.number < next && Largest(g).seqno <= last
  }

  /** WriteLevel0Table: a new table, on the level picked for it. */
  method WriteLevel0Table(levels: seq<seq<File>>, f: File, last: nat, roomy: nat -> bool)
    returns (levels': seq<seq<File>>, level: nat)
    requires GoodLevels(levels) && Bounded(levels, f.number, last) && last <= MAX_SEQUENCE
    requires Shaped(Sets(levels)) && Ordered(Sets(levels))
    requires forall e :: e in f.entries ==> forall x :: x in Stored(Sets(levels)) ==> x.seqno < e.seqno
    ensures GoodLevels(levels') && MayPlace(Sets(levels), f, level) && DeepestPlace(levels, f, roomy, level)
    ensures Sets(levels') == Sets(levels)[level := Sets(levels)[level] + {f}]
  {
    level := PickLevelForMemTableOutput(levels, f, roomy);
    assert FileSet([f]) == {f} && FileSet([]) == {};
    var files := UpdateLevel(levels[level], [], [f]);
    levels' := levels[level := files];
    SetsUpdate(levels, level, files);
    assert FileSet(files) == FileSet(levels[level]) + {f};
    forall g | g in FileSet(levels[level]) ensures g.number < f.number { assert g in levels[level]; }
    PlaceKeepsShape(Sets(levels), f, level);
    GoodFromSets(levels');
  }

  lemma PlaceKeepsShape(sets: seq<set<File>>, f: File, level: nat)
    requires Shaped(sets) && MayPlace(sets, f, level)
    requires level == 0 ==> forall g :: g in sets[0] ==> g.number < f.number
    ensures Shaped(sets[level := sets[level] + {f}])
  {
    forall g | level > 0 && g in sets[level] { NoSharedKeys(g, f); }
  }

  lemma InvBounds(st: State, levels: seq<seq<File>>)
    requires Inv(st) && st.levels == Sets(levels)
    ensures Bounded(levels, st.nextFile, st.lastSeq)
  {
    StoredInHistory(st);
    forall i, g | 0 <= i < |levels| && g in levels[i] ensures g.number < st.nextFile && Largest(g).seqno <= st.lastSeq {
      assert g in st.levels[i];
      assert Largest(g) in g.entries && Largest(g) in Contents(st.levels[i]) && Largest(g) in Stored(st.levels);
    }
  }

  /** The inputs are closed on level 0: every file that meets their range is one of them. */
  ghost predicate Seeded(levels: seq<seq<File>>, level: nat, inputs: seq<File>) {
    && |levels| == NUM_LEVELS && level + 1 < NUM_LEVELS
    && inputs != [] && FileSet(inputs) <= FileSet(levels[level])
    && (level == 0 ==> forall f, a, b :: f in levels[0] && IsRange(FileSet(inputs), a, b) && Overlaps(f, a, b)
                         ==> f in inputs)
  }

  /** PickCompaction: one file of the level; on level 0, with every file its range reaches. */
  method PickCompaction(levels: seq<seq<File>>, level: nat, i: nat) returns (inputs: seq<File>)
    requires |levels| == NUM_LEVELS && level + 1 < NUM_LEVELS && i < |levels[level]|
    ensures Seeded(levels, level, inputs) && levels[level][i] in inputs
    ensures if level == 0 then Reached(levels, 0, [levels[0][i]], inputs) else inputs == [levels[level][i]]
  {
    inputs := [levels[level][i]];
    if level == 0 {
      var f := levels[0][i];
      ghost var lo, hi;
      inputs, lo, hi := GetOverlappingInputs(true, levels[0], Some(Smallest(f).user), Some(Largest(f).user));
      InRange(f, Largest(f));
      assert Meets(f, lo, hi);
      SingleRange(f);
      ReachesOneRange(levels, 0, [f], inputs, Smallest(f).user, Largest(f).user, lo, hi);
      forall g, a, b | g in levels[0] && IsRange(FileSet(inputs), a, b) && Overlaps(g, a, b) ensures g in inputs {
        StableIsClosed(levels[0], inputs, lo, hi, a, b, g);
      }
    }
  }

  lemma SingleRange(f: File)
    ensures IsRange(FileSet([f]), Smallest(f).user, Largest(f).user)
  {
    assert f in FileSet([f]);
  }

  /** CompactRange: on level 0 all files that the range reaches; below, the files that meet it, cut after the first one
      that makes their sizes add up to the limit. */
  method CompactRange(
    levels: seq<seq<File>>, level: nat, begin: Option<UserKey>, end: Option<UserKey>, bytes: File -> nat, limit: nat)
    returns (inputs: seq<File>)
    requires |levels| == NUM_LEVELS && level + 1 < NUM_LEVELS
    ensures inputs != [] ==> Seeded(levels, level, inputs)
    ensures inputs == [] <==> forall f :: f in levels[level] ==> !Meets(f, begin, end)
    ensures level == 0 ==>
              exists lo, hi :: LeastStable(levels[0], begin, end, lo, hi) && inputs == MeetingFiles(levels[0], lo, hi)
    ensures level > 0 ==>
              var all := MeetingFiles(levels[level], begin, end);
              && |inputs| <= |all| && inputs == all[..|inputs|]
              && (forall n :: 0 < n < |inputs| ==> TotalSize(bytes, all, n) < limit)
              && (|inputs| < |all| ==> TotalSize(bytes, all, |inputs|) >= limit)
    ensures level > 0 ==> forall f :: f in inputs ==> f in levels[level] && Meets(f, begin, end)
  {
    ghost var lo, hi;
    inputs, lo, hi := GetOverlappingInputs(level == 0, levels[level], begin, end);
    if level > 0 {
      inputs := CutAt(inputs, bytes, limit);
      if inputs != [] { assert inputs[0] in inputs; }
    } else {
      if inputs == [] {
        assert forall f :: f in levels[0] ==> !Meets(f, lo, hi);
        assert forall f :: f in levels[0] && Meets(f, begin, end) ==> Meets(f, lo, hi);
      } else {
        assert inputs[0] in inputs;
        LeastRangeIsTouched(levels[0], begin, end, lo, hi);
      }
      forall g, a, b | inputs != [] && g in levels[0] && IsRange(FileSet(inputs), a, b) && Overlaps(g, a, b)
        ensures g in inputs
      {
        StableIsClosed(levels[0], inputs, lo, hi, a, b, g);
      }
    }
  }

  /** The loop of CompactRange. */
  method CutAt(all: seq<File>, bytes: File -> nat, limit: nat) returns (r: seq<File>)
    ensures |r| <= |all| && r == all[..|r|] && (all != [] ==> r != [])
    ensures forall n :: 0 < n < |r| ==> TotalSize(bytes, all, n) < limit
    ensures |r| < |all| ==> TotalSize(bytes, all, |r|) >= limit
    ensures forall f :: f in r ==> f in all
  {
    var total := 0;
    for i := 0 to |all|
      invariant total == TotalSize(bytes, all, i)
      invariant forall n :: 0 < n <= i ==> TotalSize(bytes, all, n) < limit
    {
      total := total + bytes(all[i]);
      if total >= limit { return all[..i + 1]; }
    }
    r := all;
  }

  /** If no file meets the query, the least stable range around it is the query itself. */
  lemma LeastRangeIsTouched(files: seq<File>, qlo: Option<UserKey>, qhi: Option<UserKey>,
                            lo: Option<UserKey>, hi: Option<UserKey>)
    requires LeastStable(files, qlo, qhi, lo, hi)
    ensures (exists f :: f in files && Meets(f, lo, hi)) ==> exists f :: f in files && Meets(f, qlo, qhi)
  {
    if !exists f :: f in files && Meets(f, qlo, qhi) {
      assert Stable(files, qlo, qhi) && Within(qlo, qhi, qlo, qhi);
    }
  }

  /** The levels after a compaction, before they are installed. */
  method ReplaceFiles(
    levels: seq<seq<File>>, level: nat, ghost c: Inputs, in0: seq<File>, in1: seq<File>, outputs: seq<File>, next: nat)
    returns (levels': seq<seq<File>>)
    requires GoodLevels(levels) && Shaped(Sets(levels)) && Picked(Sets(levels), c)
    requires c.level == level && c.upper == FileSet(in0) && c.lower == FileSet(in1)
    requires forall i, g :: 0 <= i < NUM_LEVELS && g in levels[i] ==> g.number < next
    requires SortedFiles(outputs) && forall i :: 0 <= i < |outputs| ==> outputs[i].number == next + i
    requires Contents(FileSet(outputs)) <= Contents(c.upper + c.lower)
    ensures GoodLevels(levels') && Sets(levels') == Replace(Sets(levels), c, FileSet(outputs))
  {
    SortedIsOrdered(outputs);
    assert FileSet([]) == {};
    assert Sets(levels)[level] == FileSet(levels[level]) && Sets(levels)[level + 1] == FileSet(levels[level + 1]);
    NumbersApart(levels[level + 1], outputs, next);
    var upper := UpdateLevel(levels[level], in0, []);
    var lower := UpdateLevel(levels[level + 1], in1, outputs);
    levels' := levels[level := upper][level + 1 := lower];
    SetsUpdate(levels, level, upper);
    SetsUpdate(levels[level := upper], level + 1, lower);
    assert FileSet(upper) == FileSet(levels[level]) - c.upper;
    assert FileSet(lower) == (FileSet(levels[level + 1]) - c.lower) + FileSet(outputs);
    ReplaceKeepsShape(Sets(levels), c, FileSet(outputs));
    assert Sets(levels') == Replace(Sets(levels), c, FileSet(outputs));
    NamedTogether(levels[level + 1], outputs);
    assert Named(FileSet(upper)) && Named(FileSet(lower));
    GoodFromSets(levels');
  }

  lemma NumbersApart(files: seq<File>, outputs: seq<File>, next: nat)
    requires forall g :: g in files ==> g.number < next
    requires forall i :: 0 <= i < |outputs| ==> outputs[i].number == next + i
    ensures Distinct(files, outputs) && Named(FileSet(outputs))
  {
    forall g | g in outputs ensures g.number >= next { var i :| 0 <= i < |outputs| && outputs[i] == g; }
    forall f, g | f in FileSet(outputs) && g in FileSet(outputs) && f.number == g.number ensures f == g {
      var i :| 0 <= i < |outputs| && outputs[i] == f;
      var j :| 0 <= j < |outputs| && outputs[j] == g;
    }
  }

  lemma NamedTogether(files: seq<File>, outputs: seq<File>)
    requires Distinct(files, outputs) && Named(FileSet(files)) && Named(FileSet(outputs))
    ensures Named(FileSet(files) + FileSet(outputs))
  {}

  /** DoCompactionWork on seeded inputs, up to the new levels. */
  method MergeLevels(
    levels: seq<seq<File>>, level: nat, inputs: seq<File>, bytes: File -> nat, limit: nat, snap: nat, next: nat,
    stop: nat -> bool, full: nat -> bool)
    returns (levels': seq<seq<File>>, outputs: seq<File>, ghost c: Inputs)
    requires GoodLevels(levels) && Shaped(Sets(levels)) && UniqueSeqs(Stored(Sets(levels)))
    requires Seeded(levels, level, inputs) && snap < MAX_SEQUENCE
    requires forall i, g :: 0 <= i < NUM_LEVELS && g in levels[i] ==> g.number < next
    ensures GoodLevels(levels') && c.level == level && FileSet(inputs) <= c.upper
    ensures ChosenFiles(levels, level, inputs, bytes, limit, c.upper, c.lower)
    ensures Picked(Sets(levels), c) && Outputs(Sets(levels), c, snap, FileSet(outputs))
    ensures Sets(levels') == Replace(Sets(levels), c, FileSet(outputs))
    ensures Named(FileSet(outputs)) && forall f :: f in FileSet(outputs) ==> next <= f.number < next + |outputs|
    ensures forall e :: e in Contents(FileSet(outputs)) && e.typ.Deletion? && e.seqno <= snap ==>
              exists i, f :: level + 2 <= i < NUM_LEVELS && f in levels[i] && Smallest(f).user <= e.user <= Largest(f).user
  {
    ghost var lo, hi;
    var in0, in1;
    ghost var base, more0, more1;
    in0, in1, lo, hi, base, more0, more1 := SetupOtherInputs(levels, level, inputs, bytes, limit);
    c := Inputs(level, FileSet(in0), FileSet(in1), lo, hi);
    assert FileSet(in0 + in1) == c.upper + c.lower;
    InputsUnique(Sets(levels), c);
    var merged := MergeInputs(in0 + in1);
    var compaction := new Compaction(levels, level);
    outputs := DoCompactionWork(compaction, merged, snap, next, stop, full);
    KeptAreOutputs(levels, c, merged, snap, outputs);
    levels' := ReplaceFiles(levels, level, c, in0, in1, outputs, next);
    NumberedFrom(outputs, next);
  }

  lemma NumberedFrom(fs: seq<File>, next: nat)
    requires forall i :: 0 <= i < |fs| ==> fs[i].number == next + i
    ensures Named(FileSet(fs)) && forall f :: f in FileSet(fs) ==> next <= f.number < next + |fs|
  {
    forall f | f in FileSet(fs) ensures next <= f.number < next + |fs| && fs[f.number - next] == f {
      var i :| 0 <= i < |fs| && fs[i] == f;
    }
  }

  lemma InputsUnique(sets: seq<set<File>>, c: Inputs)
    requires Picked(sets, c) && UniqueSeqs(Stored(sets))
    ensures UniqueSeqs(Contents(c.upper + c.lower))
  {
    ReplaceSplits(sets, c, {});
  }

  lemma KeptAreOutputs(levels: seq<seq<File>>, c: Inputs, merged: seq<Entry>, snap: nat, outputs: seq<File>)
    requires Picked(Sets(levels), c) && SetOf(merged) == Contents(c.upper + c.lower) && SortedFiles(outputs)
    requires Contents(FileSet(outputs)) == Survivors(merged, |merged|, levels, c.level, snap)
    ensures Outputs(Sets(levels), c, snap, FileSet(outputs))
    ensures Contents(FileSet(outputs)) <= Contents(c.upper + c.lower)
  {
    SortedIsOrdered(outputs);
    assert merged[..|merged|] == merged;
    assert forall e :: e in merged <==> e in SetOf(merged);
  }

  datatype Op = Op(user: UserKey, typ: ValueType, value: Value)

  /** WriteBatchInternal::SetSequence and MemTableInserter: consecutive sequence numbers from `first` on. */
  function Numbering(ops: seq<Op>, first: nat): Batch {
    seq(|ops|, i requires 0 <= i < |ops| => Entry(ops[i].user, first + i, ops[i].typ, ops[i].value))
  }

  function NoFiles(): seq<seq<File>> { seq(NUM_LEVELS, i => []) }

  lemma NoFilesAreGood()
    ensures Sets(NoFiles()) == seq(NUM_LEVELS, i => {}) && GoodLevels(NoFiles()) && OneNumberEach(Sets(NoFiles()))
  {
    forall i | 0 <= i < NUM_LEVELS ensures Sets(NoFiles())[i] == {} {}
  }

  class DBImpl {
    var mem: seq<Entry>
    var imm: Option<seq<Entry>>
    var levels: seq<seq<File>>
    var lastSeq: nat
    var snapshots: seq<nat>
    var nextFile: nat
    var logs: map<nat, seq<Batch>>
    var curLog: nat
    var manifest: Manifest
    var inflight: Option<Batch>
    var inserted: nat
    ghost var hist: seq<Entry>
    ghost var immFrom: nat
    ghost var memFrom: nat

    /** The abstract state the fields stand for. */
    ghost function Abs(): State
      reads this
    {
      State(SetOf(mem), if imm.Some? then Some(SetOf(imm.value)) else None, Sets(levels),
            lastSeq, snapshots, nextFile, logs, curLog, manifest, inflight, inserted, hist, immFrom, memFrom)
    }

    /** The vectors are in the order that searches rely on. */
    ghost predicate Shape()
      reads this
    {
      && Sorted(mem) && (imm.Some? ==> Sorted(imm.value))
      && GoodLevels(levels)
    }

    ghost predicate Valid()
      reads this
    {
      Shape() && Inv(Abs()) && OneNumberEach(Abs().levels)
    }

    constructor (log: nat, next: nat)
      requires log < next
      ensures Valid() && Init(Abs())
    {
      mem, imm, levels, lastSeq, snapshots := [], None, NoFiles(), 0, [];
      nextFile, logs, curLog, manifest := next, map[log := []], log, Manifest(log, 0, next);
      inflight, inserted, hist, immFrom, memFrom := None, 0, [], 0, 0;
      new;
      NoFilesAreGood();
      assert Init(Abs()) by { assert SetOf([]) == {}; }
      InitInv(Abs());
    }

    /** The log record of a write group (DBImpl::Write, up to AddRecord). */
    method LogGroup(ops: seq<Op>)
      requires Valid() && inflight.None?
      modifies this
      ensures Valid() && Next(old(Abs()), LogAppend(Numbering(ops, old(lastSeq) + 1)), Abs())
    {
      var batch := Numbering(ops, lastSeq + 1);
      inflight, inserted, logs := Some(batch), 0, logs[curLog := logs[curLog] + [batch]];
      StepKeepsInv(old(Abs()), LogAppend(batch), Abs());
    }

    /** InsertInto: one entry of the group after the other. */
    method InsertNext()
      requires Valid() && inflight.Some? && inserted < |inflight.value|
      modifies this
      ensures Valid() && Next(old(Abs()), MemInsert, Abs())
    {
      var e := inflight.value[inserted];
      assert KeysDiffer(mem, e) by { MemIsBefore(Abs()); }
      mem := InsertSorted(mem, e);
      inserted := inserted + 1;
      StepKeepsInv(old(Abs()), MemInsert, Abs());
    }

    method CommitGroup()
      requires Valid() && inflight.Some? && inserted == |inflight.value|
      modifies this
      ensures Valid() && Next(old(Abs()), Commit, Abs())
    {
      lastSeq := lastSeq + |inflight.value|;
      hist := hist + inflight.value;
      inflight, inserted := None, 0;
      StepKeepsInv(old(Abs()), Commit, Abs());
    }

    /** A whole write: log, memtable, then the new last sequence number. */
    method Write(ops: seq<Op>)
      requires Valid() && inflight.None?
      modifies this
      ensures Valid() && inflight.None?
      ensures hist == old(hist) + Numbering(ops, old(lastSeq) + 1) && lastSeq == old(lastSeq) + |ops|
      ensures snapshots == old(snapshots)
    {
      LogGroup(ops);
      while inserted < |ops|
        invariant Valid() && inflight == Some(Numbering(ops, old(lastSeq) + 1)) && inserted <= |ops|
        invariant hist == old(hist) && lastSeq == old(lastSeq) && snapshots == old(snapshots)
        decreases |ops| - inserted
      {
        InsertNext();
      }
      CommitGroup();
    }

    /** A new log and a new memtable. */
    method StartMemTable()
      requires Shape() && imm.None?
      modifies this
      ensures Shape()
      ensures Abs() == old(Abs()).(imm := Some(old(Abs()).mem), mem := {}, curLog := old(nextFile),
                                   nextFile := old(nextFile) + 1, logs := old(logs)[old(nextFile) := []],
                                   memFrom := |old(hist)|)
    {
      logs := logs[nextFile := []];
      curLog, nextFile := nextFile, nextFile + 1;
      imm, mem := Some(mem), [];
      memFrom := |hist|;
      assert SetOf([]) == {};
    }

    /** MakeRoomForWrite, the branch that switches memtables. */
    method SwitchMemTable()
      requires Valid() && inflight.None? && imm.None?
      modifies this
      ensures Valid() && Next(old(Abs()), Switch, Abs())
    {
      ghost var st := Abs();
      StartMemTable();
      SwitchKeepsInv(st, Abs());
    }

    method GetSnapshot() returns (s: nat)
      requires Valid()
      modifies this
      ensures Valid() && Next(old(Abs()), TakeSnapshot, Abs()) && s == lastSeq
    {
      snapshots := snapshots + [lastSeq];
      s := lastSeq;
      StepKeepsInv(old(Abs()), TakeSnapshot, Abs());
    }

    method ReleaseSnapshot(i: nat)
      requires Valid() && i < |snapshots|
      modifies this
      ensures Valid() && Next(old(Abs()), Release(i), Abs())
    {
      snapshots := snapshots[..i] + snapshots[i + 1..];
      StepKeepsInv(old(Abs()), Release(i), Abs());
    }

    /** DBImpl::Get at a live snapshot, or at the last sequence number. */
    method Get(k: UserKey, s: nat) returns (r: Option<Value>)
      requires Valid() && Live(Abs(), s)
      ensures r == View(SetOf(hist), k, s)
    {
      ghost var st := Abs();
      var e := VersionGet.SortedGet(mem, k, s);
      if e.None? && imm.Some? { e := VersionGet.SortedGet(imm.value, k, s); }
      if e.None? { e := VersionGet.Get(levels, k, s); }
      LiveIsCurrent(st, s);
      StateReadsHistory(st, k, s);
      if e.Some? {
        assert StopsAt(st.mem, ImmOf(st), st.levels, k, s, e.value);
        InvUnique(st);
        StopIsNewest(st, k, s, e.value);
        ViewIs(st.mem + ImmOf(st) + Stored(st.levels), k, s, e.value);
        r := if e.value.typ.Put? then Some(e.value.value) else None;
      } else {
        ViewIsNone(st.mem + ImmOf(st) + Stored(st.levels), k, s);
        r := None;
      }
    }

    /** The edit of a memtable flush, applied: new levels, the memtable gone, its log let go. */
    method InstallFlush(levels': seq<seq<File>>, next: nat)
      requires GoodLevels(levels') && Shape()
      modifies this
      ensures Shape() && imm.None?
      ensures Abs() == old(Abs()).(imm := None, levels := Sets(levels'), nextFile := next, immFrom := old(memFrom),
                                   logs := map n | n in old(logs) && n >= old(curLog) :: old(logs)[n],
                                   manifest := Manifest(old(curLog), old(lastSeq), next))
    {
      levels, nextFile, imm, immFrom := levels', next, None, memFrom;
      logs := map n | n in logs && n >= curLog :: logs[n];
      manifest := Manifest(curLog, lastSeq, nextFile);
    }

    /** CompactMemTable: the immutable memtable becomes a table on the picked level. */
    method CompactMemTable(roomy: nat -> bool) returns (ghost step: Step)
      requires Valid() && imm.Some? && lastSeq <= MAX_SEQUENCE
      modifies this
      ensures Valid() && Next(old(Abs()), step, Abs()) && Flushed(old(levels), old(imm).value, old(nextFile), roomy, step)
    {
      ghost var st := Abs();
      step := FlushMemTable(roomy);
      StepKeepsValid(st, step, Abs());
    }

    /** CompactMemTable, up to the invariant. */
    method FlushMemTable(roomy: nat -> bool) returns (ghost step: Step)
      requires Valid() && imm.Some? && lastSeq <= MAX_SEQUENCE
      modifies this
      ensures Shape() && Next(old(Abs()), step, Abs()) && Flushed(old(levels), old(imm).value, old(nextFile), roomy, step)
    {
      ghost var st := Abs();
      if imm.value == [] {
        assert SetOf(imm.value) == {};
        step := Flush(None, 0);
        InstallFlush(levels, nextFile);
      } else {
        var f: File := FileData(nextFile, imm.value);
        InvBounds(st, levels);
        ImmIsNewest(st, f);
        var levels', level := WriteLevel0Table(levels, f, lastSeq, roomy);
        step := Flush(Some(f), level);
        InstallFlush(levels', nextFile + 1);
      }
    }

    /** The edit of a move or a compaction, applied. */
    method InstallLevels(levels': seq<seq<File>>, next: nat)
      requires GoodLevels(levels') && Shape()
      modifies this
      ensures Shape()
      ensures Abs() == old(Abs()).(levels := Sets(levels'), nextFile := next,
                                   manifest := old(manifest).(lastSeq := old(lastSeq), nextFile := next))
    {
      levels, nextFile := levels', next;
      manifest := manifest.(lastSeq := lastSeq, nextFile := next);
    }

    /** BackgroundCompaction, the branch that merges: from seeded inputs to the installed result. */
    method CompactInputs(level: nat, inputs: seq<File>, bytes: File -> nat, limit: nat, stop: nat -> bool, full: nat -> bool)
      returns (ghost step: Step)
      requires Valid() && Seeded(levels, level, inputs) && lastSeq < MAX_SEQUENCE
      modifies this
      ensures step.Compact? && Next(old(Abs()), step, Abs()) && (StepComplete(old(Abs()), step) ==> Valid())
      ensures step.c.level == level && ChosenFiles(old(levels), level, inputs, bytes, limit, step.c.upper, step.c.lower)
    {
      ghost var st := Abs();
      step := MergeInputFiles(level, inputs, bytes, limit, stop, full);
      StepKeepsValid(st, step, Abs());
    }

    /** The same, up to the invariant. */
    method MergeInputFiles(
      level: nat, inputs: seq<File>, bytes: File -> nat, limit: nat, stop: nat -> bool, full: nat -> bool)
      returns (ghost step: Step)
      requires Valid() && Seeded(levels, level, inputs) && lastSeq < MAX_SEQUENCE
      modifies this
      ensures Shape() && step.Compact? && Next(old(Abs()), step, Abs())
      ensures step.c.level == level && ChosenFiles(old(levels), level, inputs, bytes, limit, step.c.upper, step.c.lower)
    {
      ghost var st := Abs();
      InvBounds(st, levels);
      StoredInHistory(st);
      var snap := if snapshots == [] then lastSeq else snapshots[0];
      SnapBound(st);
      var levels', outputs;
      ghost var c;
      levels', outputs, c := MergeLevels(levels, level, inputs, bytes, limit, snap, nextFile, stop, full);
      InstallLevels(levels', nextFile + |outputs|);
      step := Compact(c, FileSet(outputs));
      assert CompactNext(st, c, FileSet(outputs), Abs());
    }

    /** BackgroundCompaction, the branch that moves: a single input that meets nothing below changes level. */
    method MoveInput(level: nat, f: File) returns (ghost step: Step)
      requires Valid() && Seeded(levels, level, [f])
      requires forall g :: g in levels[level + 1] ==> !Overlaps(g, Smallest(f).user, Largest(f).user)
      modifies this
      ensures Next(old(Abs()), step, Abs()) && (StepComplete(old(Abs()), step) ==> Valid())
      ensures step == Move(Inputs(level, {f}, {}, Smallest(f).user, Largest(f).user))
    {
      ghost var st := Abs();
      ghost var c := Inputs(level, {f}, {}, Smallest(f).user, Largest(f).user);
      SingleIsPicked(st, levels, level, f);
      NumberIsNew(levels, level, f);
      var levels' := MoveFile(levels, level, f);
      InstallLevels(levels', nextFile);
      step := Move(c);
      StepKeepsValid(st, step, Abs());
    }
  }

  /** The step that flushes these entries: a table under the next number, as deep as it may go, or none without entries. */
  ghost predicate Flushed(levels: seq<seq<File>>, entries: seq<Entry>, number: nat, roomy: nat -> bool, step: Step)
    requires |levels| == NUM_LEVELS
  {
    if entries == [] then step == Flush(None, 0) else
      && step.Flush? && step.table.Some? && step.table.value == FileData(number, entries)
      && DeepestPlace(levels, step.table.value, roomy, step.level)
  }

  lemma SnapBound(st: State)
    requires SnapInv(st)
    ensures Horizon(st) <= st.lastSeq
  {}

  lemma StepKeepsValid(st: State, step: Step, st': State)
    requires Inv(st) && OneNumberEach(st.levels) && Next(st, step, st')
    ensures OneNumberEach(st'.levels) && (StepComplete(st, step) ==> Inv(st'))
  {
    StepKeepsNumbers(st, step, st');
    if StepComplete(st, step) { StepKeepsInv(st, step, st'); }
  }

  lemma NumberIsNew(levels: seq<seq<File>>, level: nat, f: File)
    requires OneNumberEach(Sets(levels)) && Seeded(levels, level, [f])
    ensures forall g :: g in levels[level + 1] ==> g.number != f.number
  {
    assert f in [f] && f in Sets(levels)[level];
    assert Sets(levels)[level + 1] == FileSet(levels[level + 1]);
  }

  lemma SingleIsPicked(st: State, levels: seq<seq<File>>, level: nat, f: File)
    requires st.levels == Sets(levels) && Seeded(levels, level, [f])
    requires forall g :: g in levels[level + 1] ==> !Overlaps(g, Smallest(f).user, Largest(f).user)
    ensures Picked(st.levels, Inputs(level, {f}, {}, Smallest(f).user, Largest(f).user))
  {
    assert FileSet([f]) == {f};
    assert f in {f};
    assert IsRange({f}, Smallest(f).user, Largest(f).user);
    assert st.levels[level + 1] == FileSet(levels[level + 1]);
  }

  method MoveFile(levels: seq<seq<File>>, level: nat, f: File) returns (levels': seq<seq<File>>)
    requires GoodLevels(levels) && Shaped(Sets(levels)) && Seeded(levels, level, [f])
    requires forall g :: g in levels[level + 1] ==> !Overlaps(g, Smallest(f).user, Largest(f).user)
    requires forall g :: g in levels[level + 1] ==> g.number != f.number
    ensures GoodLevels(levels')
    ensures Sets(levels') == Replace(Sets(levels), Inputs(level, {f}, {}, Smallest(f).user, Largest(f).user), {f})
  {
    ghost var c := Inputs(level, {f}, {}, Smallest(f).user, Largest(f).user);
    assert FileSet([f]) == {f} && FileSet([]) == {};
    assert Picked(Sets(levels), c) by {
      assert f in {f};
      assert Sets(levels)[level + 1] == FileSet(levels[level + 1]);
    }
    var upper := UpdateLevel(levels[level], [f], []);
    var lower := UpdateLevel(levels[level + 1], [], [f]);
    levels' := levels[level := upper][level + 1 := lower];
    SetsUpdate(levels, level, upper);
    SetsUpdate(levels[level := upper], level + 1, lower);
    assert FileSet(upper) == FileSet(levels[level]) - {f};
    assert FileSet(lower) == (FileSet(levels[level + 1]) - {}) + {f};
    assert c.upper + c.lower == {f};
    ReplaceKeepsShape(Sets(levels), c, {f});
    assert Sets(levels') == Replace(Sets(levels), c, {f});
    NamedTogether(levels[level + 1], [f]);
    GoodFromSets(levels');
  }

  lemma ImmIsNewest(st: State, f: File)
    requires Inv(st) && st.imm.Some? && SetOf(f.entries) == st.imm.value
    ensures forall e :: e in f.entries ==> forall x :: x in Stored(st.levels) ==> x.seqno < e.seqno
  {
    StoredInHistory(st);
    MemOverImm(st);
    forall e | e in f.entries ensures e.seqno > st.immFrom { assert e in SetOf(f.entries); }
  }

  lemma MemIsBefore(st: State)
    requires MemInv(st) && st.inserted < |Pending(st)|
    ensures forall x :: x in st.mem ==> x.seqno < Pending(st)[st.inserted].seqno
  {
    var whole := st.hist + Pending(st);
    var es := st.hist[st.memFrom..] + Pending(st)[..st.inserted];
    assert whole[|st.hist| + st.inserted] == Pending(st)[st.inserted];
    forall x | x in es ensures x.seqno < Pending(st)[st.inserted].seqno {
      var i :| 0 <= i < |es| && es[i] == x;
      assert x == whole[st.memFrom + i];
    }
  }
}
