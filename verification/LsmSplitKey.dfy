/** A run in which a point read goes back in time.

    One user key is written twice with a snapshot in between.  The compaction of the table that holds both
    versions may end one output file between them, so the key is split across two adjacent files of level 3.  The
    next compaction picks only the first of the two, and moving it down puts the newer version beneath the older.
    `CleanBoundary` is what the picked inputs lack; `MoveReadIff` says which reads go wrong after such a move.
 */
module LsmSplitKey {
  import opened Keys
  import opened Lsm
  import opened LsmSafety
  import opened LsmRuns
  import opened LsmReads

  /** The two values; they may be as large as it takes to end an output file between them. */
  datatype Values = Values(older: Value, newer: Value)

  function Old(v: Values): Entry { Entry(0.0, 1, Put, v.older) }
  function New(v: Values): Entry { Entry(0.0, 2, Put, v.newer) }

  function Both(v: Values): File {
    assert Sorted([New(v), Old(v)]);
    FileData(5, [New(v), Old(v)])
  }
  function NewerFile(v: Values): File { FileData(6, [New(v)]) }
  function OlderFile(v: Values): File { FileData(7, [Old(v)]) }

  ghost function Only(level: nat, fs: set<File>): seq<set<File>> {
    seq(NUM_LEVELS, i => if i == level then fs else {})
  }

  ghost function Start(): State {
    State({}, None, seq(NUM_LEVELS, i => {}), 0, [], 4, map[3 := []], 3, Manifest(3, 0, 4), None, 0, [], 0, 0)
  }

  ghost function Logged(st: State, e: Entry): State
    requires st.curLog in st.logs
  {
    st.(inflight := Some([e]), inserted := 0, logs := st.logs[st.curLog := st.logs[st.curLog] + [[e]]])
  }

  ghost function Inserted(st: State, e: Entry): State { st.(inserted := 1, mem := st.mem + {e}) }

  ghost function Committed(st: State, e: Entry): State {
    st.(hist := st.hist + [e], lastSeq := st.lastSeq + 1, inflight := None, inserted := 0)
  }

  /** Logging, inserting and committing one operation. */
  lemma WriteOne(st: State, e: Entry)
    requires st.inflight.None? && st.curLog in st.logs && e.seqno == st.lastSeq + 1
    ensures var a := Logged(st, e);
            var b := Inserted(a, e);
            Next(st, LogAppend([e]), a) && Next(a, MemInsert, b) && Next(b, Commit, Committed(b, e))
  {}

  ghost function Written(v: Values): State {
    var one := Committed(Inserted(Logged(Start(), Old(v)), Old(v)), Old(v));
    one.(snapshots := [1])
  }

  ghost function Full(v: Values): State { Committed(Inserted(Logged(Written(v), New(v)), New(v)), New(v)) }

  ghost function Switched(v: Values): State {
    Full(v).(imm := Some(Full(v).mem), mem := {}, curLog := 4, nextFile := 5, logs := Full(v).logs[4 := []], memFrom := 2)
  }

  ghost function Tables(v: Values, levels: seq<set<File>>, next: nat): State {
    State({}, None, levels, 2, [1], next, map[4 := []], 4, Manifest(4, 2, next), None, 0, [Old(v), New(v)], 2, 2)
  }

  lemma FlushBoth(v: Values)
    ensures Next(Full(v), Switch, Switched(v))
    ensures Next(Switched(v), Flush(Some(Both(v)), 2), Tables(v, Only(2, {Both(v)}), 6))
  {
    var st, st' := Switched(v), Tables(v, Only(2, {Both(v)}), 6);
    assert st.levels == Only(2, {});
    assert st.levels[2] + {Both(v)} == {Both(v)};
    assert forall i :: 0 <= i < NUM_LEVELS ==> st'.levels[i] == st.levels[2 := st.levels[2] + {Both(v)}][i];
    assert st'.levels == st.levels[2 := st.levels[2] + {Both(v)}];
    assert SetOf(Both(v).entries) == {New(v), Old(v)} == st.imm.value;
    assert (map n | n in st.logs && n >= st.curLog :: st.logs[n]) == map[4 := []];
    assert st'.hist == st.hist;
    assert FlushNext(st, Some(Both(v)), 2, st');
  }

  /** The two tables that the compaction writes, with the key's two versions apart. */
  ghost function Parts(v: Values): set<File> { {NewerFile(v), OlderFile(v)} }

  lemma CompactBoth(v: Values)
    ensures Next(Tables(v, Only(2, {Both(v)}), 6), Compact(Inputs(2, {Both(v)}, {}, 0.0, 0.0), Parts(v)),
                 Tables(v, Only(3, Parts(v)), 8))
  {
    var levels, c := Only(2, {Both(v)}), Inputs(2, {Both(v)}, {}, 0.0, 0.0);
    assert Picked(levels, c) by { assert Both(v) in c.upper; assert levels[3] == {}; }
    assert Contents(Parts(v)) == {New(v), Old(v)} by {
      assert New(v) in NewerFile(v).entries && Old(v) in OlderFile(v).entries;
    }
    assert Contents(c.upper + c.lower) == {New(v), Old(v)} by {
      assert c.upper + c.lower == {Both(v)} && New(v) in Both(v).entries && Old(v) in Both(v).entries;
    }
    assert FileBefore(NewerFile(v), OlderFile(v));
    assert Outputs(levels, c, 1, Parts(v));
    var out := Parts(v);
    assert Named(out);
    assert levels[2] - c.upper == {} && (levels[3] - c.lower) + out == out;
    assert forall i :: 0 <= i < NUM_LEVELS ==> Replace(levels, c, out)[i] == Only(3, out)[i];
    assert Replace(levels, c, out) == Only(3, out);
  }

  lemma MoveNewer(v: Values)
    ensures Next(Tables(v, Only(3, Parts(v)), 8), Move(Inputs(3, {NewerFile(v)}, {}, 0.0, 0.0)),
                 Tables(v, Only(3, {OlderFile(v)})[4 := {NewerFile(v)}], 8))
  {
    var levels, c := Only(3, Parts(v)), Inputs(3, {NewerFile(v)}, {}, 0.0, 0.0);
    assert Picked(levels, c) by { assert NewerFile(v) in c.upper; assert levels[4] == {}; }
    assert Parts(v) - {NewerFile(v)} == {OlderFile(v)};
    var after := Only(3, {OlderFile(v)})[4 := {NewerFile(v)}];
    assert (levels[4] - c.lower) + c.upper == {NewerFile(v)};
    assert forall i :: 0 <= i < NUM_LEVELS ==> Replace(levels, c, c.upper)[i] == after[i];
    assert Replace(levels, c, c.upper) == after;
  }

  lemma ReadsOld(v: Values, st: State)
    requires st == Tables(v, Only(3, {OlderFile(v)})[4 := {NewerFile(v)}], 8)
    ensures StopsAt(st.mem, ImmOf(st), st.levels, 0.0, 2, Old(v))
    ensures View(SetOf(st.hist), 0.0, 2) == Some(New(v).value)
  {
    assert Old(v) in OlderFile(v).entries && Contents(st.levels[3]) == {Old(v)};
    assert Newest(Contents(st.levels[3]), 0.0, 2, Old(v));
    assert forall j :: 0 <= j < 3 ==> st.levels[j] == {};
    assert New(v) in st.hist;
    ViewIs(SetOf(st.hist), 0.0, 2, New(v));
  }

  lemma Extend(states: seq<State>, steps: seq<Step>, step: Step, st': State)
    requires Run(states, steps) && Next(states[|steps|], step, st')
    ensures Run(states + [st'], steps + [step])
  {}

  lemma ExtendWrite(states: seq<State>, steps: seq<Step>, e: Entry) returns (states': seq<State>, steps': seq<Step>)
    requires Run(states, steps)
    requires var st := states[|steps|]; st.inflight.None? && st.curLog in st.logs && e.seqno == st.lastSeq + 1
    ensures Run(states', steps')
    ensures states'[|steps'|] == Committed(Inserted(Logged(states[|steps|], e), e), e)
  {
    var a := Logged(states[|steps|], e);
    var b := Inserted(a, e);
    WriteOne(states[|steps|], e);
    Extend(states, steps, LogAppend([e]), a);
    Extend(states + [a], steps + [LogAppend([e])], MemInsert, b);
    Extend(states + [a] + [b], steps + [LogAppend([e])] + [MemInsert], Commit, Committed(b, e));
    states' := states + [a] + [b] + [Committed(b, e)];
    steps' := steps + [LogAppend([e])] + [MemInsert] + [Commit];
  }

  /** The run: every step is one the engine can take, and the last state answers a read with the older value,
      whatever the two values are. */
  lemma SplitKeyRun(v: Values) returns (states: seq<State>, steps: seq<Step>)
    requires v.older != v.newer
    ensures Run(states, steps)
    ensures var st := states[|steps|];
            Live(st, 2) && StopsAt(st.mem, ImmOf(st), st.levels, 0.0, 2, Old(v))
            && Answer(Old(v)) != View(SetOf(st.hist), 0.0, 2)
  {
    states, steps := ExtendWrite([Start()], [], Old(v));
    Extend(states, steps, TakeSnapshot, Written(v));
    states, steps := ExtendWrite(states + [Written(v)], steps + [TakeSnapshot], New(v));
    FlushBoth(v);
    CompactBoth(v);
    MoveNewer(v);
    var flushed, split := Tables(v, Only(2, {Both(v)}), 6), Tables(v, Only(3, Parts(v)), 8);
    var last := Tables(v, Only(3, {OlderFile(v)})[4 := {NewerFile(v)}], 8);
    var compact := Compact(Inputs(2, {Both(v)}, {}, 0.0, 0.0), Parts(v));
    var move := Move(Inputs(3, {NewerFile(v)}, {}, 0.0, 0.0));
    Extend(states, steps, Switch, Switched(v));
    states, steps := states + [Switched(v)], steps + [Switch];
    Extend(states, steps, Flush(Some(Both(v)), 2), flushed);
    states, steps := states + [flushed], steps + [Flush(Some(Both(v)), 2)];
    Extend(states, steps, compact, split);
    states, steps := states + [split], steps + [compact];
    Extend(states, steps, move, last);
    states, steps := states + [last], steps + [move];
    ReadsOld(v, last);
  }
}
