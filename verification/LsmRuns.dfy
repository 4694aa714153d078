/** Crash recovery, and the theorems over whole runs of the log-structured merge tree. */
module LsmRuns {
  import opened Keys
  import opened Lsm
  import opened LsmSafety
  import Runs

  // ----- crash and recovery

  lemma FirstThreeGrow(order: seq<nat>)
    requires forall i, j :: 0 <= i < j < |order| ==> order[i] < order[j]
    ensures |order| >= 3 ==> order[0] < order[1] < order[2]
  {}

  lemma LiveLogOrder(st: State, torn: bool, order: seq<nat>)
    requires LogInv(st) && LiveLogs(DiskOf(st, torn), order)
    ensures order == if st.imm.None? then [st.curLog] else [st.manifest.logNumber, st.curLog]
  {
    var low, cur := st.manifest.logNumber, st.curLog;
    assert low in order && cur in order;
    var i :| 0 <= i < |order| && order[i] == low;
    var j :| 0 <= j < |order| && order[j] == cur;
    forall m | 0 <= m < |order| ensures order[m] == low || order[m] == cur { assert order[m] in order; }
    FirstThreeGrow(order);
  }

  ghost function Surviving(st: State, torn: bool): seq<Entry> {
    if torn then st.hist else st.hist + Pending(st)
  }

  lemma CurrentLogSurvives(st: State, torn: bool)
    requires LogInv(st)
    ensures Flatten(SurvivingLogs(st, torn)[st.curLog]) == Surviving(st, torn)[st.memFrom..]
  {
    var records := st.logs[st.curLog];
    if torn && st.inflight.Some? {
      var kept := Flatten(records[..|records| - 1]);
      assert kept + st.inflight.value == st.hist[st.memFrom..] + st.inflight.value;
      assert kept == (kept + st.inflight.value)[..|kept|];
      assert |kept| == |st.hist| - st.memFrom;
    } else {
      assert Surviving(st, torn)[st.memFrom..] == st.hist[st.memFrom..] + if torn then [] else Pending(st);
    }
  }

  lemma ReplayOne(logs: map<nat, seq<Batch>>, n: nat)
    requires n in logs
    ensures Replay(logs, [n]) == Flatten(logs[n])
  {
    assert [n][..0] == [];
  }

  lemma ReplayTwo(logs: map<nat, seq<Batch>>, m: nat, n: nat)
    requires m in logs && n in logs
    ensures Replay(logs, [m, n]) == Flatten(logs[m]) + Flatten(logs[n])
  {
    assert [m, n][..1] == [m];
    ReplayOne(logs, m);
  }

  /** What the live logs spell out after a crash: the history from `immFrom` on, as it survives. */
  lemma ReplayIsTail(st: State, torn: bool, order: seq<nat>)
    requires MemInv(st) && LogInv(st) && LiveLogs(DiskOf(st, torn), order)
    ensures Replay(SurvivingLogs(st, torn), order) == Surviving(st, torn)[st.immFrom..]
  {
    LiveLogOrder(st, torn, order);
    CurrentLogSurvives(st, torn);
    var logs, hist' := SurvivingLogs(st, torn), Surviving(st, torn);
    if st.imm.None? {
      ReplayOne(logs, st.curLog);
    } else {
      ReplayTwo(logs, st.manifest.logNumber, st.curLog);
      assert hist'[st.immFrom..] == st.hist[st.immFrom..st.memFrom] + hist'[st.memFrom..];
    }
  }

  lemma {:induction false} MaxSeqIsLast(es: seq<Entry>, from: nat)
    requires forall i :: 0 <= i < |es| ==> es[i].seqno == from + i + 1
    ensures MaxSeq(es) == if es == [] then 0 else from + |es|
  {
    if es != [] { MaxSeqIsLast(es[..|es| - 1], from); }
  }

  ghost function WithFiles(levels: seq<set<File>>, files: seq<File>): seq<set<File>>
    requires |levels| > 0
  {
    levels[0 := levels[0] + set f | f in files]
  }

  lemma WithFilesStep(levels: seq<set<File>>, files: seq<File>)
    requires |levels| > 0
    ensures files == [] ==> WithFiles(levels, files) == levels
    ensures files != [] ==>
      var before := WithFiles(levels, files[..|files| - 1]);
      WithFiles(levels, files) == before[0 := before[0] + {files[|files| - 1]}]
  {
    if files == [] {
      assert (set f | f in files) == {};
      assert levels[0] + {} == levels[0];
    } else {
      var n := |files| - 1;
      assert files == files[..n] + [files[n]];
      assert (set g | g in files) == (set g | g in files[..n]) + {files[n]};
      assert levels[0] + ((set g | g in files[..n]) + {files[n]}) == (levels[0] + set g | g in files[..n]) + {files[n]};
    }
  }

  lemma RecoveryAddsOne(levels: seq<set<File>>, hist: seq<Entry>, a: nat, mid: nat, b: nat, f: File)
    requires Shaped(levels) && Ordered(levels) && Numbered(hist) && a <= mid <= b <= |hist|
    requires forall e :: e in Stored(levels) ==> e in SetOf(hist[..mid])
    requires forall g :: g in levels[0] ==> g.number < f.number
    requires SetOf(f.entries) == SetOf(hist[mid..b])
    ensures var levels' := levels[0 := levels[0] + {f}];
            && Shaped(levels') && Ordered(levels')
            && Stored(levels') == Stored(levels) + SetOf(hist[mid..b])
  {
    HistoryStretch(hist, mid, b);
    forall e | e in f.entries ensures e.seqno > mid { assert e in SetOf(f.entries); }
    AddKeepsOrder(levels, f, 0, mid);
    StoredGrows(levels, f, 0);
  }

  lemma CutSequence<T>(s: seq<T>, a: nat, b: nat, front: seq<T>, back: seq<T>)
    requires a <= b <= |s| && s[a..b] == front + back
    ensures a <= b - |back| && s[a..b - |back|] == front && s[b - |back|..b] == back
  {
    assert |front| + |back| == b - a;
    forall i | 0 <= i < |front| ensures s[a + i] == front[i] { assert s[a..b][i] == front[i]; }
    forall i | 0 <= i < |back| ensures s[b - |back| + i] == back[i] { assert s[a..b][|front| + i] == back[i]; }
  }

  lemma {:induction false} CutFlatten(slices: seq<seq<Entry>>, hist: seq<Entry>, a: nat, b: nat)
    requires slices != [] && a <= b <= |hist| && Flatten(slices) == hist[a..b]
    ensures var n := |slices| - 1;
            var mid := b - |slices[n]|;
            a <= mid <= b && hist[a..mid] == Flatten(slices[..n]) && hist[mid..b] == slices[n]
  {
    CutSequence(hist, a, b, Flatten(slices[..|slices| - 1]), slices[|slices| - 1]);
  }

  lemma RecoveryAddsLast(levels: seq<set<File>>, hist: seq<Entry>, a: nat, mid: nat, b: nat, files: seq<File>, low: nat)
    requires files != [] && Numbered(hist) && a <= mid <= b <= |hist| && |levels| > 0
    requires forall e :: e in Stored(levels) ==> e in SetOf(hist[..a])
    requires forall f :: f in levels[0] ==> f.number < low
    requires forall i :: 0 <= i < |files| ==> low <= files[i].number
    requires forall i, j :: 0 <= i < j < |files| ==> files[i].number < files[j].number
    requires SetOf(files[|files| - 1].entries) == SetOf(hist[mid..b])
    requires var before := WithFiles(levels, files[..|files| - 1]);
             Shaped(before) && Ordered(before) && Stored(before) == Stored(levels) + SetOf(hist[a..mid])
    ensures Shaped(WithFiles(levels, files)) && Ordered(WithFiles(levels, files))
    ensures Stored(WithFiles(levels, files)) == Stored(levels) + SetOf(hist[a..b])
  {
    var n := |files| - 1;
    var f, before := files[n], WithFiles(levels, files[..n]);
    assert forall e :: e in Stored(before) ==> e in SetOf(hist[..mid]) by { HistoryStretch(hist, a, mid); }
    assert before[0] == levels[0] + set g | g in files[..n];
    RecoveryAddsOne(before, hist, a, mid, b, f);
    WithFilesStep(levels, files);
    StretchesJoin(Stored(levels), hist, a, mid, b);
  }

  lemma RecoveredPrefix(slices: seq<seq<Entry>>, files: seq<File>, low: nat, high: nat)
    requires Recovered(slices, files, low, high) && files != []
    ensures Recovered(slices[..|files| - 1], files[..|files| - 1], low, high)
  {}

  /** Recovery's tables pile up on level 0 in the order of the operations they hold. */
  lemma {:induction false} RecoveryKeepsOrder(levels: seq<set<File>>, hist: seq<Entry>, a: nat, b: nat,
                                              slices: seq<seq<Entry>>, files: seq<File>, low: nat, high: nat)
    requires Shaped(levels) && Ordered(levels) && Numbered(hist) && a <= b <= |hist|
    requires forall e :: e in Stored(levels) ==> e in SetOf(hist[..a])
    requires forall f :: f in levels[0] ==> f.number < low
    requires Flatten(slices) == hist[a..b] && Recovered(slices, files, low, high)
    ensures Shaped(WithFiles(levels, files)) && Ordered(WithFiles(levels, files))
    ensures Stored(WithFiles(levels, files)) == Stored(levels) + SetOf(hist[a..b])
    decreases |files|
  {
    if files == [] {
      WithFilesStep(levels, files);
      assert SetOf([]) == {};
    } else {
      var n := |files| - 1;
      var mid := b - |slices[n]|;
      CutFlatten(slices, hist, a, b);
      RecoveredPrefix(slices, files, low, high);
      RecoveryKeepsOrder(levels, hist, a, mid, slices[..n], files[..n], low, high);
      RecoveryAddsLast(levels, hist, a, mid, b, files, low);
    }
  }

  lemma StretchesJoin(stored: set<Entry>, hist: seq<Entry>, a: nat, mid: nat, b: nat)
    requires a <= mid <= b <= |hist|
    ensures stored + SetOf(hist[a..mid]) + SetOf(hist[mid..b]) == stored + SetOf(hist[a..b])
  {
    assert hist[a..b] == hist[a..mid] + hist[mid..b];
    SetOfSplit(hist[a..mid], hist[mid..b]);
  }

  lemma CrashTables(st: State, torn: bool, order: seq<nat>, slices: seq<seq<Entry>>, files: seq<File>, st': State)
    requires Inv(st) && CrashNext(st, torn, order, slices, files, st')
    ensures Shaped(st'.levels) && Ordered(st'.levels) && Numbered(st'.hist)
    ensures |st.hist| <= |st'.hist| && st'.hist[..|st.hist|] == st.hist
    ensures Stored(st'.levels) == Stored(st.levels) + SetOf(st'.hist[st.immFrom..|st'.hist|])
  {
    SurvivingStarts(st, torn);
    ReplayIsTail(st, torn, order);
    Level0Below(st);
    RecoveryKeepsOrder(st.levels, st'.hist, st.immFrom, |st'.hist|, slices, files,
                       st.manifest.nextFile, st'.curLog);
  }

  lemma SurvivingStarts(st: State, torn: bool)
    requires MemInv(st)
    ensures var hist := Surviving(st, torn);
            && Numbered(hist) && |st.hist| <= |hist| && hist[..|st.hist|] == st.hist
            && hist[..st.immFrom] == st.hist[..st.immFrom] && hist[st.immFrom..] == hist[st.immFrom..|hist|]
  {
    var hist := Surviving(st, torn);
    assert hist[..|st.hist|] == st.hist;
    assert hist[..st.immFrom] == st.hist[..st.immFrom];
  }

  lemma Level0Below(st: State)
    requires LogInv(st) && |st.levels| > 0
    ensures forall f :: f in st.levels[0] ==> f.number < st.manifest.nextFile
  {}

  lemma CrashKeepsLogs(st: State, torn: bool, order: seq<nat>, slices: seq<seq<Entry>>, files: seq<File>, st': State)
    requires Inv(st) && CrashNext(st, torn, order, slices, files, st')
    ensures MemInv(st') && LogInv(st') && SnapInv(st')
  {
    SurvivingStarts(st, torn);
    ReplayIsTail(st, torn, order);
    LastIsEnd(st, torn);
    NewFilesBelow(st, files, st');
    EmptyMem(st');
  }

  /** The last sequence number that recovery settles on is that of the last operation that survives. */
  lemma LastIsEnd(st: State, torn: bool)
    requires MemInv(st) && LogInv(st)
    ensures var hist := Surviving(st, torn);
            var last := MaxSeq(hist[st.immFrom..]);
            (if last > st.manifest.lastSeq then last else st.manifest.lastSeq) == |hist|
  {
    SurvivingStarts(st, torn);
    MaxSeqIsLast(Surviving(st, torn)[st.immFrom..], st.immFrom);
  }

  lemma NewFilesBelow(st: State, files: seq<File>, st': State)
    requires LogInv(st) && st.manifest.nextFile <= st'.curLog < st'.manifest.nextFile && |st.levels| > 0
    requires st'.levels == st.levels[0 := st.levels[0] + set f | f in files]
    requires forall i :: 0 <= i < |files| ==> files[i].number < st'.curLog
    ensures forall i, f :: 0 <= i < |st'.levels| && f in st'.levels[i] ==> f.number < st'.manifest.nextFile
  {}

  /** A database that has just been recovered: everything is in the tables. */
  lemma EmptyMem(st: State)
    requires Numbered(st.hist) && st.lastSeq == |st.hist| == st.immFrom == st.memFrom
    requires st.mem == {} && st.imm.None? && st.inflight.None? && st.inserted == 0
    requires st.logs == map[st.curLog := []] && st.manifest == Manifest(st.curLog, st.lastSeq, st.nextFile)
    requires st.curLog < st.nextFile
    requires forall i, f :: 0 <= i < |st.levels| && f in st.levels[i] ==> f.number < st.manifest.nextFile
    ensures MemInv(st) && LogInv(st)
  {
    assert Pending(st) == [] && Pending(st)[..0] == [] && st.hist + [] == st.hist;
    assert st.hist[|st.hist|..] + [] == [] && Flatten([]) == [];
  }

  /** Recovery: nothing acknowledged is lost or reordered, and the group in flight is there whole or not at all. */
  lemma CrashKeepsInv(st: State, torn: bool, order: seq<nat>, slices: seq<seq<Entry>>, files: seq<File>, st': State)
    requires Inv(st) && Next(st, Crash(torn, order, slices, files), st')
    ensures Inv(st')
    ensures st'.hist == st.hist || st'.hist == st.hist + Pending(st)
    ensures st'.lastSeq == |st'.hist|
    ensures forall e :: e in Stored(st'.levels) ==> e.seqno <= st'.lastSeq
  {
    CrashTables(st, torn, order, slices, files, st');
    CrashKeepsLogs(st, torn, order, slices, files, st');
    assert st'.hist[..st.immFrom] == st.hist[..st.immFrom];
    StretchKeepsView(st.levels, st'.levels, st'.hist, st.immFrom, |st'.hist|, Horizon(st));
    StoredInHistory(st');
  }

  // ----- runs

  /** A run: states joined by steps, from an empty database. */
  ghost predicate Run(states: seq<State>, steps: seq<Step>) {
    && |states| == |steps| + 1 && Init(states[0])
    && forall i :: 0 <= i < |steps| ==> Next(states[i], steps[i], states[i + 1])
  }

  lemma InitInv(st: State)
    requires Init(st)
    ensures Inv(st)
  {
    assert Stored(st.levels) == {};
    assert Pending(st)[..0] == [] && st.hist[0..] + [] == [] && st.hist + [] == [];
    assert st.hist[..0] == [];
  }

  lemma StepKeepsInv(st: State, step: Step, st': State)
    requires Inv(st) && Next(st, step, st') && StepComplete(st, step)
    ensures Inv(st')
  {
    match step
    case LogAppend(_) => WritesKeepInv(st, step, st');
    case MemInsert => WritesKeepInv(st, step, st');
    case Commit => WritesKeepInv(st, step, st');
    case Switch => SwitchKeepsInv(st, st');
    case Flush(table, level) => FlushKeepsInv(st, table, level, st');
    case Move(c) => MoveKeepsInv(st, c, st');
    case Compact(c, outputs) => CompactKeepsInv(st, c, outputs, st');
    case TakeSnapshot => SnapshotsKeepInv(st, step, st');
    case Release(_) => SnapshotsKeepInv(st, step, st');
    case Crash(torn, order, slices, files) => CrashKeepsInv(st, torn, order, slices, files, st');
  }

  lemma {:induction false} RunKeepsInv(states: seq<State>, steps: seq<Step>, n: nat)
    requires Run(states, steps) && n < |states|
    requires forall i :: 0 <= i < n ==> StepComplete(states[i], steps[i])
    ensures Inv(states[n])
  {
    var inv := st => Inv(st);
    InitInv(states[0]);
    forall i | 0 < i <= n ensures inv(states[i - 1]) ==> inv(states[i]) {
      if Inv(states[i - 1]) { StepKeepsInv(states[i - 1], steps[i - 1], states[i]); }
    }
    Runs.Induction(states, inv, n);
  }

  ghost predicate Live(st: State, s: nat) { s == st.lastSeq || s in st.snapshots }

  lemma LiveIsCurrent(st: State, s: nat)
    requires SnapInv(st) && Live(st, s)
    ensures Horizon(st) <= s <= st.lastSeq
  {
    if s in st.snapshots {
      var i :| 0 <= i < |st.snapshots| && st.snapshots[i] == s;
    }
  }

  /** Main theorem.  In every run whose moves and compactions have complete inputs, a reader at any live
      snapshot, or at the last sequence number, is told what the plain history of operations says. */
  lemma RunReadsHistory(states: seq<State>, steps: seq<Step>, n: nat, k: UserKey, s: nat)
    requires Run(states, steps) && n < |states| && Live(states[n], s)
    requires forall i :: 0 <= i < n ==> StepComplete(states[i], steps[i])
    ensures var st := states[n];
            var imm := if st.imm.Some? then st.imm.value else {};
            View(st.mem + imm + Stored(st.levels), k, s) == View(SetOf(st.hist), k, s)
  {
    RunKeepsInv(states, steps, n);
    LiveIsCurrent(states[n], s);
    StateReadsHistory(states[n], k, s);
  }
}
