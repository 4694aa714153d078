/** Point reads stop at the right entry, and keep doing so without any hypothesis on compactions as long as no
    snapshot is held while one runs.  With a snapshot held they can go wrong: see `SplitKeyRun`. */
module LsmReads {
  import opened Keys
  import opened Lsm
  import opened LsmSafety
  import opened LsmRuns

  lemma StopsInVersionIsNewest(levels: seq<set<File>>, k: UserKey, s: nat, e: Entry)
    requires Shaped(levels) && Ordered(levels) && StopsInVersion(levels, k, s, e)
    ensures Newest(Stored(levels), k, s, e)
  {
    if StopsInLevel0(levels[0], k, s, e) {
      var f :| f in levels[0] && Newest(SetOf(f.entries), k, s, e)
        && forall g :: g in levels[0] && g.number > f.number ==> !Visible(SetOf(g.entries), k, s);
      assert e in Contents(levels[0]);
      StopInLevel0IsNewest(levels, k, s, e, f);
    } else {
      var i :| 1 <= i < |levels| && Newest(Contents(levels[i]), k, s, e)
        && forall j :: 0 <= j < i ==> !Visible(Contents(levels[j]), k, s);
      forall x | x in Stored(levels) && x.user == k && x.seqno <= s ensures x.seqno <= e.seqno {
        var j :| 0 <= j < |levels| && x in Contents(levels[j]);
        assert Visible(Contents(levels[j]), k, s);
        if i < j { assert Newer(Contents(levels[i]), Contents(levels[j])); }
      }
    }
  }

  lemma StopInLevel0IsNewest(levels: seq<set<File>>, k: UserKey, s: nat, e: Entry, f: File)
    requires Shaped(levels) && Ordered(levels) && f in levels[0] && e in Contents(levels[0])
    requires Newest(SetOf(f.entries), k, s, e)
    requires forall g :: g in levels[0] && g.number > f.number ==> !Visible(SetOf(g.entries), k, s)
    ensures forall x :: x in Stored(levels) && x.user == k && x.seqno <= s ==> x.seqno <= e.seqno
  {
    forall x | x in Stored(levels) && x.user == k && x.seqno <= s ensures x.seqno <= e.seqno {
      var i :| 0 <= i < |levels| && x in Contents(levels[i]);
      if i == 0 {
        var g: File :| g in levels[0] && x in g.entries;
        assert x in SetOf(g.entries);
        assert !(g.number > f.number);
        if g.number < f.number { assert Newer(SetOf(f.entries), SetOf(g.entries)); }
      } else {
        assert Newer(Contents(levels[0]), Contents(levels[i]));
      }
    }
  }

  ghost function ImmOf(st: State): set<Entry> { if st.imm.Some? then st.imm.value else {} }

  ghost function All(st: State): set<Entry> { st.mem + ImmOf(st) + Stored(st.levels) }

  /** A point read of `k` at `s` in this state stops at `e`. */
  ghost predicate ReadStops(st: State, k: UserKey, s: nat, e: Entry) {
    StopsAt(st.mem, ImmOf(st), st.levels, k, s, e)
  }

  /** What the read answers: the entry that it stops at, or not-found after a search that met nothing. */
  ghost predicate ReadAnswers(st: State, k: UserKey, s: nat, r: Option<Value>) {
    || (exists e :: ReadStops(st, k, s, e) && r == Answer(e))
    || (r == None && !Visible(All(st), k, s))
  }

  /** The entry a point read stops at is the newest one its sequence number allows. */
  lemma StopIsNewest(st: State, k: UserKey, s: nat, e: Entry)
    requires Inv(st) && s <= st.lastSeq && StopsAt(st.mem, ImmOf(st), st.levels, k, s, e)
    ensures Newest(st.mem + ImmOf(st) + Stored(st.levels), k, s, e)
  {
    StoredInHistory(st);
    MemOverImm(st);
    if Newest(st.mem, k, s, e) || Newest(ImmOf(st), k, s, e) {
    } else {
      StopsInVersionIsNewest(st.levels, k, s, e);
    }
  }

  lemma MemOverImm(st: State)
    requires MemInv(st)
    ensures forall x :: x in st.mem ==> x.seqno > st.memFrom
    ensures forall x :: x in ImmOf(st) ==> st.immFrom < x.seqno <= st.memFrom
  {
    if st.imm.Some? { HistoryStretch(st.hist, st.immFrom, st.memFrom); }
    var whole := st.hist + Pending(st);
    var es := st.hist[st.memFrom..] + Pending(st)[..st.inserted];
    forall x | x in es ensures x.seqno > st.memFrom {
      var i :| 0 <= i < |es| && es[i] == x;
      assert x == whole[st.memFrom + i];
    }
  }

  lemma InvUnique(st: State)
    requires Inv(st)
    ensures UniqueSeqs(st.mem + ImmOf(st) + Stored(st.levels))
  {
    MemTablesHoldTail(st);
    SetOfSplit(st.hist, Pending(st));
    HistorySplit(st.hist + Pending(st), |st.hist|);
    HistorySplit(st.hist, st.immFrom);
    var whole := SetOf(st.hist + Pending(st));
    assert SetOf(Pending(st)[..st.inserted]) <= SetOf(Pending(st));
    assert st.mem + ImmOf(st) + Stored(st.levels) <= whole;
  }

  /** Point reads: in every reachable state, Get at a live sequence number answers from the plain history. */
  lemma GetReadsHistory(states: seq<State>, steps: seq<Step>, n: nat, k: UserKey, s: nat, r: Option<Value>)
    requires Run(states, steps) && n < |states| && Live(states[n], s)
    requires forall i :: 0 <= i < n ==> StepComplete(states[i], steps[i])
    requires ReadAnswers(states[n], k, s, r)
    ensures r == View(SetOf(states[n].hist), k, s)
  {
    var st := states[n];
    RunKeepsInv(states, steps, n);
    RunReadsHistory(states, steps, n, k, s);
    if e :| ReadStops(st, k, s, e) && r == Answer(e) {
      LiveIsCurrent(st, s);
      InvUnique(st);
      StopIsNewest(st, k, s, e);
      ViewIs(All(st), k, s, e);
    } else {
      ViewIsNone(All(st), k, s);
    }
  }

  // ----- when inputs are complete

  /** The two files share no user key. */
  ghost predicate Apart(f: File, g: File) {
    forall x, y :: x in f.entries && y in g.entries ==> x.user != y.user
  }

  ghost predicate AllApart(fs: set<File>) {
    forall f, g :: f in fs && g in fs && f != g ==> Apart(f, g)
  }

  /** No user key is split between two files of a level below level 0. */
  ghost predicate NoSplit(levels: seq<set<File>>) {
    forall i :: 1 <= i < |levels| ==> AllApart(levels[i])
  }

  lemma ApartIsNewer(level: set<File>, inputs: set<File>)
    requires AllApart(level) && inputs <= level
    ensures Newer(Contents(level - inputs), Contents(inputs))
  {
    forall x, y | x in Contents(level - inputs) && y in Contents(inputs) ensures x.user != y.user {
      var f: File :| f in level - inputs && x in f.entries;
      var g: File :| g in inputs && y in g.entries;
      assert Apart(f, g);
    }
  }

  lemma NoSplitIsComplete(levels: seq<set<File>>, c: Inputs)
    requires NoSplit(levels) && Picked(levels, c)
    ensures Complete(levels, c)
  {
    RestMissesRange(levels, c);
    if c.level > 0 { ApartIsNewer(levels[c.level], c.upper); }
    ApartIsNewer(levels[c.level + 1], c.lower);
  }

  /** The boundary condition a caller can check: no input file ends in the user key with which a file left behind
      begins.  It says exactly that the inputs are complete. */
  ghost predicate CleanBoundary(level: set<File>, inputs: set<File>) {
    forall f, g :: f in inputs && g in level - inputs && FileBefore(f, g) ==> Largest(f).user < Smallest(g).user
  }

  lemma CleanIffNewer(level: set<File>, inputs: set<File>)
    requires Disjoint(level) && inputs <= level && UniqueSeqs(Contents(level))
    ensures CleanBoundary(level, inputs) <==> Newer(Contents(level - inputs), Contents(inputs))
  {
    if CleanBoundary(level, inputs) {
      forall x, y | x in Contents(level - inputs) && y in Contents(inputs) && x.user == y.user
        ensures x.seqno > y.seqno
      {
        var g: File :| g in level - inputs && x in g.entries;
        var f: File :| f in inputs && y in f.entries;
        InRange(g, x);
        InRange(f, y);
        assert FileBefore(f, g) || FileBefore(g, f);
        assert FileBefore(g, f);
        assert Less(x, y);
        assert x in Contents(level) && y in Contents(level);
      }
    }
    if Newer(Contents(level - inputs), Contents(inputs)) {
      forall f, g | f in inputs && g in level - inputs && FileBefore(f, g)
        ensures Largest(f).user < Smallest(g).user
      {
        assert Largest(f) in f.entries && Smallest(g) in g.entries;
        assert Largest(f) in Contents(inputs) && Smallest(g) in Contents(level - inputs);
      }
    }
  }

  /** A trivial move out of a level below level 0 keeps the levels in order of age if and only if the moved file's
      last user key is not also the first user key of the file after it. */
  lemma MoveKeepsAgeIff(st: State, c: Inputs, st': State)
    requires Inv(st) && Next(st, Move(c), st') && c.level > 0
    ensures Ordered(st'.levels) <==> CleanBoundary(st.levels[c.level], c.upper)
  {
    StoredInHistory(st);
    assert Contents(st.levels[c.level]) <= Stored(st.levels);
    CleanIffNewer(st.levels[c.level], c.upper);
    MoveIff(st.levels, c);
  }

  lemma MoveIff(levels: seq<set<File>>, c: Inputs)
    requires Shaped(levels) && Ordered(levels) && Picked(levels, c) && c.lower == {}
    ensures Ordered(Replace(levels, c, c.upper)) <==> Newer(Contents(levels[c.level] - c.upper), Contents(c.upper))
  {
    if Newer(Contents(levels[c.level] - c.upper), Contents(c.upper)) { OrderedMove(levels, c); }
    if Ordered(Replace(levels, c, c.upper)) { MovedIsOlder(levels, c); }
  }

  lemma OrderedMove(levels: seq<set<File>>, c: Inputs)
    requires Shaped(levels) && Ordered(levels) && Picked(levels, c) && c.lower == {}
    requires Newer(Contents(levels[c.level] - c.upper), Contents(c.upper))
    ensures Ordered(Replace(levels, c, c.upper))
  {
    assert Contents(c.lower) == {};
    assert c.upper + c.lower == c.upper;
    ReplaceKeepsAge(levels, c, c.upper);
  }

  lemma MovedIsOlder(levels: seq<set<File>>, c: Inputs)
    requires |levels| == NUM_LEVELS && c.level + 1 < NUM_LEVELS && Ordered(Replace(levels, c, c.upper))
    ensures Newer(Contents(levels[c.level] - c.upper), Contents(c.upper))
  {
    var levels' := Replace(levels, c, c.upper);
    assert Newer(Contents(levels'[c.level]), Contents(levels'[c.level + 1]));
    ContentsUnion(levels[c.level + 1] - c.lower, c.upper);
  }

  // ----- runs without a snapshot held during compactions

  lemma AddKeepsNoSplit(levels: seq<set<File>>, f: File, level: nat)
    requires NoSplit(levels) && MayPlace(levels, f, level)
    ensures NoSplit(levels[level := levels[level] + {f}])
  {
    forall g | level > 0 && g in levels[level] ensures Apart(f, g) && Apart(g, f) { NoSharedKeys(g, f); }
  }

  lemma RestApart(levels: seq<set<File>>, c: Inputs, g: File, o: File)
    requires NoSplit(levels) && Picked(levels, c) && g in levels[c.level + 1] - c.lower
    requires SetOf(o.entries) <= Contents(c.upper + c.lower)
    ensures Apart(g, o) && Apart(o, g)
  {
    RestMissesRange(levels, c);
    forall x, y | x in g.entries && y in o.entries ensures x.user != y.user {
      assert y in SetOf(o.entries) && x in Contents(levels[c.level + 1] - c.lower);
      var f: File :| f in c.upper + c.lower && y in f.entries;
      if f in c.lower { assert f in levels[c.level + 1] && AllApart(levels[c.level + 1]) && Apart(g, f); }
      else { assert y in Contents(c.upper); }
    }
  }

  lemma ReplaceKeepsNoSplit(levels: seq<set<File>>, c: Inputs, outputs: set<File>)
    requires NoSplit(levels) && Picked(levels, c) && AllApart(outputs)
    requires Contents(outputs) <= Contents(c.upper + c.lower)
    ensures NoSplit(Replace(levels, c, outputs))
  {
    var levels', n := Replace(levels, c, outputs), c.level;
    forall i | 1 <= i < |levels'| && i != n + 1 ensures AllApart(levels'[i]) {
      assert levels'[i] <= levels[i] && AllApart(levels[i]);
    }
    forall f, g | f in levels'[n + 1] && g in levels'[n + 1] && f != g ensures Apart(f, g) {
      if f in outputs && g !in outputs {
        assert SetOf(f.entries) <= Contents(outputs);
        RestApart(levels, c, g, f);
      } else if g in outputs && f !in outputs {
        assert SetOf(g.entries) <= Contents(outputs);
        RestApart(levels, c, f, g);
      } else if f !in outputs {
        assert AllApart(levels[n + 1]);
      }
    }
  }

  /** A compaction that everybody's view has caught up with leaves one entry per user key, hence no split. */
  lemma CompactKeepsNoSplit(levels: seq<set<File>>, c: Inputs, outputs: set<File>, snap: nat)
    requires Outputs(levels, c, snap, outputs)
    requires UniqueSeqs(Contents(c.upper + c.lower))
    requires forall e :: e in Contents(c.upper + c.lower) ==> e.seqno <= snap
    ensures AllApart(outputs)
  {
    forall x, y | x in Contents(outputs) && y in Contents(outputs) && x.user == y.user ensures x == y {
      OneIsKept(Contents(c.upper + c.lower), levels, c.level, snap, x, y);
    }
    forall f, g | f in outputs && g in outputs && f != g ensures Apart(f, g) { OutputsApart(outputs, f, g); }
  }

  lemma OutputsApart(outputs: set<File>, f: File, g: File)
    requires Disjoint(outputs) && f in outputs && g in outputs && f != g
    requires forall x, y :: x in Contents(outputs) && y in Contents(outputs) && x.user == y.user ==> x == y
    ensures Apart(f, g)
  {
    forall x, y | x in f.entries && y in g.entries ensures x.user != y.user {
      assert x in Contents(outputs) && y in Contents(outputs);
      InRange(f, x);
      InRange(g, y);
    }
  }

  lemma OneIsKept(a: set<Entry>, levels: seq<set<File>>, level: nat, snap: nat, x: Entry, y: Entry)
    requires UniqueSeqs(a) && (forall e :: e in a ==> e.seqno <= snap) && x in a && y in a && x.user == y.user
    requires !Dropped(a, levels, level, snap, x) && !Dropped(a, levels, level, snap, y)
    ensures x == y
  {}

  /** Nobody holds a snapshot from before the last write while a compaction runs. */
  ghost predicate Unwatched(st: State, step: Step) { step.Compact? ==> Horizon(st) == st.lastSeq }

  lemma MoveKeepsNoSplit(levels: seq<set<File>>, c: Inputs)
    requires NoSplit(levels) && Picked(levels, c) && |c.upper| == 1 && c.lower == {}
    ensures NoSplit(Replace(levels, c, c.upper)) && Complete(levels, c)
  {
    NoSplitIsComplete(levels, c);
    forall f, g | f in c.upper && g in c.upper ensures f == g { OnlyOne(c.upper, f, g); }
    assert c.upper + c.lower == c.upper;
    ReplaceKeepsNoSplit(levels, c, c.upper);
  }

  lemma MergeKeepsNoSplit(st: State, c: Inputs, outputs: set<File>)
    requires Inv(st) && NoSplit(st.levels) && Picked(st.levels, c) && Outputs(st.levels, c, st.lastSeq, outputs)
    ensures NoSplit(Replace(st.levels, c, outputs)) && Complete(st.levels, c)
  {
    NoSplitIsComplete(st.levels, c);
    StoredInHistory(st);
    ReplaceSplits(st.levels, c, outputs);
    CompactKeepsNoSplit(st.levels, c, outputs, st.lastSeq);
    ReplaceKeepsNoSplit(st.levels, c, outputs);
  }

  lemma StepKeepsNoSplit(st: State, step: Step, st': State)
    requires Inv(st) && Next(st, step, st') && Unwatched(st, step) && NoSplit(st.levels)
    ensures NoSplit(st'.levels) && StepComplete(st, step)
  {
    match step
    case Flush(table, level) =>
      if table.Some? { AddKeepsNoSplit(st.levels, table.value, level); }
    case Move(c) => MoveKeepsNoSplit(st.levels, c);
    case Compact(c, outputs) => MergeKeepsNoSplit(st, c, outputs);
    case Crash(_, _, _, _) =>
    case _ =>
  }

  lemma UnwatchedStep(st: State, step: Step, st': State)
    requires Inv(st) && NoSplit(st.levels) && Next(st, step, st') && Unwatched(st, step)
    ensures Inv(st') && NoSplit(st'.levels)
  {
    StepKeepsNoSplit(st, step, st');
    StepKeepsInv(st, step, st');
  }

  lemma {:induction false} UnwatchedRunKeepsNoSplit(states: seq<State>, steps: seq<Step>, n: nat)
    requires Run(states, steps) && n < |states|
    requires forall i :: 0 <= i < n ==> Unwatched(states[i], steps[i])
    ensures Inv(states[n]) && NoSplit(states[n].levels)
  {
    if n == 0 {
      InitInv(states[0]);
      assert NoSplit(seq(NUM_LEVELS, i => {}));
    } else {
      UnwatchedRunKeepsNoSplit(states, steps, n - 1);
      UnwatchedStep(states[n - 1], steps[n - 1], states[n]);
    }
  }

  /** With no older snapshot held while a compaction runs, reads are right with no further hypothesis. */
  lemma UnwatchedRunReadsHistory(states: seq<State>, steps: seq<Step>, n: nat, k: UserKey, s: nat, r: Option<Value>)
    requires Run(states, steps) && n < |states| && Live(states[n], s)
    requires forall i :: 0 <= i < n ==> Unwatched(states[i], steps[i])
    requires ReadAnswers(states[n], k, s, r)
    ensures r == View(SetOf(states[n].hist), k, s)
  {
    forall i | 0 <= i < n ensures StepComplete(states[i], steps[i]) {
      UnwatchedRunKeepsNoSplit(states, steps, i);
      StepKeepsNoSplit(states[i], steps[i], states[i + 1]);
    }
    GetReadsHistory(states, steps, n, k, s, r);
  }
}
