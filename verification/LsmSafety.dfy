/** Every run of the log-structured merge tree, crashes included, reads like its plain history. */
module LsmSafety {
  import opened Keys
  import opened Lsm

  // ----- views

  lemma ViewSame(S: set<Entry>, T: set<Entry>, k: UserKey, s: nat)
    requires UniqueSeqs(S) && UniqueSeqs(T)
    requires forall x: Entry :: x.user == k && x.seqno <= s ==> (x in S <==> x in T)
    ensures View(S, k, s) == View(T, k, s)
  {
    if x :| x in S && x.user == k && x.seqno <= s {
      var e := NewestExists(S, k, s, x);
      ViewIs(S, k, s, e);
      ViewIs(T, k, s, e);
    } else {
      ViewIsNone(S, k, s);
      ViewIsNone(T, k, s);
    }
  }

  /** Two sets that look alike go on looking alike when the same newer entries join both. */
  lemma ViewExtends(S: set<Entry>, T: set<Entry>, N: set<Entry>, m: nat, k: UserKey, s: nat)
    requires UniqueSeqs(S + N) && UniqueSeqs(T + N)
    requires forall x :: x in S + T ==> x.seqno <= m
    requires forall x :: x in N ==> x.seqno > m
    requires View(S, k, s) == View(T, k, s)
    ensures View(S + N, k, s) == View(T + N, k, s)
  {
    if x :| x in N && x.user == k && x.seqno <= s {
      var e := NewestExists(N, k, s, x);
      ViewIs(S + N, k, s, e);
      ViewIs(T + N, k, s, e);
    } else {
      ViewSame(S + N, S, k, s);
      ViewSame(T + N, T, k, s);
    }
  }

  /** The drop rules hide nothing: `u` is everything above the inputs `a` and `d` everything below.
      At every sequence number from `snap` on, a reader sees the same with the kept entries as with all. */
  lemma DropKeepsView(u: set<Entry>, a: set<Entry>, d: set<Entry>, kept: set<Entry>, base: iset<UserKey>,
                      snap: nat, k: UserKey, s: nat)
    requires UniqueSeqs(u + a + d) && Newer(u, a) && s >= snap
    requires forall e :: e in d ==> e.user !in base
    requires forall e :: e in kept <==>
               e in a
               && !(exists x :: x in a && x.user == e.user && x.seqno > e.seqno && x.seqno <= snap)
               && !(e.typ.Deletion? && e.seqno <= snap && e.user in base)
    ensures View(u + kept + d, k, s) == View(u + a + d, k, s)
  {
    var all, left := u + a + d, u + kept + d;
    if x :| x in all && x.user == k && x.seqno <= s {
      var n := NewestExists(all, k, s, x);
      ViewIs(all, k, s, n);
      if n in left {
        ViewIs(left, k, s, n);
      } else {
        // n was dropped, and not by a newer entry: it is a deletion with nothing beneath it
        assert n in a && n.typ.Deletion? && n.seqno <= snap && k in base;
        assert forall y :: y in left && y.user == k ==> y.seqno > s;
        ViewIsNone(left, k, s);
      }
    } else {
      ViewIsNone(all, k, s);
      ViewIsNone(left, k, s);
    }
  }

  /** A history has one entry per sequence number, and any cut in it is a cut in the sequence numbers. */
  lemma HistorySplit(es: seq<Entry>, i: nat)
    requires Numbered(es) && i <= |es|
    ensures UniqueSeqs(SetOf(es)) && SetOf(es) == SetOf(es[..i]) + SetOf(es[i..])
    ensures forall e :: e in SetOf(es) ==> 1 <= e.seqno <= |es| && e == es[e.seqno - 1]
    ensures forall e :: e in SetOf(es[..i]) <==> e in SetOf(es) && e.seqno <= i
    ensures forall e :: e in SetOf(es[i..]) <==> e in SetOf(es) && e.seqno > i
  {
    HistoryPlaces(es);
    HistoryUnique(es);
    HistorySides(es, i);
  }

  lemma HistoryPlaces(es: seq<Entry>)
    requires Numbered(es)
    ensures forall e :: e in SetOf(es) ==> 1 <= e.seqno <= |es| && e == es[e.seqno - 1]
  {
    forall e | e in es ensures 1 <= e.seqno <= |es| && e == es[e.seqno - 1] {
      var j :| 0 <= j < |es| && es[j] == e;
    }
  }

  lemma HistoryUnique(es: seq<Entry>)
    requires Numbered(es)
    ensures UniqueSeqs(SetOf(es))
  {
    HistoryPlaces(es);
  }

  lemma HistorySides(es: seq<Entry>, i: nat)
    requires Numbered(es) && i <= |es|
    ensures SetOf(es) == SetOf(es[..i]) + SetOf(es[i..])
    ensures forall e :: e in SetOf(es[..i]) <==> e in SetOf(es) && e.seqno <= i
    ensures forall e :: e in SetOf(es[i..]) <==> e in SetOf(es) && e.seqno > i
  {
    assert es == es[..i] + es[i..];
    SetOfSplit(es[..i], es[i..]);
    LeftSide(es, i);
    RightSide(es, i);
    Sides(SetOf(es), SetOf(es[..i]), SetOf(es[i..]), i);
  }

  lemma LeftSide(es: seq<Entry>, i: nat)
    requires Numbered(es) && i <= |es|
    ensures forall e :: e in SetOf(es[..i]) ==> e.seqno <= i
  {
    forall e | e in es[..i] ensures e.seqno <= i {
      var j :| 0 <= j < i && es[..i][j] == e;
    }
  }

  lemma RightSide(es: seq<Entry>, i: nat)
    requires Numbered(es) && i <= |es|
    ensures forall e :: e in SetOf(es[i..]) ==> e.seqno > i
  {
    forall e | e in es[i..] ensures e.seqno > i {
      var j :| 0 <= j < |es| - i && es[i..][j] == e;
    }
  }

  lemma Sides(all: set<Entry>, a: set<Entry>, b: set<Entry>, i: nat)
    requires all == a + b && (forall e :: e in a ==> e.seqno <= i) && forall e :: e in b ==> e.seqno > i
    ensures forall e :: e in a <==> e in all && e.seqno <= i
    ensures forall e :: e in b <==> e in all && e.seqno > i
  {}

  lemma SetOfSplit(es: seq<Entry>, fs: seq<Entry>)
    ensures SetOf(es + fs) == SetOf(es) + SetOf(fs)
  {}

  /** The memtables are the history from `immFrom` on, plus operations nobody may see yet. */
  lemma MemTablesHoldTail(st: State)
    requires MemInv(st)
    ensures var imm := if st.imm.Some? then st.imm.value else {};
            st.mem + imm == SetOf(st.hist[st.immFrom..]) + SetOf(Pending(st)[..st.inserted])
    ensures forall e :: e in SetOf(Pending(st)) ==> e.seqno > st.lastSeq
  {
    SetOfSplit(st.hist[st.memFrom..], Pending(st)[..st.inserted]);
    SetOfSplit(st.hist[st.immFrom..st.memFrom], st.hist[st.memFrom..]);
    assert st.hist[st.immFrom..] == st.hist[st.immFrom..st.memFrom] + st.hist[st.memFrom..];
    assert st.imm.None? ==> st.hist[st.immFrom..st.memFrom] == [];
    HistorySplit(st.hist + Pending(st), |st.hist|);
    assert (st.hist + Pending(st))[|st.hist|..] == Pending(st);
  }

  lemma TailCompletesView(stored: set<Entry>, front: set<Entry>, tail: set<Entry>, unseen: set<Entry>,
                          m: nat, k: UserKey, s: nat)
    requires UniqueSeqs(front + tail + unseen) && stored <= front
    requires forall x :: x in front ==> x.seqno <= m
    requires forall x :: x in tail ==> x.seqno > m
    requires forall x :: x in unseen ==> x.seqno > s
    requires View(stored, k, s) == View(front, k, s)
    ensures View(stored + tail + unseen, k, s) == View(front + tail, k, s)
  {
    ViewExtends(stored, front, tail, m, k, s);
    ViewSame(stored + tail + unseen, stored + tail, k, s);
  }

  /** The reader's theorem: a live snapshot, or the last sequence number, sees exactly the plain history. */
  lemma StateReadsHistory(st: State, k: UserKey, s: nat)
    requires Inv(st) && Horizon(st) <= s <= st.lastSeq
    ensures var imm := if st.imm.Some? then st.imm.value else {};
            View(st.mem + imm + Stored(st.levels), k, s) == View(SetOf(st.hist), k, s)
  {
    var imm := if st.imm.Some? then st.imm.value else {};
    var front, tail := SetOf(st.hist[..st.immFrom]), SetOf(st.hist[st.immFrom..]);
    var stored, unseen := Stored(st.levels), SetOf(Pending(st)[..st.inserted]);
    MemTablesHoldTail(st);
    assert st.mem + imm + stored == stored + tail + unseen;
    assert unseen <= SetOf(Pending(st));
    assert UniqueSeqs(front + tail + unseen) by {
      SetOfSplit(st.hist, Pending(st));
      HistorySplit(st.hist + Pending(st), |st.hist|);
      HistorySplit(st.hist, st.immFrom);
    }
    HistorySplit(st.hist, st.immFrom);
    assert stored <= front;
    TailCompletesView(stored, front, tail, unseen, st.immFrom, k, s);
  }

  // ----- steps that leave the tables alone

  lemma SnapshotsKeepInv(st: State, step: Step, st': State)
    requires Inv(st) && Next(st, step, st') && (step.TakeSnapshot? || step.Release?)
    ensures Inv(st') && Horizon(st') >= Horizon(st)
  {
    SnapshotsKeepOrder(st, step, st');
    FaithfulLater(st, st');
    assert Pending(st') == Pending(st);
  }

  lemma SnapshotsKeepOrder(st: State, step: Step, st': State)
    requires SnapInv(st) && Next(st, step, st') && (step.TakeSnapshot? || step.Release?)
    ensures SnapInv(st') && Horizon(st') >= Horizon(st)
  {}

  /** Readers that are gone only make it easier to look like the history. */
  lemma FaithfulLater(st: State, st': State)
    requires Faithful(st) && Horizon(st') >= Horizon(st)
    requires st'.levels == st.levels && st'.hist == st.hist && st'.immFrom == st.immFrom
    ensures Faithful(st')
  {}

  lemma {:induction false} FlattenAppend(bs: seq<Batch>, b: Batch)
    ensures Flatten(bs + [b]) == Flatten(bs) + b
  {
    assert (bs + [b])[..|bs|] == bs;
  }

  lemma WritesKeepMem(st: State, step: Step, st': State)
    requires Inv(st) && Next(st, step, st') && (step.LogAppend? || step.MemInsert? || step.Commit?)
    ensures MemInv(st')
  {
    var done := Pending(st)[..st.inserted];
    match step
    case LogAppend(batch) =>
      assert st.hist + [] == st.hist;
      assert Pending(st')[..0] == [] == done;
    case MemInsert =>
      assert Pending(st)[..st.inserted + 1] == done + [Pending(st)[st.inserted]];
      SetOfSplit(st.hist[st.memFrom..], done);
      SetOfSplit(st.hist[st.memFrom..], Pending(st')[..st'.inserted]);
      SetOfSplit(done, [Pending(st)[st.inserted]]);
    case Commit =>
      assert done == Pending(st);
      assert st'.hist[st.memFrom..] + [] == st.hist[st.memFrom..] + Pending(st);
      assert st'.hist[st.immFrom..st.memFrom] == st.hist[st.immFrom..st.memFrom];
      assert st'.hist + [] == st'.hist;
  }

  lemma WritesKeepLogs(st: State, step: Step, st': State)
    requires LogInv(st) && MemInv(st) && Next(st, step, st') && (step.LogAppend? || step.MemInsert? || step.Commit?)
    ensures LogInv(st')
  {
    match step
    case LogAppend(batch) =>
      FlattenAppend(st.logs[st.curLog], batch);
    case MemInsert =>
    case Commit =>
      assert st'.hist[st.memFrom..] + [] == st.hist[st.memFrom..] + Pending(st);
      assert st'.hist[st.immFrom..st.memFrom] == st.hist[st.immFrom..st.memFrom];
  }

  lemma WritesKeepInv(st: State, step: Step, st': State)
    requires Inv(st) && Next(st, step, st') && (step.LogAppend? || step.MemInsert? || step.Commit?)
    ensures Inv(st')
  {
    WritesKeepMem(st, step, st');
    WritesKeepLogs(st, step, st');
    assert st'.hist[..st'.immFrom] == st.hist[..st.immFrom];
    assert Horizon(st') >= Horizon(st);
  }

  lemma SwitchKeepsInv(st: State, st': State)
    requires Inv(st) && Next(st, Switch, st')
    ensures Inv(st')
  {
    assert Pending(st)[..st.inserted] == [];
    assert st.hist[st.memFrom..] + [] == st.hist[st.memFrom..|st.hist|];
    assert st'.hist[|st.hist|..] + [] == [];
    assert MemInv(st');
    assert LogInv(st');
    assert st'.hist[..st'.immFrom] == st.hist[..st.immFrom];
  }

  // ----- adding one newer table: flush and recovery

  lemma StoredGrows(levels: seq<set<File>>, f: File, level: nat)
    requires level < |levels|
    ensures Stored(levels[level := levels[level] + {f}]) == Stored(levels) + SetOf(f.entries)
  {
    var levels' := levels[level := levels[level] + {f}];
    assert Contents(levels'[level]) == Contents(levels[level]) + SetOf(f.entries);
    forall e ensures e in Stored(levels') <==> e in Stored(levels) + SetOf(f.entries) {
      if e in Stored(levels) {
        var i :| 0 <= i < |levels| && e in Contents(levels[i]);
        assert e in Contents(levels'[i]);
      }
      if e in SetOf(f.entries) { assert e in Contents(levels'[level]); }
      if e in Stored(levels') {
        var i :| 0 <= i < |levels'| && e in Contents(levels'[i]);
        assert i == level || e in Contents(levels[i]);
      }
    }
  }

  lemma NoSharedKeys(g: File, f: File)
    requires !Overlaps(g, Smallest(f).user, Largest(f).user)
    ensures FileBefore(g, f) || FileBefore(f, g)
    ensures forall x, y :: x in g.entries && y in f.entries ==> x.user != y.user
  {
    forall x, y | x in g.entries && y in f.entries ensures x.user != y.user {
      InRange(g, x);
      InRange(f, y);
    }
  }

  /** A table newer than everything stored may go to level 0, or past levels it does not meet. */
  lemma AddKeepsOrder(levels: seq<set<File>>, f: File, level: nat, m: nat)
    requires Shaped(levels) && Ordered(levels) && MayPlace(levels, f, level)
    requires forall e :: e in Stored(levels) ==> e.seqno <= m
    requires forall e :: e in f.entries ==> e.seqno > m
    requires level == 0 ==> forall g :: g in levels[0] ==> g.number < f.number
    ensures Shaped(levels[level := levels[level] + {f}]) && Ordered(levels[level := levels[level] + {f}])
  {
    var levels' := levels[level := levels[level] + {f}];
    assert Contents(levels'[level]) == Contents(levels[level]) + SetOf(f.entries);
    forall i, e | 0 <= i < |levels| && e in Contents(levels[i]) ensures e.seqno <= m {
      assert e in Stored(levels);
    }
    forall g | g in levels[0] ensures Newer(SetOf(f.entries), SetOf(g.entries)) {
      forall e | e in g.entries ensures e in Contents(levels[0]) {}
    }
    forall i | 0 <= i < level ensures Newer(Contents(levels[i]), SetOf(f.entries)) {
      forall g | g in levels[i] { NoSharedKeys(g, f); }
    }
    forall g | level > 0 && g in levels[level] { NoSharedKeys(g, f); }
    forall i, j | 0 <= i < j < |levels'| ensures Newer(Contents(levels'[i]), Contents(levels'[j])) {}
  }

  lemma StoredInHistory(st: State)
    requires Inv(st)
    ensures forall e :: e in Stored(st.levels) ==> 1 <= e.seqno <= st.immFrom
    ensures UniqueSeqs(Stored(st.levels))
  {
    HistorySplit(st.hist, st.immFrom);
  }

  /** The operations between two points of the history, as the tables will see them. */
  lemma HistoryStretch(hist: seq<Entry>, a: nat, b: nat)
    requires Numbered(hist) && a <= b <= |hist|
    ensures SetOf(hist[..b]) == SetOf(hist[..a]) + SetOf(hist[a..b])
    ensures UniqueSeqs(SetOf(hist[..b]))
    ensures forall e :: e in SetOf(hist[..a]) ==> e.seqno <= a
    ensures forall e :: e in SetOf(hist[a..b]) ==> a < e.seqno <= b
  {
    assert hist[..b] == hist[..a] + hist[a..b];
    SetOfSplit(hist[..a], hist[a..b]);
    HistoryUnique(hist[..b]);
    LeftSide(hist, a);
    StretchSeqs(hist, a, b);
  }

  lemma StretchSeqs(hist: seq<Entry>, a: nat, b: nat)
    requires Numbered(hist) && a <= b <= |hist|
    ensures forall e :: e in SetOf(hist[a..b]) ==> a < e.seqno <= b
  {
    forall e | e in hist[a..b] ensures a < e.seqno <= b {
      var j :| 0 <= j < b - a && hist[a..b][j] == e;
    }
  }

  lemma StretchKeepsView(levels: seq<set<File>>, levels': seq<set<File>>, hist: seq<Entry>, a: nat, b: nat, h: nat)
    requires Numbered(hist) && a <= b <= |hist|
    requires forall e :: e in Stored(levels) ==> e in SetOf(hist[..a])
    requires Stored(levels') == Stored(levels) + SetOf(hist[a..b])
    requires forall k, s :: s >= h ==> View(Stored(levels), k, s) == View(SetOf(hist[..a]), k, s)
    ensures forall k, s :: s >= h ==> View(Stored(levels'), k, s) == View(SetOf(hist[..b]), k, s)
    ensures forall e :: e in Stored(levels') ==> e in SetOf(hist[..b])
  {
    HistoryStretch(hist, a, b);
    assert UniqueSeqs(Stored(levels) + SetOf(hist[a..b]));
    forall k, s | s >= h ensures View(Stored(levels'), k, s) == View(SetOf(hist[..b]), k, s) {
      ViewExtends(Stored(levels), SetOf(hist[..a]), SetOf(hist[a..b]), a, k, s);
    }
  }

  lemma FlushKeepsTables(st: State, table: Option<File>, level: nat, st': State)
    requires Inv(st) && FlushNext(st, table, level, st')
    ensures Shaped(st'.levels) && Ordered(st'.levels)
    ensures Stored(st'.levels) == Stored(st.levels) + SetOf(st.hist[st.immFrom..st.memFrom])
  {
    HistoryStretch(st.hist, st.immFrom, st.memFrom);
    StoredInHistory(st);
    if table.Some? {
      assert forall e :: e in table.value.entries ==> e in SetOf(table.value.entries);
      AddKeepsOrder(st.levels, table.value, level, st.immFrom);
      StoredGrows(st.levels, table.value, level);
    }
  }

  lemma FlushKeepsInv(st: State, table: Option<File>, level: nat, st': State)
    requires Inv(st) && Next(st, Flush(table, level), st')
    ensures Inv(st')
  {
    FlushKeepsTables(st, table, level, st');
    assert MemInv(st') && SnapInv(st') && LogInv(st');
    StretchKeepsView(st.levels, st'.levels, st.hist, st.immFrom, st.memFrom, Horizon(st));
  }

  // ----- replacing tables: trivial move and compaction

  ghost function Above(levels: seq<set<File>>, c: Inputs): set<Entry>
    requires |levels| == NUM_LEVELS && c.level + 1 < NUM_LEVELS
  {
    Stored(levels[..c.level]) + Contents(levels[c.level] - c.upper) + Contents(levels[c.level + 1] - c.lower)
  }

  ghost function Below(levels: seq<set<File>>, c: Inputs): set<Entry>
    requires |levels| == NUM_LEVELS && c.level + 1 < NUM_LEVELS
  {
    Stored(levels[c.level + 2..])
  }

  lemma ContentsUnion(fs: set<File>, gs: set<File>)
    ensures Contents(fs + gs) == Contents(fs) + Contents(gs)
    ensures gs <= fs ==> Contents(fs) == Contents(fs - gs) + Contents(gs)
  {
    if gs <= fs { assert fs == (fs - gs) + gs; }
  }

  lemma NewerLeft(a: set<Entry>, b: set<Entry>, c: set<Entry>)
    requires Newer(a, c) && Newer(b, c)
    ensures Newer(a + b, c)
  {}

  lemma NewerRight(a: set<Entry>, b: set<Entry>, c: set<Entry>)
    requires Newer(a, b) && Newer(a, c)
    ensures Newer(a, b + c)
  {}

  lemma NewerSub(a: set<Entry>, b: set<Entry>, a': set<Entry>, b': set<Entry>)
    requires Newer(a, b) && a' <= a && b' <= b
    ensures Newer(a', b')
  {}

  /** Levels `n` and `n + 1` picked out of what is stored. */
  lemma StoredSplits(levels: seq<set<File>>, n: nat)
    requires n + 1 < |levels|
    ensures Stored(levels) ==
            Stored(levels[..n]) + Contents(levels[n]) + Contents(levels[n + 1]) + Stored(levels[n + 2..])
  {
    forall e ensures e in Stored(levels) <==>
      e in Stored(levels[..n]) + Contents(levels[n]) + Contents(levels[n + 1]) + Stored(levels[n + 2..])
    {
      if e in Stored(levels) {
        var i :| 0 <= i < |levels| && e in Contents(levels[i]);
        if i < n { assert e in Contents(levels[..n][i]); }
        if i >= n + 2 { assert e in Contents(levels[n + 2..][i - n - 2]); }
      }
      if e in Stored(levels[..n]) {
        var i :| 0 <= i < n && e in Contents(levels[..n][i]);
        assert e in Contents(levels[i]);
      }
      if e in Stored(levels[n + 2..]) {
        var i :| 0 <= i < |levels| - n - 2 && e in Contents(levels[n + 2..][i]);
        assert e in Contents(levels[n + 2 + i]);
      }
    }
  }

  lemma ReplaceSplits(levels: seq<set<File>>, c: Inputs, outputs: set<File>)
    requires Picked(levels, c)
    ensures Stored(levels) == Above(levels, c) + Contents(c.upper + c.lower) + Below(levels, c)
    ensures Stored(Replace(levels, c, outputs)) == Above(levels, c) + Contents(outputs) + Below(levels, c)
  {
    SplitsBefore(levels, c);
    SplitsAfter(levels, c, outputs);
  }

  lemma SplitsBefore(levels: seq<set<File>>, c: Inputs)
    requires Picked(levels, c)
    ensures Stored(levels) == Above(levels, c) + Contents(c.upper + c.lower) + Below(levels, c)
  {
    var n := c.level;
    StoredSplits(levels, n);
    ContentsUnion(levels[n], c.upper);
    ContentsUnion(levels[n + 1], c.lower);
    ContentsUnion(c.upper, c.lower);
    AddUp(Stored(levels[..n]), Contents(levels[n] - c.upper), Contents(c.upper),
          Contents(levels[n + 1] - c.lower), Contents(c.lower), {}, Stored(levels[n + 2..]));
  }

  lemma SplitsAfter(levels: seq<set<File>>, c: Inputs, outputs: set<File>)
    requires |levels| == NUM_LEVELS && c.level + 1 < NUM_LEVELS
    ensures Stored(Replace(levels, c, outputs)) == Above(levels, c) + Contents(outputs) + Below(levels, c)
  {
    var levels', n := Replace(levels, c, outputs), c.level;
    StoredSplits(levels', n);
    SameEnds(levels, levels', n);
    var kept := levels[n + 1] - c.lower;
    assert levels'[n] == levels[n] - c.upper && levels'[n + 1] == kept + outputs;
    ContentsUnion(kept, outputs);
    AddUp(Stored(levels[..n]), Contents(levels[n] - c.upper), {}, Contents(kept), {}, Contents(outputs),
          Stored(levels[n + 2..]));
  }

  lemma SameEnds(levels: seq<set<File>>, levels': seq<set<File>>, n: nat)
    requires |levels| == |levels'| && n + 1 < |levels|
    requires forall i :: 0 <= i < |levels| && i != n && i != n + 1 ==> levels'[i] == levels[i]
    ensures levels'[..n] == levels[..n] && levels'[n + 2..] == levels[n + 2..]
  {}

  lemma AddUp<T>(a: set<T>, r0: set<T>, u: set<T>, r1: set<T>, l: set<T>, o: set<T>, b: set<T>)
    ensures a + (r0 + u) + (r1 + l) + b == (a + r0 + r1) + (u + l) + b
    ensures a + r0 + (r1 + o) + b == (a + r0 + r1) + o + b
  {}

  /** A file of the lower level that is not an input shares no user key with the upper inputs. */
  lemma RestMissesRange(levels: seq<set<File>>, c: Inputs)
    requires Picked(levels, c)
    ensures forall x, y :: x in Contents(levels[c.level + 1] - c.lower) && y in Contents(c.upper)
              ==> x.user != y.user
    ensures c.level == 0 ==>
      forall x, y :: x in Contents(levels[0] - c.upper) && y in Contents(c.upper) ==> x.user != y.user
  {
    forall f, y | f in c.upper && y in f.entries ensures c.lo <= y.user <= c.hi { InRange(f, y); }
    forall g, x | g in levels[c.level + 1] - c.lower && x in g.entries ensures !(c.lo <= x.user <= c.hi) {
      InRange(g, x);
    }
    if c.level == 0 {
      forall g, x | g in levels[0] - c.upper && x in g.entries ensures !(c.lo <= x.user <= c.hi) {
        InRange(g, x);
      }
    }
  }

  lemma UpperLevelsNewer(levels: seq<set<File>>, n: nat, j: nat)
    requires Ordered(levels) && n <= j < |levels|
    ensures Newer(Stored(levels[..n]), Contents(levels[j]))
  {
    forall x, y | x in Stored(levels[..n]) && y in Contents(levels[j]) && x.user == y.user ensures x.seqno > y.seqno {
      var i :| 0 <= i < n && x in Contents(levels[..n][i]);
      assert Newer(Contents(levels[i]), Contents(levels[j]));
    }
  }

  lemma RestIsNewer(levels: seq<set<File>>, c: Inputs)
    requires Picked(levels, c) && Ordered(levels) && Complete(levels, c)
    ensures Newer(Contents(levels[c.level] - c.upper), Contents(c.upper + c.lower))
    ensures Newer(Contents(levels[c.level + 1] - c.lower), Contents(c.upper + c.lower))
  {
    var n := c.level;
    ContentsUnion(c.upper, c.lower);
    ContentsUnion(levels[n], c.upper);
    ContentsUnion(levels[n + 1], c.lower);
    assert Newer(Contents(levels[n]), Contents(levels[n + 1]));
    NewerSub(Contents(levels[n]), Contents(levels[n + 1]), Contents(levels[n] - c.upper), Contents(c.lower));
    NewerRight(Contents(levels[n] - c.upper), Contents(c.upper), Contents(c.lower));
    RestMissesRange(levels, c);
    NewerRight(Contents(levels[n + 1] - c.lower), Contents(c.upper), Contents(c.lower));
  }

  lemma AboveIsNewer(levels: seq<set<File>>, c: Inputs)
    requires Picked(levels, c) && Ordered(levels) && Complete(levels, c)
    ensures Newer(Above(levels, c), Contents(c.upper + c.lower))
  {
    var n, a := c.level, Contents(c.upper + c.lower);
    RestIsNewer(levels, c);
    UpperLevelsNewer(levels, n, n);
    UpperLevelsNewer(levels, n, n + 1);
    NewerRight(Stored(levels[..n]), Contents(levels[n]), Contents(levels[n + 1]));
    InputsStored(levels, c);
    NewerSub(Stored(levels[..n]), Contents(levels[n]) + Contents(levels[n + 1]), Stored(levels[..n]), a);
    NewerLeft(Stored(levels[..n]), Contents(levels[n] - c.upper), a);
    NewerLeft(Stored(levels[..n]) + Contents(levels[n] - c.upper), Contents(levels[n + 1] - c.lower), a);
  }

  lemma InputsStored(levels: seq<set<File>>, c: Inputs)
    requires Picked(levels, c)
    ensures Contents(c.upper + c.lower) <= Contents(levels[c.level]) + Contents(levels[c.level + 1])
    ensures Contents(levels[c.level] - c.upper) <= Contents(levels[c.level])
    ensures Contents(levels[c.level + 1] - c.lower) <= Contents(levels[c.level + 1])
  {
    ContentsUnion(c.upper, c.lower);
    ContentsUnion(levels[c.level], c.upper);
    ContentsUnion(levels[c.level + 1], c.lower);
  }

  lemma ReplaceKeepsAge(levels: seq<set<File>>, c: Inputs, outputs: set<File>)
    requires Shaped(levels) && Ordered(levels) && Picked(levels, c) && Complete(levels, c)
    requires Contents(outputs) <= Contents(c.upper + c.lower)
    ensures Ordered(Replace(levels, c, outputs))
  {
    var levels', n := Replace(levels, c, outputs), c.level;
    InputsStored(levels, c);
    ContentsUnion(levels[n + 1] - c.lower, outputs);
    RestIsNewer(levels, c);
    forall i, j | 0 <= i < j < |levels'| ensures Newer(Contents(levels'[i]), Contents(levels'[j])) {
      PairKeepsAge(levels, levels', n, i, j, Contents(levels[n + 1] - c.lower), Contents(outputs),
                   Contents(c.upper + c.lower));
    }
  }

  /** The age of two levels, once the inputs have left for the lower one. */
  lemma PairKeepsAge(
    levels: seq<set<File>>, levels': seq<set<File>>, n: nat, i: nat, j: nat,
    rest: set<Entry>, outputs: set<Entry>, inputs: set<Entry>)
    requires n + 1 < |levels| == |levels'| && i < j < |levels|
    requires forall a, b :: 0 <= a < b < |levels| ==> Newer(Contents(levels[a]), Contents(levels[b]))
    requires forall m :: 0 <= m < |levels| && m != n && m != n + 1 ==> levels'[m] == levels[m]
    requires Contents(levels'[n]) <= Contents(levels[n]) && Contents(levels'[n + 1]) == rest + outputs
    requires rest <= Contents(levels[n + 1]) && outputs <= inputs <= Contents(levels[n]) + Contents(levels[n + 1])
    requires Newer(Contents(levels'[n]), inputs)
    ensures Newer(Contents(levels'[i]), Contents(levels'[j]))
  {
    var here, next := Contents(levels[n]), Contents(levels[n + 1]);
    var a, b := Contents(levels'[i]), Contents(levels'[j]);
    assert Newer(Contents(levels[i]), Contents(levels[j]));
    if i == n && j == n + 1 {
      NewerSub(here, next, a, rest);
      NewerSub(a, inputs, a, outputs);
      NewerRight(a, rest, outputs);
    } else if j == n + 1 {
      assert Newer(Contents(levels[i]), here);
      NewerRight(a, here, next);
      NewerSub(a, here + next, a, b);
    } else if i == n + 1 {
      assert Newer(here, b);
      NewerLeft(here, next, b);
      NewerSub(here + next, b, a, b);
    } else {
      NewerSub(Contents(levels[i]), Contents(levels[j]), a, b);
    }
  }

  /** A non-input file of the lower level lies wholly before or wholly after all the inputs. */
  lemma RestAvoidsInputs(levels: seq<set<File>>, c: Inputs, g: File, o: File)
    requires Shaped(levels) && Picked(levels, c) && g in levels[c.level + 1] - c.lower
    requires SetOf(o.entries) <= Contents(c.upper + c.lower)
    ensures FileBefore(g, o) || FileBefore(o, g)
  {
    assert Smallest(o) in SetOf(o.entries) && Largest(o) in SetOf(o.entries);
    forall f, x | f in c.upper + c.lower && x in f.entries
      ensures Largest(g).user < c.lo ==> Less(Largest(g), x)
      ensures Smallest(g).user > c.hi ==> Less(x, Smallest(g))
    {
      InRange(f, x);
      InRange(g, Largest(g));
      if f in c.lower {
        assert FileBefore(f, g) || FileBefore(g, f);
        InRange(f, Largest(f));
      }
    }
  }

  lemma ReplaceKeepsShape(levels: seq<set<File>>, c: Inputs, outputs: set<File>)
    requires Shaped(levels) && Picked(levels, c) && Disjoint(outputs)
    requires Contents(outputs) <= Contents(c.upper + c.lower)
    ensures Shaped(Replace(levels, c, outputs))
  {
    var levels', n := Replace(levels, c, outputs), c.level;
    forall f, g | f in levels'[n + 1] && g in levels'[n + 1] && f != g
      ensures FileBefore(f, g) || FileBefore(g, f)
    {
      if f in outputs && g !in outputs {
        assert SetOf(f.entries) <= Contents(outputs);
        RestAvoidsInputs(levels, c, g, f);
      } else if g in outputs && f !in outputs {
        assert SetOf(g.entries) <= Contents(outputs);
        RestAvoidsInputs(levels, c, f, g);
      }
    }
    forall i | 1 <= i < NUM_LEVELS ensures Disjoint(levels'[i]) {
      if i != n + 1 { assert levels'[i] <= levels[i]; }
    }
  }

  lemma BaseLevelHasNothingBelow(levels: seq<set<File>>, c: Inputs, e: Entry)
    requires |levels| == NUM_LEVELS && c.level + 1 < NUM_LEVELS && e in Below(levels, c)
    ensures !IsBaseLevel(levels, c.level, e.user)
  {
    var i :| 0 <= i < |levels| - c.level - 2 && e in Contents(levels[c.level + 2..][i]);
    var f: File :| f in levels[c.level + 2 + i] && e in f.entries;
    InRange(f, e);
    assert Overlaps(f, e.user, e.user);
  }

  /** What the compaction writes reads like what it consumed, for everybody from `snap` on. */
  lemma CompactKeepsView(levels: seq<set<File>>, c: Inputs, outputs: set<File>, snap: nat, k: UserKey, s: nat)
    requires Picked(levels, c) && Ordered(levels) && Complete(levels, c)
    requires Outputs(levels, c, snap, outputs) && s >= snap && UniqueSeqs(Stored(levels))
    ensures View(Stored(Replace(levels, c, outputs)), k, s) == View(Stored(levels), k, s)
  {
    var base := iset u | IsBaseLevel(levels, c.level, u);
    AboveIsNewer(levels, c);
    ReplaceSplits(levels, c, outputs);
    forall e | e in Below(levels, c) ensures e.user !in base { BaseLevelHasNothingBelow(levels, c, e); }
    assert UniqueSeqs(Above(levels, c) + Contents(c.upper + c.lower) + Below(levels, c));
    DropKeepsView(Above(levels, c), Contents(c.upper + c.lower), Below(levels, c), Contents(outputs), base, snap, k, s);
  }

  lemma ReplaceKeepsLogs(st: State, c: Inputs, outputs: set<File>, next: nat, st': State)
    requires LogInv(st) && MemInv(st) && Picked(st.levels, c) && next >= st.nextFile
    requires forall f :: f in outputs ==> f.number < next
    requires st' == st.(levels := Replace(st.levels, c, outputs), nextFile := next,
                        manifest := st.manifest.(lastSeq := st.lastSeq, nextFile := next))
    ensures LogInv(st') && MemInv(st')
  {
    forall i, f | 0 <= i < |st'.levels| && f in st'.levels[i] ensures f.number < next {
      assert f in outputs || f in st.levels[i];
    }
  }

  lemma ReplaceKeepsTables(st: State, c: Inputs, outputs: set<File>)
    requires Inv(st) && Picked(st.levels, c) && Complete(st.levels, c) && Disjoint(outputs)
    requires Contents(outputs) <= Contents(c.upper + c.lower)
    ensures Shaped(Replace(st.levels, c, outputs)) && Ordered(Replace(st.levels, c, outputs))
    ensures Stored(Replace(st.levels, c, outputs)) <= Stored(st.levels)
  {
    ReplaceKeepsAge(st.levels, c, outputs);
    ReplaceKeepsShape(st.levels, c, outputs);
    ReplaceSplits(st.levels, c, outputs);
  }

  lemma CompactKeepsInv(st: State, c: Inputs, outputs: set<File>, st': State)
    requires Inv(st) && Next(st, Compact(c, outputs), st') && Complete(st.levels, c)
    ensures Inv(st')
  {
    ReplaceKeepsTables(st, c, outputs);
    ReplaceKeepsLogs(st, c, outputs, st'.nextFile, st');
    StoredInHistory(st);
    forall k, s | s >= Horizon(st')
      ensures View(Stored(st'.levels), k, s) == View(SetOf(st'.hist[..st'.immFrom]), k, s)
    {
      CompactKeepsView(st.levels, c, outputs, Horizon(st), k, s);
    }
  }

  lemma OnlyOne<T>(s: set<T>, x: T, y: T)
    requires |s| == 1 && x in s && y in s
    ensures x == y
  {
    if x != y { SubsetSize({x, y}, s); }
  }

  lemma MoveKeepsInv(st: State, c: Inputs, st': State)
    requires Inv(st) && Next(st, Move(c), st') && Complete(st.levels, c)
    ensures Inv(st')
  {
    assert c.upper + c.lower == c.upper;
    forall f, g | f in c.upper && g in c.upper ensures f == g { OnlyOne(c.upper, f, g); }
    ReplaceKeepsTables(st, c, c.upper);
    ReplaceSplits(st.levels, c, c.upper);
    ReplaceKeepsLogs(st, c, c.upper, st.nextFile, st');
  }

  lemma SubsetSize<T>(a: set<T>, b: set<T>)
    requires a <= b
    ensures |a| <= |b|
  {
    assert b == a + (b - a);
  }
}
