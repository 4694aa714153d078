/** When a read after a move or a compaction is right, and when it goes back in time.

    A compaction whose inputs leave part of a user key behind on their level may put the newest entry beneath an
    older one. These lemmas say for each user key and each sequence number exactly when that happens, in terms of the
    state before the step. */
module LsmStale {
  import opened Keys
  import opened Lsm
  import opened LsmSafety
  import opened LsmRuns
  import opened LsmReads

  /** The order that reads rely on: memtable over immutable memtable over the levels. */
  ghost predicate Layered(mem: set<Entry>, imm: set<Entry>, levels: seq<set<File>>) {
    && Shaped(levels) && Ordered(levels) && UniqueSeqs(mem + imm + Stored(levels))
    && Newer(mem, imm) && Newer(mem, Stored(levels)) && Newer(imm, Stored(levels))
  }

  lemma InvLayered(st: State)
    requires Inv(st)
    ensures Layered(st.mem, ImmOf(st), st.levels)
  {
    InvUnique(st);
    MemOverImm(st);
    StoredInHistory(st);
  }

  /** Nothing that a read of `k` at `s` meets before level `i`. */
  ghost predicate Clear(mem: set<Entry>, imm: set<Entry>, levels: seq<set<File>>, i: nat, k: UserKey, s: nat)
    requires i <= |levels|
  {
    && !Visible(mem, k, s) && !Visible(imm, k, s)
    && forall j :: 0 <= j < i ==> !Visible(Contents(levels[j]), k, s)
  }

  /** Above the newest entry there is nothing to see. */
  lemma ClearAbove(mem: set<Entry>, imm: set<Entry>, levels: seq<set<File>>, i: nat, k: UserKey, s: nat, N: Entry)
    requires Layered(mem, imm, levels) && Newest(mem + imm + Stored(levels), k, s, N)
    requires i < |levels| && N in Contents(levels[i])
    ensures Clear(mem, imm, levels, i, k, s)
  {
    assert N in Stored(levels);
    forall j | 0 <= j < i ensures !Visible(Contents(levels[j]), k, s) {
      assert Newer(Contents(levels[j]), Contents(levels[i]));
      assert Contents(levels[j]) <= Stored(levels);
    }
  }

  /** A level with nothing to see above it is where the read stops. */
  lemma StopsHere(mem: set<Entry>, imm: set<Entry>, levels: seq<set<File>>, i: nat, k: UserKey, s: nat, e: Entry)
    requires 0 < i < |levels| && Clear(mem, imm, levels, i, k, s) && Newest(Contents(levels[i]), k, s, e)
    ensures StopsAt(mem, imm, levels, k, s, e)
  {}

  /** The newest entry of level 0 is found there, if the tables are in order of age. */
  lemma StopsInFirst(mem: set<Entry>, imm: set<Entry>, levels: seq<set<File>>, k: UserKey, s: nat, N: Entry)
    requires |levels| > 0 && Clear(mem, imm, levels, 0, k, s) && Newest(Contents(levels[0]), k, s, N)
    requires forall f, g :: f in levels[0] && g in levels[0] && f.number > g.number ==>
               Newer(SetOf(f.entries), SetOf(g.entries))
    ensures StopsAt(mem, imm, levels, k, s, N)
  {
    var f: File :| f in levels[0] && N in f.entries;
    forall g | g in levels[0] && g.number > f.number ensures !Visible(SetOf(g.entries), k, s) {
      assert Newer(SetOf(g.entries), SetOf(f.entries));
      assert SetOf(g.entries) <= Contents(levels[0]);
    }
    assert SetOf(f.entries) <= Contents(levels[0]);
    assert StopsInLevel0(levels[0], k, s, N);
  }

  lemma NewestIn(a: set<Entry>, b: set<Entry>, k: UserKey, s: nat, N: Entry)
    requires Newest(a, k, s, N) && b <= a && N in b
    ensures Newest(b, k, s, N)
  {}

  /** A read stops at one entry only. */
  lemma StopIsUnique(mem: set<Entry>, imm: set<Entry>, levels: seq<set<File>>, k: UserKey, s: nat, x: Entry, y: Entry)
    requires |levels| > 0 && UniqueSeqs(mem + imm + Stored(levels))
    requires forall f, g :: f in levels[0] && g in levels[0] && f.number == g.number ==> f == g
    requires StopsAt(mem, imm, levels, k, s, x) && StopsAt(mem, imm, levels, k, s, y)
    ensures x == y
  {
    if !Visible(mem, k, s) && !Visible(imm, k, s) {
      StopInVersionIsUnique(levels, k, s, x, y);
    } else if Visible(mem, k, s) {
      BothNewest(mem, mem + imm + Stored(levels), k, s, x, y);
    } else {
      BothNewest(imm, mem + imm + Stored(levels), k, s, x, y);
    }
  }

  lemma BothNewest(a: set<Entry>, all: set<Entry>, k: UserKey, s: nat, x: Entry, y: Entry)
    requires a <= all && UniqueSeqs(all) && Newest(a, k, s, x) && Newest(a, k, s, y)
    ensures x == y
  {}

  lemma StopInVersionIsUnique(levels: seq<set<File>>, k: UserKey, s: nat, x: Entry, y: Entry)
    requires |levels| > 0 && UniqueSeqs(Stored(levels))
    requires forall f, g :: f in levels[0] && g in levels[0] && f.number == g.number ==> f == g
    requires StopsInVersion(levels, k, s, x) && StopsInVersion(levels, k, s, y)
    ensures x == y
  {
    if StopsInLevel0(levels[0], k, s, x) && StopsInLevel0(levels[0], k, s, y) {
      var f :| f in levels[0] && Newest(SetOf(f.entries), k, s, x)
        && forall g :: g in levels[0] && g.number > f.number ==> !Visible(SetOf(g.entries), k, s);
      var g :| g in levels[0] && Newest(SetOf(g.entries), k, s, y)
        && forall h :: h in levels[0] && h.number > g.number ==> !Visible(SetOf(h.entries), k, s);
      assert f.number == g.number;
      assert SetOf(f.entries) <= Contents(levels[0]) <= Stored(levels);
      BothNewest(SetOf(f.entries), Stored(levels), k, s, x, y);
    } else {
      var i := StopLevel(levels, k, s, x);
      var j := StopLevel(levels, k, s, y);
      assert Visible(Contents(levels[i]), k, s) && Visible(Contents(levels[j]), k, s);
      assert i == j > 0;
      BothNewest(Contents(levels[i]), Stored(levels), k, s, x, y);
    }
  }

  /** The level in which the search ends. */
  lemma StopLevel(levels: seq<set<File>>, k: UserKey, s: nat, x: Entry) returns (i: nat)
    requires |levels| > 0 && StopsInVersion(levels, k, s, x)
    ensures i < |levels| && x in Contents(levels[i]) && x.user == k && x.seqno <= s
    ensures forall j :: 0 <= j < i ==> !Visible(Contents(levels[j]), k, s)
    ensures i == 0 ==> StopsInLevel0(levels[0], k, s, x)
    ensures i > 0 ==> Newest(Contents(levels[i]), k, s, x)
  {
    if StopsInLevel0(levels[0], k, s, x) {
      i := 0;
    } else {
      i :| 1 <= i < |levels| && Newest(Contents(levels[i]), k, s, x)
        && forall j :: 0 <= j < i ==> !Visible(Contents(levels[j]), k, s);
    }
  }

  // ----- one replacement of tables

  /** What a move or a compaction starts from, and the newest entry that a read of `k` at `s` may see. */
  ghost predicate Replacing(
    mem: set<Entry>, imm: set<Entry>, levels: seq<set<File>>, c: Inputs, out: set<File>, k: UserKey, s: nat, N: Entry)
  {
    && Layered(mem, imm, levels) && Picked(levels, c) && Contents(out) <= Contents(c.upper + c.lower)
    && Newest(mem + imm + Stored(levels), k, s, N)
  }

  /** The entries left behind on the inputs' own level, and on the next one. */
  ghost function Behind(levels: seq<set<File>>, c: Inputs): set<Entry>
    requires |levels| == NUM_LEVELS && c.level + 1 < NUM_LEVELS
  {
    Contents(levels[c.level] - c.upper)
  }

  ghost function BehindNext(levels: seq<set<File>>, c: Inputs): set<Entry>
    requires |levels| == NUM_LEVELS && c.level + 1 < NUM_LEVELS
  {
    Contents(levels[c.level + 1] - c.lower)
  }

  lemma NewContents(levels: seq<set<File>>, c: Inputs, out: set<File>)
    requires Picked(levels, c) && Contents(out) <= Contents(c.upper + c.lower)
    ensures var levels', n := Replace(levels, c, out), c.level;
            && Contents(levels'[n]) == Behind(levels, c) <= Contents(levels[n])
            && Contents(levels'[n + 1]) == BehindNext(levels, c) + Contents(out)
            && Contents(levels'[n + 1]) <= Contents(levels[n]) + Contents(levels[n + 1])
            && forall i :: 0 <= i < NUM_LEVELS && i != n && i != n + 1 ==> levels'[i] == levels[i]
  {
    InputsStored(levels, c);
    ContentsUnion(levels[c.level + 1] - c.lower, out);
  }

  lemma StoredShrinks(levels: seq<set<File>>, c: Inputs, out: set<File>)
    requires Picked(levels, c) && Contents(out) <= Contents(c.upper + c.lower)
    ensures Stored(Replace(levels, c, out)) <= Stored(levels)
  {
    ReplaceSplits(levels, c, out);
  }

  lemma LevelStored(levels: seq<set<File>>, i: nat)
    requires i < |levels|
    ensures Contents(levels[i]) <= Stored(levels)
  {}

  lemma NotVisibleIn(a: set<Entry>, b: set<Entry>, k: UserKey, s: nat)
    requires a <= b && !Visible(b, k, s)
    ensures !Visible(a, k, s)
  {}

  lemma NotVisibleEither(a: set<Entry>, b: set<Entry>, k: UserKey, s: nat)
    requires !Visible(a, k, s) && !Visible(b, k, s)
    ensures !Visible(a + b, k, s)
  {}

  /** What was clear stays clear. */
  lemma StaysClear(
    mem: set<Entry>, imm: set<Entry>, levels: seq<set<File>>, c: Inputs, out: set<File>, k: UserKey, s: nat, i: nat)
    requires Picked(levels, c) && Contents(out) <= Contents(c.upper + c.lower)
    requires i <= NUM_LEVELS && Clear(mem, imm, levels, i, k, s)
    ensures Clear(mem, imm, Replace(levels, c, out), i, k, s)
  {
    var levels', n := Replace(levels, c, out), c.level;
    NewContents(levels, c, out);
    forall j | 0 <= j < i ensures !Visible(Contents(levels'[j]), k, s) {
      if j == n {
        NotVisibleIn(Contents(levels'[n]), Contents(levels[n]), k, s);
      } else if j == n + 1 {
        NotVisibleEither(Contents(levels[n]), Contents(levels[n + 1]), k, s);
        NotVisibleIn(Contents(levels'[n + 1]), Contents(levels[n]) + Contents(levels[n + 1]), k, s);
      }
    }
  }

  /** A newest entry that is no input is still found. */
  lemma OthersStay(
    mem: set<Entry>, imm: set<Entry>, levels: seq<set<File>>, c: Inputs, out: set<File>, k: UserKey, s: nat, N: Entry)
    requires Replacing(mem, imm, levels, c, out, k, s, N) && N !in Contents(c.upper + c.lower)
    ensures StopsAt(mem, imm, Replace(levels, c, out), k, s, N)
  {
    if N in mem || N in imm {
      NewestIn(mem + imm + Stored(levels), if N in mem then mem else imm, k, s, N);
    } else {
      var i :| 0 <= i < |levels| && N in Contents(levels[i]);
      ClearAbove(mem, imm, levels, i, k, s, N);
      StaysClear(mem, imm, levels, c, out, k, s, i);
      StaysInLevel(mem, imm, levels, c, out, k, s, N, i);
    }
  }

  lemma StaysInLevel(
    mem: set<Entry>, imm: set<Entry>, levels: seq<set<File>>, c: Inputs, out: set<File>,
    k: UserKey, s: nat, N: Entry, i: nat)
    requires Replacing(mem, imm, levels, c, out, k, s, N) && N !in Contents(c.upper + c.lower)
    requires i < NUM_LEVELS && N in Contents(levels[i]) && Clear(mem, imm, Replace(levels, c, out), i, k, s)
    ensures StopsAt(mem, imm, Replace(levels, c, out), k, s, N)
  {
    var levels' := Replace(levels, c, out);
    NewContents(levels, c, out);
    StoredShrinks(levels, c, out);
    LevelStored(levels', i);
    ContentsUnion(c.upper, c.lower);
    ContentsUnion(levels[c.level], c.upper);
    ContentsUnion(levels[c.level + 1], c.lower);
    assert N in Contents(levels'[i]);
    NewestIn(mem + imm + Stored(levels), Contents(levels'[i]), k, s, N);
    if i > 0 { StopsHere(mem, imm, levels', i, k, s, N); } else { StopsInFirst(mem, imm, levels', k, s, N); }
  }

  // ----- the inputs

  /** Where an input stands, and that nothing above shows. */
  lemma InputPlace(
    mem: set<Entry>, imm: set<Entry>, levels: seq<set<File>>, c: Inputs, out: set<File>, k: UserKey, s: nat, N: Entry)
    requires Replacing(mem, imm, levels, c, out, k, s, N) && N in Contents(c.upper + c.lower)
    ensures Clear(mem, imm, Replace(levels, c, out), c.level, k, s)
    ensures N in Contents(c.lower) ==> !Visible(Behind(levels, c), k, s)
    ensures N in Contents(c.upper) || N in Contents(c.lower)
  {
    ContentsUnion(c.upper, c.lower);
    ContentsUnion(levels[c.level], c.upper);
    ContentsUnion(levels[c.level + 1], c.lower);
    if N in Contents(c.lower) {
      ClearAbove(mem, imm, levels, c.level + 1, k, s, N);
      NotVisibleIn(Behind(levels, c), Contents(levels[c.level]), k, s);
    } else {
      ClearAbove(mem, imm, levels, c.level, k, s, N);
    }
    assert Clear(mem, imm, levels, c.level, k, s);
    StaysClear(mem, imm, levels, c, out, k, s, c.level);
  }

  /** On level 0 nothing of an input's user key is left behind. */
  lemma NothingBehindOnFirst(levels: seq<set<File>>, c: Inputs, k: UserKey, s: nat, N: Entry)
    requires Picked(levels, c) && c.level == 0 && N in Contents(c.upper) && N.user == k
    ensures !Visible(Behind(levels, c), k, s)
  {
    var f: File :| f in c.upper && N in f.entries;
    InRange(f, N);
    forall x | x in Behind(levels, c) ensures x.user != k {
      var g: File :| g in levels[0] - c.upper && x in g.entries;
      InRange(g, x);
    }
  }

  /** If part of the user key is left behind on the inputs' level, the read stops there, at an older entry. */
  lemma StopsBehind(
    mem: set<Entry>, imm: set<Entry>, levels: seq<set<File>>, c: Inputs, out: set<File>,
    k: UserKey, s: nat, N: Entry, E: Entry)
    requires Replacing(mem, imm, levels, c, out, k, s, N) && N in Contents(c.upper + c.lower)
    requires Newest(Behind(levels, c), k, s, E)
    ensures StopsAt(mem, imm, Replace(levels, c, out), k, s, E)
  {
    InputPlace(mem, imm, levels, c, out, k, s, N);
    NewContents(levels, c, out);
    assert Visible(Behind(levels, c), k, s);
    if c.level == 0 { NothingBehindOnFirst(levels, c, k, s, N); }
    StopsHere(mem, imm, Replace(levels, c, out), c.level, k, s, E);
  }

  /** With nothing left behind on the inputs' level the search goes on to the next one. */
  lemma ClearBelow(
    mem: set<Entry>, imm: set<Entry>, levels: seq<set<File>>, c: Inputs, out: set<File>, k: UserKey, s: nat, N: Entry)
    requires Replacing(mem, imm, levels, c, out, k, s, N) && N in Contents(c.upper + c.lower)
    requires !Visible(Behind(levels, c), k, s)
    ensures Clear(mem, imm, Replace(levels, c, out), c.level + 1, k, s)
  {
    InputPlace(mem, imm, levels, c, out, k, s, N);
    NewContents(levels, c, out);
  }

  /** An input that is kept is found, unless part of its user key is left behind. */
  lemma StopsAtOutput(
    mem: set<Entry>, imm: set<Entry>, levels: seq<set<File>>, c: Inputs, out: set<File>, k: UserKey, s: nat, N: Entry)
    requires Replacing(mem, imm, levels, c, out, k, s, N) && N in Contents(out)
    requires !Visible(Behind(levels, c), k, s)
    ensures StopsAt(mem, imm, Replace(levels, c, out), k, s, N)
  {
    var levels', n := Replace(levels, c, out), c.level;
    ClearBelow(mem, imm, levels, c, out, k, s, N);
    NewContents(levels, c, out);
    StoredShrinks(levels, c, out);
    LevelStored(levels', n + 1);
    NewestIn(mem + imm + Stored(levels), Contents(levels'[n + 1]), k, s, N);
    StopsHere(mem, imm, levels', n + 1, k, s, N);
  }

  /** What is left behind is not among the inputs. */
  lemma BehindIsOther(levels: seq<set<File>>, level: nat, inputs: set<File>, x: Entry, y: Entry)
    requires Shaped(levels) && 0 < level < NUM_LEVELS && inputs <= levels[level]
    requires x in Contents(levels[level] - inputs) && y in Contents(inputs)
    ensures x != y
  {
    var f: File :| f in levels[level] - inputs && x in f.entries;
    var g: File :| g in inputs && y in g.entries;
    InRange(f, x);
    InRange(g, y);
    assert Disjoint(levels[level]) && f != g;
  }

  /** The read does not stop at `N` if part of its user key is left behind. */
  lemma BehindHides(
    mem: set<Entry>, imm: set<Entry>, levels: seq<set<File>>, c: Inputs, out: set<File>, k: UserKey, s: nat, N: Entry)
    returns (E: Entry)
    requires Replacing(mem, imm, levels, c, out, k, s, N) && N in Contents(c.upper + c.lower)
    requires Visible(Behind(levels, c), k, s)
    ensures Newest(Behind(levels, c), k, s, E) && StopsAt(mem, imm, Replace(levels, c, out), k, s, E) && E != N
  {
    var x :| x in Behind(levels, c) && x.user == k && x.seqno <= s;
    E := NewestExists(Behind(levels, c), k, s, x);
    StopsBehind(mem, imm, levels, c, out, k, s, N, E);
    InputPlace(mem, imm, levels, c, out, k, s, N);
    if c.level == 0 { NothingBehindOnFirst(levels, c, k, s, N); }
    BehindIsOther(levels, c.level, c.upper, E, N);
  }

  lemma OneStop(
    mem: set<Entry>, imm: set<Entry>, levels: seq<set<File>>, c: Inputs, out: set<File>,
    k: UserKey, s: nat, x: Entry, y: Entry)
    requires Layered(mem, imm, levels) && Picked(levels, c) && Contents(out) <= Contents(c.upper + c.lower)
    requires StopsAt(mem, imm, Replace(levels, c, out), k, s, x) && StopsAt(mem, imm, Replace(levels, c, out), k, s, y)
    ensures x == y
  {
    StoredShrinks(levels, c, out);
    StopIsUnique(mem, imm, Replace(levels, c, out), k, s, x, y);
  }

  /** After a trivial move a read finds the newest entry if and only if it is not the moved one, or no older entry of
      its user key is left behind on the level that it came from. */
  lemma MoveReadIff(st: State, c: Inputs, st': State, k: UserKey, s: nat, N: Entry)
    requires Inv(st) && Next(st, Move(c), st') && Newest(All(st), k, s, N)
    ensures ReadStops(st', k, s, N) <==> !(N in Contents(c.upper) && Visible(Behind(st.levels, c), k, s))
  {
    InvLayered(st);
    assert c.upper + c.lower == c.upper;
    assert Replacing(st.mem, ImmOf(st), st.levels, c, c.upper, k, s, N);
    if N !in Contents(c.upper) {
      OthersStay(st.mem, ImmOf(st), st.levels, c, c.upper, k, s, N);
    } else if Visible(Behind(st.levels, c), k, s) {
      var E := BehindHides(st.mem, ImmOf(st), st.levels, c, c.upper, k, s, N);
      if ReadStops(st', k, s, N) { OneStop(st.mem, ImmOf(st), st.levels, c, c.upper, k, s, N, E); }
    } else {
      StopsAtOutput(st.mem, ImmOf(st), st.levels, c, c.upper, k, s, N);
    }
  }

  // ----- compactions

  /** The second drop rule applies to `e`: a deletion that everybody sees, with nothing beneath. */
  ghost predicate DroppedDeletion(st: State, c: Inputs, e: Entry) {
    e.typ.Deletion? && e.seqno <= Horizon(st) && IsBaseLevel(st.levels, c.level, e.user)
  }

  /** The read of `k` at `s`, whose newest entry is `N`, goes back in time when these inputs are compacted. */
  ghost predicate Stale(st: State, c: Inputs, k: UserKey, s: nat, N: Entry)
    requires |st.levels| == NUM_LEVELS && c.level + 1 < NUM_LEVELS
  {
    && N in Contents(c.upper + c.lower)
    && (Visible(Behind(st.levels, c), k, s)
        || (DroppedDeletion(st, c, N) && Visible(BehindNext(st.levels, c), k, s)))
  }

  /** The read answers as if it had found `N`: it does, or `N` is a deletion and nothing is found. */
  ghost predicate ReadsRight(st: State, k: UserKey, s: nat, N: Entry) {
    ReadStops(st, k, s, N) || (N.typ.Deletion? && !Visible(All(st), k, s))
  }

  /** What the lemmas below need of a compaction. */
  ghost predicate Compacting(st: State, c: Inputs, outputs: set<File>, k: UserKey, s: nat, N: Entry) {
    && Replacing(st.mem, ImmOf(st), st.levels, c, outputs, k, s, N)
    && Outputs(st.levels, c, Horizon(st), outputs) && s >= Horizon(st)
  }

  ghost predicate Installs(st: State, c: Inputs, outputs: set<File>, st': State)
    requires |st.levels| == NUM_LEVELS && c.level + 1 < NUM_LEVELS
  {
    st'.mem == st.mem && st'.imm == st.imm && st'.levels == Replace(st.levels, c, outputs)
  }

  lemma InvCompacting(st: State, c: Inputs, outputs: set<File>, st': State, k: UserKey, s: nat, N: Entry)
    requires Inv(st) && Next(st, Compact(c, outputs), st') && s >= Horizon(st) && Newest(All(st), k, s, N)
    ensures Compacting(st, c, outputs, k, s, N) && Installs(st, c, outputs, st')
  {
    InvLayered(st);
  }

  /** The newest entry can only be dropped by the second rule, and then no older input of its key is kept. */
  lemma DropOfNewest(st: State, c: Inputs, outputs: set<File>, k: UserKey, s: nat, N: Entry)
    requires Compacting(st, c, outputs, k, s, N) && N in Contents(c.upper + c.lower) && N !in Contents(outputs)
    ensures DroppedDeletion(st, c, N) && !Visible(Contents(outputs), k, s)
  {
    var a := Contents(c.upper + c.lower);
    ReplaceSplits(st.levels, c, outputs);
    assert a <= Stored(st.levels) <= All(st);
    assert Dropped(a, st.levels, c.level, Horizon(st), N);
    forall x | x in Contents(outputs) && x.user == k ensures x.seqno > s {
      assert x in a && !Dropped(a, st.levels, c.level, Horizon(st), x);
    }
  }

  /** Nothing is beneath a base level. */
  lemma NothingBeneath(levels: seq<set<File>>, level: nat, k: UserKey, s: nat, i: nat)
    requires IsBaseLevel(levels, level, k) && level + 2 <= i < |levels|
    ensures !Visible(Contents(levels[i]), k, s)
  {
    forall x | x in Contents(levels[i]) ensures x.user != k {
      var f: File :| f in levels[i] && x in f.entries;
      InRange(f, x);
      assert !Overlaps(f, k, k);
    }
  }

  /** A newest deletion that is dropped leaves nothing to see, if nothing of its user key is left behind. */
  lemma NothingLeft(st: State, c: Inputs, outputs: set<File>, st': State, k: UserKey, s: nat, N: Entry)
    requires Compacting(st, c, outputs, k, s, N) && Installs(st, c, outputs, st')
    requires N in Contents(c.upper + c.lower) && N !in Contents(outputs)
    requires !Visible(Behind(st.levels, c), k, s) && !Visible(BehindNext(st.levels, c), k, s)
    ensures !Visible(All(st'), k, s)
  {
    var n := c.level;
    DropOfNewest(st, c, outputs, k, s, N);
    ClearBelow(st.mem, ImmOf(st), st.levels, c, outputs, k, s, N);
    NewContents(st.levels, c, outputs);
    NotVisibleEither(BehindNext(st.levels, c), Contents(outputs), k, s);
    forall i | 0 <= i < NUM_LEVELS ensures !Visible(Contents(st'.levels[i]), k, s) {
      if i >= n + 2 { NothingBeneath(st.levels, n, k, s, i); }
    }
  }

  /** What is left behind on the next level is seen, if the newest entry is dropped. */
  lemma NextBehindShows(st: State, c: Inputs, outputs: set<File>, st': State, k: UserKey, s: nat, N: Entry)
    returns (E: Entry)
    requires Compacting(st, c, outputs, k, s, N) && Installs(st, c, outputs, st')
    requires N in Contents(c.upper + c.lower) && N !in Contents(outputs)
    requires !Visible(Behind(st.levels, c), k, s) && Visible(BehindNext(st.levels, c), k, s)
    ensures Newest(BehindNext(st.levels, c), k, s, E) && ReadStops(st', k, s, E) && E.seqno < N.seqno
  {
    DropOfNewest(st, c, outputs, k, s, N);
    ClearBelow(st.mem, ImmOf(st), st.levels, c, outputs, k, s, N);
    NewContents(st.levels, c, outputs);
    var x :| x in BehindNext(st.levels, c) && x.user == k && x.seqno <= s;
    E := NewestExists(BehindNext(st.levels, c), k, s, x);
    NewestOfEither(BehindNext(st.levels, c), Contents(outputs), k, s, E);
    StopsHere(st'.mem, ImmOf(st'), st'.levels, c.level + 1, k, s, E);
    ShownIsOlder(st, c, outputs, k, s, N, E);
  }

  lemma NewestOfEither(a: set<Entry>, b: set<Entry>, k: UserKey, s: nat, e: Entry)
    requires Newest(a, k, s, e) && !Visible(b, k, s)
    ensures Newest(a + b, k, s, e)
  {}

  lemma ShownIsOlder(st: State, c: Inputs, outputs: set<File>, k: UserKey, s: nat, N: Entry, E: Entry)
    requires Compacting(st, c, outputs, k, s, N) && N in Contents(c.upper + c.lower)
    requires Newest(BehindNext(st.levels, c), k, s, E)
    ensures E.seqno < N.seqno
  {
    ContentsUnion(c.upper, c.lower);
    LowerIsThere(st.levels, c);
    NextBehindStored(st.levels, c, E);
    NextBehindIsOlder(All(st), st.levels, c, k, s, N, E);
  }

  lemma NextBehindIsOlder(S: set<Entry>, levels: seq<set<File>>, c: Inputs, k: UserKey, s: nat, N: Entry, E: Entry)
    requires Shaped(levels) && Ordered(levels) && UniqueSeqs(S) && Newest(S, k, s, N)
    requires c.level + 1 < NUM_LEVELS && c.upper <= levels[c.level] && c.lower <= levels[c.level + 1]
    requires N in Contents(c.upper) || N in Contents(c.lower)
    requires E in BehindNext(levels, c) && E in S && E.user == k && E.seqno <= s
    ensures E.seqno < N.seqno
  {
    NextBehindDiffers(levels, c.level, c.upper, c.lower, N, E);
    OtherIsOlder(S, k, s, N, E);
  }

  lemma LowerIsThere(levels: seq<set<File>>, c: Inputs)
    requires Picked(levels, c)
    ensures c.lower <= levels[c.level + 1]
  {}

  lemma NextBehindStored(levels: seq<set<File>>, c: Inputs, E: Entry)
    requires |levels| == NUM_LEVELS && c.level + 1 < NUM_LEVELS && E in BehindNext(levels, c)
    ensures E in Contents(levels[c.level + 1]) && E in Stored(levels)
  {
    LevelStored(levels, c.level + 1);
  }

  lemma NextBehindDiffers(levels: seq<set<File>>, n: nat, upper: set<File>, lower: set<File>, N: Entry, E: Entry)
    requires Shaped(levels) && Ordered(levels) && n + 1 < NUM_LEVELS
    requires upper <= levels[n] && lower <= levels[n + 1] && (N in Contents(upper) || N in Contents(lower))
    requires E in Contents(levels[n + 1] - lower)
    ensures E != N
  {
    if N in Contents(lower) {
      BehindIsOther(levels, n + 1, lower, E, N);
    } else {
      assert N in Contents(levels[n]) && E in Contents(levels[n + 1]);
      assert Newer(Contents(levels[n]), Contents(levels[n + 1]));
    }
  }

  lemma OtherIsOlder(S: set<Entry>, k: UserKey, s: nat, N: Entry, E: Entry)
    requires UniqueSeqs(S) && Newest(S, k, s, N) && E in S && E.user == k && E.seqno <= s && E != N
    ensures E.seqno < N.seqno
  {}

  /** The main result. After a compaction, a read at a sequence number that still counts is right if and only if it is
      not `Stale`: a condition on the state before and on the inputs. */
  lemma CompactReadIff(st: State, c: Inputs, outputs: set<File>, st': State, k: UserKey, s: nat, N: Entry)
    requires Inv(st) && Next(st, Compact(c, outputs), st') && s >= Horizon(st) && Newest(All(st), k, s, N)
    ensures ReadsRight(st', k, s, N) <==> !Stale(st, c, k, s, N)
  {
    InvCompacting(st, c, outputs, st', k, s, N);
    if Stale(st, c, k, s, N) {
      StaleIsWrong(st, c, outputs, st', k, s, N);
    } else {
      NotStaleIsRight(st, c, outputs, st', k, s, N);
    }
  }

  lemma StaleIsWrong(st: State, c: Inputs, outputs: set<File>, st': State, k: UserKey, s: nat, N: Entry)
    requires Compacting(st, c, outputs, k, s, N) && Installs(st, c, outputs, st') && Stale(st, c, k, s, N)
    ensures !ReadsRight(st', k, s, N)
  {
    var E := StaleStops(st, c, outputs, st', k, s, N);
    if ReadStops(st', k, s, N) { OneStop(st.mem, ImmOf(st), st.levels, c, outputs, k, s, N, E); }
    StopIsVisible(st', k, s, E);
  }

  lemma NotStaleIsRight(st: State, c: Inputs, outputs: set<File>, st': State, k: UserKey, s: nat, N: Entry)
    requires Compacting(st, c, outputs, k, s, N) && Installs(st, c, outputs, st') && !Stale(st, c, k, s, N)
    ensures ReadsRight(st', k, s, N)
  {
    if N !in Contents(c.upper + c.lower) {
      OthersStay(st.mem, ImmOf(st), st.levels, c, outputs, k, s, N);
    } else if N in Contents(outputs) {
      StopsAtOutput(st.mem, ImmOf(st), st.levels, c, outputs, k, s, N);
    } else {
      DropOfNewest(st, c, outputs, k, s, N);
      NothingLeft(st, c, outputs, st', k, s, N);
    }
  }

  /** Where a stale read stops: at the newest entry of what is left behind, on the inputs' level or the next. */
  ghost predicate Shadows(st: State, c: Inputs, k: UserKey, s: nat, E: Entry)
    requires |st.levels| == NUM_LEVELS && c.level + 1 < NUM_LEVELS
  {
    Newest(if Visible(Behind(st.levels, c), k, s) then Behind(st.levels, c) else BehindNext(st.levels, c), k, s, E)
  }

  lemma StaleStops(st: State, c: Inputs, outputs: set<File>, st': State, k: UserKey, s: nat, N: Entry) returns (E: Entry)
    requires Compacting(st, c, outputs, k, s, N) && Installs(st, c, outputs, st') && Stale(st, c, k, s, N)
    ensures Shadows(st, c, k, s, E) && ReadStops(st', k, s, E) && E != N
  {
    if Visible(Behind(st.levels, c), k, s) {
      E := BehindHides(st.mem, ImmOf(st), st.levels, c, outputs, k, s, N);
    } else {
      assert Dropped(Contents(c.upper + c.lower), st.levels, c.level, Horizon(st), N);
      assert N !in Contents(outputs);
      E := NextBehindShows(st, c, outputs, st', k, s, N);
    }
  }

  lemma StopIsVisible(st: State, k: UserKey, s: nat, e: Entry)
    requires |st.levels| > 0 && ReadStops(st, k, s, e)
    ensures Visible(All(st), k, s)
  {
    if !Visible(st.mem, k, s) && !Visible(ImmOf(st), k, s) {
      var i := StopLevel(st.levels, k, s, e);
      LevelStored(st.levels, i);
    }
  }

  /** The same for the answer itself: it is wrong exactly when the read is stale and the entry that shadows the newest
      one answers differently. */
  lemma CompactAnswerIff(st: State, c: Inputs, outputs: set<File>, st': State, k: UserKey, s: nat, N: Entry, E: Entry)
    requires Inv(st) && Next(st, Compact(c, outputs), st') && s >= Horizon(st) && Newest(All(st), k, s, N)
    requires Stale(st, c, k, s, N) ==> Shadows(st, c, k, s, E)
    ensures ReadAnswers(st', k, s, Answer(N)) <==> (Stale(st, c, k, s, N) ==> Answer(E) == Answer(N))
  {
    InvCompacting(st, c, outputs, st', k, s, N);
    if Stale(st, c, k, s, N) {
      ShadowAnswers(st, c, outputs, st', k, s, N, E);
    } else {
      NotStaleIsRight(st, c, outputs, st', k, s, N);
    }
  }

  lemma ShadowAnswers(st: State, c: Inputs, outputs: set<File>, st': State, k: UserKey, s: nat, N: Entry, E: Entry)
    requires Compacting(st, c, outputs, k, s, N) && Installs(st, c, outputs, st')
    requires Stale(st, c, k, s, N) && Shadows(st, c, k, s, E)
    ensures ReadAnswers(st', k, s, Answer(N)) <==> Answer(E) == Answer(N)
  {
    var F := StaleStops(st, c, outputs, st', k, s, N);
    OneShadow(st, c, k, s, E, F);
    StopIsVisible(st', k, s, E);
    if ReadAnswers(st', k, s, Answer(N)) {
      if e :| ReadStops(st', k, s, e) && Answer(N) == Answer(e) {
        OneStop(st.mem, ImmOf(st), st.levels, c, outputs, k, s, e, E);
      }
    }
  }

  lemma OneShadow(st: State, c: Inputs, k: UserKey, s: nat, x: Entry, y: Entry)
    requires Layered(st.mem, ImmOf(st), st.levels) && Picked(st.levels, c)
    requires Shadows(st, c, k, s, x) && Shadows(st, c, k, s, y)
    ensures x == y
  {
    InputsStored(st.levels, c);
    LevelStored(st.levels, c.level);
    LevelStored(st.levels, c.level + 1);
    BothNewest(if Visible(Behind(st.levels, c), k, s) then Behind(st.levels, c) else BehindNext(st.levels, c),
               All(st), k, s, x, y);
  }

  /** Where nothing was visible before, nothing is after. */
  lemma CompactShowsNothingNew(st: State, c: Inputs, outputs: set<File>, st': State, k: UserKey, s: nat)
    requires Inv(st) && Next(st, Compact(c, outputs), st') && !Visible(All(st), k, s)
    ensures !Visible(All(st'), k, s)
  {
    StoredShrinks(st.levels, c, outputs);
  }

  /** Complete inputs make no read stale. */
  lemma CompleteIsNeverStale(st: State, c: Inputs, k: UserKey, s: nat, N: Entry)
    requires Inv(st) && Picked(st.levels, c) && Complete(st.levels, c) && Newest(All(st), k, s, N)
    ensures !Stale(st, c, k, s, N)
  {
    InvLayered(st);
    if N in Contents(c.upper + c.lower) {
      forall x | x in Behind(st.levels, c) + BehindNext(st.levels, c) && x.user == k ensures x.seqno > s {
        LeftBehindIsOlder(st, c, k, s, N, x);
      }
    }
  }

  lemma LeftBehindIsOlder(st: State, c: Inputs, k: UserKey, s: nat, N: Entry, x: Entry)
    requires Layered(st.mem, ImmOf(st), st.levels) && Picked(st.levels, c) && Complete(st.levels, c)
    requires Newest(All(st), k, s, N) && N in Contents(c.upper + c.lower)
    requires x in Behind(st.levels, c) + BehindNext(st.levels, c) && x.user == k
    ensures x.seqno > s
  {
    RestMissesRange(st.levels, c);
    ContentsUnion(c.upper, c.lower);
    InputsStored(st.levels, c);
    LevelStored(st.levels, c.level);
    LevelStored(st.levels, c.level + 1);
    assert x in All(st);
    if x in Behind(st.levels, c) && N in Contents(c.lower) {
      ContentsUnion(st.levels[c.level + 1], c.lower);
      assert Newer(Contents(st.levels[c.level]), Contents(st.levels[c.level + 1]));
    }
  }
}
