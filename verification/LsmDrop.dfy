/** What a compaction writes out, told entry by entry from the files and the live readers alone (the loop of
    DBImpl::DoCompactionWork in db/db_impl.cc, Compaction::IsBaseLevelForKey in db/version_set.cc). */
module LsmDrop {
  import opened Keys
  import opened Lsm
  import opened LsmRuns

  /** The oldest sequence number at which anybody may still read. */
  ghost predicate Oldest(st: State, s: nat) {
    Live(st, s) && forall r :: Live(st, r) ==> s <= r
  }

  lemma HorizonIsOldest(st: State, s: nat)
    requires SnapInv(st)
    ensures Oldest(st, s) <==> s == Horizon(st)
  {
    if st.snapshots != [] { assert Horizon(st) in st.snapshots; }
    forall r | Live(st, r) ensures Horizon(st) <= r { LiveIsCurrent(st, r); }
    assert Live(st, Horizon(st));
  }

  /** An entry is written if and only if it is an input, no newer input for its user key is already visible to everybody,
      and it is not a deletion that is visible to everybody with no file beneath whose range holds its user key. */
  lemma CompactKeepsExactly(st: State, c: Inputs, outputs: set<File>, st': State, s: nat, e: Entry)
    requires SnapInv(st) && Next(st, Compact(c, outputs), st') && Oldest(st, s)
    ensures e in Contents(outputs) <==>
              && e in Contents(c.upper + c.lower)
              && !(exists x :: x in Contents(c.upper + c.lower) && x.user == e.user && e.seqno < x.seqno <= s)
              && !(e.typ.Deletion? && e.seqno <= s
                   && forall i, f :: c.level + 2 <= i < |st.levels| && f in st.levels[i] ==>
                        !(Smallest(f).user <= e.user <= Largest(f).user))
  {
    HorizonIsOldest(st, s);
    var a := Contents(c.upper + c.lower);
    BaseLevelIs(st.levels, c.level, e.user);
    assert Dropped(a, st.levels, c.level, s, e) <==>
             || (exists x :: x in a && x.user == e.user && e.seqno < x.seqno <= s)
             || (e.typ.Deletion? && e.seqno <= s && IsBaseLevel(st.levels, c.level, e.user));
  }

  lemma BaseLevelIs(levels: seq<set<File>>, level: nat, k: UserKey)
    ensures IsBaseLevel(levels, level, k) <==>
              forall i, f :: level + 2 <= i < |levels| && f in levels[i] ==> !(Smallest(f).user <= k <= Largest(f).user)
  {
    if IsBaseLevel(levels, level, k) {
      forall i, f | level + 2 <= i < |levels| && f in levels[i] ensures !(Smallest(f).user <= k <= Largest(f).user) {
        assert !Overlaps(f, k, k);
      }
    }
  }

  /** A deletion that everybody sees and that hides nothing beneath goes. */
  lemma ObsoleteDeletionGoes(st: State, c: Inputs, outputs: set<File>, st': State, s: nat, e: Entry)
    requires SnapInv(st) && Next(st, Compact(c, outputs), st') && Oldest(st, s)
    requires e in Contents(c.upper + c.lower) && e.typ.Deletion? && e.seqno <= s
    requires forall i, f :: c.level + 2 <= i < |st.levels| && f in st.levels[i] ==>
               !(Smallest(f).user <= e.user <= Largest(f).user)
    ensures e !in Contents(outputs)
  {
    CompactKeepsExactly(st, c, outputs, st', s, e);
  }

  /** Of the versions of a user key that everybody sees at most one is left. */
  lemma OneOldVersionStays(st: State, c: Inputs, outputs: set<File>, st': State, s: nat, x: Entry, y: Entry)
    requires Inv(st) && Next(st, Compact(c, outputs), st') && Oldest(st, s)
    requires x in Contents(outputs) && y in Contents(outputs) && x.user == y.user && x.seqno <= s && y.seqno <= s
    ensures x.seqno == y.seqno
  {
    CompactKeepsExactly(st, c, outputs, st', s, x);
    CompactKeepsExactly(st, c, outputs, st', s, y);
  }

  /** With nothing beneath and nobody looking back, a compaction leaves values only. */
  lemma BottomHoldsValues(st: State, c: Inputs, outputs: set<File>, st': State, e: Entry)
    requires Inv(st) && Next(st, Compact(c, outputs), st') && Oldest(st, st.lastSeq)
    requires forall i :: c.level + 2 <= i < |st.levels| ==> st.levels[i] == {}
    requires e in Contents(outputs)
    ensures e.typ.Put?
  {
    CompactKeepsExactly(st, c, outputs, st', st.lastSeq, e);
    InputIsOld(st, c, e);
  }

  lemma InputIsOld(st: State, c: Inputs, e: Entry)
    requires Inv(st) && Picked(st.levels, c) && e in Contents(c.upper + c.lower)
    ensures e.seqno <= st.lastSeq
  {
    var f: File :| f in c.upper + c.lower && e in f.entries;
    var i := if f in c.upper then c.level else c.level + 1;
    assert f in st.levels[i] && e in Contents(st.levels[i]);
    assert e in Stored(st.levels) && e in SetOf(st.hist[..st.immFrom]);
    var j :| 0 <= j < st.immFrom && st.hist[..st.immFrom][j] == e;
    assert e == st.hist[j];
  }
}
