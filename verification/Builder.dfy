/** VersionSet::Builder: turning a version and a list of edits into the next version (db/version_set.cc).

    The descriptor log records every edit since a version was last written out in full.  `ReplayEqualsInstalls`
    is why that is enough: applying all the edits to one builder gives the version that installing them one
    at a time gave.
 */
module Builder {
  import opened Keys
  import Seqs
  import opened Lsm

  /** BySmallestKey: smallest internal key first, ties broken by file number. */
  predicate BySmallest(f: File, g: File) {
    Less(Smallest(f), Smallest(g)) || (KeyOf(Smallest(f)) == KeyOf(Smallest(g)) && f.number < g.number)
  }

  ghost predicate InOrder(fs: seq<File>) {
    forall i, j :: 0 <= i < j < |fs| ==> BySmallest(fs[i], fs[j])
  }

  ghost function FileSet(fs: seq<File>): set<File> { set f | f in fs }

  /** What a level holds after a builder with these fields has been saved. */
  ghost function Saved(base: set<File>, deleted: set<nat>, added: set<File>): set<File> {
    set f | f in base + added && f.number !in deleted
  }

  datatype Edit = Edit(deleted: set<(nat, nat)>, added: seq<(nat, File)>)

  ghost predicate Levelled(edit: Edit) {
    forall i :: 0 <= i < |edit.added| ==> edit.added[i].0 < NUM_LEVELS
  }

  ghost function DeletedAt(edit: Edit, level: nat): set<nat> {
    set d | d in edit.deleted && d.0 == level :: d.1
  }

  ghost function AddedAt(edit: Edit, level: nat): set<File> {
    set i | 0 <= i < |edit.added| && edit.added[i].0 == level :: edit.added[i].1
  }

  ghost function Numbers(fs: set<File>): set<nat> { set f | f in fs :: f.number }

  /** std::upper_bound from position `from`: the first position whose file comes after `f`. */
  method UpperBound(fs: seq<File>, from: nat, f: File) returns (r: nat)
    requires InOrder(fs) && from <= |fs|
    ensures from <= r <= |fs|
    ensures forall i :: from <= i < r ==> !BySmallest(f, fs[i])
    ensures forall i :: r <= i < |fs| ==> BySmallest(f, fs[i])
  {
    var lo, hi := from, |fs|;
    while lo < hi
      invariant from <= lo <= hi <= |fs|
      invariant forall i :: from <= i < lo ==> !BySmallest(f, fs[i])
      invariant forall i :: hi <= i < |fs| ==> BySmallest(f, fs[i])
    {
      var mid := (lo + hi) / 2;
      if BySmallest(f, fs[mid]) { hi := mid; } else { lo := mid + 1; }
    }
    r := lo;
  }

  /** std::set::insert: a file that compares equal to a member is not inserted again. */
  method InsertFile(fs: seq<File>, f: File) returns (r: seq<File>)
    requires InOrder(fs)
    ensures InOrder(r)
    ensures f in fs || (forall g :: g in fs ==> BySmallest(f, g) || BySmallest(g, f)) ==>
              FileSet(r) == FileSet(fs) + {f}
  {
    var p := UpperBound(fs, 0, f);
    if p > 0 && !BySmallest(fs[p - 1], f) {
      r := fs;
      if f in fs { assert FileSet(fs) + {f} == FileSet(fs); }
    } else {
      r := Seqs.InsertAt(fs, p, f);
      forall i | 0 <= i < p ensures BySmallest(fs[i], f) {
        if i < p - 1 { assert BySmallest(fs[i], fs[p - 1]); }
      }
    }
  }

  /** MaybeAddFile */
  method MaybeAdd(v: seq<File>, deleted: set<nat>, f: File) returns (r: seq<File>)
    ensures r == if f.number in deleted then v else v + [f]
  {
    if f.number in deleted { r := v; } else { r := v + [f]; }
  }

  ghost predicate Kept(v: seq<File>, fs: seq<File>, deleted: set<nat>) {
    forall f :: f in v <==> f in fs && f.number !in deleted
  }

  /** The base files in [from, i) that are not deleted have been added to `v`. */
  ghost predicate RangeDone(
    r: seq<File>, v: seq<File>, base: seq<File>, from: nat, i: nat, to: nat, deleted: set<nat>)
    requires from <= i <= to <= |base|
  {
    && InOrder(r)
    && (forall f :: f in r <==> f in v || (f in base[from..i] && f.number !in deleted))
    && (forall f, j :: f in r && i <= j < to ==> BySmallest(f, base[j]))
  }

  lemma RangeStep(
    r: seq<File>, v: seq<File>, base: seq<File>, from: nat, i: nat, to: nat, deleted: set<nat>, r': seq<File>)
    requires from <= i < to <= |base| && InOrder(base) && RangeDone(r, v, base, from, i, to, deleted)
    requires r' == if base[i].number in deleted then r else r + [base[i]]
    ensures RangeDone(r', v, base, from, i + 1, to, deleted)
  {
    assert base[from..i + 1] == base[from..i] + [base[i]];
    if base[i].number !in deleted { AppendInOrder(r, base[i]); }
    assert forall f :: f in r' <==> f in r || (f == base[i] && f.number !in deleted);
  }

  lemma AppendInOrder(r: seq<File>, f: File)
    requires InOrder(r) && forall g :: g in r ==> BySmallest(g, f)
    ensures InOrder(r + [f])
  {
    assert forall i :: 0 <= i < |r| ==> r[i] in r;
  }

  /** Adding all base files in [from, to) that are not deleted. */
  method AddRange(v: seq<File>, base: seq<File>, from: nat, to: nat, deleted: set<nat>) returns (r: seq<File>)
    requires from <= to <= |base| && InOrder(base) && InOrder(v)
    requires forall f, i :: f in v && from <= i < to ==> BySmallest(f, base[i])
    ensures InOrder(r)
    ensures forall f :: f in r <==> f in v || (f in base[from..to] && f.number !in deleted)
  {
    r := v;
    for i := from to to
      invariant RangeDone(r, v, base, from, i, to, deleted)
    {
      ghost var before := r;
      r := MaybeAdd(r, deleted, base[i]);
      RangeStep(before, v, base, from, i, to, deleted, r);
    }
  }

  /** The two lists name different files. */
  ghost predicate Distinct(fs: seq<File>, gs: seq<File>) {
    forall f, g :: f in fs && g in gs ==> f.number != g.number
  }

  ghost predicate AllBefore(v: seq<File>, fs: seq<File>, from: nat) {
    forall f, j :: f in v && from <= j < |fs| ==> BySmallest(f, fs[j])
  }

  lemma RangeBefore(base: seq<File>, pos: nat, p: nat, added: seq<File>, a: nat)
    requires InOrder(base) && InOrder(added) && Distinct(base, added) && pos <= p <= |base| && a < |added|
    requires forall i :: pos <= i < p ==> !BySmallest(added[a], base[i])
    ensures AllBefore(base[pos..p], added, a) && AllBefore(base[pos..p], base, p)
  {
    forall i, j | pos <= i < p && a <= j < |added| ensures BySmallest(base[i], added[j]) {
      assert base[i] in base && added[a] in added;
      assert BySmallest(base[i], added[a]);
      if a < j { assert BySmallest(added[a], added[j]); }
    }
  }

  /** SaveTo for one level: a merge of two ordered lists that leaves out the deleted files. */
  method SaveLevel(base: seq<File>, deleted: set<nat>, added: seq<File>) returns (v: seq<File>)
    requires InOrder(base) && InOrder(added) && Distinct(base, added)
    ensures InOrder(v)
    ensures FileSet(v) == Saved(FileSet(base), deleted, FileSet(added))
  {
    v := [];
    var pos := 0;
    for a := 0 to |added|
      invariant pos <= |base| && InOrder(v)
      invariant AllBefore(v, base, pos) && AllBefore(v, added, a)
      invariant forall f :: f in v <==> (f in base[..pos] || f in added[..a]) && f.number !in deleted
    {
      var p := UpperBound(base, pos, added[a]);
      RangeBefore(base, pos, p, added, a);
      var v' := AddRange(v, base, pos, p, deleted);
      assert base[..p] == base[..pos] + base[pos..p];
      assert added[..a + 1] == added[..a] + [added[a]];
      v := MaybeAdd(v', deleted, added[a]);
      pos := p;
    }
    assert base[pos..|base|] == base[pos..] && base == base[..pos] + base[pos..];
    assert added[..|added|] == added;
    v := AddRange(v, base, pos, |base|, deleted);
  }

  // ----- edits

  /** A builder's two fields for one level, as sets. */
  datatype Delta = Delta(deleted: set<nat>, added: set<File>)

  ghost function ApplyAt(d: Delta, edit: Edit, level: nat): Delta {
    Delta(d.deleted + DeletedAt(edit, level) - Numbers(AddedAt(edit, level)), d.added + AddedAt(edit, level))
  }

  ghost function ApplyAll(d: Delta, edits: seq<Edit>, level: nat): Delta {
    if edits == [] then d else ApplyAt(ApplyAll(d, edits[..|edits| - 1], level), edits[|edits| - 1], level)
  }

  /** Installing the edits one at a time (LogAndApply), starting from `base`. */
  ghost function InstallAll(base: set<File>, edits: seq<Edit>, level: nat): set<File> {
    if edits == [] then base
    else
      InstallOne(InstallAll(base, edits[..|edits| - 1], level), edits[|edits| - 1], level)
  }

  ghost function EverAdded(base: set<File>, edits: seq<Edit>, level: nat): set<File> {
    base + set i, f | 0 <= i < |edits| && f in AddedAt(edits[i], level) :: f
  }

  lemma EverAddedGrows(base: set<File>, edits: seq<Edit>, level: nat)
    requires edits != []
    ensures EverAdded(base, edits, level) ==
            EverAdded(base, edits[..|edits| - 1], level) + AddedAt(edits[|edits| - 1], level)
  {
    var n := |edits| - 1;
    forall f | f in EverAdded(base, edits, level)
      ensures f in EverAdded(base, edits[..n], level) + AddedAt(edits[n], level)
    {
      if f !in base {
        var i :| 0 <= i < |edits| && f in AddedAt(edits[i], level);
        if i < n { assert edits[..n][i] == edits[i]; }
      }
    }
    forall f | f in EverAdded(base, edits[..n], level) ensures f in EverAdded(base, edits, level) {
      if f !in base {
        var i :| 0 <= i < n && f in AddedAt(edits[..n][i], level);
        assert edits[..n][i] == edits[i];
      }
    }
  }

  lemma {:induction false} DeltaAddedOnly(edits: seq<Edit>, level: nat)
    ensures ApplyAll(Delta({}, {}), edits, level).added == EverAdded({}, edits, level)
  {
    if edits != [] {
      DeltaAddedOnly(edits[..|edits| - 1], level);
      EverAddedGrows({}, edits, level);
    }
  }

  lemma SaveTwice(base: set<File>, d: Delta, del: set<nat>, add: set<File>)
    requires Named(base + d.added + add)
    ensures Saved(base, d.deleted + del - Numbers(add), d.added + add)
         == Saved(Saved(base, d.deleted, d.added), del - Numbers(add), add)
  {
    forall f | f in base + d.added && f.number in Numbers(add) ensures f in add {
      var g :| g in add && g.number == f.number;
    }
    forall f | f in add ensures f.number in Numbers(add) {}
  }

  /** Replaying all the edits into one builder equals installing them one at a time. */
  lemma {:induction false} ReplayEqualsInstalls(base: set<File>, edits: seq<Edit>, level: nat)
    requires Named(EverAdded(base, edits, level))
    ensures var d := ApplyAll(Delta({}, {}), edits, level);
            Saved(base, d.deleted, d.added) == InstallAll(base, edits, level)
  {
    if edits == [] {
      assert Saved(base, {}, {}) == base;
    } else {
      var n := |edits| - 1;
      var before, edit := ApplyAll(Delta({}, {}), edits[..n], level), edits[n];
      EverAddedGrows(base, edits, level);
      ReplayEqualsInstalls(base, edits[..n], level);
      DeltaAddedOnly(edits[..n], level);
      assert base + before.added == EverAdded(base, edits[..n], level);
      SaveTwice(base, before, DeletedAt(edit, level), AddedAt(edit, level));
      assert {} + DeletedAt(edit, level) == DeletedAt(edit, level) && {} + AddedAt(edit, level) == AddedAt(edit, level);
    }
  }

  /** WriteSnapshot: the record that opens a new descriptor lists the whole current version. */
  ghost predicate IsSnapshot(edit: Edit, version: set<File>, level: nat) {
    DeletedAt(edit, level) == {} && AddedAt(edit, level) == version
  }

  ghost function InstallOne(before: set<File>, edit: Edit, level: nat): set<File> {
    var d := ApplyAt(Delta({}, {}), edit, level);
    Saved(before, d.deleted, d.added)
  }

  lemma {:induction false} InstallSnoc(base: set<File>, edits: seq<Edit>, edit: Edit, level: nat)
    ensures InstallAll(base, edits + [edit], level) == InstallOne(InstallAll(base, edits, level), edit, level)
  {
    assert (edits + [edit])[..|edits|] == edits;
  }

  lemma {:induction false} InstallAfterSnapshot(snapshot: Edit, version: set<File>, edits: seq<Edit>, level: nat)
    requires IsSnapshot(snapshot, version, level)
    ensures InstallAll({}, [snapshot] + edits, level) == InstallAll(version, edits, level)
  {
    if edits == [] {
      InstallSnoc({}, [], snapshot, level);
      assert [snapshot] + edits == [] + [snapshot];
      assert Saved({}, {} + {} - Numbers(version), {} + version) == version;
    } else {
      var n := |edits| - 1;
      assert [snapshot] + edits == ([snapshot] + edits[..n]) + [edits[n]] && edits == edits[..n] + [edits[n]];
      InstallAfterSnapshot(snapshot, version, edits[..n], level);
      InstallSnoc({}, [snapshot] + edits[..n], edits[n], level);
      InstallSnoc(version, edits[..n], edits[n], level);
    }
  }

  /** Recovery from a descriptor that starts with a snapshot record gives the version that was installed. */
  lemma {:induction false} RecoverFromSnapshot(snapshot: Edit, version: set<File>, edits: seq<Edit>, level: nat)
    requires IsSnapshot(snapshot, version, level) && Named(EverAdded(version, edits, level))
    ensures var d := ApplyAll(Delta({}, {}), [snapshot] + edits, level);
            Saved({}, d.deleted, d.added) == InstallAll(version, edits, level)
  {
    var all := [snapshot] + edits;
    forall f | f in EverAdded({}, all, level) ensures f in EverAdded(version, edits, level) {
      var i :| 0 <= i < |all| && f in AddedAt(all[i], level);
      if i > 0 { assert all[i] == edits[i - 1]; }
    }
    ReplayEqualsInstalls({}, all, level);
    InstallAfterSnapshot(snapshot, version, edits, level);
  }

  // ----- the class

  class VersionBuilder {
    const base: seq<seq<File>>
    var deleted: seq<set<nat>>
    var added: seq<seq<File>>

    ghost predicate Valid()
      reads this
    {
      && |base| == |deleted| == |added| == NUM_LEVELS
      && forall i :: 0 <= i < NUM_LEVELS ==> InOrder(base[i]) && InOrder(added[i])
    }

    ghost function At(level: nat): Delta
      requires Valid() && level < NUM_LEVELS
      reads this
    {
      Delta(deleted[level], FileSet(added[level]))
    }

    constructor (base: seq<seq<File>>)
      requires |base| == NUM_LEVELS && forall i :: 0 <= i < NUM_LEVELS ==> InOrder(base[i])
      ensures Valid() && this.base == base
      ensures forall i :: 0 <= i < NUM_LEVELS ==> At(i) == Delta({}, {})
    {
      this.base := base;
      deleted := seq(NUM_LEVELS, i => {});
      added := seq(NUM_LEVELS, i => []);
    }

    method AddFile(level: nat, f: File)
      requires Valid() && level < NUM_LEVELS && Named(FileSet(added[level]) + {f})
      modifies this
      ensures Valid()
      ensures forall i :: 0 <= i < NUM_LEVELS && i != level ==> At(i) == old(At(i))
      ensures At(level) == Delta(old(At(level)).deleted - {f.number}, old(At(level)).added + {f})
    {
      deleted := deleted[level := deleted[level] - {f.number}];
      assert forall g :: g in added[level] ==> g in FileSet(added[level]);
      var fs := InsertFile(added[level], f);
      added := added[level := fs];
    }

    method DeleteFiles(edit: Edit)
      requires Valid() && forall d :: d in edit.deleted ==> d.0 < NUM_LEVELS
      modifies this`deleted
      ensures Valid()
      ensures forall i :: 0 <= i < NUM_LEVELS ==> deleted[i] == old(deleted)[i] + DeletedAt(edit, i)
    {
      var todo := edit.deleted;
      ghost var done: set<(nat, nat)> := {};
      while todo != {}
        invariant Valid() && todo + done == edit.deleted
        invariant forall i :: 0 <= i < NUM_LEVELS ==>
          deleted[i] == old(deleted)[i] + set d | d in done && d.0 == i :: d.1
        decreases todo
      {
        var d :| d in todo;
        assert d in edit.deleted;
        deleted := deleted[d.0 := deleted[d.0] + {d.1}];
        todo := todo - {d};
        done := done + {d};
      }
      assert done == edit.deleted;
    }

    method AddFiles(edit: Edit)
      requires Valid() && Levelled(edit)
      requires forall i :: 0 <= i < NUM_LEVELS ==> Named(At(i).added + AddedAt(edit, i))
      modifies this
      ensures Valid()
      ensures forall i :: 0 <= i < NUM_LEVELS ==> At(i) == WithAdds(old(At(i)), edit, i, |edit.added|)
    {
      assert forall i :: 0 <= i < NUM_LEVELS ==> AddedBefore(edit, i, 0) == {};
      for k := 0 to |edit.added|
        invariant Valid()
        invariant forall i :: 0 <= i < NUM_LEVELS ==> At(i) == WithAdds(old(At(i)), edit, i, k)
      {
        var level, f := edit.added[k].0, edit.added[k].1;
        AddedBeforeGrows(edit, level, k);
        assert Named(At(level).added + {f}) by {
          assert At(level).added + {f} <= old(At(level)).added + AddedAt(edit, level);
        }
        AddFile(level, f);
        forall i | 0 <= i < NUM_LEVELS ensures At(i) == WithAdds(old(At(i)), edit, i, k + 1) {
          WithAddsStep(old(At(i)), edit, i, k);
        }
      }
    }

    /** Apply: first all deletions, then all additions, each of which takes its number back out of `deleted`. */
    method Apply(edit: Edit)
      requires Valid() && Levelled(edit)
      requires forall d :: d in edit.deleted ==> d.0 < NUM_LEVELS
      requires forall i :: 0 <= i < NUM_LEVELS ==> Named(At(i).added + AddedAt(edit, i))
      modifies this
      ensures Valid()
      ensures forall i :: 0 <= i < NUM_LEVELS ==> At(i) == ApplyAt(old(At(i)), edit, i)
    {
      DeleteFiles(edit);
      AddFiles(edit);
      assert forall i :: 0 <= i < NUM_LEVELS ==> AddedBefore(edit, i, |edit.added|) == AddedAt(edit, i);
    }

    /** SaveTo: on every level, the base files and the added files that are not deleted, in order. */
    method SaveTo() returns (v: seq<seq<File>>)
      requires Valid()
      requires forall i :: 0 <= i < NUM_LEVELS ==> Distinct(base[i], added[i])
      ensures |v| == NUM_LEVELS
      ensures forall i :: 0 <= i < NUM_LEVELS ==>
        InOrder(v[i]) && FileSet(v[i]) == Saved(FileSet(base[i]), At(i).deleted, At(i).added)
    {
      v := [];
      for level := 0 to NUM_LEVELS
        invariant |v| == level
        invariant forall i :: 0 <= i < level ==>
          InOrder(v[i]) && FileSet(v[i]) == Saved(FileSet(base[i]), At(i).deleted, At(i).added)
      {
        var files := SaveLevel(base[level], deleted[level], added[level]);
        v := v + [files];
      }
    }
  }

  ghost function AddedBefore(edit: Edit, level: nat, k: nat): set<File>
    requires k <= |edit.added|
  {
    set j | 0 <= j < k && edit.added[j].0 == level :: edit.added[j].1
  }

  ghost function WithAdds(d: Delta, edit: Edit, level: nat, k: nat): Delta
    requires k <= |edit.added|
  {
    Delta(d.deleted - Numbers(AddedBefore(edit, level, k)), d.added + AddedBefore(edit, level, k))
  }

  lemma AddedBeforeGrows(edit: Edit, level: nat, k: nat)
    requires k < |edit.added|
    ensures AddedBefore(edit, level, k + 1) ==
            AddedBefore(edit, level, k) + if edit.added[k].0 == level then {edit.added[k].1} else {}
    ensures AddedBefore(edit, level, k + 1) <= AddedAt(edit, level)
    ensures Numbers(AddedBefore(edit, level, k + 1)) ==
            Numbers(AddedBefore(edit, level, k)) + if edit.added[k].0 == level then {edit.added[k].1.number} else {}
  {}

  lemma WithAddsStep(d: Delta, edit: Edit, level: nat, k: nat)
    requires k < |edit.added|
    ensures var before := WithAdds(d, edit, level, k);
            var f := edit.added[k].1;
            WithAdds(d, edit, level, k + 1) ==
            if edit.added[k].0 == level then Delta(before.deleted - {f.number}, before.added + {f}) else before
  {
    AddedBeforeGrows(edit, level, k);
  }
}
