/** Point reads through a version: Version::Get, ForEachOverlapping's search order, and the lookups inside one sorted
    table (db/version_set.cc, db/memtable.cc). */
module VersionGet {
  import opened Keys
  import Seqs
  import opened Lsm
  import opened Builder
  import opened VersionSet

  /** The first entry at or after the lookup key, if it is for the same user key (SaveValue, MemTable::Get). */
  method SortedGet(es: seq<Entry>, k: UserKey, s: nat) returns (r: Option<Entry>)
    requires Sorted(es)
    ensures r.Some? ==> Newest(SetOf(es), k, s, r.value)
    ensures r.None? ==> !Visible(SetOf(es), k, s)
  {
    var lo := LowerBound(es, LookupKey(k, s));
    forall i | 0 <= i < |es| ensures i < lo <==> es[i].user < k || (es[i].user == k && es[i].seqno > s) {
      LookupSplits(es[i], k, s);
    }
    if lo < |es| && es[lo].user == k {
      r := Some(es[lo]);
      assert es[lo] in SetOf(es);
      forall x | x in SetOf(es) && x.user == k && x.seqno <= s ensures x.seqno <= es[lo].seqno {
        var j :| 0 <= j < |es| && es[j] == x;
        assert j == lo || Less(es[lo], es[j]);
      }
    } else {
      r := None;
      forall x | x in SetOf(es) && x.user == k ensures x.seqno > s {
        var j :| 0 <= j < |es| && es[j] == x;
      }
    }
  }

  /** std::sort with NewestFirst. */
  method SortNewestFirst(files: seq<File>) returns (r: seq<File>)
    ensures FileSet(r) == FileSet(files)
    ensures forall i, j :: 0 <= i < j < |r| ==> r[i].number >= r[j].number
  {
    r := [];
    for n := 0 to |files|
      invariant forall f :: f in r <==> f in files[..n]
      invariant forall i, j :: 0 <= i < j < |r| ==> r[i].number >= r[j].number
    {
      var p := 0;
      while p < |r| && r[p].number >= files[n].number
        invariant 0 <= p <= |r|
        invariant forall i :: 0 <= i < p ==> r[i].number >= files[n].number
      {
        p := p + 1;
      }
      forall i | p <= i < |r| ensures r[i].number <= files[n].number { assert i > p ==> r[p].number >= r[i].number; }
      r := Seqs.InsertAt(r, p, files[n]);
      assert files[..n + 1] == files[..n] + [files[n]];
    }
    assert files[..|files|] == files;
  }

  /** The files of level 0 whose range holds `k`. */
  method FilesHolding(files: seq<File>, k: UserKey) returns (r: seq<File>)
    ensures forall f :: f in r <==> f in files && Overlaps(f, k, k)
  {
    r := [];
    for i := 0 to |files|
      invariant forall f :: f in r <==> f in files[..i] && Overlaps(f, k, k)
    {
      assert files[..i + 1] == files[..i] + [files[i]];
      if k >= Smallest(files[i]).user && k <= Largest(files[i]).user { r := r + [files[i]]; }
    }
    assert files[..|files|] == files;
  }

  lemma OutsideIsInvisible(f: File, k: UserKey, s: nat)
    requires !Overlaps(f, k, k)
    ensures !Visible(SetOf(f.entries), k, s)
  {
    forall e | e in f.entries ensures e.user != k { InRange(f, e); }
  }

  method GetLevel0(files: seq<File>, k: UserKey, s: nat) returns (r: Option<Entry>)
    requires forall f, g :: f in files && g in files && f.number == g.number ==> f == g
    ensures r.Some? ==> StopsInLevel0(FileSet(files), k, s, r.value)
    ensures r.None? ==> !Visible(Contents(FileSet(files)), k, s)
  {
    var tmp := FilesHolding(files, k);
    var sorted := SortNewestFirst(tmp);
    forall f | f in files && f !in sorted ensures !Visible(SetOf(f.entries), k, s) {
      assert f !in FileSet(sorted);
      OutsideIsInvisible(f, k, s);
    }
    for i := 0 to |sorted|
      invariant forall j :: 0 <= j < i ==> !Visible(SetOf(sorted[j].entries), k, s)
    {
      assert sorted[i] in FileSet(tmp);
      r := SortedGet(sorted[i].entries, k, s);
      if r.Some? {
        forall g | g in FileSet(files) && g.number > sorted[i].number ensures !Visible(SetOf(g.entries), k, s) {
          if g in sorted {
            var j :| 0 <= j < |sorted| && sorted[j] == g;
            assert j < i;
          }
        }
        return;
      }
    }
    r := None;
    forall e | e in Contents(FileSet(files)) && e.user == k ensures e.seqno > s {
      var f: File :| f in FileSet(files) && e in f.entries;
      assert e in SetOf(f.entries) && !Visible(SetOf(f.entries), k, s);
    }
  }

  /** In a sorted level, only the file that FindFile picks can hold the newest visible entry. */
  lemma FoundFileDecides(files: seq<File>, n: nat, k: UserKey, s: nat, f: File, x: Entry)
    requires SortedFiles(files) && n <= |files|
    requires forall i :: 0 <= i < n ==> KeyLess(KeyOf(Largest(files[i])), LookupKey(k, s))
    requires n < |files| ==> !KeyLess(KeyOf(Largest(files[n])), LookupKey(k, s))
    requires f in files && x in f.entries && x.user == k && x.seqno <= s
    ensures n < |files| && Smallest(files[n]).user <= k
    ensures f == files[n] || (Largest(files[n]).user == k && x.seqno <= Largest(files[n]).seqno <= s)
  {
    var i :| 0 <= i < |files| && files[i] == f;
    InRange(f, x);
    LookupSplits(x, k, s);
    LookupSplits(Largest(f), k, s);
    assert i >= n;
    LookupSplits(Largest(files[n]), k, s);
    InRange(files[n], Largest(files[n]));
    if n < i { assert FileBefore(files[n], f); }
  }

  method GetSortedLevel(files: seq<File>, k: UserKey, s: nat) returns (r: Option<Entry>)
    requires SortedFiles(files)
    ensures r.Some? ==> Newest(Contents(FileSet(files)), k, s, r.value)
    ensures r.None? ==> !Visible(Contents(FileSet(files)), k, s)
  {
    var n := FindFile(files, LookupKey(k, s));
    r := None;
    if n < |files| && k >= Smallest(files[n]).user {
      r := SortedGet(files[n].entries, k, s);
      assert Largest(files[n]) in SetOf(files[n].entries) && files[n] in FileSet(files);
    }
    forall x | x in Contents(FileSet(files)) && x.user == k && x.seqno <= s
      ensures r.Some? && x.seqno <= r.value.seqno
    {
      var f: File :| f in FileSet(files) && x in f.entries;
      FoundFileDecides(files, n, k, s, f, x);
      if f == files[n] { assert x in SetOf(files[n].entries); }
    }
  }

  /** Version::Get: level 0 newest file first, then one file of each deeper level, until an entry turns up. */
  method Get(levels: seq<seq<File>>, k: UserKey, s: nat) returns (r: Option<Entry>)
    requires |levels| == NUM_LEVELS && forall i :: 1 <= i < NUM_LEVELS ==> SortedFiles(levels[i])
    requires forall f, g :: f in levels[0] && g in levels[0] && f.number == g.number ==> f == g
    ensures r.Some? ==> StopsInVersion(Sets(levels), k, s, r.value)
    ensures r.None? ==> forall i :: 0 <= i < NUM_LEVELS ==> !Visible(Contents(Sets(levels)[i]), k, s)
  {
    r := GetLevel0(levels[0], k, s);
    if r.Some? { return; }
    for level := 1 to NUM_LEVELS
      invariant r.None?
      invariant forall i :: 0 <= i < level ==> !Visible(Contents(Sets(levels)[i]), k, s)
    {
      r := GetSortedLevel(levels[level], k, s);
      if r.Some? {
        assert Newest(Contents(Sets(levels)[level]), k, s, r.value);
        return;
      }
    }
  }
}
