/** Searching the levels and choosing compaction inputs (db/version_set.cc).

    Levels are vectors of files here.  Each search is proved against what it means for the set of files or
    entries, which is the language of module `Lsm`.
 */
module VersionSet {
  import opened Keys
  import opened Lsm
  import opened Builder

  const MAX_SEQUENCE: nat := 0xff_ffff_ffff_ffff

  ghost predicate SortedFiles(fs: seq<File>) {
    forall i, j :: 0 <= i < j < |fs| ==> FileBefore(fs[i], fs[j])
  }

  lemma SortedWithin(fs: seq<File>, i: nat, j: nat)
    requires SortedFiles(fs) && i < j < |fs|
    ensures Less(Largest(fs[i]), Largest(fs[j])) && Less(Smallest(fs[i]), Smallest(fs[j]))
  {
    InRange(fs[i], Smallest(fs[i]));
    InRange(fs[j], Largest(fs[j]));
  }

  /** FindFile: binary search for the first file that ends at or after `key`. */
  method FindFile(files: seq<File>, key: IKey) returns (r: nat)
    requires SortedFiles(files)
    ensures r <= |files|
    ensures forall i :: 0 <= i < r ==> KeyLess(KeyOf(Largest(files[i])), key)
    ensures forall i :: r <= i < |files| ==> !KeyLess(KeyOf(Largest(files[i])), key)
  {
    var left, right := 0, |files|;
    while left < right
      invariant 0 <= left <= right <= |files|
      invariant forall i :: 0 <= i < left ==> KeyLess(KeyOf(Largest(files[i])), key)
      invariant forall i :: right <= i < |files| ==> !KeyLess(KeyOf(Largest(files[i])), key)
    {
      var mid := (left + right) / 2;
      forall i, j | 0 <= i < j < |files| { SortedWithin(files, i, j); }
      if KeyLess(KeyOf(Largest(files[mid])), key) {
        left := mid + 1;
      } else {
        right := mid;
      }
    }
    r := right;
  }

  // ----- overlap

  /** AfterFile and BeforeFile: a missing bound lies beyond all keys. */
  predicate AfterFile(lo: Option<UserKey>, f: File) { lo.Some? && lo.value > Largest(f).user }
  predicate BeforeFile(hi: Option<UserKey>, f: File) { hi.Some? && hi.value < Smallest(f).user }

  predicate Meets(f: File, lo: Option<UserKey>, hi: Option<UserKey>) { !AfterFile(lo, f) && !BeforeFile(hi, f) }

  predicate InBounds(k: UserKey, lo: Option<UserKey>, hi: Option<UserKey>) {
    (lo.Some? ==> lo.value <= k) && (hi.Some? ==> k <= hi.value)
  }

  /** A file meets a range if and only if some key lies in both. */
  lemma MeetsIffShares(f: File, lo: Option<UserKey>, hi: Option<UserKey>)
    requires lo.Some? && hi.Some? ==> lo.value <= hi.value
    ensures Meets(f, lo, hi) <==> exists k :: Smallest(f).user <= k <= Largest(f).user && InBounds(k, lo, hi)
  {
    InRange(f, Largest(f));
    if Meets(f, lo, hi) {
      var k := if lo.Some? && lo.value > Smallest(f).user then lo.value else Smallest(f).user;
      assert InBounds(k, lo, hi);
    }
  }

  /** SomeFileOverlapsRange: a scan on level 0, a binary search on the others. */
  method SomeFileOverlapsRange(disjoint: bool, files: seq<File>, lo: Option<UserKey>, hi: Option<UserKey>)
    returns (r: bool)
    requires disjoint ==> SortedFiles(files)
    requires forall f :: f in files ==> Largest(f).seqno <= MAX_SEQUENCE
    ensures r <==> exists f :: f in files && Meets(f, lo, hi)
  {
    if !disjoint {
      for i := 0 to |files|
        invariant forall j :: 0 <= j < i ==> !Meets(files[j], lo, hi)
      {
        if AfterFile(lo, files[i]) || BeforeFile(hi, files[i]) {
        } else {
          assert files[i] in files;
          return true;
        }
      }
      return false;
    }
    var index := 0;
    if lo.Some? {
      index := FindFile(files, LookupKey(lo.value, MAX_SEQUENCE));
      forall i | 0 <= i < |files| ensures AfterFile(lo, files[i]) <==> i < index {
        LookupSplits(Largest(files[i]), lo.value, MAX_SEQUENCE);
        assert files[i] in files;
      }
    }
    if index >= |files| { return false; }
    if BeforeFile(hi, files[index]) {
      forall i | index <= i < |files| ensures BeforeFile(hi, files[i]) {
        if index < i { SortedWithin(files, index, i); }
      }
      return false;
    }
    assert files[index] in files;
    return true;
  }

  /** Level 2, or the first level below which the table may not go: too much lies there, or a file meets it. */
  ghost predicate DeepestPlace(levels: seq<seq<File>>, f: File, roomy: nat -> bool, level: nat)
    requires |levels| == NUM_LEVELS
  {
    && level <= 2 && (forall l :: 0 <= l < level ==> roomy(l))
    && (level == 2 || !roomy(level) || exists g :: (g in levels[level + 1] || (level == 0 && g in levels[0]))
                                               && Meets(g, Some(Smallest(f).user), Some(Largest(f).user)))
  }

  /** PickLevelForMemTableOutput.  `roomy(l)` stands for the byte limit on overlap with level l + 2. */
  method PickLevelForMemTableOutput(levels: seq<seq<File>>, f: File, roomy: nat -> bool) returns (level: nat)
    requires |levels| == NUM_LEVELS && forall i :: 1 <= i < NUM_LEVELS ==> SortedFiles(levels[i])
    requires forall i, g :: 0 <= i < NUM_LEVELS && g in levels[i] ==> Largest(g).seqno <= MAX_SEQUENCE
    ensures MayPlace(seq(NUM_LEVELS, i requires 0 <= i < NUM_LEVELS => FileSet(levels[i])), f, level)
    ensures DeepestPlace(levels, f, roomy, level)
  {
    ghost var sets := seq(NUM_LEVELS, i requires 0 <= i < NUM_LEVELS => FileSet(levels[i]));
    var lo, hi := Some(Smallest(f).user), Some(Largest(f).user);
    level := 0;
    var overlap := SomeFileOverlapsRange(false, levels[0], lo, hi);
    if !overlap {
      while level < MAX_MEM_COMPACT_LEVEL
        invariant level <= MAX_MEM_COMPACT_LEVEL && forall l :: 0 <= l < level ==> roomy(l)
        invariant forall i, g :: 0 <= i <= level && g in levels[i] ==> !Meets(g, lo, hi)
      {
        overlap := SomeFileOverlapsRange(true, levels[level + 1], lo, hi);
        if overlap { break; }
        if !roomy(level) { break; }
        level := level + 1;
      }
      forall i, g | 0 <= i <= level && g in sets[i] ensures !Overlaps(g, Smallest(f).user, Largest(f).user) {
        assert g in levels[i] && !Meets(g, lo, hi);
      }
    }
  }

  // ----- compaction inputs

  /** The range `a` lies within the range `b`; a missing bound is unbounded. */
  predicate Within(alo: Option<UserKey>, ahi: Option<UserKey>, blo: Option<UserKey>, bhi: Option<UserKey>) {
    && (blo.Some? ==> alo.Some? && blo.value <= alo.value)
    && (bhi.Some? ==> ahi.Some? && ahi.value <= bhi.value)
  }

  predicate Inside(f: File, lo: Option<UserKey>, hi: Option<UserKey>) {
    Within(Some(Smallest(f).user), Some(Largest(f).user), lo, hi)
  }

  /** Every file that meets the range lies inside it. */
  ghost predicate Stable(files: seq<File>, lo: Option<UserKey>, hi: Option<UserKey>) {
    forall f :: f in files && Meets(f, lo, hi) ==> Inside(f, lo, hi)
  }

  /** The least stable range around a query. */
  ghost predicate LeastStable(files: seq<File>, qlo: Option<UserKey>, qhi: Option<UserKey>,
                              lo: Option<UserKey>, hi: Option<UserKey>)
  {
    && Within(qlo, qhi, lo, hi) && Stable(files, lo, hi)
    && forall slo, shi :: Stable(files, slo, shi) && Within(qlo, qhi, slo, shi) ==> Within(lo, hi, slo, shi)
  }

  ghost predicate Meeting(files: seq<File>, inputs: seq<File>, lo: Option<UserKey>, hi: Option<UserKey>) {
    forall f :: f in inputs <==> f in files && Meets(f, lo, hi)
  }

  /** The files that meet the range, in their order. */
  ghost function MeetingFiles(files: seq<File>, lo: Option<UserKey>, hi: Option<UserKey>): seq<File> {
    if files == [] then []
    else
      var last, before := files[|files| - 1], MeetingFiles(files[..|files| - 1], lo, hi);
      if Meets(last, lo, hi) then before + [last] else before
  }

  ghost function StartsBefore(files: seq<File>, k: Option<UserKey>): set<File> {
    set f | f in files && k.Some? && Smallest(f).user < k.value
  }

  ghost function EndsAfter(files: seq<File>, k: Option<UserKey>): set<File> {
    set f | f in files && k.Some? && Largest(f).user > k.value
  }

  lemma FewerFiles(a: set<File>, b: set<File>, f: File)
    requires a <= b && f in b && f !in a
    ensures |a| < |b|
  {
    assert b == a + (b - a) && f in b - a;
  }

  lemma {:induction false} MeetingFilesMeet(files: seq<File>, lo: Option<UserKey>, hi: Option<UserKey>)
    ensures Meeting(files, MeetingFiles(files, lo, hi), lo, hi)
  {
    if files != [] {
      var n := |files| - 1;
      MeetingFilesMeet(files[..n], lo, hi);
      assert files == files[..n] + [files[n]];
    }
  }

  lemma MeetingNext(files: seq<File>, i: nat, lo: Option<UserKey>, hi: Option<UserKey>)
    requires i < |files|
    ensures MeetingFiles(files[..i + 1], lo, hi)
         == MeetingFiles(files[..i], lo, hi) + if Meets(files[i], lo, hi) then [files[i]] else []
  {
    assert files[..i + 1][..i] == files[..i];
  }

  /** The range holds the query and lies within every stable range that does. */
  ghost predicate Needed(files: seq<File>, qlo: Option<UserKey>, qhi: Option<UserKey>,
                         lo: Option<UserKey>, hi: Option<UserKey>)
  {
    && Within(qlo, qhi, lo, hi)
    && forall slo, shi :: Stable(files, slo, shi) && Within(qlo, qhi, slo, shi) ==> Within(lo, hi, slo, shi)
  }

  /** A file that sticks out of the range must be inside every stable one. */
  lemma Widen(files: seq<File>, f: File, qlo: Option<UserKey>, qhi: Option<UserKey>,
              lo: Option<UserKey>, hi: Option<UserKey>)
    requires Needed(files, qlo, qhi, lo, hi) && f in files && Meets(f, lo, hi)
    ensures lo.Some? && Smallest(f).user < lo.value ==> Needed(files, qlo, qhi, Some(Smallest(f).user), hi)
    ensures hi.Some? && Largest(f).user > hi.value ==> Needed(files, qlo, qhi, lo, Some(Largest(f).user))
  {
    forall slo, shi | Stable(files, slo, shi) && Within(qlo, qhi, slo, shi) ensures Inside(f, slo, shi) {
      assert Within(lo, hi, slo, shi);
      assert Meets(f, slo, shi);
    }
  }

  /** GetOverlappingInputs.  On level 0 a file that sticks out of the range widens it and restarts the scan; the
      result is then all files that meet the least range no file sticks out of.  On other levels it is all files that
      meet the query. */
  method GetOverlappingInputs(level0: bool, files: seq<File>, begin: Option<UserKey>, end: Option<UserKey>)
    returns (inputs: seq<File>, ghost lo: Option<UserKey>, ghost hi: Option<UserKey>)
    ensures Meeting(files, inputs, lo, hi) && inputs == MeetingFiles(files, lo, hi)
    ensures if level0 then LeastStable(files, begin, end, lo, hi) else lo == begin && hi == end
  {
    var userBegin, userEnd, i := begin, end, 0;
    inputs := [];
    while i < |files|
      invariant 0 <= i <= |files| && inputs == MeetingFiles(files[..i], userBegin, userEnd)
      invariant !level0 ==> userBegin == begin && userEnd == end
      invariant level0 ==> Needed(files, begin, end, userBegin, userEnd)
      invariant level0 ==>
                  forall j :: 0 <= j < i && Meets(files[j], userBegin, userEnd) ==> Inside(files[j], userBegin, userEnd)
      decreases |StartsBefore(files, userBegin)| + |EndsAfter(files, userEnd)|, |files| - i
    {
      var f := files[i];
      ghost var b0, e0 := userBegin, userEnd;
      MeetingNext(files, i, userBegin, userEnd);
      i := i + 1;
      var start, limit := Smallest(f).user, Largest(f).user;
      if userBegin.Some? && limit < userBegin.value {
      } else if userEnd.Some? && start > userEnd.value {
      } else {
        inputs := inputs + [f];
        if level0 {
          Widen(files, f, begin, end, userBegin, userEnd);
          if userBegin.Some? && start < userBegin.value {
            userBegin := Some(start);
            inputs, i := [], 0;
            FewerFiles(StartsBefore(files, userBegin), StartsBefore(files, b0), f);
          } else if userEnd.Some? && limit > userEnd.value {
            userEnd := Some(limit);
            inputs, i := [], 0;
            FewerFiles(EndsAfter(files, userEnd), EndsAfter(files, e0), f);
          }
        }
      }
    }
    assert files[..i] == files;
    MeetingFilesMeet(files, userBegin, userEnd);
    lo, hi := userBegin, userEnd;
  }

  ghost function Sets(levels: seq<seq<File>>): seq<set<File>> {
    seq(|levels|, i requires 0 <= i < |levels| => FileSet(levels[i]))
  }

  /** GetRange: the smallest and the largest internal key of a non-empty list of files. */
  method GetRange(inputs: seq<File>) returns (smallest: Entry, largest: Entry)
    requires inputs != []
    ensures IsRange(FileSet(inputs), smallest.user, largest.user)
    ensures exists f :: f in inputs && Smallest(f) == smallest
    ensures exists f :: f in inputs && Largest(f) == largest
    ensures forall f :: f in inputs ==> !Less(Smallest(f), smallest) && !Less(largest, Largest(f))
  {
    smallest, largest := Smallest(inputs[0]), Largest(inputs[0]);
    ghost var fs, fl := inputs[0], inputs[0];
    for i := 0 to |inputs|
      invariant fs in inputs && fl in inputs && smallest == Smallest(fs) && largest == Largest(fl)
      invariant forall j :: 0 <= j < i ==> !Less(Smallest(inputs[j]), smallest) && !Less(largest, Largest(inputs[j]))
    {
      var f := inputs[i];
      if Less(Smallest(f), smallest) { smallest, fs := Smallest(f), f; }
      if Less(largest, Largest(f)) { largest, fl := Largest(f), f; }
    }
    assert fs in FileSet(inputs) && fl in FileSet(inputs);
  }

  lemma MeetsRange(fs: set<File>, lo: UserKey, hi: UserKey, f: File)
    requires IsRange(fs, lo, hi) && f in fs
    ensures Meets(f, Some(lo), Some(hi)) && Overlaps(f, lo, hi)
  {
    InRange(f, Largest(f));
  }

  /** On level 0, a widened selection still holds every file that meets its own range. */
  lemma StableIsClosed(files: seq<File>, inputs: seq<File>, lo: Option<UserKey>, hi: Option<UserKey>,
                       rlo: UserKey, rhi: UserKey, f: File)
    requires Stable(files, lo, hi) && Meeting(files, inputs, lo, hi) && IsRange(FileSet(inputs), rlo, rhi)
    requires f in files && Overlaps(f, rlo, rhi)
    ensures f in inputs
  {
    var a :| a in FileSet(inputs) && Smallest(a).user == rlo;
    var b :| b in FileSet(inputs) && Largest(b).user == rhi;
    assert Inside(a, lo, hi) && Inside(b, lo, hi);
  }

  /** What makes a selection of inputs the one that a compaction needs. */
  lemma IsPicked(levels: seq<seq<File>>, level: nat, in0: seq<File>, in1: seq<File>, lo: UserKey, hi: UserKey)
    requires |levels| == NUM_LEVELS && level + 1 < NUM_LEVELS
    requires FileSet(in0) <= FileSet(levels[level]) && IsRange(FileSet(in0), lo, hi)
    requires level == 0 ==> forall f :: f in levels[0] && Overlaps(f, lo, hi) ==> f in in0
    requires forall f :: f in in1 <==> f in levels[level + 1] && Overlaps(f, lo, hi)
    ensures Picked(Sets(levels), Inputs(level, FileSet(in0), FileSet(in1), lo, hi))
  {
    var sets := Sets(levels);
    assert sets[level] == FileSet(levels[level]) && sets[level + 1] == FileSet(levels[level + 1]);
    assert FileSet(in1) == set f | f in sets[level + 1] && Overlaps(f, lo, hi);
  }

  /** TotalFileSize of the first `n` files. */
  function TotalSize(bytes: File -> nat, fs: seq<File>, n: nat): nat
    requires n <= |fs|
  {
    if n == 0 then 0 else TotalSize(bytes, fs, n - 1) + bytes(fs[n - 1])
  }

  /** These are the files, in order, that meet the user-key range of `fs`. */
  ghost predicate MeetRangeOf(files: seq<File>, fs: seq<File>, inputs: seq<File>) {
    forall a, b :: IsRange(FileSet(fs), a, b) ==> inputs == MeetingFiles(files, Some(a), Some(b))
  }

  /** These are the files of the level that meet the range of all the inputs; on level 0, the least stable range around
      it. */
  ghost predicate Reached(levels: seq<seq<File>>, level: nat, all: seq<File>, inputs: seq<File>)
    requires level < |levels|
  {
    forall a, b :: IsRange(FileSet(all), a, b) ==>
      if level == 0
      then exists lo, hi :: LeastStable(levels[0], Some(a), Some(b), lo, hi) && inputs == MeetingFiles(levels[0], lo, hi)
      else inputs == MeetingFiles(levels[level], Some(a), Some(b))
  }

  lemma OneRange(fs: set<File>, a: UserKey, b: UserKey, c: UserKey, d: UserKey)
    requires IsRange(fs, a, b) && IsRange(fs, c, d)
    ensures a == c && b == d
  {}

  /** The inputs below are the files that meet the range above. The inputs above are the seed, or all files that its
      range and theirs reach, when those are more, small enough together, and meet no further file below. */
  ghost predicate ChosenFrom(
    levels: seq<seq<File>>, level: nat, seed: seq<File>, bytes: File -> nat, limit: nat, in0: seq<File>, in1: seq<File>,
    base: seq<File>, more0: seq<File>, more1: seq<File>)
    requires level + 1 < |levels|
  {
    && MeetRangeOf(levels[level + 1], seed, base) && MeetRangeOf(levels[level + 1], in0, in1)
    && if base == [] then in0 == seed else
         && Reached(levels, level, seed + base, more0)
         && if |more0| > |seed| && TotalSize(bytes, base, |base|) + TotalSize(bytes, more0, |more0|) < limit
            then MeetRangeOf(levels[level + 1], more0, more1) && in0 == (if |more1| == |base| then more0 else seed)
            else in0 == seed
  }

  /** The files of a compaction from this seed. */
  ghost predicate ChosenFiles(
    levels: seq<seq<File>>, level: nat, seed: seq<File>, bytes: File -> nat, limit: nat, upper: set<File>, lower: set<File>)
    requires level + 1 < |levels|
  {
    exists in0, in1, base, more0, more1 ::
      && ChosenFrom(levels, level, seed, bytes, limit, in0, in1, base, more0, more1)
      && upper == FileSet(in0) && lower == FileSet(in1)
  }

  /** SetupOtherInputs. `base` are the files of the next level that the given inputs meet. The inputs are grown to all
      files that the range of both reaches exactly when that takes in more files of the level, stays below the byte
      limit, and does not take in more files of the next level. Either way the lower inputs are all files of the next
      level that meet the range of the upper ones. */
  method SetupOtherInputs(levels: seq<seq<File>>, level: nat, inputs0: seq<File>, bytes: File -> nat, limit: nat)
    returns (in0: seq<File>, in1: seq<File>, ghost lo: UserKey, ghost hi: UserKey,
             ghost base: seq<File>, ghost more0: seq<File>, ghost more1: seq<File>)
    requires |levels| == NUM_LEVELS && level + 1 < NUM_LEVELS
    requires inputs0 != [] && FileSet(inputs0) <= FileSet(levels[level])
    requires level == 0 ==> forall f, a, b :: f in levels[0] && IsRange(FileSet(inputs0), a, b) && Overlaps(f, a, b)
                              ==> f in inputs0
    ensures Picked(Sets(levels), Inputs(level, FileSet(in0), FileSet(in1), lo, hi))
    ensures FileSet(inputs0) <= FileSet(in0)
    ensures ChosenFrom(levels, level, inputs0, bytes, limit, in0, in1, base, more0, more1)
  {
    var smallest, largest := GetRange(inputs0);
    in0 := inputs0;
    ghost var glo, ghi;
    in1, glo, ghi := GetOverlappingInputs(false, levels[level + 1], Some(smallest.user), Some(largest.user));
    lo, hi := smallest.user, largest.user;
    base, more0, more1 := in1, [], [];
    IsPicked(levels, level, in0, in1, lo, hi);
    MeetsOneRange(levels[level + 1], in0, in1, lo, hi);
    if in1 != [] {
      var grown, expanded0, expanded1;
      ghost var newLo, newHi;
      grown, expanded0, expanded1, newLo, newHi := ExpandInputs(levels, level, in0, in1, bytes, limit);
      more0, more1 := expanded0, expanded1;
      if grown { in0, in1, lo, hi := expanded0, expanded1, newLo, newHi; }
    }
  }

  lemma MeetsOneRange(files: seq<File>, fs: seq<File>, inputs: seq<File>, lo: UserKey, hi: UserKey)
    requires IsRange(FileSet(fs), lo, hi) && inputs == MeetingFiles(files, Some(lo), Some(hi))
    ensures MeetRangeOf(files, fs, inputs)
  {
    forall a, b | IsRange(FileSet(fs), a, b) ensures a == lo && b == hi { OneRange(FileSet(fs), a, b, lo, hi); }
  }

  lemma ReachesOneRange(
    levels: seq<seq<File>>, level: nat, all: seq<File>, inputs: seq<File>, a: UserKey, b: UserKey,
    lo: Option<UserKey>, hi: Option<UserKey>)
    requires level < |levels| && IsRange(FileSet(all), a, b) && inputs == MeetingFiles(levels[level], lo, hi)
    requires if level == 0 then LeastStable(levels[0], Some(a), Some(b), lo, hi) else lo == Some(a) && hi == Some(b)
    ensures Reached(levels, level, all, inputs)
  {
    forall c, d | IsRange(FileSet(all), c, d) ensures a == c && b == d { OneRange(FileSet(all), a, b, c, d); }
  }

  /** The part of SetupOtherInputs that tries to grow the upper inputs without growing the lower ones. */
  method ExpandInputs(levels: seq<seq<File>>, level: nat, in0: seq<File>, in1: seq<File>, bytes: File -> nat, limit: nat)
    returns (grown: bool, expanded0: seq<File>, expanded1: seq<File>, ghost lo: UserKey, ghost hi: UserKey)
    requires |levels| == NUM_LEVELS && level + 1 < NUM_LEVELS
    requires in0 != [] && FileSet(in0) <= FileSet(levels[level])
    ensures grown ==>
              && Picked(Sets(levels), Inputs(level, FileSet(expanded0), FileSet(expanded1), lo, hi))
              && FileSet(in0) <= FileSet(expanded0)
    ensures Reached(levels, level, in0 + in1, expanded0)
    ensures if |expanded0| > |in0| && TotalSize(bytes, in1, |in1|) + TotalSize(bytes, expanded0, |expanded0|) < limit
            then MeetRangeOf(levels[level + 1], expanded0, expanded1) && grown == (|expanded1| == |in1|)
            else !grown
  {
    grown, expanded1, lo, hi := false, [], 0.0, 0.0;
    var allStart, allLimit := GetRange(in0 + in1);
    ghost var glo, ghi;
    expanded0, glo, ghi := GetOverlappingInputs(level == 0, levels[level], Some(allStart.user), Some(allLimit.user));
    ReachesOneRange(levels, level, in0 + in1, expanded0, allStart.user, allLimit.user, glo, ghi);
    if |expanded0| <= |in0| { return; }
    if TotalSize(bytes, in1, |in1|) + TotalSize(bytes, expanded0, |expanded0|) >= limit { return; }
    var newStart, newLimit := GetRange(expanded0);
    ghost var xlo, xhi;
    expanded1, xlo, xhi := GetOverlappingInputs(false, levels[level + 1], Some(newStart.user), Some(newLimit.user));
    MeetsOneRange(levels[level + 1], expanded0, expanded1, newStart.user, newLimit.user);
    if |expanded1| != |in1| { return; }
    grown, lo, hi := true, newStart.user, newLimit.user;
    ExpandedIsPicked(levels, level, in0, in1, expanded0, expanded1, allStart.user, allLimit.user, glo, ghi, lo, hi);
  }

  lemma ExpandedIsPicked(
    levels: seq<seq<File>>, level: nat, in0: seq<File>, in1: seq<File>, expanded0: seq<File>, expanded1: seq<File>,
    start: UserKey, end: UserKey, glo: Option<UserKey>, ghi: Option<UserKey>, lo: UserKey, hi: UserKey)
    requires |levels| == NUM_LEVELS && level + 1 < NUM_LEVELS && FileSet(in0) <= FileSet(levels[level])
    requires IsRange(FileSet(in0 + in1), start, end) && IsRange(FileSet(expanded0), lo, hi)
    requires Meeting(levels[level], expanded0, glo, ghi) && Meeting(levels[level + 1], expanded1, Some(lo), Some(hi))
    requires if level == 0 then LeastStable(levels[0], Some(start), Some(end), glo, ghi)
             else glo == Some(start) && ghi == Some(end)
    ensures Picked(Sets(levels), Inputs(level, FileSet(expanded0), FileSet(expanded1), lo, hi))
    ensures FileSet(in0) <= FileSet(expanded0)
  {
    forall f | f in in0 ensures f in expanded0 {
      assert f in FileSet(in0) && f in FileSet(levels[level]);
      assert f in FileSet(in0 + in1);
      MeetsRange(FileSet(in0 + in1), start, end, f);
    }
    if level == 0 {
      forall f | f in levels[0] && Overlaps(f, lo, hi) ensures f in expanded0 {
        StableIsClosed(levels[0], expanded0, glo, ghi, lo, hi, f);
      }
    }
    IsPicked(levels, level, expanded0, expanded1, lo, hi);
  }

  // ----- compaction

  class Compaction {
    const levels: seq<seq<File>>
    const level: nat
    const ptrs: array<nat>

    ghost predicate Valid()
      reads ptrs
    {
      && |levels| == NUM_LEVELS && level + 2 <= NUM_LEVELS && ptrs.Length == NUM_LEVELS
      && (forall i :: 1 <= i < NUM_LEVELS ==> SortedFiles(levels[i]))
      && (forall i :: 0 <= i < NUM_LEVELS ==> ptrs[i] <= |levels[i]|)
    }

    /** The pointers have passed only files that end before `k`. */
    ghost predicate Passed(k: UserKey)
      requires Valid()
      reads ptrs
    {
      forall i, j :: level + 2 <= i < NUM_LEVELS && 0 <= j < ptrs[i] ==> Largest(levels[i][j]).user < k
    }

    constructor (levels: seq<seq<File>>, level: nat)
      requires |levels| == NUM_LEVELS && level + 2 <= NUM_LEVELS
      requires forall i :: 1 <= i < NUM_LEVELS ==> SortedFiles(levels[i])
      ensures Valid() && this.levels == levels && this.level == level && fresh(ptrs)
      ensures forall k :: Passed(k)
    {
      this.levels := levels;
      this.level := level;
      ptrs := new nat[NUM_LEVELS](_ => 0);
    }

    /** IsBaseLevelForKey: for keys asked in non-decreasing order, the pointers that only ever move forward find out
        what a scan of all deeper files would. */
    method IsBaseLevelForKey(k: UserKey) returns (r: bool)
      requires Valid() && Passed(k)
      modifies ptrs
      ensures Valid() && Passed(k)
      ensures r <==> IsBaseLevel(Sets(levels), level, k)
      ensures r <==> forall i, f :: level + 2 <= i < NUM_LEVELS && f in levels[i] ==>
                       !(Smallest(f).user <= k <= Largest(f).user)
    {
      for lvl := level + 2 to NUM_LEVELS
        invariant Valid() && Passed(k)
        invariant forall i, f :: level + 2 <= i < lvl && f in levels[i] ==> !Overlaps(f, k, k)
      {
        while ptrs[lvl] < |levels[lvl]|
          invariant Valid() && Passed(k)
          decreases |levels[lvl]| - ptrs[lvl]
        {
          var f := levels[lvl][ptrs[lvl]];
          if k <= Largest(f).user {
            if k >= Smallest(f).user {
              assert f in Sets(levels)[lvl] && Overlaps(f, k, k);
              return false;
            }
            forall j | ptrs[lvl] <= j < |levels[lvl]| ensures !Overlaps(levels[lvl][j], k, k) {
              if ptrs[lvl] < j { SortedWithin(levels[lvl], ptrs[lvl], j); }
            }
            break;
          }
          ptrs[lvl] := ptrs[lvl] + 1;
        }
      }
      forall i, f | level + 2 <= i < NUM_LEVELS && f in levels[i] ensures !(Smallest(f).user <= k <= Largest(f).user) {
        assert !Overlaps(f, k, k);
      }
      return true;
    }
  }

  ghost predicate UniqueSorted(es: seq<Entry>) { Sorted(es) && UniqueSeqs(SetOf(es)) }

  /** Rule (A) looks only at the entry just before: if any newer version of the key is old enough, that one is. */
  lemma HiddenByPrevious(es: seq<Entry>, i: nat, snap: nat)
    requires UniqueSorted(es) && i < |es|
    ensures (exists x :: x in SetOf(es) && x.user == es[i].user && x.seqno > es[i].seqno && x.seqno <= snap)
        <==> i > 0 && es[i - 1].user == es[i].user && es[i - 1].seqno <= snap
  {
    if i > 0 && es[i - 1].user == es[i].user && es[i - 1].seqno <= snap {
      assert es[i - 1] in SetOf(es) && es[i] in SetOf(es) && Less(es[i - 1], es[i]);
    }
    if x :| x in SetOf(es) && x.user == es[i].user && x.seqno > es[i].seqno && x.seqno <= snap {
      var j :| 0 <= j < |es| && es[j] == x;
      assert j < i;
      if j < i - 1 { assert Less(es[j], es[i - 1]) && Less(es[i - 1], es[i]); }
    }
  }

  /** The output files written so far and the entries of the one still open, all in order. */
  ghost predicate Emitting(outputs: seq<File>, current: seq<Entry>, first: nat) {
    && SortedFiles(outputs) && Sorted(current)
    && (forall f, x :: f in outputs && x in current ==> Less(Largest(f), x))
    && (forall i :: 0 <= i < |outputs| ==> outputs[i].number == first + i)
  }

  ghost function Emitted(outputs: seq<File>, current: seq<Entry>): set<Entry> {
    Contents(FileSet(outputs)) + SetOf(current)
  }

  /** FinishCompactionOutputFile, if `now` says so and a file is open. */
  method FinishOutput(now: bool, outputs: seq<File>, current: seq<Entry>, first: nat)
    returns (outputs': seq<File>, current': seq<Entry>)
    requires Emitting(outputs, current, first)
    ensures Emitting(outputs', current', first) && Emitted(outputs', current') == Emitted(outputs, current)
    ensures if now && current != [] then |outputs'| == |outputs| + 1 && current' == []
            else outputs' == outputs && current' == current
    ensures now && current != [] ==> outputs'[..|outputs|] == outputs && outputs'[|outputs|].entries == current
  {
    if current == [] || !now { return outputs, current; }
    var f: File := FileData(first + |outputs|, current);
    assert Smallest(f) in current;
    outputs', current' := outputs + [f], [];
    assert f in outputs' && FileSet(outputs') == FileSet(outputs) + {f};
    assert forall e :: e in Contents(FileSet(outputs')) <==> e in Contents(FileSet(outputs)) || e in f.entries;
  }

  /** Adding an entry that comes after everything written to the open output file. */
  method Emit(e: Entry, full: bool, outputs: seq<File>, current: seq<Entry>, first: nat)
    returns (outputs': seq<File>, current': seq<Entry>)
    requires Emitting(outputs, current, first) && forall x :: x in Emitted(outputs, current) ==> Less(x, e)
    ensures Emitting(outputs', current', first) && Emitted(outputs', current') == Emitted(outputs, current) + {e}
    ensures if full then |outputs'| == |outputs| + 1 && current' == []
            else outputs' == outputs && current' == current + [e]
    ensures full ==> outputs'[..|outputs|] == outputs && outputs'[|outputs|].entries == current + [e]
  {
    forall f | f in outputs ensures Less(Largest(f), e) {
      assert Largest(f) in f.entries && f in FileSet(outputs);
    }
    forall x | x in current ensures Less(x, e) { assert x in SetOf(current); }
    outputs', current' := FinishOutput(full, outputs, current + [e], first);
    assert SetOf(current + [e]) == SetOf(current) + {e};
  }

  /** Between input `i` and a later input `j` an output is ended: after `i`, or before one of the inputs up to `j`. */
  ghost predicate CutBetween(i: nat, j: nat, stop: nat -> bool, full: nat -> bool) {
    full(i) || exists m :: i < m <= j && stop(m)
  }

  /** Two inputs, one written right after the other: in two files if and only if an output is ended between them. */
  ghost predicate Placed(merged: seq<Entry>, x: Entry, y: Entry, apart: bool, stop: nat -> bool, full: nat -> bool) {
    forall i, j :: 0 <= i < j < |merged| && merged[i] == x && merged[j] == y ==> CutBetween(i, j, stop, full) == apart
  }

  /** The entries of a file stand together. */
  ghost predicate Together(merged: seq<Entry>, es: seq<Entry>, stop: nat -> bool, full: nat -> bool) {
    forall a, b :: 0 <= a && b == a + 1 && b < |es| ==> Placed(merged, es[a], es[b], false, stop, full)
  }

  /** The outputs are cut exactly where they have to be. */
  ghost predicate CutRight(merged: seq<Entry>, outputs: seq<File>, stop: nat -> bool, full: nat -> bool) {
    && (forall o :: 0 <= o < |outputs| ==> Together(merged, outputs[o].entries, stop, full))
    && (forall o, p :: 0 <= o && p == o + 1 && p < |outputs| ==>
          Placed(merged, Largest(outputs[o]), Smallest(outputs[p]), true, stop, full))
  }

  /** The same while inputs below `i` have been read: `li` is the last one written. */
  ghost predicate Cutting(merged: seq<Entry>, outputs: seq<File>, current: seq<Entry>, stop: nat -> bool,
                          full: nat -> bool, li: nat, i: nat)
  {
    && CutRight(merged, outputs, stop, full) && Together(merged, current, stop, full)
    && (outputs != [] && current != [] ==>
          Placed(merged, Largest(outputs[|outputs| - 1]), current[0], true, stop, full))
    && (outputs != [] || current != [] ==>
          && li < i <= |merged|
          && merged[li] == (if current != [] then current[|current| - 1] else Largest(outputs[|outputs| - 1]))
          && (current == [] <==> CutBetween(li, i - 1, stop, full)))
  }

  /** Indices of entries are unique in a sorted list. */
  lemma PlacedAt(merged: seq<Entry>, i: nat, j: nat, apart: bool, stop: nat -> bool, full: nat -> bool)
    requires Sorted(merged) && i < j < |merged| && CutBetween(i, j, stop, full) == apart
    ensures Placed(merged, merged[i], merged[j], apart, stop, full)
  {
    forall p, q | 0 <= p < q < |merged| && merged[p] == merged[i] && merged[q] == merged[j] ensures p == i && q == j {
      OnePlace(merged, p, i);
      OnePlace(merged, q, j);
    }
  }

  lemma OnePlace(merged: seq<Entry>, p: nat, q: nat)
    requires Sorted(merged) && p < |merged| && q < |merged| && merged[p] == merged[q]
    ensures p == q
  {
    OrderedPlaces(merged, p, q);
    OrderedPlaces(merged, q, p);
  }

  lemma OrderedPlaces(merged: seq<Entry>, p: nat, q: nat)
    requires Sorted(merged) && p < |merged| && q < |merged|
    ensures p < q ==> Less(merged[p], merged[q])
  {}

  lemma NextCut(i: nat, j: nat, stop: nat -> bool, full: nat -> bool)
    requires i <= j
    ensures CutBetween(i, j + 1, stop, full) <==> CutBetween(i, j, stop, full) || stop(j + 1)
  {}

  /** The test before input `i`. */
  lemma CuttingStops(merged: seq<Entry>, outputs: seq<File>, current: seq<Entry>, outputs': seq<File>,
                     current': seq<Entry>, stop: nat -> bool, full: nat -> bool, li: nat, i: nat)
    requires Cutting(merged, outputs, current, stop, full, li, i) && i < |merged|
    requires if stop(i) && current != [] then |outputs'| == |outputs| + 1 && current' == []
             else outputs' == outputs && current' == current
    requires stop(i) && current != [] ==> outputs'[..|outputs|] == outputs && outputs'[|outputs|].entries == current
    ensures Cutting(merged, outputs', current', stop, full, li, i + 1)
  {
    if outputs != [] || current != [] { NextCut(li, i - 1, stop, full); }
    if stop(i) && current != [] { OneMoreOutput(merged, outputs, current, outputs', stop, full); }
  }

  lemma OneMoreOutput(merged: seq<Entry>, outputs: seq<File>, current: seq<Entry>, outputs': seq<File>,
                      stop: nat -> bool, full: nat -> bool)
    requires CutRight(merged, outputs, stop, full) && Together(merged, current, stop, full) && current != []
    requires outputs != [] ==> Placed(merged, Largest(outputs[|outputs| - 1]), current[0], true, stop, full)
    requires |outputs'| == |outputs| + 1 && outputs'[..|outputs|] == outputs && outputs'[|outputs|].entries == current
    ensures CutRight(merged, outputs', stop, full) && Largest(outputs'[|outputs|]) == current[|current| - 1]
  {
    var n := |outputs|;
    forall o | 0 <= o < n ensures outputs'[o] == outputs[o] { assert outputs'[..n][o] == outputs[o]; }
  }

  /** Input `i` is written. */
  lemma CuttingEmits(merged: seq<Entry>, outputs: seq<File>, current: seq<Entry>, outputs': seq<File>,
                     current': seq<Entry>, stop: nat -> bool, full: nat -> bool, li: nat, i: nat)
    requires Sorted(merged) && Cutting(merged, outputs, current, stop, full, li, i + 1) && i < |merged|
    requires outputs != [] || current != [] ==> li < i
    requires if full(i) then |outputs'| == |outputs| + 1 && current' == []
             else outputs' == outputs && current' == current + [merged[i]]
    requires full(i) ==> outputs'[..|outputs|] == outputs && outputs'[|outputs|].entries == current + [merged[i]]
    ensures Cutting(merged, outputs', current', stop, full, i, i + 1)
  {
    var longer := current + [merged[i]];
    if outputs != [] || current != [] { PlacedAt(merged, li, i, current == [], stop, full); }
    TogetherGrows(merged, current, merged[i], stop, full);
    assert longer[0] == if current != [] then current[0] else merged[i];
    if full(i) { OneMoreOutput(merged, outputs, longer, outputs', stop, full); }
    assert CutBetween(i, i, stop, full) == full(i);
  }

  lemma TogetherGrows(merged: seq<Entry>, es: seq<Entry>, e: Entry, stop: nat -> bool, full: nat -> bool)
    requires Together(merged, es, stop, full)
    requires es != [] ==> Placed(merged, es[|es| - 1], e, false, stop, full)
    ensures Together(merged, es + [e], stop, full)
  {}

  /** What the compaction must keep of the first `i` merged entries. */
  ghost function Survivors(merged: seq<Entry>, i: nat, levels: seq<seq<File>>, level: nat, snap: nat): set<Entry>
    requires i <= |merged|
  {
    set e | e in merged[..i] && !Dropped(SetOf(merged), Sets(levels), level, snap, e)
  }

  lemma SurvivorsStep(merged: seq<Entry>, i: nat, levels: seq<seq<File>>, level: nat, snap: nat)
    requires UniqueSorted(merged) && i < |merged|
    ensures Survivors(merged, i + 1, levels, level, snap) == Survivors(merged, i, levels, level, snap)
              + if Dropped(SetOf(merged), Sets(levels), level, snap, merged[i]) then {} else {merged[i]}
    ensures forall x :: x in Survivors(merged, i, levels, level, snap) ==> Less(x, merged[i])
  {
    assert merged[..i + 1] == merged[..i] + [merged[i]];
    forall x | x in merged[..i] ensures Less(x, merged[i]) {
      var j :| 0 <= j < i && merged[..i][j] == x;
      assert merged[j] == x;
    }
  }

  /** The two rules: whether input `i` is dropped. `last` is the sequence number of the entry before it, if that has the
      same user key, and the largest one otherwise. */
  method Drops(c: Compaction, merged: seq<Entry>, i: nat, last: nat, snap: nat) returns (drop: bool)
    requires c.Valid() && UniqueSorted(merged) && i < |merged| && snap < MAX_SEQUENCE
    requires forall j :: i <= j < |merged| ==> c.Passed(merged[j].user)
    requires last == if i > 0 && merged[i - 1].user == merged[i].user then merged[i - 1].seqno else MAX_SEQUENCE
    modifies c.ptrs
    ensures c.Valid() && forall j :: i <= j < |merged| ==> c.Passed(merged[j].user)
    ensures drop <==> Dropped(SetOf(merged), Sets(c.levels), c.level, snap, merged[i])
  {
    var e := merged[i];
    HiddenByPrevious(merged, i, snap);
    drop := false;
    if last <= snap {
      drop := true;
    } else if e.typ.Deletion? && e.seqno <= snap {
      drop := c.IsBaseLevelForKey(e.user);
      PassedAhead(c, merged, i);
    }
  }

  /** What has become of the first `i` inputs. */
  ghost predicate Written(
    merged: seq<Entry>, levels: seq<seq<File>>, level: nat, snap: nat, first: nat, stop: nat -> bool, full: nat -> bool,
    outputs: seq<File>, current: seq<Entry>, li: nat, i: nat)
  {
    && i <= |merged| && Emitting(outputs, current, first)
    && Emitted(outputs, current) == Survivors(merged, i, levels, level, snap)
    && Cutting(merged, outputs, current, stop, full, li, i)
  }

  /** One turn of the loop: an output may end, the entry is dropped or written, and an output may end again. */
  method CompactOne(
    c: Compaction, merged: seq<Entry>, i: nat, last: nat, snap: nat, first: nat, stop: nat -> bool, full: nat -> bool,
    outputs: seq<File>, current: seq<Entry>, ghost li: nat)
    returns (outputs': seq<File>, current': seq<Entry>, ghost li': nat)
    requires c.Valid() && UniqueSorted(merged) && i < |merged| && snap < MAX_SEQUENCE
    requires forall j :: i <= j < |merged| ==> c.Passed(merged[j].user)
    requires last == if i > 0 && merged[i - 1].user == merged[i].user then merged[i - 1].seqno else MAX_SEQUENCE
    requires Written(merged, c.levels, c.level, snap, first, stop, full, outputs, current, li, i)
    modifies c.ptrs
    ensures c.Valid() && forall j :: i <= j < |merged| ==> c.Passed(merged[j].user)
    ensures Written(merged, c.levels, c.level, snap, first, stop, full, outputs', current', li', i + 1)
  {
    li' := li;
    outputs', current' := FinishOutput(stop(i), outputs, current, first);
    CuttingStops(merged, outputs, current, outputs', current', stop, full, li, i);
    var drop := Drops(c, merged, i, last, snap);
    SurvivorsStep(merged, i, c.levels, c.level, snap);
    if !drop {
      ghost var outputs0, current0 := outputs', current';
      outputs', current' := Emit(merged[i], full(i), outputs', current', first);
      CuttingEmits(merged, outputs0, current0, outputs', current', stop, full, li, i);
      li' := i;
    }
  }

  /** The loop of DoCompactionWork over the merged inputs.  `stop` and `full` stand for the two size heuristics that
      end an output file before and after an entry. */
  method DoCompactionWork(c: Compaction, merged: seq<Entry>, snap: nat, first: nat, stop: nat -> bool, full: nat -> bool)
    returns (outputs: seq<File>)
    requires c.Valid() && UniqueSorted(merged) && snap < MAX_SEQUENCE
    requires forall k :: c.Passed(k)
    modifies c.ptrs
    ensures SortedFiles(outputs)
    ensures forall i :: 0 <= i < |outputs| ==> outputs[i].number == first + i
    ensures Contents(FileSet(outputs)) == Survivors(merged, |merged|, c.levels, c.level, snap)
    ensures CutRight(merged, outputs, stop, full)
    ensures forall e :: e in Contents(FileSet(outputs)) && e.typ.Deletion? && e.seqno <= snap ==>
              exists i, f :: c.level + 2 <= i < NUM_LEVELS && f in c.levels[i]
                             && Smallest(f).user <= e.user <= Largest(f).user
  {
    outputs := [];
    var current: seq<Entry> := [];
    var hasKey, key, lastSeq := false, 0.0, MAX_SEQUENCE;
    ghost var li := 0;
    for i := 0 to |merged|
      invariant c.Valid() && forall j :: i <= j < |merged| ==> c.Passed(merged[j].user)
      invariant hasKey <==> i > 0
      invariant i > 0 ==> key == merged[i - 1].user && lastSeq == merged[i - 1].seqno
      invariant Written(merged, c.levels, c.level, snap, first, stop, full, outputs, current, li, i)
    {
      var e := merged[i];
      if !hasKey || e.user != key {
        key, hasKey, lastSeq := e.user, true, MAX_SEQUENCE;
      }
      outputs, current, li := CompactOne(c, merged, i, lastSeq, snap, first, stop, full, outputs, current, li);
      lastSeq := e.seqno;
    }
    ghost var outputs0, current0 := outputs, current;
    outputs, current := FinishOutput(true, outputs, current, first);
    if current0 != [] { OneMoreOutput(merged, outputs0, current0, outputs, stop, full); }
    DeletionsHide(merged, c.levels, c.level, snap);
  }

  /** A deletion that everybody sees survives only above a file that may hold its user key. */
  lemma DeletionsHide(merged: seq<Entry>, levels: seq<seq<File>>, level: nat, snap: nat)
    requires |levels| == NUM_LEVELS
    ensures forall e :: e in Survivors(merged, |merged|, levels, level, snap) && e.typ.Deletion? && e.seqno <= snap ==>
              exists i, f :: level + 2 <= i < NUM_LEVELS && f in levels[i] && Smallest(f).user <= e.user <= Largest(f).user
  {
    forall e | e in Survivors(merged, |merged|, levels, level, snap) && e.typ.Deletion? && e.seqno <= snap
      ensures exists i, f :: level + 2 <= i < NUM_LEVELS && f in levels[i] && Smallest(f).user <= e.user <= Largest(f).user
    {
      assert !IsBaseLevel(Sets(levels), level, e.user);
      var i, f :| level + 2 <= i < NUM_LEVELS && f in Sets(levels)[i] && Overlaps(f, e.user, e.user);
      assert f in levels[i];
    }
  }

  lemma PassedAhead(c: Compaction, merged: seq<Entry>, i: nat)
    requires c.Valid() && Sorted(merged) && i < |merged| && c.Passed(merged[i].user)
    ensures forall j :: i <= j < |merged| ==> c.Passed(merged[j].user)
  {
    forall j | i <= j < |merged| ensures merged[i].user <= merged[j].user {
      if i < j { assert Less(merged[i], merged[j]); }
    }
  }
}
