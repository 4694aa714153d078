/** The write-ahead log format: records cut into fragments, fragments placed in 32 KB blocks
    (db/log_format.h, db/log_writer.cc, db/log_reader.cc). */
module Log {
  import opened Keys
  import opened Crc32c
  import opened Coding

  const BLOCK: nat := 32768
  const HEADER: nat := 7

  const FULL: nat := 1
  const FIRST: nat := 2
  const MIDDLE: nat := 3
  const LAST: nat := 4
  const EOF: nat := 5
  const BAD: nat := 6

  // ----- the format

  function Zeros(n: nat): Bytes { seq(n, i => 0) }

  /** How many bytes of a block are left unused after the first `offset`: a header would not fit. */
  function Padding(offset: nat): nat { if offset <= BLOCK < offset + HEADER then BLOCK - offset else 0 }

  /** Where in its block the next fragment starts. */
  function Start(offset: nat): nat { if BLOCK < offset + HEADER then 0 else offset }

  datatype Fragment = Fragment(typ: byte, data: Bytes)

  /** A fragment as it is stored: checksum, length, type, data. */
  function Physical(f: Fragment): (r: Bytes)
    ensures |r| == HEADER + |f.data|
  {
    EncodeFixed32(Mask(Extended(Crc32c.Value([f.typ]), f.data)))
      + [|f.data| % 256, |f.data| / 256 % 256, f.typ] + f.data
  }

  /** The length that a header announces. */
  function Announced(header: Bytes): nat
    requires |header| >= HEADER
  {
    header[4] as int + 256 * header[5] as int
  }

  /** The reader's checksum test. */
  predicate Intact(stored: Bytes) {
    |stored| >= HEADER && Unmask(DecodeFixed32(stored[..4])) == Crc32c.Value(stored[6..])
  }

  /** The fragment stays within one block. */
  ghost predicate Fits(offset: nat, f: Fragment) {
    Start(offset) + HEADER + |f.data| <= BLOCK && 1 <= f.typ <= 4
  }

  /** How many bytes of its block are in use after the first `k` fragments. */
  function Offset(frags: seq<Fragment>, k: nat): nat
    requires k <= |frags|
  {
    if k == 0 then 0 else Start(Offset(frags, k - 1)) + HEADER + |frags[k - 1].data|
  }

  /** Where the first `k` fragments end in the file. */
  function End(frags: seq<Fragment>, k: nat): nat
    requires k <= |frags|
  {
    if k == 0 then 0 else End(frags, k - 1) + Padding(Offset(frags, k - 1)) + HEADER + |frags[k - 1].data|
  }

  /** Where fragment `k` begins in the file. */
  function Begin(frags: seq<Fragment>, k: nat): nat
    requires k <= |frags|
  {
    End(frags, k) + Padding(Offset(frags, k))
  }

  /** What each fragment adds to the file: the trailer of the block before it, and its own bytes. */
  function Parts(frags: seq<Fragment>): (r: seq<Bytes>)
    ensures |r| == |frags|
  {
    seq(|frags|, i requires 0 <= i < |frags| => Zeros(Padding(Offset(frags, i))) + Physical(frags[i]))
  }

  /** The file that holds these fragments, one after the other. */
  function Image(frags: seq<Fragment>): Bytes { Concat(Parts(frags), |frags|) }

  ghost predicate Placed(frags: seq<Fragment>) {
    forall k :: 0 <= k < |frags| ==> Fits(Offset(frags, k), frags[k])
  }

  /** Exactly a header fits into the current block, so a non-empty record starts with an empty fragment. */
  predicate Tight(offset: nat) { Start(offset) + HEADER == BLOCK }

  /** The fragments of a record, if `offset` bytes of the current block are in use before. */
  function Split(offset: nat, left: Bytes, begin: bool): (r: seq<Fragment>)
    ensures r != []
    decreases |left|, Tight(offset)
  {
    var avail := BLOCK - Start(offset) - HEADER;
    if |left| <= avail then
      [Fragment(if begin then FULL else LAST, left)]
    else
      [Fragment(if begin then FIRST else MIDDLE, left[..avail])] + Split(BLOCK, left[avail..], false)
  }

  /** The fragments of the first `k` records of a log. */
  function LogFragments(records: seq<Bytes>, k: nat): seq<Fragment>
    requires k <= |records|
  {
    if k == 0 then []
    else
      var before := LogFragments(records, k - 1);
      before + Split(Offset(before, |before|), records[k - 1], true)
  }

  /** The log file of the first `k` records. */
  function LogImage(records: seq<Bytes>, k: nat): Bytes
    requires k <= |records|
  {
    Image(LogFragments(records, k))
  }

  // ----- facts about the image

  lemma {:induction false} PhysicalHeader(f: Fragment)
    requires |f.data| <= BLOCK
    ensures var r := Physical(f); Announced(r) == |f.data| && r[6] == f.typ && r[HEADER..] == f.data
  {
    LengthBytes(|f.data|);
    assert Announced(Physical(f)) == |f.data| % 256 + 256 * (|f.data| / 256 % 256);
  }

  lemma LengthBytes(n: nat)
    requires n < 0x10000
    ensures n % 256 + 256 * (n / 256 % 256) == n
  {}

  /** What the writer stores passes the reader's checksum test. */
  lemma {:induction false} PhysicalIntact(f: Fragment)
    ensures Intact(Physical(f))
  {
    var r, crc := Physical(f), Extended(Crc32c.Value([f.typ]), f.data);
    assert r[..4] == EncodeFixed32(Mask(crc));
    assert r[6..] == [f.typ] + f.data;
    Checks(crc, f.typ, f.data, r[..4]);
  }

  lemma {:induction false} Checks(crc: Word, t: byte, data: Bytes, stored: Bytes)
    requires crc == Extended(Crc32c.Value([t]), data) && stored == EncodeFixed32(Mask(crc))
    ensures Unmask(DecodeFixed32(stored)) == Crc32c.Value([t] + data)
  {
    Fixed32RoundTrip(Mask(crc), stored);
    MaskRoundTrip(crc);
    ExtendedSplits(Zero(), [t], data);
  }

  lemma {:induction false} OffsetOfPrefix(frags: seq<Fragment>, more: seq<Fragment>, k: nat)
    requires k <= |frags|
    ensures Offset(frags + more, k) == Offset(frags, k) && End(frags + more, k) == End(frags, k)
  {
    if k > 0 { OffsetOfPrefix(frags, more, k - 1); }
  }

  lemma {:induction false} ConcatLength(parts: seq<Bytes>, frags: seq<Fragment>, k: nat)
    requires k <= |frags| == |parts|
    requires forall i :: 0 <= i < |frags| ==> |parts[i]| == Padding(Offset(frags, i)) + HEADER + |frags[i].data|
    ensures |Concat(parts, k)| == End(frags, k)
  {
    if k > 0 { ConcatLength(parts, frags, k - 1); }
  }

  lemma {:induction false} ImageLength(frags: seq<Fragment>, k: nat)
    requires k <= |frags|
    ensures |Concat(Parts(frags), k)| == End(frags, k)
  {
    ConcatLength(Parts(frags), frags, k);
  }

  lemma {:induction false} PartsSnoc(frags: seq<Fragment>, f: Fragment)
    ensures Parts(frags + [f]) == Parts(frags) + [Zeros(Padding(Offset(frags, |frags|))) + Physical(f)]
  {
    var all := frags + [f];
    forall i | 0 <= i < |frags| ensures Parts(all)[i] == Parts(frags)[i] {
      assert all[i] == frags[i];
      OffsetOfPrefix(frags, [f], i);
    }
    OffsetOfPrefix(frags, [f], |frags|);
  }

  lemma {:induction false} ImageSnoc(frags: seq<Fragment>, f: Fragment)
    ensures Image(frags + [f]) == Image(frags) + (Zeros(Padding(Offset(frags, |frags|))) + Physical(f))
  {
    PartsSnoc(frags, f);
    ConcatSnoc(Parts(frags), Zeros(Padding(Offset(frags, |frags|))) + Physical(f));
  }

  lemma {:induction false} PlacedSnoc(frags: seq<Fragment>, f: Fragment)
    requires Placed(frags) && Fits(Offset(frags, |frags|), f)
    ensures Placed(frags + [f])
  {
    var all := frags + [f];
    forall k | 0 <= k < |all| ensures Fits(Offset(all, k), all[k]) {
      OffsetOfPrefix(frags, [f], k);
    }
  }

  // ----- the writer

  /** The header that EmitPhysicalRecord formats; `misalign` is the payload's alignment in memory. */
  method FormatHeader(t: byte, data: Bytes, misalign: nat) returns (header: Bytes)
    requires misalign < 4
    ensures |header| == HEADER && header + data == Physical(Fragment(t, data))
  {
    var crc := Extend(Crc32c.Value([t]), data, misalign);
    header := EncodeFixed32(Mask(crc)) + [|data| % 256, |data| / 256 % 256, t];
  }

  class Writer {
    var dest: Bytes
    var blockOffset: nat
    ghost var frags: seq<Fragment>

    ghost predicate Valid()
      reads this
    {
      dest == Image(frags) && Placed(frags) && blockOffset == Offset(frags, |frags|) <= BLOCK
    }

    constructor ()
      ensures Valid() && frags == [] && dest == []
    {
      dest, blockOffset, frags := [], 0, [];
    }

    /** The next header fits into the current block. */
    ghost predicate Skipped()
      reads this
    {
      && dest == Image(frags) + Zeros(Padding(Offset(frags, |frags|))) && Placed(frags)
      && blockOffset == Start(Offset(frags, |frags|))
    }

    /** Filling the trailer of a block that has no room for a header. */
    method SkipTrailer()
      requires Valid()
      modifies this`dest, this`blockOffset
      ensures Skipped()
    {
      var leftover := BLOCK - blockOffset;
      if leftover < HEADER {
        if leftover > 0 { dest := dest + Zeros(leftover); }
        blockOffset := 0;
      }
    }

    /** EmitPhysicalRecord */
    method EmitPhysicalRecord(t: byte, data: Bytes, misalign: nat)
      requires Skipped() && 1 <= t <= 4 && blockOffset + HEADER + |data| <= BLOCK && misalign < 4
      modifies this
      ensures Valid() && frags == old(frags) + [Fragment(t, data)]
      ensures Offset(frags, |frags|) == old(blockOffset) + HEADER + |data|
    {
      var header := FormatHeader(t, data, misalign);
      Layout(Image(frags), Zeros(Padding(Offset(frags, |frags|))), header, data);
      dest := dest + header;
      dest := dest + data;
      blockOffset := blockOffset + HEADER + |data|;
      Appended(frags, Fragment(t, data));
      frags := frags + [Fragment(t, data)];
    }

    /** One round of AddRecord's loop: the next fragment. */
    method AddFragment(left: Bytes, begin: bool) returns (left': Bytes, more: bool, ghost f: Fragment)
      requires Valid()
      modifies this
      ensures Valid() && frags == old(frags) + [f]
      ensures !more ==> Split(Offset(old(frags), |old(frags)|), left, begin) == [f]
      ensures more ==>
                Split(Offset(old(frags), |old(frags)|), left, begin) == [f] + Split(Offset(frags, |frags|), left', false)
      ensures more ==>
                || |left'| < |left|
                || (left' == left && Tight(Offset(old(frags), |old(frags)|)) && !Tight(Offset(frags, |frags|)))
    {
      SkipTrailer();
      var avail := BLOCK - blockOffset - HEADER;
      var length := if |left| < avail then |left| else avail;
      var end := |left| == length;
      var t := if begin && end then FULL else if begin then FIRST else if end then LAST else MIDDLE;
      f := Fragment(t, left[..length]);
      SplitStep(Offset(frags, |frags|), left, begin, t, length, f, blockOffset + HEADER + length);
      EmitPhysicalRecord(t, left[..length], 0);
      left', more := left[length..], !end;
    }

    /** AddRecord: at least one fragment, even for an empty record. */
    method AddRecord(slice: Bytes)
      requires Valid()
      modifies this
      ensures Valid() && frags == old(frags) + Split(Offset(old(frags), |old(frags)|), slice, true)
    {
      var left, begin, more := slice, true, true;
      while more
        invariant Valid()
        invariant (frags + (if more then Split(Offset(frags, |frags|), left, begin) else []))
               == old(frags) + Split(Offset(old(frags), |old(frags)|), slice, true)
        decreases more, |left|, Tight(Offset(frags, |frags|))
      {
        ghost var f: Fragment;
        ghost var done := frags;
        left, more, f := AddFragment(left, begin);
        begin := false;
        Regroup(done, f, if more then Split(Offset(frags, |frags|), left, false) else []);
      }
    }
  }

  /** A log written from scratch. */
  method WriteLog(records: seq<Bytes>) returns (file: Bytes)
    ensures file == LogImage(records, |records|)
  {
    var w := new Writer();
    for k := 0 to |records|
      invariant w.Valid() && w.frags == LogFragments(records, k)
    {
      w.AddRecord(records[k]);
    }
    file := w.dest;
  }

  ghost predicate Fragments(offset: nat, left: Bytes, begin: bool, t: byte, length: nat) {
    var avail := BLOCK - Start(offset) - HEADER;
    && length <= |left| && length == (if |left| < avail then |left| else avail)
    && t == if |left| == length then (if begin then FULL else LAST) else if begin then FIRST else MIDDLE
  }

  lemma {:induction false} SplitStep(
    offset: nat, left: Bytes, begin: bool, t: byte, length: nat, f: Fragment, offset': nat)
    requires Fragments(offset, left, begin, t, length) && f == Fragment(t, left[..length])
    requires offset' == Start(offset) + HEADER + length
    ensures length == |left| ==> Split(offset, left, begin) == [f]
    ensures length < |left| ==>
              && Split(offset, left, begin) == [f] + Split(offset', left[length..], false)
              && (length == 0 ==> Tight(offset))
              && !Tight(offset')
  {
    assert left[..|left|] == left;
  }

  lemma Layout(image: Bytes, pad: Bytes, header: Bytes, data: Bytes)
    ensures image + pad + header + data == image + (pad + (header + data))
  {}

  /** What one more fragment does to the image. */
  lemma {:induction false} Appended(frags: seq<Fragment>, f: Fragment)
    requires Placed(frags) && Fits(Offset(frags, |frags|), f)
    ensures var k, all := |frags|, frags + [f];
            && Placed(all) && |all| == k + 1
            && Image(all) == Image(frags) + (Zeros(Padding(Offset(frags, k))) + Physical(f))
            && Offset(all, k + 1) == Start(Offset(frags, k)) + HEADER + |f.data| <= BLOCK
  {
    PlacedSnoc(frags, f);
    OffsetOfPrefix(frags, [f], |frags|);
    ImageSnoc(frags, f);
  }

  lemma Grows<T>(s: seq<T>, k: nat)
    requires k < |s|
    ensures s[..k + 1] == s[..k] + [s[k]]
  {}

  lemma Joined<T>(a: seq<T>, b: seq<T>, c: seq<T>)
    ensures (a + b) + c == a + (b + c)
  {}

  lemma Regroup<T>(a: seq<T>, x: T, b: seq<T>)
    ensures (a + [x]) + b == a + ([x] + b)
  {}

  lemma {:induction false} SplitPlaced(frags: seq<Fragment>, left: Bytes, begin: bool, offset: nat)
    requires Placed(frags) && offset == Offset(frags, |frags|)
    ensures Placed(frags + Split(offset, left, begin))
    decreases |left|, Tight(offset)
  {
    var avail := BLOCK - Start(offset) - HEADER;
    var length := if |left| < avail then |left| else avail;
    var t := if |left| == length then (if begin then FULL else LAST) else if begin then FIRST else MIDDLE;
    var f, offset' := Fragment(t, left[..length]), Start(offset) + HEADER + length;
    SplitStep(offset, left, begin, t, length, f, offset');
    PlacedSnoc(frags, f);
    if length < |left| {
      OffsetOfPrefix(frags, [f], |frags|);
      SplitPlaced(frags + [f], left[length..], false, offset');
      Regroup(frags, f, Split(offset', left[length..], false));
    }
  }

  lemma {:induction false} LogPlaced(records: seq<Bytes>, k: nat)
    requires k <= |records|
    ensures Placed(LogFragments(records, k))
  {
    if k > 0 {
      LogPlaced(records, k - 1);
      var before := LogFragments(records, k - 1);
      SplitPlaced(before, records[k - 1], true, Offset(before, |before|));
    }
  }

  // ----- records in a list of fragments

  /** Fragments `j` to `k` hold what is left of a record. */
  ghost predicate Holds(frags: seq<Fragment>, j: nat, k: nat, rest: Bytes, begin: bool)
    decreases k - j
  {
    && j < k <= |frags|
    && var t, data := frags[j].typ, frags[j].data;
       if k == j + 1 then t == (if begin then FULL else LAST) && data == rest
       else && t == (if begin then FIRST else MIDDLE) && |data| <= |rest| && data == rest[..|data|]
            && Holds(frags, j + 1, k, rest[|data|..], false)
  }

  /** The fragments that the writer makes of a record hold it. */
  lemma {:induction false} SplitHolds(frags: seq<Fragment>, j: nat, k: nat, rest: Bytes, begin: bool, offset: nat)
    requires j < k <= |frags| && frags[j..k] == Split(offset, rest, begin)
    ensures Holds(frags, j, k, rest, begin)
    decreases k - j
  {
    var whole := frags[j..k];
    var avail := BLOCK - Start(offset) - HEADER;
    assert frags[j] == whole[0];
    if |rest| > avail {
      assert whole[1..] == Split(BLOCK, rest[avail..], false);
      assert frags[j + 1..k] == whole[1..];
      SplitHolds(frags, j + 1, k, rest[avail..], false, BLOCK);
    }
  }

  predicate StartsWith(all: seq<Fragment>, a: seq<Fragment>) { |a| <= |all| && all[..|a|] == a }

  /** A log starts with the fragments of its first `m` records. */
  lemma {:induction false} LogStartsWith(records: seq<Bytes>, m: nat, n: nat)
    requires m <= n <= |records|
    ensures StartsWith(LogFragments(records, n), LogFragments(records, m))
    decreases n
  {
    if m < n {
      LogStartsWith(records, m, n - 1);
      var a, b := LogFragments(records, m), LogFragments(records, n - 1);
      assert LogFragments(records, n)[..|a|] == b[..|a|];
    }
  }

  /** Record `m` of a log, as fragments. */
  lemma {:induction false} RecordInLog(records: seq<Bytes>, m: nat, n: nat)
    requires m < n <= |records|
    ensures Holds(LogFragments(records, n), |LogFragments(records, m)|, |LogFragments(records, m + 1)|, records[m], true)
  {
    LogStartsWith(records, m + 1, n);
    var a, all := LogFragments(records, m), LogFragments(records, n);
    var c := Split(Offset(a, |a|), records[m], true);
    SliceOfJoin(all, a, c);
    SplitHolds(all, |a|, |a + c|, records[m], true, Offset(a, |a|));
  }

  /** Where record `m` starts in the file. */
  lemma {:induction false} RecordAt(records: seq<Bytes>, m: nat, n: nat)
    requires m <= n <= |records|
    ensures var a, all := LogFragments(records, m), LogFragments(records, n);
            |a| <= |all| && End(all, |a|) == |LogImage(records, m)|
  {
    LogStartsWith(records, m, n);
    EndOfPrefix(LogFragments(records, m), LogFragments(records, n));
  }

  lemma {:induction false} EndOfPrefix(a: seq<Fragment>, all: seq<Fragment>)
    requires StartsWith(all, a)
    ensures End(all, |a|) == |Image(a)|
  {
    ImageLength(a, |a|);
    assert a + all[|a|..] == all;
    OffsetOfPrefix(a, all[|a|..], |a|);
  }

  lemma SliceOfJoin<T>(all: seq<T>, a: seq<T>, c: seq<T>)
    requires |a + c| <= |all| && all[..|a + c|] == a + c
    ensures all[|a|..|a + c|] == c
  {
    assert all[|a|..|a + c|] == all[..|a + c|][|a|..];
  }

  // ----- the reader

  /** The torn file holds these bytes at `p`, as far as it goes. */
  ghost predicate Stored(file: Bytes, p: nat, bytes: Bytes) {
    forall k :: 0 <= k < |bytes| && p + k < |file| ==> file[p + k] == bytes[k]
  }

  /** The file is what a crash left of these fragments: it holds each of them as far as it goes. */
  ghost predicate Torn(file: Bytes, frags: seq<Fragment>) {
    && Placed(frags) && |file| <= End(frags, |frags|)
    && forall i {:trigger Physical(frags[i])} ::
         0 <= i < |frags| ==> Stored(file, Begin(frags, i), Physical(frags[i]))
  }

  /** Any prefix of the image is such a file. */
  lemma {:induction false} PrefixIsTorn(file: Bytes, frags: seq<Fragment>)
    requires Placed(frags) && IsPrefix(file, Image(frags))
    ensures Torn(file, frags)
  {
    ImageLength(frags, |frags|);
    forall i | 0 <= i < |frags| ensures Stored(file, Begin(frags, i), Physical(frags[i])) {
      FragmentStored(file, frags, i);
    }
  }

  lemma {:induction false} FragmentStored(file: Bytes, frags: seq<Fragment>, i: nat)
    requires i < |frags| && IsPrefix(file, Image(frags))
    ensures Stored(file, Begin(frags, i), Physical(frags[i]))
  {
    var parts, pad, f := Parts(frags), Zeros(Padding(Offset(frags, i))), Physical(frags[i]);
    ImageLength(frags, i);
    PartOf(parts, i, pad, f, file, Begin(frags, i));
  }

  lemma {:induction false} PartOf(parts: seq<Bytes>, i: nat, pad: Bytes, f: Bytes, file: Bytes, p: nat)
    requires i < |parts| && parts[i] == pad + f && IsPrefix(file, Concat(parts, |parts|))
    requires p == |Concat(parts, i)| + |pad|
    ensures Stored(file, p, f)
  {
    ConcatPrefix(parts, i + 1, |parts|);
    Cut(Concat(parts, |parts|), file, Concat(parts, i), pad, f, p);
  }

  /** The buffer holds the rest, from byte `p`, of the block that starts at byte `block`. */
  ghost predicate Loaded(file: Bytes, p: nat, block: int, pos: nat, buffer: Bytes, eof: bool) {
    && p <= pos <= |file| && buffer == file[p..pos]
    && (if eof then pos == |file| < block + BLOCK else pos == block + BLOCK)
  }

  /** The next fragment to read is number `i`. */
  ghost predicate Reading(file: Bytes, frags: seq<Fragment>, i: nat, pos: nat, buffer: Bytes, eof: bool) {
    && i <= |frags| && End(frags, i) <= |file|
    && (|| (i == 0 && pos == 0 && buffer == [] && !eof)
        || Loaded(file, End(frags, i), End(frags, i) - Offset(frags, i), pos, buffer, eof))
  }

  /** The trailer is skipped and the block of fragment `i` is loaded. */
  ghost predicate Ready(file: Bytes, frags: seq<Fragment>, i: nat, pos: nat, buffer: Bytes, eof: bool) {
    && i <= |frags| && End(frags, i) <= |file|
    && Loaded(file, Begin(frags, i), Begin(frags, i) - Start(Offset(frags, i)), pos, buffer, eof)
  }

  lemma Cut(image: Bytes, file: Bytes, before: Bytes, pad: Bytes, f: Bytes, p: nat)
    requires IsPrefix(before + (pad + f), image) && IsPrefix(file, image) && p == |before| + |pad|
    ensures Stored(file, p, f)
  {
    var upto := before + (pad + f);
    assert forall k :: 0 <= k < |f| ==> upto[p + k] == f[k];
    assert forall k :: 0 <= k < |upto| ==> image[k] == upto[k];
  }

  /** What a loaded block shows of the fragment at byte `p`. */
  lemma {:induction false} Parse(
    file: Bytes, p: nat, offset: nat, pos: nat, buffer: Bytes, eof: bool, f: Fragment, stored: Bytes)
    requires Fits(offset, f) && stored == Physical(f) && Stored(file, p, stored)
    requires Loaded(file, p, p - Start(offset), pos, buffer, eof) && |buffer| >= HEADER
    ensures Announced(buffer) == |f.data| && f.typ == buffer[6]
    ensures |stored| <= |buffer| <==> p + |stored| <= |file|
    ensures |stored| > |buffer| ==> eof
    ensures |stored| <= |buffer| ==> buffer[..|stored|] == stored && buffer[HEADER..|stored|] == f.data
    ensures |stored| <= |buffer| ==> Loaded(file, p + |stored|, p - Start(offset), pos, buffer[|stored|..], eof)
  {
    PhysicalHeader(f);
    Matches(file, p, pos, buffer, stored);
  }

  lemma Matches(file: Bytes, p: nat, pos: nat, buffer: Bytes, stored: Bytes)
    requires Stored(file, p, stored) && p <= pos <= |file| && buffer == file[p..pos]
    requires |buffer| >= HEADER && |stored| >= HEADER
    ensures Announced(buffer) == Announced(stored) && buffer[6] == stored[6]
    ensures |stored| <= |buffer| ==> buffer[..|stored|] == stored && buffer[HEADER..|stored|] == stored[HEADER..]
  {
    assert forall k :: 0 <= k < |buffer| ==> buffer[k] == file[p + k];
    assert forall k :: 0 <= k < HEADER ==> buffer[k] == stored[k];
  }

  lemma {:induction false} NotAtEnd(file: Bytes, frags: seq<Fragment>, i: nat, pos: nat, buffer: Bytes, eof: bool)
    requires |file| <= End(frags, |frags|) && Ready(file, frags, i, pos, buffer, eof) && |buffer| >= HEADER
    ensures i < |frags|
  {}

  /** What the reader's tests say about a loaded block, in the terms of the code. */
  lemma {:induction false} TestsPass(
    file: Bytes, frags: seq<Fragment>, i: nat, pos: nat, buffer: Bytes, eof: bool, size: nat)
    requires Torn(file, frags) && Ready(file, frags, i, pos, buffer, eof) && |buffer| >= HEADER
    requires size == HEADER + Announced(buffer)
    ensures i < |frags| && buffer[6] == frags[i].typ != 0
    ensures size > |buffer| ==> eof && End(frags, i + 1) > |file|
    ensures size <= |buffer| ==>
              && End(frags, i + 1) <= |file| && buffer[..size] == Physical(frags[i])
              && buffer[HEADER..size] == frags[i].data
              && Reading(file, frags, i + 1, pos, buffer[size..], eof)
  {
    NotAtEnd(file, frags, i, pos, buffer, eof);
    var stored := Physical(frags[i]);
    Parse(file, Begin(frags, i), Offset(frags, i), pos, buffer, eof, frags[i], stored);
  }

  /** Reading the next block skips the trailer of the last one. */
  lemma {:induction false} NextBlock(
    file: Bytes, frags: seq<Fragment>, i: nat, pos: nat, buffer: Bytes, pos': nat, eof': bool)
    requires Reading(file, frags, i, pos, buffer, false) && |buffer| < HEADER
    requires pos' == if pos + BLOCK <= |file| then pos + BLOCK else |file|
    requires pos <= pos' && eof' == (pos' - pos < BLOCK)
    ensures Ready(file, frags, i, pos', file[pos..pos'], eof')
  {
  }

  /** A full block that holds the next fragment's start holds its whole header. */
  lemma {:induction false} BlockHasHeader(file: Bytes, frags: seq<Fragment>, i: nat, pos: nat, buffer: Bytes)
    requires Ready(file, frags, i, pos, buffer, false)
    ensures |buffer| >= HEADER
  {}

  /** Too few bytes are left for a fragment. */
  lemma {:induction false} NothingLeft(file: Bytes, frags: seq<Fragment>, i: nat, pos: nat, buffer: Bytes, eof: bool)
    requires |buffer| < HEADER && eof
    requires Reading(file, frags, i, pos, buffer, eof) || Ready(file, frags, i, pos, buffer, eof)
    ensures i == |frags| || End(frags, i + 1) > |file|
  {
  }

  /** With a header's worth in the buffer there is no trailer to skip. */
  lemma {:induction false} NoTrailer(file: Bytes, frags: seq<Fragment>, i: nat, pos: nat, buffer: Bytes, eof: bool)
    requires Reading(file, frags, i, pos, buffer, eof) && |buffer| >= HEADER
    ensures Ready(file, frags, i, pos, buffer, eof)
  {
  }

  /** The checksum test; no stored fragment fails it. */
  method ChecksumMatches(stored: Bytes, ghost f: Fragment) returns (ok: bool)
    requires |stored| >= HEADER
    ensures ok == Intact(stored)
    ensures stored == Physical(f) ==> ok
  {
    var actual := Extend(Zero(), stored[6..], 0);
    ok := actual == Unmask(DecodeFixed32(stored[..4]));
    PhysicalIntact(f);
  }

  /** The part of ReadPhysicalRecord that looks at one header in the buffer. `dropped` are the sizes it
      reports as corrupt, `rest` is what stays in the buffer. */
  method ParseRecord(
    buffer: Bytes, eof: bool, checksum: bool,
    ghost file: Bytes, ghost frags: seq<Fragment>, ghost i: nat, ghost i': nat, ghost pos: nat)
    returns (t: nat, fragment: Bytes, rest: Bytes, dropped: seq<nat>)
    requires |buffer| >= HEADER && i' == i + 1
    ensures |rest| < |buffer|
    ensures Torn(file, frags) && Ready(file, frags, i, pos, buffer, eof) ==>
              && dropped == [] && i < |frags|
              && (End(frags, i') > |file| ==> t == EOF)
              && (End(frags, i') <= |file| ==>
                   && t == frags[i].typ && fragment == frags[i].data
                   && Reading(file, frags, i', pos, rest, eof))
  {
    ghost var sound := Torn(file, frags) && Ready(file, frags, i, pos, buffer, eof);
    var size, typ := HEADER + Announced(buffer), buffer[6];
    if sound { TestsPass(file, frags, i, pos, buffer, eof, size); }
    if size > |buffer| {
      return if eof then EOF else BAD, [], [], if eof then [] else [|buffer|];
    }
    if typ == 0 && size == HEADER {
      return BAD, [], [], [];
    }
    if checksum {
      var intact := ChecksumMatches(buffer[..size], if sound then frags[i] else Fragment(0, []));
      if !intact {
        return BAD, [], [], [|buffer|];
      }
    }
    return typ, buffer[HEADER..size], buffer[size..], [];
  }

  /** Part of the record `expected` is in `scratch`, fragments `j` to `k` hold the rest. */
  ghost predicate Partway(
    frags: seq<Fragment>, j: nat, k: nat, rest: Bytes, scratch: Bytes, inFragmented: bool, expected: Bytes)
  {
    && Holds(frags, j, k, rest, !inFragmented) && scratch + rest == expected
    && (!inFragmented ==> scratch == [])
  }

  lemma {:induction false} EndsIncrease(frags: seq<Fragment>, j: nat, k: nat)
    requires j <= k <= |frags|
    ensures End(frags, j) <= End(frags, k)
    decreases k
  {
    if j < k { EndsIncrease(frags, j, k - 1); }
  }

  /** The case split of ReadRecord on one physical record. `dropped` are the sizes it reports as corrupt. */
  method Assemble(
    t: nat, fragment: Bytes, scratch: Bytes, inFragmented: bool,
    ghost frags: seq<Fragment>, ghost j: nat, ghost j': nat, ghost k: nat, ghost rest: Bytes, ghost expected: Bytes)
    returns (done: bool, ok: bool, scratch': Bytes, inFragmented': bool, dropped: seq<nat>, ghost rest': Bytes)
    requires j' == j + 1
    ensures done && !ok <==> t == EOF
    ensures t == EOF ==> dropped == []
    ensures && Partway(frags, j, k, rest, scratch, inFragmented, expected)
            && t == frags[j].typ && fragment == frags[j].data ==>
              && dropped == [] && (done <==> j' == k)
              && (done ==> ok && scratch' == expected)
              && (!done ==> Partway(frags, j', k, rest', scratch', inFragmented', expected))
  {
    ghost var sound := && Partway(frags, j, k, rest, scratch, inFragmented, expected)
                       && t == frags[j].typ && fragment == frags[j].data;
    rest' := rest;
    if sound && k != j' {
      rest' := rest[|fragment|..];
      Joined(scratch, fragment, rest');
    }
    done, ok, scratch', inFragmented', dropped := false, false, scratch, inFragmented, [];
    if t == FULL {
      if inFragmented && |scratch| > 0 { dropped := [|scratch|]; }
      done, ok, scratch' := true, true, fragment;
    } else if t == FIRST {
      if inFragmented && |scratch| > 0 { dropped := [|scratch|]; }
      scratch', inFragmented' := fragment, true;
    } else if t == MIDDLE {
      if !inFragmented { dropped := [|fragment|]; } else { scratch' := scratch + fragment; }
    } else if t == LAST {
      if !inFragmented { dropped := [|fragment|]; } else { done, ok, scratch' := true, true, scratch + fragment; }
    } else if t == EOF {
      done, scratch' := true, [];
    } else if t == BAD {
      if inFragmented { dropped, scratch', inFragmented' := [|scratch|], [], false; }
    } else {
      dropped := [|fragment| + if inFragmented then |scratch| else 0];
      scratch', inFragmented' := [], false;
    }
  }

  class Reader {
    const file: Bytes
    const checksum: bool
    var pos: nat
    var buffer: Bytes
    var eof: bool
    var reports: seq<nat>

    ghost predicate Valid()
      reads this`pos
    {
      pos <= |file|
    }

    ghost function Remaining(): int
      reads this`pos, this`buffer
    {
      |file| - pos + |buffer|
    }

    /** Fragment `i` is next. */
    ghost predicate Next(frags: seq<Fragment>, i: nat)
      reads this`pos, this`buffer, this`eof
    {
      Reading(file, frags, i, pos, buffer, eof)
    }

    constructor (file: Bytes, checksum: bool)
      ensures Valid() && this.file == file && this.checksum == checksum && reports == []
      ensures forall frags :: Next(frags, 0)
    {
      this.file, this.checksum, pos, buffer, eof, reports := file, checksum, 0, [], false, [];
    }

    /** The loop of ReadPhysicalRecord that skips trailers and reads blocks, until a header is in the buffer or
        the file is at its end. */
    method Fill(ghost frags: seq<Fragment>, ghost i: nat, ghost i': nat)
      requires Valid() && i' == i + 1
      modifies this`pos, this`buffer, this`eof
      ensures Valid() && Remaining() <= old(Remaining()) && (|buffer| < HEADER ==> eof)
      ensures Torn(file, frags) && old(Next(frags, i)) ==>
                if |buffer| >= HEADER then Ready(file, frags, i, pos, buffer, eof)
                else i' > |frags| || End(frags, i') > |file|
    {
      ghost var sound, first := Torn(file, frags) && Next(frags, i), true;
      while |buffer| < HEADER && !eof
        invariant Valid() && Remaining() <= old(Remaining())
        invariant sound && first ==> Reading(file, frags, i, pos, buffer, eof)
        invariant sound && !first ==> Ready(file, frags, i, pos, buffer, eof)
        decreases !eof, |file| - pos
      {
        var pos' := if pos + BLOCK <= |file| then pos + BLOCK else |file|;
        if sound && first { NextBlock(file, frags, i, pos, buffer, pos', pos' - pos < BLOCK); }
        if sound && !first { BlockHasHeader(file, frags, i, pos, buffer); }
        first := false;
        buffer := file[pos..pos'];
        pos := pos';
        if |buffer| < BLOCK { eof := true; }
      }
      if sound && first && |buffer| >= HEADER { NoTrailer(file, frags, i, pos, buffer, eof); }
      if sound && |buffer| < HEADER { NothingLeft(file, frags, i, pos, buffer, eof); }
    }

    /** ReadPhysicalRecord, told for a torn log of which fragment `i` is next. */
    method ReadPhysicalRecord(ghost frags: seq<Fragment>, ghost i: nat, ghost i': nat) returns (t: nat, fragment: Bytes)
      requires Valid() && i' == i + 1
      modifies this`pos, this`buffer, this`eof, this`reports
      ensures Valid() && Remaining() <= old(Remaining()) && (t != EOF ==> Remaining() < old(Remaining()))
      ensures Torn(file, frags) && old(Next(frags, i)) ==>
                && reports == old(reports)
                && if i' <= |frags| && End(frags, i') <= |file|
                   then t == frags[i].typ && fragment == frags[i].data && Next(frags, i')
                   else t == EOF
    {
      Fill(frags, i, i');
      if |buffer| < HEADER {
        buffer := [];
        return EOF, [];
      }
      var rest, dropped;
      t, fragment, rest, dropped := ParseRecord(buffer, eof, checksum, file, frags, i, i', pos);
      buffer, reports := rest, reports + dropped;
    }

    /** One round of ReadRecord's loop. */
    method ReadFragment(
      scratch: Bytes, inFragmented: bool,
      ghost frags: seq<Fragment>, ghost j: nat, ghost k: nat, ghost rest: Bytes, ghost expected: Bytes)
      returns (done: bool, ok: bool, scratch': Bytes, inFragmented': bool, ghost j': nat, ghost rest': Bytes)
      requires Valid()
      modifies this`pos, this`buffer, this`eof, this`reports
      ensures Valid() && Remaining() <= old(Remaining()) && (!done || ok ==> Remaining() < old(Remaining()))
      ensures Torn(file, frags) && old(Next(frags, j)) && Partway(frags, j, k, rest, scratch, inFragmented, expected) ==>
                && reports == old(reports)
                && (done && !ok ==> End(frags, k) > |file|)
                && (done && ok ==> scratch' == expected && Next(frags, k))
                && (!done ==> Next(frags, j') && Partway(frags, j', k, rest', scratch', inFragmented', expected))
      ensures Torn(file, frags) && old(Next(frags, j)) && j == |frags| ==> done && !ok && reports == old(reports)
    {
      j' := j + 1;
      if Partway(frags, j, k, rest, scratch, inFragmented, expected) {
        EndsIncrease(frags, j', k);
      }
      var t, fragment := ReadPhysicalRecord(frags, j, j');
      var dropped;
      done, ok, scratch', inFragmented', dropped, rest' :=
        Assemble(t, fragment, scratch, inFragmented, frags, j, j', k, rest, expected);
      reports := reports + dropped;
    }

    /** ReadRecord, told for a torn log in which fragments `i` to `k` hold the record `expected`, and for one
        that has no fragment left. */
    method ReadRecord(ghost frags: seq<Fragment>, ghost i: nat, ghost k: nat, ghost expected: Bytes)
      returns (ok: bool, record: Bytes)
      requires Valid()
      modifies this`pos, this`buffer, this`eof, this`reports
      ensures Valid() && (ok ==> Remaining() < old(Remaining()))
      ensures Torn(file, frags) && old(Next(frags, i)) && Holds(frags, i, k, expected, true) ==>
                && reports == old(reports)
                && (End(frags, k) <= |file| ==> ok && record == expected && Next(frags, k))
                && (End(frags, k) > |file| ==> !ok)
      ensures Torn(file, frags) && old(Next(frags, i)) && i == |frags| ==> reports == old(reports) && !ok
    {
      var scratch: Bytes, inFragmented, done := [], false, false;
      ghost var j: nat, rest := i, expected;
      ghost var sound := Torn(file, frags) && Next(frags, i) && (i == |frags| || Holds(frags, i, k, expected, true));
      ghost var ended := i == |frags|;
      ok := false;
      while !done
        invariant Valid() && Remaining() <= old(Remaining()) && (ok ==> Remaining() < old(Remaining()))
        invariant sound ==> reports == old(reports)
        invariant sound && !done ==> Next(frags, j)
        invariant sound && !done && !ended ==> Partway(frags, j, k, rest, scratch, inFragmented, expected)
        invariant sound && ended ==> !ok && (!done ==> j == i)
        invariant sound && done && ok ==> scratch == expected && Next(frags, k)
        invariant sound && done && !ok && !ended ==> End(frags, k) > |file|
        decreases !done, Remaining()
      {
        done, ok, scratch, inFragmented, j, rest := ReadFragment(scratch, inFragmented, frags, j, k, rest, expected);
      }
      record := scratch;
    }
  }


  // ----- whole logs

  /** The records read so far, and what the rest of a torn log still holds. */
  ghost predicate ReadSoFar(file: Bytes, records: seq<Bytes>, out: seq<Bytes>) {
    |out| <= |records| && out == records[..|out|] && |LogImage(records, |out|)| <= |file|
  }

  /** The loop of the recovery code: every record that the reader returns, and what it reports. For a torn log
      these are exactly the records whose last fragment is whole, and nothing is reported. */
  method ReadLog(file: Bytes, checksum: bool, ghost records: seq<Bytes>) returns (out: seq<Bytes>, reports: seq<nat>)
    ensures IsPrefix(file, LogImage(records, |records|)) ==>
              && reports == [] && ReadSoFar(file, records, out)
              && (|out| < |records| ==> |file| < |LogImage(records, |out| + 1)|)
  {
    ghost var n, frags := |records|, LogFragments(records, |records|);
    ghost var torn := IsPrefix(file, LogImage(records, n));
    if torn {
      LogPlaced(records, n);
      PrefixIsTorn(file, frags);
    }
    var reader := new Reader(file, checksum);
    out := [];
    var more := true;
    ghost var i := 0;
    while more
      invariant reader.Valid() && reader.file == file
      invariant torn ==> reader.reports == [] && ReadSoFar(file, records, out)
      invariant torn && more ==> i == |LogFragments(records, |out|)| && reader.Next(frags, i)
      invariant torn && !more && |out| < n ==> |file| < |LogImage(records, |out| + 1)|
      decreases more, reader.Remaining()
    {
      ghost var k: nat, expected: Bytes := i, [];
      if torn {
        k, expected := NextRecord(file, records, out, frags, i);
      }
      var record;
      more, record := reader.ReadRecord(frags, i, k, expected);
      if more {
        out := out + [record];
        i := k;
      }
    }
    reports := reader.reports;
  }

  lemma {:induction false} NextRecord(file: Bytes, records: seq<Bytes>, out: seq<Bytes>, frags: seq<Fragment>, i: nat)
    returns (k: nat, expected: Bytes)
    requires ReadSoFar(file, records, out)
    requires frags == LogFragments(records, |records|) && i == |LogFragments(records, |out|)|
    ensures |out| == |records| ==> i == |frags|
    ensures |out| < |records| ==>
              && Holds(frags, i, k, expected, true) && expected == records[|out|]
              && k == |LogFragments(records, |out| + 1)| && End(frags, k) == |LogImage(records, |out| + 1)|
    ensures |out| < |records| ==> out + [expected] == records[..|out| + 1]
  {
    k, expected := i, [];
    if |out| < |records| {
      k, expected := |LogFragments(records, |out| + 1)|, records[|out|];
      RecordInLog(records, |out|, |records|);
      RecordAt(records, |out| + 1, |records|);
      Grows(records, |out|);
    }
  }
}
