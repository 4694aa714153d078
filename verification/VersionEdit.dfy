/** The stored form of version edits (db/version_edit.cc): tagged fields, one after the other. Internal keys are
    their bytes here. */
module VersionEdit {
  import opened Keys
  import opened Coding


  datatype FileInfo = FileInfo(number: nat, size: nat, smallest: Bytes, largest: Bytes)

  datatype Edit = Edit(
    comparator: Option<Bytes>, logNumber: Option<nat>, prevLogNumber: Option<nat>, nextFile: Option<nat>,
    lastSequence: Option<nat>, pointers: seq<(nat, Bytes)>, deleted: set<(nat, nat)>, added: seq<(nat, FileInfo)>)

  const FRESH: Edit := Edit(None, None, None, None, None, [], {}, [])

  datatype Field =
    | Comparator(name: Bytes)
    | LogNumber(number: nat)
    | NextFile(number: nat)
    | LastSequence(number: nat)
    | CompactPointer(level: nat, key: Bytes)
    | DeletedFile(level: nat, number: nat)
    | NewFile(level: nat, f: FileInfo)
    | PrevLogNumber(number: nat)

  /** What a field does to an edit. */
  function Apply(e: Edit, f: Field): Edit {
    match f
    case Comparator(name) => e.(comparator := Some(name))
    case LogNumber(n) => e.(logNumber := Some(n))
    case PrevLogNumber(n) => e.(prevLogNumber := Some(n))
    case NextFile(n) => e.(nextFile := Some(n))
    case LastSequence(n) => e.(lastSequence := Some(n))
    case CompactPointer(level, key) => e.(pointers := e.pointers + [(level, key)])
    case DeletedFile(level, n) => e.(deleted := e.deleted + {(level, n)})
    case NewFile(level, f) => e.(added := e.added + [(level, f)])
  }

  function Applied(e: Edit, fields: seq<Field>, k: nat): Edit
    requires k <= |fields|
  {
    if k == 0 then e else Apply(Applied(e, fields, k - 1), fields[k - 1])
  }

  // ----- format

  datatype Item = Short(v: nat) | Long(v: nat) | Blob(x: Bytes)

  predicate SmallItem(i: Item) {
    match i
    case Short(v) => v < LIMIT32
    case Long(v) => v < LIMIT64
    case Blob(x) => |x| < LIMIT32
  }

  function ItemBytes(i: Item): Bytes {
    match i
    case Short(v) => Varint(v)
    case Long(v) => Varint(v)
    case Blob(x) => LengthPrefixed(x)
  }

  function Items(f: Field): seq<Item> {
    match f
    case Comparator(name) => [Short(1), Blob(name)]
    case LogNumber(n) => [Short(2), Long(n)]
    case NextFile(n) => [Short(3), Long(n)]
    case LastSequence(n) => [Short(4), Long(n)]
    case CompactPointer(level, key) => [Short(5), Short(level), Blob(key)]
    case DeletedFile(level, n) => [Short(6), Short(level), Long(n)]
    case NewFile(level, f) => [Short(7), Short(level), Long(f.number), Long(f.size), Blob(f.smallest), Blob(f.largest)]
    case PrevLogNumber(n) => [Short(9), Long(n)]
  }

  predicate Level(f: Field) {
    (f.CompactPointer? || f.DeletedFile? || f.NewFile?) ==> f.level < NUM_LEVELS
  }

  /** The field can be stored: its level exists and its numbers and strings have their size. */
  ghost predicate Storable(f: Field) {
    Level(f) && forall i :: 0 <= i < |Items(f)| ==> SmallItem(Items(f)[i])
  }

  function Encode(items: seq<Item>): Bytes {
    if items == [] then [] else ItemBytes(items[0]) + Encode(items[1..])
  }

  function Encodings(fields: seq<Field>): (r: seq<Bytes>)
    ensures |r| == |fields|
  {
    seq(|fields|, i requires 0 <= i < |fields| => Encode(Items(fields[i])))
  }

  /** These bytes hold these fields. */
  ghost predicate Holds(bytes: Bytes, fields: seq<Field>) {
    && bytes == Concat(Encodings(fields), |fields|)
    && forall i {:trigger fields[i]} :: 0 <= i < |fields| ==> Storable(fields[i])
  }

  // ----- reading

  /** The items from `k` on stand between `p` and `end`. */
  ghost predicate Ahead(s: Bytes, p: nat, items: seq<Item>, k: nat, end: nat) {
    k <= |items| && IsAt(s, p, Encode(items[k..])) && p + |Encode(items[k..])| == end
  }

  lemma {:induction false} NextItem(s: Bytes, p: nat, items: seq<Item>, k: nat, end: nat)
    requires Ahead(s, p, items, k, end) && k < |items|
    ensures IsAt(s, p, ItemBytes(items[k])) && Ahead(s, p + |ItemBytes(items[k])|, items, k + 1, end)
  {
    EncodeSplits(items, k);
    IsAtJoin(s, p, ItemBytes(items[k]), Encode(items[k + 1..]));
  }

  lemma {:induction false} EncodeSplits(items: seq<Item>, k: nat)
    requires k < |items|
    ensures Encode(items[k..]) == ItemBytes(items[k]) + Encode(items[k + 1..])
  {
    assert items[k..][0] == items[k] && items[k..][1..] == items[k + 1..];
  }

  /** GetVarint32 on the next item. */
  method GetShort(s: Bytes, p: nat, ghost items: seq<Item>, ghost k: nat, ghost end: nat) returns (r: Option<(nat, nat)>)
    requires p <= |s|
    ensures r.Some? ==> p < r.value.1 <= |s|
    ensures Ahead(s, p, items, k, end) && k < |items| && items[k].Short? && SmallItem(items[k]) ==>
              r.Some? && r.value.0 == items[k].v && Ahead(s, r.value.1, items, k + 1, end)
  {
    if Ahead(s, p, items, k, end) && k < |items| && items[k].Short? && SmallItem(items[k]) {
      NextItem(s, p, items, k, end);
      Varint32RoundTrip(s, p, items[k].v);
    }
    r := GetVarint32(s, p);
  }

  /** GetVarint64 on the next item. */
  method GetLong(s: Bytes, p: nat, ghost items: seq<Item>, ghost k: nat, ghost end: nat) returns (r: Option<(nat, nat)>)
    requires p <= |s|
    ensures r.Some? ==> p < r.value.1 <= |s|
    ensures Ahead(s, p, items, k, end) && k < |items| && items[k].Long? && SmallItem(items[k]) ==>
              r.Some? && r.value.0 == items[k].v && Ahead(s, r.value.1, items, k + 1, end)
  {
    if Ahead(s, p, items, k, end) && k < |items| && items[k].Long? && SmallItem(items[k]) {
      NextItem(s, p, items, k, end);
      Varint64RoundTrip(s, p, items[k].v);
    }
    r := GetVarint64(s, p);
  }

  lemma {:induction false} NextBlob(s: Bytes, p: nat, items: seq<Item>, k: nat, end: nat) returns (x: Bytes)
    ensures Ahead(s, p, items, k, end) && k < |items| && items[k].Blob? && SmallItem(items[k]) ==>
              && x == items[k].x && |x| < LIMIT32 && IsAt(s, p, LengthPrefixed(x))
              && Ahead(s, p + |LengthPrefixed(x)|, items, k + 1, end)
  {
    x := if k < |items| && items[k].Blob? then items[k].x else [];
    if Ahead(s, p, items, k, end) && k < |items| { NextItem(s, p, items, k, end); }
  }

  /** GetLengthPrefixedSlice on the next item. */
  method GetBlob(s: Bytes, p: nat, ghost items: seq<Item>, ghost k: nat, ghost end: nat) returns (r: Option<(Bytes, nat)>)
    requires p <= |s|
    ensures r.Some? ==> p < r.value.1 <= |s|
    ensures Ahead(s, p, items, k, end) && k < |items| && items[k].Blob? && SmallItem(items[k]) ==>
              r.Some? && r.value.0 == items[k].x && Ahead(s, r.value.1, items, k + 1, end)
  {
    ghost var x := NextBlob(s, p, items, k, end);
    r := GetLengthPrefixedSlice(s, p, x);
  }

  /** GetLevel on the next item. */
  method GetLevel(s: Bytes, p: nat, ghost items: seq<Item>, ghost k: nat, ghost end: nat) returns (r: Option<(nat, nat)>)
    requires p <= |s|
    ensures r.Some? ==> p < r.value.1 <= |s| && r.value.0 < NUM_LEVELS
    ensures Ahead(s, p, items, k, end) && k < |items| && items[k].Short? && items[k].v < NUM_LEVELS ==>
              r.Some? && r.value.0 == items[k].v && Ahead(s, r.value.1, items, k + 1, end)
  {
    r := GetShort(s, p, items, k, end);
    if r.Some? && r.value.0 >= NUM_LEVELS { r := None; }
  }

  /** A field stands at `p`. */
  ghost predicate FieldAt(s: Bytes, p: nat, f: Field) {
    Storable(f) && IsAt(s, p, Encode(Items(f)))
  }

  lemma FieldAhead(s: Bytes, p: nat, f: Field)
    requires FieldAt(s, p, f)
    ensures Ahead(s, p, Items(f), 0, p + |Encode(Items(f))|)
  {
    assert Items(f)[0..] == Items(f);
  }

  /** The cases of DecodeFrom's switch with one number or one string. */
  method GetSimple(s: Bytes, p: nat, tag: nat, ghost f: Field, ghost end: nat) returns (r: Option<(Field, nat)>)
    requires p <= |s|
    ensures r.Some? ==> p < r.value.1 <= |s|
    ensures && Ahead(s, p, Items(f), 1, end) && Storable(f) && Items(f)[0] == Short(tag)
            && !f.CompactPointer? && !f.DeletedFile? && !f.NewFile? ==>
              r.Some? && r.value.0 == f && r.value.1 == end
  {
    if tag == 1 {
      var x := GetBlob(s, p, Items(f), 1, end);
      return if x.Some? then Some((Comparator(x.value.0), x.value.1)) else None;
    }
    if !(tag in {2, 3, 4, 9}) { return None; }
    var n := GetLong(s, p, Items(f), 1, end);
    if n.None? { return None; }
    var (v, q) := n.value;
    return Some((if tag == 2 then LogNumber(v) else if tag == 3 then NextFile(v)
                 else if tag == 4 then LastSequence(v) else PrevLogNumber(v), q));
  }

  /** The cases with a level. */
  method GetLevelled(s: Bytes, p: nat, tag: nat, ghost f: Field, ghost end: nat) returns (r: Option<(Field, nat)>)
    requires p <= |s|
    ensures r.Some? ==> p < r.value.1 <= |s|
    ensures && Ahead(s, p, Items(f), 1, end) && Storable(f) && Items(f)[0] == Short(tag)
            && (f.CompactPointer? || f.DeletedFile?) ==>
              r.Some? && r.value.0 == f && r.value.1 == end
  {
    var level := GetLevel(s, p, Items(f), 1, end);
    if level.None? { return None; }
    if tag == 5 {
      var x := GetBlob(s, level.value.1, Items(f), 2, end);
      return if x.Some? then Some((CompactPointer(level.value.0, x.value.0), x.value.1)) else None;
    }
    var n := GetLong(s, level.value.1, Items(f), 2, end);
    return if n.Some? then Some((DeletedFile(level.value.0, n.value.0), n.value.1)) else None;
  }

  /** The case of a new file. */
  method GetNewFile(s: Bytes, p: nat, ghost f: Field, ghost end: nat) returns (r: Option<(Field, nat)>)
    requires p <= |s|
    ensures r.Some? ==> p < r.value.1 <= |s|
    ensures Ahead(s, p, Items(f), 1, end) && Storable(f) && f.NewFile? ==>
              r.Some? && r.value.0 == f && r.value.1 == end
  {
    var level := GetLevel(s, p, Items(f), 1, end);
    if level.None? { return None; }
    var number := GetLong(s, level.value.1, Items(f), 2, end);
    if number.None? { return None; }
    var size := GetLong(s, number.value.1, Items(f), 3, end);
    if size.None? { return None; }
    var smallest := GetBlob(s, size.value.1, Items(f), 4, end);
    if smallest.None? { return None; }
    var largest := GetBlob(s, smallest.value.1, Items(f), 5, end);
    if largest.None? { return None; }
    return Some((NewFile(level.value.0, FileInfo(number.value.0, size.value.0, smallest.value.0, largest.value.0)),
                 largest.value.1));
  }

  /** One turn of DecodeFrom's loop: the field at `p` and where it ends. */
  method GetField(s: Bytes, p: nat, ghost f: Field) returns (r: Option<(Field, nat)>)
    requires p < |s|
    ensures r.Some? ==> p < r.value.1 <= |s|
    ensures FieldAt(s, p, f) ==> r.Some? && r.value.0 == f && r.value.1 == p + |Encode(Items(f))|
  {
    ghost var end := p + |Encode(Items(f))|;
    if FieldAt(s, p, f) { FieldAhead(s, p, f); }
    var tag := GetShort(s, p, Items(f), 0, end);
    if tag.None? { return None; }
    if tag.value.0 == 7 {
      r := GetNewFile(s, tag.value.1, f, end);
    } else if tag.value.0 in {5, 6} {
      r := GetLevelled(s, tag.value.1, tag.value.0, f, end);
    } else {
      r := GetSimple(s, tag.value.1, tag.value.0, f, end);
    }
  }

  /** The first fields have been read, and the input up to `p`. */
  ghost predicate ReadTo(fields: seq<Field>, k: nat, p: nat) {
    k <= |fields| && p == |Concat(Encodings(fields), k)|
  }

  lemma {:induction false} NextField(fields: seq<Field>, k: nat, p: nat, input: Bytes) returns (f: Field)
    requires Holds(input, fields) && ReadTo(fields, k, p) && p < |input|
    ensures k < |fields| && f == fields[k] && FieldAt(input, p, f)
    ensures ReadTo(fields, k + 1, p + |Encode(Items(f))|)
  {
    f := fields[k];
    PartAt(Encodings(fields), k, |fields|);
  }

  /** DecodeFrom. Clear does not empty the compaction pointers, so those of the edit before stay in front. */
  method DecodeFrom(before: Edit, src: Bytes, ghost fields: seq<Field>) returns (e: Edit, ok: bool)
    ensures Holds(src, fields) ==> ok && e == Applied(FRESH.(pointers := before.pointers), fields, |fields|)
  {
    e := FRESH.(pointers := before.pointers);
    ghost var sound, start := Holds(src, fields), e;
    ghost var k := 0;
    var p := 0;
    while p < |src|
      invariant p <= |src|
      invariant sound ==> ReadTo(fields, k, p) && e == Applied(start, fields, k)
      decreases |src| - p
    {
      ghost var f := LogNumber(0);
      if sound { f := NextField(fields, k, p, src); }
      var next := GetField(src, p, f);
      if next.None? { return e, false; }
      e, p, k := Apply(e, next.value.0), next.value.1, k + 1;
    }
    if sound { AllRead(fields, k); }
    ok := true;
  }

  lemma {:induction false} AllRead(fields: seq<Field>, k: nat)
    requires k <= |fields| && |Concat(Encodings(fields), k)| == |Concat(Encodings(fields), |fields|)|
    ensures k == |fields|
  {
    if k < |fields| {
      ConcatPrefix(Encodings(fields), k + 1, |fields|);
      PartAt(Encodings(fields), k, |fields|);
      TagTakesSpace(fields[k]);
    }
  }

  lemma TagTakesSpace(f: Field)
    ensures |Encode(Items(f))| > 0
  {}

  // ----- writing

  /** The edit has no level and no size that cannot be stored. */
  ghost predicate EditOk(e: Edit) {
    && (e.comparator.Some? ==> |e.comparator.value| < LIMIT32)
    && Fits(e.logNumber) && Fits(e.prevLogNumber) && Fits(e.nextFile) && Fits(e.lastSequence)
    && (forall i :: 0 <= i < |e.pointers| ==> e.pointers[i].0 < NUM_LEVELS && |e.pointers[i].1| < LIMIT32)
    && (forall x :: x in e.deleted ==> x.0 < NUM_LEVELS && x.1 < LIMIT64)
    && (forall i :: 0 <= i < |e.added| ==> e.added[i].0 < NUM_LEVELS && FileOk(e.added[i].1))
  }

  predicate Fits(n: Option<nat>) { n.Some? ==> n.value < LIMIT64 }

  predicate FileOk(f: FileInfo) {
    f.number < LIMIT64 && f.size < LIMIT64 && |f.smallest| < LIMIT32 && |f.largest| < LIMIT32
  }

  /** The bytes written so far hold these fields, which make this edit. */
  ghost predicate Written(bytes: Bytes, fields: seq<Field>, e: Edit) {
    Holds(bytes, fields) && e == Applied(FRESH, fields, |fields|)
  }

  lemma {:induction false} WriteField(bytes: Bytes, fields: seq<Field>, e: Edit, f: Field)
    requires Written(bytes, fields, e) && Storable(f)
    ensures Written(bytes + Encode(Items(f)), fields + [f], Apply(e, f))
  {
    var all := fields + [f];
    assert Encodings(all) == Encodings(fields) + [Encode(Items(f))];
    ConcatSnoc(Encodings(fields), Encode(Items(f)));
    AppliedPrefix(FRESH, fields, [f], |fields|);
  }

  lemma {:induction false} AppliedPrefix(e: Edit, a: seq<Field>, b: seq<Field>, k: nat)
    requires k <= |a|
    ensures Applied(e, a + b, k) == Applied(e, a, k)
  {
    if k > 0 { AppliedPrefix(e, a, b, k - 1); }
  }

  /** The bytes of an item, as PutVarint32, PutVarint64 and PutLengthPrefixedSlice append them. */
  method PutItem(bytes: Bytes, i: Item) returns (r: Bytes)
    requires SmallItem(i)
    ensures r == bytes + ItemBytes(i)
  {
    match i
    case Short(v) =>
      var x := EncodeVarint32(v);
      r := bytes + x;
    case Long(v) =>
      var x := EncodeVarint64(v);
      r := bytes + x;
    case Blob(b) =>
      var x := EncodeVarint32(|b|);
      r := bytes + x + b;
  }

  /** One tagged field. */
  method PutField(bytes: Bytes, f: Field, ghost fields: seq<Field>, ghost e: Edit) returns (r: Bytes)
    requires Written(bytes, fields, e)
    requires Storable(f)
    ensures Written(r, fields + [f], Apply(e, f))
  {
    var items := Items(f);
    r := bytes;
    for k := 0 to |items|
      invariant r + Encode(items[k..]) == bytes + Encode(items)
    {
      EncodeSplits(items, k);
      Joined(r, ItemBytes(items[k]), Encode(items[k + 1..]));
      r := PutItem(r, items[k]);
    }
    WriteField(bytes, fields, e, f);
  }

  lemma Joined(a: Bytes, b: Bytes, c: Bytes)
    ensures a + (b + c) == a + b + c
  {}

  /** EncodeTo: the fields that are set, then the lists. */
  method EncodeTo(e: Edit) returns (r: Bytes, ghost fields: seq<Field>)
    requires EditOk(e)
    ensures Holds(r, fields) && Applied(FRESH, fields, |fields|) == e
  {
    r, fields := EncodeNumbers(e);
    r, fields := EncodePointers(e, r, fields);
    r, fields := EncodeDeleted(e, r, fields);
    r, fields := EncodeAdded(e, r, fields);
  }

  method EncodePointers(e: Edit, bytes: Bytes, ghost before: seq<Field>) returns (r: Bytes, ghost fields: seq<Field>)
    requires EditOk(e)
    requires Written(bytes, before, e.(pointers := [], deleted := {}, added := []))
    ensures Written(r, fields, e.(deleted := {}, added := []))
  {
    r, fields := bytes, before;
    ghost var e' := e.(pointers := [], deleted := {}, added := []);
    for i := 0 to |e.pointers|
      invariant Written(r, fields, e')
      invariant e' == e.(pointers := e.pointers[..i], deleted := {}, added := [])
    {
      var f := CompactPointer(e.pointers[i].0, e.pointers[i].1);
      PointerStorable(e, i, f);
      r, fields, e' := Put(r, f, fields, e');
    }
    assert e.pointers[..|e.pointers|] == e.pointers;
  }

  method EncodeDeleted(e: Edit, bytes: Bytes, ghost before: seq<Field>) returns (r: Bytes, ghost fields: seq<Field>)
    requires EditOk(e)
    requires Written(bytes, before, e.(deleted := {}, added := []))
    ensures Written(r, fields, e.(added := []))
  {
    r, fields := bytes, before;
    var rest := e.deleted;
    ghost var e' := e.(deleted := {}, added := []);
    while rest != {}
      invariant rest <= e.deleted
      invariant Written(r, fields, e')
      invariant e' == e.(deleted := e.deleted - rest, added := [])
      decreases |rest|
    {
      var x :| x in rest;
      var f := DeletedFile(x.0, x.1);
      assert Storable(f);
      r, fields, e' := Put(r, f, fields, e');
      rest := rest - {x};
    }
    assert e.deleted - rest == e.deleted;
  }

  method EncodeAdded(e: Edit, bytes: Bytes, ghost before: seq<Field>) returns (r: Bytes, ghost fields: seq<Field>)
    requires EditOk(e)
    requires Written(bytes, before, e.(added := []))
    ensures Written(r, fields, e)
  {
    r, fields := bytes, before;
    ghost var e' := e.(added := []);
    for i := 0 to |e.added|
      invariant Written(r, fields, e')
      invariant e' == e.(added := e.added[..i])
    {
      var f := NewFile(e.added[i].0, e.added[i].1);
      FileStorable(e, i, f);
      r, fields, e' := Put(r, f, fields, e');
    }
    assert e.added[..|e.added|] == e.added;
  }

  /** The part of EncodeTo before the lists. */
  method EncodeNumbers(e: Edit) returns (r: Bytes, ghost fields: seq<Field>)
    requires EditOk(e)
    ensures Written(r, fields, e.(pointers := [], deleted := {}, added := []))
  {
    ghost var e1, e2, e3, e4, e5;
    var name := if e.comparator.Some? then e.comparator.value else [];
    r, fields, e1 := PutIf([], e.comparator.Some?, Comparator(name), [], FRESH);
    r, fields, e2 := PutNumber(r, e.logNumber, LogNumber(Number(e.logNumber)), fields, e1);
    r, fields, e3 := PutNumber(r, e.prevLogNumber, PrevLogNumber(Number(e.prevLogNumber)), fields, e2);
    r, fields, e4 := PutNumber(r, e.nextFile, NextFile(Number(e.nextFile)), fields, e3);
    r, fields, e5 := PutNumber(r, e.lastSequence, LastSequence(Number(e.lastSequence)), fields, e4);
    NumbersMake(e, e1, e2, e3, e4, e5);
  }

  lemma NumbersMake(e: Edit, e1: Edit, e2: Edit, e3: Edit, e4: Edit, e5: Edit)
    requires e1 == if e.comparator.Some? then Apply(FRESH, Comparator(e.comparator.value)) else FRESH
    requires e2 == if e.logNumber.Some? then Apply(e1, LogNumber(e.logNumber.value)) else e1
    requires e3 == if e.prevLogNumber.Some? then Apply(e2, PrevLogNumber(e.prevLogNumber.value)) else e2
    requires e4 == if e.nextFile.Some? then Apply(e3, NextFile(e.nextFile.value)) else e3
    requires e5 == if e.lastSequence.Some? then Apply(e4, LastSequence(e.lastSequence.value)) else e4
    ensures e5 == e.(pointers := [], deleted := {}, added := [])
  {}

  lemma PointerStorable(e: Edit, i: nat, f: Field)
    requires EditOk(e) && i < |e.pointers| && f == CompactPointer(e.pointers[i].0, e.pointers[i].1)
    ensures Storable(f)
    ensures Apply(e.(pointers := e.pointers[..i], deleted := {}, added := []), f)
         == e.(pointers := e.pointers[..i + 1], deleted := {}, added := [])
  {}

  lemma FileStorable(e: Edit, i: nat, f: Field)
    requires EditOk(e) && i < |e.added| && f == NewFile(e.added[i].0, e.added[i].1)
    ensures Storable(f) && Apply(e.(added := e.added[..i]), f) == e.(added := e.added[..i + 1])
  {}

  /** A field that is a number, if it is set. */
  method PutNumber(bytes: Bytes, n: Option<nat>, f: Field, ghost fields: seq<Field>, ghost e: Edit)
    returns (r: Bytes, ghost fields': seq<Field>, ghost e': Edit)
    requires Written(bytes, fields, e)
    requires Fits(n)
    requires f in {LogNumber(Number(n)), PrevLogNumber(Number(n)), NextFile(Number(n)), LastSequence(Number(n))}
    ensures Written(r, fields', e')
    ensures e' == if n.Some? then Apply(e, f) else e
  {
    r, fields', e' := PutIf(bytes, n.Some?, f, fields, e);
  }

  function Number(n: Option<nat>): nat { if n.Some? then n.value else 0 }

  method PutIf(bytes: Bytes, has: bool, f: Field, ghost fields: seq<Field>, ghost e: Edit)
    returns (r: Bytes, ghost fields': seq<Field>, ghost e': Edit)
    requires Written(bytes, fields, e)
    requires Storable(f)
    ensures Written(r, fields', e')
    ensures e' == if has then Apply(e, f) else e
  {
    if has {
      r, fields', e' := Put(bytes, f, fields, e);
    } else {
      r, fields', e' := bytes, fields, e;
    }
  }

  method Put(bytes: Bytes, f: Field, ghost fields: seq<Field>, ghost e: Edit)
    returns (r: Bytes, ghost fields': seq<Field>, ghost e': Edit)
    requires Written(bytes, fields, e)
    requires Storable(f)
    ensures Written(r, fields', e')
    ensures e' == Apply(e, f)
  {
    r := PutField(bytes, f, fields, e);
    fields', e' := fields + [f], Apply(e, f);
  }

  /** DecodeFrom into a fresh edit inverts EncodeTo; into a used one it keeps the old compaction pointers in front. */
  method RoundTrip(e: Edit, before: Edit) returns (back: Edit, ok: bool)
    requires EditOk(e)
    ensures ok && back == e.(pointers := before.pointers + e.pointers)
  {
    var bytes;
    ghost var fields;
    bytes, fields := EncodeTo(e);
    back, ok := DecodeFrom(before, bytes, fields);
    PointersInFront(before.pointers, fields, |fields|);
  }

  lemma {:induction false} PointersInFront(front: seq<(nat, Bytes)>, fields: seq<Field>, k: nat)
    requires k <= |fields|
    ensures var e := Applied(FRESH, fields, k);
            Applied(FRESH.(pointers := front), fields, k) == e.(pointers := front + e.pointers)
  {
    if k > 0 { PointersInFront(front, fields, k - 1); }
  }
}
