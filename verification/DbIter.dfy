/** Iterators: a cursor over sorted entries, and DBIter, which turns a cursor over all versions of all keys into a
    cursor over the keys visible at one sequence number (include/leveldb/iterator.h, db/db_iter.cc). */
module DbIter {
  import opened Keys
  import opened Lsm

  /** An internal iterator over a sorted list.  Position |data| means "not valid", from whichever side. */
  class Cursor {
    const data: seq<Entry>
    var pos: nat

    constructor (data: seq<Entry>)
      ensures this.data == data && pos == |data|
    {
      this.data, pos := data, |data|;
    }

    predicate Valid()
      reads this
    {
      pos < |data|
    }

    method SeekToFirst()
      modifies this
      ensures pos == 0
    {
      pos := 0;
    }

    method SeekToLast()
      modifies this
      ensures pos == if data == [] then 0 else |data| - 1
    {
      pos := if data == [] then 0 else |data| - 1;
    }

    method Next()
      requires Valid()
      modifies this
      ensures pos == old(pos) + 1
    {
      pos := pos + 1;
    }

    method Prev()
      requires Valid()
      modifies this
      ensures pos == if old(pos) == 0 then |data| else old(pos) - 1
    {
      pos := if pos == 0 then |data| else pos - 1;
    }

    method Seek(key: IKey)
      requires Sorted(data)
      modifies this
      ensures pos <= |data|
      ensures forall i :: 0 <= i < pos ==> KeyLess(KeyOf(data[i]), key)
      ensures forall i :: pos <= i < |data| ==> !KeyLess(KeyOf(data[i]), key)
    {
      var p := LowerBound(data, key);
      pos := p;
    }
  }

  // ----- the specification: which entries a reader at `s` is shown

  /** Entry `i` is the newest one for its user key that `s` can see, and it is a value. */
  ghost predicate Shown(data: seq<Entry>, s: nat, i: int) {
    && 0 <= i < |data| && data[i].seqno <= s && data[i].typ.Put?
    && forall j :: 0 <= j < i && data[j].user == data[i].user ==> data[j].seqno > s
  }

  /** `r` is the first shown entry at or after `from`. */
  ghost predicate FirstShown(data: seq<Entry>, s: nat, from: int, r: Option<nat>) {
    && (r.Some? ==> r.value >= from && Shown(data, s, r.value))
    && forall i :: from <= i && (r.Some? ==> i < r.value) ==> !Shown(data, s, i)
  }

  /** `r` is the last shown entry before `limit`. */
  ghost predicate LastShown(data: seq<Entry>, s: nat, limit: int, r: Option<nat>) {
    && (r.Some? ==> r.value < limit && Shown(data, s, r.value))
    && forall i :: i < limit && (r.Some? ==> i > r.value) ==> !Shown(data, s, i)
  }

  /** Shown entries have distinct user keys, in increasing order. */
  lemma ShownIncrease(data: seq<Entry>, s: nat, i: nat, j: nat)
    requires Sorted(data) && Shown(data, s, i) && Shown(data, s, j) && i < j
    ensures data[i].user < data[j].user
  {
    assert Less(data[i], data[j]);
  }

  lemma EarlierIsNewer(data: seq<Entry>, s: nat, j: nat, i: nat)
    requires Sorted(data) && UniqueSeqs(SetOf(data)) && j < i < |data| && data[j].user == data[i].user
    requires Newest(SetOf(data), data[i].user, s, data[i])
    ensures data[j].seqno > s
  {
    assert Less(data[j], data[i]) && data[j] in SetOf(data);
  }

  /** The shown entries are exactly the map from user keys to values that point reads at `s` answer. */
  lemma ShownIsView(data: seq<Entry>, s: nat, k: UserKey, v: Value)
    requires Sorted(data) && UniqueSeqs(SetOf(data))
    ensures View(SetOf(data), k, s) == Some(v) <==>
            exists i :: Shown(data, s, i) && data[i].user == k && data[i].value == v
  {
    if i :| Shown(data, s, i) && data[i].user == k && data[i].value == v {
      assert data[i] in SetOf(data);
      forall x | x in SetOf(data) && x.user == k && x.seqno <= s ensures x.seqno <= data[i].seqno {
        var j :| 0 <= j < |data| && data[j] == x;
        if i < j { assert Less(data[i], data[j]); }
      }
      ViewIs(SetOf(data), k, s, data[i]);
    }
    if View(SetOf(data), k, s) == Some(v) {
      var e :| Newest(SetOf(data), k, s, e) && e.typ.Put?;
      ViewIs(SetOf(data), k, s, e);
      var i :| 0 <= i < |data| && data[i] == e;
      forall j | 0 <= j < i && data[j].user == k ensures data[j].seqno > s { EarlierIsNewer(data, s, j, i); }
      assert Shown(data, s, i);
    }
  }

  // ----- DBIter

  datatype Direction = Forward | Reverse

  const EMPTY_KEY: UserKey := 0.0

  /** With the internal iterator at `pos`, everything between it and entry `c` is invisible at `s`. */
  ghost predicate Behind(data: seq<Entry>, s: nat, pos: nat, c: nat) {
    && c < |data|
    && (pos < |data| ==> pos < c && data[pos].user < data[c].user && data[pos].seqno <= s)
    && forall j :: (if pos < |data| then pos + 1 else 0) <= j < c ==> data[j].seqno > s
  }

  /** Scanning forward at `pos` for the first shown entry from `low` on.  Nothing from `low` up to `pos` is shown; a
      visible entry before `low` is hidden by the key to skip; an entry ahead whose user key has a visible entry behind
      is hidden by it too; and nothing ahead that the key to skip hides is shown. */
  ghost predicate MaySkip(data: seq<Entry>, s: nat, pos: nat, low: nat, skipping: bool, skip: UserKey) {
    && (forall i :: low <= i < pos ==> !Shown(data, s, i))
    && (forall j :: pos <= j < low && j < |data| && data[j].seqno <= s ==>
          data[j].typ.Put? && skipping && data[j].user <= skip)
    && (forall j, i :: 0 <= j < pos <= i < |data| && low <= i && data[j].user == data[i].user && data[j].seqno <= s
          ==> skipping && data[i].user <= skip)
    && (skipping ==> forall i :: low <= i && pos <= i < |data| && data[i].user <= skip ==> !Shown(data, s, i))
  }

  lemma ScanDeletion(data: seq<Entry>, s: nat, pos: nat, low: nat, skipping: bool, skip: UserKey)
    requires Sorted(data) && pos < |data| && MaySkip(data, s, pos, low, skipping, skip)
    requires data[pos].seqno <= s && data[pos].typ.Deletion?
    ensures MaySkip(data, s, pos + 1, low, true, data[pos].user)
  {
    assert pos >= low;
    forall i | pos < i < |data| ensures data[pos].user <= data[i].user { assert Less(data[pos], data[i]); }
    forall j, i | 0 <= j < pos + 1 <= i < |data| && data[j].user == data[i].user ensures data[i].user <= data[pos].user {
      if j < pos { assert Less(data[j], data[pos]); }
    }
  }

  /** One step of the scan, by the kind of entry found. */
  lemma ScanStep(data: seq<Entry>, s: nat, pos: nat, low: nat, skipping: bool, skip: UserKey)
    requires Sorted(data) && pos < |data| && MaySkip(data, s, pos, low, skipping, skip)
    ensures data[pos].seqno > s ==> MaySkip(data, s, pos + 1, low, skipping, skip)
    ensures data[pos].seqno <= s && data[pos].typ.Deletion? ==> MaySkip(data, s, pos + 1, low, true, data[pos].user)
    ensures data[pos].seqno <= s && data[pos].typ.Put? && skipping && data[pos].user <= skip ==>
              MaySkip(data, s, pos + 1, low, skipping, skip)
    ensures data[pos].seqno <= s && data[pos].typ.Put? && !(skipping && data[pos].user <= skip) ==>
              FirstShown(data, s, low, Some(pos))
  {
    if data[pos].seqno <= s && data[pos].typ.Deletion? {
      ScanDeletion(data, s, pos, low, skipping, skip);
    }
  }

  class DBIter {
    const iter: Cursor
    const s: nat
    var direction: Direction
    var valid: bool
    var savedKey: UserKey
    var savedValue: Value
    ghost var at: Option<nat>  // the shown entry the iterator stands on

    ghost predicate Inv()
      reads this, iter
    {
      && Sorted(iter.data) && iter.pos <= |iter.data|
      && (valid <==> at.Some?)
      && (valid ==> Shown(iter.data, s, at.value))
      && (valid && direction.Forward? ==> iter.pos == at.value)
      && (valid && direction.Reverse? ==>
            && savedKey == iter.data[at.value].user && savedValue == iter.data[at.value].value
            && Behind(iter.data, s, iter.pos, at.value))
    }

    constructor (iter: Cursor, s: nat)
      requires Sorted(iter.data) && iter.pos <= |iter.data|
      ensures Inv() && !valid && this.iter == iter && this.s == s
    {
      this.iter, this.s, direction, valid := iter, s, Forward, false;
      savedKey, savedValue, at := EMPTY_KEY, [], None;
    }

    /** key() and value(): those of the shown entry. */
    method Current() returns (k: UserKey, v: Value)
      requires Inv() && valid
      ensures k == iter.data[at.value].user && v == iter.data[at.value].value
    {
      if direction.Forward? {
        k, v := iter.data[iter.pos].user, iter.data[iter.pos].value;
      } else {
        k, v := savedKey, savedValue;
      }
    }

    /** FindNextUserEntry: forward to the first shown entry from `low` on. */
    method FindNextUserEntry(skipping0: bool, skip0: UserKey, ghost low: nat)
      requires Sorted(iter.data) && iter.Valid() && direction.Forward?
      requires MaySkip(iter.data, s, iter.pos, low, skipping0, skip0)
      modifies this, iter
      ensures Inv() && direction.Forward? && FirstShown(iter.data, s, low, at)
    {
      var skipping, skip := skipping0, skip0;
      ghost var data := iter.data;
      while iter.Valid()
        invariant iter.pos <= |data| && direction.Forward?
        invariant MaySkip(data, s, iter.pos, low, skipping, skip)
        decreases |data| - iter.pos
      {
        var e := iter.data[iter.pos];
        ScanStep(data, s, iter.pos, low, skipping, skip);
        if e.seqno <= s {
          if e.typ.Deletion? {
            skip, skipping := e.user, true;
          } else if skipping && e.user <= skip {
            // hidden
          } else {
            valid, savedKey, at := true, EMPTY_KEY, Some(iter.pos);
            return;
          }
        }
        iter.Next();
      }
      savedKey, valid, at := EMPTY_KEY, false, None;
    }

    /** Next.  After a reverse scan the internal iterator is first brought back to the entries of the current key. */
    method Next()
      requires Inv() && valid
      modifies this, iter
      ensures Inv() && FirstShown(iter.data, s, old(at.value) + 1, at)
    {
      ghost var data, c := iter.data, at.value;
      if direction.Reverse? {
        direction := Forward;
        if !iter.Valid() { iter.SeekToFirst(); } else { iter.Next(); }
      } else {
        savedKey := iter.data[iter.pos].user;
      }
      NextMaySkip(data, s, iter.pos, c);
      FindNextUserEntry(true, savedKey, c + 1);
    }

    /** FindPrevUserEntry: backward to the last shown entry before `limit`. */
    method FindPrevUserEntry(ghost limit: nat)
      requires Sorted(iter.data) && direction.Reverse? && iter.pos <= |iter.data|
      requires MayScanBack(iter.data, s, iter.pos, limit)
      modifies this, iter
      ensures Inv() && LastShown(iter.data, s, limit, at)
    {
      ghost var data := iter.data;
      ghost var c: nat := 0;
      var typ := Deletion;
      while iter.Valid()
        invariant direction.Reverse? && iter.pos <= |data|
        invariant iter.pos < |data| ==> iter.pos < limit
        invariant typ.Deletion? ==> MayScanBack(data, s, iter.pos, limit)
        invariant typ.Put? ==>
                    Candidate(data, s, iter.pos, limit, c) && savedKey == data[c].user && savedValue == data[c].value
        decreases if iter.pos < |data| then iter.pos + 1 else 0
      {
        var e := iter.data[iter.pos];
        ScanBackStep(data, s, iter.pos, limit, c, typ);
        if e.seqno <= s {
          if !typ.Deletion? && e.user < savedKey { break; }
          typ := e.typ;
          if typ.Deletion? {
            savedKey, savedValue := EMPTY_KEY, [];
          } else {
            savedKey, savedValue, c := e.user, e.value, iter.pos;
          }
        }
        iter.Prev();
      }
      if typ.Deletion? {
        valid, savedKey, savedValue, direction, at := false, EMPTY_KEY, [], Forward, None;
      } else {
        CandidateShown(data, s, iter.pos, limit, c);
        valid, at := true, Some(c);
      }
    }

    /** Prev.  After a forward scan the internal iterator is first moved back past all entries of the current key. */
    method Prev()
      requires Inv() && valid
      modifies this, iter
      ensures Inv() && LastShown(iter.data, s, old(at.value), at)
    {
      ghost var data, c := iter.data, at.value;
      if direction.Forward? {
        savedKey := iter.data[iter.pos].user;
        while true
          invariant iter.pos <= c && direction.Forward? && savedKey == data[c].user
          invariant forall j :: iter.pos <= j <= c ==> data[j].user == data[c].user
          decreases iter.pos
        {
          iter.Prev();
          if !iter.Valid() {
            valid, savedKey, savedValue, at := false, EMPTY_KEY, [], None;
            return;
          }
          assert Less(data[iter.pos], data[c]);
          if iter.data[iter.pos].user < savedKey { break; }
        }
        direction := Reverse;
      }
      PrevMayScanBack(data, s, iter.pos, c);
      FindPrevUserEntry(c);
    }

    /** Seek: the first shown entry whose user key is at or after the target. */
    method Seek(target: UserKey)
      requires Inv()
      modifies this, iter
      ensures Inv()
      ensures at.Some? ==> iter.data[at.value].user >= target
      ensures forall i :: Shown(iter.data, s, i) && iter.data[i].user >= target ==> at.Some? && at.value <= i
    {
      ghost var data := iter.data;
      direction, savedValue, savedKey := Forward, [], EMPTY_KEY;
      iter.Seek(LookupKey(target, s));
      ghost var low := iter.pos;
      forall i | 0 <= i < |data|
        ensures i < low <==> data[i].user < target || (data[i].user == target && data[i].seqno > s)
      {
        LookupSplits(data[i], target, s);
      }
      if iter.Valid() {
        assert MaySkip(data, s, low, low, false, savedKey);
        FindNextUserEntry(false, savedKey, low);
      } else {
        valid, at := false, None;
      }
    }

    method SeekToFirst()
      requires Inv()
      modifies this, iter
      ensures Inv() && FirstShown(iter.data, s, 0, at)
    {
      direction, savedValue := Forward, [];
      iter.SeekToFirst();
      if iter.Valid() {
        FindNextUserEntry(false, savedKey, 0);
      } else {
        valid, at := false, None;
      }
    }

    method SeekToLast()
      requires Inv()
      modifies this, iter
      ensures Inv() && LastShown(iter.data, s, |iter.data|, at)
    {
      direction, savedValue := Reverse, [];
      iter.SeekToLast();
      FindPrevUserEntry(|iter.data|);
    }
  }

  lemma NextMaySkip(data: seq<Entry>, s: nat, pos: nat, c: nat)
    requires Sorted(data) && Shown(data, s, c) && pos <= c
    requires forall j :: pos <= j < c ==> data[j].seqno > s
    ensures MaySkip(data, s, pos, c + 1, true, data[c].user)
  {
    forall i | c < i < |data| && data[i].user <= data[c].user ensures !Shown(data, s, i) { assert Less(data[c], data[i]); }
    forall j, i | 0 <= j < pos && c < i < |data| && data[j].user == data[i].user ensures data[i].user <= data[c].user {
      assert j < c ==> Less(data[j], data[c]);
    }
  }

  ghost function Low(data: seq<Entry>, pos: nat): nat { if pos < |data| then pos + 1 else 0 }

  /** Scanning backward at `pos`: nothing from there up to `limit` is shown, nor hides an older version behind it. */
  ghost predicate MayScanBack(data: seq<Entry>, s: nat, pos: nat, limit: nat) {
    && Low(data, pos) <= limit <= |data|
    && (forall i :: Low(data, pos) <= i < limit ==> !Shown(data, s, i))
  }

  /** Entry `c` is the oldest visible version so far of the key under the scan. */
  ghost predicate Candidate(data: seq<Entry>, s: nat, pos: nat, limit: nat, c: nat) {
    && Low(data, pos) <= c < limit <= |data| && data[c].seqno <= s && data[c].typ.Put?
    && (forall j :: Low(data, pos) <= j < c ==> data[j].seqno > s)
    && (forall i :: c < i < limit ==> !Shown(data, s, i))
  }

  lemma ScanBackStep(data: seq<Entry>, s: nat, pos: nat, limit: nat, c: nat, typ: ValueType)
    requires Sorted(data) && pos < |data| && pos < limit
    requires typ.Deletion? ==> MayScanBack(data, s, pos, limit)
    requires typ.Put? ==> Candidate(data, s, pos, limit, c)
    ensures var prev := if pos == 0 then |data| else pos - 1;
            && (data[pos].seqno > s && typ.Deletion? ==> MayScanBack(data, s, prev, limit))
            && (data[pos].seqno > s && typ.Put? ==> Candidate(data, s, prev, limit, c))
            && (data[pos].seqno <= s && (typ.Put? ==> data[pos].user >= data[c].user) ==>
                  && (data[pos].typ.Deletion? ==> MayScanBack(data, s, prev, limit))
                  && (data[pos].typ.Put? ==> Candidate(data, s, prev, limit, pos)))
  {
    if typ.Put? { assert Less(data[pos], data[c]); }
  }

  lemma CandidateShown(data: seq<Entry>, s: nat, pos: nat, limit: nat, c: nat)
    requires Sorted(data) && Candidate(data, s, pos, limit, c)
    requires pos < |data| ==> data[pos].user < data[c].user && data[pos].seqno <= s
    ensures LastShown(data, s, limit, Some(c)) && Behind(data, s, pos, c)
  {
    if pos < |data| {
      forall j | 0 <= j < pos ensures data[j].user <= data[pos].user { assert Less(data[j], data[pos]); }
    }
  }

  lemma PrevMayScanBack(data: seq<Entry>, s: nat, pos: nat, c: nat)
    requires Sorted(data) && Shown(data, s, c)
    requires Low(data, pos) <= c
    requires forall j :: Low(data, pos) <= j < c ==> data[j].seqno > s || data[j].user == data[c].user
    ensures MayScanBack(data, s, pos, c)
  {}
}
