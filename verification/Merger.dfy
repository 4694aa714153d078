/** MergingIterator: several sorted iterators seen as one, in both directions (table/merger.cc). */
module Merger {
  import opened Keys
  import opened Lsm

  type Lists = seq<seq<Entry>>

  ghost predicate Within(lists: Lists, e: Entry) {
    exists i :: 0 <= i < |lists| && e in lists[i]
  }

  /** Each child is sorted, and no two children hold the same key. */
  ghost predicate Mergeable(lists: Lists) {
    && (forall i :: 0 <= i < |lists| ==> Sorted(lists[i]))
    && (forall i, j, a, b :: 0 <= i < |lists| && 0 <= j < |lists| && i != j && 0 <= a < |lists[i]| && 0 <= b < |lists[j]|
          ==> KeyOf(lists[i][a]) != KeyOf(lists[j][b]))
  }

  /** `r` is the first entry, among all the children, at or after `key`. */
  ghost predicate FirstFrom(lists: Lists, key: IKey, r: Option<Entry>) {
    && (r.Some? ==> Within(lists, r.value) && !KeyLess(KeyOf(r.value), key))
    && (forall i, a :: 0 <= i < |lists| && 0 <= a < |lists[i]| && !KeyLess(KeyOf(lists[i][a]), key)
          ==> r.Some? && !Less(lists[i][a], r.value))
  }

  /** `r` is the first entry after `e`. */
  ghost predicate After(lists: Lists, e: Entry, r: Option<Entry>) {
    && (r.Some? ==> Within(lists, r.value) && Less(e, r.value))
    && (forall i, a :: 0 <= i < |lists| && 0 <= a < |lists[i]| && Less(e, lists[i][a])
          ==> r.Some? && !Less(lists[i][a], r.value))
  }

  /** `r` is the last entry before `e`. */
  ghost predicate Before(lists: Lists, e: Entry, r: Option<Entry>) {
    && (r.Some? ==> Within(lists, r.value) && Less(r.value, e))
    && (forall i, a :: 0 <= i < |lists| && 0 <= a < |lists[i]| && Less(lists[i][a], e)
          ==> r.Some? && !Less(r.value, lists[i][a]))
  }

  /** The one sorted list that holds exactly the children's entries. */
  ghost predicate IsMerge(lists: Lists, merged: seq<Entry>) {
    Sorted(merged) && forall e :: e in merged <==> Within(lists, e)
  }

  ghost predicate IsFirst(lists: Lists, r: Option<Entry>) {
    && (r.Some? ==> Within(lists, r.value))
    && (forall i, a :: 0 <= i < |lists| && 0 <= a < |lists[i]| ==> r.Some? && !Less(lists[i][a], r.value))
  }

  ghost predicate IsLast(lists: Lists, r: Option<Entry>) {
    && (r.Some? ==> Within(lists, r.value))
    && (forall i, a :: 0 <= i < |lists| && 0 <= a < |lists[i]| ==> r.Some? && !Less(r.value, lists[i][a]))
  }

  lemma InMerge(lists: Lists, merged: seq<Entry>, j: nat) returns (k: nat, a: nat)
    requires IsMerge(lists, merged) && j < |merged|
    ensures k < |lists| && a < |lists[k]| && lists[k][a] == merged[j]
  {
    assert merged[j] in merged;
    k :| 0 <= k < |lists| && merged[j] in lists[k];
    a :| 0 <= a < |lists[k]| && lists[k][a] == merged[j];
  }

  /** Seeking among the children is seeking in their merge. */
  lemma SeekInMerge(lists: Lists, merged: seq<Entry>, key: IKey, p: nat, r: Option<Entry>)
    requires IsMerge(lists, merged) && FirstFrom(lists, key, r) && p <= |merged|
    requires forall i :: 0 <= i < p ==> KeyLess(KeyOf(merged[i]), key)
    requires p < |merged| ==> !KeyLess(KeyOf(merged[p]), key)
    ensures r == if p < |merged| then Some(merged[p]) else None
  {
    if r.Some? { var j :| 0 <= j < |merged| && merged[j] == r.value; }
    if p < |merged| { var k, a := InMerge(lists, merged, p); }
  }

  /** The ends of the children are the ends of their merge. */
  lemma EndsOfMerge(lists: Lists, merged: seq<Entry>, first: Option<Entry>, last: Option<Entry>)
    requires IsMerge(lists, merged) && IsFirst(lists, first) && IsLast(lists, last)
    ensures first == if merged == [] then None else Some(merged[0])
    ensures last == if merged == [] then None else Some(merged[|merged| - 1])
  {
    if first.Some? { var j :| 0 <= j < |merged| && merged[j] == first.value; }
    if last.Some? { var j :| 0 <= j < |merged| && merged[j] == last.value; }
    if merged != [] {
      var k, a := InMerge(lists, merged, 0);
      var l, b := InMerge(lists, merged, |merged| - 1);
    }
  }

  /** Moving by one entry among the children is moving by one position in their merge. */
  lemma StepInMerge(lists: Lists, merged: seq<Entry>, i: nat, next: Option<Entry>, prev: Option<Entry>)
    requires IsMerge(lists, merged) && i < |merged|
    requires After(lists, merged[i], next) && Before(lists, merged[i], prev)
    ensures if i + 1 < |merged| then next == Some(merged[i + 1]) else next == None
    ensures if i > 0 then prev == Some(merged[i - 1]) else prev == None
  {
    if next.Some? { var j :| 0 <= j < |merged| && merged[j] == next.value; }
    if prev.Some? { var j :| 0 <= j < |merged| && merged[j] == prev.value; }
    if i + 1 < |merged| {
      var k, a := InMerge(lists, merged, i + 1);
      assert Less(merged[i], merged[i + 1]);
    }
    if i > 0 {
      var k, a := InMerge(lists, merged, i - 1);
      assert Less(merged[i - 1], merged[i]);
    }
  }

  /** Seek, then one step past an equal key: the first entry after `key`. */
  method SeekPast(es: seq<Entry>, key: IKey) returns (pos: nat)
    requires Sorted(es)
    ensures pos <= |es|
    ensures forall i :: 0 <= i < pos ==> !KeyLess(key, KeyOf(es[i]))
    ensures forall i :: pos <= i < |es| ==> KeyLess(key, KeyOf(es[i]))
  {
    pos := LowerBound(es, key);
    forall i | pos < i < |es| ensures KeyLess(key, KeyOf(es[i])) { assert Less(es[pos], es[i]); }
    if pos < |es| && KeyOf(es[pos]) == key { pos := pos + 1; }
  }

  /** Seek, then one step back, or to the last entry if the seek ran off the end: the last entry before `key`. */
  method SeekBack(es: seq<Entry>, key: IKey) returns (pos: nat)
    requires Sorted(es)
    ensures pos <= |es|
    ensures forall i :: 0 <= i < Count(es, pos) ==> KeyLess(KeyOf(es[i]), key)
    ensures forall i :: Count(es, pos) <= i < |es| ==> !KeyLess(KeyOf(es[i]), key)
  {
    pos := LowerBound(es, key);
    if pos < |es| {
      pos := if pos == 0 then |es| else pos - 1;
    } else {
      pos := if es == [] then 0 else |es| - 1;
    }
  }

  /** How many entries lie at or before position `pos`, where |es| stands for "before the first". */
  ghost function Count(es: seq<Entry>, pos: nat): nat { if pos < |es| then pos + 1 else 0 }

  datatype Direction = Forward | Reverse

  class MergingIterator {
    const lists: Lists
    const pos: array<nat>
    var current: Option<nat>
    var direction: Direction

    ghost predicate Shaped()
      reads this, pos
    {
      && Mergeable(lists) && pos.Length == |lists|
      && (forall i :: 0 <= i < |lists| ==> pos[i] <= |lists[i]|)
    }

    /** The children other than the current one stand just past the current key, or just before it. */
    ghost predicate Inv()
      reads this, pos
    {
      && Shaped()
      && (current.Some? ==>
            && current.value < |lists| && pos[current.value] < |lists[current.value]|
            && forall i :: 0 <= i < |lists| ==> Placed(lists[i], pos[i], Here(), direction.Reverse? && i != current.value))
    }

    ghost function Here(): Entry
      reads this, pos
      requires Shaped() && current.Some? && current.value < |lists| && pos[current.value] < |lists[current.value]|
    {
      lists[current.value][pos[current.value]]
    }

    /** The entry the iterator stands on. */
    ghost function At(): Option<Entry>
      requires Inv()
      reads this, pos
    {
      if current.Some? then Some(Here()) else None
    }

    constructor (lists: Lists)
      requires Mergeable(lists)
      ensures Inv() && At() == None && this.lists == lists && fresh(pos)
    {
      this.lists := lists;
      pos := new nat[|lists|](i requires 0 <= i < |lists| => |lists[i]|);
      current, direction := None, Forward;
    }

    /** FindSmallest: the child with the smallest key. */
    method FindSmallest()
      requires Shaped()
      modifies this`current
      ensures Smallest()
    {
      var smallest: Option<nat> := None;
      for i := 0 to |lists|
        invariant smallest.Some? ==> smallest.value < i && pos[smallest.value] < |lists[smallest.value]|
        invariant forall j :: 0 <= j < i && pos[j] < |lists[j]| ==>
          smallest.Some? && !Less(lists[j][pos[j]], lists[smallest.value][pos[smallest.value]])
      {
        if pos[i] < |lists[i]| {
          if smallest.None? || Less(lists[i][pos[i]], lists[smallest.value][pos[smallest.value]]) {
            smallest := Some(i);
          }
        }
      }
      current := smallest;
    }

    ghost predicate Smallest()
      requires Shaped()
      reads this, pos
    {
      && (current.Some? ==> current.value < |lists| && pos[current.value] < |lists[current.value]|)
      && (forall j :: 0 <= j < |lists| && pos[j] < |lists[j]| ==> current.Some? && !Less(lists[j][pos[j]], Here()))
    }

    /** FindLargest: the child with the largest key. */
    method FindLargest()
      requires Shaped()
      modifies this`current
      ensures Largest()
    {
      var largest: Option<nat> := None;
      for i := |lists| downto 0
        invariant largest.Some? ==> i <= largest.value < |lists| && pos[largest.value] < |lists[largest.value]|
        invariant forall j :: i <= j < |lists| && pos[j] < |lists[j]| ==>
          largest.Some? && !Less(lists[largest.value][pos[largest.value]], lists[j][pos[j]])
      {
        if pos[i] < |lists[i]| {
          if largest.None? || Less(lists[largest.value][pos[largest.value]], lists[i][pos[i]]) {
            largest := Some(i);
          }
        }
      }
      current := largest;
    }

    ghost predicate Largest()
      requires Shaped()
      reads this, pos
    {
      && (current.Some? ==> current.value < |lists| && pos[current.value] < |lists[current.value]|)
      && (forall j :: 0 <= j < |lists| && pos[j] < |lists[j]| ==> current.Some? && !Less(Here(), lists[j][pos[j]]))
    }

    /** When everything behind the positions comes before everything ahead, the smallest head is the current entry. */
    lemma SmallestIsPlaced()
      requires Shaped() && Smallest() && direction.Forward? && Cut(lists, pos[..])
      ensures Inv()
      ensures forall i, a :: 0 <= i < |lists| && pos[i] <= a < |lists[i]| ==> current.Some? && !Less(lists[i][a], Here())
    {
      forall i, a | 0 <= i < |lists| && pos[i] <= a < |lists[i]|
        ensures current.Some? && !Less(lists[i][a], Here())
      {
        assert pos[i] < a ==> Less(lists[i][pos[i]], lists[i][a]);
      }
    }

    lemma LargestIsPlaced()
      requires Shaped() && Largest() && direction.Reverse? && Cut(lists, Counts(lists, pos[..]))
      ensures Inv()
      ensures forall i, a :: 0 <= i < |lists| && 0 <= a < |lists[i]| && a < Count(lists[i], pos[i]) ==>
                current.Some? && !Less(Here(), lists[i][a])
    {
      forall i, a | 0 <= i < |lists| && 0 <= a < |lists[i]| && a < Count(lists[i], pos[i])
        ensures current.Some? && !Less(Here(), lists[i][a])
      {
        assert a < pos[i] ==> Less(lists[i][a], lists[i][pos[i]]);
      }
      if current.Some? {
        forall i | 0 <= i < |lists| ensures Placed(lists[i], pos[i], Here(), i != current.value) {
          forall a | 0 <= a < Count(lists[i], pos[i]) && !(i == current.value && a == pos[i])
            ensures Less(lists[i][a], Here())
          {
            if i == current.value { assert Less(lists[i][a], lists[i][pos[i]]); }
            else { assert KeyOf(lists[i][a]) != KeyOf(lists[current.value][pos[current.value]]); }
          }
          assert Counts(lists, pos[..])[i] == Count(lists[i], pos[i]);
          assert pos[current.value] < Counts(lists, pos[..])[current.value];
        }
      }
    }

    method SeekToFirst()
      requires Inv()
      modifies this, pos
      ensures Inv() && IsFirst(lists, At())
    {
      for i := 0 to |lists|
        invariant Shaped() && forall j :: 0 <= j < i ==> pos[j] == 0
      {
        pos[i] := 0;
      }
      FindSmallest();
      direction := Forward;
      SmallestIsPlaced();
    }

    method SeekToLast()
      requires Inv()
      modifies this, pos
      ensures Inv() && IsLast(lists, At())
    {
      for i := 0 to |lists|
        invariant Shaped() && forall j :: 0 <= j < i ==> Count(lists[j], pos[j]) == |lists[j]|
      {
        pos[i] := if lists[i] == [] then 0 else |lists[i]| - 1;
      }
      FindLargest();
      direction := Reverse;
      LargestIsPlaced();
    }

    method Seek(key: IKey)
      requires Inv()
      modifies this, pos
      ensures Inv() && FirstFrom(lists, key, At())
    {
      for i := 0 to |lists|
        invariant Shaped()
        invariant forall j, a :: 0 <= j < i && 0 <= a < pos[j] ==> KeyLess(KeyOf(lists[j][a]), key)
        invariant forall j, a :: 0 <= j < i && pos[j] <= a < |lists[j]| ==> !KeyLess(KeyOf(lists[j][a]), key)
      {
        var p := LowerBound(lists[i], key);
        pos[i] := p;
      }
      FindSmallest();
      direction := Forward;
      SmallestIsPlaced();
    }

    /** After moving in reverse, every other child is brought to just past the current key. */
    method TurnForward()
      requires Inv() && current.Some?
      modifies this`direction, pos
      ensures Inv() && direction.Forward? && Here() == old(Here())
    {
      var cur := current.value;
      var here := lists[cur][pos[cur]];
      for i := 0 to |lists|
        invariant Shaped() && pos[cur] == old(pos[cur])
        invariant forall j :: 0 <= j < i && j != cur ==> Placed(lists[j], pos[j], here, false)
      {
        if i != cur {
          var p := SeekPast(lists[i], KeyOf(here));
          pos[i] := p;
          forall a | 0 <= a < |lists[i]| ensures KeyOf(lists[i][a]) != KeyOf(here) {
            assert KeyOf(lists[i][a]) != KeyOf(lists[cur][pos[cur]]);
          }
        }
      }
      direction := Forward;
    }

    /** Next */
    method Next()
      requires Inv() && current.Some?
      modifies this, pos
      ensures Inv() && After(lists, old(Here()), At())
    {
      ghost var e := Here();
      if !direction.Forward? { TurnForward(); }
      var cur := current.value;
      ghost var ps := pos[..];
      pos[cur] := pos[cur] + 1;
      AdvanceKeepsCut(lists, ps, cur);
      assert pos[..] == ps[cur := ps[cur] + 1];
      FindSmallest();
      SmallestIsPlaced();
    }

    /** After moving forward, every other child is brought to just before the current key. */
    method TurnReverse()
      requires Inv() && current.Some?
      modifies this`direction, pos
      ensures Inv() && direction.Reverse? && Here() == old(Here())
    {
      var cur := current.value;
      var here := lists[cur][pos[cur]];
      for i := 0 to |lists|
        invariant Shaped() && pos[cur] == old(pos[cur])
        invariant forall j :: 0 <= j < i && j != cur ==> Placed(lists[j], pos[j], here, true)
      {
        if i != cur {
          var p := SeekBack(lists[i], KeyOf(here));
          pos[i] := p;
        }
      }
      direction := Reverse;
    }

    /** Prev */
    method Prev()
      requires Inv() && current.Some?
      modifies this, pos
      ensures Inv() && Before(lists, old(Here()), At())
    {
      ghost var e := Here();
      if !direction.Reverse? { TurnReverse(); }
      var cur := current.value;
      pos[cur] := if pos[cur] == 0 then |lists[cur]| else pos[cur] - 1;
      assert forall j :: 0 <= j < |lists| ==> Placed(lists[j], pos[j], e, true);
      PlacedBackIsCut(lists, pos[..], e);
      FindLargest();
      LargestIsPlaced();
    }
  }

  /** The positions cut all the lists at the same place: whatever lies behind comes before whatever lies ahead. */
  ghost predicate Cut(lists: Lists, ps: seq<nat>) {
    && |ps| == |lists|
    && forall i, a, j, b :: 0 <= i < |lists| && 0 <= j < |lists| && 0 <= a < ps[i] && a < |lists[i]|
         && ps[j] <= b < |lists[j]|
         ==> Less(lists[i][a], lists[j][b])
  }

  ghost function Counts(lists: Lists, ps: seq<nat>): seq<nat>
    requires |ps| == |lists|
  {
    seq(|lists|, i requires 0 <= i < |lists| => Count(lists[i], ps[i]))
  }

  lemma AdvanceKeepsCut(lists: Lists, ps: seq<nat>, cur: nat)
    requires Mergeable(lists) && |ps| == |lists| && cur < |lists| && ps[cur] < |lists[cur]|
    requires forall i :: 0 <= i < |lists| ==> Placed(lists[i], ps[i], lists[cur][ps[cur]], false)
    ensures Cut(lists, ps[cur := ps[cur] + 1])
    ensures var ps' := ps[cur := ps[cur] + 1];
            && (forall i, a :: 0 <= i < |lists| && 0 <= a < ps'[i] && a < |lists[i]|
                  ==> !Less(lists[cur][ps[cur]], lists[i][a]))
            && (forall i, a :: 0 <= i < |lists| && ps'[i] <= a < |lists[i]| ==> Less(lists[cur][ps[cur]], lists[i][a]))
  {
    var e, ps' := lists[cur][ps[cur]], ps[cur := ps[cur] + 1];
    forall i, a | 0 <= i < |lists| && ps'[i] <= a < |lists[i]| ensures Less(e, lists[i][a]) {
      if i != cur { assert KeyOf(lists[i][a]) != KeyOf(lists[cur][ps[cur]]); }
    }
    forall i, a | 0 <= i < |lists| && 0 <= a < ps'[i] && a < |lists[i]| ensures !Less(e, lists[i][a]) {}
  }

  lemma PlacedBackIsCut(lists: Lists, ps: seq<nat>, e: Entry)
    requires |ps| == |lists| && forall i :: 0 <= i < |lists| ==> Placed(lists[i], ps[i], e, true)
    ensures Cut(lists, Counts(lists, ps))
  {}

  /** Position `pos` splits the child at `e`: forward it is the first entry not before `e`, in reverse the last before. */
  ghost predicate Placed(es: seq<Entry>, pos: nat, e: Entry, back: bool) {
    var n := if back then Count(es, pos) else pos;
    && n <= |es|
    && (forall i :: 0 <= i < n ==> Less(es[i], e))
    && (forall i :: n <= i < |es| ==> !Less(es[i], e))
  }
}
