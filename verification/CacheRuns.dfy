/** Runs of the cache: the list is in the order of last use, so what is evicted was used before everything that stays
    (LRUCache in util/cache.cc). */
module CacheRuns {
  import opened Keys
  import opened HandleTable
  import opened Cache

  /** The operations, with what they found: the handle's place in the list, the handle that an insertion replaced, and
      how many it evicted. */
  datatype Step =
    | Insert(h: Handle, was: nat, k: nat, n: nat)
    | Lookup(e: nat, k: nat)
    | Release(e: nat)
    | Erase(k: nat)
    | Prune

  /** The books after the insertion and before the evictions. */
  ghost function Replaced(b: Books, h: Handle, was: nat, k: nat): Books {
    var c := WithNew(b, h);
    if was != 0 && MayDrop(c, k) then Dropped(c, k) else c
  }

  /** What the operations' contracts say of the books. */
  ghost predicate Next(b: Books, step: Step, b': Books, capacity: nat) {
    match step
    case Insert(h, was, k, n) =>
      && (was != 0 ==> MayDrop(WithNew(b, h), k) && k < |b.order| && b.order[k] == was)
      && EvictedTo(Replaced(b, h, was, k), b', n, capacity)
    case Lookup(e, k) => MayTake(b, e, k) && b' == Taken(b, e, k)
    case Release(e) => MayRelease(b, e) && b' == Released(b, e)
    case Erase(k) => MayDrop(b, k) && b' == Dropped(b, k)
    case Prune => b' == Pruned(b, 0)
  }

  ghost predicate Run(states: seq<Books>, steps: seq<Step>, capacity: nat) {
    && |states| == |steps| + 1 && Balanced(states[0], 0) && states[0].order == []
    && forall i {:trigger steps[i]} :: 0 <= i < |steps| ==> Next(states[i], steps[i], states[i + 1], capacity)
  }

  /** The operation uses this handle: it puts it into the cache, or finds it there. */
  predicate Uses(b: Books, step: Step, id: nat) {
    match step
    case Insert(_, _, _, _) => id == b.nextId
    case Lookup(e, _) => id == e
    case _ => false
  }

  /** When a handle was last used, counted from 1; 0 if never. */
  function LastUse(states: seq<Books>, steps: seq<Step>, n: nat, id: nat): nat
    requires n <= |steps| && |steps| < |states|
  {
    if n == 0 then 0
    else if Uses(states[n - 1], steps[n - 1], id) then n
    else LastUse(states, steps, n - 1, id)
  }

  lemma {:induction false} UsedByNow(states: seq<Books>, steps: seq<Step>, n: nat, id: nat)
    requires n <= |steps| && |steps| < |states|
    ensures LastUse(states, steps, n, id) <= n
  {
    if n > 0 { UsedByNow(states, steps, n - 1, id); }
  }

  // ----- order

  /** What is in `a` stands in `b` in the same order. */
  ghost predicate KeepsOrder(a: seq<nat>, b: seq<nat>) {
    forall i, j :: 0 <= i < j < |a| ==> Before(b, a[i], a[j])
  }

  ghost predicate Before(s: seq<nat>, x: nat, y: nat) {
    exists p, q :: 0 <= p < q < |s| && s[p] == x && s[q] == y
  }

  lemma OrderTransits(a: seq<nat>, b: seq<nat>, c: seq<nat>)
    requires KeepsOrder(a, b) && KeepsOrder(b, c)
    ensures KeepsOrder(a, c)
  {
    forall i, j | 0 <= i < j < |a| ensures Before(c, a[i], a[j]) {
      assert Before(b, a[i], a[j]);
      var p, q :| 0 <= p < q < |b| && b[p] == a[i] && b[q] == a[j];
      assert Before(c, b[p], b[q]);
    }
  }

  lemma SameKeepsOrder(s: seq<nat>)
    ensures KeepsOrder(s, s)
  {
    forall i, j | 0 <= i < j < |s| ensures Before(s, s[i], s[j]) {}
  }

  lemma RemovalKeepsOrder(s: seq<nat>, k: nat)
    requires k < |s|
    ensures KeepsOrder(RemoveAt(s, k), s)
  {
    var t := RemoveAt(s, k);
    forall i, j | 0 <= i < j < |t| ensures Before(s, t[i], t[j]) {
      var p, q := if i < k then i else i + 1, if j < k then j else j + 1;
      assert s[p] == t[i] && s[q] == t[j];
    }
  }

  lemma SuffixKeepsOrder(s: seq<nat>, n: nat)
    requires n <= |s|
    ensures KeepsOrder(s[n..], s)
  {
    forall i, j | 0 <= i < j < |s[n..]| ensures Before(s, s[n..][i], s[n..][j]) {
      assert s[n + i] == s[n..][i] && s[n + j] == s[n..][j];
    }
  }

  /** Prune leaves the handles that it keeps in their order. */
  lemma {:induction false} PruneKeepsOrder(b: Books, i: nat, b': Books)
    requires Balanced(b, 0) && Distinct(b.order) && b' == Pruned(b, i)
    ensures KeepsOrder(b'.order, b.order) && Balanced(b', 0) && Distinct(b'.order)
    decreases |b.order| - i
  {
    if i >= |b.order| {
      SameKeepsOrder(b.order);
    } else if MayDrop(b, i) && b.refs[b.order[i]] == 1 {
      DroppedList(b, i);
      var c := Dropped(b, i);
      assert b' == Pruned(c, i);
      PruneKeepsOrder(c, i, b');
      RemovalKeepsOrder(b.order, i);
      OrderTransits(b'.order, c.order, b.order);
    } else {
      PruneKeepsOrder(b, i + 1, b');
    }
  }

  // ----- the operations are steps

  method DoInsert(cache: LRUCache, key: Bytes, hash: nat, charge: nat) returns (ghost step: Step)
    requires cache.Valid()
    modifies cache, cache.table
    ensures cache.Valid() && step.Insert? && step.h == Handle(key, hash, charge)
    ensures Next(old(cache.B()), step, cache.B(), cache.capacity)
  {
    var e;
    ghost var was, k, n;
    e, was, k, n := cache.Insert(key, hash, charge);
    step := Insert(Handle(key, hash, charge), was, k, n);
  }

  method DoLookup(cache: LRUCache, key: Bytes, hash: nat) returns (e: nat, ghost step: Step)
    requires cache.Valid()
    modifies cache
    ensures cache.Valid() && step.Lookup? && step.e == e
    ensures if e == 0 then cache.B() == old(cache.B()) else Next(old(cache.B()), step, cache.B(), cache.capacity)
  {
    ghost var k;
    e, k := cache.Lookup(key, hash);
    step := Lookup(e, k);
  }

  method DoErase(cache: LRUCache, key: Bytes, hash: nat) returns (ghost e: nat, ghost step: Step)
    requires cache.Valid()
    modifies cache, cache.table
    ensures cache.Valid() && step.Erase?
    ensures if e == 0 then cache.B() == old(cache.B()) else Next(old(cache.B()), step, cache.B(), cache.capacity)
  {
    ghost var k;
    e, k := cache.Erase(key, hash);
    step := Erase(k);
  }

  method DoRelease(cache: LRUCache, e: nat)
    requires cache.Valid() && Held(cache.external, e) > 0
    modifies cache
    ensures cache.Valid() && Next(old(cache.B()), Release(e), cache.B(), cache.capacity)
  {
    cache.Release(e);
  }

  method DoPrune(cache: LRUCache)
    requires cache.Valid()
    modifies cache, cache.table
    ensures cache.Valid() && Next(old(cache.B()), Prune, cache.B(), cache.capacity)
  {
    cache.Prune();
  }

  // ----- every step keeps the order of use

  /** What an operation leaves in the list: of the old handles some, in their order; then the handle that it used. */
  ghost predicate Reordered(before: seq<nat>, used: seq<nat>, after: seq<nat>) {
    |used| <= 1 && exists rest: seq<nat> ::
      && KeepsOrder(rest, before) && KeepsOrder(after, rest + used)
      && forall x :: x in rest ==> x in before && x !in used
  }

  /** The list between the insertion and the evictions: the new handle is last, and the replaced one is gone. */
  lemma ReplacedList(b: Books, h: Handle, was: nat, k: nat) returns (rest: seq<nat>)
    requires Balanced(b, 0) && Distinct(b.order)
    requires was != 0 ==> MayDrop(WithNew(b, h), k) && k < |b.order| && b.order[k] == was
    ensures Balanced(Replaced(b, h, was, k), 0) && Distinct(Replaced(b, h, was, k).order)
    ensures Replaced(b, h, was, k).order == rest + [b.nextId]
    ensures KeepsOrder(rest, b.order) && forall x :: x in rest ==> x in b.order && x != b.nextId
  {
    NewList(b, h);
    if was == 0 {
      rest := b.order;
      SameKeepsOrder(b.order);
    } else {
      rest := RemoveAt(b.order, k);
      DroppedList(WithNew(b, h), k);
      NotTheLast(b.order, b.nextId, k, was);
      RemovalKeepsOrder(b.order, k);
      RemovedMembers(b.order, k);
    }
  }

  lemma NewList(b: Books, h: Handle)
    requires Balanced(b, 0) && Distinct(b.order)
    ensures Balanced(WithNew(b, h), 0) && WithNew(b, h).order == b.order + [b.nextId]
    ensures b.nextId !in b.order && Distinct(b.order + [b.nextId])
  {
    NewBalances(b, h);
  }

  lemma DroppedList(b: Books, k: nat)
    requires Balanced(b, 0) && Distinct(b.order) && k < |b.order|
    ensures MayDrop(b, k) && Balanced(Dropped(b, k), 0) && Distinct(Dropped(b, k).order)
    ensures Dropped(b, k).order == RemoveAt(b.order, k)
  {
    DropBalances(b, k);
    RemovedMembers(b.order, k);
  }

  lemma InsertReorders(b: Books, step: Step, b': Books, capacity: nat)
    requires Balanced(b, 0) && Distinct(b.order) && step.Insert? && Next(b, step, b', capacity)
    ensures Balanced(b', 0) && Distinct(b'.order) && Reordered(b.order, [b.nextId], b'.order)
  {
    var rest := ReplacedList(b, step.h, step.was, step.k);
    var d := Replaced(b, step.h, step.was, step.k);
    EvictedOldest(d, step.n, b');
    SuffixKeepsOrder(d.order, if step.n < |d.order| then step.n else |d.order|);
    ReorderedBy(b.order, rest, b.nextId, b'.order);
  }

  lemma ReorderedBy(before: seq<nat>, rest: seq<nat>, x: nat, after: seq<nat>)
    requires KeepsOrder(rest, before) && KeepsOrder(after, rest + [x]) && forall y :: y in rest ==> y in before && y != x
    ensures Reordered(before, [x], after)
  {}

  lemma LookupReorders(b: Books, step: Step, b': Books, capacity: nat)
    requires Balanced(b, 0) && Distinct(b.order) && step.Lookup? && Next(b, step, b', capacity)
    ensures Balanced(b', 0) && Distinct(b'.order) && Reordered(b.order, [step.e], b'.order)
  {
    TakeBalances(b, step.e, step.k);
    MovedMembers(b.order, step.k);
    TakenIsNewest(b, step.e, step.k);
    var rest := RemoveAt(b.order, step.k);
    RemovalKeepsOrder(b.order, step.k);
    RemovedMembers(b.order, step.k);
    SameKeepsOrder(b'.order);
    assert b'.order == rest + [step.e];
    ReorderedBy(b.order, rest, step.e, b'.order);
  }

  lemma OthersReorder(b: Books, step: Step, b': Books, capacity: nat)
    requires Balanced(b, 0) && Distinct(b.order) && !step.Insert? && !step.Lookup? && Next(b, step, b', capacity)
    ensures Balanced(b', 0) && Distinct(b'.order) && KeepsOrder(b'.order, b.order)
  {
    match step
    case Release(e) =>
      ReleaseBalances(b, e);
      SameKeepsOrder(b.order);
    case Erase(k) =>
      DroppedList(b, k);
      RemovalKeepsOrder(b.order, k);
    case Prune => PruneKeepsOrder(b, 0, b');
  }

  /** The list is in the order of last use. */
  ghost predicate ByUse(order: seq<nat>, use: nat -> nat) {
    forall i, j :: 0 <= i < j < |order| ==> use(order[i]) < use(order[j])
  }

  lemma ByUseKept(a: seq<nat>, b: seq<nat>, use: nat -> nat)
    requires ByUse(b, use) && KeepsOrder(a, b)
    ensures ByUse(a, use)
  {
    forall i, j | 0 <= i < j < |a| ensures use(a[i]) < use(a[j]) { assert Before(b, a[i], a[j]); }
  }

  lemma ByUseGrows(order: seq<nat>, use: nat -> nat, use': nat -> nat, x: nat)
    requires ByUse(order, use) && forall y :: y in order ==> use'(y) == use(y) < use'(x)
    ensures ByUse(order + [x], use')
  {}

  ghost predicate Sound(b: Books, use: nat -> nat) { Balanced(b, 0) && Distinct(b.order) && ByUse(b.order, use) }

  lemma ReorderedByUse(before: seq<nat>, x: nat, after: seq<nat>, use: nat -> nat, use': nat -> nat)
    requires ByUse(before, use) && Reordered(before, [x], after)
    requires forall y :: y in before && y != x ==> use'(y) == use(y) < use'(x)
    ensures ByUse(after, use')
  {
    var rest: seq<nat> :| && KeepsOrder(rest, before) && KeepsOrder(after, rest + [x])
                          && forall y :: y in rest ==> y in before && y !in [x];
    ByUseKept(rest, before, use);
    ByUseGrows(rest, use, use', x);
    ByUseKept(after, rest + [x], use');
  }

  lemma StepKeepsUse(b: Books, step: Step, b': Books, capacity: nat, use: nat -> nat, use': nat -> nat, now: nat)
    requires Sound(b, use) && Next(b, step, b', capacity)
    requires forall id :: use(id) < now && use'(id) == if Uses(b, step, id) then now else use(id)
    ensures Sound(b', use')
  {
    if step.Insert? {
      InsertReorders(b, step, b', capacity);
      ReorderedByUse(b.order, b.nextId, b'.order, use, use');
    } else if step.Lookup? {
      LookupReorders(b, step, b', capacity);
      ReorderedByUse(b.order, step.e, b'.order, use, use');
    } else {
      OthersReorder(b, step, b', capacity);
      ByUseKept(b'.order, b.order, use);
      assert ByUse(b'.order, use');
    }
  }

  /** In every run the list is in the order in which the handles were last put in or looked up. */
  lemma {:induction false} ListIsByUse(states: seq<Books>, steps: seq<Step>, capacity: nat, n: nat)
    requires Run(states, steps, capacity) && n < |states|
    ensures Sound(states[n], id => LastUse(states, steps, n, id))
  {
    if n > 0 {
      ListIsByUse(states, steps, capacity, n - 1);
      var step := steps[n - 1];
      var use, use' := (id: nat) => LastUse(states, steps, n - 1, id), (id: nat) => LastUse(states, steps, n, id);
      forall id: nat ensures use(id) < n { UsedByNow(states, steps, n - 1, id); }
      StepKeepsUse(states[n - 1], step, states[n], capacity, use, use', n);
    }
  }

  /** What an insertion evicts was last used before everything that it leaves. */
  lemma EvictedWasUsedBefore(
    states: seq<Books>, steps: seq<Step>, capacity: nat, n: nat, x: nat, y: nat)
    requires Run(states, steps, capacity) && n < |steps| && steps[n].Insert?
    requires var step := steps[n]; x in Replaced(states[n], step.h, step.was, step.k).order
    requires x !in states[n + 1].order && y in states[n + 1].order
    ensures LastUse(states, steps, n + 1, x) < LastUse(states, steps, n + 1, y)
  {
    var step, b := steps[n], states[n];
    ListIsByUse(states, steps, capacity, n);
    var use, use' := (id: nat) => LastUse(states, steps, n, id), (id: nat) => LastUse(states, steps, n + 1, id);
    forall id: nat ensures use(id) < n + 1 { UsedByNow(states, steps, n, id); }
    BeforeEviction(b, step, states[n + 1], capacity, use, use', n + 1, x, y);
  }

  lemma BeforeEviction(
    b: Books, step: Step, b': Books, capacity: nat, use: nat -> nat, use': nat -> nat, now: nat, x: nat, y: nat)
    requires Sound(b, use) && step.Insert? && Next(b, step, b', capacity)
    requires forall id :: use(id) < now && use'(id) == if Uses(b, step, id) then now else use(id)
    requires x in Replaced(b, step.h, step.was, step.k).order && x !in b'.order && y in b'.order
    ensures use'(x) < use'(y)
  {
    var d := Replaced(b, step.h, step.was, step.k);
    var none := step.(n := 0);
    assert Next(b, none, d, capacity);
    StepKeepsUse(b, none, d, capacity, use, use', now);
    EvictedOldest(d, step.n, b');
    var m := if step.n < |d.order| then step.n else |d.order|;
    var i :| 0 <= i < |d.order| && d.order[i] == x;
    var j :| 0 <= j < |b'.order| && b'.order[j] == y;
    assert b'.order == d.order[m..] && d.order[m + j] == y;
    InSuffix(d.order, m, i);
  }

  lemma InSuffix(s: seq<nat>, m: nat, i: nat)
    requires m <= |s| && i < |s|
    ensures i >= m ==> s[i] in s[m..]
  {
    if i >= m { assert s[m..][i - m] == s[i]; }
  }
}
