/** One shard of the LRU cache (LRUCache in util/cache.cc): a hash table, a circular list in order of use, and
    reference counts. Handles are numbers; 0 is NULL, and the head of the list. */
module Cache {
  import opened Keys
  import opened HandleTable

  // ----- the circular list

  /** Element `i` of the list, with the head before the first and after the last. */
  function At(s: seq<nat>, i: int): nat { if 0 <= i < |s| then s[i] else 0 }

  /** The pointers between places `i` and `i + 1` agree. */
  ghost predicate Link(next: map<nat, nat>, prev: map<nat, nat>, s: seq<nat>, i: int) {
    && At(s, i) in next && next[At(s, i)] == At(s, i + 1)
    && At(s, i + 1) in prev && prev[At(s, i + 1)] == At(s, i)
  }

  ghost predicate Ring(next: map<nat, nat>, prev: map<nat, nat>, s: seq<nat>) {
    && 0 !in s && Distinct(s)
    && forall i {:trigger Link(next, prev, s, i)} :: -1 <= i < |s| ==> Link(next, prev, s, i)
  }

  function RemoveAt(s: seq<nat>, k: nat): seq<nat>
    requires k < |s|
  {
    s[..k] + s[k + 1..]
  }

  lemma RingRemove(next: map<nat, nat>, prev: map<nat, nat>, s: seq<nat>, k: nat)
    requires Ring(next, prev, s) && k < |s|
    ensures s[k] in next && s[k] in prev
    ensures Ring(next[prev[s[k]] := next[s[k]]], prev[next[s[k]] := prev[s[k]]], RemoveAt(s, k))
  {
    var s', a, c := RemoveAt(s, k), At(s, k - 1), At(s, k + 1);
    assert Link(next, prev, s, k - 1) && Link(next, prev, s, k);
    var next', prev' := next[a := c], prev[c := a];
    forall i {:trigger Link(next', prev', s', i)} | -1 <= i < |s'| ensures Link(next', prev', s', i) {
      if i < k - 1 {
        assert Link(next, prev, s, i);
      } else if i >= k {
        assert Link(next, prev, s, i + 1);
      }
    }
  }

  lemma RingAppend(next: map<nat, nat>, prev: map<nat, nat>, s: seq<nat>, e: nat)
    requires Ring(next, prev, s) && e != 0 && e !in s
    ensures 0 in prev
    ensures var next1, prev1 := next[e := 0], prev[e := prev[0]];
            Ring(next1[prev1[e] := e], prev1[0 := e], s + [e])
  {
    assert Link(next, prev, s, |s| - 1);
    var s', last := s + [e], At(s, |s| - 1);
    var next', prev' := next[e := 0][last := e], prev[e := last][0 := e];
    forall i {:trigger Link(next', prev', s', i)} | -1 <= i < |s'| ensures Link(next', prev', s', i) {
      if i < |s| - 1 { assert Link(next, prev, s, i); }
    }
  }

  // ----- counts and charges

  function Held(external: map<nat, nat>, id: nat): nat { if id in external then external[id] else 0 }

  /** The charges of the live handles numbered below `n`. */
  function Total(handles: map<nat, Handle>, live: set<nat>, n: nat): nat {
    if n == 0 then 0
    else Total(handles, live, n - 1) + if n - 1 in live && n - 1 in handles then handles[n - 1].charge else 0
  }

  lemma {:induction false} TotalRemove(handles: map<nat, Handle>, live: set<nat>, id: nat, n: nat)
    requires id in handles && id in live
    ensures Total(handles, live - {id}, n) + (if id < n then handles[id].charge else 0) == Total(handles, live, n)
  {
    if n > 0 { TotalRemove(handles, live, id, n - 1); }
  }

  lemma {:induction false} TotalAdd(handles: map<nat, Handle>, live: set<nat>, id: nat, h: Handle, n: nat)
    requires n <= id
    ensures Total(handles[id := h], live + {id}, n) == Total(handles, live, n)
  {
    if n > 0 { TotalAdd(handles, live, id, h, n - 1); }
  }

  /** What the cache keeps about its handles; `refs` has the live ones. */
  datatype Books = Books(
    handles: map<nat, Handle>, refs: map<nat, nat>, order: seq<nat>, external: map<nat, nat>,
    usage: nat, nextId: nat, deleted: seq<nat>)

  /** Reasons for a handle to be referenced: the cache, and the callers. */
  function Reasons(b: Books, id: nat): nat { Held(b.external, id) + if id in b.order then 1 else 0 }

  /** Every reference has a reason, but for one more on `extra`. */
  ghost predicate Counted(b: Books, extra: nat) {
    && (forall id :: id in b.refs ==> b.refs[id] == Reasons(b, id) + (if id == extra then 1 else 0) > 0)
    && (forall id :: Reasons(b, id) > 0 ==> id in b.refs)
  }

  /** The handles are numbered in turn; each is alive or was deleted once; and the charges of the live ones are
      counted. */
  ghost predicate Alive(b: Books) {
    && b.nextId > 0 && (forall id :: id in b.handles <==> 0 < id < b.nextId)
    && Distinct(b.deleted)
    && (forall id :: id in b.deleted ==> id in b.handles && id !in b.refs)
    && (forall id :: id in b.handles ==> id in b.refs || id in b.deleted)
    && (forall id :: id in b.refs ==> id in b.handles)
    && b.usage == Total(b.handles, b.refs.Keys, b.nextId)
  }

  ghost predicate Balanced(b: Books, extra: nat) { Counted(b, extra) && Alive(b) }

  /** Unref, as a function of the books. */
  function Unreffed(b: Books, e: nat): Books
    requires MayUnref(b, e)
  {
    if b.refs[e] > 1 then b.(refs := b.refs[e := b.refs[e] - 1])
    else b.(usage := b.usage - b.handles[e].charge, deleted := b.deleted + [e], refs := b.refs - {e})
  }

  lemma UnrefBalances(b: Books, e: nat)
    requires Balanced(b, e) && e in b.refs
    ensures MayUnref(b, e) && Balanced(Unreffed(b, e), 0)
  {
    TotalRemove(b.handles, b.refs.Keys, e, b.nextId);
    UnrefAlive(b, e);
    UnrefCounted(b, e);
  }

  lemma UnrefAlive(b: Books, e: nat)
    requires Alive(b) && MayUnref(b, e)
    requires Total(b.handles, b.refs.Keys - {e}, b.nextId) + b.handles[e].charge == b.usage
    ensures Alive(Unreffed(b, e))
  {
    assert (b.refs - {e}).Keys == b.refs.Keys - {e};
    assert b.refs[e := b.refs[e] - 1].Keys == b.refs.Keys;
  }

  lemma UnrefCounted(b: Books, e: nat)
    requires Counted(b, e) && MayUnref(b, e) && 0 !in b.refs
    ensures Counted(Unreffed(b, e), 0)
  {
    var b' := Unreffed(b, e);
    assert forall id :: Reasons(b', id) == Reasons(b, id);
  }

  lemma RemovedMembers(s: seq<nat>, k: nat)
    requires Distinct(s) && k < |s|
    ensures Distinct(RemoveAt(s, k)) && forall x :: x in RemoveAt(s, k) <==> x in s && x != s[k]
  {
    var t := RemoveAt(s, k);
    forall x ensures x in t <==> x in s && x != s[k] {
      if x in s && x != s[k] {
        var i :| 0 <= i < |s| && s[i] == x;
        assert t[if i < k then i else i - 1] == x;
      }
    }
  }

  /** A caller gives a handle back: one reference has lost its reason. */
  lemma DropHeld(b: Books, e: nat)
    requires Balanced(b, 0) && Held(b.external, e) > 0
    ensures e in b.refs && Balanced(GivenBack(b, e), e)
  {
    var b' := GivenBack(b, e);
    assert Reasons(b, e) > 0;
    assert forall id :: Reasons(b', id) == Reasons(b, id) - if id == e then 1 else 0;
  }

  /** The cache lets go of the handle in place `k`. */
  function LetGo(b: Books, k: nat): Books
    requires k < |b.order|
  {
    b.(order := RemoveAt(b.order, k))
  }

  predicate MayDrop(b: Books, k: nat) { k < |b.order| && MayUnref(b, b.order[k]) }

  function Dropped(b: Books, k: nat): Books
    requires MayDrop(b, k)
  {
    Unreffed(LetGo(b, k), b.order[k])
  }

  lemma LetGoLeavesOne(b: Books, k: nat)
    requires Balanced(b, 0) && Distinct(b.order) && k < |b.order|
    ensures b.order[k] in b.refs && Balanced(LetGo(b, k), b.order[k])
  {
    var b', e := LetGo(b, k), b.order[k];
    RemovedMembers(b.order, k);
    assert Reasons(b, e) > 0;
    assert forall id :: Reasons(b', id) == Reasons(b, id) - if id == e then 1 else 0;
  }

  lemma DropBalances(b: Books, k: nat)
    requires Balanced(b, 0) && Distinct(b.order) && k < |b.order|
    ensures MayDrop(b, k) && Balanced(Dropped(b, k), 0)
  {
    LetGoLeavesOne(b, k);
    UnrefBalances(LetGo(b, k), b.order[k]);
  }

  /** The books with a new handle, referenced by the cache and by the caller. */
  function WithNew(b: Books, h: Handle): Books {
    b.(handles := b.handles[b.nextId := h], refs := b.refs[b.nextId := 2], order := b.order + [b.nextId],
       external := b.external[b.nextId := 1], usage := b.usage + h.charge, nextId := b.nextId + 1)
  }

  lemma NewBalances(b: Books, h: Handle)
    requires Balanced(b, 0)
    ensures b.nextId !in b.handles && b.nextId !in b.order && Balanced(WithNew(b, h), 0)
  {
    assert Reasons(b, b.nextId) == 0;
    NewAlive(b, h);
    NewCounted(b, h);
  }

  lemma NewAlive(b: Books, h: Handle)
    requires Alive(b)
    ensures Alive(WithNew(b, h))
  {
    var b', n := WithNew(b, h), b.nextId;
    TotalAdd(b.handles, b.refs.Keys, n, h, n);
    assert b'.refs.Keys == b.refs.Keys + {n};
  }

  lemma NewCounted(b: Books, h: Handle)
    requires Counted(b, 0) && Reasons(b, b.nextId) == 0 && b.nextId > 0
    ensures Counted(WithNew(b, h), 0)
  {
    var b', n := WithNew(b, h), b.nextId;
    assert forall id :: Reasons(b', id) == if id == n then 2 else Reasons(b, id);
  }

  /** A caller gives a handle back. */
  function GivenBack(b: Books, e: nat): Books
    requires Held(b.external, e) > 0
  {
    b.(external := b.external[e := b.external[e] - 1])
  }

  predicate MayUnref(b: Books, e: nat) {
    e in b.handles && e in b.refs && b.refs[e] > 0 && b.usage >= b.handles[e].charge
  }

  predicate MayRelease(b: Books, e: nat) { Held(b.external, e) > 0 && MayUnref(b, e) }

  function Released(b: Books, e: nat): Books
    requires MayRelease(b, e)
  {
    Unreffed(GivenBack(b, e), e)
  }

  /** A caller takes a handle out of the list's place `k`, and it becomes the newest. */
  predicate MayTake(b: Books, e: nat, k: nat) { e in b.refs && k < |b.order| && b.order[k] == e }

  function Taken(b: Books, e: nat, k: nat): Books
    requires MayTake(b, e, k)
  {
    b.(refs := b.refs[e := b.refs[e] + 1], external := b.external[e := Held(b.external, e) + 1],
       order := RemoveAt(b.order, k) + [e])
  }

  /** A handle in the table is in the list, and alive. */
  lemma Listed(b: Books, chains: seq<seq<nat>>, e: nat) returns (k: nat)
    requires Balanced(b, 0) && SameMembers(chains, b.order) && In(chains, e)
    ensures MayTake(b, e, k)
  {
    k :| 0 <= k < |b.order| && b.order[k] == e;
    assert Reasons(b, e) > 0;
  }

  lemma ReleaseBalances(b: Books, e: nat)
    requires Balanced(b, 0) && Held(b.external, e) > 0
    ensures MayRelease(b, e) && Balanced(Released(b, e), 0)
  {
    DropHeld(b, e);
    UnrefBalances(GivenBack(b, e), e);
  }

  lemma TakeBalances(b: Books, e: nat, k: nat)
    requires Balanced(b, 0) && Distinct(b.order) && MayTake(b, e, k)
    ensures Balanced(Taken(b, e, k), 0)
  {
    MovedMembers(b.order, k);
    var b' := Taken(b, e, k);
    assert b'.refs.Keys == b.refs.Keys;
    assert forall id :: Reasons(b', id) == Reasons(b, id) + if id == e then 1 else 0;
  }

  /** The handle that is taken is the newest; the others stay in their order. */
  lemma TakenIsNewest(b: Books, e: nat, k: nat)
    requires MayTake(b, e, k)
    ensures Taken(b, e, k).order == b.order[..k] + b.order[k + 1..] + [e]
    ensures e in b.refs && Taken(b, e, k).refs == b.refs[e := b.refs[e] + 1]
  {}

  lemma MovedMembers(s: seq<nat>, k: nat)
    requires Distinct(s) && k < |s|
    ensures Distinct(RemoveAt(s, k) + [s[k]]) && s[k] !in RemoveAt(s, k)
    ensures forall x :: x in RemoveAt(s, k) + [s[k]] <==> x in s
  {
    RemovedMembers(s, k);
    var t := RemoveAt(s, k) + [s[k]];
    forall x ensures x in t <==> x in s { assert x in t <==> x in RemoveAt(s, k) || x == s[k]; }
  }

  lemma LinkedGrow(
    handles: map<nat, Handle>, list: seq<nat>, nextHash: map<nat, nat>, chains: seq<seq<nat>>, id: nat, h: Handle)
    requires Linked(handles, list, nextHash, chains) && id !in handles
    ensures Linked(handles[id := h], list, nextHash, chains)
  {
    forall b {:trigger chains[b]} | 0 <= b < |chains| ensures ChainOk(handles[id := h], |chains|, b, chains[b]) {
      forall p, q | 0 <= p < q < |chains[b]| ensures !SameKey(handles[id := h], chains[b][p], chains[b][q]) {
        assert !SameKey(handles, chains[b][p], chains[b][q]);
      }
    }
  }

  /** The table holds exactly the handles of the list. */
  ghost predicate SameMembers(chains: seq<seq<nat>>, order: seq<nat>) {
    forall x :: In(chains, x) <==> x in order
  }

  class LRUCache {
    const capacity: nat
    const table: HandleTable
    var usage: nat
    var handles: map<nat, Handle>
    var refs: map<nat, nat>
    var next: map<nat, nat>
    var prev: map<nat, nat>
    var nextId: nat
    ghost var order: seq<nat>
    ghost var external: map<nat, nat>
    ghost var deleted: seq<nat>

    ghost function B(): Books
      reads this
    {
      Books(handles, refs, order, external, usage, nextId, deleted)
    }

    /** The list and the table, apart from the counts. */
    ghost predicate Structure()
      reads this`next, this`prev, this`order, this`handles, table
    {
      Ring(next, prev, order) && table.Valid(handles) && SameMembers(table.chains, order)
    }

    ghost predicate Valid()
      reads this, table
    {
      Balanced(B(), 0) && Structure()
    }

    constructor (capacity: nat)
      ensures Valid() && this.capacity == capacity && order == [] && usage == 0 && deleted == []
    {
      this.capacity := capacity;
      table := new HandleTable();
      usage, handles, refs, next, prev, nextId := 0, map[], map[], map[0 := 0], map[0 := 0], 1;
      order, external, deleted := [], map[], [];
    }

    /** Unref: the last reference frees the handle and runs its deleter. */
    method Unref(e: nat)
      requires e in handles && e in refs && refs[e] > 0 && usage >= handles[e].charge
      modifies this`usage, this`refs, this`deleted
      ensures B() == Unreffed(old(B()), e)
    {
      var count := refs[e] - 1;
      if count <= 0 {
        usage, deleted := usage - handles[e].charge, deleted + [e];
        refs := refs - {e};
      } else {
        refs := refs[e := count];
      }
    }

    /** LRU_Remove */
    method LruRemove(e: nat, ghost k: nat)
      requires Ring(next, prev, order) && k < |order| && order[k] == e
      modifies this`next, this`prev, this`order
      ensures Ring(next, prev, order) && order == RemoveAt(old(order), k)
    {
      RingRemove(next, prev, order, k);
      var n, p := next[e], prev[e];
      prev := prev[n := p];
      next := next[p := n];
      order := RemoveAt(order, k);
    }

    /** LRU_Append: the handle becomes the newest. */
    method LruAppend(e: nat)
      requires Ring(next, prev, order) && e != 0 && e !in order
      modifies this`next, this`prev, this`order
      ensures Ring(next, prev, order) && order == old(order) + [e]
    {
      RingAppend(next, prev, order, e);
      next, prev := next[e := 0], prev[e := prev[0]];
      next := next[prev[e] := e];
      prev := prev[0 := e];
      order := order + [e];
    }

    /** Release */
    method Release(e: nat)
      requires Valid() && Held(external, e) > 0
      modifies this`usage, this`refs, this`deleted, this`external
      ensures Valid()
      ensures MayRelease(old(B()), e) && B() == Released(old(B()), e)
    {
      ReleaseBalances(B(), e);
      external := external[e := external[e] - 1];
      Unref(e);
    }

    /** A handle is referenced once more and becomes the newest. */
    method Take(e: nat, ghost k: nat)
      requires Ring(next, prev, order) && MayTake(B(), e, k)
      modifies this`refs, this`external, this`next, this`prev, this`order
      ensures Ring(next, prev, order) && B() == Taken(old(B()), e, k)
    {
      MovedMembers(order, k);
      refs, external := refs[e := refs[e] + 1], external[e := Held(external, e) + 1];
      LruRemove(e, k);
      LruAppend(e);
    }

    /** Lookup: the handle that is found is referenced once more and becomes the newest; the others stay in their order. */
    method Lookup(key: Bytes, hash: nat) returns (e: nat, ghost k: nat)
      requires Valid()
      modifies this`refs, this`external, this`next, this`prev, this`order
      ensures Valid()
      ensures Finds(handles, table.chains, key, hash, e)
      ensures e == 0 ==> B() == old(B())
      ensures e != 0 ==> MayTake(old(B()), e, k) && B() == Taken(old(B()), e, k)
      ensures e != 0 ==> && k < |old(order)| && old(order)[k] == e
                         && order == old(order)[..k] + old(order)[k + 1..] + [e]
      ensures e != 0 ==> e in old(refs) && refs == old(refs)[e := old(refs)[e] + 1]
    {
      ghost var b := B();
      e, k := FindAndTake(key, hash);
      if e != 0 { TakenIsNewest(b, e, k); }
    }

    method FindAndTake(key: Bytes, hash: nat) returns (e: nat, ghost k: nat)
      requires Valid()
      modifies this`refs, this`external, this`next, this`prev, this`order
      ensures Valid()
      ensures Finds(handles, table.chains, key, hash, e)
      ensures e == 0 ==> B() == old(B())
      ensures e != 0 ==> MayTake(old(B()), e, k) && B() == Taken(old(B()), e, k)
    {
      e := table.Lookup(handles, key, hash);
      k := 0;
      if e != 0 {
        k := Listed(B(), table.chains, e);
        TakeBalances(B(), e, k);
        MovedMembers(order, k);
        Take(e, k);
      }
    }

    /** LRU_Remove and Unref of a handle that the table has given up. */
    method Drop(e: nat, ghost k: nat)
      requires Ring(next, prev, order) && MayDrop(B(), k) && order[k] == e
      modifies this`usage, this`refs, this`deleted, this`next, this`prev, this`order
      ensures Ring(next, prev, order) && B() == Dropped(old(B()), k)
    {
      LruRemove(e, k);
      Unref(e);
    }

    /** Take a handle out of the table and the list: what Erase, Prune and the evictions do. */
    method Forget(key: Bytes, hash: nat) returns (e: nat, ghost k: nat)
      requires Valid()
      modifies this`usage, this`refs, this`deleted, this`next, this`prev, this`order, table
      ensures Structure() && Finds(handles, old(table.chains), key, hash, e)
      ensures e == 0 ==> B() == old(B())
      ensures e != 0 ==> MayDrop(old(B()), k) && old(order)[k] == e && B() == Dropped(old(B()), k)
    {
      e := table.Remove(handles, key, hash);
      k := 0;
      if e != 0 {
        k := Listed(B(), old(table.chains), e);
        DropBalances(B(), k);
        RemovedMembers(order, k);
        Drop(e, k);
      }
    }

    method Erase(key: Bytes, hash: nat) returns (ghost e: nat, ghost k: nat)
      requires Valid()
      modifies this`usage, this`refs, this`deleted, this`next, this`prev, this`order, table
      ensures Valid()
      ensures Finds(handles, old(table.chains), key, hash, e)
      ensures e == 0 ==> B() == old(B())
      ensures e != 0 ==> MayDrop(old(B()), k) && old(order)[k] == e && B() == Dropped(old(B()), k)
    {
      ghost var b := B();
      var f;
      f, k := Forget(key, hash);
      e := f;
      if e != 0 { DropBalances(b, k); }
    }

    /** Insert, up to the table: a new handle, referenced by the cache and by the caller. */
    method Allocate(h: Handle) returns (e: nat)
      requires Valid()
      modifies this
      ensures e == old(nextId) && B() == WithNew(old(B()), h) && Balanced(B(), 0)
      ensures Ring(next, prev, order) && table.Valid(handles) && e !in old(order)
    {
      NewBalances(B(), h);
      e := nextId;
      LinkedGrow(handles, table.list, table.nextHash, table.chains, e, h);
      LruAppend(e);
      usage, handles, refs, external := usage + h.charge, handles[e := h], refs[e := 2], external[e := 1];
      nextId := nextId + 1;
    }

    /** The handle in place `i` of the list is forgotten. */
    method ForgetAt(e: nat, ghost i: nat)
      requires Valid() && i < |order| && order[i] == e
      modifies this`usage, this`refs, this`deleted, this`next, this`prev, this`order, table
      ensures Valid()
      ensures MayDrop(old(B()), i) && B() == Dropped(old(B()), i)
    {
      DropBalances(B(), i);
      IsFound(B(), table.list, table.nextHash, table.chains, e, i);
      ghost var k;
      var f;
      f, k := Forget(handles[e].key, handles[e].hash);
      assert k == i;
    }

    /** One turn of the eviction loop: the oldest handle goes. */
    method EvictOldest()
      requires Valid() && order != []
      modifies this`usage, this`refs, this`deleted, this`next, this`prev, this`order, table
      ensures Valid()
      ensures MayDrop(old(B()), 0) && B() == Dropped(old(B()), 0)
    {
      RingStarts(next, prev, order);
      ForgetAt(next[0], 0);
    }

    /** The eviction loop: the oldest handles go until the charge fits. */
    method Evict() returns (ghost n: nat)
      requires Valid()
      modifies this`usage, this`refs, this`deleted, this`next, this`prev, this`order, table
      ensures Valid()
      ensures EvictedTo(old(B()), B(), n, capacity) && (usage <= capacity || order == [])
      ensures n <= |old(order)| && order == old(order)[n..]
    {
      n := 0;
      ghost var b := B();
      var more := HasOldest();
      while usage > capacity && more
        invariant Valid()
        invariant EvictedTo(b, B(), n, capacity) && more == (order != [])
        invariant n + |order| == |b.order|
        decreases |order|
      {
        ghost var b1 := B();
        EvictOldest();
        EvictedOne(b, b1, B(), n, capacity);
        more := HasOldest();
        n := n + 1;
      }
      EvictedOldest(b, n, B());
    }

    /** lru_.next != &lru_ */
    method HasOldest() returns (r: bool)
      requires Ring(next, prev, order)
      ensures r == (order != [])
    {
      RingStarts(next, prev, order);
      r := next[0] != 0;
    }

    /** Insert, at the table: an older handle with the same key is dropped. */
    method Replace(e: nat) returns (ghost was: nat, ghost k: nat)
      requires Balanced(B(), 0) && Ring(next, prev, order) && table.Valid(handles)
      requires e != 0 && e in handles && !In(table.chains, e) && e in order
      requires forall x :: In(table.chains, x) <==> x in order && x != e
      modifies this`usage, this`refs, this`deleted, this`next, this`prev, this`order, table
      ensures Structure()
      ensures Finds(handles, old(table.chains), handles[e].key, handles[e].hash, was)
      ensures was == 0 ==> B() == old(B())
      ensures was != 0 ==> MayDrop(old(B()), k) && old(order)[k] == was && B() == Dropped(old(B()), k)
    {
      var found := table.Insert(handles, e);
      was := found;
      k := Replaced(order, old(table.chains), table.chains, e, found);
      if found != 0 {
        DropBalances(B(), k);
        Drop(found, k);
      }
    }

    /** Insert: the new handle is the newest, an older one with its key goes, and then the oldest ones do until the
        charge fits. */
    method Insert(key: Bytes, hash: nat, charge: nat) returns (e: nat, ghost was: nat, ghost k: nat, ghost n: nat)
      requires Valid()
      modifies this, table
      ensures Valid()
      ensures e == old(nextId) && (usage <= capacity || order == [])
      ensures var b := WithNew(old(B()), Handle(key, hash, charge));
              && Finds(b.handles, old(table.chains), key, hash, was)
              && (was != 0 ==> MayDrop(b, k) && b.order[k] == was)
              && EvictedTo(if was == 0 then b else Dropped(b, k), B(), n, capacity)
      ensures was != 0 ==> k < |old(order)| && old(order)[k] == was
      ensures var listed := (if was == 0 then old(order) else old(order)[..k] + old(order)[k + 1..]) + [e];
              n <= |listed| && order == listed[n..]
    {
      e := Allocate(Handle(key, hash, charge));
      ghost var b := B();
      was, k := Replace(e);
      if was != 0 {
        DropBalances(b, k);
        NewStaysLast(b, old(order), e, k, was);
      }
      assert order == (if was == 0 then old(order) else old(order)[..k] + old(order)[k + 1..]) + [e];
      n := Evict();
    }

    /** One turn of Prune's loop: the handle in place `i` goes if nobody holds it. */
    method PruneOne(e: nat, ghost i: nat) returns (gone: bool)
      requires Valid() && i < |order| && order[i] == e
      modifies this`usage, this`refs, this`deleted, this`next, this`prev, this`order, table
      ensures Valid()
      ensures e in old(refs) && gone == (old(refs)[e] == 1)
      ensures if gone then MayDrop(old(B()), i) && B() == Dropped(old(B()), i) else B() == old(B())
    {
      assert Reasons(B(), e) > 0;
      gone := refs[e] == 1;
      if gone { ForgetAt(e, i); }
    }

    /** Prune: every handle that only the cache holds goes. */
    method Prune()
      requires Valid()
      modifies this`usage, this`refs, this`deleted, this`next, this`prev, this`order, table
      ensures Valid()
      ensures B() == Pruned(old(B()), 0)
    {
      ghost var i, b := 0, B();
      RingStarts(next, prev, order);
      var e := next[0];
      while e != 0
        invariant Valid()
        invariant PrunedTo(b, B(), i, e)
        decreases |order| - i
      {
        ghost var b1 := B();
        NotAtEnd(b1, i, e);
        var following := Following(e, i);
        var gone := PruneOne(e, i);
        PrunedOne(b, b1, B(), i, e, gone, following);
        if !gone { i := i + 1; }
        e := following;
      }
      AtEnd(B(), i, next, prev);
    }

    /** e->next */
    method Following(e: nat, ghost i: nat) returns (f: nat)
      requires Ring(next, prev, order) && i < |order| && order[i] == e
      ensures f == At(order, i + 1)
    {
      assert Link(next, prev, order, i);
      f := next[e];
    }
  }

  /** The handle that is replaced is not the one that was just appended. */
  lemma NewStaysLast(b: Books, order: seq<nat>, e: nat, k: nat, was: nat)
    requires MayDrop(b, k) && b.order == order + [e] && e !in order && b.order[k] == was && was != e
    ensures k < |order| && Dropped(b, k).order == order[..k] + order[k + 1..] + [e]
  {
    NotTheLast(order, e, k, was);
  }

  lemma NotTheLast(order: seq<nat>, e: nat, k: nat, was: nat)
    requires e !in order && k < |order + [e]| && (order + [e])[k] == was && was != e
    ensures k < |order| && RemoveAt(order + [e], k) == order[..k] + order[k + 1..] + [e]
  {}

  /** The places before `i` have been pruned, `e` is next. */
  ghost predicate PrunedTo(b: Books, b': Books, i: nat, e: nat) {
    i <= |b'.order| && e == At(b'.order, i) && Pruned(b', i) == Pruned(b, 0)
  }

  lemma NotAtEnd(b: Books, i: nat, e: nat)
    requires i <= |b.order| && e == At(b.order, i) && e != 0
    ensures i < |b.order| && b.order[i] == e
  {}

  lemma AtEnd(b: Books, i: nat, next: map<nat, nat>, prev: map<nat, nat>)
    requires i <= |b.order| && At(b.order, i) == 0 && Ring(next, prev, b.order)
    ensures i == |b.order| && Pruned(b, i) == b
  {}

  lemma PrunedOne(b: Books, b1: Books, b2: Books, i: nat, e: nat, gone: bool, following: nat)
    requires PrunedTo(b, b1, i, e) && i < |b1.order| && e in b1.refs && following == At(b1.order, i + 1)
    requires gone == (b1.refs[e] == 1) && if gone then MayDrop(b1, i) && b2 == Dropped(b1, i) else b2 == b1
    ensures PrunedTo(b, b2, if gone then i else i + 1, following)
    ensures |b2.order| - (if gone then i else i + 1) < |b1.order| - i
  {}

  /** Prune from place `i` on. */
  function Pruned(b: Books, i: nat): Books
    decreases |b.order| - i
  {
    if i >= |b.order| then b
    else if MayDrop(b, i) && b.refs[b.order[i]] == 1 then Pruned(Dropped(b, i), i)
    else Pruned(b, i + 1)
  }

  /** Once the replaced handle is out of the list, the list and the table have the same members. */
  lemma Replaced(order: seq<nat>, chains: seq<seq<nat>>, chains': seq<seq<nat>>, e: nat, was: nat) returns (k: nat)
    requires Distinct(order) && 0 !in order && e in order
    requires forall x :: In(chains, x) <==> x in order && x != e
    requires forall x :: In(chains', x) <==> x == e || (In(chains, x) && x != was)
    requires was != 0 ==> In(chains, was)
    ensures was == 0 ==> SameMembers(chains', order)
    ensures was != 0 ==> k < |order| && order[k] == was && SameMembers(chains', RemoveAt(order, k))
  {
    k := 0;
    if was != 0 {
      k :| 0 <= k < |order| && order[k] == was;
      RemovedMembers(order, k);
    }
  }

  /** The `n` oldest handles went, and the last of them had to. */
  ghost predicate EvictedTo(b: Books, b': Books, n: nat, capacity: nat) {
    b' == Evicted(b, n) && (n > 0 ==> Evicted(b, n - 1).usage > capacity)
  }

  lemma EvictedOne(b: Books, b1: Books, b2: Books, n: nat, capacity: nat)
    requires EvictedTo(b, b1, n, capacity) && b1.usage > capacity && MayDrop(b1, 0) && b2 == Dropped(b1, 0)
    ensures EvictedTo(b, b2, n + 1, capacity) && |b2.order| == |b1.order| - 1
  {}

  /** A handle in the list is the one that its key finds. */
  lemma IsFound(b: Books, list: seq<nat>, nextHash: map<nat, nat>, chains: seq<seq<nat>>, id: nat, i: nat)
    requires Balanced(b, 0) && Linked(b.handles, list, nextHash, chains) && SameMembers(chains, b.order)
    requires i < |b.order| && id == b.order[i] && Distinct(b.order)
    ensures id in b.handles
    ensures forall e :: Finds(b.handles, chains, b.handles[id].key, b.handles[id].hash, e) ==> e != 0 && e == id
  {
    assert Reasons(b, id) > 0 && In(chains, id);
    forall e | Finds(b.handles, chains, b.handles[id].key, b.handles[id].hash, e) ensures e == id {
      if e != 0 { OneHandlePerKey(b.handles, list, nextHash, chains, e, id); }
    }
    InBucket(b.handles, list, nextHash, chains, id);
  }

  lemma RingStarts(next: map<nat, nat>, prev: map<nat, nat>, s: seq<nat>)
    requires Ring(next, prev, s)
    ensures 0 in next && next[0] == At(s, 0) && (next[0] == 0 <==> s == [])
  {
    assert Link(next, prev, s, -1);
  }

  /** Evicting the `n` oldest handles. */
  function Evicted(b: Books, n: nat): Books {
    if n == 0 then b
    else
      var before := Evicted(b, n - 1);
      if MayDrop(before, 0) then Dropped(before, 0) else before
  }

  // ----- what the operations come to

  /** Eviction takes the oldest handles: the rest of the list stays as it is. */
  lemma {:induction false} EvictedOldest(b: Books, n: nat, b': Books)
    requires Balanced(b, 0) && Distinct(b.order) && b' == Evicted(b, n)
    ensures Balanced(b', 0) && Distinct(b'.order) && b'.external == b.external
    ensures b'.order == b.order[if n < |b.order| then n else |b.order|..]
  {
    if n > 0 {
      var before := Evicted(b, n - 1);
      EvictedOldest(b, n - 1, before);
      if before.order != [] { OldestGoes(before); Tail(b.order, n - 1); }
    }
  }

  lemma Tail(s: seq<nat>, n: nat)
    requires n < |s|
    ensures s[n..][1..] == s[n + 1..]
  {}

  lemma OldestGoes(b: Books)
    requires Balanced(b, 0) && Distinct(b.order) && b.order != []
    ensures MayDrop(b, 0) && Balanced(Dropped(b, 0), 0) && Distinct(Dropped(b, 0).order)
    ensures Dropped(b, 0).order == b.order[1..] && Dropped(b, 0).external == b.external
  {
    DropBalances(b, 0);
    RemovedMembers(b.order, 0);
  }

  lemma PlaceGoes(b: Books, i: nat)
    requires Balanced(b, 0) && Distinct(b.order) && i < |b.order|
    ensures MayDrop(b, i) && b.refs[b.order[i]] == Held(b.external, b.order[i]) + 1
    ensures var b' := Dropped(b, i);
            && Balanced(b', 0) && Distinct(b'.order) && b'.external == b.external
            && |b'.order| == |b.order| - 1 && (forall j :: 0 <= j < i ==> b'.order[j] == b.order[j])
            && forall id :: id in b'.order <==> id in b.order && id != b.order[i]
  {
    DropBalances(b, i);
    RemovedMembers(b.order, i);
    assert Reasons(b, b.order[i]) == Held(b.external, b.order[i]) + 1;
  }

  /** Prune keeps exactly the handles that a caller holds. */
  lemma {:induction false} PrunedHeld(b: Books, i: nat, b': Books)
    requires Balanced(b, 0)
    requires Distinct(b.order) && i <= |b.order| && b' == Pruned(b, i)
    requires forall j :: 0 <= j < i ==> Held(b.external, b.order[j]) > 0
    ensures Balanced(b', 0)
    ensures b'.external == b.external
    ensures forall id :: id in b'.order <==> id in b.order && Held(b.external, id) > 0
    decreases |b.order| - i
  {
    if i < |b.order| {
      var e := b.order[i];
      PlaceGoes(b, i);
      if b.refs[e] == 1 {
        assert b' == Pruned(Dropped(b, i), i);
        forall j | 0 <= j < i ensures Held(Dropped(b, i).external, Dropped(b, i).order[j]) > 0 {
          assert Dropped(b, i).order[j] == b.order[j];
        }
        PrunedHeld(Dropped(b, i), i, b');
      } else {
        PrunedHeld(b, i + 1, b');
      }
    } else {
      forall id | id in b.order ensures Held(b.external, id) > 0 {
        var j :| 0 <= j < |b.order| && b.order[j] == id;
      }
    }
  }
}
