/** The chained hash table of the cache (HandleTable in util/cache.cc). A handle is a number, 0 is NULL; the chains
    run through the next_hash fields of the handles. */
module HandleTable {
  import opened Keys

  /** The fields of a handle that never change. */
  datatype Handle = Handle(key: Bytes, hash: nat, charge: nat)

  /** A place that holds a pointer: a bucket, or the next_hash field of a handle. */
  datatype Slot = Bucket(b: nat) | After(id: nat)

  function Get(chain: seq<nat>, p: nat): nat { if p < |chain| then chain[p] else 0 }

  /** The chain starts at this pointer and follows next_hash. */
  ghost predicate Path(head: nat, nextHash: map<nat, nat>, chain: seq<nat>) {
    && head == Get(chain, 0)
    && forall p {:trigger chain[p]} :: 0 <= p < |chain| ==>
         chain[p] != 0 && chain[p] in nextHash && nextHash[chain[p]] == Get(chain, p + 1)
  }

  /** The handles of a chain are distinct, belong into its bucket, and no two have the same key. */
  ghost predicate ChainOk(handles: map<nat, Handle>, length: nat, b: nat, chain: seq<nat>)
    requires length > 0
  {
    && (forall p :: 0 <= p < |chain| ==> chain[p] in handles && handles[chain[p]].hash % length == b)
    && (forall p, q :: 0 <= p < q < |chain| ==> !SameKey(handles, chain[p], chain[q]))
  }

  ghost predicate SameKey(handles: map<nat, Handle>, x: nat, y: nat) {
    x in handles && y in handles && handles[x].key == handles[y].key && handles[x].hash == handles[y].hash
  }

  predicate Matches(h: Handle, key: Bytes, hash: nat) { h.hash == hash && h.key == key }

  /** All chains. */
  ghost predicate Linked(handles: map<nat, Handle>, list: seq<nat>, nextHash: map<nat, nat>, chains: seq<seq<nat>>) {
    && |list| == |chains| > 0
    && forall b {:trigger chains[b]} :: 0 <= b < |chains| ==>
         Path(list[b], nextHash, chains[b]) && ChainOk(handles, |chains|, b, chains[b])
  }

  /** The handles in the table. */
  ghost predicate In(chains: seq<seq<nat>>, id: nat) {
    exists b :: 0 <= b < |chains| && id in chains[b]
  }

  function Count(chains: seq<seq<nat>>, k: nat): nat
    requires k <= |chains|
  {
    if k == 0 then 0 else Count(chains, k - 1) + |chains[k - 1]|
  }

  function SlotAt(b: nat, chain: seq<nat>, p: nat): Slot
    requires p <= |chain|
  {
    if p == 0 then Bucket(b) else After(chain[p - 1])
  }

  /** A chain without the handle at `p`, or with another one there or at its end. */
  function Cut(chain: seq<nat>, p: nat): seq<nat>
    requires p < |chain|
  {
    chain[..p] + chain[p + 1..]
  }

  function Place(chain: seq<nat>, p: nat, id: nat): seq<nat>
    requires p <= |chain|
  {
    chain[..p] + [id] + if p < |chain| then chain[p + 1..] else []
  }

  // ----- pointers and chains

  /** The store `*ptr = v`, seen from the buckets and from the handles. */
  function StoreList(list: seq<nat>, slot: Slot, v: nat): seq<nat> {
    if slot.Bucket? && slot.b < |list| then list[slot.b := v] else list
  }

  function StoreNext(nextHash: map<nat, nat>, slot: Slot, v: nat): map<nat, nat> {
    if slot.After? then nextHash[slot.id := v] else nextHash
  }

  lemma PathPut(head: nat, nextHash: map<nat, nat>, chain: seq<nat>, p: nat, id: nat, b: nat)
    requires Path(head, nextHash, chain) && p <= |chain| && id != 0 && id !in chain && Distinct(chain)
    ensures var next1 := nextHash[id := Get(chain, p + 1)];
            var slot := SlotAt(b, chain, p);
            Path(if p == 0 then id else head, StoreNext(next1, slot, id), Place(chain, p, id))
  {
    var next1, slot, chain' := nextHash[id := Get(chain, p + 1)], SlotAt(b, chain, p), Place(chain, p, id);
    var next' := StoreNext(next1, slot, id);
    forall q {:trigger chain'[q]} | 0 <= q < |chain'|
      ensures chain'[q] != 0 && chain'[q] in next' && next'[chain'[q]] == Get(chain', q + 1)
    {
      if q != p { assert chain'[q] == chain[q]; }
    }
  }

  lemma CutAt(chain: seq<nat>, p: nat, q: nat)
    requires p < |chain|
    ensures Get(Cut(chain, p), q) == Get(chain, if q < p then q else q + 1)
    ensures q < |chain| - 1 ==> Cut(chain, p)[q] == chain[if q < p then q else q + 1]
  {}

  lemma PathCut(head: nat, nextHash: map<nat, nat>, chain: seq<nat>, p: nat, b: nat)
    requires Path(head, nextHash, chain) && p < |chain| && Distinct(chain)
    ensures var slot := SlotAt(b, chain, p);
            Path(if p == 0 then Get(chain, 1) else head, StoreNext(nextHash, slot, Get(chain, p + 1)), Cut(chain, p))
  {
    var slot, chain' := SlotAt(b, chain, p), Cut(chain, p);
    var next' := StoreNext(nextHash, slot, Get(chain, p + 1));
    forall q {:trigger chain'[q]} | 0 <= q < |chain'|
      ensures chain'[q] != 0 && chain'[q] in next' && next'[chain'[q]] == Get(chain', q + 1)
    {
      CutAt(chain, p, q);
      CutAt(chain, p, q + 1);
    }
  }

  predicate Distinct(chain: seq<nat>) { forall p, q :: 0 <= p < q < |chain| ==> chain[p] != chain[q] }

  lemma ChainDistinct(handles: map<nat, Handle>, length: nat, b: nat, chain: seq<nat>)
    requires length > 0 && ChainOk(handles, length, b, chain)
    ensures Distinct(chain)
  {
    forall p, q | 0 <= p < q < |chain| ensures chain[p] != chain[q] { assert !SameKey(handles, chain[p], chain[q]); }
  }

  lemma PathKept(head: nat, nextHash: map<nat, nat>, chain: seq<nat>, next': map<nat, nat>)
    requires Path(head, nextHash, chain)
    requires forall p :: 0 <= p < |chain| && chain[p] in nextHash ==>
               chain[p] in next' && next'[chain[p]] == nextHash[chain[p]]
    ensures Path(head, next', chain)
  {}

  /** Handles in different buckets are different. */
  lemma OtherBucket(handles: map<nat, Handle>, chains: seq<seq<nat>>, b: nat, c: nat, p: nat, q: nat)
    requires 0 <= b < |chains| && 0 <= c < |chains| && b != c && p < |chains[b]| && q < |chains[c]|
    requires ChainOk(handles, |chains|, b, chains[b]) && ChainOk(handles, |chains|, c, chains[c])
    ensures chains[b][p] != chains[c][q]
  {}

  /** The table after a handle is put in place `p` of its chain. */
  lemma LinkedPut(
    handles: map<nat, Handle>, list: seq<nat>, nextHash: map<nat, nat>, chains: seq<seq<nat>>, b: nat, p: nat, id: nat)
    requires Linked(handles, list, nextHash, chains) && b < |chains| && p <= |chains[b]|
    requires id in handles && id != 0 && !In(chains, id) && handles[id].hash % |chains| == b
    requires forall q :: 0 <= q < |chains[b]| && q != p ==> !SameKey(handles, chains[b][q], id)
    ensures var next1 := nextHash[id := Get(chains[b], p + 1)];
            var slot := SlotAt(b, chains[b], p);
            Linked(handles, StoreList(list, slot, id), StoreNext(next1, slot, id), chains[b := Place(chains[b], p, id)])
  {
    var next1, slot, chain := nextHash[id := Get(chains[b], p + 1)], SlotAt(b, chains[b], p), chains[b];
    var list', next', chains' := StoreList(list, slot, id), StoreNext(next1, slot, id), chains[b := Place(chain, p, id)];
    ChainDistinct(handles, |chains|, b, chain);
    PathPut(list[b], nextHash, chain, p, id, b);
    PutOk(handles, |chains|, b, chain, p, id);
    forall c {:trigger chains'[c]} | 0 <= c < |chains'| && c != b
      ensures Path(list'[c], next', chains'[c]) && ChainOk(handles, |chains'|, c, chains'[c])
    {
      assert chains'[c] == chains[c];
      forall q | 0 <= q < |chains[c]| ensures chains[c][q] != id && (p > 0 ==> chains[c][q] != chain[p - 1]) {
        assert chains[c][q] in chains[c];
        if p > 0 { OtherBucket(handles, chains, b, c, p - 1, q); }
      }
      PathKept(list[c], nextHash, chains[c], next');
    }
  }

  lemma PutOk(handles: map<nat, Handle>, length: nat, b: nat, chain: seq<nat>, p: nat, id: nat)
    requires length > 0 && ChainOk(handles, length, b, chain) && p <= |chain| && id in handles
    requires handles[id].hash % length == b
    requires forall q :: 0 <= q < |chain| && q != p ==> !SameKey(handles, chain[q], id)
    ensures ChainOk(handles, length, b, Place(chain, p, id))
  {
    var chain' := Place(chain, p, id);
    forall q, r | 0 <= q < r < |chain'| ensures !SameKey(handles, chain'[q], chain'[r]) {
      assert q != p ==> chain'[q] == chain[q];
      assert r != p ==> chain'[r] == chain[r];
    }
  }

  /** The table after the handle in place `p` is taken out. */
  lemma LinkedCut(
    handles: map<nat, Handle>, list: seq<nat>, nextHash: map<nat, nat>, chains: seq<seq<nat>>, b: nat, p: nat)
    requires Linked(handles, list, nextHash, chains) && b < |chains| && p < |chains[b]|
    ensures var slot, v := SlotAt(b, chains[b], p), Get(chains[b], p + 1);
            Linked(handles, StoreList(list, slot, v), StoreNext(nextHash, slot, v), chains[b := Cut(chains[b], p)])
  {
    var slot, v, chain := SlotAt(b, chains[b], p), Get(chains[b], p + 1), chains[b];
    var list', next', chains' := StoreList(list, slot, v), StoreNext(nextHash, slot, v), chains[b := Cut(chain, p)];
    ChainDistinct(handles, |chains|, b, chain);
    PathCut(list[b], nextHash, chain, p, b);
    CutOk(handles, |chains|, b, chain, p);
    forall c {:trigger chains'[c]} | 0 <= c < |chains'| && c != b
      ensures Path(list'[c], next', chains'[c]) && ChainOk(handles, |chains'|, c, chains'[c])
    {
      assert chains'[c] == chains[c];
      forall q | 0 <= q < |chains[c]| ensures p > 0 ==> chains[c][q] != chain[p - 1] {
        if p > 0 { OtherBucket(handles, chains, b, c, p - 1, q); }
      }
      PathKept(list[c], nextHash, chains[c], next');
    }
  }

  lemma CutOk(handles: map<nat, Handle>, length: nat, b: nat, chain: seq<nat>, p: nat)
    requires length > 0 && ChainOk(handles, length, b, chain) && p < |chain|
    ensures ChainOk(handles, length, b, Cut(chain, p))
  {
    var chain' := Cut(chain, p);
    assert forall q :: 0 <= q < |chain'| ==> chain'[q] == chain[if q < p then q else q + 1];
  }

  lemma {:induction false} CountUpdate(chains: seq<seq<nat>>, b: nat, chain: seq<nat>, k: nat)
    requires b < |chains| && k <= |chains|
    ensures Count(chains[b := chain], k) == Count(chains, k) + if b < k then |chain| - |chains[b]| else 0
  {
    if k > 0 { CountUpdate(chains, b, chain, k - 1); }
  }

  /** Two handles in the table with the same key are the same. */
  lemma OneHandlePerKey(
    handles: map<nat, Handle>, list: seq<nat>, nextHash: map<nat, nat>, chains: seq<seq<nat>>, x: nat, y: nat)
    requires Linked(handles, list, nextHash, chains) && In(chains, x) && In(chains, y) && SameKey(handles, x, y)
    ensures x == y
  {
    var b :| 0 <= b < |chains| && x in chains[b];
    var c :| 0 <= c < |chains| && y in chains[c];
    var p :| 0 <= p < |chains[b]| && chains[b][p] == x;
    var q :| 0 <= q < |chains[c]| && chains[c][q] == y;
    assert ChainOk(handles, |chains|, b, chains[b]) && ChainOk(handles, |chains|, c, chains[c]);
  }

  lemma InBucket(
    handles: map<nat, Handle>, list: seq<nat>, nextHash: map<nat, nat>, chains: seq<seq<nat>>, x: nat)
    requires Linked(handles, list, nextHash, chains) && In(chains, x)
    ensures x != 0 && x in handles && x in chains[handles[x].hash % |chains|]
  {
    var b :| 0 <= b < |chains| && x in chains[b];
    var p :| 0 <= p < |chains[b]| && chains[b][p] == x;
    assert Path(list[b], nextHash, chains[b]) && ChainOk(handles, |chains|, b, chains[b]);
  }

  // ----- Resize

  /** A handle is put in front of its new chain. */
  lemma LinkedPush(
    handles: map<nat, Handle>, list: seq<nat>, nextHash: map<nat, nat>, chains: seq<seq<nat>>, b: nat, id: nat)
    requires Linked(handles, list, nextHash, chains) && b < |chains| && id in handles && id != 0
    requires handles[id].hash % |chains| == b && !In(chains, id)
    requires forall x :: In(chains, x) ==> !SameKey(handles, x, id)
    ensures Linked(handles, list[b := id], nextHash[id := list[b]], chains[b := [id] + chains[b]])
  {
    var list', next', chains' := list[b := id], nextHash[id := list[b]], chains[b := [id] + chains[b]];
    forall c {:trigger chains'[c]} | 0 <= c < |chains'|
      ensures Path(list'[c], next', chains'[c]) && ChainOk(handles, |chains'|, c, chains'[c])
    {
      forall q | 0 <= q < |chains[c]| ensures chains[c][q] != id && !SameKey(handles, chains[c][q], id) {
        assert chains[c][q] in chains[c] && In(chains, chains[c][q]);
      }
      PathKept(list[c], nextHash, chains[c], next');
      if c == b { PushPath(list[b], next', chains[b], id); PushOk(handles, |chains|, b, chains[b], id); }
    }
  }

  lemma PushPath(head: nat, nextHash: map<nat, nat>, chain: seq<nat>, id: nat)
    requires Path(head, nextHash, chain) && id != 0 && id in nextHash && nextHash[id] == head
    ensures Path(id, nextHash, [id] + chain)
  {
    var chain' := [id] + chain;
    forall q {:trigger chain'[q]} | 0 <= q < |chain'|
      ensures chain'[q] != 0 && chain'[q] in nextHash && nextHash[chain'[q]] == Get(chain', q + 1)
    {
      if q > 0 { assert chain'[q] == chain[q - 1]; }
    }
  }

  lemma PushOk(handles: map<nat, Handle>, length: nat, b: nat, chain: seq<nat>, id: nat)
    requires length > 0 && ChainOk(handles, length, b, chain) && id in handles && handles[id].hash % length == b
    requires forall q :: 0 <= q < |chain| ==> !SameKey(handles, chain[q], id)
    ensures ChainOk(handles, length, b, [id] + chain)
  {
    var chain' := [id] + chain;
    forall q, r | 0 <= q < r < |chain'| ensures !SameKey(handles, chain'[q], chain'[r]) {
      assert chain'[r] == chain[r - 1] && (q > 0 ==> chain'[q] == chain[q - 1]);
    }
  }

  /** What is left of an old chain, from place `p` on. */
  ghost predicate Rest(nextHash: map<nat, nat>, chain: seq<nat>, p: nat) {
    forall q {:trigger chain[q]} :: p <= q < |chain| ==>
      chain[q] != 0 && chain[q] in nextHash && nextHash[chain[q]] == Get(chain, q + 1)
  }

  /** The chains before `i`, and chain `i` up to `p`, have been moved. */
  ghost predicate Moved(chains: seq<seq<nat>>, i: nat, p: nat, x: nat) {
    || (exists c :: 0 <= c < i && c < |chains| && x in chains[c])
    || (i < |chains| && p <= |chains[i]| && x in chains[i][..p])
  }

  ghost predicate Moving(
    handles: map<nat, Handle>, chains: seq<seq<nat>>, i: nat, p: nat,
    list: seq<nat>, nextHash: map<nat, nat>, chains': seq<seq<nat>>)
  {
    && i <= |chains| && (i < |chains| ==> p <= |chains[i]|) && (i == |chains| ==> p == 0)
    && Linked(handles, list, nextHash, chains') && |chains| > 0
    && (forall c {:trigger chains[c]} :: 0 <= c < |chains| ==> ChainOk(handles, |chains|, c, chains[c]))
    && (i < |chains| ==> Rest(nextHash, chains[i], p))
    && (forall c {:trigger chains[c]} :: i < c < |chains| ==> Rest(nextHash, chains[c], 0))
    && (forall x :: In(chains', x) <==> Moved(chains, i, p, x))
    && Count(chains', |chains'|) == Count(chains, i) + p
  }

  /** A handle that is still to be moved has no equal among those that were moved. */
  lemma NotMoved(handles: map<nat, Handle>, chains: seq<seq<nat>>, i: nat, p: nat, x: nat)
    requires i < |chains| && p < |chains[i]| && Moved(chains, i, p, x)
    requires forall c {:trigger chains[c]} :: 0 <= c < |chains| ==> ChainOk(handles, |chains|, c, chains[c])
    ensures !SameKey(handles, x, chains[i][p]) && x != chains[i][p]
  {
    assert ChainOk(handles, |chains|, i, chains[i]);
    if c :| 0 <= c < i && c < |chains| && x in chains[c] {
      assert ChainOk(handles, |chains|, c, chains[c]);
      var q :| 0 <= q < |chains[c]| && chains[c][q] == x;
    } else {
      var q :| 0 <= q < p && chains[i][..p][q] == x;
      assert chains[i][q] == x;
    }
  }

  /** One turn of Resize's inner loop. */
  lemma MoveOne(
    handles: map<nat, Handle>, chains: seq<seq<nat>>, i: nat, p: nat,
    list: seq<nat>, nextHash: map<nat, nat>, chains': seq<seq<nat>>, id: nat, b: nat)
    requires Moving(handles, chains, i, p, list, nextHash, chains') && i < |chains| && p < |chains[i]|
    requires id == chains[i][p] && id in handles && b == handles[id].hash % |chains'|
    ensures Moving(handles, chains, i, p + 1, list[b := id], nextHash[id := list[b]], chains'[b := [id] + chains'[b]])
  {
    forall x | In(chains', x) ensures !SameKey(handles, x, id) && x != id { NotMoved(handles, chains, i, p, x); }
    LinkedPush(handles, list, nextHash, chains', b, id);
    RestKept(handles, chains, i, p, nextHash, list[b]);
    MovedMore(chains, i, p, chains', b, id, chains'[b := [id] + chains'[b]], p + 1);
    CountUpdate(chains', b, [id] + chains'[b], |chains'|);
  }

  lemma RestKept(
    handles: map<nat, Handle>, chains: seq<seq<nat>>, i: nat, p: nat, nextHash: map<nat, nat>, v: nat)
    requires i < |chains| && p < |chains[i]|
    requires forall c {:trigger chains[c]} :: 0 <= c < |chains| ==> ChainOk(handles, |chains|, c, chains[c])
    requires Rest(nextHash, chains[i], p)
    requires forall c {:trigger chains[c]} :: i < c < |chains| ==> Rest(nextHash, chains[c], 0)
    ensures Rest(nextHash[chains[i][p] := v], chains[i], p + 1)
    ensures forall c {:trigger chains[c]} :: i < c < |chains| ==> Rest(nextHash[chains[i][p] := v], chains[c], 0)
  {
    ChainDistinct(handles, |chains|, i, chains[i]);
    forall c {:trigger chains[c]} | i < c < |chains| ensures Rest(nextHash[chains[i][p] := v], chains[c], 0) {
      forall q | 0 <= q < |chains[c]| ensures chains[c][q] != chains[i][p] {
        OtherBucket(handles, chains, c, i, q, p);
      }
    }
  }

  lemma MovedMore(
    chains: seq<seq<nat>>, i: nat, p: nat, chains': seq<seq<nat>>, b: nat, id: nat, after: seq<seq<nat>>, p': nat)
    requires i < |chains| && p < |chains[i]| && id == chains[i][p] && b < |chains'|
    requires after == chains'[b := [id] + chains'[b]] && p' == p + 1
    requires forall x :: In(chains', x) <==> Moved(chains, i, p, x)
    ensures forall x :: In(after, x) <==> Moved(chains, i, p', x)
  {
    assert chains[i][..p + 1] == chains[i][..p] + [id];
    forall x ensures In(after, x) <==> In(chains', x) || x == id {
      if In(chains', x) {
        var c :| 0 <= c < |chains'| && x in chains'[c];
        assert x in after[c];
      }
      if x == id { assert x in after[b]; }
      if In(after, x) {
        var c :| 0 <= c < |after| && x in after[c];
        assert x == id || x in chains'[c];
      }
    }
  }

  /** The next chain begins. */
  lemma NextChain(
    handles: map<nat, Handle>, chains: seq<seq<nat>>, i: nat, p: nat,
    list: seq<nat>, nextHash: map<nat, nat>, chains': seq<seq<nat>>)
    requires Moving(handles, chains, i, p, list, nextHash, chains') && i < |chains| && p == |chains[i]|
    ensures Moving(handles, chains, i + 1, 0, list, nextHash, chains')
  {
    var i', p' := i + 1, 0;
    assert chains[i][..p] == chains[i];
    forall x ensures Moved(chains, i, p, x) <==> Moved(chains, i', p', x) {
      if c :| 0 <= c < i' && c < |chains| && x in chains[c] { assert c < i || x in chains[i]; }
    }
  }

  predicate IsPowerOfTwo(n: nat) { n == 1 || (n > 1 && n % 2 == 0 && IsPowerOfTwo(n / 2)) }

  /** Resize: every handle goes into the bucket of its hash in a new array. The buckets' number is a power of two, so
      the source's mask takes the remainder. */
  method Resize(handles: map<nat, Handle>, list: seq<nat>, nextHash: map<nat, nat>, elems: nat, ghost chains: seq<seq<nat>>)
    returns (list': seq<nat>, nextHash': map<nat, nat>, ghost chains': seq<seq<nat>>)
    requires Linked(handles, list, nextHash, chains) && elems == Count(chains, |chains|)
    ensures Linked(handles, list', nextHash', chains') && elems == Count(chains', |chains'|)
    ensures forall x :: In(chains', x) <==> In(chains, x)
    ensures |list'| >= 4 && |list'| >= elems && IsPowerOfTwo(|list'|) && (|list'| == 4 || |list'| / 2 < elems)
  {
    var length := 4;
    assert IsPowerOfTwo(2);
    while length < elems
      invariant length >= 4 && IsPowerOfTwo(length) && (length == 4 || length / 2 < elems)
    {
      length := length * 2;
    }
    list', nextHash' := seq(length, i => 0), nextHash;
    chains' := seq(length, i => []);
    Empty(handles, list', nextHash', chains', chains);
    var i := 0;
    while i < |list|
      invariant i <= |list| && |list'| == length
      invariant Moving(handles, chains, i, 0, list', nextHash', chains')
    {
      list', nextHash', chains' := MoveChain(handles, list, nextHash', chains, i, list', chains');
      i := i + 1;
    }
    Done(handles, chains, list', nextHash', chains');
  }

  lemma Empty(
    handles: map<nat, Handle>, list': seq<nat>, nextHash: map<nat, nat>, chains': seq<seq<nat>>, chains: seq<seq<nat>>)
    requires |chains| > 0 && |list'| == |chains'| > 0 && chains' == seq(|chains'|, i => []) && list' == seq(|list'|, i => 0)
    requires forall c {:trigger chains[c]} :: 0 <= c < |chains| ==>
               ChainOk(handles, |chains|, c, chains[c]) && Rest(nextHash, chains[c], 0)
    ensures Moving(handles, chains, 0, 0, list', nextHash, chains')
  {
    EmptyCount(chains', |chains'|);
  }

  lemma {:induction false} EmptyCount(chains: seq<seq<nat>>, k: nat)
    requires k <= |chains| && forall b :: 0 <= b < |chains| ==> chains[b] == []
    ensures Count(chains, k) == 0
  {
    if k > 0 { EmptyCount(chains, k - 1); }
  }

  lemma Done(
    handles: map<nat, Handle>, chains: seq<seq<nat>>, list': seq<nat>, nextHash: map<nat, nat>, chains': seq<seq<nat>>)
    requires Moving(handles, chains, |chains|, 0, list', nextHash, chains')
    ensures forall x :: In(chains', x) <==> In(chains, x)
  {
    var n := |chains|;
    forall x ensures Moved(chains, n, 0, x) <==> In(chains, x) {}
  }

  /** Resize's inner loop. */
  method MoveChain(
    handles: map<nat, Handle>, buckets: seq<nat>, nextHash: map<nat, nat>, ghost chains: seq<seq<nat>>, i: nat,
    list: seq<nat>, ghost chains1: seq<seq<nat>>)
    returns (list': seq<nat>, nextHash': map<nat, nat>, ghost chains': seq<seq<nat>>)
    requires Moving(handles, chains, i, 0, list, nextHash, chains1) && i < |chains|
    requires |buckets| == |chains| && buckets[i] == Get(chains[i], 0)
    ensures Moving(handles, chains, i + 1, 0, list', nextHash', chains') && |list'| == |list|
  {
    ghost var p: nat := 0;
    list', nextHash', chains' := list, nextHash, chains1;
    var h := buckets[i];
    while h != 0
      invariant Moving(handles, chains, i, p, list', nextHash', chains') && |list'| == |list|
      invariant h == Get(chains[i], p)
      decreases |chains[i]| - p
    {
      assert ChainOk(handles, |chains|, i, chains[i]) && h == chains[i][p];
      var next, b := nextHash'[h], handles[h].hash % |list'|;
      MoveOne(handles, chains, i, p, list', nextHash', chains', h, b);
      chains' := chains'[b := [h] + chains'[b]];
      nextHash' := nextHash'[h := list'[b]];
      list' := list'[b := h];
      h, p := next, p + 1;
    }
    AtChainEnd(handles, chains, i, p, list', nextHash', chains');
    NextChain(handles, chains, i, p, list', nextHash', chains');
  }

  lemma AtChainEnd(
    handles: map<nat, Handle>, chains: seq<seq<nat>>, i: nat, p: nat,
    list: seq<nat>, nextHash: map<nat, nat>, chains': seq<seq<nat>>)
    requires Moving(handles, chains, i, p, list, nextHash, chains') && i < |chains| && Get(chains[i], p) == 0
    ensures p == |chains[i]|
  {}

  // ----- the table

  /** What the table knows of a key: the matching handle, or 0. */
  ghost predicate Finds(handles: map<nat, Handle>, chains: seq<seq<nat>>, key: Bytes, hash: nat, id: nat) {
    && (id != 0 ==> In(chains, id) && id in handles && Matches(handles[id], key, hash))
    && (id == 0 ==> forall x :: In(chains, x) && x in handles ==> !Matches(handles[x], key, hash))
  }

  class HandleTable {
    var list: seq<nat>
    var nextHash: map<nat, nat>
    var elems: nat
    ghost var chains: seq<seq<nat>>

    ghost predicate Valid(handles: map<nat, Handle>)
      reads this
    {
      Linked(handles, list, nextHash, chains) && elems == Count(chains, |chains|) <= |list|
    }

    constructor ()
      ensures Valid(map[]) && forall x :: !In(chains, x)
    {
      list, nextHash, elems, chains := [0, 0, 0, 0], map[], 0, [[], [], [], []];
      new;
      EmptyCount(chains, 4);
    }

    /** FindPointer: the slot of the matching handle, or the last slot of its bucket's chain. */
    method FindPointer(handles: map<nat, Handle>, key: Bytes, hash: nat) returns (slot: Slot, cur: nat, ghost p: nat)
      requires Valid(handles)
      ensures var b := hash % |chains|; var chain := chains[b];
              && p <= |chain| && cur == Get(chain, p) && slot == SlotAt(b, chain, p) && (cur == 0 ==> p == |chain|)
              && (cur != 0 ==> p < |chain|)
              && forall q :: 0 <= q < p ==> chain[q] in handles && !Matches(handles[chain[q]], key, hash)
      ensures Finds(handles, chains, key, hash, cur)
    {
      ghost var b := hash % |chains|;
      ghost var chain := chains[b];
      slot, cur, p := Bucket(hash % |list|), list[hash % |list|], 0;
      while cur != 0 && !Matches(handles[cur], key, hash)
        invariant p <= |chain| && cur == Get(chain, p) && slot == SlotAt(b, chain, p)
        invariant (cur != 0 ==> p < |chain|) && (cur == 0 ==> p == |chain|)
        invariant forall q :: 0 <= q < p ==> !Matches(handles[chain[q]], key, hash)
        decreases |chain| - p
      {
        slot, cur, p := After(cur), nextHash[cur], p + 1;
      }
      if cur != 0 {
        assert chain[p] in chains[b];
      } else {
        forall x | In(chains, x) && x in handles ensures !Matches(handles[x], key, hash) {
          InBucket(handles, list, nextHash, chains, x);
          if handles[x].hash == hash { var q :| 0 <= q < |chain| && chain[q] == x; }
        }
      }
    }

    method Lookup(handles: map<nat, Handle>, key: Bytes, hash: nat) returns (id: nat)
      requires Valid(handles)
      ensures Finds(handles, chains, key, hash, id)
    {
      var slot;
      ghost var p;
      slot, id, p := FindPointer(handles, key, hash);
    }

    /** Insert: the handle takes the place of the one with its key, which is returned. */
    method Insert(handles: map<nat, Handle>, h: nat) returns (was: nat)
      requires Valid(handles) && h in handles && h != 0 && !In(chains, h)
      modifies this
      ensures Valid(handles) && Finds(handles, old(chains), handles[h].key, handles[h].hash, was)
      ensures forall x :: In(chains, x) <==> x == h || (In(old(chains), x) && x != was)
    {
      var slot;
      ghost var p;
      slot, was, p := FindPointer(handles, handles[h].key, handles[h].hash);
      ghost var b := handles[h].hash % |chains|;
      NoOther(handles, |chains|, b, chains[b], p, h);
      LinkedPut(handles, list, nextHash, chains, b, p, h);
      InPut(handles, list, nextHash, chains, b, p, h);
      CountUpdate(chains, b, Place(chains[b], p, h), |chains|);
      assert was != 0 ==> Path(list[b], nextHash, chains[b]);
      nextHash := nextHash[h := if was == 0 then 0 else nextHash[was]];
      list, nextHash := StoreList(list, slot, h), StoreNext(nextHash, slot, h);
      chains := chains[b := Place(chains[b], p, h)];
      if was == 0 {
        elems := elems + 1;
        if elems > |list| {
          list, nextHash, chains := Resize(handles, list, nextHash, elems, chains);
        }
      }
    }

    /** Remove: the handle with this key, if there is one, is taken out and returned. */
    method Remove(handles: map<nat, Handle>, key: Bytes, hash: nat) returns (id: nat)
      requires Valid(handles)
      modifies this
      ensures Valid(handles) && Finds(handles, old(chains), key, hash, id)
      ensures forall x :: In(chains, x) <==> In(old(chains), x) && x != id
    {
      var slot;
      ghost var p;
      slot, id, p := FindPointer(handles, key, hash);
      if id == 0 {
        NullNotIn(handles, list, nextHash, chains);
      } else {
        ghost var b := hash % |chains|;
        LinkedCut(handles, list, nextHash, chains, b, p);
        InCut(handles, list, nextHash, chains, b, p);
        CountUpdate(chains, b, Cut(chains[b], p), |chains|);
        assert Path(list[b], nextHash, chains[b]);
        var rest := nextHash[id];
        list, nextHash := StoreList(list, slot, rest), StoreNext(nextHash, slot, rest);
        chains := chains[b := Cut(chains[b], p)];
        elems := elems - 1;
      }
    }
  }

  lemma NullNotIn(handles: map<nat, Handle>, list: seq<nat>, nextHash: map<nat, nat>, chains: seq<seq<nat>>)
    requires Linked(handles, list, nextHash, chains)
    ensures !In(chains, 0)
  {
    if In(chains, 0) { InBucket(handles, list, nextHash, chains, 0); }
  }

  /** Only the handle in place `p`, if any, has the key of `h`. */
  lemma NoOther(handles: map<nat, Handle>, length: nat, b: nat, chain: seq<nat>, p: nat, h: nat)
    requires length > 0 && ChainOk(handles, length, b, chain) && h in handles && p <= |chain|
    requires p < |chain| ==> SameKey(handles, chain[p], h)
    requires forall q :: 0 <= q < p ==> !Matches(handles[chain[q]], handles[h].key, handles[h].hash)
    ensures forall q :: 0 <= q < |chain| && q != p ==> !SameKey(handles, chain[q], h)
  {}

  lemma InPut(
    handles: map<nat, Handle>, list: seq<nat>, nextHash: map<nat, nat>, chains: seq<seq<nat>>, b: nat, p: nat, h: nat)
    requires Linked(handles, list, nextHash, chains) && b < |chains| && p <= |chains[b]|
    ensures forall x :: In(chains[b := Place(chains[b], p, h)], x) <==> x == h || (In(chains, x) && x != Get(chains[b], p))
  {
    var chain, after := chains[b], chains[b := Place(chains[b], p, h)];
    NullNotIn(handles, list, nextHash, chains);
    PlaceMembers(chain, p, h);
    forall x ensures In(after, x) <==> x == h || (In(chains, x) && x != Get(chain, p)) {
      if In(after, x) && x != h {
        var c :| 0 <= c < |after| && x in after[c];
        StaysAway(handles, chains, b, p, c, x);
      }
      if In(chains, x) && x != Get(chain, p) {
        var c :| 0 <= c < |chains| && x in chains[c];
        assert x in after[c];
      }
      if x == h { assert h in after[b]; }
    }
  }

  lemma PlaceMembers(chain: seq<nat>, p: nat, h: nat)
    requires p <= |chain|
    ensures forall x :: x in Place(chain, p, h) <==> x == h || x in chain[..p] || (p < |chain| && x in chain[p + 1..])
    ensures forall x :: x in chain <==> x in chain[..p] || (p < |chain| && (x == chain[p] || x in chain[p + 1..]))
  {
    assert chain == chain[..p] + chain[p..];
    assert p < |chain| ==> chain[p..] == [chain[p]] + chain[p + 1..];
  }

  lemma StaysAway(handles: map<nat, Handle>, chains: seq<seq<nat>>, b: nat, p: nat, c: nat, x: nat)
    requires b < |chains| && c < |chains| && x in chains[c] && p <= |chains[b]|
    requires ChainOk(handles, |chains|, b, chains[b]) && ChainOk(handles, |chains|, c, chains[c])
    requires c == b ==> x in chains[b][..p] || (p < |chains[b]| && x in chains[b][p + 1..])
    requires x != 0
    ensures x != Get(chains[b], p)
  {
    if c != b && p < |chains[b]| {
      var q :| 0 <= q < |chains[c]| && chains[c][q] == x;
      OtherBucket(handles, chains, b, c, p, q);
    } else if c == b {
      ChainDistinct(handles, |chains|, b, chains[b]);
    }
  }

  lemma InCut(
    handles: map<nat, Handle>, list: seq<nat>, nextHash: map<nat, nat>, chains: seq<seq<nat>>, b: nat, p: nat)
    requires Linked(handles, list, nextHash, chains) && b < |chains| && p < |chains[b]|
    ensures forall x :: In(chains[b := Cut(chains[b], p)], x) <==> In(chains, x) && x != chains[b][p]
  {
    var chain, after := chains[b], chains[b := Cut(chains[b], p)];
    NullNotIn(handles, list, nextHash, chains);
    forall x ensures In(after, x) <==> In(chains, x) && x != chain[p] {
      if In(after, x) {
        var c :| 0 <= c < |after| && x in after[c];
        assert x in chains[c];
        StaysAway(handles, chains, b, p, c, x);
      }
      if In(chains, x) && x != chain[p] {
        var c :| 0 <= c < |chains| && x in chains[c];
        assert x in after[c];
      }
    }
  }
}
