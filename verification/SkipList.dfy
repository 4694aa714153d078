/** The skip list of the memtable (db/skiplist.h): one writer that links a node level by level, and readers
    that take no lock. Every load and every store is one atomic step. */
module SkipList {
  import Runs

  type Key = real

  /** Where a pointer leads: the head node, the node of a key, or NULL. */
  datatype Place = Head | Node(key: Key) | Nil

  /** next_[level] of a node. */
  type Cell = (Place, nat)
  type Links = map<Cell, Place>

  const MAX_HEIGHT: nat := 12

  // ----- one level as a sorted list

  predicate Before(x: Place, k: Key) { x.Head? || (x.Node? && x.key < k) }

  /** KeyIsAfterNode: NULL is infinite. */
  predicate IsAfter(k: Key, y: Place) { y.Node? && y.key < k }

  predicate OnList(keys: set<Key>, x: Place) { x.Head? || (x.Node? && x.key in keys) }

  /** `y` follows `x` in the sorted list of these keys. */
  ghost predicate Follows(keys: set<Key>, x: Place, y: Place) {
    && !y.Head? && (y.Node? ==> y.key in keys && Before(x, y.key))
    && forall k :: k in keys && Before(x, k) ==> y.Node? && y.key <= k
  }

  /** The last place of the list before `k`. */
  ghost predicate IsPrev(keys: set<Key>, k: Key, x: Place) {
    && OnList(keys, x) && Before(x, k)
    && forall k' :: k' in keys && Before(x, k') ==> k <= k'
  }

  /** The pointers of one level link these keys in order. */
  ghost predicate Chain(next: Links, level: nat, keys: set<Key>) {
    forall x :: OnList(keys, x) ==> (x, level) in next && Follows(keys, x, next[(x, level)])
  }

  // ----- state

  datatype Writer =
    | Idle
    | Searching(key: Key, x: Place, level: nat, prev: seq<Place>)
    | Found(key: Key, prev: seq<Place>)
    | Linking(key: Key, prev: seq<Place>, height: nat, i: nat, own: bool)

  /** Searches that a reader runs: FindGreaterOrEqual, FindLessThan, FindLast. */
  datatype Search = AtOrAfter(target: Key) | LessThan(target: Key) | Last

  datatype Reader =
    | Resting(node: Place)
    | Running(search: Search, x: Place, level: nat)

  /** `keys[level]` are the keys linked at that level; the code has only the pointers. */
  datatype State = State(
    next: Links,
    maxHeight: nat,
    writer: Writer,
    readers: map<nat, Reader>,
    keys: seq<set<Key>>)

  ghost predicate Init(s: State) {
    && s.next == (map l | 0 <= l < MAX_HEIGHT :: (Head, l) := Nil)
    && s.maxHeight == 1 && s.writer == Idle
    && s.keys == seq(MAX_HEIGHT, l => {})
    && forall id :: id in s.readers ==> s.readers[id] == Resting(Nil)
  }

  // ----- steps

  datatype Step =
    | StartInsert(key: Key)
    | SearchPrev
    | SetHeight(height: nat)
    | SetOwnNext
    | Publish
    | StartSearch(id: nat, search: Search)
    | Load(id: nat)
    | ReadNext(id: nat)
    | ReadFirst(id: nat)

  /** One turn of the writer's FindGreaterOrEqual, which fills prev. */
  ghost predicate SearchPrevStep(s: State, s': State) {
    && s.writer.Searching? && s.writer.level < |s.writer.prev|
    && (s.writer.x, s.writer.level) in s.next
    && var w := s.writer;
       var y := s.next[(w.x, w.level)];
       s' == s.(writer :=
         if IsAfter(w.key, y) then w.(x := y)
         else if w.level == 0 then Found(w.key, w.prev[0 := w.x])
         else w.(prev := w.prev[w.level := w.x], level := w.level - 1))
  }

  /** The height is random. A new top level starts at the head, and max_height_ is stored before any link. */
  ghost predicate SetHeightStep(s: State, s': State, height: nat) {
    && s.writer.Found? && 1 <= height <= MAX_HEIGHT && |s.writer.prev| == MAX_HEIGHT
    && var prev := seq(MAX_HEIGHT, i requires 0 <= i < MAX_HEIGHT =>
                      if s.maxHeight <= i < height then Head else s.writer.prev[i]);
       s' == s.(writer := Linking(s.writer.key, prev, height, 0, false),
                maxHeight := if height > s.maxHeight then height else s.maxHeight)
  }

  ghost predicate SetOwnNextStep(s: State, s': State) {
    && s.writer.Linking? && !s.writer.own && s.writer.i < |s.writer.prev|
    && var w := s.writer;
    && (w.prev[w.i], w.i) in s.next
    && s' == s.(next := s.next[(Node(w.key), w.i) := s.next[(w.prev[w.i], w.i)]], writer := w.(own := true))
  }

  ghost predicate PublishStep(s: State, s': State) {
    && s.writer.Linking? && s.writer.own && s.writer.i < |s.writer.prev| && s.writer.i < |s.keys|
    && var w := s.writer;
       s' == s.(next := s.next[(w.prev[w.i], w.i) := Node(w.key)],
                keys := s.keys[w.i := s.keys[w.i] + {w.key}],
                writer := if w.i + 1 < w.height then w.(i := w.i + 1, own := false) else Idle)
  }

  predicate Advances(search: Search, y: Place) {
    match search
    case AtOrAfter(t) => IsAfter(t, y)
    case LessThan(t) => IsAfter(t, y)
    case Last => y.Node?
  }

  /** What a search returns when the last load at level 0 at `x` gave `y`; the head stands for no node. */
  function Result(search: Search, x: Place, y: Place): Place {
    if search.AtOrAfter? then y else if x.Head? then Nil else x
  }

  /** One load of a reader's search. */
  ghost predicate LoadStep(s: State, s': State, id: nat) {
    && id in s.readers && s.readers[id].Running?
    && var r := s.readers[id];
    && (r.x, r.level) in s.next
    && var y := s.next[(r.x, r.level)];
       s' == s.(readers := s.readers[id :=
         if Advances(r.search, y) then r.(x := y)
         else if r.level == 0 then Resting(Result(r.search, r.x, y))
         else r.(level := r.level - 1)])
  }

  ghost predicate Next(s: State, s': State, step: Step) {
    match step
    case StartInsert(key) =>
      && s.writer.Idle? && s.maxHeight > 0 && |s.keys| > 0 && key !in s.keys[0]
      && s' == s.(writer := Searching(key, Head, s.maxHeight - 1, seq(MAX_HEIGHT, i => Nil)))
    case SearchPrev => SearchPrevStep(s, s')
    case SetHeight(height) => SetHeightStep(s, s', height)
    case SetOwnNext => SetOwnNextStep(s, s')
    case Publish => PublishStep(s, s')
    case StartSearch(id, search) =>
      && id in s.readers && s.readers[id].Resting? && s.maxHeight > 0
      && s' == s.(readers := s.readers[id := Running(search, Head, s.maxHeight - 1)])
    case Load(id) => LoadStep(s, s', id)
    case ReadNext(id) =>
      && id in s.readers && s.readers[id].Resting? && s.readers[id].node.Node? && (s.readers[id].node, 0) in s.next
      && s' == s.(readers := s.readers[id := Resting(s.next[(s.readers[id].node, 0)])])
    case ReadFirst(id) =>
      && id in s.readers && s.readers[id].Resting? && (Head, 0) in s.next
      && s' == s.(readers := s.readers[id := Resting(s.next[(Head, 0)])])
  }

  // ----- the invariant

  /** Every level is a sorted list, and a sublist of the level below; levels above max_height_ are empty. */
  ghost predicate Lists(next: Links, maxHeight: nat, keys: seq<set<Key>>) {
    && 1 <= maxHeight <= MAX_HEIGHT && |keys| == MAX_HEIGHT
    && (forall l :: 0 <= l < MAX_HEIGHT ==> Chain(next, l, keys[l]))
    && (forall l, m :: 0 <= l <= m < MAX_HEIGHT ==> keys[m] <= keys[l])
    && (forall l :: maxHeight <= l < MAX_HEIGHT ==> keys[l] == {})
  }

  /** The writer's prev[l], for these levels, is where its key belongs. */
  ghost predicate PrevOf(s: State, key: Key, prev: seq<Place>, low: nat, high: nat)
    requires |s.keys| == MAX_HEIGHT
  {
    && |prev| == MAX_HEIGHT && high <= MAX_HEIGHT
    && forall l :: low <= l < high ==> key !in s.keys[l] && IsPrev(s.keys[l], key, prev[l])
  }

  ghost predicate WriterInv(s: State)
    requires |s.keys| == MAX_HEIGHT
  {
    match s.writer
    case Idle => true
    case Searching(key, x, level, prev) =>
      && level < s.maxHeight <= MAX_HEIGHT && key !in s.keys[0]
      && OnList(s.keys[level], x) && Before(x, key) && PrevOf(s, key, prev, level + 1, s.maxHeight)
    case Found(key, prev) => PrevOf(s, key, prev, 0, s.maxHeight)
    case Linking(key, prev, height, i, own) =>
      && i < height <= s.maxHeight && PrevOf(s, key, prev, i, height)
      && (forall l :: 0 <= l < i ==> key in s.keys[l])
      && (forall l :: i <= l < MAX_HEIGHT ==> key !in s.keys[l])
      && (own ==> (Node(key), i) in s.next && Follows(s.keys[i], Node(key), s.next[(Node(key), i)]))
  }

  ghost predicate ReaderInv(s: State, r: Reader)
    requires |s.keys| == MAX_HEIGHT
  {
    match r
    case Resting(node) => node.Nil? || (node.Node? && node.key in s.keys[0])
    case Running(search, x, level) =>
      && level < MAX_HEIGHT && OnList(s.keys[level], x)
      && (search.Last? || Before(x, search.target))
  }

  ghost predicate Inv(s: State) {
    && Lists(s.next, s.maxHeight, s.keys) && WriterInv(s)
    && forall id :: id in s.readers ==> ReaderInv(s, s.readers[id])
  }

  lemma InitInv(s: State)
    requires Init(s)
    ensures Inv(s)
  {}

  // ----- lists

  /** What prev's successor is, the new node's successor will be. */
  lemma OwnNext(next: Links, l: nat, keys: set<Key>, key: Key, prev: Place)
    requires Chain(next, l, keys) && IsPrev(keys, key, prev) && key !in keys
    ensures (prev, l) in next && Follows(keys, Node(key), next[(prev, l)])
  {
    assert Follows(keys, prev, next[(prev, l)]);
  }

  /** A store into another level, or into a node that is not linked yet, does not change this list. */
  lemma ChainUntouched(next: Links, l: nat, keys: set<Key>, c: Cell, y: Place)
    requires Chain(next, l, keys) && (c.1 != l || !OnList(keys, c.0))
    ensures Chain(next[c := y], l, keys)
  {
    forall x | OnList(keys, x) ensures (x, l) in next[c := y] && Follows(keys, x, next[c := y][(x, l)]) {
      assert (x, l) != c;
    }
  }

  /** The store that publishes a node turns the list into the list with its key. */
  lemma ChainLinked(next: Links, l: nat, keys: set<Key>, key: Key, prev: Place)
    requires Chain(next, l, keys) && IsPrev(keys, key, prev) && key !in keys
    requires (Node(key), l) in next && Follows(keys, Node(key), next[(Node(key), l)])
    ensures Chain(next[(prev, l) := Node(key)], l, keys + {key})
  {
    var next', keys' := next[(prev, l) := Node(key)], keys + {key};
    forall x | OnList(keys', x) ensures (x, l) in next' && Follows(keys', x, next'[(x, l)]) {
      if x == Node(key) {
        assert next'[(x, l)] == next[(x, l)];
      } else if x != prev {
        assert OnList(keys, x) && next'[(x, l)] == next[(x, l)];
        assert Follows(keys, x, next[(x, l)]);
      }
    }
  }

  // ----- every step keeps the invariant

  /** Linking one more key somewhere does not disturb a reader. */
  lemma ReadersUndisturbed(s: State, s': State)
    requires |s.keys| == |s'.keys| == MAX_HEIGHT && s'.readers == s.readers
    requires forall l :: 0 <= l < MAX_HEIGHT ==> s.keys[l] <= s'.keys[l]
    requires forall id :: id in s.readers ==> ReaderInv(s, s.readers[id])
    ensures forall id :: id in s'.readers ==> ReaderInv(s', s'.readers[id])
  {}

  lemma SearchPrevKeepsInv(s: State, s': State)
    requires Inv(s) && SearchPrevStep(s, s')
    ensures Inv(s')
  {
    var w := s.writer;
    assert Chain(s.next, w.level, s.keys[w.level]);
    assert Follows(s.keys[w.level], w.x, s.next[(w.x, w.level)]);
    assert s.keys[w.level] <= s.keys[0];
    if !IsAfter(w.key, s.next[(w.x, w.level)]) {
      assert IsPrev(s.keys[w.level], w.key, w.x);
      if w.level > 0 { assert s.keys[w.level] <= s.keys[w.level - 1]; }
    }
    ReadersUndisturbed(s, s');
  }

  lemma SetHeightKeepsInv(s: State, s': State, height: nat)
    requires Inv(s) && SetHeightStep(s, s', height)
    ensures Inv(s')
  {
    var w := s'.writer;
    assert w.key !in s.keys[0];
    forall l | 0 <= l < MAX_HEIGHT ensures w.key !in s.keys[l] { assert s.keys[l] <= s.keys[0]; }
    forall l | 0 <= l < height ensures IsPrev(s.keys[l], w.key, w.prev[l]) {
      if l >= s.maxHeight { assert s.keys[l] == {}; }
    }
    ReadersUndisturbed(s, s');
  }

  lemma SetOwnNextKeepsInv(s: State, s': State)
    requires Inv(s) && SetOwnNextStep(s, s')
    ensures Inv(s')
  {
    var w := s.writer;
    var c := (Node(w.key), w.i);
    OwnNext(s.next, w.i, s.keys[w.i], w.key, w.prev[w.i]);
    forall l | 0 <= l < MAX_HEIGHT ensures Chain(s'.next, l, s'.keys[l]) {
      ChainUntouched(s.next, l, s.keys[l], c, s.next[(w.prev[w.i], w.i)]);
    }
    ReadersUndisturbed(s, s');
  }

  lemma PublishKeepsLists(s: State, s': State)
    requires Inv(s) && PublishStep(s, s')
    ensures Lists(s'.next, s'.maxHeight, s'.keys)
  {
    var w := s.writer;
    var c := (w.prev[w.i], w.i);
    forall l | 0 <= l < MAX_HEIGHT ensures Chain(s'.next, l, s'.keys[l]) {
      if l == w.i {
        ChainLinked(s.next, l, s.keys[l], w.key, w.prev[l]);
      } else {
        ChainUntouched(s.next, l, s.keys[l], c, Node(w.key));
      }
    }
    forall l, m | 0 <= l <= m < MAX_HEIGHT ensures s'.keys[m] <= s'.keys[l] {
      assert s.keys[m] <= s.keys[l];
    }
  }

  lemma PublishKeepsInv(s: State, s': State)
    requires Inv(s) && PublishStep(s, s')
    ensures Inv(s')
  {
    PublishKeepsLists(s, s');
    ReadersUndisturbed(s, s');
  }

  /** What a search must return, for the keys linked at level 0. */
  ghost predicate Answers(search: Search, keys: set<Key>, node: Place) {
    match search
    case AtOrAfter(t) =>
      !node.Head? && (node.Node? ==> node.key in keys && t <= node.key)
      && forall k :: k in keys && t <= k ==> node.Node? && node.key <= k
    case LessThan(t) =>
      !node.Head? && (node.Node? ==> node.key in keys && node.key < t)
      && forall k :: k in keys && k < t ==> node.Node? && k <= node.key
    case Last =>
      !node.Head? && (node.Node? ==> node.key in keys)
      && forall k :: k in keys ==> node.Node? && k <= node.key
  }

  lemma LoadKeepsInv(s: State, s': State, id: nat)
    requires Inv(s) && LoadStep(s, s', id)
    ensures Inv(s')
    ensures s'.readers[id].Resting? ==> Answers(s.readers[id].search, s.keys[0], s'.readers[id].node)
  {
    var r := s.readers[id];
    assert Chain(s.next, r.level, s.keys[r.level]);
    assert Follows(s.keys[r.level], r.x, s.next[(r.x, r.level)]);
    if r.level > 0 { assert s.keys[r.level] <= s.keys[r.level - 1]; }
  }

  lemma StepKeepsInv(s: State, s': State, step: Step)
    requires Inv(s) && Next(s, s', step)
    ensures Inv(s')
  {
    match step
    case StartInsert(key) => ReadersUndisturbed(s, s');
    case SearchPrev => SearchPrevKeepsInv(s, s');
    case SetHeight(height) => SetHeightKeepsInv(s, s', height);
    case SetOwnNext => SetOwnNextKeepsInv(s, s');
    case Publish => PublishKeepsInv(s, s');
    case StartSearch(id, search) =>
    case Load(id) => LoadKeepsInv(s, s', id);
    case ReadNext(id) => assert Follows(s.keys[0], s.readers[id].node, s.next[(s.readers[id].node, 0)]);
    case ReadFirst(id) => assert Follows(s.keys[0], Head, s.next[(Head, 0)]);
  }

  lemma StepPreserves(s: State, s': State, step: Step)
    ensures Inv(s) && Next(s, s', step) ==> Inv(s')
  {
    if Inv(s) && Next(s, s', step) { StepKeepsInv(s, s', step); }
  }

  /** No thread ever loads a pointer that was not stored before. */
  lemma LoadsAreDefined(s: State)
    requires Inv(s)
    ensures s.writer.Searching? ==> (s.writer.x, s.writer.level) in s.next
    ensures s.writer.Linking? && !s.writer.own ==> (s.writer.prev[s.writer.i], s.writer.i) in s.next
    ensures forall id :: id in s.readers ==>
              match s.readers[id]
              case Resting(node) => node.Node? ==> (node, 0) in s.next
              case Running(search, x, level) => (x, level) in s.next
  {
    assert forall l :: 0 <= l < MAX_HEIGHT ==> Chain(s.next, l, s.keys[l]);
    if s.writer.Linking? {
      assert IsPrev(s.keys[s.writer.i], s.writer.key, s.writer.prev[s.writer.i]);
    }
  }

  // ----- runs

  ghost predicate Run(states: seq<State>, steps: seq<Step>) {
    && |states| == |steps| + 1 && Init(states[0])
    && forall i {:trigger steps[i]} :: 0 <= i < |steps| ==> Next(states[i], states[i + 1], steps[i])
  }

  lemma {:induction false} RunStep(states: seq<State>, steps: seq<Step>, i: nat)
    requires Run(states, steps) && 0 < i < |states|
    ensures !Inv(states[i - 1]) || Inv(states[i])
  {
    StepPreserves(states[i - 1], states[i], steps[i - 1]);
  }

  lemma {:induction false} RunKeepsInv(states: seq<State>, steps: seq<Step>, n: nat)
    requires Run(states, steps) && n < |states|
    ensures Inv(states[n])
  {
    var inv := s => Inv(s);
    InitInv(states[0]);
    forall i | 0 < i < |states| ensures inv(states[i - 1]) ==> inv(states[i]) { RunStep(states, steps, i); }
    Runs.Induction(states, inv, n);
  }

  /** Keys are never unlinked. */
  lemma {:induction false} KeysGrow(states: seq<State>, steps: seq<Step>, m: nat, n: nat, l: nat)
    requires Run(states, steps) && m <= n < |states| && l < MAX_HEIGHT
    ensures |states[m].keys| == |states[n].keys| == MAX_HEIGHT && states[m].keys[l] <= states[n].keys[l]
    decreases n
  {
    RunKeepsInv(states, steps, n);
    if m < n {
      RunKeepsInv(states, steps, n - 1);
      KeysGrow(states, steps, m, n - 1, l);
      assert Next(states[n - 1], states[n], steps[n - 1]);
    }
  }

  /** The main result. In every interleaving, a search that ends with the load of step `n` returns the right node
      for the keys linked at level 0 at that moment; so it misses no key linked before. */
  lemma {:induction false} SearchIsRight(states: seq<State>, steps: seq<Step>, n: nat, id: nat)
    requires Run(states, steps) && n < |steps| && steps[n] == Load(id)
    requires states[n + 1].readers[id].Resting?
    ensures |states[n].keys| == MAX_HEIGHT
    ensures Answers(states[n].readers[id].search, states[n].keys[0], states[n + 1].readers[id].node)
  {
    RunKeepsInv(states, steps, n);
    assert Next(states[n], states[n + 1], steps[n]);
    LoadKeepsInv(states[n], states[n + 1], id);
  }

  /** An iterator that moves on reaches the next key linked at that moment. */
  lemma {:induction false} MoveIsRight(states: seq<State>, steps: seq<Step>, n: nat, id: nat)
    requires Run(states, steps) && n < |steps| && steps[n] in {ReadNext(id), ReadFirst(id)}
    ensures |states[n].keys| == MAX_HEIGHT && states[n + 1].readers[id].Resting?
    ensures Follows(states[n].keys[0], if steps[n].ReadFirst? then Head else states[n].readers[id].node,
                    states[n + 1].readers[id].node)
  {
    RunKeepsInv(states, steps, n);
    assert Next(states[n], states[n + 1], steps[n]);
    assert Chain(states[n].next, 0, states[n].keys[0]);
  }

  // ----- the lists as sequences

  /** Following the pointers of a level from `x` visits these keys and ends. */
  ghost predicate Path(next: Links, level: nat, x: Place, ks: seq<Key>)
    decreases |ks|
  {
    && (x, level) in next
    && if ks == [] then next[(x, level)] == Nil
       else next[(x, level)] == Node(ks[0]) && Path(next, level, Node(ks[0]), ks[1..])
  }

  function Later(keys: set<Key>, x: Place): set<Key> { set k | k in keys && Before(x, k) }

  /** At every moment, the pointers of a level visit its keys, each once, in increasing order. */
  lemma {:induction false} ChainIsPath(next: Links, level: nat, keys: set<Key>, x: Place) returns (ks: seq<Key>)
    requires Chain(next, level, keys) && OnList(keys, x)
    ensures Path(next, level, x, ks)
    ensures forall k :: k in ks <==> k in Later(keys, x)
    ensures forall i, j :: 0 <= i < j < |ks| ==> ks[i] < ks[j]
    decreases Later(keys, x)
  {
    var y := next[(x, level)];
    assert Follows(keys, x, y);
    if y.Nil? {
      ks := [];
    } else {
      assert y.key in Later(keys, x) && y.key !in Later(keys, y);
      var rest := ChainIsPath(next, level, keys, y);
      ks := [y.key] + rest;
      assert ks[1..] == rest;
      forall k ensures k in ks <==> k in Later(keys, x) {
        assert k in ks <==> k == y.key || k in Later(keys, y);
      }
    }
  }

  // ----- the code, run by one thread

  class List {
    var next: Links
    var maxHeight: nat
    ghost var keys: seq<set<Key>>

    ghost predicate Valid()
      reads this
    {
      Lists(next, maxHeight, keys)
    }

    constructor ()
      ensures Valid() && keys == seq(MAX_HEIGHT, l => {})
    {
      next, maxHeight, keys := map l | 0 <= l < MAX_HEIGHT :: (Head, l) := Nil, 1, seq(MAX_HEIGHT, l => {});
    }

    /** FindGreaterOrEqual, with the prev array that Insert wants. */
    method FindGreaterOrEqual(key: Key) returns (y: Place, prev: seq<Place>)
      requires Valid()
      ensures Answers(AtOrAfter(key), keys[0], y)
      ensures |prev| == MAX_HEIGHT && forall l :: 0 <= l < maxHeight ==> IsPrev(keys[l], key, prev[l])
    {
      var x, level := Head, maxHeight - 1;
      prev := seq(MAX_HEIGHT, i => Nil);
      while true
        invariant 0 <= level < maxHeight && OnList(keys[level], x) && Before(x, key) && |prev| == MAX_HEIGHT
        invariant forall l :: level < l < maxHeight ==> IsPrev(keys[l], key, prev[l])
        decreases level, Later(keys[level], x)
      {
        assert Chain(next, level, keys[level]);
        y := next[(x, level)];
        assert Follows(keys[level], x, y);
        if IsAfter(key, y) {
          assert y.key in Later(keys[level], x) && y.key !in Later(keys[level], y);
          x := y;
        } else {
          prev := prev[level := x];
          if level == 0 { return; }
          assert keys[level] <= keys[level - 1];
          level := level - 1;
        }
      }
    }

    /** FindLessThan; the head when there is no such node. */
    method FindLessThan(key: Key) returns (x: Place)
      requires Valid()
      ensures Answers(LessThan(key), keys[0], if x.Head? then Nil else x)
    {
      var level := maxHeight - 1;
      x := Head;
      while true
        invariant 0 <= level < maxHeight && OnList(keys[level], x) && Before(x, key)
        decreases level, Later(keys[level], x)
      {
        assert Chain(next, level, keys[level]);
        var y := next[(x, level)];
        assert Follows(keys[level], x, y);
        if y.Nil? || y.key >= key {
          if level == 0 { return; }
          assert keys[level] <= keys[level - 1];
          level := level - 1;
        } else {
          assert y.key in Later(keys[level], x) && y.key !in Later(keys[level], y);
          x := y;
        }
      }
    }

    /** FindLast; the head when the list is empty. */
    method FindLast() returns (x: Place)
      requires Valid()
      ensures Answers(Last, keys[0], if x.Head? then Nil else x)
    {
      var level := maxHeight - 1;
      x := Head;
      while true
        invariant 0 <= level < maxHeight && OnList(keys[level], x)
        decreases level, Later(keys[level], x)
      {
        assert Chain(next, level, keys[level]);
        var y := next[(x, level)];
        assert Follows(keys[level], x, y);
        if y.Nil? {
          if level == 0 { return; }
          assert keys[level] <= keys[level - 1];
          level := level - 1;
        } else {
          assert y.key in Later(keys[level], x) && y.key !in Later(keys[level], y);
          x := y;
        }
      }
    }

    method Contains(key: Key) returns (found: bool)
      requires Valid()
      ensures found <==> key in keys[0]
    {
      var y, _ := FindGreaterOrEqual(key);
      found := y.Node? && y.key == key;
    }

    /** Insert. The key must be new; the height is random. */
    method Insert(key: Key, height: nat)
      requires Valid() && key !in keys[0] && 1 <= height <= MAX_HEIGHT
      modifies this
      ensures Valid() && maxHeight == if height > old(maxHeight) then height else old(maxHeight)
      ensures forall l :: 0 <= l < MAX_HEIGHT ==> keys[l] == old(keys)[l] + if l < height then {key} else {}
    {
      var y, prev := FindGreaterOrEqual(key);
      forall l | 0 <= l < MAX_HEIGHT ensures key !in keys[l] { assert keys[l] <= keys[0]; }
      if height > maxHeight {
        var i := maxHeight;
        while i < height
          invariant maxHeight <= i <= height && |prev| == MAX_HEIGHT
          invariant forall l :: 0 <= l < i ==> IsPrev(keys[l], key, prev[l])
        {
          assert keys[i] == {};
          prev := prev[i := Head];
          i := i + 1;
        }
        maxHeight := height;
      }
      var i := 0;
      while i < height
        invariant 0 <= i <= height <= maxHeight && Valid() && |prev| == MAX_HEIGHT
        invariant maxHeight == if height > old(maxHeight) then height else old(maxHeight)
        invariant forall l :: 0 <= l < i ==> keys[l] == old(keys)[l] + {key}
        invariant forall l :: i <= l < MAX_HEIGHT ==> keys[l] == old(keys)[l]
      {
        LinkLevel(key, prev[i], i);
        i := i + 1;
      }
    }

    /** The two stores that link the node at one level. */
    method LinkLevel(key: Key, prev: Place, i: nat)
      requires Valid() && i < maxHeight && key !in keys[i] && IsPrev(keys[i], key, prev)
      requires forall l :: i <= l < MAX_HEIGHT ==> key !in keys[l]
      requires forall l :: 0 <= l < i ==> key in keys[l]
      modifies this`next, this`keys
      ensures Valid() && keys == old(keys)[i := old(keys)[i] + {key}]
    {
      OwnNext(next, i, keys[i], key, prev);
      ghost var next0, next1, keys0 := next, next[(Node(key), i) := next[(prev, i)]], keys;
      next := next[(Node(key), i) := next[(prev, i)]];
      next := next[(prev, i) := Node(key)];
      keys := keys[i := keys[i] + {key}];
      forall l | 0 <= l < MAX_HEIGHT ensures Chain(next, l, keys[l]) {
        ChainUntouched(next0, l, keys0[l], (Node(key), i), next0[(prev, i)]);
        if l == i {
          ChainLinked(next1, l, keys0[l], key, prev);
        } else {
          ChainUntouched(next1, l, keys0[l], (prev, i), Node(key));
        }
      }
      forall l, m | 0 <= l <= m < MAX_HEIGHT ensures keys[m] <= keys[l] {
        assert keys0[m] <= keys0[l];
      }
    }
  }
}
