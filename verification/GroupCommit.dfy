/** The write queue (DBImpl::Write and BuildBatchGroup in db/db_impl.cc): every writer joins a queue, the one at
    the front leads, writes the batches of a group of writers as one record, and completes them all. A step is
    what one thread does while it holds the mutex, or one unlocked call of the leader. */
module GroupCommit {
  import opened Keys
  import Runs

  /** An operation; what it is does not matter here. */
  type Op(==) = (UserKey, Option<Value>)

  /** A caller's batch and its ByteSize. */
  datatype Batch = Batch(ops: seq<Op>, bytes: nat)

  datatype Status = Ok | Error

  /** A writer in the queue. A NULL batch asks for a memtable switch only. */
  datatype Request = Request(batch: Option<Batch>, sync: bool)

  // ----- BuildBatchGroup

  function OpsOf(r: Request): seq<Op> { if r.batch.Some? then r.batch.value.ops else [] }

  /** The operations of the first `n` requests, one batch after the other. */
  function AllOps(rs: seq<Request>, n: nat): seq<Op>
    requires n <= |rs|
  {
    if n == 0 then [] else AllOps(rs, n - 1) + OpsOf(rs[n - 1])
  }

  function SizeOf(r: Request): nat { if r.batch.Some? then r.batch.value.bytes else 0 }

  function Size(rs: seq<Request>, n: nat): nat
    requires n <= |rs|
  {
    if n == 0 then 0 else Size(rs, n - 1) + SizeOf(rs[n - 1])
  }

  const BIG: nat := 1048576
  const SMALL: nat := 131072

  /** A small first batch limits the growth of its group. */
  function MaxSize(first: nat): nat { if first <= SMALL then first + SMALL else BIG }

  /** A group may take in the next writer. */
  predicate MayJoin(rs: seq<Request>, n: nat)
    requires 0 < n < |rs|
  {
    && !(rs[n].sync && !rs[0].sync)
    && (rs[n].batch.Some? ==> Size(rs, n + 1) <= MaxSize(SizeOf(rs[0])))
  }

  /** The first `n` writers are a group: each may join those before it, and the next one may not. */
  ghost predicate IsGroup(rs: seq<Request>, n: nat) {
    && 0 < n <= |rs| && rs[0].batch.Some?
    && (forall i :: 0 < i < n ==> MayJoin(rs, i))
    && (n < |rs| ==> !MayJoin(rs, n))
  }

  /** The limits of a group: no sync writer behind one that is not; at most 1 MB, and 128 KB beyond a small first batch;
      and the writer after the group had to stay out. */
  lemma GroupLimits(rs: seq<Request>, n: nat, i: nat)
    requires IsGroup(rs, n)
    ensures var first := rs[0].batch.value.bytes;
            var limit := if first <= 131072 then first + 131072 else 1048576;
            && (0 < i < n ==> (rs[i].sync ==> rs[0].sync) && (rs[i].batch.Some? ==> Size(rs, i + 1) <= limit))
            && (n < |rs| ==> (rs[n].sync && !rs[0].sync) || (rs[n].batch.Some? && Size(rs, n + 1) > limit))
  {
    if 0 < i < n { assert MayJoin(rs, i); }
  }

  /** BuildBatchGroup over the queue. `tmp` is tmp_batch_ before and `tmp'` after; the result is the caller's own
      batch or tmp_batch_. */
  method BuildBatchGroup(rs: seq<Request>, tmp: seq<Op>) returns (n: nat, result: seq<Op>, viaTmp: bool, tmp': seq<Op>)
    requires rs != [] && rs[0].batch.Some? && tmp == []
    ensures IsGroup(rs, n) && result == AllOps(rs, n)
    ensures tmp' == if viaTmp then result else tmp
  {
    var first := rs[0];
    var size := SizeOf(first);
    var maxSize := MaxSize(size);
    result, viaTmp, tmp', n := first.batch.value.ops, false, tmp, 1;
    while n < |rs|
      invariant 0 < n <= |rs| && forall i :: 0 < i < n ==> MayJoin(rs, i)
      invariant result == AllOps(rs, n) && size == Size(rs, n)
      invariant if viaTmp then tmp' == result else tmp' == tmp && result == first.batch.value.ops
    {
      var w := rs[n];
      if w.sync && !first.sync { break; }
      if w.batch.Some? {
        size := size + w.batch.value.bytes;
        if size > maxSize { break; }
        if !viaTmp {
          tmp', viaTmp := tmp' + first.batch.value.ops, true;
        }
        tmp' := tmp' + w.batch.value.ops;
        result := tmp';
      }
      n := n + 1;
    }
  }

  // ----- state

  datatype Group = Group(n: nat, ops: seq<Op>, viaTmp: bool, first: nat)

  /** Where a writer's thread is. */
  datatype Phase =
    | Waiting
    | MakingRoom
    | Grouped(g: Group)
    | Logged(g: Group)
    | Durable(g: Group)
    | Wrote(g: Group, status: Status, syncError: bool)
    | Done(result: Status)
    | Returned(result: Status)

  datatype Record = Record(first: nat, ops: seq<Op>)

  /** A group that is completed: its writers and their requests, what they were told, and what it wrote. */
  datatype Past = Past(ids: seq<nat>, rs: seq<Request>, status: Status, first: nat, ops: seq<Op>, logged: bool)

  datatype State = State(
    queue: seq<nat>,
    requests: map<nat, Request>,
    phases: map<nat, Phase>,
    tmp: seq<Op>,
    log: seq<Record>,
    synced: nat,
    mem: seq<(nat, Op)>,
    lastSeq: nat,
    bgError: bool,
    arrivals: seq<nat>,
    past: seq<Past>)

  /** InsertInto: consecutive sequence numbers. */
  function Numbered(ops: seq<Op>, first: nat): seq<(nat, Op)> {
    seq(|ops|, i requires 0 <= i < |ops| => (first + i, ops[i]))
  }

  ghost predicate Init(s: State) {
    && s.queue == [] && s.requests == map[] && s.phases == map[] && s.tmp == [] && s.log == [] && s.synced == 0
    && s.mem == [] && s.lastSeq == 0 && !s.bgError && s.arrivals == [] && s.past == []
  }

  // ----- steps

  datatype Step =
    | Enqueue(id: nat, request: Request)
    | Lead(id: nat)
    | Room(id: nat, ok: bool, group: Group)
    | Append(id: nat, ok: bool)
    | Sync(id: nat, ok: bool)
    | Insert(id: nat)
    | Finish(id: nat)
    | Return(id: nat)

  function Requests(requests: map<nat, Request>, ids: seq<nat>): seq<Request> {
    seq(|ids|, i requires 0 <= i < |ids| => if ids[i] in requests then requests[ids[i]] else Request(None, false))
  }

  /** The loop that pops the group off the queue and tells its writers the status. */
  function Completed(phases: map<nat, Phase>, ids: seq<nat>, status: Status): map<nat, Phase> {
    map id | id in phases :: if id in ids then Done(status) else phases[id]
  }

  ghost predicate Complete(s: State, s': State, n: nat, status: Status, past: Past) {
    && n <= |s.queue| && past.ids == s.queue[..n] && past.status == status
    && past.rs == Requests(s.requests, s.queue[..n])
    && s'.queue == s.queue[n..] && s'.phases == Completed(s.phases, s.queue[..n], status)
    && s'.past == s.past + [past] && s'.requests == s.requests && s'.arrivals == s.arrivals
    && s'.log == s.log && s'.mem == s.mem && s'.synced == s.synced
  }

  function Told(ok: bool): Status { if ok then Ok else Error }

  ghost predicate RoomStep(s: State, s': State, id: nat, ok: bool, g: Group) {
    && id in s.phases && s.phases[id].MakingRoom? && id in s.requests && s.queue != []
    && (s.bgError ==> !ok)
    && if !ok || s.requests[id].batch.None?
       then
         && Complete(s, s', 1, Told(ok), Past(s.queue[..1], Requests(s.requests, s.queue[..1]), Told(ok), 0, [], false))
         && s'.tmp == s.tmp && s'.lastSeq == s.lastSeq && s'.bgError == s.bgError
       else
           && IsGroup(Requests(s.requests, s.queue), g.n) && g.ops == AllOps(Requests(s.requests, s.queue), g.n)
           && g.first == s.lastSeq + 1
           && s' == s.(phases := s.phases[id := Grouped(g)], tmp := if g.viaTmp then g.ops else s.tmp)
  }

  ghost predicate FinishStep(s: State, s': State, id: nat) {
    && id in s.phases && s.phases[id].Wrote? && s.phases[id].g.n <= |s.queue|
    && var w := s.phases[id];
    && Complete(s, s', w.g.n, w.status,
                Past(s.queue[..w.g.n], Requests(s.requests, s.queue[..w.g.n]), w.status, w.g.first, w.g.ops,
                     w.status.Ok? || w.syncError))
    && s'.tmp == (if w.g.viaTmp then [] else s.tmp)
    && s'.lastSeq == s.lastSeq + |w.g.ops| && s'.bgError == (s.bgError || w.syncError)
  }

  ghost predicate Next(s: State, s': State, step: Step) {
    match step
    case Enqueue(id, request) =>
      && id !in s.requests
      && s' == s.(queue := s.queue + [id], requests := s.requests[id := request], phases := s.phases[id := Waiting],
                  arrivals := s.arrivals + [id])
    case Lead(id) =>
      && id in s.phases && s.phases[id].Waiting? && s.queue != [] && s.queue[0] == id
      && s' == s.(phases := s.phases[id := MakingRoom])
    case Room(id, ok, g) => RoomStep(s, s', id, ok, g)
    case Append(id, ok) =>
      && id in s.phases && s.phases[id].Grouped?
      && var g := s.phases[id].g;
         s' == if ok then s.(phases := s.phases[id := Logged(g)], log := s.log + [Record(g.first, g.ops)])
               else s.(phases := s.phases[id := Wrote(g, Error, false)])
    case Sync(id, ok) =>
      && id in s.phases && id in s.requests && s.phases[id].Logged?
      && var g := s.phases[id].g;
         s' == if !s.requests[id].sync then s.(phases := s.phases[id := Durable(g)])
               else if ok then s.(phases := s.phases[id := Durable(g)], synced := |s.log|)
               else s.(phases := s.phases[id := Wrote(g, Error, true)])
    case Insert(id) =>
      && id in s.phases && s.phases[id].Durable?
      && var g := s.phases[id].g;
         s' == s.(phases := s.phases[id := Wrote(g, Ok, false)], mem := s.mem + Numbered(g.ops, g.first))
    case Finish(id) => FinishStep(s, s', id)
    case Return(id) =>
      && id in s.phases && s.phases[id].Done?
      && s' == s.(phases := s.phases[id := Returned(s.phases[id].result)])
  }

  // ----- what the completed groups amount to

  function Served(past: seq<Past>, k: nat): seq<nat>
    requires k <= |past|
  {
    if k == 0 then [] else Served(past, k - 1) + past[k - 1].ids
  }

  function Total(past: seq<Past>, k: nat): nat
    requires k <= |past|
  {
    if k == 0 then 0 else Total(past, k - 1) + |past[k - 1].ops|
  }

  function LogOf(past: seq<Past>, k: nat): seq<Record>
    requires k <= |past|
  {
    if k == 0 then []
    else LogOf(past, k - 1) + if past[k - 1].logged then [Record(past[k - 1].first, past[k - 1].ops)] else []
  }

  function MemOf(past: seq<Past>, k: nat): seq<(nat, Op)>
    requires k <= |past|
  {
    if k == 0 then []
    else MemOf(past, k - 1) + if past[k - 1].status.Ok? then Numbered(past[k - 1].ops, past[k - 1].first) else []
  }

  lemma {:induction false} PastSnoc(past: seq<Past>, p: Past, k: nat)
    requires k <= |past|
    ensures Served(past + [p], k) == Served(past, k) && Total(past + [p], k) == Total(past, k)
    ensures LogOf(past + [p], k) == LogOf(past, k) && MemOf(past + [p], k) == MemOf(past, k)
  {
    if k > 0 {
      PastSnoc(past, p, k - 1);
      assert (past + [p])[k - 1] == past[k - 1];
    }
  }

  // ----- the invariant

  predicate Distinct(ids: seq<nat>) { forall i, j :: 0 <= i < j < |ids| ==> ids[i] != ids[j] }

  /** Writers leave the queue in the order in which they joined it. */
  ghost predicate Fifo(s: State) {
    && s.arrivals == Served(s.past, |s.past|) + s.queue && Distinct(s.arrivals)
    && (forall id :: id in s.requests <==> id in s.arrivals)
    && s.phases.Keys == s.requests.Keys
  }

  predicate Active(p: Phase) { p.MakingRoom? || p.Grouped? || p.Logged? || p.Durable? || p.Wrote? }

  predicate Over(p: Phase, status: Status) { p == Done(status) || p == Returned(status) }

  /** Every writer of a completed group was told the group's status. */
  ghost predicate AllOver(phases: map<nat, Phase>, p: Past) {
    forall id :: id in p.ids ==> id in phases && Over(phases[id], p.status)
  }

  /** Only the writer at the front is past the wait; a writer is over exactly when its group is completed. */
  ghost predicate Phases(s: State) {
    && (forall i :: 0 <= i < |s.queue| ==> s.queue[i] in s.phases)
    && (forall i :: 0 < i < |s.queue| ==> s.phases[s.queue[i]].Waiting?)
    && (s.queue != [] ==> s.phases[s.queue[0]].Waiting? || Active(s.phases[s.queue[0]]))
    && (forall j :: 0 <= j < |s.past| ==> AllOver(s.phases, s.past[j]))
  }

  /** A group's operations are its writers' batches, in order, and no sync writer is in it unless the first one is. */
  ghost predicate Sound(rs: seq<Request>, n: nat, ops: seq<Op>) {
    && 0 < n <= |rs| && rs[0].batch.Some? && ops == AllOps(rs, n)
    && forall i :: 0 <= i < n ==> rs[i].sync ==> rs[0].sync
  }

  /** A completed group: not written at all, or written under the next sequence numbers. */
  ghost predicate PastOk(p: Past, total: nat) {
    && |p.rs| == |p.ids| > 0
    && if p.first == 0 then p.ops == [] && !p.logged && |p.rs| == 1 && (p.status.Ok? ==> p.rs[0].batch.None?)
       else Sound(p.rs, |p.rs|, p.ops) && p.first == total + 1 && (p.status.Ok? ==> p.logged)
  }

  ghost predicate PastsOk(past: seq<Past>) {
    forall j {:trigger PastOk(past[j], Total(past, j))} :: 0 <= j < |past| ==> PastOk(past[j], Total(past, j))
  }

  /** The history of completed groups keeps what was asked for. */
  ghost predicate Remembered(s: State) {
    forall j :: 0 <= j < |s.past| ==> s.past[j].rs == Requests(s.requests, s.past[j].ids)
  }

  function Leader(s: State): Phase {
    if s.queue != [] && s.queue[0] in s.phases then s.phases[s.queue[0]] else Waiting
  }

  predicate HasGroup(p: Phase) { p.Grouped? || p.Logged? || p.Durable? || p.Wrote? }
  predicate HasLogged(p: Phase) { p.Logged? || p.Durable? || (p.Wrote? && (p.status.Ok? || p.syncError)) }
  predicate HasInserted(p: Phase) { p.Wrote? && p.status.Ok? }
  predicate HasSynced(p: Phase) { p.Durable? || (p.Wrote? && p.status.Ok?) }

  /** The log, the memtable and the sequence number hold the completed groups and what the leader has done so far. */
  ghost predicate Accounts(past: seq<Past>, p: Phase, tmp: seq<Op>, log: seq<Record>, mem: seq<(nat, Op)>, lastSeq: nat) {
    && (HasGroup(p) ==> p.g.first == lastSeq + 1)
    && (p.Wrote? && p.syncError ==> p.status.Error?)
    && tmp == (if HasGroup(p) && p.g.viaTmp then p.g.ops else [])
    && log == LogOf(past, |past|) + (if HasLogged(p) then [Record(p.g.first, p.g.ops)] else [])
    && mem == MemOf(past, |past|) + (if HasInserted(p) then Numbered(p.g.ops, p.g.first) else [])
    && lastSeq == Total(past, |past|)
  }

  ghost predicate LeaderOk(s: State) {
    var p := Leader(s);
    && (HasGroup(p) ==> Sound(Requests(s.requests, s.queue), p.g.n, p.g.ops))
    && Accounts(s.past, p, s.tmp, s.log, s.mem, s.lastSeq)
  }

  predicate WasSynced(p: Past) { p.status.Ok? && p.first > 0 && p.rs != [] && p.rs[0].sync }

  predicate LeaderIsSync(s: State) { s.queue != [] && Requests(s.requests, s.queue)[0].sync }

  /** What a sync writer was told is on disk is on disk. */
  ghost predicate Synced(s: State) {
    && s.synced <= |s.log|
    && SyncedPast(s.past, s.synced)
    && (HasSynced(Leader(s)) && LeaderIsSync(s) ==> |LogOf(s.past, |s.past|)| < s.synced)
  }

  ghost predicate Inv(s: State) {
    Fifo(s) && Phases(s) && PastsOk(s.past) && Remembered(s) && LeaderOk(s) && Synced(s)
  }

  lemma InitInv(s: State)
    requires Init(s)
    ensures Inv(s)
  {
    InitAccounts(s.past, s.tmp, s.log, s.mem, s.lastSeq);
    assert Leader(s) == Waiting && LeaderOk(s);
  }

  lemma InitAccounts(past: seq<Past>, tmp: seq<Op>, log: seq<Record>, mem: seq<(nat, Op)>, lastSeq: nat)
    requires past == [] && tmp == [] && log == [] && mem == [] && lastSeq == 0
    ensures Served(past, |past|) == [] && Accounts(past, Waiting, tmp, log, mem, lastSeq)
  {}

  // ----- every step keeps the invariant

  lemma {:induction false} ServedBy(past: seq<Past>, k: nat, id: nat) returns (j: nat)
    requires k <= |past| && id in Served(past, k)
    ensures j < k && id in past[j].ids
  {
    if id in past[k - 1].ids { j := k - 1; } else { j := ServedBy(past, k - 1, id); }
  }

  /** At most one writer leads: the one at the front of the queue. */
  lemma LeaderIsFront(s: State, id: nat)
    requires Fifo(s) && Phases(s) && id in s.phases && Active(s.phases[id])
    ensures s.queue != [] && id == s.queue[0]
  {
    assert id in s.requests;
    if id in Served(s.past, |s.past|) {
      var j := ServedBy(s.past, |s.past|, id);
      assert false;
    }
    var i :| 0 <= i < |s.queue| && s.queue[i] == id;
  }

  /** A step of the leader that changes neither the queue nor the completed groups. */
  ghost predicate OnlyLeader(s: State, s': State) {
    && s.queue != [] && s.queue[0] in s.phases && s.phases[s.queue[0]].Returned? == false
    && s'.queue == s.queue && s'.requests == s.requests && s'.arrivals == s.arrivals && s'.past == s.past
    && s'.phases == s.phases[s.queue[0] := Leader(s')] && (Leader(s').Waiting? || Active(Leader(s')))
  }

  lemma FrontIsDistinct(s: State)
    requires Fifo(s)
    ensures forall i :: 0 < i < |s.queue| ==> s.queue[i] != s.queue[0]
  {
    assert forall i :: 0 <= i < |s.queue| ==> s.queue[i] == s.arrivals[|Served(s.past, |s.past|)| + i];
  }

  lemma LeaderStep(s: State, s': State)
    requires Fifo(s) && Phases(s) && OnlyLeader(s, s')
    ensures Fifo(s') && Phases(s')
  {
    FrontIsDistinct(s);
  }

  /** The leader writes: its group stays, and the log, the memtable and the disk get what its new phase says. */
  lemma LeaderWork(s: State, s': State, p: Phase, p': Phase)
    requires LeaderOk(s) && Synced(s) && OnlyLeader(s, s')
    requires p == Leader(s) && p' == Leader(s') && HasGroup(p) && HasGroup(p') && p'.g == p.g
    requires s'.tmp == s.tmp && s'.lastSeq == s.lastSeq && (p'.Wrote? && p'.syncError ==> p'.status.Error?)
    requires (HasLogged(p) ==> HasLogged(p')) && (HasInserted(p) ==> HasInserted(p'))
    requires s'.log == s.log + if HasLogged(p') && !HasLogged(p) then [Record(p.g.first, p.g.ops)] else []
    requires s'.mem == s.mem + if HasInserted(p') && !HasInserted(p) then Numbered(p.g.ops, p.g.first) else []
    requires s'.synced == s.synced || s'.synced == |s'.log|
    requires HasSynced(p') && LeaderIsSync(s) ==> HasSynced(p) || (HasLogged(p') && s'.synced == |s'.log|)
    ensures LeaderOk(s') && Synced(s')
  {
    assert Accounts(s.past, p, s.tmp, s.log, s.mem, s.lastSeq);
  }

  lemma LeadKeepsInv(s: State, s': State, id: nat)
    requires Inv(s) && Next(s, s', Lead(id))
    ensures Inv(s')
  {
    LeaderStep(s, s');
  }

  lemma AppendWork(s: State, s': State, id: nat, ok: bool)
    requires LeaderOk(s) && Synced(s) && Next(s, s', Append(id, ok)) && s.queue != [] && id == s.queue[0]
    ensures OnlyLeader(s, s') && LeaderOk(s') && Synced(s')
  {
    LeaderWork(s, s', Leader(s), Leader(s'));
  }

  lemma AppendKeepsInv(s: State, s': State, id: nat, ok: bool)
    requires Inv(s) && Next(s, s', Append(id, ok))
    ensures Inv(s')
  {
    LeaderIsFront(s, id);
    AppendWork(s, s', id, ok);
    LeaderStep(s, s');
  }

  lemma SyncWork(s: State, s': State, id: nat, ok: bool)
    requires LeaderOk(s) && Synced(s) && Next(s, s', Sync(id, ok)) && s.queue != [] && id == s.queue[0]
    ensures OnlyLeader(s, s') && LeaderOk(s') && Synced(s')
  {
    LeaderWork(s, s', Leader(s), Leader(s'));
  }

  lemma SyncKeepsInv(s: State, s': State, id: nat, ok: bool)
    requires Inv(s) && Next(s, s', Sync(id, ok))
    ensures Inv(s')
  {
    LeaderIsFront(s, id);
    SyncWork(s, s', id, ok);
    LeaderStep(s, s');
  }

  lemma InsertWork(s: State, s': State, id: nat)
    requires LeaderOk(s) && Synced(s) && Next(s, s', Insert(id)) && s.queue != [] && id == s.queue[0]
    ensures OnlyLeader(s, s') && LeaderOk(s') && Synced(s')
  {
    LeaderWork(s, s', Leader(s), Leader(s'));
  }

  lemma InsertKeepsInv(s: State, s': State, id: nat)
    requires Inv(s) && Next(s, s', Insert(id))
    ensures Inv(s')
  {
    LeaderIsFront(s, id);
    InsertWork(s, s', id);
    LeaderStep(s, s');
  }

  lemma {:induction false} AllOpsAgree(rs: seq<Request>, rs': seq<Request>, n: nat)
    requires n <= |rs| && n <= |rs'| && forall i :: 0 <= i < n ==> rs[i] == rs'[i]
    ensures AllOps(rs, n) == AllOps(rs', n)
  {
    if n > 0 { AllOpsAgree(rs, rs', n - 1); }
  }

  lemma SoundAgrees(rs: seq<Request>, rs': seq<Request>, n: nat, ops: seq<Op>)
    requires Sound(rs, n, ops) && n <= |rs'| && forall i :: 0 <= i < n ==> rs[i] == rs'[i]
    ensures Sound(rs', n, ops)
  {
    AllOpsAgree(rs, rs', n);
  }

  /** A group that BuildBatchGroup forms is sound. */
  lemma GroupIsSound(rs: seq<Request>, n: nat)
    requires IsGroup(rs, n)
    ensures Sound(rs, n, AllOps(rs, n))
  {
    forall i | 0 <= i < n && rs[i].sync ensures rs[0].sync {
      if i > 0 { assert MayJoin(rs, i); }
    }
  }

  // Enqueue

  lemma EnqueueKeepsFifo(s: State, s': State, id: nat, request: Request)
    requires Fifo(s) && Next(s, s', Enqueue(id, request))
    ensures Fifo(s')
  {
    assert id !in s.arrivals;
  }

  lemma EnqueueKeepsPhases(s: State, s': State, id: nat, request: Request)
    requires Phases(s) && Next(s, s', Enqueue(id, request)) && id !in s.phases
    ensures Phases(s')
  {}

  lemma EnqueueKeepsHistory(s: State, s': State, id: nat, request: Request)
    requires Fifo(s) && Phases(s) && Remembered(s) && Next(s, s', Enqueue(id, request))
    ensures Remembered(s')
  {
    forall j | 0 <= j < |s.past| ensures s.past[j].rs == Requests(s'.requests, s.past[j].ids) {
      var ids := s.past[j].ids;
      forall i | 0 <= i < |ids| ensures ids[i] in s.requests && ids[i] != id { assert ids[i] in ids; }
    }
  }

  lemma EnqueueKeepsLeader(s: State, s': State, id: nat, request: Request)
    requires LeaderOk(s) && Synced(s) && Next(s, s', Enqueue(id, request))
    requires forall i :: 0 <= i < |s.queue| ==> s.queue[i] in s.requests && s.queue[i] in s.phases
    ensures LeaderOk(s') && Synced(s')
  {
    var p, rs, rs' := Leader(s), Requests(s.requests, s.queue), Requests(s'.requests, s'.queue);
    assert forall i :: 0 <= i < |s.queue| ==> rs[i] == rs'[i];
    if HasGroup(p) { SoundAgrees(rs, rs', p.g.n, p.g.ops); }
  }

  lemma EnqueueKeepsInv(s: State, s': State, id: nat, request: Request)
    requires Inv(s) && Next(s, s', Enqueue(id, request))
    ensures Inv(s')
  {
    EnqueueKeepsFifo(s, s', id, request);
    EnqueueKeepsPhases(s, s', id, request);
    EnqueueKeepsHistory(s, s', id, request);
    EnqueueKeepsLeader(s, s', id, request);
  }

  // Return

  lemma ReturnKeepsInv(s: State, s': State, id: nat)
    requires Inv(s) && Next(s, s', Return(id))
    ensures Inv(s')
  {
    ReturnKeepsPhases(s, s', id);
    assert Leader(s') == Leader(s);
  }

  lemma ReturnKeepsPhases(s: State, s': State, id: nat)
    requires Phases(s) && Next(s, s', Return(id))
    ensures Phases(s') && forall i :: 0 <= i < |s.queue| ==> s.queue[i] != id
  {}

  // Room, when the leader forms a group

  lemma GroupKeepsInv(s: State, s': State, id: nat, g: Group)
    requires Inv(s) && RoomStep(s, s', id, true, g) && s.requests[id].batch.Some?
    ensures Inv(s')
  {
    LeaderIsFront(s, id);
    LeaderStep(s, s');
    GroupIsSound(Requests(s.requests, s.queue), g.n);
  }

  // the end of a group

  lemma CompleteKeepsFifo(s: State, s': State, n: nat, status: Status, p: Past)
    requires Fifo(s) && Complete(s, s', n, status, p)
    ensures Fifo(s')
  {
    PastSnoc(s.past, p, |s.past|);
    assert s.queue == s.queue[..n] + s.queue[n..];
  }

  lemma QueueIsDistinct(s: State)
    requires Fifo(s)
    ensures Distinct(s.queue)
    ensures forall i :: 0 <= i < |s.queue| ==> s.queue[i] in s.requests
  {
    var k := |Served(s.past, |s.past|)|;
    assert forall i :: 0 <= i < |s.queue| ==> s.queue[i] == s.arrivals[k + i];
  }

  lemma CompleteKeepsPhases(s: State, s': State, n: nat, status: Status, p: Past)
    requires Phases(s) && Distinct(s.queue) && 0 < n && Complete(s, s', n, status, p)
    ensures Phases(s')
  {
    forall i | n <= i < |s.queue| ensures s.queue[i] !in s.queue[..n] {}
    forall j, id | 0 <= j < |s'.past| && id in s'.past[j].ids
      ensures id in s'.phases && Over(s'.phases[id], s'.past[j].status)
    {
      if j < |s.past| {
        assert s'.past[j] == s.past[j];
      } else {
        assert id in s.queue[..n];
      }
    }
  }

  lemma {:induction false} PastsOkSnoc(past: seq<Past>, p: Past)
    requires PastsOk(past) && PastOk(p, Total(past, |past|))
    ensures PastsOk(past + [p])
  {
    var all := past + [p];
    forall j | 0 <= j < |all| ensures PastOk(all[j], Total(all, j)) {
      PastSnoc(past, p, j);
      if j < |past| { assert all[j] == past[j] && PastOk(past[j], Total(past, j)); }
    }
  }

  /** Every group that a sync writer led successfully is in the synced part of the log. */
  ghost predicate SyncedPast(past: seq<Past>, synced: nat) {
    forall j {:trigger WasSynced(past[j])} :: 0 <= j < |past| && WasSynced(past[j]) ==> |LogOf(past, j)| < synced
  }

  lemma {:induction false} SyncedSnoc(past: seq<Past>, p: Past, synced: nat)
    requires SyncedPast(past, synced) && (WasSynced(p) ==> |LogOf(past, |past|)| < synced)
    ensures SyncedPast(past + [p], synced)
  {
    var all := past + [p];
    forall j | 0 <= j < |all| && WasSynced(all[j]) ensures |LogOf(all, j)| < synced {
      PastSnoc(past, p, j);
      if j < |past| { assert all[j] == past[j]; }
    }
  }

  lemma CompleteKeepsHistory(s: State, s': State, n: nat, status: Status, p: Past)
    requires PastsOk(s.past) && Remembered(s) && Complete(s, s', n, status, p) && PastOk(p, Total(s.past, |s.past|))
    ensures PastsOk(s'.past) && Remembered(s')
  {
    PastsOkSnoc(s.past, p);
  }

  /** A completed group moves from the leader's work into the history. */
  ghost predicate Settles(l: Phase, p: Past) {
    && p.logged == HasLogged(l) && (p.status.Ok? && p.ops != [] ==> HasInserted(l))
    && (HasInserted(l) ==> p.status.Ok?)
    && (HasGroup(l) ==> p.first == l.g.first && p.ops == l.g.ops)
  }

  lemma {:induction false} AccountsSettle(
    past: seq<Past>, l: Phase, p: Past, tmp: seq<Op>, log: seq<Record>, mem: seq<(nat, Op)>, lastSeq: nat)
    requires Accounts(past, l, tmp, log, mem, lastSeq) && Settles(l, p)
    ensures Accounts(past + [p], Waiting, [], log, mem, lastSeq + |p.ops|)
  {
    PastSnoc(past, p, |past|);
  }

  /** After a group the next writer has done nothing yet, and the history accounts for everything. */
  lemma CompleteKeepsLeader(s: State, s': State, n: nat, status: Status, p: Past)
    requires LeaderOk(s) && Synced(s) && Complete(s, s', n, status, p) && Leader(s').Waiting? && Settles(Leader(s), p)
    requires WasSynced(p) ==> HasSynced(Leader(s)) && LeaderIsSync(s)
    requires s'.tmp == [] && s'.lastSeq == s.lastSeq + |p.ops|
    ensures LeaderOk(s') && Synced(s')
  {
    AccountsSettle(s.past, Leader(s), p, s.tmp, s.log, s.mem, s.lastSeq);
    SyncedSnoc(s.past, p, s.synced);
  }

  lemma CompleteKeepsQueue(s: State, s': State, n: nat, status: Status, p: Past)
    requires Fifo(s) && Phases(s) && 0 < n && Complete(s, s', n, status, p)
    ensures Fifo(s') && Phases(s') && Leader(s').Waiting?
  {
    QueueIsDistinct(s);
    CompleteKeepsFifo(s, s', n, status, p);
    CompleteKeepsPhases(s, s', n, status, p);
    NextWaits(s, s', n, status, p);
  }

  lemma NextWaits(s: State, s': State, n: nat, status: Status, p: Past)
    requires Phases(s) && Distinct(s.queue) && 0 < n && Complete(s, s', n, status, p)
    ensures Leader(s').Waiting?
  {
    if n < |s.queue| { assert s.queue[n] !in s.queue[..n]; }
  }

  /** MakeRoomForWrite failed, or there is no batch: the first writer alone is completed. */
  lemma NoRoomKeepsInv(s: State, s': State, id: nat, ok: bool, g: Group)
    requires Inv(s) && RoomStep(s, s', id, ok, g) && (!ok || s.requests[id].batch.None?)
    ensures Inv(s')
  {
    LeaderIsFront(s, id);
    var p := Past(s.queue[..1], Requests(s.requests, s.queue[..1]), Told(ok), 0, [], false);
    CompleteKeepsQueue(s, s', 1, Told(ok), p);
    CompleteKeepsHistory(s, s', 1, Told(ok), p);
    CompleteKeepsLeader(s, s', 1, Told(ok), p);
  }

  lemma FinishKeepsInv(s: State, s': State, id: nat)
    requires Inv(s) && FinishStep(s, s', id)
    ensures Inv(s')
  {
    LeaderIsFront(s, id);
    var w := s.phases[id];
    var n, rs := w.g.n, Requests(s.requests, s.queue);
    var p := Past(s.queue[..n], Requests(s.requests, s.queue[..n]), w.status, w.g.first, w.g.ops,
                  w.status.Ok? || w.syncError);
    SoundAgrees(rs, p.rs, n, w.g.ops);
    CompleteKeepsQueue(s, s', n, w.status, p);
    CompleteKeepsHistory(s, s', n, w.status, p);
    CompleteKeepsLeader(s, s', n, w.status, p);
  }

  lemma StepKeepsInv(s: State, s': State, step: Step)
    requires Inv(s) && Next(s, s', step)
    ensures Inv(s')
  {
    match step
    case Enqueue(id, request) => EnqueueKeepsInv(s, s', id, request);
    case Lead(id) => LeadKeepsInv(s, s', id);
    case Room(id, ok, g) =>
      if ok && s.requests[id].batch.Some? { GroupKeepsInv(s, s', id, g); } else { NoRoomKeepsInv(s, s', id, ok, g); }
    case Append(id, ok) => AppendKeepsInv(s, s', id, ok);
    case Sync(id, ok) => SyncKeepsInv(s, s', id, ok);
    case Insert(id) => InsertKeepsInv(s, s', id);
    case Finish(id) => FinishKeepsInv(s, s', id);
    case Return(id) => ReturnKeepsInv(s, s', id);
  }

  lemma StepPreserves(s: State, s': State, step: Step)
    ensures Inv(s) && Next(s, s', step) ==> Inv(s')
  {
    if Inv(s) && Next(s, s', step) { StepKeepsInv(s, s', step); }
  }

  // ----- runs

  ghost predicate Run(states: seq<State>, steps: seq<Step>) {
    && |states| == |steps| + 1 && Init(states[0])
    && forall i {:trigger steps[i]} :: 0 <= i < |steps| ==> Next(states[i], states[i + 1], steps[i])
  }

  lemma {:induction false} RunStep(states: seq<State>, steps: seq<Step>, i: nat)
    requires Run(states, steps) && 0 < i < |states|
    ensures !Inv(states[i - 1]) || Inv(states[i])
  {
    StepPreserves(states[i - 1], states[i], steps[i - 1]);
  }

  lemma {:induction false} RunKeepsInv(states: seq<State>, steps: seq<Step>, n: nat)
    requires Run(states, steps) && n < |states|
    ensures Inv(states[n])
  {
    var inv := s => Inv(s);
    InitInv(states[0]);
    forall i | 0 < i < |states| ensures inv(states[i - 1]) ==> inv(states[i]) { RunStep(states, steps, i); }
    Runs.Induction(states, inv, n);
  }

  // ----- what writers can rely on

  /** At every moment at most one writer leads. */
  lemma OneLeader(states: seq<State>, steps: seq<Step>, n: nat, a: nat, b: nat)
    requires Run(states, steps) && n < |states|
    requires a in states[n].phases && b in states[n].phases && Active(states[n].phases[a]) && Active(states[n].phases[b])
    ensures a == b
  {
    RunKeepsInv(states, steps, n);
    LeaderIsFront(states[n], a);
    LeaderIsFront(states[n], b);
  }

  /** tmp_batch_ is empty whenever a leader starts to form a group. */
  lemma TmpIsEmpty(states: seq<State>, steps: seq<Step>, n: nat, id: nat)
    requires Run(states, steps) && n < |states|
    requires id in states[n].phases && states[n].phases[id].MakingRoom?
    ensures states[n].tmp == []
  {
    RunKeepsInv(states, steps, n);
    LeaderIsFront(states[n], id);
  }

  /** The batches of these writers, of those that were told Ok, in this order. */
  function Acknowledged(requests: map<nat, Request>, phases: map<nat, Phase>, ids: seq<nat>): seq<Op> {
    if ids == [] then []
    else
      var before, id := Acknowledged(requests, phases, ids[..|ids| - 1]), ids[|ids| - 1];
      if id in phases && Over(phases[id], Ok) && id in requests then before + OpsOf(requests[id]) else before
  }

  function Ops(mem: seq<(nat, Op)>): seq<Op> { seq(|mem|, i requires 0 <= i < |mem| => mem[i].1) }

  lemma {:induction false} AcknowledgedJoin(requests: map<nat, Request>, phases: map<nat, Phase>, a: seq<nat>, b: seq<nat>)
    ensures Acknowledged(requests, phases, a + b) == Acknowledged(requests, phases, a) + Acknowledged(requests, phases, b)
  {
    if b == [] {
      assert a + b == a;
    } else {
      var m := |b| - 1;
      assert (a + b)[..|a| + m] == a + b[..m];
      AcknowledgedJoin(requests, phases, a, b[..m]);
    }
  }

  /** A group that ended well contributes all its batches, any other group none. */
  lemma {:induction false} GroupAcknowledged(
    requests: map<nat, Request>, phases: map<nat, Phase>, ids: seq<nat>, status: Status, k: nat)
    requires k <= |ids|
    requires forall i :: 0 <= i < |ids| ==> ids[i] in phases && Over(phases[ids[i]], status) && ids[i] in requests
    ensures Acknowledged(requests, phases, ids[..k])
         == if status.Ok? then AllOps(Requests(requests, ids), k) else []
  {
    if k > 0 {
      GroupAcknowledged(requests, phases, ids, status, k - 1);
      assert ids[..k][..k - 1] == ids[..k - 1];
    }
  }

  lemma {:induction false} MemIsAcknowledged(s: State, k: nat)
    requires Fifo(s) && Phases(s) && PastsOk(s.past) && Remembered(s) && k <= |s.past|
    ensures Ops(MemOf(s.past, k)) == Acknowledged(s.requests, s.phases, Served(s.past, k))
  {
    if k > 0 {
      MemIsAcknowledged(s, k - 1);
      OneGroup(s, k - 1);
      var p := s.past[k - 1];
      OneMore(s.requests, s.phases, Served(s.past, k - 1), MemOf(s.past, k - 1), p);
    }
  }

  lemma OneMore(requests: map<nat, Request>, phases: map<nat, Phase>, ids: seq<nat>, mem: seq<(nat, Op)>, p: Past)
    requires Ops(mem) == Acknowledged(requests, phases, ids)
    requires Acknowledged(requests, phases, p.ids) == if p.status.Ok? then p.ops else []
    ensures Ops(mem + if p.status.Ok? then Numbered(p.ops, p.first) else []) == Acknowledged(requests, phases, ids + p.ids)
  {
    AcknowledgedJoin(requests, phases, ids, p.ids);
    OpsJoin(mem, if p.status.Ok? then Numbered(p.ops, p.first) else []);
    OpsNumbered(p.ops, p.first);
  }

  lemma OpsJoin(a: seq<(nat, Op)>, b: seq<(nat, Op)>)
    ensures Ops(a + b) == Ops(a) + Ops(b)
  {}

  lemma OpsNumbered(ops: seq<Op>, first: nat)
    ensures Ops(Numbered(ops, first)) == ops
  {}

  lemma {:induction false} OneGroup(s: State, j: nat)
    requires Fifo(s) && Phases(s) && PastsOk(s.past) && Remembered(s) && j < |s.past|
    ensures Acknowledged(s.requests, s.phases, s.past[j].ids) == if s.past[j].status.Ok? then s.past[j].ops else []
  {
    var p := s.past[j];
    assert PastOk(s.past[j], Total(s.past, j));
    forall i | 0 <= i < |p.ids|
      ensures p.ids[i] in s.phases && Over(s.phases[p.ids[i]], p.status) && p.ids[i] in s.requests
    {
      assert p.ids[i] in p.ids;
    }
    assert p.ids[..|p.ids|] == p.ids;
    GroupAcknowledged(s.requests, s.phases, p.ids, p.status, |p.ids|);
    if p.first == 0 && p.status.Ok? { assert AllOps(p.rs, 1) == AllOps(p.rs, 0) + OpsOf(p.rs[0]); }
  }

  /** The main result. Whenever no leader is between its insert and its completion, the memtable holds exactly the
      batches of the writers that were told Ok, each once, in the order in which they joined the queue. */
  lemma {:induction false} MemHoldsAcknowledged(states: seq<State>, steps: seq<Step>, n: nat)
    requires Run(states, steps) && n < |states| && !HasInserted(Leader(states[n]))
    ensures Ops(states[n].mem) == Acknowledged(states[n].requests, states[n].phases, states[n].arrivals)
  {
    RunKeepsInv(states, steps, n);
    AllAcknowledged(states[n]);
  }

  lemma {:induction false} AllAcknowledged(s: State)
    requires Fifo(s) && Phases(s) && PastsOk(s.past) && Remembered(s) && s.mem == MemOf(s.past, |s.past|)
    ensures Ops(s.mem) == Acknowledged(s.requests, s.phases, s.arrivals)
  {
    MemIsAcknowledged(s, |s.past|);
    AcknowledgedJoin(s.requests, s.phases, Served(s.past, |s.past|), s.queue);
    NoneAcknowledged(s.requests, s.phases, s.queue);
  }

  lemma {:induction false} NoneAcknowledged(requests: map<nat, Request>, phases: map<nat, Phase>, ids: seq<nat>)
    requires forall i :: 0 <= i < |ids| ==> ids[i] in phases ==> phases[ids[i]].Waiting? || Active(phases[ids[i]])
    ensures Acknowledged(requests, phases, ids) == []
  {
    if ids != [] { NoneAcknowledged(requests, phases, ids[..|ids| - 1]); }
  }

  // sequence numbers

  /** Numbers increase, from 1 up to `last`. */
  ghost predicate Increasing(mem: seq<(nat, Op)>, last: nat) {
    && (forall i :: 0 <= i < |mem| ==> 1 <= mem[i].0 <= last)
    && (forall i, j :: 0 <= i < j < |mem| ==> mem[i].0 < mem[j].0)
  }

  /** The records' ranges of sequence numbers follow one another, up to `last`. */
  ghost predicate Ranges(log: seq<Record>, last: nat) {
    && (forall i :: 0 <= i < |log| ==> 1 <= log[i].first && log[i].first + |log[i].ops| <= last + 1)
    && (forall i, j :: 0 <= i < j < |log| ==> log[i].first + |log[i].ops| <= log[j].first)
  }

  lemma IncreasingJoin(mem: seq<(nat, Op)>, last: nat, ops: seq<Op>)
    requires Increasing(mem, last)
    ensures Increasing(mem + Numbered(ops, last + 1), last + |ops|)
  {}

  lemma {:induction false} HistoryIncreases(past: seq<Past>, k: nat)
    requires PastsOk(past) && k <= |past|
    ensures Increasing(MemOf(past, k), Total(past, k)) && Ranges(LogOf(past, k), Total(past, k))
  {
    if k > 0 {
      HistoryIncreases(past, k - 1);
      assert PastOk(past[k - 1], Total(past, k - 1));
      IncreasingJoin(MemOf(past, k - 1), Total(past, k - 1), past[k - 1].ops);
    }
  }

  /** Every entry and every record has its own sequence numbers, in order, and none beyond the last one given out. */
  lemma {:induction false} NumbersIncrease(states: seq<State>, steps: seq<Step>, n: nat)
    requires Run(states, steps) && n < |states|
    ensures var s, p := states[n], Leader(states[n]);
            var last := s.lastSeq + if HasGroup(p) then |p.g.ops| else 0;
            Increasing(s.mem, last) && Ranges(s.log, last)
  {
    RunKeepsInv(states, steps, n);
    var s := states[n];
    HistoryIncreases(s.past, |s.past|);
    if HasGroup(Leader(s)) { IncreasingJoin(MemOf(s.past, |s.past|), s.lastSeq, Leader(s).g.ops); }
  }

  // sync

  lemma {:induction false} LogAt(past: seq<Past>, j: nat, k: nat)
    requires j < k <= |past| && past[j].logged
    ensures |LogOf(past, j)| < |LogOf(past, k)|
    ensures LogOf(past, k)[|LogOf(past, j)|] == Record(past[j].first, past[j].ops)
  {
    if j < k - 1 { LogAt(past, j, k - 1); }
  }

  /** `part` lies at `a` in `whole`. */
  predicate At(whole: seq<Op>, a: nat, part: seq<Op>) {
    a + |part| <= |whole| && whole[a..a + |part|] == part
  }

  lemma AtEnd(s: seq<Op>, part: seq<Op>)
    ensures At(s + part, |s|, part)
  {}

  lemma AtJoin(s: seq<Op>, more: seq<Op>, a: nat, part: seq<Op>)
    ensures !At(s, a, part) || At(s + more, a, part)
  {
    if At(s, a, part) { assert (s + more)[a..a + |part|] == s[a..a + |part|]; }
  }

  lemma {:induction false} BatchInGroup(rs: seq<Request>, i: nat, n: nat, a: nat, part: seq<Op>, all: seq<Op>)
    requires i < n <= |rs| && a == |AllOps(rs, i)| && part == OpsOf(rs[i]) && all == AllOps(rs, n)
    ensures At(all, a, part)
  {
    if i < n - 1 {
      var before := AllOps(rs, n - 1);
      BatchInGroup(rs, i, n - 1, a, part, before);
      AtJoin(before, OpsOf(rs[n - 1]), a, part);
    } else {
      AtEnd(AllOps(rs, i), part);
    }
  }

  /** A sync writer that was told Ok finds its batch in a record that was synced, at `offset` in it. */
  lemma {:induction false} SyncedWriteIsDurable(states: seq<State>, steps: seq<Step>, n: nat, id: nat)
    returns (r: nat, offset: nat)
    requires Run(states, steps) && n < |states| && id in states[n].phases && Over(states[n].phases[id], Ok)
    requires id in states[n].requests && states[n].requests[id].sync && states[n].requests[id].batch.Some?
    ensures var s := states[n];
            r < s.synced <= |s.log| && At(s.log[r].ops, offset, s.requests[id].batch.value.ops)
  {
    RunKeepsInv(states, steps, n);
    var s := states[n];
    NotInQueue(s, id);
    var j := ServedBy(s.past, |s.past|, id);
    var i :| 0 <= i < |s.past[j].ids| && s.past[j].ids[i] == id;
    OverWith(s, id, j);
    r, offset := GroupIsDurable(s.past, s.synced, j, i);
    assert s.past[j].rs[i] == s.requests[id];
  }

  lemma OverWith(s: State, id: nat, j: nat)
    requires Phases(s) && id in s.phases && Over(s.phases[id], Ok) && j < |s.past| && id in s.past[j].ids
    ensures s.past[j].status.Ok?
  {}

  lemma {:induction false} GroupIsDurable(past: seq<Past>, synced: nat, j: nat, i: nat) returns (r: nat, offset: nat)
    requires PastsOk(past) && SyncedPast(past, synced) && j < |past| && past[j].status.Ok?
    requires i < |past[j].rs| && past[j].rs[i].sync && past[j].rs[i].batch.Some?
    ensures r < synced && r < |LogOf(past, |past|)| && At(LogOf(past, |past|)[r].ops, offset, OpsOf(past[j].rs[i]))
  {
    var p := past[j];
    assert PastOk(past[j], Total(past, j));
    assert WasSynced(past[j]);
    LogAt(past, j, |past|);
    r, offset := |LogOf(past, j)|, |AllOps(p.rs, i)|;
    BatchInGroup(p.rs, i, |p.rs|, offset, OpsOf(p.rs[i]), p.ops);
  }

  lemma NotInQueue(s: State, id: nat)
    requires Fifo(s) && Phases(s) && id in s.phases && (s.phases[id].Done? || s.phases[id].Returned?)
    ensures id in Served(s.past, |s.past|)
  {
    assert id in s.requests && id in s.arrivals;
    assert id !in s.queue;
  }

  /** Writers are completed in the order in which they joined the queue. */
  lemma CompletedInOrder(states: seq<State>, steps: seq<Step>, n: nat, i: nat, j: nat)
    requires Run(states, steps) && n < |states| && i < j < |states[n].arrivals|
    requires states[n].arrivals[j] in states[n].phases
    requires var p := states[n].phases[states[n].arrivals[j]]; p.Done? || p.Returned?
    ensures states[n].arrivals[i] in states[n].phases
    ensures var p := states[n].phases[states[n].arrivals[i]]; p.Done? || p.Returned?
  {
    RunKeepsInv(states, steps, n);
    InOrder(states[n], i, j);
  }

  lemma InOrder(s: State, i: nat, j: nat)
    requires Fifo(s) && Phases(s) && i < j < |s.arrivals| && s.arrivals[j] in s.phases
    requires var p := s.phases[s.arrivals[j]]; p.Done? || p.Returned?
    ensures s.arrivals[i] in s.phases
    ensures var p := s.phases[s.arrivals[i]]; p.Done? || p.Returned?
  {
    var served := Served(s.past, |s.past|);
    NotInQueue(s, s.arrivals[j]);
    var k :| 0 <= k < |served| && served[k] == s.arrivals[j];
    assert s.arrivals[k] == s.arrivals[j];
    assert s.arrivals[i] == served[i];
    var g := ServedBy(s.past, |s.past|, s.arrivals[i]);
  }
}
