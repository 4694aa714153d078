/** What the write-ahead log holds of the group-committed writes (DBImpl::Write in db/db_impl.cc). */
module GroupLog {
  import opened Keys
  import Runs
  import opened GroupCommit

  /** The operations of the log's records, one record after the other. */
  function LoggedOps(log: seq<Record>): seq<Op> {
    if log == [] then [] else LoggedOps(log[..|log| - 1]) + log[|log| - 1].ops
  }

  /** A logged group whose writers were told an error is the last one in the log: no group follows it. */
  ghost predicate OnlyLastFails(past: seq<Past>, bgError: bool) {
    && (!bgError ==> forall j :: 0 <= j < |past| ==> past[j].logged ==> past[j].status.Ok?)
    && (forall i, j :: 0 <= i < j < |past| && past[i].logged && past[j].logged ==> past[i].status.Ok?)
  }

  /** After a failed sync nobody forms a group any more. */
  ghost predicate Halted(s: State) {
    && (s.bgError ==> forall id :: id in s.phases ==> !HasGroup(s.phases[id]))
    && OnlyLastFails(s.past, s.bgError)
  }

  lemma FinishKeepsHalted(s: State, s': State, id: nat)
    requires Inv(s) && Next(s, s', Finish(id)) && Halted(s)
    ensures Halted(s')
  {
    forall x | x in s'.phases ensures !HasGroup(s'.phases[x]) {
      if x in s.phases && Active(s.phases[x]) {
        LeaderIsFront(s, x);
        LeaderIsFront(s, id);
        FrontCompletes(s, id);
      }
    }
  }

  /** The leader is the first writer of its own group. */
  lemma FrontCompletes(s: State, id: nat)
    requires Phases(s) && LeaderOk(s) && id in s.phases && s.phases[id].Wrote? && s.queue != [] && s.queue[0] == id
    ensures 0 < s.phases[id].g.n && (s.phases[id].g.n <= |s.queue| ==> id in s.queue[..s.phases[id].g.n])
  {
    assert HasGroup(Leader(s));
    if s.phases[id].g.n <= |s.queue| { assert s.queue[..s.phases[id].g.n][0] == id; }
  }

  /** A writer that is turned away ends a group that wrote nothing. */
  lemma RoomKeepsHalted(s: State, s': State, step: Step)
    requires Halted(s) && Next(s, s', step) && step.Room?
    ensures Halted(s')
  {
    assert forall x :: x in s'.phases && x != step.id ==>
                         x in s.phases && (HasGroup(s'.phases[x]) ==> HasGroup(s.phases[x]));
    assert s'.past == s.past || exists p: Past :: !p.logged && s'.past == s.past + [p];
  }

  lemma StepKeepsHalted(s: State, s': State, step: Step)
    requires Inv(s) && Next(s, s', step) && Halted(s)
    ensures Halted(s')
  {
    if step.Finish? {
      FinishKeepsHalted(s, s', step.id);
    } else if step.Room? {
      RoomKeepsHalted(s, s', step);
    } else {
      assert s'.past == s.past && s'.bgError == s.bgError;
    }
  }

  ghost predicate Safe(s: State) { Inv(s) && Halted(s) }

  lemma {:induction false} SafeStep(states: seq<State>, steps: seq<Step>, i: nat)
    requires Run(states, steps) && 0 < i < |states|
    ensures !Safe(states[i - 1]) || Safe(states[i])
  {
    if Safe(states[i - 1]) {
      StepKeepsHalted(states[i - 1], states[i], steps[i - 1]);
      StepPreserves(states[i - 1], states[i], steps[i - 1]);
    }
  }

  lemma {:induction false} RunIsSafe(states: seq<State>, steps: seq<Step>, n: nat)
    requires Run(states, steps) && n < |states|
    ensures Safe(states[n])
  {
    var inv := s => Safe(s);
    InitInv(states[0]);
    forall i | 0 < i < |states| ensures inv(states[i - 1]) ==> inv(states[i]) { SafeStep(states, steps, i); }
    Runs.Induction(states, inv, n);
  }

  lemma LoggedSnoc(log: seq<Record>, r: Record)
    ensures LoggedOps(log + [r]) == LoggedOps(log) + r.ops
  {
    assert (log + [r])[..|log|] == log;
  }

  /** The log covers the memtable, and holds nothing more if every logged group ended well. */
  ghost predicate Covers(log: seq<Record>, mem: seq<(nat, Op)>, allOk: bool) {
    Ops(mem) <= LoggedOps(log) && (allOk ==> Ops(mem) == LoggedOps(log))
  }

  lemma GroupCovers(log: seq<Record>, mem: seq<(nat, Op)>, p: Past, allOk: bool)
    requires Covers(log, mem, allOk) && (p.logged ==> allOk) && (p.status.Ok? ==> p.logged || p.ops == [])
    ensures Covers(log + (if p.logged then [Record(p.first, p.ops)] else []),
                   mem + (if p.status.Ok? then Numbered(p.ops, p.first) else []),
                   allOk && (p.logged ==> p.status.Ok?))
  {
    LoggedSnoc(log, Record(p.first, p.ops));
    OpsJoin(mem, Numbered(p.ops, p.first));
    OpsNumbered(p.ops, p.first);
    assert log + [] == log && mem + [] == mem;
  }

  ghost predicate AllOk(past: seq<Past>, k: nat)
    requires k <= |past|
  {
    forall j :: 0 <= j < k ==> past[j].logged ==> past[j].status.Ok?
  }

  lemma {:induction false} LogCoversMem(past: seq<Past>, bgError: bool, k: nat)
    requires PastsOk(past) && OnlyLastFails(past, bgError) && k <= |past|
    ensures Covers(LogOf(past, k), MemOf(past, k), AllOk(past, k))
  {
    if k > 0 {
      LogCoversMem(past, bgError, k - 1);
      assert PastOk(past[k - 1], Total(past, k - 1));
      GroupCovers(LogOf(past, k - 1), MemOf(past, k - 1), past[k - 1], AllOk(past, k - 1));
    }
  }

  lemma {:induction false} LogIsAcknowledged(s: State)
    requires Fifo(s) && Phases(s) && PastsOk(s.past) && Remembered(s) && OnlyLastFails(s.past, s.bgError)
    requires s.log == LogOf(s.past, |s.past|)
    ensures var acknowledged := Acknowledged(s.requests, s.phases, s.arrivals);
            acknowledged <= LoggedOps(s.log) && (!s.bgError ==> acknowledged == LoggedOps(s.log))
  {
    AllAcknowledged(s.(mem := MemOf(s.past, |s.past|)));
    LogCoversMem(s.past, s.bgError, |s.past|);
  }

  /** The log half of group commit. Whenever no leader is between its append and its completion, the log spells out
      the batches of the writers that were told Ok, each once, in the order in which they joined the queue; after
      them there can be at most the batches of one group whose sync failed. */
  lemma {:induction false} LogHoldsAcknowledged(states: seq<State>, steps: seq<Step>, n: nat)
    requires Run(states, steps) && n < |states| && !HasLogged(Leader(states[n]))
    ensures var s := states[n];
            var acknowledged := Acknowledged(s.requests, s.phases, s.arrivals);
            acknowledged <= LoggedOps(s.log) && (!s.bgError ==> acknowledged == LoggedOps(s.log))
  {
    RunIsSafe(states, steps, n);
    LogIsAcknowledged(states[n]);
  }

  /** Every writer that was told Ok finds its batch in record `r` of the log, at `offset`. */
  lemma {:induction false} AcknowledgedIsLogged(states: seq<State>, steps: seq<Step>, n: nat, id: nat)
    returns (r: nat, offset: nat)
    requires Run(states, steps) && n < |states| && id in states[n].phases && Over(states[n].phases[id], Ok)
    requires id in states[n].requests && states[n].requests[id].batch.Some?
    ensures var s := states[n];
            r < |s.log| && At(s.log[r].ops, offset, s.requests[id].batch.value.ops)
  {
    RunKeepsInv(states, steps, n);
    var s := states[n];
    NotInQueue(s, id);
    var j := ServedBy(s.past, |s.past|, id);
    var i :| 0 <= i < |s.past[j].ids| && s.past[j].ids[i] == id;
    OverWith(s, id, j);
    r, offset := GroupIsLogged(s.past, j, i);
    assert s.past[j].rs[i] == s.requests[id];
  }

  lemma {:induction false} GroupIsLogged(past: seq<Past>, j: nat, i: nat) returns (r: nat, offset: nat)
    requires PastsOk(past) && j < |past| && past[j].status.Ok?
    requires i < |past[j].rs| && past[j].rs[i].batch.Some?
    ensures r < |LogOf(past, |past|)| && At(LogOf(past, |past|)[r].ops, offset, OpsOf(past[j].rs[i]))
  {
    var p := past[j];
    assert PastOk(past[j], Total(past, j));
    LogAt(past, j, |past|);
    r, offset := |LogOf(past, j)|, |AllOps(p.rs, i)|;
    BatchInGroup(p.rs, i, |p.rs|, offset, OpsOf(p.rs[i]), p.ops);
  }
}
