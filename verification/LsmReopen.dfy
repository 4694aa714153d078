/** Recoveries that do not finish (DB::Open in db/db_impl.cc). Until the manifest is switched, the tables that a recovery
    writes belong to no version; all that it leaves for the next one is the new, empty log that it may have created. */
module LsmReopen {
  import opened Keys
  import opened Lsm
  import opened LsmRuns

  /** The empty log that a recovery has created is newer than every log that it has read. */
  ghost predicate NewLog(d: Disk, d': Disk, n: nat) {
    && (forall m :: m in d.logs ==> m < n) && n >= d.manifest.logNumber
    && d' == d.(logs := d.logs[n := []])
  }

  /** A recovery of `d` that was cut short before its manifest counted has left `d'`. */
  ghost predicate CutShort(d: Disk, d': Disk) { d' == d || exists n :: NewLog(d, d', n) }

  lemma {:induction false} ReplaySame(a: map<nat, seq<Batch>>, b: map<nat, seq<Batch>>, order: seq<nat>)
    requires forall n :: n in order ==> n in a && n in b && a[n] == b[n]
    ensures Replay(a, order) == Replay(b, order)
  {
    if order != [] { ReplaySame(a, b, order[..|order| - 1]); }
  }

  /** The new log is the last one to be read. */
  lemma NewLogIsLast(d: Disk, d': Disk, n: nat, order: seq<nat>)
    requires NewLog(d, d', n) && LiveLogs(d', order)
    ensures order != [] && order[|order| - 1] == n && LiveLogs(d, order[..|order| - 1])
  {
    assert n in order && forall m :: m in order ==> m <= n;
    LastIsLargest(order, n);
    WithoutLast(order);
    assert forall m :: m in d'.logs <==> m in d.logs || m == n;
  }

  lemma LastIsLargest(order: seq<nat>, n: nat)
    requires n in order && (forall m :: m in order ==> m <= n)
    requires forall i, j :: 0 <= i < j < |order| ==> order[i] < order[j]
    ensures order[|order| - 1] == n
  {
    var i :| 0 <= i < |order| && order[i] == n;
    assert order[i] <= order[|order| - 1] && order[|order| - 1] in order;
  }

  lemma WithoutLast(order: seq<nat>)
    requires order != [] && forall i, j :: 0 <= i < j < |order| ==> order[i] < order[j]
    ensures forall m :: m in order[..|order| - 1] <==> m in order && m != order[|order| - 1]
  {
    var before := order[..|order| - 1];
    forall m | m in order && m != order[|order| - 1] ensures m in before {
      var j :| 0 <= j < |order| && order[j] == m;
      assert before[j] == m;
    }
  }

  lemma NewLogIsEmpty(d: Disk, d': Disk, n: nat, order: seq<nat>)
    requires NewLog(d, d', n) && LiveLogs(d', order)
    ensures order != [] && LiveLogs(d, order[..|order| - 1])
    ensures Replay(d'.logs, order) == Replay(d.logs, order[..|order| - 1])
  {
    NewLogIsLast(d, d', n, order);
    ReplaySame(d'.logs, d.logs, order[..|order| - 1]);
    assert Flatten([]) == [];
  }

  /** Recovering after one that was cut short is recovering. */
  lemma OpensBefore(d: Disk, d': Disk, order: seq<nat>, slices: seq<seq<Entry>>, files: seq<File>, st': State)
    returns (order0: seq<nat>)
    requires CutShort(d, d') && Opens(d', order, slices, files, st')
    ensures Opens(d, order0, slices, files, st')
  {
    order0 := order;
    if d' != d {
      var n :| NewLog(d, d', n);
      NewLogIsEmpty(d, d', n, order);
      order0 := order[..|order| - 1];
    }
  }

  /** What any number of recoveries that were cut short leave, one after the other. */
  ghost predicate Attempts(disks: seq<Disk>) {
    disks != [] && forall i :: 0 < i < |disks| ==> CutShort(disks[i - 1], disks[i])
  }

  lemma {:induction false} OpensFirst(
    disks: seq<Disk>, n: nat, order: seq<nat>, slices: seq<seq<Entry>>, files: seq<File>, st': State)
    returns (order0: seq<nat>)
    requires Attempts(disks) && n < |disks| && Opens(disks[n], order, slices, files, st')
    ensures Opens(disks[0], order0, slices, files, st')
  {
    if n == 0 {
      order0 := order;
    } else {
      var order1 := OpensBefore(disks[n - 1], disks[n], order, slices, files, st');
      order0 := OpensFirst(disks, n - 1, order1, slices, files, st');
    }
  }

  /** A crash followed by any number of recoveries that are cut short and one that is not is one Crash step: nothing
      acknowledged is lost, and the database satisfies the invariant again. */
  lemma InterruptedIsOneCrash(
    st: State, torn: bool, disks: seq<Disk>, order: seq<nat>, slices: seq<seq<Entry>>, files: seq<File>, st': State)
    returns (step: Step)
    requires Inv(st) && Attempts(disks) && disks[0] == DiskOf(st, torn)
    requires Opens(disks[|disks| - 1], order, slices, files, st')
    requires st'.hist == Surviving(st, torn) && st'.immFrom == st'.memFrom == |st'.hist|
    ensures step.Crash? && Next(st, step, st') && Inv(st')
  {
    var order0 := OpensFirst(disks, |disks| - 1, order, slices, files, st');
    step := Crash(torn, order0, slices, files);
    CrashKeepsInv(st, torn, order0, slices, files, st');
  }
}
