/** Deleting obsolete logs and recovering from the ones that are left (DBImpl::DeleteObsoleteFiles and DBImpl::Recover in
    db/db_impl.cc). */
module LogFiles {
  import opened Keys
  import opened Lsm
  import opened LsmRuns
  import opened LsmReopen
  import Files

  /** The logs whose files are left. */
  ghost function LogsLeft(logs: map<nat, seq<Batch>>, left: set<Files.FileName>): map<nat, seq<Batch>> {
    map n | n in logs && Files.FileName(Files.LogFile, n) in left :: logs[n]
  }

  /** The disk after a deletion. */
  ghost function DiskLeft(d: Disk, left: set<Files.FileName>): Disk { d.(logs := LogsLeft(d.logs, left)) }

  /** Recovery reads the same logs, in the same order, and replays the same operations. */
  ghost predicate SameReplay(d: Disk, d': Disk) {
    forall order :: (LiveLogs(d, order) <==> LiveLogs(d', order))
      && (LiveLogs(d, order) ==> Replay(d.logs, order) == Replay(d'.logs, order))
  }

  lemma NeededLogsReplay(d: Disk, left: set<Files.FileName>)
    requires forall n :: n in d.logs && n >= d.manifest.logNumber ==> Files.FileName(Files.LogFile, n) in left
    ensures SameReplay(d, DiskLeft(d, left))
  {
    var d' := DiskLeft(d, left);
    forall n ensures n in d.logs && n >= d.manifest.logNumber <==> n in d'.logs && n >= d.manifest.logNumber {}
    forall order | LiveLogs(d, order) ensures LiveLogs(d', order) && Replay(d.logs, order) == Replay(d'.logs, order) {
      ReplaySame(d.logs, d'.logs, order);
    }
    forall order | LiveLogs(d', order) ensures LiveLogs(d, order) {}
  }

  /** DeleteObsoleteFiles in any state that a run reaches, with an error or without: a crash right after it recovers what
      a crash right before it would have recovered, and the database stays as it must be. */
  method DeleteLogs(
    names: set<Files.FileName>, bgError: bool, pending: set<nat>, versions: seq<Files.Version>,
    metas: map<nat, Files.Meta>, prevLogNumber: nat, descriptor: nat, logNumber: nat, ghost st: State)
    returns (left: set<Files.FileName>)
    requires Inv(st) && logNumber == st.manifest.logNumber
    requires forall n :: n in st.logs ==> Files.FileName(Files.LogFile, n) in names
    ensures SameReplay(DiskOf(st, false), DiskLeft(DiskOf(st, false), left))
    ensures SameReplay(DiskOf(st, true), DiskLeft(DiskOf(st, true), left))
    ensures Inv(st.(logs := LogsLeft(st.logs, left)))
    ensures !bgError && prevLogNumber == 0 ==> forall n :: 0 < n < logNumber ==> n !in LogsLeft(st.logs, left)
  {
    left := Files.DeleteObsoleteFiles(names, bgError, pending, versions, metas, logNumber, prevLogNumber, descriptor);
    NeededLogsReplay(DiskOf(st, false), left);
    NeededLogsReplay(DiskOf(st, true), left);
    FewerLogs(st, LogsLeft(st.logs, left));
  }

  /** Old logs are of no use to the invariant. */
  lemma FewerLogs(st: State, logs: map<nat, seq<Batch>>)
    requires Inv(st) && (forall n :: n in logs ==> n in st.logs && logs[n] == st.logs[n])
    requires forall n :: n in st.logs && n >= st.manifest.logNumber ==> n in logs
    ensures Inv(st.(logs := logs))
  {
    var st' := st.(logs := logs);
    assert Pending(st') == Pending(st) && Horizon(st') == Horizon(st);
    assert MemInv(st') && SnapInv(st') && LogInv(st') && Sound(st') && Faithful(st');
  }
}
