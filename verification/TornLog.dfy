/** Reading a log back after a crash: from the bytes of a file that was cut short to the batches that recovery replays
    (DBImpl::RecoverLogFile in db/db_impl.cc). */
module TornLog {
  import opened Keys
  import opened Coding
  import Log
  import WriteBatch
  import Lsm

  /** The entries of a batch: each operation under the next sequence number. */
  ghost function EntryOf(seqno: nat, op: WriteBatch.Op): Entry {
    match op
    case Set(key, value) => Entry(Position(key), seqno, Put, value)
    case Unset(key) => Entry(Position(key), seqno, Deletion, [])
  }

  ghost function Entries(ops: seq<(nat, WriteBatch.Op)>): Lsm.Batch {
    seq(|ops|, i requires 0 <= i < |ops| => EntryOf(ops[i].0, ops[i].1))
  }

  ghost function AllEntries(batches: seq<seq<(nat, WriteBatch.Op)>>): seq<Lsm.Batch> {
    seq(|batches|, i requires 0 <= i < |batches| => Entries(batches[i]))
  }

  /** The record spells out the batch. */
  ghost predicate Spells(record: Bytes, ops: seq<WriteBatch.Op>, batch: Lsm.Batch) {
    && WriteBatch.Holds(record, ops) && |batch| == |ops|
    && forall i :: 0 <= i < |ops| ==> batch[i] == EntryOf(FixedValue(record[..8]) + i, ops[i])
  }

  ghost predicate AllSpell(records: seq<Bytes>, ops: seq<seq<WriteBatch.Op>>, batches: seq<Lsm.Batch>) {
    && |records| == |ops| == |batches|
    && forall i {:trigger records[i]} :: 0 <= i < |records| ==> Spells(records[i], ops[i], batches[i])
  }

  lemma EntriesSnoc(r: seq<seq<(nat, WriteBatch.Op)>>, entries: seq<(nat, WriteBatch.Op)>)
    ensures AllEntries(r + [entries]) == AllEntries(r) + [Entries(entries)]
  {}

  /** The loop of RecoverLogFile: records shorter than a batch header are reported, and a malformed batch ends the loop
      when `paranoid` says so. */
  method InsertRecords(
    records: seq<Bytes>, paranoid: bool, ghost ops: seq<seq<WriteBatch.Op>>, ghost batches: seq<Lsm.Batch>)
    returns (r: seq<seq<(nat, WriteBatch.Op)>>, reports: seq<nat>)
    ensures AllSpell(records, ops, batches) ==> reports == [] && AllEntries(r) == batches
  {
    r, reports := [], [];
    for i := 0 to |records|
      invariant AllSpell(records, ops, batches) ==> reports == [] && AllEntries(r) == batches[..i]
    {
      if |records[i]| < WriteBatch.HEADER {
        reports := reports + [|records[i]|];
      } else {
        ghost var known := if i < |ops| then ops[i] else [];
        var entries, ok := WriteBatch.InsertInto(records[i], FixedValue(records[i][..8]), known);
        EntriesSnoc(r, entries);
        if AllSpell(records, ops, batches) {
          assert Spells(records[i], ops[i], batches[i]);
          assert Entries(entries) == batches[i];
        }
        r := r + [entries];
        if !ok && paranoid { break; }
      }
    }
  }

  /** The log of the first records is no longer than that of more of them. */
  lemma {:induction false} ImageGrows(records: seq<Bytes>, k: nat, n: nat)
    requires k <= n <= |records|
    ensures |Log.LogImage(records, k)| <= |Log.LogImage(records, n)|
  {
    Log.RecordAt(records, k, n);
    Log.RecordAt(records, n, n);
    Log.EndsIncrease(Log.LogFragments(records, n), |Log.LogFragments(records, k)|, |Log.LogFragments(records, n)|);
  }

  /** The sizes of a log's prefixes. */
  ghost predicate Sizes(records: seq<Bytes>, size: nat -> nat) {
    forall k :: 0 <= k <= |records| ==> size(k) == |Log.LogImage(records, k)|
  }

  lemma {:induction false} SizesGrow(records: seq<Bytes>, size: nat -> nat, i: nat, j: nat)
    requires Sizes(records, size) && i <= j <= |records|
    ensures size(i) <= size(j)
  {
    ImageGrows(records, i, j);
  }

  /** Of a log that ends inside its last record, or right after it, all other records are whole. */
  lemma LastIsTorn(size: nat -> nat, n: nat, total: nat, file: nat)
    requires forall i, j :: 0 <= i <= j <= total ==> size(i) <= size(j)
    requires n <= total && size(n) <= file <= size(total) && (n < total ==> file < size(n + 1))
    requires file == size(total) || (total > 0 && size(total - 1) <= file)
    ensures n == total <==> file == size(total)
    ensures n < total ==> n == total - 1
  {}

  /** ReadLog on a log that ends inside its last record, or right after it. */
  method ReadTornLog(file: Bytes, checksum: bool, ghost records: seq<Bytes>, ghost size: nat -> nat)
    returns (out: seq<Bytes>, reports: seq<nat>)
    requires Sizes(records, size) && IsPrefix(file, Log.LogImage(records, |records|))
    requires |file| == size(|records|) || (records != [] && size(|records| - 1) <= |file|)
    ensures reports == []
    ensures out == if |file| == size(|records|) then records else records[..|records| - 1]
  {
    out, reports := Log.ReadLog(file, checksum, records);
    LogIsTorn(file, records, out, size);
  }

  lemma {:induction false} LogIsTorn(file: Bytes, records: seq<Bytes>, out: seq<Bytes>, size: nat -> nat)
    requires Sizes(records, size) && |file| <= |Log.LogImage(records, |records|)| && Log.ReadSoFar(file, records, out)
    requires |out| < |records| ==> |file| < |Log.LogImage(records, |out| + 1)|
    requires |file| == size(|records|) || (records != [] && size(|records| - 1) <= |file|)
    ensures |out| == if |file| == size(|records|) then |records| else |records| - 1
  {
    forall i, j | 0 <= i <= j <= |records| ensures size(i) <= size(j) { SizesGrow(records, size, i, j); }
    LastIsTorn(size, |out|, |records|, |file|);
  }

  lemma SpellPrefix(records: seq<Bytes>, ops: seq<seq<WriteBatch.Op>>, batches: seq<Lsm.Batch>, n: nat)
    requires AllSpell(records, ops, batches) && n <= |records|
    ensures AllSpell(records[..n], ops[..n], batches[..n])
  {}

  /** Replaying the current log of a database that stopped while it wrote the last record: wherever in that record the
      file ends, what is replayed is what a crash leaves in the log, and nothing is reported as corrupt. */
  method RecoverCurrentLog(
    file: Bytes, checksum: bool, paranoid: bool, ghost st: Lsm.State,
    ghost records: seq<Bytes>, ghost ops: seq<seq<WriteBatch.Op>>, ghost size: nat -> nat)
    returns (r: seq<seq<(nat, WriteBatch.Op)>>, reports: seq<nat>)
    requires Lsm.LogInv(st) && AllSpell(records, ops, st.logs[st.curLog])
    requires Sizes(records, size) && IsPrefix(file, Log.LogImage(records, |records|))
    requires |file| == size(|records|) || (st.inflight.Some? && size(|records| - 1) <= |file|)
    ensures reports == []
    ensures AllEntries(r) == Lsm.SurvivingLogs(st, |file| < size(|records|))[st.curLog]
  {
    var out;
    out, reports := ReadTornLog(file, checksum, records, size);
    var more;
    SpellPrefix(records, ops, st.logs[st.curLog], |out|);
    r, more := InsertRecords(out, paranoid, ops[..|out|], st.logs[st.curLog][..|out|]);
    reports := reports + more;
  }
}
