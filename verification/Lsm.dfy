/** The log-structured merge tree as a transition system (db/db_impl.cc, db/version_set.cc).

    The state holds what the engine holds: the memtable, the immutable memtable, seven levels of table
    files, the write-ahead logs, the manifest's record of them, the live snapshots, and the group of
    writes that has reached the log but not yet been acknowledged.  `hist` is the specification: the plain
    sequence of acknowledged operations.  `immFrom` and `memFrom` say where in that sequence the two
    memtables begin.

    Flushes, trivial moves and compactions are single steps.
 */
module Lsm {
  import opened Keys

  const MAX_MEM_COMPACT_LEVEL: nat := 2

  // ----- table files

  datatype FileData = FileData(number: nat, entries: seq<Entry>)

  /** A table file holds at least one entry, and its entries are in internal-key order. */
  type File = f: FileData | f.entries != [] && Sorted(f.entries)
    witness FileData(0, [Entry(0.0, 0, Put, [])])

  function Smallest(f: File): Entry { f.entries[0] }
  function Largest(f: File): Entry { f.entries[|f.entries| - 1] }

  /** The user-key ranges of `f` and of [lo, hi] meet. */
  predicate Overlaps(f: File, lo: UserKey, hi: UserKey) {
    Smallest(f).user <= hi && lo <= Largest(f).user
  }

  predicate FileBefore(f: File, g: File) { Less(Largest(f), Smallest(g)) }

  ghost predicate Disjoint(fs: set<File>) {
    forall f, g :: f in fs && g in fs && f != g ==> FileBefore(f, g) || FileBefore(g, f)
  }

  /** A file number always names the same table. */
  ghost predicate Named(fs: set<File>) {
    forall f, g :: f in fs && g in fs && f.number == g.number ==> f == g
  }

  ghost function SetOf(es: seq<Entry>): set<Entry> { set e | e in es }

  ghost function Contents(fs: set<File>): set<Entry> {
    set f, e | f in fs && e in f.entries :: e
  }

  ghost function Stored(levels: seq<set<File>>): set<Entry> {
    set i, e | 0 <= i < |levels| && e in Contents(levels[i]) :: e
  }

  lemma InRange(f: File, e: Entry)
    requires e in f.entries
    ensures Smallest(f).user <= e.user <= Largest(f).user
    ensures e == Smallest(f) || Less(Smallest(f), e)
    ensures e == Largest(f) || Less(e, Largest(f))
  {
    var i :| 0 <= i < |f.entries| && f.entries[i] == e;
  }

  // ----- age

  /** Wherever `a` and `b` both hold a user key, all of `a`'s entries for it are newer. */
  ghost predicate Newer(a: set<Entry>, b: set<Entry>) {
    forall x, y :: x in a && y in b && x.user == y.user ==> x.seqno > y.seqno
  }

  /** A user key's entries get strictly older from level 0, by falling file number, downwards. */
  ghost predicate Ordered(levels: seq<set<File>>) {
    && (forall f, g :: |levels| > 0 && f in levels[0] && g in levels[0] && f.number > g.number
          ==> Newer(SetOf(f.entries), SetOf(g.entries)))
    && (forall i, j :: 0 <= i < j < |levels| ==> Newer(Contents(levels[i]), Contents(levels[j])))
  }

  /** Level 0 is told apart by file number; deeper levels hold disjoint ranges of internal keys. */
  ghost predicate Shaped(levels: seq<set<File>>) {
    && |levels| == NUM_LEVELS
    && (forall f, g :: f in levels[0] && g in levels[0] && f.number == g.number ==> f == g)
    && (forall i :: 1 <= i < NUM_LEVELS ==> Disjoint(levels[i]))
  }

  // ----- state

  type Batch = seq<Entry>

  datatype Manifest = Manifest(logNumber: nat, lastSeq: nat, nextFile: nat)

  datatype State = State(
    mem: set<Entry>, imm: Option<set<Entry>>, levels: seq<set<File>>,
    lastSeq: nat, snapshots: seq<nat>, nextFile: nat,
    logs: map<nat, seq<Batch>>, curLog: nat, manifest: Manifest,
    inflight: Option<Batch>, inserted: nat,
    hist: seq<Entry>, immFrom: nat, memFrom: nat)

  /** The logged operations that no caller has been told about yet. */
  function Pending(st: State): Batch { if st.inflight.Some? then st.inflight.value else [] }

  /** The oldest sequence number that some reader may still use. */
  function Horizon(st: State): nat {
    if st.snapshots == [] then st.lastSeq else st.snapshots[0]
  }

  function Flatten(bs: seq<Batch>): seq<Entry> {
    if bs == [] then [] else Flatten(bs[..|bs| - 1]) + bs[|bs| - 1]
  }

  /** The records of the logs `order`, read one log after the other. */
  function Replay(logs: map<nat, seq<Batch>>, order: seq<nat>): seq<Entry>
    requires forall n :: n in order ==> n in logs
  {
    if order == [] then []
    else Replay(logs, order[..|order| - 1]) + Flatten(logs[order[|order| - 1]])
  }

  ghost predicate Numbered(hist: seq<Entry>) {
    forall i :: 0 <= i < |hist| ==> hist[i].seqno == i + 1
  }

  ghost predicate Init(st: State) {
    && st.mem == {} && st.imm == None && st.levels == seq(NUM_LEVELS, i => {})
    && st.lastSeq == 0 && st.snapshots == [] && st.inflight == None && st.inserted == 0
    && st.logs == map[st.curLog := []] && st.manifest == Manifest(st.curLog, 0, st.nextFile)
    && st.curLog < st.nextFile
    && st.hist == [] && st.immFrom == 0 && st.memFrom == 0
  }

  /** The memtables hold the tail of the history, and the live logs spell out exactly that tail. */
  ghost predicate MemInv(st: State) {
    && Numbered(st.hist) && st.lastSeq == |st.hist|
    && Numbered(st.hist + Pending(st))
    && st.inserted <= |Pending(st)|
    && st.immFrom <= st.memFrom <= |st.hist|
    && st.mem == SetOf(st.hist[st.memFrom..] + Pending(st)[..st.inserted])
    && (st.imm.None? ==> st.immFrom == st.memFrom)
    && (st.imm.Some? ==> st.imm.value == SetOf(st.hist[st.immFrom..st.memFrom]))
  }

  ghost predicate LogInv(st: State) {
    var low := st.manifest.logNumber;
    && st.immFrom <= st.memFrom <= |st.hist|
    && low in st.logs && st.curLog in st.logs && low <= st.curLog < st.nextFile
    && (forall n :: n in st.logs ==> n == low || n == st.curLog || n < low)
    && Flatten(st.logs[st.curLog]) == st.hist[st.memFrom..] + Pending(st)
    && (st.inflight.Some? ==>
          var records := st.logs[st.curLog]; records != [] && records[|records| - 1] == st.inflight.value)
    && (st.imm.None? <==> low == st.curLog)
    && (st.imm.Some? ==> Flatten(st.logs[low]) == st.hist[st.immFrom..st.memFrom])
    && st.immFrom <= st.manifest.lastSeq <= st.lastSeq
    && st.manifest.nextFile <= st.nextFile
    && (forall i, f :: 0 <= i < |st.levels| && f in st.levels[i] ==> f.number < st.manifest.nextFile)
  }

  ghost predicate SnapInv(st: State) {
    && (forall i, j :: 0 <= i < j < |st.snapshots| ==> st.snapshots[i] <= st.snapshots[j])
    && (forall i :: 0 <= i < |st.snapshots| ==> st.snapshots[i] <= st.lastSeq)
  }

  /** The tables hold only entries of the history before `immFrom`. */
  ghost predicate Sound(st: State) {
    && st.immFrom <= |st.hist|
    && forall e :: e in Stored(st.levels) ==> e in SetOf(st.hist[..st.immFrom])
  }

  /** To every reader that still counts, the tables look like the whole history before `immFrom`. */
  ghost predicate Faithful(st: State) {
    && st.immFrom <= |st.hist|
    && forall k, s :: s >= Horizon(st) ==>
         View(Stored(st.levels), k, s) == View(SetOf(st.hist[..st.immFrom]), k, s)
  }

  ghost predicate Inv(st: State) {
    && MemInv(st) && SnapInv(st) && Shaped(st.levels) && LogInv(st)
    && Ordered(st.levels) && Sound(st) && Faithful(st)
  }

  // ----- steps

  /** [lo, hi] is the user-key range of `fs` (VersionSet::GetRange). */
  ghost predicate IsRange(fs: set<File>, lo: UserKey, hi: UserKey) {
    && (forall f :: f in fs ==> lo <= Smallest(f).user && Largest(f).user <= hi)
    && (exists f :: f in fs && Smallest(f).user == lo)
    && (exists f :: f in fs && Largest(f).user == hi)
  }

  /** Nothing below level `level + 1` can hold `k` (Compaction::IsBaseLevelForKey). */
  ghost predicate IsBaseLevel(levels: seq<set<File>>, level: nat, k: UserKey) {
    forall i, f :: level + 2 <= i < |levels| && f in levels[i] ==> !Overlaps(f, k, k)
  }

  /** The two drop rules of a compaction with input `a` and oldest snapshot `snap`: (A) a newer input entry
      for the same user key is already visible to everybody; (B) the entry is a deletion visible to
      everybody, with nothing beneath it to hide. */
  ghost predicate Dropped(a: set<Entry>, levels: seq<set<File>>, level: nat, snap: nat, e: Entry) {
    || (exists x :: x in a && x.user == e.user && x.seqno > e.seqno && x.seqno <= snap)
    || (e.typ.Deletion? && e.seqno <= snap && IsBaseLevel(levels, level, e.user))
  }

  datatype Inputs = Inputs(level: nat, upper: set<File>, lower: set<File>, lo: UserKey, hi: UserKey)

  /** What PickCompaction, CompactRange and SetupOtherInputs establish: some files of `level`, on level 0
      together with every file that meets their range, and all files of the next level that meet it. */
  ghost predicate Picked(levels: seq<set<File>>, c: Inputs) {
    && |levels| == NUM_LEVELS && c.level + 1 < NUM_LEVELS
    && c.upper <= levels[c.level] && IsRange(c.upper, c.lo, c.hi)
    && (c.level == 0 ==> forall f :: f in levels[0] && Overlaps(f, c.lo, c.hi) ==> f in c.upper)
    && c.lower == set f | f in levels[c.level + 1] && Overlaps(f, c.lo, c.hi)
  }

  /** No input leaves an older entry for one of its user keys behind on its own level. */
  ghost predicate Complete(levels: seq<set<File>>, c: Inputs)
    requires |levels| == NUM_LEVELS && c.level + 1 < NUM_LEVELS
  {
    && Newer(Contents(levels[c.level] - c.upper), Contents(c.upper))
    && Newer(Contents(levels[c.level + 1] - c.lower), Contents(c.lower))
  }

  ghost function Replace(levels: seq<set<File>>, c: Inputs, outputs: set<File>): seq<set<File>>
    requires |levels| == NUM_LEVELS && c.level + 1 < NUM_LEVELS
  {
    levels[c.level := levels[c.level] - c.upper][c.level + 1 := (levels[c.level + 1] - c.lower) + outputs]
  }

  /** The tables that a compaction writes: disjoint ranges, together exactly the input entries that no rule drops. */
  ghost predicate Outputs(levels: seq<set<File>>, c: Inputs, snap: nat, outputs: set<File>) {
    && Disjoint(outputs)
    && forall e :: e in Contents(outputs) <==>
         e in Contents(c.upper + c.lower) && !Dropped(Contents(c.upper + c.lower), levels, c.level, snap, e)
  }

  /** PickLevelForMemTableOutput: past level 0 only while no level on the way meets the range. */
  ghost predicate MayPlace(levels: seq<set<File>>, f: File, level: nat) {
    && level <= MAX_MEM_COMPACT_LEVEL && |levels| == NUM_LEVELS
    && (level > 0 ==> forall i, g :: 0 <= i <= level && g in levels[i]
                        ==> !Overlaps(g, Smallest(f).user, Largest(f).user))
  }

  /** The tables that recovery writes: one per slice of the replayed records, numbered in order. */
  ghost predicate Recovered(slices: seq<seq<Entry>>, files: seq<File>, low: nat, high: nat) {
    && |files| == |slices|
    && (forall i :: 0 <= i < |files| ==> SetOf(files[i].entries) == SetOf(slices[i]))
    && (forall i :: 0 <= i < |files| ==> low <= files[i].number < high)
    && (forall i, j :: 0 <= i < j < |files| ==> files[i].number < files[j].number)
  }

  datatype Step =
    | LogAppend(batch: Batch)
    | MemInsert
    | Commit
    | Switch
    | Flush(table: Option<File>, level: nat)
    | Move(c: Inputs)
    | Compact(c: Inputs, outputs: set<File>)
    | TakeSnapshot
    | Release(index: nat)
    | Crash(torn: bool, order: seq<nat>, slices: seq<seq<Entry>>, files: seq<File>)

  /** A crash may lose the last record of the current log, if it was still being written. */
  ghost function SurvivingLogs(st: State, torn: bool): map<nat, seq<Batch>>
    requires st.curLog in st.logs
  {
    var records := st.logs[st.curLog];
    if torn && st.inflight.Some? && records != []
    then st.logs[st.curLog := records[..|records| - 1]] else st.logs
  }

  ghost function MaxSeq(es: seq<Entry>): nat {
    if es == [] then 0
    else var m := MaxSeq(es[..|es| - 1]); if es[|es| - 1].seqno > m then es[|es| - 1].seqno else m
  }

  /** What a process that stopped has left on disk: the tables of its version, the logs, and the manifest. */
  datatype Disk = Disk(levels: seq<set<File>>, logs: map<nat, seq<Batch>>, manifest: Manifest)

  ghost function DiskOf(st: State, torn: bool): Disk
    requires st.curLog in st.logs
  {
    Disk(st.levels, SurvivingLogs(st, torn), st.manifest)
  }

  /** The logs that recovery reads, in increasing order. */
  ghost predicate LiveLogs(d: Disk, order: seq<nat>) {
    && (forall i, j :: 0 <= i < j < |order| ==> order[i] < order[j])
    && (forall n :: n in order <==> n in d.logs && n >= d.manifest.logNumber)
  }

  /** What recovery makes of the disk (DBImpl::Recover, RecoverLogFile, DB::Open). */
  ghost predicate Opens(d: Disk, order: seq<nat>, slices: seq<seq<Entry>>, files: seq<File>, st': State) {
    && LiveLogs(d, order)
    && var records := Replay(d.logs, order);
       && Flatten(slices) == records
       && (forall i :: 0 <= i < |slices| ==> slices[i] != [])
       && Recovered(slices, files, d.manifest.nextFile, st'.curLog)
       && (forall n :: n in d.logs ==> n < st'.curLog)
       && st'.mem == {} && st'.imm == None && st'.snapshots == []
       && |d.levels| > 0 && st'.levels == d.levels[0 := d.levels[0] + set f | f in files]
       && st'.lastSeq == (if MaxSeq(records) > d.manifest.lastSeq then MaxSeq(records) else d.manifest.lastSeq)
       && st'.nextFile > st'.curLog >= d.manifest.nextFile
       && st'.logs == map[st'.curLog := []]
       && st'.manifest == Manifest(st'.curLog, st'.lastSeq, st'.nextFile)
       && st'.inflight == None && st'.inserted == 0
  }

  /** What a crash and the following recovery leave. */
  ghost predicate CrashNext(st: State, torn: bool, order: seq<nat>, slices: seq<seq<Entry>>,
                            files: seq<File>, st': State)
  {
    && st.curLog in st.logs && Opens(DiskOf(st, torn), order, slices, files, st')
    && st'.hist == (if torn then st.hist else st.hist + Pending(st))
    && st'.immFrom == st'.memFrom == |st'.hist|
  }

  ghost predicate CompactNext(st: State, c: Inputs, outputs: set<File>, st': State) {
    && Picked(st.levels, c) && Outputs(st.levels, c, Horizon(st), outputs)
    && Named(outputs) && (forall f :: f in outputs ==> st.nextFile <= f.number < st'.nextFile)
    && st'.nextFile >= st.nextFile
    && st' == st.(levels := Replace(st.levels, c, outputs), nextFile := st'.nextFile,
                  manifest := st.manifest.(lastSeq := st.lastSeq, nextFile := st'.nextFile))
  }

  ghost predicate FlushNext(st: State, table: Option<File>, level: nat, st': State) {
    && st.imm.Some?
    && (table.None? ==> st.imm.value == {} && st'.levels == st.levels && st'.nextFile == st.nextFile)
    && (table.Some? ==>
          && SetOf(table.value.entries) == st.imm.value && MayPlace(st.levels, table.value, level)
          && table.value.number == st.nextFile && st'.nextFile == st.nextFile + 1
          && st'.levels == st.levels[level := st.levels[level] + {table.value}])
    && st' == st.(imm := None, levels := st'.levels, nextFile := st'.nextFile, immFrom := st.memFrom,
                  logs := map n | n in st.logs && n >= st.curLog :: st.logs[n],
                  manifest := Manifest(st.curLog, st.lastSeq, st'.nextFile))
  }

  ghost predicate Next(st: State, step: Step, st': State) {
    match step
    case LogAppend(batch) =>
      && st.inflight.None? && st.curLog in st.logs
      && (forall i :: 0 <= i < |batch| ==> batch[i].seqno == st.lastSeq + 1 + i)
      && st' == st.(inflight := Some(batch), inserted := 0, logs := st.logs[st.curLog := st.logs[st.curLog] + [batch]])
    case MemInsert =>
      && st.inserted < |Pending(st)|
      && st' == st.(inserted := st.inserted + 1, mem := st.mem + {Pending(st)[st.inserted]})
    case Commit =>
      && st.inflight.Some? && st.inserted == |Pending(st)|
      && st' == st.(hist := st.hist + Pending(st), lastSeq := st.lastSeq + |Pending(st)|,
                    inflight := None, inserted := 0)
    case Switch =>
      && st.inflight.None? && st.imm.None?
      && st' == st.(imm := Some(st.mem), mem := {}, curLog := st.nextFile, nextFile := st.nextFile + 1,
                    logs := st.logs[st.nextFile := []], memFrom := |st.hist|)
    case Flush(table, level) => FlushNext(st, table, level, st')
    case Move(c) =>
      && Picked(st.levels, c) && |c.upper| == 1 && c.lower == {}
      && st' == st.(levels := Replace(st.levels, c, c.upper),
                    manifest := st.manifest.(lastSeq := st.lastSeq, nextFile := st.nextFile))
    case Compact(c, outputs) => CompactNext(st, c, outputs, st')
    case TakeSnapshot => st' == st.(snapshots := st.snapshots + [st.lastSeq])
    case Release(i) =>
      && i < |st.snapshots|
      && st' == st.(snapshots := st.snapshots[..i] + st.snapshots[i + 1..])
    case Crash(torn, order, slices, files) => CrashNext(st, torn, order, slices, files, st')
  }

  /** The hypothesis on a step: if it moves or merges tables, its inputs are complete. */
  ghost predicate StepComplete(st: State, step: Step) {
    match step
    case Move(c) => |st.levels| == NUM_LEVELS && c.level + 1 < NUM_LEVELS && Complete(st.levels, c)
    case Compact(c, _) => |st.levels| == NUM_LEVELS && c.level + 1 < NUM_LEVELS && Complete(st.levels, c)
    case _ => true
  }

  // ----- reading

  ghost predicate Visible(S: set<Entry>, k: UserKey, s: nat) {
    exists e :: e in S && e.user == k && e.seqno <= s
  }

  /** Level 0 is searched from the highest file number down. */
  ghost predicate StopsInLevel0(files: set<File>, k: UserKey, s: nat, e: Entry) {
    exists f :: f in files && Newest(SetOf(f.entries), k, s, e)
      && forall g :: g in files && g.number > f.number ==> !Visible(SetOf(g.entries), k, s)
  }

  /** The entry at which Version::Get stops: in the first level that has any entry for `k` visible at `s`. */
  ghost predicate StopsInVersion(levels: seq<set<File>>, k: UserKey, s: nat, e: Entry) {
    || (|levels| > 0 && StopsInLevel0(levels[0], k, s, e))
    || (exists i :: 1 <= i < |levels| && Newest(Contents(levels[i]), k, s, e)
          && forall j :: 0 <= j < i ==> !Visible(Contents(levels[j]), k, s))
  }

  /** The entry at which DBImpl::Get stops: memtable, immutable memtable, then the tables. */
  ghost predicate StopsAt(mem: set<Entry>, imm: set<Entry>, levels: seq<set<File>>, k: UserKey, s: nat, e: Entry) {
    || Newest(mem, k, s, e)
    || (!Visible(mem, k, s) && Newest(imm, k, s, e))
    || (!Visible(mem, k, s) && !Visible(imm, k, s) && StopsInVersion(levels, k, s, e))
  }
}
