/** Which table files are on disk (VersionSet and Version reference counts in db/version_set.cc, pending_outputs_ and
    DeleteObsoleteFiles in db/db_impl.cc). A step is what happens under one hold of the mutex; there is one background
    worker, and only it makes versions and deletes files. */
module Files {
  import opened Keys
  import Runs

  /** A FileMetaData object. */
  datatype Meta = Meta(number: nat, refs: nat)

  /** A Version: the objects that it lists on all its levels, and its reference count. */
  datatype Version = Version(id: nat, files: seq<nat>, refs: nat)

  /** `versions` is the list of live versions; the last one is current. `made` is the version that LogAndApply has
      built and not installed yet; `built` are flushed tables that are no longer pending and not installed yet.
      `open` are the tables that are being written, and `written` those whose writer reported success: what becomes
      of them on disk is left to the steps. `holds` counts the references that callers have on versions. */
  datatype State = State(
    versions: seq<Version>, made: Option<Version>, metas: map<nat, Meta>, nextMeta: nat, nextVersion: nat,
    nextFile: nat, disk: set<nat>, pending: set<nat>, open: set<nat>, written: set<nat>, built: set<nat>,
    holds: multiset<nat>, bgError: bool)

  // ----- reference counts of files

  function Times(files: seq<nat>, m: nat): nat { if m in files then 1 else 0 }

  /** How many of the first `k` versions list an object. */
  function Listings(versions: seq<Version>, m: nat, k: nat): nat
    requires k <= |versions|
  {
    if k == 0 then 0 else Listings(versions, m, k - 1) + Times(versions[k - 1].files, m)
  }

  function MadeFiles(made: Option<Version>): seq<nat> { if made.Some? then made.value.files else [] }

  /** Dropping a version's references: an object without references is deleted. */
  function Dropped(metas: map<nat, Meta>, files: seq<nat>): map<nat, Meta> {
    map m | m in metas && !(m in files && metas[m].refs <= 1) ::
      if m in files then metas[m].(refs := metas[m].refs - 1) else metas[m]
  }

  /** Builder::SaveTo's references for a new version that keeps `kept` and adds `added`. */
  function Taken(metas: map<nat, Meta>, kept: seq<nat>, next: nat, added: seq<nat>): map<nat, Meta> {
    map m | m in metas.Keys + (set i | i in NewMetas(next, |added|)) ::
      if next <= m < next + |added| then Meta(added[m - next], 1)
      else if m in kept then metas[m].(refs := metas[m].refs + 1) else metas[m]
  }

  // ----- steps

  datatype Step =
    | Hold
    | Unhold(i: nat)
    | NewOutput
    | CreateOutput(number: nat)
    | FinishOutput(number: nat, ok: bool)
    | RemoveOutput(number: nat)
    | EndFlush(number: nat)
    | Make(kept: seq<nat>, added: seq<nat>)
    | Install(ok: bool)
    | Fail
    | Forget(outputs: set<nat>)
    | DeleteObsolete

  function RemoveAt(s: seq<Version>, i: nat): seq<Version>
    requires i < |s|
  {
    s[..i] + s[i + 1..]
  }

  /** Version::Unref: the last reference deletes the version. */
  function Unreffed(s: State, i: nat): State
    requires i < |s.versions|
  {
    var v := s.versions[i];
    if v.refs > 1 then s.(versions := s.versions[i := v.(refs := v.refs - 1)])
    else s.(versions := RemoveAt(s.versions, i), metas := Dropped(s.metas, v.files))
  }

  ghost predicate Consecutive(s: seq<nat>, first: nat) { forall i :: 0 <= i < |s| ==> s[i] == first + i }

  function NewMetas(first: nat, n: nat): seq<nat> { seq(n, i requires 0 <= i < n => first + i) }

  function Numbers(metas: map<nat, Meta>, files: seq<nat>): set<nat> {
    set m | m in files && m in metas :: metas[m].number
  }

  /** AddLiveFiles */
  function Live(versions: seq<Version>, metas: map<nat, Meta>): set<nat> {
    set v, m | v in versions && m in v.files && m in metas :: metas[m].number
  }

  /** The files that an edit adds: new outputs, or a file that moves to another level. */
  ghost predicate MayAdd(s: State, number: nat)
    requires s.versions != []
  {
    || (number in s.pending + s.built && number in s.written)
    || number in Numbers(s.metas, s.versions[|s.versions| - 1].files)
  }

  ghost predicate Next(s: State, s': State, step: Step) {
    && s.versions != []
    && var last := |s.versions| - 1;
       match step
       case Hold =>
         && var v := s.versions[last];
            s' == s.(versions := s.versions[last := v.(refs := v.refs + 1)], holds := s.holds + multiset{v.id})
       case Unhold(i) =>
         && i < |s.versions| && s.versions[i].id in s.holds
         && s' == Unreffed(s, i).(holds := s.holds - multiset{s.versions[i].id})
       case NewOutput =>
         s' == s.(pending := s.pending + {s.nextFile}, nextFile := s.nextFile + 1)
       case CreateOutput(n) =>
         && n in s.pending && s' == s.(disk := s.disk + {n}, open := s.open + {n})
       case FinishOutput(n, ok) =>
         && n in s.open && s' == s.(open := s.open - {n}, written := if ok then s.written + {n} else s.written)
       case RemoveOutput(n) =>
         && n in s.pending && n !in s.open + s.written && s' == s.(disk := s.disk - {n})
       case EndFlush(n) =>
         && n in s.pending && n !in s.open && s.made.None?
         && s' == s.(pending := s.pending - {n}, built := if n in s.written then s.built + {n} else s.built)
       case Make(kept, added) =>
         && s.made.None? && (forall m :: m in kept ==> m in s.versions[last].files)
         && (forall n :: n in added ==> MayAdd(s, n))
         && s' == s.(made := Some(Version(s.nextVersion, kept + NewMetas(s.nextMeta, |added|), 0)),
                     metas := Taken(s.metas, kept, s.nextMeta, added),
                     nextMeta := s.nextMeta + |added|, nextVersion := s.nextVersion + 1)
       case Install(ok) =>
         && s.made.Some?
         && if ok
            then s' == var u := Unreffed(s, last);
                       u.(versions := u.versions + [s.made.value.(refs := 1)], made := None, built := {})
            else s' == s.(made := None, metas := Dropped(s.metas, s.made.value.files), bgError := true)
       case Fail =>
         && s.made.None? && s' == s.(bgError := true)
       case Forget(outputs) =>
         && s.made.None? && s' == s.(pending := s.pending - outputs)
       case DeleteObsolete =>
         && s.made.None? && (s.built == {} || s.bgError)
         && s' == Deleted(s)
  }

  /** What DeleteObsoleteFiles leaves of the tables. */
  function Deleted(s: State): State {
    if s.bgError then s else s.(disk := s.disk * (s.pending + Live(s.versions, s.metas)))
  }

  // ----- the invariant

  /** Every reference to an object is a version that lists it. */
  ghost predicate Counted(s: State) {
    && (forall m :: m in s.metas ==>
          m < s.nextMeta && s.metas[m].refs == Listings(s.versions, m, |s.versions|) + Times(MadeFiles(s.made), m) > 0)
    && (forall v, m :: v in s.versions && m in v.files ==> m in s.metas)
    && (forall m :: m in MadeFiles(s.made) ==> m in s.metas)
  }

  /** Every reference to a version is a holder, or that it is current. */
  ghost predicate Held(s: State) {
    && s.versions != []
    && (forall i :: 0 <= i < |s.versions| ==>
          s.versions[i].refs == s.holds[s.versions[i].id] + (if i == |s.versions| - 1 then 1 else 0) > 0)
    && (forall i, j :: 0 <= i < j < |s.versions| ==> s.versions[i].id != s.versions[j].id)
    && (forall i :: 0 <= i < |s.versions| ==> s.versions[i].id < s.nextVersion)
    && (forall id :: id in s.holds ==> id < s.nextVersion)
    && (s.made.Some? ==> NotHeld(s, s.made.value.id))
  }

  ghost predicate NotHeld(s: State, id: nat) {
    && id < s.nextVersion && id !in s.holds
    && forall i :: 0 <= i < |s.versions| ==> s.versions[i].id != id
  }

  /** Every file that a version lists is on disk. */
  ghost predicate OnDisk(s: State) {
    forall m :: m in s.metas ==> s.metas[m].number in s.disk
  }

  /** What was written and may still be named by an edit is on disk, and every file that a version lists was written. */
  ghost predicate Kept(s: State) {
    && (forall n :: (n in s.open || n in s.written) && (n in s.pending || n in s.built) ==> n in s.disk)
    && (forall n :: n in s.open || n in s.written || n in s.pending || n in s.built ==> n < s.nextFile)
    && s.built <= s.written && (forall m :: m in s.metas ==> s.metas[m].number in s.written)
  }

  ghost predicate Inv(s: State) { Counted(s) && Held(s) && OnDisk(s) && Kept(s) }

  // ----- counting

  lemma {:induction false} ListingsSame(a: seq<Version>, b: seq<Version>, m: nat, k: nat)
    requires k <= |a| && k <= |b| && forall i :: 0 <= i < k ==> a[i].files == b[i].files
    ensures Listings(a, m, k) == Listings(b, m, k)
  {
    if k > 0 { ListingsSame(a, b, m, k - 1); }
  }

  lemma {:induction false} ListingsRemove(a: seq<Version>, i: nat, m: nat, k: nat)
    requires i < k <= |a|
    ensures Listings(RemoveAt(a, i), m, k - 1) + Times(a[i].files, m) == Listings(a, m, k)
  {
    if i < k - 1 {
      ListingsRemove(a, i, m, k - 1);
      assert RemoveAt(a, i)[k - 2] == a[k - 1];
    } else {
      ListingsSame(RemoveAt(a, i), a, m, i);
    }
  }

  lemma {:induction false} ListingsAppend(a: seq<Version>, v: Version, m: nat)
    ensures Listings(a + [v], m, |a| + 1) == Listings(a, m, |a|) + Times(v.files, m)
  {
    ListingsSame(a + [v], a, m, |a|);
  }

  lemma {:induction false} ListedBy(a: seq<Version>, m: nat, k: nat) returns (i: nat)
    requires k <= |a| && Listings(a, m, k) > 0
    ensures i < k && m in a[i].files
  {
    if m in a[k - 1].files { i := k - 1; } else { i := ListedBy(a, m, k - 1); }
  }

  lemma {:induction false} ListedCounts(a: seq<Version>, m: nat, i: nat, k: nat)
    requires i < k <= |a| && m in a[i].files
    ensures Listings(a, m, k) > 0
  {
    if i < k - 1 { ListedCounts(a, m, i, k - 1); }
  }

  lemma {:induction false} NotListed(a: seq<Version>, metas: map<nat, Meta>, m: nat, k: nat)
    requires k <= |a| && m !in metas && forall v, x :: v in a && x in v.files ==> x in metas
    ensures Listings(a, m, k) == 0
  {
    if k > 0 {
      NotListed(a, metas, m, k - 1);
      assert a[k - 1] in a;
    }
  }

  // ----- steps keep the invariant

  /** Unref keeps the files' counts: a deleted version gives its references back. */
  lemma UnrefCounted(s: State, i: nat)
    requires Counted(s) && i < |s.versions|
    ensures Counted(Unreffed(s, i))
  {
    var v, s' := s.versions[i], Unreffed(s, i);
    if v.refs > 1 {
      forall m | m in s'.metas ensures Listings(s'.versions, m, |s'.versions|) == Listings(s.versions, m, |s.versions|) {
        ListingsSame(s'.versions, s.versions, m, |s.versions|);
      }
      forall w, m | w in s'.versions && m in w.files ensures m in s'.metas {
        if w != v.(refs := v.refs - 1) { assert w in s.versions; } else { assert v in s.versions; }
      }
    } else {
      forall m | m in s.metas ensures
        Listings(s'.versions, m, |s'.versions|) + Times(v.files, m) == Listings(s.versions, m, |s.versions|)
      {
        ListingsRemove(s.versions, i, m, |s.versions|);
      }
      forall w, m | w in s'.versions && m in w.files ensures m in s'.metas {
        var j :| 0 <= j < |s'.versions| && s'.versions[j] == w;
        assert w in s.versions;
        ListedCounts(s'.versions, m, j, |s'.versions|);
      }
    }
  }

  /** Only deletions change the files' objects, and never their numbers. */
  lemma UnrefOnDisk(s: State, i: nat)
    requires OnDisk(s) && i < |s.versions|
    ensures OnDisk(Unreffed(s, i))
  {}

  lemma HoldKeepsInv(s: State, s': State)
    requires Inv(s) && Next(s, s', Hold)
    ensures Inv(s')
  {
    var last := |s.versions| - 1;
    var v := s.versions[last];
    forall m | m in s.metas ensures Listings(s'.versions, m, |s'.versions|) == Listings(s.versions, m, |s.versions|) {
      ListingsSame(s'.versions, s.versions, m, |s.versions|);
    }
    forall w, m | w in s'.versions && m in w.files ensures m in s'.metas {
      if w == s'.versions[last] { assert v in s.versions; } else { assert w in s.versions; }
    }
  }

  lemma UnholdKeepsHeld(s: State, i: nat)
    requires Held(s) && i < |s.versions| && s.versions[i].id in s.holds
    ensures Held(Unreffed(s, i).(holds := s.holds - multiset{s.versions[i].id}))
  {
    if s.versions[i].refs > 1 { FewerHolds(s, i); } else { VersionGoes(s, i); }
  }

  lemma FewerHolds(s: State, i: nat)
    requires Held(s) && i < |s.versions| && s.versions[i].id in s.holds && s.versions[i].refs > 1
    ensures Held(Unreffed(s, i).(holds := s.holds - multiset{s.versions[i].id}))
  {}

  lemma VersionGoes(s: State, i: nat)
    requires Held(s) && i < |s.versions| && s.versions[i].id in s.holds && s.versions[i].refs <= 1
    ensures Held(Unreffed(s, i).(holds := s.holds - multiset{s.versions[i].id}))
  {
    var s' := Unreffed(s, i).(holds := s.holds - multiset{s.versions[i].id});
    assert i < |s.versions| - 1;
    forall j | 0 <= j < |s'.versions| ensures s'.versions[j] == s.versions[if j < i then j else j + 1] {}
  }

  lemma UnholdKeepsInv(s: State, s': State, i: nat)
    requires Inv(s) && Next(s, s', Unhold(i))
    ensures Inv(s')
  {
    UnrefCounted(s, i);
    UnrefOnDisk(s, i);
    UnholdKeepsHeld(s, i);
  }

  lemma MakeKeepsCounted(s: State, s': State, kept: seq<nat>, added: seq<nat>)
    requires Counted(s) && Next(s, s', Make(kept, added))
    ensures Counted(s')
  {
    var created := NewMetas(s.nextMeta, |added|);
    var last := s.versions[|s.versions| - 1];
    assert last in s.versions;
    forall m ensures m in created <==> s.nextMeta <= m < s.nextMeta + |added| {
      if s.nextMeta <= m < s.nextMeta + |added| { assert created[m - s.nextMeta] == m; }
    }
    forall m | m in s'.metas && m >= s.nextMeta ensures Listings(s.versions, m, |s.versions|) == 0 {
      NotListed(s.versions, s.metas, m, |s.versions|);
    }
    forall m | m in kept ensures m < s.nextMeta { assert m in s.metas; }
  }

  lemma MakeKeepsInv(s: State, s': State, kept: seq<nat>, added: seq<nat>)
    requires Inv(s) && Next(s, s', Make(kept, added))
    ensures Inv(s')
  {
    MakeKeepsCounted(s, s', kept, added);
    MakeKeepsFiles(s, s', kept, added);
  }

  lemma MakeKeepsFiles(s: State, s': State, kept: seq<nat>, added: seq<nat>)
    requires OnDisk(s) && Kept(s) && Next(s, s', Make(kept, added))
    ensures OnDisk(s') && Kept(s')
  {
    forall m | m in s'.metas ensures s'.metas[m].number in s'.disk && s'.metas[m].number in s'.written {
      if s.nextMeta <= m < s.nextMeta + |added| { assert MayAdd(s, added[m - s.nextMeta]); }
    }
  }

  /** The made version takes its place at the end of the list. */
  lemma AppendMade(u: State, s': State)
    requires Counted(u) && u.made.Some?
    requires s' == u.(versions := u.versions + [u.made.value.(refs := 1)], made := None, built := {})
    ensures Counted(s')
  {
    var v := u.made.value.(refs := 1);
    forall m ensures Listings(s'.versions, m, |s'.versions|) == Listings(u.versions, m, |u.versions|) + Times(v.files, m) {
      ListingsAppend(u.versions, v, m);
    }
    forall w, m | w in s'.versions && m in w.files ensures m in s'.metas {
      assert w in u.versions || w == v;
    }
  }

  lemma InstallKeepsCounted(s: State, s': State)
    requires Counted(s) && Next(s, s', Install(true))
    ensures Counted(s')
  {
    UnrefCounted(s, |s.versions| - 1);
    AppendMade(Unreffed(s, |s.versions| - 1), s');
  }

  lemma InstallKeepsHeld(s: State, s': State)
    requires Held(s) && Next(s, s', Install(true))
    ensures Held(s')
  {
    var last := |s.versions| - 1;
    var u := Unreffed(s, last);
    assert s.holds[s.made.value.id] == 0;
    forall j | 0 <= j < |u.versions|
      ensures u.versions[j].id == s.versions[j].id && u.versions[j].refs == s.holds[s.versions[j].id] > 0
    {}
  }

  lemma AbandonKeepsCounted(s: State, s': State)
    requires Counted(s) && Next(s, s', Install(false))
    ensures Counted(s')
  {
    forall v, m | v in s'.versions && m in v.files ensures m in s'.metas {
      var j :| 0 <= j < |s.versions| && s.versions[j] == v;
      ListedCounts(s.versions, m, j, |s.versions|);
    }
  }

  lemma InstallKeepsInv(s: State, s': State, ok: bool)
    requires Inv(s) && Next(s, s', Install(ok))
    ensures Inv(s')
  {
    InstallKeepsFiles(s, s', ok);
    if ok {
      InstallKeepsCounted(s, s');
      InstallKeepsHeld(s, s');
    } else {
      AbandonKeepsCounted(s, s');
    }
  }

  lemma InstallKeepsFiles(s: State, s': State, ok: bool)
    requires OnDisk(s) && Kept(s) && Next(s, s', Install(ok))
    ensures OnDisk(s') && Kept(s')
  {}

  /** DeleteObsoleteFiles deletes no file of a live version and no pending output. That nothing built is waiting to be
      installed when it runs is what having one worker gives. */
  lemma DeleteKeepsInv(s: State, s': State)
    requires Inv(s) && Next(s, s', DeleteObsolete)
    ensures Inv(s') && s.disk * s.pending <= s'.disk
  {
    LiveFilesStay(s);
  }

  lemma LiveFilesStay(s: State)
    requires Counted(s) && OnDisk(s) && s.made.None?
    ensures OnDisk(Deleted(s))
  {
    forall m | m in s.metas ensures s.metas[m].number in Deleted(s).disk {
      var i := ListedBy(s.versions, m, |s.versions|);
      assert s.versions[i] in s.versions;
    }
  }

  /** Exactly when deletion is safe, whoever calls it: after an error, when it does nothing, or when every table that
      was built and is not installed yet is live or pending. */
  lemma DeletionIsSafeIff(s: State)
    requires Inv(s) && s.made.None?
    ensures Inv(Deleted(s)) <==> s.bgError || s.built <= s.pending + Live(s.versions, s.metas)
  {
    LiveFilesStay(s);
    var s' := Deleted(s);
    assert s'.versions == s.versions && s'.metas == s.metas && s'.made == s.made && s'.holds == s.holds;
    assert Counted(s') && Held(s');
  }

  /** Outputs come and go on disk without touching a file that a version lists. */
  lemma OutputKeepsInv(s: State, s': State, step: Step)
    requires Inv(s) && Next(s, s', step)
    requires step.NewOutput? || step.CreateOutput? || step.FinishOutput? || step.RemoveOutput? || step.EndFlush?
    ensures Inv(s')
  {
    assert s'.versions == s.versions && s'.metas == s.metas && s'.made == s.made && s'.holds == s.holds;
    assert Counted(s') && Held(s');
    assert forall n :: n in s'.pending ==> n in s.pending || n == s.nextFile;
    assert forall n :: n in s'.open || n in s'.written ==> n in s.open || n in s.written || n in s.pending;
  }

  lemma StepKeepsInv(s: State, s': State, step: Step)
    requires Inv(s) && Next(s, s', step)
    ensures Inv(s')
  {
    match step
    case Hold => HoldKeepsInv(s, s');
    case Unhold(i) => UnholdKeepsInv(s, s', i);
    case NewOutput => OutputKeepsInv(s, s', step);
    case CreateOutput(n) => OutputKeepsInv(s, s', step);
    case FinishOutput(n, ok) => OutputKeepsInv(s, s', step);
    case RemoveOutput(n) => OutputKeepsInv(s, s', step);
    case EndFlush(n) => OutputKeepsInv(s, s', step);
    case Make(kept, added) => MakeKeepsInv(s, s', kept, added);
    case Install(ok) => InstallKeepsInv(s, s', ok);
    case Fail =>
    case Forget(outputs) =>
    case DeleteObsolete => DeleteKeepsInv(s, s');
  }

  // ----- runs

  /** A database that was just opened: one version, and its files are on disk. */
  ghost predicate Init(s: State) {
    && |s.versions| == 1 && s.versions[0].refs == 1 && s.versions[0].id < s.nextVersion && s.made.None?
    && (forall m :: m in s.metas <==> m in s.versions[0].files)
    && (forall m :: m in s.metas ==> m < s.nextMeta && s.metas[m].refs == 1 && s.metas[m].number in s.written)
    && s.written <= s.disk && (forall n :: n in s.written ==> n < s.nextFile)
    && s.pending == {} && s.open == {} && s.built == {} && s.holds == multiset{} && !s.bgError
  }

  lemma InitInv(s: State)
    requires Init(s)
    ensures Inv(s)
  {
    forall m | m in s.metas ensures Listings(s.versions, m, 1) == 1 {
      assert Listings(s.versions, m, 0) == 0;
    }
  }

  ghost predicate Run(states: seq<State>, steps: seq<Step>) {
    && |states| == |steps| + 1 && Init(states[0])
    && forall i {:trigger steps[i]} :: 0 <= i < |steps| ==> Next(states[i], states[i + 1], steps[i])
  }

  lemma StepPreserves(s: State, s': State, step: Step)
    ensures Inv(s) && Next(s, s', step) ==> Inv(s')
  {
    if Inv(s) && Next(s, s', step) { StepKeepsInv(s, s', step); }
  }

  lemma {:induction false} RunStep(states: seq<State>, steps: seq<Step>, i: nat)
    requires Run(states, steps) && 0 < i < |states|
    ensures !Inv(states[i - 1]) || Inv(states[i])
  {
    StepPreserves(states[i - 1], states[i], steps[i - 1]);
  }

  /** In every run every version's files are on disk, and every reference count is what it counts. */
  lemma {:induction false} RunKeepsInv(states: seq<State>, steps: seq<Step>, n: nat)
    requires Run(states, steps) && n < |states|
    ensures Inv(states[n])
  {
    var inv := s => Inv(s);
    InitInv(states[0]);
    forall i | 0 < i < |states| ensures inv(states[i - 1]) ==> inv(states[i]) { RunStep(states, steps, i); }
    Runs.Induction(states, inv, n);
  }

  /** A reader that holds a version can open every file of it, whatever was installed and deleted since. */
  lemma {:induction false} HeldFilesExist(states: seq<State>, steps: seq<Step>, n: nat, i: nat, m: nat)
    requires Run(states, steps) && n < |states| && i < |states[n].versions| && m in states[n].versions[i].files
    ensures m in states[n].metas && states[n].metas[m].number in states[n].disk
  {
    RunKeepsInv(states, steps, n);
    assert states[n].versions[i] in states[n].versions;
  }

  // ----- DeleteObsoleteFiles

  datatype FileType = LogFile | Descriptor | Table | Temp | Other

  datatype FileName = FileName(typ: FileType, number: nat)

  /** The switch of DeleteObsoleteFiles. */
  predicate Needed(f: FileName, live: set<nat>, logNumber: nat, prevLogNumber: nat, manifest: nat) {
    match f.typ
    case LogFile => f.number >= logNumber || f.number == prevLogNumber
    case Descriptor => f.number >= manifest
    case Table => f.number in live
    case Temp => f.number in live
    case Other => true
  }

  /** A version that is alive lists a file with this number. */
  ghost predicate ListedByVersion(versions: seq<Version>, metas: map<nat, Meta>, number: nat) {
    exists v, m :: v in versions && m in v.files && m in metas && metas[m].number == number
  }

  /** The loop of DeleteObsoleteFiles. After an error nothing goes. Otherwise a log stays from the version's log number
      on, or as the previous log; a descriptor from the one in use on; a table or a temporary file if it is pending or
      some version lists it; and everything else stays. */
  method DeleteObsoleteFiles(
    names: set<FileName>, bgError: bool, pending: set<nat>, versions: seq<Version>, metas: map<nat, Meta>,
    logNumber: nat, prevLogNumber: nat, manifest: nat)
    returns (left: set<FileName>)
    ensures left <= names && (bgError ==> left == names)
    ensures !bgError ==> forall f :: f in names && f.typ.LogFile? ==>
              (f in left <==> f.number >= logNumber || f.number == prevLogNumber)
    ensures !bgError ==> forall f :: f in names && f.typ.Descriptor? ==> (f in left <==> f.number >= manifest)
    ensures !bgError ==> forall f :: f in names && (f.typ.Table? || f.typ.Temp?) ==>
              (f in left <==> f.number in pending || ListedByVersion(versions, metas, f.number))
    ensures forall f :: f in names && f.typ.Other? ==> f in left
  {
    left := names;
    if bgError { return; }
    var live, rest := pending + Live(versions, metas), names;
    while rest != {}
      invariant rest <= names && left <= names
      invariant forall f :: f in names ==>
                  (f in left <==> f in rest || Needed(f, live, logNumber, prevLogNumber, manifest))
      decreases |rest|
    {
      var f :| f in rest;
      rest := rest - {f};
      if !Needed(f, live, logNumber, prevLogNumber, manifest) { left := left - {f}; }
    }
    forall n ensures n in Live(versions, metas) <==> ListedByVersion(versions, metas, n) {}
  }

  /** Table 7 is flushed and waits for its installation. */
  function Flushed(): State {
    State([Version(0, [], 1)], None, map[], 0, 1, 8, {7}, {}, {}, {7}, {7}, multiset{}, false)
  }

  lemma FlushedRun() returns (states: seq<State>, steps: seq<Step>)
    ensures Run(states, steps) && |states| == 5 && states[4] == Flushed()
  {
    var s0 := Flushed().(nextFile := 7, disk := {}, written := {}, built := {});
    var s1 := s0.(pending := {7}, nextFile := 8);
    var s2 := s1.(disk := {7}, open := {7});
    var s3 := s2.(open := {}, written := {7});
    states, steps := [s0, s1, s2, s3, Flushed()], [NewOutput, CreateOutput(7), FinishOutput(7, true), EndFlush(7)];
    assert Next(s0, s1, NewOutput) && Next(s1, s2, CreateOutput(7)) && Next(s2, s3, FinishOutput(7, true));
    assert Next(s3, Flushed(), EndFlush(7));
  }

  /** Only one worker may delete files: between the end of a flush and its installation the new table is neither
      pending nor live, and deleting obsolete files then would lose it. */
  lemma DeletionMustWait() returns (states: seq<State>, steps: seq<Step>)
    ensures Run(states, steps) && |states| == 5
    ensures var s := states[4];
            && s.versions != [] && MayAdd(s, 7) && 7 in s.disk && 7 !in s.pending + Live(s.versions, s.metas)
            && !Inv(Deleted(s))
  {
    states, steps := FlushedRun();
    RunKeepsInv(states, steps, 4);
    DeletionIsSafeIff(states[4]);
    assert 7 in Flushed().built && 7 !in Live(Flushed().versions, Flushed().metas);
  }
}
