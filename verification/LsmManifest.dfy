/** The edits of a run: what LogAndApply records in the manifest, and that replaying them gives the levels back
    (VersionSet::LogAndApply and VersionSet::Recover in db/version_set.cc). */
module LsmManifest {
  import opened Keys
  import opened Lsm
  import opened LsmRuns
  import opened Builder

  /** The files that a step takes off a level, and those that it puts there. */
  ghost function Gone(step: Step, level: nat): set<File> {
    match step
    case Move(c) => if level == c.level then c.upper else {}
    case Compact(c, _) => if level == c.level then c.upper else if level == c.level + 1 then c.lower else {}
    case _ => {}
  }

  ghost function Placed(step: Step, level: nat): set<File> {
    match step
    case Flush(table, l) => if table.Some? && level == l then {table.value} else {}
    case Move(c) => if level == c.level + 1 then c.upper else {}
    case Compact(c, outputs) => if level == c.level + 1 then outputs else {}
    case Crash(_, _, _, files) => if level == 0 then FileSet(files) else {}
    case _ => {}
  }

  /** The edit that is recorded for a step. */
  ghost predicate Records(edit: Edit, step: Step) {
    forall level :: 0 <= level < NUM_LEVELS ==>
      DeletedAt(edit, level) == Numbers(Gone(step, level)) && AddedAt(edit, level) == Placed(step, level)
  }

  // ----- numbers

  ghost function FilesOf(st: State): set<File> {
    set i, f | 0 <= i < |st.levels| && f in st.levels[i] :: f
  }

  /** Every table that was installed up to moment `n`. */
  ghost function Ever(states: seq<State>, n: nat): set<File>
    requires n < |states|
  {
    if n == 0 then FilesOf(states[0]) else Ever(states, n - 1) + FilesOf(states[n])
  }

  /** The numbers of these tables are given out, and no two of them share one. */
  ghost predicate Known(st: State, ever: set<File>) {
    && |st.levels| == NUM_LEVELS && FilesOf(st) <= ever && Named(ever)
    && st.manifest.nextFile <= st.nextFile && (forall f :: f in ever ==> f.number < st.manifest.nextFile)
  }

  lemma NamedGrows(ever: set<File>, added: set<File>, low: nat)
    requires Named(ever) && Named(added)
    requires (forall f :: f in ever ==> f.number < low) && (forall f :: f in added ==> low <= f.number)
    ensures Named(ever + added)
  {}

  /** A step that adds tables with new numbers, and one that adds none. */
  lemma KnownGrows(st: State, st': State, ever: set<File>, added: set<File>, low: nat)
    requires Known(st, ever) && |st'.levels| == NUM_LEVELS && FilesOf(st') <= FilesOf(st) + added && Named(added)
    requires st.manifest.nextFile <= low && forall f :: f in added ==> low <= f.number < st'.manifest.nextFile
    requires st.manifest.nextFile <= st'.manifest.nextFile <= st'.nextFile
    ensures Known(st', ever + FilesOf(st'))
  {
    NamedGrows(ever, added, low);
    assert ever + FilesOf(st') <= ever + added;
  }

  lemma FilesMove(st: State, st': State, added: set<File>)
    requires |st.levels| == |st'.levels| == NUM_LEVELS
    requires forall i :: 0 <= i < NUM_LEVELS ==> st'.levels[i] <= FilesOf(st) + added
    ensures FilesOf(st') <= FilesOf(st) + added
  {}

  lemma LevelIsThere(st: State, i: nat)
    requires i < |st.levels|
    ensures st.levels[i] <= FilesOf(st)
  {}

  lemma FlushKeepsKnown(st: State, table: Option<File>, level: nat, st': State, ever: set<File>)
    requires Known(st, ever) && FlushNext(st, table, level, st')
    ensures Known(st', ever + FilesOf(st'))
  {
    var added: set<File> := if table.Some? then {table.value} else {};
    forall i | 0 <= i < NUM_LEVELS ensures st'.levels[i] <= FilesOf(st) + added { LevelIsThere(st, i); }
    FilesMove(st, st', added);
    KnownGrows(st, st', ever, added, st.nextFile);
  }

  lemma ReplaceKeepsKnown(st: State, c: Inputs, out: set<File>, added: set<File>, st': State, ever: set<File>)
    requires Known(st, ever) && Picked(st.levels, c) && st'.levels == Replace(st.levels, c, out)
    requires out <= FilesOf(st) + added && Named(added)
    requires forall f :: f in added ==> st.nextFile <= f.number < st'.manifest.nextFile
    requires st.nextFile <= st'.manifest.nextFile <= st'.nextFile
    ensures Known(st', ever + FilesOf(st'))
  {
    forall i | 0 <= i < NUM_LEVELS ensures st'.levels[i] <= FilesOf(st) + added { LevelIsThere(st, i); }
    FilesMove(st, st', added);
    KnownGrows(st, st', ever, added, st.nextFile);
  }

  lemma CrashKeepsKnown(st: State, step: Step, st': State, ever: set<File>)
    requires Known(st, ever) && step.Crash? && Next(st, step, st')
    ensures Known(st', ever + FilesOf(st'))
  {
    var added := FileSet(step.files);
    forall i | 0 <= i < NUM_LEVELS ensures st'.levels[i] <= FilesOf(st) + added { LevelIsThere(st, i); }
    FilesMove(st, st', added);
    KnownGrows(st, st', ever, added, st.manifest.nextFile);
  }

  lemma StepKeepsKnown(st: State, step: Step, st': State, ever: set<File>)
    requires Known(st, ever) && Next(st, step, st')
    ensures Known(st', ever + FilesOf(st'))
  {
    match step
    case Flush(table, level) => FlushKeepsKnown(st, table, level, st', ever);
    case Move(c) =>
      LevelIsThere(st, c.level);
      ReplaceKeepsKnown(st, c, c.upper, {}, st', ever);
    case Compact(c, outputs) => ReplaceKeepsKnown(st, c, outputs, outputs, st', ever);
    case Crash(_, _, _, _) => CrashKeepsKnown(st, step, st', ever);
    case _ => SameFiles(st, st', ever);
  }

  lemma SameFiles(st: State, st': State, ever: set<File>)
    requires Known(st, ever) && st'.levels == st.levels && st'.manifest == st.manifest && st'.nextFile >= st.nextFile
    ensures Known(st', ever + FilesOf(st'))
  {
    assert ever + FilesOf(st') == ever;
  }

  /** In every run, whatever is compacted, a number names one table for ever. */
  lemma {:induction false} NumbersNameTables(states: seq<State>, steps: seq<Step>, n: nat)
    requires Run(states, steps) && n < |states|
    ensures Known(states[n], Ever(states, n))
  {
    if n == 0 {
      assert FilesOf(states[0]) == {};
    } else {
      NumbersNameTables(states, steps, n - 1);
      StepKeepsKnown(states[n - 1], steps[n - 1], states[n], Ever(states, n - 1));
    }
  }

  // ----- replay

  /** Deleting files by number deletes exactly these files, if numbers name files. */
  lemma InstallIs(before: set<File>, edit: Edit, level: nat, gone: set<File>, placed: set<File>)
    requires DeletedAt(edit, level) == Numbers(gone) && AddedAt(edit, level) == placed
    requires gone <= before && Named(before) && forall f, g :: f in placed && g in gone ==> f.number != g.number
    ensures InstallOne(before, edit, level) == (before - gone) + placed
  {
    assert {} + Numbers(gone) == Numbers(gone) && {} + placed == placed;
    forall f | f in before ensures f.number in Numbers(gone) <==> f in gone {
      if f.number in Numbers(gone) { var g :| g in gone && g.number == f.number; }
    }
    forall f | f in placed ensures f.number !in Numbers(gone) {}
    assert Numbers(gone) - Numbers(placed) == Numbers(gone);
  }

  /** On a level some files are replaced by others, with other numbers. */
  ghost predicate Replaces(before: set<File>, gone: set<File>, placed: set<File>, now: set<File>) {
    && now == (before - gone) + placed && gone <= before
    && forall f, g :: f in placed && g in gone ==> f.number != g.number
  }

  lemma OnlyAdds(before: set<File>, placed: set<File>)
    ensures Replaces(before, {}, placed, before + placed) && before + {} == before
  {}

  lemma CompactLevel(st: State, c: Inputs, outputs: set<File>, st': State, ever: set<File>, level: nat)
    requires Known(st, ever) && CompactNext(st, c, outputs, st') && level < NUM_LEVELS
    ensures var step := Compact(c, outputs);
            Replaces(st.levels[level], Gone(step, level), Placed(step, level), st'.levels[level])
  {
    LevelIsThere(st, level);
    if level == c.level + 1 {
      forall f, g | f in outputs && g in c.lower ensures f.number != g.number { assert g in st.levels[level]; }
    }
  }

  lemma MoveLevel(st: State, c: Inputs, st': State, level: nat)
    requires Next(st, Move(c), st') && level < NUM_LEVELS
    ensures Replaces(st.levels[level], Gone(Move(c), level), Placed(Move(c), level), st'.levels[level])
  {}

  /** What a step does to a level. */
  lemma StepLevel(st: State, step: Step, st': State, ever: set<File>, level: nat)
    requires Known(st, ever) && Next(st, step, st') && |st'.levels| == NUM_LEVELS && level < NUM_LEVELS
    ensures Replaces(st.levels[level], Gone(step, level), Placed(step, level), st'.levels[level])
  {
    match step
    case Move(c) => MoveLevel(st, c, st', level);
    case Compact(c, outputs) => CompactLevel(st, c, outputs, st', ever, level);
    case _ => OnlyAdds(st.levels[level], Placed(step, level));
  }

  /** Installing the edit of a step on a level. */
  lemma StepInstalls(st: State, step: Step, st': State, ever: set<File>, edit: Edit, level: nat)
    requires Known(st, ever) && Next(st, step, st') && Records(edit, step) && level < NUM_LEVELS
    ensures |st'.levels| == NUM_LEVELS && InstallOne(st.levels[level], edit, level) == st'.levels[level]
    ensures AddedAt(edit, level) <= st'.levels[level]
  {
    StepKeepsKnown(st, step, st', ever);
    StepLevel(st, step, st', ever, level);
    LevelIsThere(st, level);
    InstallIs(st.levels[level], edit, level, Gone(step, level), Placed(step, level));
  }

  ghost predicate Recorded(edits: seq<Edit>, steps: seq<Step>) {
    |edits| == |steps| && forall i :: 0 <= i < |steps| ==> Records(edits[i], steps[i])
  }

  /** Installing the edits one at a time turns one level into another, and adds only known files. */
  ghost predicate Gives(base: set<File>, edits: seq<Edit>, level: nat, now: set<File>, ever: set<File>) {
    InstallAll(base, edits, level) == now && EverAdded(base, edits, level) <= ever
  }

  lemma GivesNothing(base: set<File>, edits: seq<Edit>, m: nat, level: nat, ever: set<File>)
    requires m <= |edits| && base <= ever
    ensures Gives(base, edits[m..m], level, base, ever)
  {
    assert edits[m..m] == [];
  }

  lemma GivesMore(
    base: set<File>, edits: seq<Edit>, m: nat, n: nat, level: nat,
    now: set<File>, now': set<File>, ever: set<File>, ever': set<File>)
    requires m < n <= |edits| && Gives(base, edits[m..n - 1], level, now, ever)
    requires InstallOne(now, edits[n - 1], level) == now'
    requires AddedAt(edits[n - 1], level) <= now' <= ever' && ever <= ever'
    ensures Gives(base, edits[m..n], level, now', ever')
  {
    var before, all := edits[m..n - 1], edits[m..n];
    assert all == before + [edits[n - 1]] && all[..|all| - 1] == before;
    InstallSnoc(base, before, edits[n - 1], level);
    EverAddedGrows(base, all, level);
  }

  lemma RunInstalls(states: seq<State>, steps: seq<Step>, edits: seq<Edit>, n: nat, level: nat)
    requires Run(states, steps) && Recorded(edits, steps) && 0 < n < |states| && level < NUM_LEVELS
    ensures |states[n - 1].levels| == |states[n].levels| == NUM_LEVELS
    ensures InstallOne(states[n - 1].levels[level], edits[n - 1], level) == states[n].levels[level]
    ensures AddedAt(edits[n - 1], level) <= states[n].levels[level] <= Ever(states, n)
    ensures Ever(states, n - 1) <= Ever(states, n)
  {
    NumbersNameTables(states, steps, n - 1);
    StepInstalls(states[n - 1], steps[n - 1], states[n], Ever(states, n - 1), edits[n - 1], level);
    LevelIsThere(states[n], level);
  }

  lemma LevelsAreSeven(states: seq<State>, steps: seq<Step>, n: nat, level: nat)
    requires Run(states, steps) && n < |states| && level < NUM_LEVELS
    ensures |states[n].levels| == NUM_LEVELS && states[n].levels[level] <= Ever(states, n) && Named(Ever(states, n))
  {
    NumbersNameTables(states, steps, n);
    LevelIsThere(states[n], level);
  }

  lemma GivesStep(states: seq<State>, steps: seq<Step>, edits: seq<Edit>, m: nat, n: nat, level: nat, base: set<File>)
    requires Run(states, steps) && Recorded(edits, steps) && m < n < |states| && level < NUM_LEVELS
    requires |states[n - 1].levels| == NUM_LEVELS
    requires Gives(base, edits[m..n - 1], level, states[n - 1].levels[level], Ever(states, n - 1))
    ensures |states[n].levels| == NUM_LEVELS
    ensures Gives(base, edits[m..n], level, states[n].levels[level], Ever(states, n))
  {
    RunInstalls(states, steps, edits, n, level);
    GivesMore(base, edits, m, n, level, states[n - 1].levels[level], states[n].levels[level],
              Ever(states, n - 1), Ever(states, n));
  }

  /** From any moment of a run on, installing the run's edits one at a time gives the levels. */
  lemma {:induction false} EditsGiveLevels(
    states: seq<State>, steps: seq<Step>, edits: seq<Edit>, m: nat, n: nat, level: nat)
    requires Run(states, steps) && Recorded(edits, steps) && m <= n < |states| && level < NUM_LEVELS
    ensures |states[m].levels| == |states[n].levels| == NUM_LEVELS
    ensures Gives(states[m].levels[level], edits[m..n], level, states[n].levels[level], Ever(states, n))
    decreases n
  {
    if m == n {
      LevelsAreSeven(states, steps, m, level);
      GivesNothing(states[m].levels[level], edits, m, level, Ever(states, m));
    } else {
      EditsGiveLevels(states, steps, edits, m, n - 1, level);
      GivesStep(states, steps, edits, m, n, level, states[m].levels[level]);
    }
  }

  /** In every run, whatever is compacted, a manifest that lists the levels of some moment and then records the edits
      up to another one is read back as the levels of that other moment. */
  lemma ManifestGivesLevels(
    states: seq<State>, steps: seq<Step>, edits: seq<Edit>, snapshot: Edit, m: nat, n: nat, level: nat)
    requires Run(states, steps) && Recorded(edits, steps) && m <= n < |states| && level < NUM_LEVELS
    requires |states[m].levels| == NUM_LEVELS && IsSnapshot(snapshot, states[m].levels[level], level)
    ensures |states[n].levels| == NUM_LEVELS
    ensures var d := ApplyAll(Delta({}, {}), [snapshot] + edits[m..n], level);
            Saved({}, d.deleted, d.added) == states[n].levels[level]
  {
    EditsGiveLevels(states, steps, edits, m, n, level);
    LevelsAreSeven(states, steps, n, level);
    RecoverFromSnapshot(snapshot, states[m].levels[level], edits[m..n], level);
  }
}
