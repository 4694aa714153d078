/** File numbers are never given out twice: in every state a number names one table, on one level. */
module LsmNumbers {
  import opened Keys
  import opened Lsm

  ghost predicate OneNumberEach(levels: seq<set<File>>) {
    forall i, j, f, g :: 0 <= i < |levels| && 0 <= j < |levels| && f in levels[i] && g in levels[j] && f.number == g.number
      ==> i == j && f == g
  }

  /** Taking files away and adding ones with new numbers. */
  lemma NewKeepNumbers(levels: seq<set<File>>, levels': seq<set<File>>, level: nat, added: set<File>, low: nat)
    requires OneNumberEach(levels) && Named(added) && |levels'| == |levels| && level < |levels|
    requires forall i, f :: 0 <= i < |levels| && f in levels[i] ==> f.number < low
    requires forall f :: f in added ==> low <= f.number
    requires forall i :: 0 <= i < |levels| && i != level ==> levels'[i] <= levels[i]
    requires levels'[level] <= levels[level] + added
    ensures OneNumberEach(levels')
  {}

  lemma MoveKeepsNumbers(st: State, c: Inputs)
    requires OneNumberEach(st.levels) && Picked(st.levels, c)
    ensures OneNumberEach(Replace(st.levels, c, c.upper))
  {
    var levels := Replace(st.levels, c, c.upper);
    forall i, j, f: File, g: File |
      0 <= i < |levels| && 0 <= j < |levels| && f in levels[i] && g in levels[j] && f.number == g.number
      ensures i == j && f == g
    {
      CameFrom(st.levels, c, i, f);
      CameFrom(st.levels, c, j, g);
    }
  }

  lemma CameFrom(levels: seq<set<File>>, c: Inputs, i: nat, f: File)
    requires Picked(levels, c) && i < |levels| && f in Replace(levels, c, c.upper)[i]
    ensures f in levels[i] || (i == c.level + 1 && f in levels[c.level])
    ensures i == c.level ==> f !in c.upper
    ensures i == c.level + 1 && f !in levels[i] ==> f in c.upper
  {
  }

  lemma CrashKeepsNumbers(st: State, step: Step, st': State)
    requires LogInv(st) && OneNumberEach(st.levels) && step.Crash? && Next(st, step, st')
    ensures OneNumberEach(st'.levels)
  {
    var added := set f | f in step.files;
    NewKeepNumbers(st.levels, st'.levels, 0, added, st.manifest.nextFile);
  }

  lemma FlushKeepsNumbers(st: State, table: Option<File>, level: nat, st': State)
    requires LogInv(st) && OneNumberEach(st.levels) && FlushNext(st, table, level, st')
    ensures OneNumberEach(st'.levels)
  {
    if table.Some? { NewKeepNumbers(st.levels, st'.levels, level, {table.value}, st.nextFile); }
  }

  lemma CompactKeepsNumbers(st: State, c: Inputs, outputs: set<File>, st': State)
    requires LogInv(st) && OneNumberEach(st.levels) && CompactNext(st, c, outputs, st')
    ensures OneNumberEach(st'.levels)
  {
    NewKeepNumbers(st.levels, st'.levels, c.level + 1, outputs, st.nextFile);
  }

  lemma StepKeepsNumbers(st: State, step: Step, st': State)
    requires LogInv(st) && OneNumberEach(st.levels) && Next(st, step, st')
    ensures OneNumberEach(st'.levels)
  {
    match step
    case Flush(table, level) => FlushKeepsNumbers(st, table, level, st');
    case Move(c) => MoveKeepsNumbers(st, c);
    case Compact(c, outputs) => CompactKeepsNumbers(st, c, outputs, st');
    case Crash(_, _, _, _) => CrashKeepsNumbers(st, step, st');
    case _ =>
  }
}
