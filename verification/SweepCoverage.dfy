/** Which rows the schedule covers: in every run, each row but those that overtaken
  * insertions left since the latest look at the table has a sweep scheduled by a
  * known time.
  */
module SweepCoverage {
  import opened Numbers
  import opened Options
  import opened Scheduling
  import opened SweepProtocol

  predicate OnItsWay(w: Writer) { w.Notifying? || w.Upserting? }

  /** A sweep looks at the table only after the insertions meant to precede its look have landed. */
  ghost predicate Timely(s: State, step: Step) {
    step.Look? ==> forall w :: w in s.writers && OnItsWay(s.writers[w]) ==> s.writers[w].upsert.sweep > s.history.sweeps
  }

  ghost predicate IsTimelyRun(t: Timing, s: State, steps: seq<Step>)
    decreases |steps|
  {
    steps == [] || (Enabled(t, s, steps[0]) && Timely(s, steps[0]) && IsTimelyRun(t, Apply(t, s, steps[0]), steps[1..]))
  }

  // ---------------------------------------------------------------- late insertions

  /** The insertions on their way that a look has overtaken, and the rows such insertions
    * have left since the table was last looked at, or a sweep scheduled regardless.
    */
  datatype Late = Late(writers: set<nat>, rows: set<string>)

  const NONE_LATE := Late({}, {})

  /** The insertions meant to precede the look that is about to happen. */
  function Overtaken(s: State): set<nat> {
    set w | w in s.writers && OnItsWay(s.writers[w]) && s.writers[w].upsert.sweep <= s.history.sweeps
  }

  function NextLate(s: State, step: Step, late: Late): Late {
    match step
    case Look(_) => Late(late.writers + Overtaken(s), {})
    case Start => late.(rows := {})
    case Fail => late.(rows := {})
    case Land(w) =>
      if w !in s.writers || !OnItsWay(s.writers[w]) then late
      else
        var id := s.writers[w].upsert.write.id;
        Late(late.writers - {w}, if w in late.writers then late.rows + {id} else late.rows - {id})
    case Lose(w) => late.(writers := late.writers - {w})
    case DropRow(id) => late.(rows := late.rows - {id})
    case _ => late
  }

  ghost function LateAfter(t: Timing, s: State, steps: seq<Step>, late: Late): Late
    requires IsRun(t, s, steps)
    decreases |steps|
  {
    if steps == [] then late else LateAfter(t, Apply(t, s, steps[0]), steps[1..], NextLate(s, steps[0], late))
  }

  /** In a run that keeps up, nothing is late. */
  lemma {:induction false} TimelyMeansNoneLate(t: Timing, s: State, steps: seq<Step>)
    requires IsTimelyRun(t, s, steps)
    ensures IsRun(t, s, steps) && LateAfter(t, s, steps, NONE_LATE) == NONE_LATE
    decreases |steps|
  {
    if steps != [] {
      assert steps[0].Look? ==> Overtaken(s) == {};
      assert NextLate(s, steps[0], NONE_LATE) == NONE_LATE;
      hide Apply;
      hide Enabled;
      TimelyMeansNoneLate(t, Apply(t, s, steps[0]), steps[1..]);
    }
  }

  // ---------------------------------------------------------------- the bound

  /** When the sweep for a row must be due: a lifetime after its write or by the
    * last re-arming's deadline, whichever is later; for a row that just missed a
    * look, the follow-up's deadline counts as well.
    */
  function RowBound(t: Timing, s: State, row: Row): int {
    var ordinary := Max(row.noted + t.Lifetime(), s.history.armBound);
    if row.lateFor == s.history.sweeps > 0 then Max(ordinary, s.history.followBound) else ordinary
  }

  /** Every row but the late ones has a sweep scheduled within its bound. */
  ghost predicate Covered(t: Timing, s: State, late: set<string>) {
    forall id :: id in s.rows && id !in late ==> DueBy(s.schedule, RowBound(t, s, s.rows[id]))
  }

  // ---------------------------------------------------------------- the invariant

  /** What is known of a row, by phase of the sweeper. */
  ghost predicate RowKnown(t: Timing, s: State, row: Row) {
    match s.task
    case NotStarted => true
    case Began(_) => true
    case Deleted(_) => true
    case Looked(gap, oldest) =>
      || (oldest.Some? && oldest.value <= row.lastAccessed)
      || DueBy(s.schedule, row.noted + t.Lifetime())
      || (gap && row.lateFor == s.history.sweeps)
    case Armed(gap) =>
      || DueBy(s.schedule, Max(row.noted + t.Lifetime(), s.history.armBound))
      || (gap && row.lateFor == s.history.sweeps)
    case _ => DueBy(s.schedule, RowBound(t, s, row))
  }

  /** What is known of an insertion on its way, by phase of the sweeper and by the sweep it must precede. */
  ghost predicate UpsertKnown(t: Timing, s: State, u: Upsert) {
    var n := s.history.sweeps;
    var own := u.write.now + t.Lifetime();
    (u.inGap ==> u.sweep >= 2) &&
    if u.inGap && u.sweep == n + 2 then
      s.schedule.writeInGap && DueBy(s.schedule, own)
    else
      && u.sweep <= n + 1
      && match s.task
         case NotStarted => true
         case Began(gap) => u.sweep == n + 1 ==> if u.inGap then gap else DueBy(s.schedule, own)
         case Deleted(gap) => u.sweep == n + 1 ==> if u.inGap then gap else DueBy(s.schedule, own)
         case Looked(gap, _) => u.sweep == n + 1 && if u.inGap then gap else DueBy(s.schedule, own)
         case Armed(gap) => u.sweep == n + 1 && if u.inGap then gap else DueBy(s.schedule, own)
         case _ => DueBy(s.schedule, if u.inGap && u.sweep == n + 1
                                     then Max(Max(own, s.history.armBound), s.history.followBound)
                                     else Max(own, s.history.armBound))
  }

  ghost predicate Known(t: Timing, s: State, late: Late) {
    && (s.task.NotStarted? ==> s.history.sweeps == 0)
    && (s.task.Sweeping() ==> s.history.sweeps > 0)
    && (forall id :: id in s.rows ==> s.rows[id].lastAccessed <= s.rows[id].noted)
    && (forall w :: w in s.writers ==> s.writers[w].Origin().lastAccessed <= s.writers[w].Origin().now)
    && (forall id :: id in s.rows && id !in late.rows ==> RowKnown(t, s, s.rows[id]))
    && (forall w :: w in s.writers && OnItsWay(s.writers[w]) && w !in late.writers ==>
          UpsertKnown(t, s, s.writers[w].upsert))
  }

  /** Steps of the sweeper other than waiting and reading. */
  predicate IsSweepStep(step: Step) {
    step.Start? || step.Begin? || step.DeleteExpired? || step.Look? || step.Arm? || step.Follow? || step.Fail?
  }

  lemma RowKnownSweepStep(t: Timing, s: State, step: Step, row: Row)
    requires s.task.NotStarted? ==> s.history.sweeps == 0
    requires Enabled(t, s, step) && IsSweepStep(step) && !IsRearmStep(step)
    requires RowKnown(t, s, row)
    requires step.Look? ==> step.oldest.Some? && step.oldest.value <= row.lastAccessed
    ensures RowKnown(t, Apply(t, s, step), row)
  {
  }

  predicate IsRearmStep(step: Step) { step.Arm? || step.Follow? || step.Fail? }

  lemma RowKnownRearmStep(t: Timing, s: State, step: Step, row: Row)
    requires s.task.Sweeping() ==> s.history.sweeps > 0
    requires Enabled(t, s, step) && IsRearmStep(step)
    requires RowKnown(t, s, row) && row.lastAccessed <= row.noted
    ensures RowKnown(t, Apply(t, s, step), row)
  {
  }

  lemma RowKnownOtherStep(t: Timing, s: State, step: Step, row: Row)
    requires Enabled(t, s, step) && !IsSweepStep(step)
    requires RowKnown(t, s, row)
    ensures RowKnown(t, Apply(t, s, step), row)
  {
  }

  lemma LandedRowKnown(t: Timing, s: State, step: Step)
    requires Enabled(t, s, step) && step.Land?
    requires UpsertKnown(t, s, s.writers[step.w].upsert)
    ensures var s' := Apply(t, s, step); var id := s.writers[step.w].upsert.write.id;
            id in s'.rows && RowKnown(t, s', s'.rows[id])
  {
  }

  lemma UpsertKnownSweepStep(t: Timing, s: State, step: Step, u: Upsert)
    requires s.task.NotStarted? ==> s.history.sweeps == 0
    requires Enabled(t, s, step) && IsSweepStep(step)
    requires UpsertKnown(t, s, u)
    requires step.Look? ==> u.sweep > s.history.sweeps
    ensures UpsertKnown(t, Apply(t, s, step), u)
  {
  }

  lemma UpsertKnownOtherStep(t: Timing, s: State, step: Step, u: Upsert)
    requires Enabled(t, s, step) && !IsSweepStep(step)
    requires UpsertKnown(t, s, u)
    ensures UpsertKnown(t, Apply(t, s, step), u)
  {
  }

  lemma NotedUpsertKnown(t: Timing, s: State, step: Step)
    requires Enabled(t, s, step) && step.Note?
    requires s.task.NotStarted? ==> s.history.sweeps == 0
    ensures var s' := Apply(t, s, step);
            OnItsWay(s'.writers[step.w]) && UpsertKnown(t, s', s'.writers[step.w].upsert)
  {
  }

  lemma RowsOrderedStep(t: Timing, s: State, step: Step)
    requires Enabled(t, s, step)
    requires forall id :: id in s.rows ==> s.rows[id].lastAccessed <= s.rows[id].noted
    requires forall w :: w in s.writers ==> s.writers[w].Origin().lastAccessed <= s.writers[w].Origin().now
    ensures var s' := Apply(t, s, step);
            forall id :: id in s'.rows ==> s'.rows[id].lastAccessed <= s'.rows[id].noted
  {
    if step.Land? {
      assert s.writers[step.w].Origin() == s.writers[step.w].upsert.write;
    }
  }

  lemma RowsKnownStep(t: Timing, s: State, step: Step, late: Late, id: string)
    requires Known(t, s, late) && Enabled(t, s, step)
    requires id in Apply(t, s, step).rows && id !in NextLate(s, step, late).rows
    ensures RowKnown(t, Apply(t, s, step), Apply(t, s, step).rows[id])
  {
    hide RowKnown;
    hide UpsertKnown;
    if step.Land? && id == s.writers[step.w].upsert.write.id {
      LandedRowKnown(t, s, step);
    } else {
      assert id in s.rows && Apply(t, s, step).rows[id] == s.rows[id];
      if IsRearmStep(step) {
        RowKnownRearmStep(t, s, step, s.rows[id]);
      } else if IsSweepStep(step) {
        RowKnownSweepStep(t, s, step, s.rows[id]);
      } else {
        RowKnownOtherStep(t, s, step, s.rows[id]);
      }
    }
  }

  lemma UpsertsKnownStep(t: Timing, s: State, step: Step, late: Late, w: nat)
    requires Known(t, s, late) && Enabled(t, s, step)
    requires w in Apply(t, s, step).writers && OnItsWay(Apply(t, s, step).writers[w])
    requires w !in NextLate(s, step, late).writers
    ensures UpsertKnown(t, Apply(t, s, step), Apply(t, s, step).writers[w].upsert)
  {
    hide RowKnown;
    hide UpsertKnown;
    if step.Note? && step.w == w {
      NotedUpsertKnown(t, s, step);
    } else {
      assert w in s.writers && OnItsWay(s.writers[w]) && Apply(t, s, step).writers[w].upsert == s.writers[w].upsert;
      assert w !in late.writers;
      if IsSweepStep(step) {
        assert step.Look? ==> w !in Overtaken(s);
        UpsertKnownSweepStep(t, s, step, s.writers[w].upsert);
      } else {
        UpsertKnownOtherStep(t, s, step, s.writers[w].upsert);
      }
    }
  }

  lemma OriginsStep(t: Timing, s: State, step: Step)
    requires Enabled(t, s, step)
    requires forall w :: w in s.writers ==> s.writers[w].Origin().lastAccessed <= s.writers[w].Origin().now
    ensures var s' := Apply(t, s, step);
            forall w :: w in s'.writers ==> s'.writers[w].Origin().lastAccessed <= s'.writers[w].Origin().now
  {
  }

  lemma KnownStep(t: Timing, s: State, step: Step, late: Late)
    requires Known(t, s, late) && Enabled(t, s, step)
    ensures Known(t, Apply(t, s, step), NextLate(s, step, late))
  {
    hide RowKnown;
    hide UpsertKnown;
    var s', late' := Apply(t, s, step), NextLate(s, step, late);
    RowsOrderedStep(t, s, step);
    OriginsStep(t, s, step);
    forall id | id in s'.rows && id !in late'.rows ensures RowKnown(t, s', s'.rows[id]) {
      RowsKnownStep(t, s, step, late, id);
    }
    forall w | w in s'.writers && OnItsWay(s'.writers[w]) && w !in late'.writers
      ensures UpsertKnown(t, s', s'.writers[w].upsert)
    {
      UpsertsKnownStep(t, s, step, late, w);
    }
  }

  lemma {:induction false} RunsKnown(t: Timing, s: State, steps: seq<Step>, late: Late)
    requires Known(t, s, late) && IsRun(t, s, steps)
    ensures Known(t, Final(t, s, steps), LateAfter(t, s, steps, late))
    decreases |steps|
  {
    if steps != [] {
      KnownStep(t, s, steps[0], late);
      hide Known;
      hide Apply;
      RunsKnown(t, Apply(t, s, steps[0]), steps[1..], NextLate(s, steps[0], late));
    }
  }

  /** What is known between sweeps is that every row that is not late is covered. */
  lemma KnownMeansCovered(t: Timing, s: State, late: Late)
    requires Known(t, s, late) && !s.task.NotStarted? && !s.task.Sweeping()
    ensures Covered(t, s, late.rows)
  {
    hide UpsertKnown;
  }

  /** In every run from a fresh store, failed sweeps and overtaken insertions
    * included: whenever no sweep is in progress, every row has a sweep scheduled
    * within its bound, unless an overtaken insertion left it since the latest look.
    */
  lemma RowsNotLateAreCovered(t: Timing, s: State, steps: seq<Step>)
    requires Init(s) && IsRun(t, s, steps)
    ensures var e := Final(t, s, steps);
            e.task.NotStarted? || e.task.Sweeping() || Covered(t, e, LateAfter(t, s, steps, NONE_LATE).rows)
  {
    RunsKnown(t, s, steps, NONE_LATE);
    var e := Final(t, s, steps);
    hide Known;
    if !e.task.NotStarted? && !e.task.Sweeping() { KnownMeansCovered(t, e, LateAfter(t, s, steps, NONE_LATE)); }
  }

  /** In every run from a fresh store in which insertions keep up with the sweeps,
    * failed sweeps included: whenever no sweep is in progress, every row has a
    * sweep scheduled within its bound.
    */
  lemma RowsAreCovered(t: Timing, s: State, steps: seq<Step>)
    requires Init(s) && IsTimelyRun(t, s, steps)
    ensures IsRun(t, s, steps)
    ensures var e := Final(t, s, steps); e.task.NotStarted? || e.task.Sweeping() || Covered(t, e, {})
  {
    TimelyMeansNoneLate(t, s, steps);
    RowsNotLateAreCovered(t, s, steps);
  }
}
