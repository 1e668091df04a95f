/** Runs that show which assumptions the sweep theorems cannot do without. */
module SweepExamples {
  import opened Numbers
  import opened Options
  import opened Scheduling
  import opened SweepProtocol
  import SweepCoverage
  import SweepQuiescence

  function Fresh(): State {
    State(0, Unscheduled, false, NotStarted, map[], map[], History(0, 0, 0, 0, 0))
  }

  /** A run from the fresh store to the state `end`. */
  datatype Progress = Progress(steps: seq<Step>, end: State)

  ghost predicate Reaches(t: Timing, p: Progress) {
    IsRun(t, Fresh(), p.steps) && Final(t, Fresh(), p.steps) == p.end
  }

  ghost predicate ReachesTimely(t: Timing, p: Progress) {
    Reaches(t, p) && SweepCoverage.IsTimelyRun(t, Fresh(), p.steps)
  }

  lemma Then(t: Timing, p: Progress, step: Step) returns (q: Progress)
    requires Reaches(t, p) && Enabled(t, p.end, step)
    ensures Reaches(t, q) && q == Progress(p.steps + [step], Apply(t, p.end, step))
  {
    Extend(t, Fresh(), p.steps, step);
    q := Progress(p.steps + [step], Apply(t, p.end, step));
  }

  lemma {:induction false} ExtendTimely(t: Timing, s: State, steps: seq<Step>, step: Step)
    requires SweepCoverage.IsTimelyRun(t, s, steps) && IsRun(t, s, steps)
    requires Enabled(t, Final(t, s, steps), step) && SweepCoverage.Timely(Final(t, s, steps), step)
    ensures SweepCoverage.IsTimelyRun(t, s, steps + [step])
    decreases |steps|
  {
    hide Apply;
    hide Enabled;
    hide SweepCoverage.Timely;
    if steps == [] {
      assert (steps + [step])[1..] == [];
    } else {
      assert (steps + [step])[1..] == steps[1..] + [step];
      ExtendTimely(t, Apply(t, s, steps[0]), steps[1..], step);
    }
  }

  lemma ThenTimely(t: Timing, p: Progress, step: Step) returns (q: Progress)
    requires ReachesTimely(t, p) && Enabled(t, p.end, step) && SweepCoverage.Timely(p.end, step)
    ensures ReachesTimely(t, q) && q == Progress(p.steps + [step], Apply(t, p.end, step))
  {
    ExtendTimely(t, Fresh(), p.steps, step);
    q := Then(t, p, step);
  }

  /** The sweeper starts at time 0 and waits for its first sweep. */
  lemma Started(t: Timing) returns (p: Progress)
    ensures ReachesTimely(t, p)
    ensures p.steps == [Start, ReadDue, Wake, ReadDue]
    ensures p.end == State(0, Schedule(Some(t.startupDelay), false), false, WaitingUntil(t.startupDelay), map[], map[],
                           History(0, 0, t.startupDelay, 0, 0))
  {
    p := Progress([], Fresh());
    assert ReachesTimely(t, p);
    hide ReachesTimely;
    p := ThenTimely(t, p, Start);
    p := ThenTimely(t, p, ReadDue);
    p := ThenTimely(t, p, Wake);
    p := ThenTimely(t, p, ReadDue);
  }

  /** Without timely insertions a row can be left behind: its write relies on the
    * sweep already scheduled, that sweep looks before the row is there, and
    * nothing is scheduled afterwards, until some later write.
    */
  lemma LateInsertionIsForgotten(t: Timing) returns (p: Progress)
    requires t.startupDelay > 0 && t.startupDelay <= t.Lifetime()
    ensures Reaches(t, p)
    ensures "a" in p.end.rows && SweepQuiescence.Idle(p.end)
  {
    p := Started(t);
    hide Reaches;
    p := Then(t, p, ReadClock(0, "a", 0));
    p := Then(t, p, Note(0));
    p := Then(t, p, Tick(t.startupDelay));
    p := Then(t, p, TimeOut);
    p := Then(t, p, Begin);
    p := Then(t, p, DeleteExpired);
    p := Then(t, p, Look(None));
    p := Then(t, p, Arm);
    p := Then(t, p, Follow);
    p := Then(t, p, ReadDue);
    p := Then(t, p, Land(0));
    assert p.end.writers == map[];
  }

  const GapTiming := Timing(100_000, 5_000, 10)

  lemma WrittenInGap() returns (p: Progress)
    ensures ReachesTimely(GapTiming, p)
    ensures p.end ==
            State(20, Unscheduled, false, Began(true), map[0 := Upserting(Upsert(Write("a", 15, 15), true, 2))], map[],
                           History(1, 20, 10, 0, 20))
  {
    p := Started(GapTiming);
    hide ReachesTimely;
    p := ThenTimely(GapTiming, p, Tick(15));
    p := ThenTimely(GapTiming, p, ReadClock(0, "a", 15));
    p := ThenTimely(GapTiming, p, Note(0));
    p := ThenTimely(GapTiming, p, Tick(20));
    p := ThenTimely(GapTiming, p, TimeOut);
    p := ThenTimely(GapTiming, p, Begin);
  }

  /** A row written in the gap of a sweep and landing after that sweep's look is
    * covered only by the follow-up, a lifetime after the re-arming: later than a
    * lifetime after its own write and later than the minimum spacing.
    */
  lemma GapRowWaitsForFollowUp() returns (p: Progress)
    ensures ReachesTimely(GapTiming, p) && !p.end.task.Sweeping() && "a" in p.end.rows
    ensures p.end.rows["a"].lateFor == p.end.history.sweeps == 1
    ensures !DueBy(p.end.schedule, Max(p.end.rows["a"].noted + GapTiming.Lifetime(), p.end.history.armBound))
  {
    p := WrittenInGap();
    hide ReachesTimely;
    p := ThenTimely(GapTiming, p, DeleteExpired);
    p := ThenTimely(GapTiming, p, Look(None));
    p := ThenTimely(GapTiming, p, Land(0));
    p := ThenTimely(GapTiming, p, Arm);
    p := ThenTimely(GapTiming, p, Follow);
  }

  const StaleTiming := Timing(9_000, 1_000, 9_000)

  lemma NotedWithStaleClock() returns (p: Progress)
    ensures Reaches(StaleTiming, p)
    ensures p.end == State(9_000, Schedule(Some(10_000), false), false, Began(false),
                           map[0 := Notifying(Upsert(Write("a", 0, 0), false, 2))], map[],
                               History(1, 9_000, 9_000, 0, 0))
  {
    p := Started(StaleTiming);
    hide Reaches;
    p := Then(StaleTiming, p, ReadClock(0, "a", 0));
    p := Then(StaleTiming, p, Tick(9_000));
    p := Then(StaleTiming, p, TimeOut);
    p := Then(StaleTiming, p, Begin);
    p := Then(StaleTiming, p, Note(0));
  }

  lemma SweptWithStaleDeadline() returns (p: Progress)
    ensures Reaches(StaleTiming, p)
    ensures p.end == State(9_000, Schedule(Some(10_000), false), false, Reading,
                           map[0 := Notifying(Upsert(Write("a", 0, 0), false, 2))], map[],
                               History(1, 9_000, 39_000, 19_000, 0))
  {
    p := NotedWithStaleClock();
    hide Reaches;
    p := Then(StaleTiming, p, DeleteExpired);
    p := Then(StaleTiming, p, Look(None));
    p := Then(StaleTiming, p, Arm);
    p := Then(StaleTiming, p, Follow);
  }

  /** A writer that read the clock before a sweep began and takes the lock after
    * it schedules the next sweep closer than both the minimum spacing and a lifetime.
    */
  lemma StaleClockBreaksSpacing() returns (p: Progress)
    ensures Reaches(StaleTiming, p) && Enabled(StaleTiming, p.end, Begin) && p.end.history.sweeps == 1
    ensures p.end.clock - p.end.history.lastBegin < Min(MIN_SWEEP_SPACING, StaleTiming.Lifetime())
  {
    p := SweptWithStaleDeadline();
    hide Reaches;
    p := Then(StaleTiming, p, ReadDue);
    p := Then(StaleTiming, p, Tick(10_000));
    p := Then(StaleTiming, p, TimeOut);
  }
}
