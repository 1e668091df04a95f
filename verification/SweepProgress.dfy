/** That sweeping comes to rest once writes stop, and what is left in the table then. */
module SweepProgress {
  import opened Options
  import opened SweepProtocol
  import opened SweepCoverage
  import opened SweepQuiescence

  // ---------------------------------------------------------------- what an idle store holds

  /** Late rows are in the table, until a sweep that may delete them is about to look. */
  ghost predicate LateRowsStored(s: State, late: Late) {
    s.task.BeforeLook() || late.rows <= s.rows.Keys
  }

  lemma LateRowsStoredStep(t: Timing, s: State, step: Step, late: Late)
    requires LateRowsStored(s, late) && Enabled(t, s, step)
    ensures LateRowsStored(Apply(t, s, step), NextLate(s, step, late))
  {
  }

  lemma {:induction false} RunsStoreLateRows(t: Timing, s: State, steps: seq<Step>, late: Late)
    requires LateRowsStored(s, late) && IsRun(t, s, steps)
    ensures LateRowsStored(Final(t, s, steps), LateAfter(t, s, steps, late))
    decreases |steps|
  {
    if steps != [] {
      LateRowsStoredStep(t, s, steps[0], late);
      hide Apply;
      hide Enabled;
      hide LateRowsStored;
      RunsStoreLateRows(t, Apply(t, s, steps[0]), steps[1..], NextLate(s, steps[0], late));
    }
  }

  /** Whatever the run: the rows left in an idle store are exactly those that overtaken
    * insertions left since the latest look.
    */
  lemma IdleTableIsLateRows(t: Timing, s: State, steps: seq<Step>)
    requires Init(s) && IsRun(t, s, steps) && Idle(Final(t, s, steps))
    ensures Final(t, s, steps).rows.Keys == LateAfter(t, s, steps, NONE_LATE).rows
  {
    RowsNotLateAreCovered(t, s, steps);
    RunsStoreLateRows(t, s, steps, NONE_LATE);
  }

  /** When insertions keep up with the sweeps, an idle store holds no rows. */
  lemma IdleTableIsEmpty(t: Timing, s: State, steps: seq<Step>)
    requires Init(s) && IsTimelyRun(t, s, steps)
    ensures IsRun(t, s, steps) && (Idle(Final(t, s, steps)) ==> Final(t, s, steps).rows == map[])
  {
    TimelyMeansNoneLate(t, s, steps);
    if Idle(Final(t, s, steps)) { IdleTableIsLateRows(t, s, steps); }
  }

  // ---------------------------------------------------------------- the way to rest

  ghost function Oldest(rows: map<string, Row>): Option<int> {
    if oldest: Option<int> :| IsOldest(rows, oldest) then oldest else None
  }

  lemma {:induction false} SomeOldest(rows: map<string, Row>, ids: set<string>) returns (oldest: string)
    requires ids <= rows.Keys && ids != {}
    ensures oldest in ids && forall id :: id in ids ==> rows[oldest].lastAccessed <= rows[id].lastAccessed
    decreases |ids|
  {
    var id :| id in ids;
    if ids == {id} {
      oldest := id;
    } else {
      assert ids - {id} != {};
      oldest := SomeOldest(rows, ids - {id});
      if rows[id].lastAccessed < rows[oldest].lastAccessed { oldest := id; }
    }
  }

  lemma OldestIs(rows: map<string, Row>)
    ensures IsOldest(rows, Oldest(rows))
  {
    if rows == map[] {
      assert IsOldest(rows, None);
    } else {
      var id :| id in rows;
      var oldest := SomeOldest(rows, rows.Keys);
      assert IsOldest(rows, Some(rows[oldest].lastAccessed));
    }
  }

  /** The sweeper's next step, or the passing of the time it waits for. */
  ghost function NextStep(s: State): Step {
    match s.task
    case NotStarted => Start
    case Reading => ReadDue
    case WaitingForChange => Wake
    case WaitingUntil(at) => if at <= s.clock then TimeOut else Tick(at)
    case TimedOut => Begin
    case Began(_) => DeleteExpired
    case Deleted(_) => Look(Oldest(s.rows))
    case Looked(_, _) => Arm
    case Armed(_) => Follow
  }

  /** How many steps of the sweeper remain until its next sweep begins. */
  function Distance(s: State): nat {
    match s.task
    case Began(_) => 9
    case Deleted(_) => 8
    case Looked(_, _) => 7
    case Armed(_) => 6
    case NotStarted => 6
    case WaitingForChange => 5
    case Reading => 4
    case WaitingUntil(at) => if at <= s.clock then 2 else 3
    case TimedOut => 1
  }

  /** Out of rest, the next step is possible and brings the next sweep nearer, or begins it. */
  lemma NextStepLeads(t: Timing, s: State)
    requires Quiet(s) && NoLostWakeUp(s) && !Idle(s)
    ensures Enabled(t, s, NextStep(s)) && !ChangesRows(NextStep(s))
    ensures NextStep(s) == Begin || Distance(Apply(t, s, NextStep(s))) < Distance(s)
  {
    OldestIs(s.rows);
    hide Oldest;
    hide IsOldest;
  }

  lemma {:induction false} Prefixed(t: Timing, s: State, step: Step, rest: seq<Step>)
    requires Enabled(t, s, step) && IsRun(t, Apply(t, s, step), rest)
    ensures IsRun(t, s, [step] + rest) && Final(t, s, [step] + rest) == Final(t, Apply(t, s, step), rest)
  {
    hide Apply;
    hide Enabled;
    assert ([step] + rest)[1..] == rest;
  }

  lemma {:induction false} ComesToRest(t: Timing, s: State, budget: int) returns (steps: seq<Step>)
    requires t.grace > 0 && QuietState(t, s, budget) && NoLostWakeUp(s)
    ensures IsRun(t, s, steps) && Idle(Final(t, s, steps)) && Without(steps, ChangesRows)
    decreases budget, Distance(s)
  {
    if Idle(s) {
      steps := [];
    } else {
      assert Quiet(s) && budget >= 0;
      NextStepLeads(t, s);
      var step := NextStep(s);
      QuietStep(t, s, step, budget);
      NoLostWakeUpStep(t, s, step);
      hide *;
      assert !IsWriteOrFailure(step);
      var rest := ComesToRest(t, Apply(t, s, step), if step.Begin? then budget - 1 else budget);
      Prefixed(t, s, step, rest);
      steps := [step] + rest;
    }
  }

  // ---------------------------------------------------------------- what is left at rest

  /** The sweeper will look at the table again: a sweep is scheduled, is yet to look, or is
    * about to be scheduled by the sweep under way or by starting.
    */
  predicate WillLook(s: State) {
    || s.schedule.due.Some?
    || match s.task
       case NotStarted => true
       case Began(_) => true
       case Deleted(_) => true
       case Looked(gap, oldest) => gap || oldest.Some?
       case Armed(gap) => gap
       case _ => false
  }

  /** With no write in flight, late rows need no remembering once the sweeper will look. */
  lemma WillLookStep(t: Timing, s: State, step: Step, late: Late)
    requires Quiet(s) && NoEarlySweep(s) && Enabled(t, s, step) && !IsWrite(step)
    ensures Quiet(Apply(t, s, step))
    ensures WillLook(s) || late.rows == {} ==> WillLook(Apply(t, s, step)) || NextLate(s, step, late).rows == {}
    ensures !WillLook(s) ==> !WillLook(Apply(t, s, step))
    ensures !WillLook(s) && !step.DropRow? ==> NextLate(s, step, late).rows == late.rows
  {
  }

  predicate IsDrop(step: Step) { step.DropRow? }

  lemma {:induction false} LateAtRest(t: Timing, s: State, steps: seq<Step>, late: Late)
    requires Quiet(s) && NoEarlySweep(s) && IsRun(t, s, steps) && Without(steps, IsWrite)
    ensures var e, left := Final(t, s, steps), LateAfter(t, s, steps, late);
            && (WillLook(s) || late.rows == {} ==> WillLook(e) || left.rows == {})
            && (!WillLook(s) && Without(steps, IsDrop) ==> left.rows == late.rows)
    decreases |steps|
  {
    if steps != [] {
      assert steps[0] in steps;
      WillLookStep(t, s, steps[0], late);
      NoEarlySweepStep(t, s, steps[0]);
      hide Apply;
      hide Enabled;
      hide WillLook;
      hide NextLate;
      assert forall step :: step in steps[1..] ==> step in steps;
      LateAtRest(t, Apply(t, s, steps[0]), steps[1..], NextLate(s, steps[0], late));
    }
  }

  lemma {:induction false} LateOfBoth(t: Timing, s: State, before: seq<Step>, steps: seq<Step>, late: Late)
    requires IsRun(t, s, before) && IsRun(t, Final(t, s, before), steps)
    ensures IsRun(t, s, before + steps)
    ensures Final(t, s, before + steps) == Final(t, Final(t, s, before), steps)
    ensures LateAfter(t, s, before + steps, late) ==
            LateAfter(t, Final(t, s, before), steps, LateAfter(t, s, before, late))
    decreases |before|
  {
    hide Apply;
    hide Enabled;
    hide NextLate;
    if before == [] {
      assert before + steps == steps;
    } else {
      assert (before + steps)[1..] == before[1..] + steps;
      LateOfBoth(t, Apply(t, s, before[0]), before[1..], steps, NextLate(s, before[0], late));
    }
  }

  /** However a run from a fresh store went so far, and whatever happens after it without
    * further writes, failed sweeps and deletions included: at rest the table is empty if
    * the sweeper was still to look; otherwise the rows deleted by no one else are left that
    * overtaken insertions had left since the latest look.
    */
  lemma {:induction false} RestLeaves(t: Timing, s: State, before: seq<Step>, steps: seq<Step>)
    requires Init(s) && IsRun(t, s, before) && Quiet(Final(t, s, before))
    requires IsRun(t, Final(t, s, before), steps) && Without(steps, IsWrite)
    requires Idle(Final(t, Final(t, s, before), steps))
    ensures var m := Final(t, s, before);
            var left := Final(t, m, steps).rows.Keys;
            && (WillLook(m) ==> left == {})
            && (!WillLook(m) && Without(steps, IsDrop) ==> left == LateAfter(t, s, before, NONE_LATE).rows)
  {
    RunsAreSafe(t, s, before);
    LateOfBoth(t, s, before, steps, NONE_LATE);
    IdleTableIsLateRows(t, s, before + steps);
    LateAtRest(t, Final(t, s, before), steps, LateAfter(t, s, before, NONE_LATE));
  }

  /** However a run from a fresh store went so far: once no write is in flight, the sweeper
    * on its own can always proceed until it rests, and then exactly those rows are left.
    */
  lemma {:induction false} SweepingComesToRest(t: Timing, s: State, before: seq<Step>) returns (steps: seq<Step>)
    requires t.grace > 0 && Init(s) && IsRun(t, s, before) && Quiet(Final(t, s, before))
    ensures var m := Final(t, s, before);
            && IsRun(t, m, steps) && Without(steps, ChangesRows) && Idle(Final(t, m, steps))
            && Final(t, m, steps).rows.Keys == if WillLook(m) then {} else LateAfter(t, s, before, NONE_LATE).rows
  {
    var m := Final(t, s, before);
    RunsAreSafe(t, s, before);
    steps := ComesToRest(t, m, |m.rows| + 2);
    hide Idle;
    hide Quiet;
    hide WillLook;
    RestLeaves(t, s, before, steps);
  }

  /** The sweeper empties the table on its own exactly when it is still to look, or no
    * overtaken insertion has left a row since its latest look.
    */
  lemma {:induction false} SweepingEmptiesTableIff(t: Timing, s: State, before: seq<Step>)
    requires t.grace > 0 && Init(s) && IsRun(t, s, before) && Quiet(Final(t, s, before))
    ensures var m := Final(t, s, before);
            (forall steps :: IsRun(t, m, steps) && Without(steps, ChangesRows) && Idle(Final(t, m, steps)) ==>
               Final(t, m, steps).rows == map[])
            <==> WillLook(m) || LateAfter(t, s, before, NONE_LATE).rows == {}
  {
    var m := Final(t, s, before);
    hide Idle;
    hide Quiet;
    hide WillLook;
    hide IsRun;
    forall steps | IsRun(t, m, steps) && Without(steps, ChangesRows) && Idle(Final(t, m, steps))
      ensures Final(t, m, steps).rows.Keys == if WillLook(m) then {} else LateAfter(t, s, before, NONE_LATE).rows
    {
      RestLeaves(t, s, before, steps);
    }
    var steps := SweepingComesToRest(t, s, before);
  }
}
