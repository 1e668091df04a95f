/** What happens once writes stop: only a bounded number of sweeps still begins,
  * each after the first deletes a row, and an idle store stays idle.
  */
module SweepQuiescence {
  import opened Lists
  import opened Options
  import opened Scheduling
  import opened SweepProtocol

  /** No write in flight. */
  predicate Quiet(s: State) { s.writers == map[] }

  /** Nothing scheduled, nothing in flight, and the sweeper is back at its wait. */
  predicate Idle(s: State) {
    Quiet(s) && s.schedule.due.None? && (s.task.Reading? || s.task.WaitingForChange?)
  }

  ghost predicate Without(steps: seq<Step>, excluded: Step -> bool) {
    forall step :: step in steps ==> !excluded(step)
  }

  predicate IsWrite(step: Step) { step.ReadClock? }
  predicate IsWriteOrFailure(step: Step) { step.ReadClock? || step.Fail? }
  predicate IsBegin(step: Step) { step.Begin? }

  lemma IdleStep(t: Timing, s: State, step: Step)
    requires Idle(s) && Enabled(t, s, step) && !IsWrite(step)
    ensures Idle(Apply(t, s, step)) && !IsBegin(step)
    ensures !step.DropRow? ==> Apply(t, s, step).rows == s.rows
  {
  }

  /** An idle store sweeps nothing until the next write. */
  lemma {:induction false} IdleStaysIdle(t: Timing, s: State, steps: seq<Step>)
    requires Idle(s) && IsRun(t, s, steps) && Without(steps, IsWrite)
    ensures Idle(Final(t, s, steps)) && Without(steps, IsBegin)
    ensures (forall step :: step in steps ==> !step.DropRow?) ==> Final(t, s, steps).rows == s.rows
    decreases |steps|
  {
    if steps != [] {
      IdleStep(t, s, steps[0]);
      hide Apply;
      hide Enabled;
      assert forall step :: step in steps[1..] ==> step in steps;
      IdleStaysIdle(t, Apply(t, s, steps[0]), steps[1..]);
      assert steps == [steps[0]] + steps[1..];
    }
  }

  // ---------------------------------------------------------------- counting the sweeps left

  /** Some row will have expired when the scheduled sweep runs. */
  ghost predicate Ripe(t: Timing, rows: map<string, Row>, at: int) {
    exists id :: id in rows && rows[id].lastAccessed + t.Lifetime() <= at
  }

  /** At most `budget` sweeps still begin: two more than there are rows in any
    * case, fewer once a sweep has begun with no write in flight.
    */
  ghost predicate Within(t: Timing, s: State, budget: int) {
    budget >= |s.rows| + 2 || WithinPhase(t, s, budget)
  }

  ghost predicate WithinPhase(t: Timing, s: State, budget: int) {
    var n := |s.rows|;
    match s.task
    case NotStarted => false
    case Began(gap) => s.schedule == Unscheduled &&
      (budget >= n + (if gap then 1 else 0) || (!gap && budget >= n - 1 && Ripe(t, s.rows, s.clock)))
    case Deleted(gap) => s.schedule == Unscheduled && budget >= n + if gap then 1 else 0
    case Looked(gap, oldest) => s.schedule == Unscheduled &&
      (if oldest.None? then n == 0 && budget >= (if gap then 1 else 0)
       else || budget >= n + 1 + (if gap then 1 else 0)
            || (budget >= n + (if gap then 1 else 0) && Ripe(t, s.rows, oldest.value + t.Lifetime())))
    case Armed(gap) => !s.schedule.writeInGap &&
      (if s.schedule.due.None? then n == 0 && budget >= (if gap then 1 else 0)
       else || budget >= n + 1 + (if gap then 1 else 0)
            || (budget >= n + (if gap then 1 else 0) && Ripe(t, s.rows, s.schedule.due.value)))
    case _ =>
      || s.schedule.due.None?
      || (!s.schedule.writeInGap && (budget >= n + 1 || (budget >= n && Ripe(t, s.rows, s.schedule.due.value))))
  }

  ghost predicate QuietState(t: Timing, s: State, budget: int) {
    && Quiet(s) && TimesPast(s) && NoEarlySweep(s) && Within(t, s, budget)
    && budget >= 0
    && (s.task.TimedOut? || s.task.WaitingUntil? ==> s.schedule.due.Some?)
  }

  lemma FewerRows(rows: map<string, Row>, fewer: map<string, Row>, id: string)
    requires id in rows && id !in fewer && fewer.Keys <= rows.Keys
    ensures |fewer| < |rows|
  {
    assert fewer.Keys <= rows.Keys - {id};
    FewerOrSame(fewer.Keys, rows.Keys - {id});
    assert |rows.Keys - {id}| == |rows| - 1;
    assert |fewer.Keys| == |fewer|;
  }

  lemma NoMoreRows(rows: map<string, Row>, fewer: map<string, Row>)
    requires fewer.Keys <= rows.Keys
    ensures |fewer| <= |rows|
  {
    FewerOrSame(fewer.Keys, rows.Keys);
    assert |fewer.Keys| == |fewer| && |rows.Keys| == |rows|;
  }

  /** A sweep that begins when a row is ripe deletes at least one row. */
  lemma RipeSweepDeletes(t: Timing, s: State)
    requires t.grace > 0 && Ripe(t, s.rows, s.clock)
    ensures |Unexpired(s.rows, s.clock, t.timeout)| < |s.rows|
  {
    var id :| id in s.rows && s.rows[id].lastAccessed + t.Lifetime() <= s.clock;
    FewerRows(s.rows, Unexpired(s.rows, s.clock, t.timeout), id);
  }

  lemma DropRowWithin(t: Timing, s: State, id: string, budget: int)
    requires Within(t, s, budget) && id in s.rows && budget >= 0
    ensures Within(t, s.(rows := s.rows - {id}), budget)
  {
    var s' := s.(rows := s.rows - {id});
    FewerRows(s.rows, s'.rows, id);
  }

  lemma RipeLater(t: Timing, rows: map<string, Row>, at: int, later: int)
    requires Ripe(t, rows, at) && at <= later
    ensures Ripe(t, rows, later)
  {
  }

  lemma TickWithin(t: Timing, s: State, to: int, budget: int)
    requires Within(t, s, budget) && s.clock <= to
    ensures Within(t, s.(clock := to), budget)
  {
    if s.task.Began? && Ripe(t, s.rows, s.clock) {
      RipeLater(t, s.rows, s.clock, to);
    }
  }

  lemma BeginWithin(t: Timing, s: State, budget: int)
    requires Within(t, s, budget) && s.task.TimedOut? && DueBy(s.schedule, s.clock)
    ensures Within(t, Apply(t, s, Begin), budget - 1)
    ensures budget >= 1
  {
    if Ripe(t, s.rows, s.schedule.due.value) {
      RipeLater(t, s.rows, s.schedule.due.value, s.clock);
      FewerRows(s.rows, map[], (var id :| id in s.rows; id));
    }
  }

  lemma DeleteWithin(t: Timing, s: State, budget: int)
    requires Within(t, s, budget) && s.task.Began? && t.grace > 0
    ensures Within(t, Apply(t, s, DeleteExpired), budget)
  {
    NoMoreRows(s.rows, Unexpired(s.rows, s.clock, t.timeout));
    if Ripe(t, s.rows, s.clock) {
      RipeSweepDeletes(t, s);
    }
  }

  lemma LookWithin(t: Timing, s: State, oldest: Option<int>, budget: int)
    requires Within(t, s, budget) && s.task.Deleted? && IsOldest(s.rows, oldest)
    ensures Within(t, Apply(t, s, Look(oldest)), budget)
  {
    if oldest.Some? {
      var id :| id in s.rows && s.rows[id].lastAccessed == oldest.value;
      assert Ripe(t, s.rows, oldest.value + t.Lifetime());
    }
  }

  lemma ArmWithin(t: Timing, s: State, budget: int)
    requires Within(t, s, budget) && s.task.Looked?
    ensures Within(t, Apply(t, s, Arm), budget)
  {
    var s' := Apply(t, s, Arm);
    if s.schedule == Unscheduled && s.task.oldest.Some? && Ripe(t, s.rows, s.task.oldest.value + t.Lifetime()) {
      RipeLater(t, s.rows, s.task.oldest.value + t.Lifetime(), s'.schedule.due.value);
    }
  }

  lemma FollowWithin(t: Timing, s: State, budget: int)
    requires Within(t, s, budget) && s.task.Armed? && TimesPast(s)
    ensures Within(t, Apply(t, s, Follow), budget)
  {
    var s' := Apply(t, s, Follow);
    if s.schedule.due.Some? && Ripe(t, s.rows, s.schedule.due.value) {
      var id :| id in s.rows && s.rows[id].lastAccessed + t.Lifetime() <= s.schedule.due.value;
      assert s.rows[id].lastAccessed <= s.clock;
      assert Ripe(t, s'.rows, s'.schedule.due.value);
    }
  }

  lemma WithinStep(t: Timing, s: State, step: Step, budget: int)
    requires t.grace > 0 && QuietState(t, s, budget)
    requires Enabled(t, s, step) && !IsWriteOrFailure(step)
    ensures Within(t, Apply(t, s, step), if step.Begin? then budget - 1 else budget)
    ensures step.Begin? ==> budget >= 1
  {
    match step
    case Tick(to) => TickWithin(t, s, to, budget);
    case DropRow(id) => DropRowWithin(t, s, id, budget);
    case Begin => BeginWithin(t, s, budget);
    case DeleteExpired => DeleteWithin(t, s, budget);
    case Look(oldest) => LookWithin(t, s, oldest, budget);
    case Arm => ArmWithin(t, s, budget);
    case Follow => FollowWithin(t, s, budget);
    case _ =>
  }

  lemma QuietStep(t: Timing, s: State, step: Step, budget: int)
    requires t.grace > 0 && QuietState(t, s, budget)
    requires Enabled(t, s, step) && !IsWriteOrFailure(step)
    ensures QuietState(t, Apply(t, s, step), if step.Begin? then budget - 1 else budget)
  {
    WithinStep(t, s, step, budget);
    TimesPastStep(t, s, step);
    NoEarlySweepStep(t, s, step);
    hide Within;
    hide TimesPast;
  }

  ghost function Begins(steps: seq<Step>): nat {
    if steps == [] then 0 else (if steps[0].Begin? then 1 else 0) + Begins(steps[1..])
  }

  lemma {:induction false} QuietRun(t: Timing, s: State, steps: seq<Step>, budget: int)
    requires t.grace > 0 && QuietState(t, s, budget)
    requires IsRun(t, s, steps) && Without(steps, IsWriteOrFailure)
    ensures Begins(steps) <= budget
    ensures QuietState(t, Final(t, s, steps), budget - Begins(steps))
    decreases |steps|
  {
    if steps != [] {
      QuietStep(t, s, steps[0], budget);
      hide Apply;
      hide Enabled;
      hide QuietState;
      assert QuietState(t, Apply(t, s, steps[0]), if steps[0].Begin? then budget - 1 else budget);
      assert forall step :: step in steps[1..] ==> step in steps;
      QuietRun(t, Apply(t, s, steps[0]), steps[1..], if steps[0].Begin? then budget - 1 else budget);
    }
  }

  /** However a run from a fresh store went so far: once no write is in flight
    * and sweeps succeed, at most two more sweeps than there are rows begin, and
    * if that many have begun the store is idle as soon as the last is over.
    */
  lemma SweepsRunOut(t: Timing, s: State, before: seq<Step>, steps: seq<Step>)
    requires t.grace > 0 && Init(s) && IsRun(t, s, before) && Quiet(Final(t, s, before))
    requires IsRun(t, Final(t, s, before), steps) && Without(steps, IsWriteOrFailure)
    ensures var n := |Final(t, s, before).rows| + 2;
            var e := Final(t, Final(t, s, before), steps);
            && Begins(steps) <= n
            && (Begins(steps) == n && !e.task.Sweeping() && !e.task.NotStarted? ==> Idle(e))
  {
    RunsAreSafe(t, s, before);
    var m := Final(t, s, before);
    QuietRun(t, m, steps, |m.rows| + 2);
  }

  // ---------------------------------------------------------------- every later sweep deletes

  /** With no write in flight and no row deleted otherwise, a sweep numbered
    * above `first` is only ever scheduled for a time when some row has expired.
    */
  ghost predicate Settled(t: Timing, s: State, first: nat) {
    match s.task
    case NotStarted => false
    case Began(_) =>
        s.schedule == Unscheduled && (s.history.sweeps == first || s.rows == map[] || Ripe(t, s.rows, s.clock))
    case Deleted(_) => s.schedule == Unscheduled
    case Looked(_, oldest) => s.schedule == Unscheduled &&
      if oldest.None? then s.rows == map[] else Ripe(t, s.rows, oldest.value + t.Lifetime())
    case _ => s.rows == map[] || (s.schedule.due.Some? && Ripe(t, s.rows, s.schedule.due.value))
  }

  predicate ChangesRows(step: Step) { IsWriteOrFailure(step) || step.DropRow? }

  lemma SettledStep(t: Timing, s: State, step: Step, first: nat)
    requires Quiet(s) && TimesPast(s) && NoEarlySweep(s) && Settled(t, s, first)
    requires Enabled(t, s, step) && !ChangesRows(step)
    ensures Settled(t, Apply(t, s, step), first)
  {
    var s' := Apply(t, s, step);
    match step
    case Tick(to) =>
      if s.task.Began? && Ripe(t, s.rows, s.clock) { RipeLater(t, s.rows, s.clock, to); }
    case Begin =>
      if Ripe(t, s.rows, s.schedule.due.value) { RipeLater(t, s.rows, s.schedule.due.value, s.clock); }
    case Look(oldest) =>
      if oldest.Some? {
        var id :| id in s.rows && s.rows[id].lastAccessed == oldest.value;
        assert Ripe(t, s.rows, oldest.value + t.Lifetime());
      }
    case Arm =>
      if s.task.oldest.Some? { RipeLater(t, s.rows, s.task.oldest.value + t.Lifetime(), s'.schedule.due.value); }
    case Follow =>
      if s.rows != map[] {
        var id :| id in s.rows && s.rows[id].lastAccessed + t.Lifetime() <= s.schedule.due.value;
        assert Ripe(t, s'.rows, s'.schedule.due.value);
      }
    case _ =>
  }

  lemma {:induction false} SettledRun(t: Timing, s: State, steps: seq<Step>, first: nat)
    requires Quiet(s) && TimesPast(s) && NoEarlySweep(s) && Settled(t, s, first)
    requires IsRun(t, s, steps) && Without(steps, ChangesRows)
    ensures Settled(t, Final(t, s, steps), first)
    decreases |steps|
  {
    if steps != [] {
      SettledStep(t, s, steps[0], first);
      TimesPastStep(t, s, steps[0]);
      NoEarlySweepStep(t, s, steps[0]);
      assert Quiet(Apply(t, s, steps[0]));
      hide Apply;
      hide Enabled;
      hide Settled;
      hide TimesPast;
      hide NoEarlySweep;
      assert forall step :: step in steps[1..] ==> step in steps;
      SettledRun(t, Apply(t, s, steps[0]), steps[1..], first);
    }
  }

  /** With no write in flight and no row deleted otherwise, every sweep after the
    * first that starts on a non-empty table deletes at least one row.
    */
  lemma LaterSweepsDelete(t: Timing, s: State, before: seq<Step>, steps: seq<Step>)
    requires t.grace > 0 && Init(s) && IsRun(t, s, before + [Begin]) && Quiet(Final(t, s, before + [Begin]))
    requires IsRun(t, Final(t, s, before + [Begin]), steps) && Without(steps, ChangesRows)
    ensures var m := Final(t, s, before + [Begin]);
            var e := Final(t, m, steps);
            e.task.Began? && e.history.sweeps > m.history.sweeps && e.rows != map[] ==>
              |Unexpired(e.rows, e.clock, t.timeout)| < |e.rows|
  {
    var m := Final(t, s, before + [Begin]);
    RunsAreSafe(t, s, before + [Begin]);
    JustBegun(t, s, before);
    SettledRun(t, m, steps, m.history.sweeps);
    var e := Final(t, m, steps);
    if e.task.Began? && e.history.sweeps > m.history.sweeps && e.rows != map[] {
      RipeSweepDeletes(t, e);
    }
  }

  lemma {:induction false} JustBegun(t: Timing, s: State, before: seq<Step>)
    requires IsRun(t, s, before + [Begin])
    ensures Final(t, s, before + [Begin]).task.Began? && Final(t, s, before + [Begin]).schedule == Unscheduled
    decreases |before|
  {
    var steps := before + [Begin];
    if before == [] {
      assert steps == [Begin];
      assert steps[1..] == [];
    } else {
      assert steps[1..] == before[1..] + [Begin];
      JustBegun(t, Apply(t, s, steps[0]), before[1..]);
    }
  }
}
