/** The scheduled expiry sweep as a protocol between any number of writers, the
  * sweeping task and the table of rows. Each step is one lock section, one
  * query, one clock reading or one wait; steps of different parties interleave
  * freely. Times are milliseconds on one clock.
  */
module SweepProtocol {
  import opened Numbers
  import opened Options
  import opened Scheduling

  const MIN_SWEEP_SPACING := 30_000
  const SWEEP_RETRY_DELAY := 60_000

  datatype Timing = Timing(timeout: nat, grace: nat, startupDelay: nat) {
    /** From a write to the sweep that should remove its row. */
    function Lifetime(): nat { timeout + grace }
  }

  /** A save of session `id` whose record was last accessed at `lastAccessed`;
    * `now` is the clock reading handed to the schedule.
    */
  datatype Write = Write(id: string, lastAccessed: int, now: int)

  /** A row insertion on its way to the table. `inGap`: the write was noted after
    * the scheduled sweep had fallen due. `sweep`: the number of the sweep whose
    * look at the table the insertion is meant to precede.
    */
  datatype Upsert = Upsert(write: Write, inGap: bool, sweep: nat)

  datatype Writer =
    | Noting(write: Write)        // has read the clock, not yet taken the lock
    | Notifying(upsert: Upsert)   // has released the lock, not yet notified
    | Upserting(upsert: Upsert)   // the insertion is running
  {
    function Origin(): Write { if Noting? then write else upsert.write }
  }

  /** `lateFor`: the number of the sweep whose look this row just missed, a write
    * noted in that sweep's gap; 0 for every other row.
    */
  datatype Row = Row(lastAccessed: int, noted: int, lateFor: nat)

  datatype Task =
    | NotStarted
    | Reading
    | WaitingForChange
    | WaitingUntil(at: int)
    | TimedOut
    | Began(gap: bool)
    | Deleted(gap: bool)
    | Looked(gap: bool, oldest: Option<int>)
    | Armed(gap: bool)
  {
    predicate Sweeping() { Began? || Deleted? || Looked? || Armed? }
    /** A sweep has begun and not yet looked for the oldest row. */
    predicate BeforeLook() { Began? || Deleted? }
    predicate Waiting() { WaitingForChange? || WaitingUntil? }
  }

  /** What the theorems refer back to: how many sweeps have begun, when the last
    * one did, the deadlines its re-arming and its follow-up promised, and the
    * earliest clock reading behind a deadline set since it began.
    */
  datatype History = History(sweeps: nat, lastBegin: int, armBound: int, followBound: int, floor: int)

  datatype State = State(clock: int, schedule: Schedule, permit: bool, task: Task,
                         writers: map<nat, Writer>, rows: map<string, Row>, history: History)

  datatype Step =
    | Tick(to: int)
    | ReadClock(w: nat, id: string, lastAccessed: int)
    | Note(w: nat)
    | Notify(w: nat)
    | Land(w: nat)
    | Lose(w: nat)
    | DropRow(id: string)
    | Start
    | ReadDue
    | Wake
    | TimeOut
    | Begin
    | DeleteExpired
    | Look(oldest: Option<int>)
    | Arm
    | Follow
    | Fail

  /** `oldest` is the least `lastAccessed` in the table, absent for an empty one. */
  ghost predicate IsOldest(rows: map<string, Row>, oldest: Option<int>) {
    if oldest.None? then rows == map[]
    else (exists id :: id in rows && rows[id].lastAccessed == oldest.value)
         && forall id :: id in rows ==> oldest.value <= rows[id].lastAccessed
  }

  /** The rows a deletion at `now` leaves: those not idle for longer than the timeout. */
  function Unexpired(rows: map<string, Row>, now: int, timeout: nat): map<string, Row> {
    map id | id in rows && !(rows[id].lastAccessed < now - timeout) :: rows[id]
  }

  ghost predicate Enabled(t: Timing, s: State, step: Step) {
    match step
    case Tick(to) => s.clock <= to
    case ReadClock(w, id, lastAccessed) => w !in s.writers && lastAccessed <= s.clock
    case Note(w) => w in s.writers && s.writers[w].Noting?
    case Notify(w) => w in s.writers && s.writers[w].Notifying?
    case Land(w) => w in s.writers && s.writers[w].Upserting?
    case Lose(w) => w in s.writers && s.writers[w].Upserting?
    case DropRow(id) => id in s.rows
    case Start => s.task.NotStarted?
    case ReadDue => s.task.Reading?
    case Wake => s.task.Waiting() && s.permit
    case TimeOut => s.task.WaitingUntil? && s.task.at <= s.clock
    case Begin => s.task.TimedOut?
    case DeleteExpired => s.task.Began?
    case Look(oldest) => s.task.Deleted? && IsOldest(s.rows, oldest)
    case Arm => s.task.Looked?
    case Follow => s.task.Armed?
    case Fail => s.task.BeforeLook()
  }

  /** The deadline moves to `at` unless it is sooner, and a change wakes the sweeper. */
  function LowerTo(s: State, at: int): State {
    s.(schedule := Lowered(s.schedule, at), permit := s.permit || !DueBy(s.schedule, at))
  }

  function AfterNote(t: Timing, s: State, w: nat): State
    requires w in s.writers && s.writers[w].Noting?
  {
    var write := s.writers[w].write;
    var expires := write.now + t.Lifetime();
    var inGap := DueBy(s.schedule, write.now);
    var upsert := Upsert(write, inGap, s.history.sweeps + if inGap then 2 else 1);
    var wakes := NotedWakes(s.schedule, write.now, expires);
    s.(schedule := Noted(s.schedule, write.now, expires),
       writers := s.writers[w := if wakes then Notifying(upsert) else Upserting(upsert)],
       history := s.history.(floor := if wakes then Min(s.history.floor, write.now) else s.history.floor))
  }

  function AfterLand(s: State, w: nat): State
    requires w in s.writers && s.writers[w].Upserting?
  {
    var u := s.writers[w].upsert;
    var late := u.inGap && u.sweep == s.history.sweeps + 1 && !s.task.BeforeLook();
    s.(rows := s.rows[u.write.id := Row(u.write.lastAccessed, u.write.now, if late then s.history.sweeps else 0)],
       writers := s.writers - {w})
  }

  function AfterBegin(s: State): State {
    s.(task := Began(s.schedule.writeInGap), schedule := Unscheduled,
       history := s.history.(sweeps := s.history.sweeps + 1, lastBegin := s.clock, floor := s.clock))
  }

  function AfterDelete(t: Timing, s: State): State
    requires s.task.Began?
  {
    s.(rows := Unexpired(s.rows, s.clock, t.timeout), task := Deleted(s.task.gap))
  }

  function AfterLook(s: State, oldest: Option<int>): State
    requires s.task.Deleted?
  {
    s.(task := Looked(s.task.gap, oldest))
  }

  function AfterArm(t: Timing, s: State): State
    requires s.task.Looked?
  {
    var next := s.(task := Armed(s.task.gap), history := s.history.(armBound := s.clock + MIN_SWEEP_SPACING));
    if s.task.oldest.None? then next
    else
      var wait := Max(s.task.oldest.value + t.Lifetime() - s.clock, MIN_SWEEP_SPACING);
      LowerTo(next, s.clock + wait)
  }

  function AfterFollow(t: Timing, s: State): State
    requires s.task.Armed?
  {
    var next := s.(task := Reading, history := s.history.(followBound := s.clock + t.Lifetime()));
    if s.task.gap then LowerTo(next, s.clock + t.Lifetime()) else next
  }

  function AfterFail(s: State): State {
    var at := s.clock + SWEEP_RETRY_DELAY;
    LowerTo(s.(task := Reading, history := s.history.(armBound := at, followBound := at)), at)
  }

  function Apply(t: Timing, s: State, step: Step): State
    requires Enabled(t, s, step)
  {
    match step
    case Tick(to) => s.(clock := to)
    case ReadClock(w, id, lastAccessed) => s.(writers := s.writers[w := Noting(Write(id, lastAccessed, s.clock))])
    case Note(w) => AfterNote(t, s, w)
    case Notify(w) => s.(permit := true, writers := s.writers[w := Upserting(s.writers[w].upsert)])
    case Land(w) => AfterLand(s, w)
    case Lose(w) => s.(writers := s.writers - {w})
    case DropRow(id) => s.(rows := s.rows - {id})
    case Start =>
      var at := s.clock + t.startupDelay;
      LowerTo(s.(task := Reading, history := s.history.(armBound := at)), at)
    case ReadDue =>
      s.(task := if s.schedule.due.None? then WaitingForChange else WaitingUntil(s.schedule.due.value))
    case Wake => s.(permit := false, task := Reading)
    case TimeOut => s.(task := TimedOut)
    case Begin => AfterBegin(s)
    case DeleteExpired => AfterDelete(t, s)
    case Look(oldest) => AfterLook(s, oldest)
    case Arm => AfterArm(t, s)
    case Follow => AfterFollow(t, s)
    case Fail => AfterFail(s)
  }

  /** A fresh store over a table that may hold rows of an earlier process. */
  ghost predicate Init(s: State) {
    && s.schedule == Unscheduled && !s.permit && s.task == NotStarted
    && s.writers == map[]
    && (forall id :: id in s.rows ==> s.rows[id].lastAccessed <= s.rows[id].noted <= s.clock && s.rows[id].lateFor == 0)
    && s.history == History(0, s.clock, s.clock, s.clock, s.clock)
  }

  // ---------------------------------------------------------------- runs

  ghost predicate IsRun(t: Timing, s: State, steps: seq<Step>)
    decreases |steps|
  {
    steps == [] || (Enabled(t, s, steps[0]) && IsRun(t, Apply(t, s, steps[0]), steps[1..]))
  }

  ghost function Final(t: Timing, s: State, steps: seq<Step>): State
    requires IsRun(t, s, steps)
    decreases |steps|
  {
    if steps == [] then s else Final(t, Apply(t, s, steps[0]), steps[1..])
  }

  lemma {:induction false} Extend(t: Timing, s: State, steps: seq<Step>, step: Step)
    requires IsRun(t, s, steps) && Enabled(t, Final(t, s, steps), step)
    ensures IsRun(t, s, steps + [step]) && Final(t, s, steps + [step]) == Apply(t, Final(t, s, steps), step)
    decreases |steps|
  {
    hide Apply;
    hide Enabled;
    if steps == [] {
      assert (steps + [step])[1..] == [];
    } else {
      assert (steps + [step])[1..] == steps[1..] + [step];
      Extend(t, Apply(t, s, steps[0]), steps[1..], step);
    }
  }

  // ---------------------------------------------------------------- wake-ups and early sweeps

  ghost predicate SomeoneNotifying(s: State) {
    exists w :: w in s.writers && s.writers[w].Notifying?
  }

  /** A task that waits for too long will be woken: a wake-up is stored, or a
    * writer stands between releasing the lock and notifying.
    */
  ghost predicate NoLostWakeUp(s: State) {
    && (s.task.WaitingForChange? && s.schedule.due.Some? ==> s.permit || SomeoneNotifying(s))
    && (s.task.WaitingUntil? && s.schedule.due != Some(s.task.at) ==> s.permit || SomeoneNotifying(s))
  }

  /** The deadline a task waits for, or has waited for, is never before the schedule's. */
  ghost predicate NoEarlySweep(s: State) {
    && (s.task.WaitingUntil? ==> DueBy(s.schedule, s.task.at))
    && (s.task.TimedOut? ==> DueBy(s.schedule, s.clock))
  }

  /** Clock readings and row times lie in the past. */
  ghost predicate TimesPast(s: State) {
    WritersPast(s) && RowsPast(s) && s.history.floor <= s.history.lastBegin <= s.clock
  }

  ghost predicate WritersPast(s: State) {
    forall w :: w in s.writers ==> s.writers[w].Origin().lastAccessed <= s.writers[w].Origin().now <= s.clock
  }

  ghost predicate RowsPast(s: State) {
    forall id :: id in s.rows ==> s.rows[id].lastAccessed <= s.rows[id].noted <= s.clock
  }

  lemma NoLostWakeUpStep(t: Timing, s: State, step: Step)
    requires NoLostWakeUp(s) && Enabled(t, s, step)
    ensures NoLostWakeUp(Apply(t, s, step))
  {
    var s' := Apply(t, s, step);
    if SomeoneNotifying(s) && !step.Notify? {
      var w :| w in s.writers && s.writers[w].Notifying?;
      assert w in s'.writers && s'.writers[w].Notifying?;
    }
    if step.Note? && s'.schedule.due != s.schedule.due {
      assert step.w in s'.writers && s'.writers[step.w].Notifying?;
    }
  }

  lemma NoEarlySweepStep(t: Timing, s: State, step: Step)
    requires NoEarlySweep(s) && Enabled(t, s, step)
    ensures NoEarlySweep(Apply(t, s, step))
  {
  }

  lemma TimesPastStep(t: Timing, s: State, step: Step)
    requires TimesPast(s) && Enabled(t, s, step)
    ensures TimesPast(Apply(t, s, step))
  {
    WritersPastStep(t, s, step);
    RowsPastStep(t, s, step);
    hide WritersPast; hide RowsPast;
  }

  lemma WritersPastStep(t: Timing, s: State, step: Step)
    requires WritersPast(s) && Enabled(t, s, step)
    ensures WritersPast(Apply(t, s, step))
  {
  }

  lemma RowsPastStep(t: Timing, s: State, step: Step)
    requires RowsPast(s) && WritersPast(s) && Enabled(t, s, step)
    ensures RowsPast(Apply(t, s, step))
  {
  }

  // ---------------------------------------------------------------- which rows go

  /** The step writes or drops the row of session `id` itself. */
  predicate Touches(s: State, step: Step, id: string) {
    || step == DropRow(id)
    || (step.Land? && step.w in s.writers && s.writers[step.w].Upserting? && s.writers[step.w].upsert.write.id == id)
  }

  /** A deletion removes exactly the rows idle for longer than the timeout; no other step
    * removes or changes a row, except a write to it or dropping it.
    */
  lemma RowsGoIff(t: Timing, s: State, step: Step, id: string)
    requires Enabled(t, s, step) && id in s.rows && !Touches(s, step, id)
    ensures var rows := Apply(t, s, step).rows;
            && (id !in rows <==> step.DeleteExpired? && s.clock - s.rows[id].lastAccessed > t.timeout)
            && (id in rows ==> rows[id] == s.rows[id])
  {
  }

  /** Only a write adds a row. */
  lemma RowsComeIff(t: Timing, s: State, step: Step, id: string)
    requires Enabled(t, s, step) && id !in s.rows
    ensures id in Apply(t, s, step).rows <==> Touches(s, step, id) && step.Land?
  {
  }

  ghost predicate Untouched(t: Timing, s: State, steps: seq<Step>, id: string)
    requires IsRun(t, s, steps)
    decreases |steps|
  {
    steps == [] || (!Touches(s, steps[0], id) && Untouched(t, Apply(t, s, steps[0]), steps[1..], id))
  }

  /** In every run that does not touch it, a row not idle for longer than the timeout at
    * the end is there unchanged.
    */
  lemma {:induction false} LiveRowsSurvive(t: Timing, s: State, steps: seq<Step>, id: string)
    requires IsRun(t, s, steps) && Untouched(t, s, steps, id) && id in s.rows
    requires Final(t, s, steps).clock - s.rows[id].lastAccessed <= t.timeout
    ensures id in Final(t, s, steps).rows && Final(t, s, steps).rows[id] == s.rows[id]
    decreases |steps|
  {
    if steps != [] {
      RowsGoIff(t, s, steps[0], id);
      ClockOnlyAdvances(t, Apply(t, s, steps[0]), steps[1..]);
      assert s.clock <= Apply(t, s, steps[0]).clock;
      hide Apply;
      hide Enabled;
      LiveRowsSurvive(t, Apply(t, s, steps[0]), steps[1..], id);
    }
  }

  lemma {:induction false} ClockOnlyAdvances(t: Timing, s: State, steps: seq<Step>)
    requires IsRun(t, s, steps)
    ensures s.clock <= Final(t, s, steps).clock
    decreases |steps|
  {
    if steps != [] {
      assert s.clock <= Apply(t, s, steps[0]).clock;
      hide Apply;
      hide Enabled;
      ClockOnlyAdvances(t, Apply(t, s, steps[0]), steps[1..]);
    }
  }

  // ---------------------------------------------------------------- where rows come from

  /** Everything on its way to the table, and everything in it, is one of `seen`. */
  ghost predicate FromWrites(s: State, seen: set<Write>) {
    && (forall w :: w in s.writers ==> s.writers[w].Origin() in seen)
    && (forall id :: id in s.rows ==> Write(id, s.rows[id].lastAccessed, s.rows[id].noted) in seen)
  }

  /** The rows the table starts with, as writes. */
  function WritesOf(rows: map<string, Row>): set<Write> {
    set id | id in rows :: Write(id, rows[id].lastAccessed, rows[id].noted)
  }

  /** The writes of a run: the session, its last access, and the clock at each reading. */
  ghost function WritesIn(t: Timing, s: State, steps: seq<Step>): set<Write>
    requires IsRun(t, s, steps)
    decreases |steps|
  {
    if steps == [] then {}
    else
      (if steps[0].ReadClock? then {Write(steps[0].id, steps[0].lastAccessed, s.clock)} else {})
      + WritesIn(t, Apply(t, s, steps[0]), steps[1..])
  }

  lemma FromWritesStep(t: Timing, s: State, step: Step, seen: set<Write>)
    requires FromWrites(s, seen) && Enabled(t, s, step)
    requires step.ReadClock? ==> Write(step.id, step.lastAccessed, s.clock) in seen
    ensures FromWrites(Apply(t, s, step), seen)
  {
    if step.Land? { assert s.writers[step.w].Origin() in seen; }
    if step.Note? || step.Notify? { assert s.writers[step.w].Origin() in seen; }
  }

  lemma {:induction false} RunsFromWrites(t: Timing, s: State, steps: seq<Step>, seen: set<Write>)
    requires IsRun(t, s, steps) && FromWrites(s, seen) && WritesIn(t, s, steps) <= seen
    ensures FromWrites(Final(t, s, steps), seen)
    decreases |steps|
  {
    if steps != [] {
      FromWritesStep(t, s, steps[0], seen);
      hide Apply;
      hide Enabled;
      hide FromWrites;
      RunsFromWrites(t, Apply(t, s, steps[0]), steps[1..], seen);
    }
  }

  /** In every run each row stands for a write of its own session: one the table started
    * with, or one of the run, with that write's last access and clock reading.
    */
  lemma RowsAreWrites(t: Timing, s: State, steps: seq<Step>, id: string)
    requires Init(s) && IsRun(t, s, steps) && id in Final(t, s, steps).rows
    ensures var row := Final(t, s, steps).rows[id];
            Write(id, row.lastAccessed, row.noted) in WritesOf(s.rows) + WritesIn(t, s, steps)
  {
    RunsFromWrites(t, s, steps, WritesOf(s.rows) + WritesIn(t, s, steps));
  }

  // ---------------------------------------------------------------- spacing

  /** Every deadline set since the last sweep began keeps its distance from it:
    * the minimum spacing, or a full lifetime from the clock reading behind it.
    */
  ghost predicate Spaced(t: Timing, s: State) {
    && (s.task.NotStarted? ==> s.history.sweeps == 0)
    && (s.history.sweeps > 0 && s.schedule.due.Some? ==>
          s.schedule.due.value >= Min(s.history.lastBegin + MIN_SWEEP_SPACING, s.history.floor + t.Lifetime()))
  }

  lemma SpacedStep(t: Timing, s: State, step: Step)
    requires Spaced(t, s) && TimesPast(s) && Enabled(t, s, step)
    ensures Spaced(t, Apply(t, s, step))
  {
  }

  /** A clock reading from before the last sweep that has set a deadline since
    * keeps the deadline within a lifetime of itself.
    */
  ghost predicate StaleReadingSetsDue(t: Timing, s: State) {
    s.history.sweeps > 0 && s.history.floor < s.history.lastBegin ==>
      DueBy(s.schedule, s.history.floor + t.Lifetime())
  }

  lemma StaleReadingStep(t: Timing, s: State, step: Step)
    requires StaleReadingSetsDue(t, s) && Spaced(t, s) && TimesPast(s) && Enabled(t, s, step)
    ensures StaleReadingSetsDue(t, Apply(t, s, step))
  {
  }

  ghost predicate Safe(t: Timing, s: State) {
    TimesPast(s) && NoLostWakeUp(s) && NoEarlySweep(s) && Spaced(t, s) && StaleReadingSetsDue(t, s)
  }

  /** What every run keeps, in every interleaving. */
  lemma {:induction false} RunsAreSafe(t: Timing, s: State, steps: seq<Step>)
    requires Safe(t, s) && IsRun(t, s, steps)
    ensures Safe(t, Final(t, s, steps))
    decreases |steps|
  {
    if steps != [] {
      TimesPastStep(t, s, steps[0]);
      NoLostWakeUpStep(t, s, steps[0]);
      NoEarlySweepStep(t, s, steps[0]);
      SpacedStep(t, s, steps[0]);
      StaleReadingStep(t, s, steps[0]);
      hide Apply;
      hide TimesPast;
      hide NoLostWakeUp;
      hide NoEarlySweep;
      hide Spaced;
      hide StaleReadingSetsDue;
      RunsAreSafe(t, Apply(t, s, steps[0]), steps[1..]);
    }
  }

  /** From a fresh store, in every interleaving: no wake-up is lost, and a sweep
    * begins only once the clock has reached the deadline, at least the minimum
    * spacing or a lifetime (counted from the earliest clock reading behind a
    * deadline set meanwhile) after the previous sweep began.
    */
  lemma SweepsAreNeverMissedOrEarly(t: Timing, s: State, steps: seq<Step>)
    requires Init(s) && IsRun(t, s, steps)
    ensures var e := Final(t, s, steps);
            && NoLostWakeUp(e)
            && (Enabled(t, e, Begin) ==> DueBy(e.schedule, e.clock))
            && (Enabled(t, e, Begin) && e.history.sweeps > 0 ==>
                  e.clock >= Min(e.history.lastBegin + MIN_SWEEP_SPACING, e.history.floor + t.Lifetime()))
            && (Enabled(t, e, Begin) && e.history.sweeps > 0 && e.history.floor == e.history.lastBegin ==>
                  e.clock - e.history.lastBegin >= Min(MIN_SWEEP_SPACING, t.Lifetime()))
  {
    RunsAreSafe(t, s, steps);
  }

  /** How far a scheduled sweep must lie from the beginning of the previous one. */
  function Spacing(t: Timing): int { Min(MIN_SWEEP_SPACING, t.Lifetime()) }

  /** A deadline lies too close to the previous sweep exactly when a clock reading
    * behind it was so old when that sweep began that a lifetime from the reading
    * ends before the spacing does.
    */
  lemma SpacingBrokenIff(t: Timing, s: State, steps: seq<Step>)
    requires Init(s) && IsRun(t, s, steps)
    ensures var e := Final(t, s, steps);
            e.history.sweeps > 0 && e.schedule.due.Some? ==>
              (e.schedule.due.value - e.history.lastBegin < Spacing(t)
               <==> e.history.floor + t.Lifetime() < e.history.lastBegin + Spacing(t))
  {
    RunsAreSafe(t, s, steps);
  }
}
