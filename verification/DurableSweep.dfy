/** The sweep as the cleanup task's code runs it, over the shared schedule and
  * the table: it performs exactly the protocol's sweep steps.
  */
module DurableSweep {
  import opened Lists
  import opened Numbers
  import opened Options
  import opened Scheduling
  import opened SweepProtocol

  /** The query at which the database fails, if at any. */
  datatype Failure = NoFailure | DeletionFails | LookFails

  class DurableTable {
    var rows: map<string, Row>
    const schedule: SweepSchedule

    constructor (schedule: SweepSchedule)
      ensures this.schedule == schedule && rows == map[]
    {
      this.schedule := schedule;
      rows := map[];
    }

    /** The table, the schedule and the stored wake-up are those of the protocol state. */
    ghost predicate Shows(s: State)
      reads this, schedule
    {
      rows == s.rows && schedule.View() == s.schedule && schedule.permit == s.permit
    }

    method DeleteExpiredRows(now: int, timeout: nat) returns (deleted: nat)
      modifies this
      ensures rows == Unexpired(old(rows), now, timeout)
      ensures forall id :: id in rows <==> id in old(rows) && now - old(rows)[id].lastAccessed <= timeout
      ensures forall id :: id in rows ==> rows[id] == old(rows)[id]
      ensures deleted == |old(rows)| - |rows|
    {
      var kept := Unexpired(rows, now, timeout);
      FewerOrSame(kept.Keys, rows.Keys);
      assert |kept.Keys| == |kept| && |rows.Keys| == |rows|;
      deleted := |rows| - |kept|;
      rows := kept;
    }

    method OldestRow() returns (oldest: Option<int>)
      ensures IsOldest(rows, oldest)
    {
      oldest := None;
      var ids := rows.Keys;
      while ids != {}
        invariant ids <= rows.Keys
        invariant IsOldestAmong(rows, rows.Keys - ids, oldest)
      {
        var id :| id in ids;
        ids := ids - {id};
        if oldest.None? || rows[id].lastAccessed < oldest.value {
          oldest := Some(rows[id].lastAccessed);
        }
      }
      assert rows.Keys - {} == rows.Keys;
      if oldest.None? {
        assert rows.Keys == {};
      }
    }

    /** Schedules the next sweep from the oldest row left and, after a write in the gap, a follow-up. */
    method Rearm(t: Timing, now: int, gap: bool, oldest: Option<int>, ghost s: State)
      requires s.task == Looked(gap, oldest) && s.clock == now && Shows(s)
      modifies schedule
      ensures Shows(AfterFollow(t, AfterArm(t, s)))
    {
      if oldest.Some? {
        var dueAt := oldest.value + t.timeout + t.grace;
        var wait := Max(dueAt - now, MIN_SWEEP_SPACING);
        schedule.LowerTo(now + wait);
      }
      assert Shows(AfterArm(t, s));
      if gap {
        schedule.LowerTo(now + t.timeout + t.grace);
      }
    }

    /** One sweep, with the database failing at some query or not, at a moment when nothing else runs. */
    method SweepOnce(t: Timing, now: int, failure: Failure, ghost s: State)
      requires s.task.TimedOut? && s.clock == now && Shows(s)
      modifies this, schedule
      ensures failure == NoFailure ==>
                exists oldest :: IsOldest(Unexpired(old(rows), now, t.timeout), oldest) && Shows(Swept(t, s, oldest))
      ensures failure == DeletionFails ==> Shows(AfterFail(AfterBegin(s)))
      ensures failure == LookFails ==> Shows(AfterFail(AfterDelete(t, AfterBegin(s))))
    {
      var writeInGap := schedule.BeginSweep();
      if failure == DeletionFails {
        schedule.LowerTo(now + SWEEP_RETRY_DELAY);
        return;
      }
      var _ := DeleteExpiredRows(now, t.timeout);
      if failure == LookFails {
        schedule.LowerTo(now + SWEEP_RETRY_DELAY);
        return;
      }
      var oldest := OldestRow();
      Rearm(t, now, writeInGap, oldest, UpToLook(t, s, oldest));
      assert Shows(Swept(t, s, oldest));
    }
  }

  function SweepSteps(oldest: Option<int>): seq<Step> { [Begin, DeleteExpired, Look(oldest), Arm, Follow] }

  /** The state after a sweep's look at the table. */
  function UpToLook(t: Timing, s: State, oldest: Option<int>): State {
    AfterLook(AfterDelete(t, AfterBegin(s)), oldest)
  }

  /** The state after a whole sweep. */
  function Swept(t: Timing, s: State, oldest: Option<int>): State {
    AfterFollow(t, AfterArm(t, UpToLook(t, s, oldest)))
  }

  ghost predicate IsOldestAmong(rows: map<string, Row>, ids: set<string>, oldest: Option<int>)
    requires ids <= rows.Keys
  {
    if oldest.None? then ids == {}
    else (exists id :: id in ids && rows[id].lastAccessed == oldest.value)
         && forall id :: id in ids ==> oldest.value <= rows[id].lastAccessed
  }

  lemma RunOfOne(t: Timing, s: State, step: Step)
    requires Enabled(t, s, step)
    ensures IsRun(t, s, [step]) && Final(t, s, [step]) == Apply(t, s, step)
  {
    hide Apply;
    assert [step][1..] == [];
  }

  lemma LookIsRun(t: Timing, s: State, oldest: Option<int>)
    requires s.task.TimedOut? && IsOldest(Unexpired(s.rows, s.clock, t.timeout), oldest)
    ensures IsRun(t, s, [Begin, DeleteExpired, Look(oldest)])
    ensures Final(t, s, [Begin, DeleteExpired, Look(oldest)]) == UpToLook(t, s, oldest)
  {
    hide IsRun;
    hide Final;
    RunOfOne(t, s, Begin);
    Extend(t, s, [Begin], DeleteExpired);
    assert [Begin] + [DeleteExpired] == [Begin, DeleteExpired];
    Extend(t, s, [Begin, DeleteExpired], Look(oldest));
    assert [Begin, DeleteExpired] + [Look(oldest)] == [Begin, DeleteExpired, Look(oldest)];
  }

  /** The sweep's code runs the protocol's sweep steps, one after the other. */
  lemma SweepIsRun(t: Timing, s: State, oldest: Option<int>)
    requires s.task.TimedOut? && IsOldest(Unexpired(s.rows, s.clock, t.timeout), oldest)
    ensures IsRun(t, s, SweepSteps(oldest))
    ensures Final(t, s, SweepSteps(oldest)) == Swept(t, s, oldest)
  {
    hide IsRun;
    hide Final;
    LookIsRun(t, s, oldest);
    var steps := [Begin, DeleteExpired, Look(oldest)];
    Extend(t, s, steps, Arm);
    Extend(t, s, steps + [Arm], Follow);
    assert steps + [Arm] + [Follow] == SweepSteps(oldest);
  }

  /** A failed sweep runs the protocol's steps up to the query that failed, and then its failing. */
  lemma FailedSweepIsRun(t: Timing, s: State)
    requires s.task.TimedOut?
    ensures IsRun(t, s, [Begin, Fail]) && Final(t, s, [Begin, Fail]) == AfterFail(AfterBegin(s))
    ensures IsRun(t, s, [Begin, DeleteExpired, Fail])
    ensures Final(t, s, [Begin, DeleteExpired, Fail]) == AfterFail(AfterDelete(t, AfterBegin(s)))
  {
    hide IsRun;
    hide Final;
    RunOfOne(t, s, Begin);
    Extend(t, s, [Begin], Fail);
    Extend(t, s, [Begin], DeleteExpired);
    assert [Begin] + [Fail] == [Begin, Fail] && [Begin] + [DeleteExpired] == [Begin, DeleteExpired];
    Extend(t, s, [Begin, DeleteExpired], Fail);
    assert [Begin, DeleteExpired] + [Fail] == [Begin, DeleteExpired, Fail];
  }
}
