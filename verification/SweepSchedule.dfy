/** When the expiry sweep of a session table next has anything to do: the
  * shared bookkeeping of deadline, gap flag and stored wake-up.
  */
module Scheduling {
  import opened Options

  /** `due`: when the next sweep should run. `writeInGap`: a write came after
    * `due` had passed and before the sweep began.
    */
  datatype Schedule = Schedule(due: Option<int>, writeInGap: bool)

  const Unscheduled := Schedule(None, false)

  /** A sweep is scheduled, at `at` or sooner. */
  predicate DueBy(s: Schedule, at: int) { s.due.Some? && s.due.value <= at }

  function Lowered(s: Schedule, at: int): Schedule {
    if DueBy(s, at) then s else s.(due := Some(at))
  }

  /** A write at `now` of a row that expires at `expires`. */
  function Noted(s: Schedule, now: int, expires: int): Schedule {
    if DueBy(s, now) then s.(writeInGap := true) else Lowered(s, expires)
  }

  /** Whether the write changed the deadline, so that the sweeper must be woken. */
  predicate NotedWakes(s: Schedule, now: int, expires: int) {
    !DueBy(s, now) && !DueBy(s, expires)
  }

  /** The schedule behind its lock, with the single wake-up its notifier can store. */
  class SweepSchedule {
    var due: Option<int>
    var writeInGap: bool
    var permit: bool

    ghost function View(): Schedule
      reads this
    {
      Schedule(due, writeInGap)
    }

    constructor ()
      ensures View() == Unscheduled && !permit
    {
      due, writeInGap, permit := None, false, false;
    }

    method NotifyOne()
      modifies this`permit
      ensures permit
    {
      permit := true;
    }

    method LowerTo(at: int)
      modifies this
      ensures View() == Lowered(old(View()), at)
      ensures permit == (old(permit) || !DueBy(old(View()), at))
      ensures due.Some? && due.value <= at && (old(due).Some? ==> due.value <= old(due).value)
      ensures due == Some(at) || due == old(due)
      ensures writeInGap == old(writeInGap) && permit == (old(permit) || due != old(due))
    {
      var changed := true;
      if due.Some? && due.value <= at {
        changed := false;
      } else {
        due := Some(at);
      }
      if changed {
        NotifyOne();
      }
    }

    method NoteWrite(now: int, expiresAt: int)
      modifies this
      ensures View() == Noted(old(View()), now, expiresAt)
      ensures permit == (old(permit) || NotedWakes(old(View()), now, expiresAt))
      ensures old(due).Some? && old(due).value <= now ==> due == old(due) && writeInGap
      ensures !(old(due).Some? && old(due).value <= now) ==>
                && due.Some? && due.value <= expiresAt && (old(due).Some? ==> due.value <= old(due).value)
                && (due == Some(expiresAt) || due == old(due)) && writeInGap == old(writeInGap)
      ensures permit == (old(permit) || due != old(due))
    {
      var schedule := false;
      if due.None? {
        due := Some(expiresAt);
        schedule := true;
      } else if due.value <= now {
        writeInGap := true;
      } else if expiresAt < due.value {
        due := Some(expiresAt);
        schedule := true;
      }
      if schedule {
        NotifyOne();
      }
    }

    method BeginSweep() returns (gap: bool)
      modifies this`due, this`writeInGap
      ensures View() == Unscheduled
      ensures gap == old(writeInGap)
    {
      due := None;
      gap := writeInGap;
      writeInGap := false;
    }
  }
}
