/** The sliding-window limiter. Every pass of a caller through the limiter's
  * lock happens at one instant, and the clock never goes back, so a run with
  * any number of callers is a sequence of passes at non-decreasing times.
  * Times are microseconds.
  */
module RateLimiting {
  import opened Numbers

  const MILLISECOND := 1_000

  datatype Outcome = Granted | Wait(duration: int)

  /** Drops calls from the front while they are a window old or older. */
  function Evicted(calls: seq<int>, now: int, window: nat): seq<int> {
    if calls != [] && now - calls[0] >= window then Evicted(calls[1..], now, window) else calls
  }

  /** The calls after one pass, and what the caller was told. */
  function Pass(limit: nat, window: nat, calls: seq<int>, now: int): (seq<int>, Outcome)
    requires limit > 0
  {
    var recent := Evicted(calls, now, window);
    if |recent| < limit then (recent + [now], Granted)
    else (recent, Wait(Max(recent[0] + window - now, 0)))
  }

  predicate Ascending(s: seq<int>) { forall i, j :: 0 <= i < j < |s| ==> s[i] <= s[j] }

  // ---------------------------------------------------------------- the limiter

  class RateLimiter {
    const limit: nat
    const window: nat
    var calls: seq<int>

    constructor (limit: nat, window: nat)
      ensures this.limit == limit && this.window == window && calls == []
    {
      this.limit, this.window, calls := limit, window, [];
    }

    /** One pass through the lock. */
    method TryAcquire(now: int) returns (outcome: Outcome)
      requires limit > 0
      modifies this
      ensures (calls, outcome) == Pass(limit, window, old(calls), now)
    {
      while calls != [] && now - calls[0] >= window
        invariant Evicted(calls, now, window) == Evicted(old(calls), now, window)
        decreases |calls|
      {
        calls := calls[1..];
      }
      if |calls| < limit {
        calls := calls + [now];
        return Granted;
      }
      var oldest := calls[0];
      outcome := Wait(Max(oldest + window - now, 0));
    }

    /** Acquiring with nobody else about: one pass, or a sleep and a second
      * pass; the sleep ends when the oldest call leaves the window.
      */
    method Acquire(now: int) returns (granted: int, sleeps: nat)
      requires limit > 0 && QueueOk(calls, limit, now)
      modifies this
      ensures granted == GrantTime(limit, window, old(calls), now)
      ensures sleeps <= 1 && (sleeps == 0 <==> |Evicted(old(calls), now, window)| < limit)
      ensures window >= MILLISECOND ==> granted - now <= window
      ensures calls == Evicted(old(calls), granted, window) + [granted] && QueueOk(calls, limit, granted)
    {
      FirstPass(limit, window, calls, now);
      hide Pass;
      hide Evicted;
      hide GrantTime;
      hide QueueOk;
      granted, sleeps := now, 0;
      while true
        invariant sleeps <= 1
        invariant sleeps == 0 ==> granted == now && calls == old(calls)
        invariant sleeps == 1 ==>
                  |Evicted(old(calls), now, window)| >= limit && granted == GrantTime(limit, window, old(calls), now)
                                  && calls == Pass(limit, window, old(calls), now).0
        decreases 1 - sleeps
      {
        var outcome := TryAcquire(granted);
        if outcome.Granted? {
          return;
        }
        granted := granted + Max(outcome.duration, MILLISECOND);
        sleeps := sleeps + 1;
      }
    }
  }

  /** The queue of a limiter at time `now`: sorted, in the past, and no longer than the limit. */
  predicate QueueOk(calls: seq<int>, limit: nat, now: int) {
    Ascending(calls) && (calls != [] ==> calls[|calls| - 1] <= now) && |calls| <= limit
  }

  lemma AppendQueue(calls: seq<int>, limit: nat, now: int)
    requires QueueOk(calls, limit, now)
    ensures |calls| < limit ==> QueueOk(calls + [now], limit, now)
  {
  }

  /** When a caller arriving at `now` with nobody else about is granted. */
  function GrantTime(limit: nat, window: nat, calls: seq<int>, now: int): int
    requires limit > 0
  {
    var recent := Evicted(calls, now, window);
    if |recent| < limit then now else now + Max(recent[0] + window - now, MILLISECOND)
  }

  /** A lone caller is granted on its first pass, or on a second one after the sleep it is told. */
  lemma FirstPass(limit: nat, window: nat, calls: seq<int>, now: int)
    requires limit > 0 && QueueOk(calls, limit, now)
    ensures var (after, outcome) := Pass(limit, window, calls, now);
            var g := GrantTime(limit, window, calls, now);
            if |Evicted(calls, now, window)| < limit
            then outcome.Granted? && g == now && after == Evicted(calls, g, window) + [g] && QueueOk(after, limit, g)
            else outcome.Wait? && g == now + Max(outcome.duration, MILLISECOND)
                 && Pass(limit, window, after, g) == (Evicted(calls, g, window) + [g], Granted)
                 && QueueOk(Evicted(calls, g, window) + [g], limit, g)
    ensures window >= MILLISECOND ==> GrantTime(limit, window, calls, now) - now <= window
  {
    hide Evicted;
    var recent := Evicted(calls, now, window);
    EvictedIsSuffix(calls, now, window);
    if |recent| < limit {
      AppendQueue(recent, limit, now);
    } else {
      var g := GrantTime(limit, window, calls, now);
      EvictedTwice(calls, now, g, window);
      EvictedIsSuffix(recent, g, window);
      AppendQueue(Evicted(recent, g, window), limit, g);
    }
  }

  // ---------------------------------------------------------------- eviction

  /** On a sorted queue, eviction keeps exactly the calls younger than a window. */
  lemma {:induction false} EvictedIsSuffix(calls: seq<int>, now: int, window: nat)
    requires Ascending(calls)
    ensures var recent := Evicted(calls, now, window); var n := |calls| - |recent|;
            && 0 <= n && recent == calls[n..] && Ascending(recent)
            && (forall i :: 0 <= i < n ==> now - calls[i] >= window)
            && (forall i :: n <= i < |calls| ==> now - calls[i] < window)
  {
    if calls != [] && now - calls[0] >= window {
      EvictedIsSuffix(calls[1..], now, window);
    }
  }

  lemma {:induction false} EvictedTwice(calls: seq<int>, now: int, later: int, window: nat)
    requires now <= later
    ensures Evicted(Evicted(calls, now, window), later, window) == Evicted(calls, later, window)
  {
    if calls != [] && now - calls[0] >= window {
      EvictedTwice(calls[1..], now, later, window);
    }
  }

  // ---------------------------------------------------------------- runs with any number of callers

  /** The queue after passes at the given times. */
  function QueueAfter(limit: nat, window: nat, calls: seq<int>, times: seq<int>): seq<int>
    requires limit > 0
  {
    if times == [] then calls
    else Pass(limit, window, QueueAfter(limit, window, calls, times[..|times| - 1]), times[|times| - 1]).0
  }

  /** The times at which calls were granted. */
  ghost function Grants(limit: nat, window: nat, times: seq<int>): seq<int>
    requires limit > 0
  {
    if times == [] then []
    else
      var before, now := times[..|times| - 1], times[|times| - 1];
      Grants(limit, window, before)
      + if Pass(limit, window, QueueAfter(limit, window, [], before), now).1.Granted? then [now] else []
  }

  /** The queue is a suffix of the grants, and what has left it is a window old. */
  ghost predicate Tracks(limit: nat, window: nat, queue: seq<int>, grants: seq<int>, now: int) {
    && |queue| <= limit && |queue| <= |grants| && queue == grants[|grants| - |queue|..]
    && Ascending(grants) && (forall i :: 0 <= i < |grants| ==> grants[i] <= now)
    && (forall i :: 0 <= i < |grants| - |queue| ==> now - grants[i] >= window)
  }

  /** The grants still in the queue are younger than a window. */
  ghost predicate StillYoung(window: nat, queue: seq<int>, grants: seq<int>, now: int) {
    forall i :: 0 <= i < |grants| && |grants| - |queue| <= i ==> now - grants[i] < window
  }

  /** Any `limit + 1` grants in a row span at least a window. */
  ghost predicate Spread(limit: nat, window: nat, grants: seq<int>) {
    forall i, j :: 0 <= i && j == i + limit && j < |grants| ==> grants[j] - grants[i] >= window
  }

  lemma TracksEvicted(limit: nat, window: nat, queue: seq<int>, grants: seq<int>, before: int, now: int)
    requires Tracks(limit, window, queue, grants, before) && before <= now
    ensures Tracks(limit, window, Evicted(queue, now, window), grants, now)
    ensures StillYoung(window, Evicted(queue, now, window), grants, now)
  {
    EvictedIsSuffix(queue, now, window);
    var recent := Evicted(queue, now, window);
    var n, m := |grants| - |queue|, |queue| - |recent|;
    assert grants[n..][m..] == grants[n + m..];
    forall i | 0 <= i < |grants| - |recent| ensures now - grants[i] >= window {
      if i >= n { assert grants[i] == queue[i - n]; }
    }
    forall i | |grants| - |recent| <= i < |grants| ensures now - grants[i] < window {
      assert grants[i] == queue[i - n];
    }
  }

  lemma TracksGranted(limit: nat, window: nat, queue: seq<int>, grants: seq<int>, now: int)
    requires Tracks(limit, window, queue, grants, now) && |queue| < limit && Spread(limit, window, grants)
    ensures Tracks(limit, window, queue + [now], grants + [now], now) && Spread(limit, window, grants + [now])
  {
    var more := grants + [now];
    assert queue + [now] == more[|more| - |queue| - 1..];
    forall i, j | 0 <= i && j == i + limit && j < |more| ensures more[j] - more[i] >= window {
      if j == |grants| {
        assert more[j] == now && more[i] == grants[i];
      }
    }
  }

  lemma {:induction false} RunTracks(limit: nat, window: nat, times: seq<int>, now: int)
    requires limit > 0 && Ascending(times) && (times != [] ==> times[|times| - 1] <= now)
    ensures Tracks(limit, window, Evicted(QueueAfter(limit, window, [], times), now, window),
                   Grants(limit, window, times), now)
    ensures Spread(limit, window, Grants(limit, window, times))
    ensures StillYoung(window, Evicted(QueueAfter(limit, window, [], times), now, window), Grants(limit, window, times),
                       now)
    decreases |times|
  {
    var queue, grants := QueueAfter(limit, window, [], times), Grants(limit, window, times);
    if times == [] {
      TracksEvicted(limit, window, queue, grants, now, now);
    } else {
      var before, at := times[..|times| - 1], times[|times| - 1];
      RunTracks(limit, window, before, at);
      var recent := Evicted(QueueAfter(limit, window, [], before), at, window);
      if |recent| < limit {
        TracksGranted(limit, window, recent, Grants(limit, window, before), at);
      }
      TracksEvicted(limit, window, queue, grants, at, now);
    }
  }

  /** How many grants fall in `[from, to)`. */
  function CountIn(grants: seq<int>, from: int, to: int): nat {
    if grants == [] then 0
    else CountIn(grants[..|grants| - 1], from, to) + if from <= grants[|grants| - 1] < to then 1 else 0
  }

  lemma NoGap(grants: seq<int>, n: nat, hi: nat)
    requires Ascending(grants) && 0 < hi <= n < |grants|
    ensures hi < n ==> grants[..n][hi - 1] <= grants[..n][hi] <= grants[n]
  {
  }

  /** In a sorted sequence the elements of an interval are consecutive. */
  lemma {:induction false} CountIsRange(grants: seq<int>, from: int, to: int) returns (lo: nat, hi: nat)
    requires Ascending(grants)
    ensures lo <= hi <= |grants| && CountIn(grants, from, to) == hi - lo
    ensures forall i :: 0 <= i < |grants| ==> (lo <= i < hi <==> from <= grants[i] < to)
  {
    if grants == [] {
      lo, hi := 0, 0;
    } else {
      var n := |grants| - 1;
      lo, hi := CountIsRange(grants[..n], from, to);
      if from <= grants[n] < to {
        if lo == hi {
          lo := n;
        } else {
          NoGap(grants, n, hi);
        }
        hi := n + 1;
      }
    }
  }

  lemma SpreadAt(limit: nat, window: nat, grants: seq<int>, i: nat)
    requires Spread(limit, window, grants)
    ensures i + limit < |grants| ==> grants[i + limit] - grants[i] >= window
  {
  }

  /** The promise of the limiter, for any number of callers: no interval of one
    * window's length, wherever it starts, holds more than `limit` grants.
    */
  lemma WindowBound(limit: nat, window: nat, times: seq<int>, from: int)
    requires limit > 0 && Ascending(times)
    ensures CountIn(Grants(limit, window, times), from, from + window) <= limit
  {
    hide Grants;
    hide QueueAfter;
    hide Evicted;
    hide CountIn;
    var grants := Grants(limit, window, times);
    RunTracks(limit, window, times, if times == [] then 0 else times[|times| - 1]);
    var lo, hi := CountIsRange(grants, from, from + window);
    SpreadAt(limit, window, grants, lo);
  }

  lemma RecentIsCount(limit: nat, window: nat, recent: seq<int>, grants: seq<int>, now: int)
    requires Tracks(limit, window, recent, grants, now)
    requires StillYoung(window, recent, grants, now)
    ensures CountIn(grants, now - window + 1, now + 1) == |recent|
  {
    var lo, hi := CountIsRange(grants, now - window + 1, now + 1);
    var n := |grants| - |recent|;
    if n < |grants| {
      assert grants[n] <= now && now - grants[n] < window;
      assert grants[|grants| - 1] <= now && now - grants[|grants| - 1] < window;
    }
    if lo < hi {
      assert now - window + 1 <= grants[lo];
    }
  }

  /** A pass is granted exactly when fewer than `limit` grants are younger than a
    * window; a refused caller is told to wait until the oldest of them leaves it.
    */
  lemma GrantedExactlyWhenRoom(limit: nat, window: nat, times: seq<int>, now: int)
    requires limit > 0 && Ascending(times) && (times != [] ==> times[|times| - 1] <= now)
    ensures var outcome := Pass(limit, window, QueueAfter(limit, window, [], times), now).1;
            var grants := Grants(limit, window, times);
            && (outcome.Granted? <==> CountIn(grants, now - window + 1, now + 1) < limit)
            && (outcome.Wait? ==> exists i :: 0 <= i < |grants| && now - window < grants[i]
                                    && outcome.duration == grants[i] + window - now
                                    && forall j :: 0 <= j < i ==> grants[j] <= now - window)
  {
    hide Grants;
    hide QueueAfter;
    hide Evicted;
    hide CountIn;
    var grants := Grants(limit, window, times);
    RunTracks(limit, window, times, now);
    var recent := Evicted(QueueAfter(limit, window, [], times), now, window);
    RecentIsCount(limit, window, recent, grants, now);
    var n := |grants| - |recent|;
    if |recent| >= limit {
      assert grants[n] == recent[0];
    }
  }

  // ---------------------------------------------------------------- a burst by one caller

  predicate AllAt(calls: seq<int>, t: int) { forall i :: 0 <= i < |calls| ==> calls[i] == t }

  lemma {:induction false} EvictAllAt(calls: seq<int>, t: int, now: int, window: nat)
    requires AllAt(calls, t)
    ensures Evicted(calls, now, window) == if now - t >= window then [] else calls
  {
    if calls != [] && now - t >= window {
      EvictAllAt(calls[1..], t, now, window);
    }
  }

  lemma SmallMultiple(k: int, d: int)
    requires -d < k * d < d
    ensures k == 0
  {
  }

  lemma Quotient(q: nat, r: nat, d: nat)
    requires r < d
    ensures (q * d + r) / d == q
  {
    var x := q * d + r;
    assert (x / d - q) * d == r - x % d;
    SmallMultiple(x / d - q, d);
  }

  /** When the call numbered `i` of a burst goes out. */
  function Slot(limit: nat, window: nat, start: int, i: nat): int
    requires limit > 0
  {
    start + (i / limit) * window
  }

  lemma SlotOf(limit: nat, window: nat, start: int, q: nat, r: nat)
    requires r < limit
    ensures Slot(limit, window, start, q * limit + r) == start + q * window
  {
    Quotient(q, r, limit);
  }

  /** One more call of a burst: `r` calls went out at `now`, none earlier is in the window. */
  lemma BurstStep(limit: nat, window: nat, calls: seq<int>, now: int)
    requires limit > 0 && window >= MILLISECOND && |calls| <= limit && AllAt(calls, now)
    ensures QueueOk(calls, limit, now)
    ensures if |calls| < limit then GrantTime(limit, window, calls, now) == now && Evicted(calls, now, window) == calls
            else GrantTime(limit, window, calls, now) == now + window && Evicted(calls, now + window, window) == []
  {
    EvictAllAt(calls, now, now, window);
    EvictAllAt(calls, now, now + window, window);
  }

  /** Back-to-back calls on a fresh limiter: the call numbered `i` from 0 goes
    * out exactly `i / limit` windows after the first.
    */
  method Burst(limit: nat, window: nat, n: nat, start: int) returns (granted: seq<int>)
    requires limit > 0 && window >= MILLISECOND
    ensures |granted| == n
    ensures forall i :: 0 <= i < n ==> granted[i] == Slot(limit, window, start, i)
  {
    hide Slot;
    hide Evicted;
    hide GrantTime;
    hide QueueOk;
    var limiter := new RateLimiter(limit, window);
    var now := start;
    granted := [];
    ghost var q: nat, r: nat := 0, 0;
    for i := 0 to n
      invariant fresh(limiter) && limiter.limit == limit && limiter.window == window
      invariant |granted| == i && i == q * limit + r && r <= limit
      invariant now == start + q * window
      invariant |limiter.calls| == r && AllAt(limiter.calls, now)
      invariant forall k :: 0 <= k < i ==> granted[k] == Slot(limit, window, start, k)
    {
      BurstStep(limit, window, limiter.calls, now);
      var at, sleeps := limiter.Acquire(now);
      now := at;
      granted := granted + [now];
      if r < limit {
        SlotOf(limit, window, start, q, r);
        r := r + 1;
      } else {
        SlotOf(limit, window, start, q + 1, 0);
        q, r := q + 1, 1;
      }
    }
  }

  // ---------------------------------------------------------------- waiting among others

  /** A full queue of calls all younger than a window of each other. */
  predicate IsFull(limit: nat, window: nat, calls: seq<int>) {
    Ascending(calls) && 0 < limit == |calls| && calls[|calls| - 1] - calls[0] < window
  }

  /** When the first of a full queue's slots comes back. */
  function WakeTime(window: nat, calls: seq<int>): int
    requires calls != []
  {
    calls[0] + window
  }

  /** How many slots come back at that moment. */
  function Freed(window: nat, calls: seq<int>): int
    requires calls != []
  {
    |calls| - |Evicted(calls, WakeTime(window, calls), window)|
  }

  /** Once the queue is full, nobody is granted, and nothing changes, before the wake time. */
  lemma {:induction false} NobodyServedBeforeWake(limit: nat, window: nat, calls: seq<int>, times: seq<int>, now: int)
    requires IsFull(limit, window, calls)
    requires forall i :: 0 <= i < |times| ==> times[i] < WakeTime(window, calls)
    requires now < WakeTime(window, calls)
    ensures QueueAfter(limit, window, calls, times) == calls
    ensures Pass(limit, window, calls, now) == (calls, Wait(WakeTime(window, calls) - now))
    decreases |times|
  {
    EvictedIsSuffix(calls, now, window);
    if times != [] {
      NobodyServedBeforeWake(limit, window, calls, times[..|times| - 1], times[|times| - 1]);
    }
  }

  function Repeat(t: int, k: nat): seq<int> { seq(k, _ => t) }

  /** The calls that outlive the wake time, and `j` more granted at it. */
  function Kept(calls: seq<int>, f: nat, t: int, j: nat): seq<int>
    requires f <= |calls|
  {
    calls[f..] + Repeat(t, j)
  }

  lemma KeptGrows(calls: seq<int>, f: nat, t: int, j: nat)
    requires f <= |calls|
    ensures Kept(calls, f, t, j) + [t] == Kept(calls, f, t, j + 1)
    ensures |Kept(calls, f, t, j)| == |calls| - f + j
  {
  }

  lemma KeptStays(window: nat, calls: seq<int>, f: nat, t: int, j: nat)
    requires f <= |calls| && window > 0 && forall i :: f <= i < |calls| ==> t - calls[i] < window
    ensures Evicted(Kept(calls, f, t, j), t, window) == Kept(calls, f, t, j)
  {
  }

  lemma FreedIs(limit: nat, window: nat, calls: seq<int>)
    requires IsFull(limit, window, calls)
    ensures var t, f := WakeTime(window, calls), Freed(window, calls);
            && 0 < f <= limit && Evicted(calls, t, window) == Kept(calls, f, t, 0)
            && forall i :: f <= i < |calls| ==> t - calls[i] < window
  {
    EvictedIsSuffix(calls, WakeTime(window, calls), window);
  }

  /** At the wake time the freed slots go to the first passes, one each. */
  lemma {:induction false} QueueAtWake(limit: nat, window: nat, calls: seq<int>, k: nat)
    requires IsFull(limit, window, calls)
    ensures var t, f := WakeTime(window, calls), Freed(window, calls);
            && 0 < f <= limit
            && Evicted(QueueAfter(limit, window, calls, Repeat(t, k)), t, window) == Kept(calls, f, t, Min(k, f))
  {
    hide Evicted;
    hide Kept;
    var t, f := WakeTime(window, calls), Freed(window, calls);
    FreedIs(limit, window, calls);
    if k > 0 {
      QueueAtWake(limit, window, calls, k - 1);
      assert Repeat(t, k)[..k - 1] == Repeat(t, k - 1);
      KeptGrows(calls, f, t, Min(k - 1, f));
      KeptStays(window, calls, f, t, Min(k, f));
    }
  }

  /** The exact fate of a waiter: refused while the queue was full and back at the
    * wake time it was told, it is served if and only if fewer callers than there
    * are freed slots passed at that moment before it.
    */
  lemma WaiterServedIff(limit: nat, window: nat, calls: seq<int>, ahead: nat)
    requires IsFull(limit, window, calls)
    ensures var t := WakeTime(window, calls);
            Pass(limit, window, QueueAfter(limit, window, calls, Repeat(t, ahead)), t).1.Granted?
            <==> ahead < Freed(window, calls)
  {
    QueueAtWake(limit, window, calls, ahead);
    KeptGrows(calls, Freed(window, calls), WakeTime(window, calls), Min(ahead, Freed(window, calls)));
  }
}
