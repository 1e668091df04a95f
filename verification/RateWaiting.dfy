/** How long a caller of the limiter waits among others: longer than one window
  * exactly when the others took every slot of the window after its arrival.
  */
module RateWaiting {
  import opened Numbers
  import opened RateLimiting

  /** What the pass numbered `i` of a run was told. */
  function OutcomeAt(limit: nat, window: nat, times: seq<int>, i: nat): Outcome
    requires limit > 0 && i < |times|
  {
    Pass(limit, window, QueueAfter(limit, window, [], times[..i]), times[i]).1
  }

  /** `own` are the passes of one caller: refused and back after each told sleep, of at
    * least a millisecond, until the last pass is granted.
    */
  ghost predicate IsCaller(limit: nat, window: nat, times: seq<int>, own: seq<nat>)
    requires limit > 0
  {
    && own != [] && (forall j :: 0 <= j < |own| ==> own[j] < |times|)
    && (forall j :: 0 <= j < |own| - 1 ==> own[j] < own[j + 1] && ComesBack(limit, window, times, own[j], own[j + 1]))
    && OutcomeAt(limit, window, times, own[|own| - 1]).Granted?
  }

  ghost predicate ComesBack(limit: nat, window: nat, times: seq<int>, i: nat, next: nat)
    requires limit > 0 && i < |times| && next < |times|
  {
    var outcome := OutcomeAt(limit, window, times, i);
    outcome.Wait? && times[next] == times[i] + Max(outcome.duration, MILLISECOND)
  }

  /** A refused caller is told to come back more than a window after `a` exactly when
    * `limit` calls were granted since `a`, none of them a window old.
    */
  lemma {:induction false} ToldBeyondWindowIff(limit: nat, window: nat, times: seq<int>, now: int, a: int)
    requires limit > 0 && Ascending(times) && (times != [] ==> times[|times| - 1] <= now) && a <= now
    ensures var outcome := Pass(limit, window, QueueAfter(limit, window, [], times), now).1;
            outcome.Wait? ==> (now + outcome.duration > a + window <==>
                                 CountIn(Grants(limit, window, times), Max(a, now - window) + 1, now + 1) >= limit)
  {
    hide Grants; hide QueueAfter; hide Evicted; hide CountIn;
    var grants := Grants(limit, window, times);
    RunTracks(limit, window, times, now);
    var recent := Evicted(QueueAfter(limit, window, [], times), now, window);
    var n := |grants| - |recent|;
    var lo, hi := CountIsRange(grants, Max(a, now - window) + 1, now + 1);
    if |recent| >= limit {
      assert grants[n] == recent[0] && now - grants[n] < window && grants[|grants| - 1] <= now;
      assert grants[n] > a ==> lo <= n < hi && hi == |grants|;
      if lo < hi { assert grants[lo] > a; }
    }
  }

  // ---------------------------------------------------------------- grants of a run

  lemma {:induction false} GrantsGrow(limit: nat, window: nat, times: seq<int>, i: nat, k: nat)
    requires limit > 0 && i <= k <= |times|
    ensures Grants(limit, window, times[..i]) <= Grants(limit, window, times[..k])
    decreases k
  {
    if i < k {
      GrantsGrow(limit, window, times, i, k - 1);
      assert times[..k][..k - 1] == times[..k - 1];
    }
  }

  lemma {:induction false} CountGrows(grants: seq<int>, more: seq<int>, from: int, to: int, further: int)
    requires grants <= more && to <= further
    ensures CountIn(grants, from, to) <= CountIn(more, from, further)
    decreases |more|
  {
    if grants == more {
      if grants != [] {
        var n := |grants| - 1;
        CountGrows(grants[..n], more[..n], from, to, further);
      }
    } else {
      CountGrows(grants, more[..|more| - 1], from, to, further);
    }
  }

  lemma {:induction false} GrantsWithin(limit: nat, window: nat, times: seq<int>, bound: int, to: int)
    requires limit > 0 && forall i :: 0 <= i < |times| ==> times[i] <= bound
    ensures CountIn(Grants(limit, window, times), bound + 1, to) == 0
    decreases |times|
  {
    if times != [] {
      var n := |times| - 1;
      var before := Grants(limit, window, times[..n]);
      GrantsWithin(limit, window, times[..n], bound, to);
      assert (before + [times[n]])[..|before|] == before && before + [] == before;
    }
  }

  /** The last pass no later than `bound`. */
  lemma {:induction false} LastPassBy(times: seq<int>, own: seq<nat>, bound: int) returns (j: nat)
    requires own != [] && (forall j :: 0 <= j < |own| ==> own[j] < |times|)
    requires times[own[0]] <= bound < times[own[|own| - 1]]
    ensures j < |own| - 1 && times[own[j]] <= bound < times[own[j + 1]]
    decreases |own|
  {
    j := |own| - 2;
    if times[own[j]] > bound { j := LastPassBy(times, own[..j + 1], bound); }
  }

  // ---------------------------------------------------------------- the theorem

  /** The least sleep of a millisecond carried the caller past the end of its window. */
  ghost predicate RoundedPast(limit: nat, window: nat, times: seq<int>, own: seq<nat>, end: int)
    requires limit > 0 && forall j :: 0 <= j < |own| ==> own[j] < |times|
  {
    exists j :: 0 <= j < |own| - 1 && Rounded(limit, window, times, own[j], end)
  }

  ghost predicate Rounded(limit: nat, window: nat, times: seq<int>, i: nat, end: int)
    requires limit > 0 && i < |times|
  {
    var outcome := OutcomeAt(limit, window, times, i);
    outcome.Wait? && times[i] + outcome.duration <= end < times[i] + MILLISECOND
  }

  /** How many calls are granted before the caller's own, in the window after its arrival. */
  ghost function GrantedMeanwhile(limit: nat, window: nat, times: seq<int>, own: seq<nat>): nat
    requires limit > 0 && own != [] && forall j :: 0 <= j < |own| ==> own[j] < |times|
  {
    var a := times[own[0]];
    CountIn(Grants(limit, window, times[..own[|own| - 1]]), a + 1, a + window + 1)
  }

  /** A caller waits longer than one window if and only if `limit` other calls are granted
    * in the window after its arrival, or the least sleep of a millisecond ended past it.
    */
  lemma {:induction false} WaitExceedsWindowIff(limit: nat, window: nat, times: seq<int>, own: seq<nat>)
    requires limit > 0 && Ascending(times) && IsCaller(limit, window, times, own)
    ensures var arrival, granted := times[own[0]], times[own[|own| - 1]];
            granted > arrival + window <==>
            GrantedMeanwhile(limit, window, times, own) >= limit
                || RoundedPast(limit, window, times, own, arrival + window)
  {
    var end := times[own[0]] + window;
    if times[own[|own| - 1]] > end {
      LateMeansCrowded(limit, window, times, own);
    } else if GrantedMeanwhile(limit, window, times, own) >= limit {
      CrowdedMeansLate(limit, window, times, own);
    }
    if RoundedPast(limit, window, times, own, end) {
      hide OutcomeAt;
      var j :| 0 <= j < |own| - 1 && Rounded(limit, window, times, own[j], end);
      assert ComesBack(limit, window, times, own[j], own[j + 1]);
      Later(limit, window, times, own, j + 1);
    }
  }

  lemma {:induction false} Later(limit: nat, window: nat, times: seq<int>, own: seq<nat>, j: nat)
    requires limit > 0 && Ascending(times) && IsCaller(limit, window, times, own) && j < |own|
    ensures own[j] <= own[|own| - 1] && times[own[j]] <= times[own[|own| - 1]]
    decreases |own| - j
  {
    hide ComesBack; hide OutcomeAt;
    if j < |own| - 1 { Later(limit, window, times, own, j + 1); }
  }

  lemma {:induction false} LateMeansCrowded(limit: nat, window: nat, times: seq<int>, own: seq<nat>)
    requires limit > 0 && Ascending(times) && IsCaller(limit, window, times, own)
    requires times[own[|own| - 1]] > times[own[0]] + window
    ensures GrantedMeanwhile(limit, window, times, own) >= limit
            || RoundedPast(limit, window, times, own, times[own[0]] + window)
  {
    hide Pass; hide Grants; hide QueueAfter; hide CountIn;
    var a := times[own[0]];
    var j := LastPassBy(times, own, a + window);
    var i, last := own[j], own[|own| - 1];
    assert ComesBack(limit, window, times, i, own[j + 1]);
    Later(limit, window, times, own, j);
    FirstIsEarliest(limit, window, times, own, j);
    ToldBeyondWindowIff(limit, window, times[..i], times[i], a);
    hide IsCaller;
    if times[i] + OutcomeAt(limit, window, times, i).duration > a + window {
      GrantsGrow(limit, window, times, i, last);
      CountGrows(Grants(limit, window, times[..i]), Grants(limit, window, times[..last]), a + 1, times[i] + 1,
                 a + window + 1);
    } else {
      assert Rounded(limit, window, times, own[j], a + window);
    }
  }

  lemma {:induction false} FirstIsEarliest(limit: nat, window: nat, times: seq<int>, own: seq<nat>, j: nat)
    requires limit > 0 && Ascending(times) && IsCaller(limit, window, times, own) && j < |own|
    ensures times[own[0]] <= times[own[j]]
  {
    hide ComesBack; hide OutcomeAt;
    if j > 0 {
      FirstIsEarliest(limit, window, times, own, j - 1);
      assert own[j - 1] < own[j - 1 + 1];
    }
  }

  lemma {:induction false} CrowdedMeansLate(limit: nat, window: nat, times: seq<int>, own: seq<nat>)
    requires limit > 0 && Ascending(times) && IsCaller(limit, window, times, own)
    requires GrantedMeanwhile(limit, window, times, own) >= limit
    ensures times[own[|own| - 1]] > times[own[0]] + window
  {
    var a, last := times[own[0]], own[|own| - 1];
    var g, before := times[last], Grants(limit, window, times[..last]);
    FirstIsEarliest(limit, window, times, own, |own| - 1);
    assert times[..last + 1][..last] == times[..last];
    assert Grants(limit, window, times[..last + 1]) == before + [g];
    assert (before + [g])[..|before|] == before;
    WindowBound(limit, window, times[..last + 1], a + 1);
    if g == a { GrantsWithin(limit, window, times[..last], a, a + window + 1); }
  }

  // ---------------------------------------------------------------- a wait of two windows

  lemma {:induction false} QueueSnoc(limit: nat, window: nat, calls: seq<int>, times: seq<int>, now: int)
    requires limit > 0
    ensures QueueAfter(limit, window, calls, times + [now]) ==
            Pass(limit, window, QueueAfter(limit, window, calls, times), now).0
  {
    assert (times + [now])[..|times|] == times;
  }

  /** The queue after each pass of three callers at once on a limit of one, the last two of
    * whom come back after `step`, and the last again after another.
    */
  lemma {:induction false} QueuesOfThree(window: nat, step: int)
    requires 0 < window <= step
    ensures QueueAfter(1, window, [], [0, 0]) == [0]
    ensures QueueAfter(1, window, [], [0, 0, 0, step]) == [step]
    ensures QueueAfter(1, window, [], [0, 0, 0, step, step]) == [step]
  {
    var none: seq<int> := [];
    assert none + [0] == [0] && [0] + [0] == [0, 0] && [0, 0] + [0] == [0, 0, 0];
    assert [0, 0, 0] + [step] == [0, 0, 0, step] && [0, 0, 0, step] + [step] == [0, 0, 0, step, step];
    assert QueueAfter(1, window, none, none) == none;
    QueueSnoc(1, window, none, none, 0);
    QueueSnoc(1, window, none, [0], 0);
    QueueSnoc(1, window, none, [0, 0], 0);
    QueueSnoc(1, window, none, [0, 0, 0], step);
    QueueSnoc(1, window, none, [0, 0, 0, step], step);
    hide QueueAfter;
    assert Evicted(none, 0, window) == none && Evicted([0], 0, window) == [0];
    assert Evicted([0], step, window) == none && Evicted([step], step, window) == [step];
  }

  lemma {:induction false} OutcomesOfThree(window: nat, step: int)
    requires 0 < window <= step
    ensures var times := [0, 0, 0, step, step, step + step];
            && OutcomeAt(1, window, times, 2) == Wait(window) && OutcomeAt(1, window, times, 4) == Wait(window)
            && OutcomeAt(1, window, times, 5).Granted?
  {
    var times := [0, 0, 0, step, step, step + step];
    QueuesOfThree(window, step);
    hide QueueAfter;
    assert times[..2] == [0, 0] && times[..4] == [0, 0, 0, step] && times[..5] == [0, 0, 0, step, step];
    var none: seq<int> := [];
    assert Evicted([0], 0, window) == [0] && Evicted([step], step, window) == [step];
    assert Evicted([step], step + step, window) == none;
  }

  /** So a wait can exceed one window: of three callers at once on a limit of one, the last is
    * told to wait a window, is refused then for another, and is granted only after that.
    */
  lemma {:induction false} WaitsCanExceedAWindow(window: nat)
    requires window > 0
    ensures var step := Max(window, MILLISECOND);
            var times, own := [0, 0, 0, step, step, step + step], [2, 4, 5];
            && Ascending(times) && IsCaller(1, window, times, own)
            && OutcomeAt(1, window, times, 2) == Wait(window) && OutcomeAt(1, window, times, 4) == Wait(window)
            && times[5] > times[2] + window
  {
    hide OutcomeAt;
    OutcomesOfThree(window, Max(window, MILLISECOND));
  }
}
