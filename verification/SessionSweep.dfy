/** The two-pass sweep interleaved with every other use of the store. While a
  * pass holds the map's lock, saves and deletions wait; a lookup waits only for
  * the removing pass; touching a session needs neither.
  */
module SessionSweep {
  import opened SessionStore

  datatype Sweep =
    | Asleep
    | Clocked(now: int)                                                     // has read the clock, holds no lock yet
    | Scanning(now: int, candidates: map<string, nat>, left: set<string>)   // holds the map's read lock
    | Scanned(now: int, candidates: map<string, nat>)
    | Removing(now: int, candidates: map<string, nat>, count: nat)          // holds the map's write lock
    | Counting(count: nat)                                                  // has not yet added to the counter
  {
    /** Sessions removed from the map and not yet counted as expired. */
    function InFlight(): nat { if Removing? || Counting? then count else 0 }
    predicate HasCandidates() { Scanning? || Scanned? || Removing? }
    predicate HasRead() { Clocked? || HasCandidates() }
  }

  /** `lookups`: callers between finding a handle and touching its session.
    * `used`: the handles saved or touched since the sweep under way read its clock.
    */
  datatype State = State(clock: int, store: Store, lookups: map<nat, nat>, sweep: Sweep, used: set<nat>)

  datatype Step =
    | Tick(to: int)
    | Save(id: string, h: nat)
    | Lookup(caller: nat, id: string)
    | Touch(caller: nat)
    | Delete(id: string)
    | ReadClock
    | BeginScan
    | ScanOne(id: string)
    | EndScan
    | BeginRemove
    | RemoveOne(id: string)
    | EndRemove
    | Count

  ghost predicate Enabled(s: State, step: Step) {
    match step
    case Tick(to) => s.clock <= to
    case Save(id, h) => h !in s.store.heap && !s.sweep.Scanning? && !s.sweep.Removing?
    case Lookup(caller, id) => caller !in s.lookups && id in s.store.sessions && !s.sweep.Removing?
    case Touch(caller) => caller in s.lookups
    case Delete(id) => !s.sweep.Scanning? && !s.sweep.Removing?
    case ReadClock => s.sweep.Asleep?
    case BeginScan => s.sweep.Clocked?
    case ScanOne(id) =>
        s.sweep.Scanning? && id in s.sweep.left && id in s.store.sessions && s.store.sessions[id] in s.store.heap
    case EndScan => s.sweep.Scanning? && s.sweep.left == {}
    case BeginRemove => s.sweep.Scanned?
    case RemoveOne(id) => s.sweep.Removing? && id in s.sweep.candidates && s.sweep.candidates[id] in s.store.heap
    case EndRemove => s.sweep.Removing? && s.sweep.candidates == map[]
    case Count => s.sweep.Counting?
  }

  function AfterScanOne(s: State, id: string, timeout: nat): State
    requires s.sweep.Scanning? && id in s.store.sessions && s.store.sessions[id] in s.store.heap
  {
    var h := s.store.sessions[id];
    var found :=
        if IsExpired(s.store.heap[h], s.sweep.now, timeout) then s.sweep.candidates[id := h] else s.sweep.candidates;
    s.(sweep := Scanning(s.sweep.now, found, s.sweep.left - {id}))
  }

  /** The re-check looks at the candidate's own handle; the removal goes by id. */
  function AfterRemoveOne(s: State, id: string, timeout: nat): State
    requires s.sweep.Removing? && id in s.sweep.candidates && s.sweep.candidates[id] in s.store.heap
  {
    var rest := s.sweep.candidates - {id};
    if IsExpired(s.store.heap[s.sweep.candidates[id]], s.sweep.now, timeout) && id in s.store.sessions
    then s.(store := s.store.(sessions := s.store.sessions - {id}),
            sweep := Removing(s.sweep.now, rest, s.sweep.count + 1))
    else s.(sweep := Removing(s.sweep.now, rest, s.sweep.count))
  }

  function Apply(s: State, step: Step, timeout: nat): State
    requires Enabled(s, step)
  {
    match step
    case Tick(to) => s.(clock := to)
    case Save(id, h) => s.(store := Saved(s.store, id, h, s.clock), used := s.used + {h})
    case Lookup(caller, id) => s.(lookups := s.lookups[caller := s.store.sessions[id]])
    case Touch(caller) =>
      s.(store := Touched(s.store, s.lookups[caller], s.clock), lookups := s.lookups - {caller},
         used := s.used + {s.lookups[caller]})
    case Delete(id) => s.(store := Removed(s.store, id))
    case ReadClock => s.(sweep := Clocked(s.clock), used := {})
    case BeginScan => s.(sweep := Scanning(s.sweep.now, map[], s.store.sessions.Keys))
    case ScanOne(id) => AfterScanOne(s, id, timeout)
    case EndScan => s.(sweep := Scanned(s.sweep.now, s.sweep.candidates))
    case BeginRemove =>
      s.(sweep := if s.sweep.candidates == map[] then Counting(0) else Removing(s.sweep.now, s.sweep.candidates, 0))
    case RemoveOne(id) => AfterRemoveOne(s, id, timeout)
    case EndRemove => s.(sweep := Counting(s.sweep.count))
    case Count => s.(store := s.store.(expired := s.store.expired + s.sweep.count), sweep := Asleep)
  }

  ghost predicate IsRun(s: State, steps: seq<Step>, timeout: nat)
    decreases |steps|
  {
    steps == [] || (Enabled(s, steps[0]) && IsRun(Apply(s, steps[0], timeout), steps[1..], timeout))
  }

  ghost function Final(s: State, steps: seq<Step>, timeout: nat): State
    requires IsRun(s, steps, timeout)
    decreases |steps|
  {
    if steps == [] then s else Final(Apply(s, steps[0], timeout), steps[1..], timeout)
  }

  ghost predicate Init(s: State) {
    s.store == EmptyStore && s.lookups == map[] && s.sweep == Asleep && s.used == {}
  }

  // ---------------------------------------------------------------- what every run keeps

  /** Every session ever created is stored, was deleted, or has expired, counted or about to be. */
  ghost predicate Conserved(s: State) {
    s.store.created == |s.store.sessions| + s.store.deleted + s.store.expired + s.sweep.InFlight()
  }

  /** Handles in use lead to sessions, and no session was accessed in the future. */
  ghost predicate HandlesValid(s: State) {
    && ValidStore(s.store)
    && (forall c :: c in s.lookups ==> s.lookups[c] in s.store.heap)
    && (s.sweep.HasCandidates() ==> forall id :: id in s.sweep.candidates ==> s.sweep.candidates[id] in s.store.heap)
    && (s.sweep.Scanning? ==> s.sweep.left <= s.store.sessions.Keys)
    && (forall h :: h in s.store.heap ==> s.store.heap[h].lastAccessed <= s.clock)
  }

  /** A handle used since the sweep read its clock is nearly as fresh as that reading. */
  ghost predicate UsedIsFresh(s: State) {
    s.sweep.HasRead() ==>
      && s.sweep.now <= s.clock
      && forall h :: h in s.used ==> h in s.store.heap && s.store.heap[h].lastAccessed > s.sweep.now - TOUCH_GRANULARITY
  }

  lemma ConservedStep(s: State, step: Step, timeout: nat)
    requires Conserved(s) && Enabled(s, step)
    ensures Conserved(Apply(s, step, timeout))
  {
  }

  lemma HandlesValidStep(s: State, step: Step, timeout: nat)
    requires HandlesValid(s) && Enabled(s, step)
    ensures HandlesValid(Apply(s, step, timeout))
  {
  }

  lemma UsedIsFreshStep(s: State, step: Step, timeout: nat)
    requires HandlesValid(s) && UsedIsFresh(s) && Enabled(s, step)
    ensures UsedIsFresh(Apply(s, step, timeout))
  {
  }

  lemma {:induction false} RunsKeep(s: State, steps: seq<Step>, timeout: nat)
    requires Conserved(s) && HandlesValid(s) && UsedIsFresh(s) && IsRun(s, steps, timeout)
    ensures var e := Final(s, steps, timeout); Conserved(e) && HandlesValid(e) && UsedIsFresh(e)
    decreases |steps|
  {
    if steps != [] {
      ConservedStep(s, steps[0], timeout);
      HandlesValidStep(s, steps[0], timeout);
      UsedIsFreshStep(s, steps[0], timeout);
      hide Apply;
      hide Enabled;
      hide Conserved;
      hide HandlesValid;
      hide UsedIsFresh;
      RunsKeep(Apply(s, steps[0], timeout), steps[1..], timeout);
    }
  }

  /** In every interleaving the counters account for every session: created equals
    * stored, plus deleted, plus expired, plus removed by a sweep and not yet counted.
    */
  lemma CountersAddUp(s: State, steps: seq<Step>, timeout: nat)
    requires Init(s) && IsRun(s, steps, timeout)
    ensures Conserved(Final(s, steps, timeout))
  {
    RunsKeep(s, steps, timeout);
  }

  /** The sweep would remove what is stored under `id` now. */
  ghost predicate Removes(s: State, id: string, timeout: nat) {
    && Enabled(s, RemoveOne(id)) && id in s.store.sessions
    && id !in Apply(s, RemoveOne(id), timeout).store.sessions
  }

  /** The removal pass has reached `id`, under which a session used since the sweep read its clock is stored. */
  ghost predicate MeetsUsed(s: State, id: string) {
    s.sweep.Removing? && id in s.sweep.candidates && id in s.store.sessions && s.store.sessions[id] in s.used
  }

  /** The stored session is not the one the scan found, and that one is still expired. */
  ghost predicate WasReplaced(s: State, id: string, timeout: nat)
    requires MeetsUsed(s, id)
  {
    && s.store.sessions[id] != s.sweep.candidates[id]
    && s.sweep.candidates[id] in s.store.heap
    && IsExpired(s.store.heap[s.sweep.candidates[id]], s.sweep.now, timeout)
  }

  lemma UsedRemovedIff(s: State, timeout: nat, id: string)
    requires HandlesValid(s) && UsedIsFresh(s) && timeout + 1 >= TOUCH_GRANULARITY && MeetsUsed(s, id)
    ensures Removes(s, id, timeout) <==> WasReplaced(s, id, timeout)
  {
    var e := AfterRemoveOne(s, id, timeout);
    assert Enabled(s, RemoveOne(id)) && Apply(s, RemoveOne(id), timeout) == e;
  }

  /** In every interleaving, with a timeout of at least the touch granularity (in
    * whole milliseconds): a session saved or touched since the sweep read its
    * clock is removed by that sweep if and only if it is not the session the
    * scan found under its id, and that one has stayed expired.
    */
  lemma UsedSessionRemovedIff(s: State, steps: seq<Step>, timeout: nat, id: string)
    requires Init(s) && IsRun(s, steps, timeout) && timeout + 1 >= TOUCH_GRANULARITY
    requires MeetsUsed(Final(s, steps, timeout), id)
    ensures Removes(Final(s, steps, timeout), id, timeout) <==> WasReplaced(Final(s, steps, timeout), id, timeout)
  {
    RunsKeep(s, steps, timeout);
    hide IsRun;
    hide Final;
    UsedRemovedIff(Final(s, steps, timeout), timeout, id);
  }

  // ---------------------------------------------------------------- runs that need the conditions

  lemma {:induction false} Extend(s: State, steps: seq<Step>, timeout: nat, step: Step)
    requires IsRun(s, steps, timeout) && Enabled(Final(s, steps, timeout), step)
    ensures IsRun(s, steps + [step], timeout)
    ensures Final(s, steps + [step], timeout) == Apply(Final(s, steps, timeout), step, timeout)
    decreases |steps|
  {
    hide Apply;
    hide Enabled;
    if steps == [] {
      assert (steps + [step])[1..] == [];
    } else {
      assert (steps + [step])[1..] == steps[1..] + [step];
      Extend(Apply(s, steps[0], timeout), steps[1..], timeout, step);
    }
  }

  datatype Progress = Progress(steps: seq<Step>, end: State)

  const Fresh := State(0, EmptyStore, map[], Asleep, {})

  ghost predicate Reaches(p: Progress, timeout: nat) {
    IsRun(Fresh, p.steps, timeout) && Final(Fresh, p.steps, timeout) == p.end
  }

  lemma Then(p: Progress, timeout: nat, step: Step) returns (q: Progress)
    requires Reaches(p, timeout) && Enabled(p.end, step)
    ensures Reaches(q, timeout) && q.end == Apply(p.end, step, timeout)
  {
    Extend(Fresh, p.steps, timeout, step);
    q := Progress(p.steps + [step], Apply(p.end, step, timeout));
  }

  /** Session `a`, saved at time 0, is found expired by a scan just past its timeout. */
  lemma ScannedExpired(timeout: nat) returns (p: Progress)
    ensures Reaches(p, timeout)
    ensures p.end == State(timeout + 1, Store(map["a" := 0], map[0 := Session(0)], 1, 0, 0), map[],
                           Scanned(timeout + 1, map["a" := 0]), {})
  {
    p := Progress([], Fresh);
    assert Reaches(p, timeout);
    hide Reaches;
    p := Then(p, timeout, Save("a", 0));
    p := Then(p, timeout, Tick(timeout + 1));
    p := Then(p, timeout, ReadClock);
    p := Then(p, timeout, BeginScan);
    p := Then(p, timeout, ScanOne("a"));
    p := Then(p, timeout, EndScan);
  }

  /** A session saved under the same id between the passes is removed although it is new. */
  lemma ReplacementIsRemoved(timeout: nat) returns (p: Progress)
    ensures Reaches(p, timeout) && Removes(p.end, "a", timeout)
    ensures p.end.store.sessions["a"] in p.end.store.heap
    ensures p.end.store.heap[p.end.store.sessions["a"]].lastAccessed == p.end.clock
  {
    p := ScannedExpired(timeout);
    hide Reaches;
    p := Then(p, timeout, Save("a", 1));
    p := Then(p, timeout, BeginRemove);
  }

  /** With a timeout below the touch granularity a touch between the passes may
    * not count, and the touched session is removed.
    */
  lemma ShortTimeoutIgnoresTouch(timeout: nat) returns (p: Progress)
    requires timeout + 1 < TOUCH_GRANULARITY
    ensures Reaches(p, timeout) && Removes(p.end, "a", timeout)
    ensures p.end.store.sessions["a"] == p.end.sweep.candidates["a"] && p.end.store.sessions["a"] in p.end.used
  {
    p := ScannedExpired(timeout);
    hide Reaches;
    p := Then(p, timeout, Lookup(0, "a"));
    p := Then(p, timeout, Touch(0));
    p := Then(p, timeout, BeginRemove);
  }
}
