/** The in-memory session store: its operations, each at a moment when no other
  * runs. A session is reached through a handle, which callers may keep while the
  * store's map changes. Times are milliseconds on a clock that never goes back.
  */
module SessionStore {

  const TOUCH_GRANULARITY := 5_000

  datatype Session = Session(lastAccessed: int)

  /** `sessions` maps an id to the handle stored under it; `heap` holds every session ever handed out. */
  datatype Store = Store(sessions: map<string, nat>, heap: map<nat, Session>, created: nat, deleted: nat, expired: nat)

  const EmptyStore := Store(map[], map[], 0, 0, 0)

  predicate IsExpired(session: Session, now: int, timeout: nat) {
    now - session.lastAccessed > timeout
  }

  predicate IsStale(session: Session, now: int) {
    now < session.lastAccessed || now - session.lastAccessed >= TOUCH_GRANULARITY
  }

  function Saved(s: Store, id: string, h: nat, now: int): Store {
    s.(sessions := s.sessions[id := h], heap := s.heap[h := Session(now)],
       created := s.created + if id in s.sessions then 0 else 1)
  }

  function Touched(s: Store, h: nat, now: int): Store {
    if h in s.heap && IsStale(s.heap[h], now) then s.(heap := s.heap[h := Session(now)]) else s
  }

  function Removed(s: Store, id: string): Store {
    if id in s.sessions then s.(sessions := s.sessions - {id}, deleted := s.deleted + 1) else s
  }

  /** Every stored id leads to a session. */
  ghost predicate ValidStore(s: Store) {
    forall id :: id in s.sessions ==> s.sessions[id] in s.heap
  }

  // ---------------------------------------------------------------- the sweep's two passes

  /** What the first pass collects: the stored sessions expired at `now`. */
  function Candidates(s: Store, now: int, timeout: nat): map<string, nat>
    requires ValidStore(s)
  {
    map id | id in s.sessions && IsExpired(s.heap[s.sessions[id]], now, timeout) :: s.sessions[id]
  }

  /** The stored sessions not expired at `now`. */
  function Unexpired(s: Store, now: int, timeout: nat): map<string, nat>
    requires ValidStore(s)
  {
    map id | id in s.sessions && !IsExpired(s.heap[s.sessions[id]], now, timeout) :: s.sessions[id]
  }

  /** The ids the second pass removes: still stored, and their candidate still expired. */
  function Doomed(s: Store, candidates: map<string, nat>, now: int, timeout: nat): set<string>
    requires forall id :: id in candidates ==> candidates[id] in s.heap
  {
    set id | id in candidates && id in s.sessions && IsExpired(s.heap[candidates[id]], now, timeout)
  }

  /** The store behind its locks. */
  class InMemorySessionStore {
    var sessions: map<string, nat>
    var heap: map<nat, Session>
    var created: nat
    var deleted: nat
    var expired: nat
    const timeout: nat

    ghost function View(): Store
      reads this
    {
      Store(sessions, heap, created, deleted, expired)
    }

    constructor (timeout: nat)
      ensures this.timeout == timeout && View() == EmptyStore
    {
      this.timeout := timeout;
      sessions, heap, created, deleted, expired := map[], map[], 0, 0, 0;
    }

    method Save(id: string, h: nat, now: int)
      requires h !in heap
      modifies this
      ensures View() == Saved(old(View()), id, h, now)
    {
      var isNew := id !in sessions;
      sessions, heap := sessions[id := h], heap[h := Session(now)];
      if isNew {
        created := created + 1;
      }
    }

    method GetHandle(id: string, now: int) returns (found: bool, h: nat)
      requires ValidStore(View())
      modifies this`heap
      ensures found == (id in old(sessions))
      ensures found ==> h == old(sessions[id]) && View() == Touched(old(View()), h, now)
      ensures !found ==> View() == old(View())
      ensures found ==> heap.Keys == old(heap).Keys && forall k :: k in heap && k != h ==> heap[k] == old(heap)[k]
      ensures found ==>
                var last := old(heap)[h].lastAccessed;
                heap[h].lastAccessed == if last <= now < last + TOUCH_GRANULARITY then last else now
    {
      found, h := id in sessions, 0;
      if !found {
        return;
      }
      h := sessions[id];
      var last := heap[h].lastAccessed;
      var stale := if now >= last then now - last >= TOUCH_GRANULARITY else true;
      if stale {
        heap := heap[h := Session(now)];
      }
    }

    method Delete(id: string)
      modifies this`sessions, this`deleted
      ensures View() == Removed(old(View()), id)
    {
      if id in sessions {
        sessions, deleted := sessions - {id}, deleted + 1;
      }
    }

    method ScanExpiredCandidates(now: int) returns (candidates: map<string, nat>)
      requires ValidStore(View())
      ensures candidates == Candidates(View(), now, timeout)
      ensures forall id :: id in candidates <==>
                id in sessions && now - heap[sessions[id]].lastAccessed > timeout
      ensures forall id :: id in candidates ==> candidates[id] == sessions[id]
    {
      candidates := map[];
      var left := sessions.Keys;
      while left != {}
        invariant left <= sessions.Keys
        invariant candidates == map id | id in sessions && id !in left
                  && IsExpired(heap[sessions[id]], now, timeout) :: sessions[id]
      {
        var id :| id in left;
        left := left - {id};
        if IsExpired(heap[sessions[id]], now, timeout) {
          candidates := candidates[id := sessions[id]];
        }
      }
    }

    method RemoveStillExpired(candidates: map<string, nat>, now: int) returns (count: nat)
      requires forall id :: id in candidates ==> candidates[id] in heap
      modifies this`sessions
      ensures sessions == old(sessions) - Doomed(old(View()), candidates, now, timeout)
      ensures count == |Doomed(old(View()), candidates, now, timeout)|
      ensures forall id :: id in sessions <==>
                id in old(sessions) && !(id in candidates && now - heap[candidates[id]].lastAccessed > timeout)
      ensures forall id :: id in sessions ==> sessions[id] == old(sessions)[id]
      ensures count == |old(sessions)| - |sessions|
    {
      count := 0;
      var left := candidates.Keys;
      ghost var gone: set<string> := {};
      while left != {}
        invariant left <= candidates.Keys
        invariant gone == set id | id in candidates && id !in left && id in old(sessions)
                  && IsExpired(heap[candidates[id]], now, timeout)
        invariant sessions == old(sessions) - gone && count == |gone|
      {
        var id :| id in left;
        left := left - {id};
        if IsExpired(heap[candidates[id]], now, timeout) && id in sessions {
          sessions := sessions - {id};
          count := count + 1;
          gone := gone + {id};
        }
      }
      assert gone == Doomed(old(View()), candidates, now, timeout);
      RemovalSize(old(sessions), gone);
    }

    /** A whole sweep with nothing in between removes exactly the expired sessions. */
    method CleanupExpired(now: int) returns (count: nat)
      requires ValidStore(View())
      modifies this`sessions
      ensures sessions == Unexpired(old(View()), now, timeout)
      ensures forall id :: id in sessions <==>
                id in old(sessions) && now - old(heap)[old(sessions)[id]].lastAccessed <= timeout
      ensures count == |old(sessions)| - |sessions|
    {
      var candidates := ScanExpiredCandidates(now);
      count := RemoveStillExpired(candidates, now);
      UninterruptedSweep(old(View()), now, timeout);
      RemovalSize(old(sessions), Doomed(old(View()), candidates, now, timeout));
    }
  }

  lemma RemovalSize(m: map<string, nat>, gone: set<string>)
    requires gone <= m.Keys
    ensures |m - gone| == |m| - |gone|
  {
    assert (m - gone).Keys == m.Keys - gone;
    assert |m.Keys - gone| == |m.Keys| - |gone|;
    assert |(m - gone).Keys| == |m - gone| && |m.Keys| == |m|;
  }

  lemma DoomedAtOnce(s: Store, now: int, timeout: nat, id: string)
    requires ValidStore(s)
    ensures id in Doomed(s, Candidates(s, now, timeout), now, timeout)
            <==> id in s.sessions && IsExpired(s.heap[s.sessions[id]], now, timeout)
  {
  }

  lemma UninterruptedSweep(s: Store, now: int, timeout: nat)
    requires ValidStore(s)
    ensures s.sessions - Doomed(s, Candidates(s, now, timeout), now, timeout) == Unexpired(s, now, timeout)
    ensures Doomed(s, Candidates(s, now, timeout), now, timeout) <= s.sessions.Keys
  {
    var doomed := Doomed(s, Candidates(s, now, timeout), now, timeout);
    forall id ensures id in doomed <==> id in s.sessions && IsExpired(s.heap[s.sessions[id]], now, timeout) {
      DoomedAtOnce(s, now, timeout, id);
    }
    hide Doomed;
    hide Candidates;
    assert (s.sessions - doomed).Keys == Unexpired(s, now, timeout).Keys;
  }
}
