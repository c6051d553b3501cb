/** The in-memory session store (src/acp/session.ts): a bounded map in insertion
    order, idle reaping, eviction, and an index from run ids to sessions. */
module SessionStore {
  import opened Text

  type Controller = nat

  datatype Session = Session(id: string, key: string, cwd: string, createdAt: int, lastTouchedAt: int,
                             controller: Option<Controller>, activeRun: Option<string>)

  datatype Config = Config(maxSessions: nat, idleTtlMs: nat)

  /** `aborted` lists the controllers that were aborted, oldest first. */
  datatype State = State(sessions: seq<Session>, index: map<string, string>, aborted: seq<Controller>)

  const EMPTY := State([], map[], [])

  const DEFAULT_MAX_SESSIONS: int := 5000
  const DEFAULT_IDLE_TTL_MS: int := 24 * 60 * 60 * 1000

  function AtLeast(low: nat, n: int): nat { if n < low then low else n }

  function MakeConfig(maxSessions: Option<int>, idleTtlMs: Option<int>): Config {
    Config(AtLeast(1, if maxSessions.Some? then maxSessions.value else DEFAULT_MAX_SESSIONS),
           AtLeast(1000, if idleTtlMs.Some? then idleTtlMs.value else DEFAULT_IDLE_TTL_MS))
  }

  // ---- sessions in order ----

  function Find(ss: seq<Session>, id: string): (i: nat)
    ensures i <= |ss|
    ensures i < |ss| ==> ss[i].id == id
    ensures forall j | 0 <= j < i :: ss[j].id != id
  {
    if ss == [] || ss[0].id == id then 0 else 1 + Find(ss[1..], id)
  }

  predicate Has(ss: seq<Session>, id: string) { Find(ss, id) < |ss| }

  predicate DistinctIds(ss: seq<Session>) {
    forall i, j | 0 <= i < j < |ss| :: ss[i].id != ss[j].id
  }

  lemma FindAt(ss: seq<Session>, i: nat)
    requires DistinctIds(ss) && i < |ss|
    ensures Find(ss, ss[i].id) == i
  {
  }

  function Drop(ss: seq<Session>, i: nat): seq<Session>
    requires i < |ss|
  {
    ss[..i] + ss[i + 1..]
  }

  /** A run id counts when it is not the empty string. */
  predicate Running(s: Session) { s.activeRun.Some? && s.activeRun.value != "" }

  predicate Idle(s: Session) { !Running(s) && s.controller.None? }

  function Touched(ss: seq<Session>, id: string, now: int): seq<Session> {
    var i := Find(ss, id);
    if i == |ss| then ss else ss[i := ss[i].(lastTouchedAt := now)]
  }

  // ---- the operations on values ----

  function Unindexed(st: State, s: Session): map<string, string> {
    if Running(s) then st.index - {s.activeRun.value} else st.index
  }

  function Abort(st: State, s: Session): seq<Controller> {
    if s.controller.Some? then st.aborted + [s.controller.value] else st.aborted
  }

  function Removed(st: State, id: string): State {
    var i := Find(st.sessions, id);
    if i == |st.sessions| then st
    else State(Drop(st.sessions, i), Unindexed(st, st.sessions[i]), Abort(st, st.sessions[i]))
  }

  predicate Expired(s: Session, idleBefore: int) { Idle(s) && s.lastTouchedAt <= idleBefore }

  function Survivors(ss: seq<Session>, idleBefore: int): seq<Session> {
    if ss == [] then []
    else
      var rest := Survivors(ss[..|ss| - 1], idleBefore);
      if Expired(ss[|ss| - 1], idleBefore) then rest else rest + [ss[|ss| - 1]]
  }

  /** Idle, touched least recently, and the earliest among equals. */
  ghost predicate IsVictim(ss: seq<Session>, i: nat) {
    && i < |ss| && Idle(ss[i])
    && (forall j | 0 <= j < |ss| && Idle(ss[j]) :: ss[i].lastTouchedAt <= ss[j].lastTouchedAt)
    && (forall j | 0 <= j < i && Idle(ss[j]) :: ss[i].lastTouchedAt < ss[j].lastTouchedAt)
  }

  function Victim(ss: seq<Session>): (v: Option<nat>)
    ensures v.None? ==> forall i | 0 <= i < |ss| :: !Idle(ss[i])
    ensures v.Some? ==> IsVictim(ss, v.value)
  {
    if ss == [] then None
    else
      var n := |ss| - 1;
      var v := Victim(ss[..n]);
      if !Idle(ss[n]) || (v.Some? && ss[n].lastTouchedAt >= ss[v.value].lastTouchedAt) then v else Some(n)
  }

  lemma VictimUnique(ss: seq<Session>, i: nat, j: nat)
    requires IsVictim(ss, i) && IsVictim(ss, j)
    ensures i == j
  {
  }

  /** Evicting fails without an idle session, and on the empty session id. */
  predicate CanEvict(ss: seq<Session>) { Victim(ss).Some? && ss[Victim(ss).value].id != "" }

  function Evicted(ss: seq<Session>): seq<Session> {
    if CanEvict(ss) then Drop(ss, Victim(ss).value) else ss
  }

  function Reaped(c: Config, st: State, now: int): State { st.(sessions := Survivors(st.sessions, now - c.idleTtlMs)) }

  predicate Refused(c: Config, st: State, id: string, now: int) {
    var left := Reaped(c, st, now).sessions;
    !Has(st.sessions, id) && |left| >= c.maxSessions && !CanEvict(left)
  }

  function Fresh(id: string, key: string, cwd: string, now: int): Session {
    Session(id, key, cwd, now, now, None, None)
  }

  function Created(c: Config, st: State, id: string, key: string, cwd: string, now: int): State {
    var i := Find(st.sessions, id);
    if i < |st.sessions| then
      st.(sessions := st.sessions[i := st.sessions[i].(key := key, cwd := cwd, lastTouchedAt := now)])
    else
      var left := Reaped(c, st, now).sessions;
      if |left| < c.maxSessions then st.(sessions := left + [Fresh(id, key, cwd, now)])
      else if !CanEvict(left) then st.(sessions := left)
      else st.(sessions := Evicted(left) + [Fresh(id, key, cwd, now)])
  }

  function RunActivated(st: State, id: string, run: string, controller: Controller, now: int): State {
    var i := Find(st.sessions, id);
    if i == |st.sessions| then st
    else
      st.(sessions := st.sessions[i :=
          st.sessions[i].(activeRun := Some(run), controller := Some(controller), lastTouchedAt := now)],
          index := st.index[run := id])
  }

  function Ended(s: Session, now: int): Session { s.(activeRun := None, controller := None, lastTouchedAt := now) }

  function RunCleared(st: State, id: string, now: int): State {
    var i := Find(st.sessions, id);
    if i == |st.sessions| then st
    else st.(sessions := st.sessions[i := Ended(st.sessions[i], now)], index := Unindexed(st, st.sessions[i]))
  }

  predicate Cancellable(st: State, id: string) {
    Has(st.sessions, id) && st.sessions[Find(st.sessions, id)].controller.Some?
  }

  function RunCancelled(st: State, id: string, now: int): State {
    if !Cancellable(st, id) then st
    else RunCleared(st, id, now).(aborted := Abort(st, st.sessions[Find(st.sessions, id)]))
  }

  /** The session id getSessionByRunId finds. */
  function ByRun(st: State, run: string): Option<string> {
    if run in st.index && st.index[run] != "" && Has(st.sessions, st.index[run]) then Some(st.index[run]) else None
  }

  function Controllers(ss: seq<Session>): seq<Controller> {
    if ss == [] then []
    else Controllers(ss[..|ss| - 1]) + (if ss[|ss| - 1].controller.Some? then [ss[|ss| - 1].controller.value] else [])
  }

  // ---- the store ----

  class Store {
    const config: Config
    var sessions: seq<Session>
    var runIdToSessionId: map<string, string>
    /** The effect of abort() on the callers' controllers. */
    var aborted: seq<Controller>

    ghost function View(): State
      reads this
    {
      State(sessions, runIdToSessionId, aborted)
    }

    ghost predicate Valid()
      reads this
    {
      DistinctIds(sessions)
    }

    constructor (maxSessions: Option<int>, idleTtlMs: Option<int>)
      ensures Valid() && View() == EMPTY
      ensures config.maxSessions >= 1 && config.idleTtlMs >= 1000
      ensures config == MakeConfig(maxSessions, idleTtlMs)
    {
      config := MakeConfig(maxSessions, idleTtlMs);
      sessions, runIdToSessionId, aborted := [], map[], [];
    }

    method RemoveSession(id: string) returns (removed: bool)
      modifies this
      ensures View() == Removed(old(View()), id)
      ensures removed == Has(old(sessions), id)
    {
      var i := Find(sessions, id);
      if i == |sessions| {
        return false;
      }
      var session := sessions[i];
      if session.activeRun.Some? && session.activeRun.value != "" {
        runIdToSessionId := runIdToSessionId - {session.activeRun.value};
      }
      if session.controller.Some? {
        aborted := aborted + [session.controller.value];
      }
      sessions := Drop(sessions, i);
      return true;
    }

    method ReapIdleSessions(nowMs: int)
      requires Valid()
      modifies this
      ensures View() == Reaped(config, old(View()), nowMs) && Valid()
    {
      hide Survivors, Drop, DistinctIds, Removed, HalfReaped;
      var idleBefore := nowMs - config.idleTtlMs;
      var i := 0;
      ghost var before, seen: nat := sessions, 0;
      ReapEnds(before, idleBefore);
      while i < |sessions|
        invariant seen <= |before| && i == |Survivors(before[..seen], idleBefore)|
        invariant sessions == HalfReaped(before, seen, idleBefore)
        invariant runIdToSessionId == old(runIdToSessionId) && aborted == old(aborted)
        invariant DistinctIds(sessions)
        decreases |before| - seen
      {
        ReapStep(before, seen, idleBefore);
        var session := sessions[i];
        if (session.activeRun.Some? && session.activeRun.value != "") || session.controller.Some? {
          i := i + 1;
        } else if session.lastTouchedAt > idleBefore {
          i := i + 1;
        } else {
          RemovedIdle(View(), i);
          var _ := RemoveSession(session.id);
        }
        seen := seen + 1;
      }
      ReapStep(before, seen, idleBefore);
    }

    method EvictOldestIdleSession() returns (evicted: bool)
      requires Valid()
      modifies this
      ensures View() == old(View()).(sessions := Evicted(old(sessions))) && Valid()
      ensures evicted == CanEvict(old(sessions))
    {
      var oldest: Option<nat> := None;
      for i := 0 to |sessions|
        invariant oldest == Victim(sessions[..i])
      {
        assert sessions[..i + 1][..i] == sessions[..i];
        var session := sessions[i];
        if (session.activeRun.Some? && session.activeRun.value != "") || session.controller.Some? {
          continue;
        }
        if oldest.Some? && session.lastTouchedAt >= sessions[oldest.value].lastTouchedAt {
          continue;
        }
        oldest := Some(i);
      }
      assert sessions[..|sessions|] == sessions;
      if oldest.None? || sessions[oldest.value].id == "" {
        return false;
      }
      RemovedIdle(View(), oldest.value);
      evicted := RemoveSession(sessions[oldest.value].id);
    }

    /** The id of the session, or None for the thrown limit error. */
    method CreateSession(id: string, key: string, cwd: string, nowMs: int) returns (session: Option<Session>)
      requires Valid()
      modifies this
      ensures View() == Created(config, old(View()), id, key, cwd, nowMs) && Valid()
      ensures session.None? <==> old(Refused(config, View(), id, nowMs))
      ensures session.Some? ==> session.value in sessions && session.value.id == id
    {
      var i := Find(sessions, id);
      if i < |sessions| {
        sessions := sessions[i := sessions[i].(key := key, cwd := cwd, lastTouchedAt := nowMs)];
        return Some(sessions[i]);
      }
      hide Survivors, Evicted, CanEvict, DistinctIds;
      StaysDistinct(sessions, id, key, cwd, nowMs, nowMs - config.idleTtlMs);
      ReapIdleSessions(nowMs);
      if |sessions| >= config.maxSessions {
        var evicted := EvictOldestIdleSession();
        if !evicted {
          return None;
        }
      }
      sessions := sessions + [Fresh(id, key, cwd, nowMs)];
      return Some(sessions[|sessions| - 1]);
    }

    method GetSession(id: string, nowMs: int) returns (session: Option<Session>)
      requires Valid()
      modifies this`sessions
      ensures sessions == Touched(old(sessions), id, nowMs) && Valid()
      ensures session == if Has(old(sessions), id) then Some(sessions[Find(old(sessions), id)]) else None
    {
      var i := Find(sessions, id);
      if i == |sessions| {
        return None;
      }
      sessions := sessions[i := sessions[i].(lastTouchedAt := nowMs)];
      return Some(sessions[i]);
    }

    method GetSessionByRunId(run: string, nowMs: int) returns (session: Option<Session>)
      requires Valid()
      modifies this`sessions
      ensures session.Some? <==> old(ByRun(View(), run)).Some?
      ensures session.Some? ==> session.value in sessions && Some(session.value.id) == old(ByRun(View(), run))
      ensures sessions == if session.None? then old(sessions) else Touched(old(sessions), session.value.id, nowMs)
      ensures Valid()
    {
      if run !in runIdToSessionId || runIdToSessionId[run] == "" {
        return None;
      }
      session := GetSession(runIdToSessionId[run], nowMs);
    }

    method SetActiveRun(id: string, run: string, controller: Controller, nowMs: int)
      requires Valid()
      modifies this
      ensures View() == RunActivated(old(View()), id, run, controller, nowMs) && Valid()
    {
      var i := Find(sessions, id);
      if i == |sessions| {
        return;
      }
      sessions := sessions[i := sessions[i].(activeRun := Some(run))];
      sessions := sessions[i := sessions[i].(controller := Some(controller))];
      runIdToSessionId := runIdToSessionId[run := id];
      sessions := sessions[i := sessions[i].(lastTouchedAt := nowMs)];
    }

    method ClearActiveRun(id: string, nowMs: int)
      requires Valid()
      modifies this
      ensures View() == RunCleared(old(View()), id, nowMs) && Valid()
    {
      var i := Find(sessions, id);
      if i == |sessions| {
        return;
      }
      if sessions[i].activeRun.Some? && sessions[i].activeRun.value != "" {
        runIdToSessionId := runIdToSessionId - {sessions[i].activeRun.value};
      }
      sessions := sessions[i := sessions[i].(activeRun := None, controller := None)];
      sessions := sessions[i := sessions[i].(lastTouchedAt := nowMs)];
    }

    method CancelActiveRun(id: string, nowMs: int) returns (cancelled: bool)
      requires Valid()
      modifies this
      ensures View() == RunCancelled(old(View()), id, nowMs) && Valid()
      ensures cancelled <==> exists s :: s in old(sessions) && s.id == id && s.controller.Some?
      ensures forall s | s in old(sessions) && s.id == id && s.controller.Some? ::
                aborted == old(aborted) + [s.controller.value]
      ensures !cancelled ==> View() == old(View())
    {
      SameIdSame(sessions, id);
      var i := Find(sessions, id);
      if i == |sessions| || sessions[i].controller.None? {
        return false;
      }
      aborted := aborted + [sessions[i].controller.value];
      if sessions[i].activeRun.Some? && sessions[i].activeRun.value != "" {
        runIdToSessionId := runIdToSessionId - {sessions[i].activeRun.value};
      }
      sessions := sessions[i := sessions[i].(activeRun := None, controller := None)];
      sessions := sessions[i := sessions[i].(lastTouchedAt := nowMs)];
      return true;
    }

    method ClearAllSessionsForTest()
      modifies this
      ensures View() == State([], map[], old(aborted) + Controllers(old(sessions)))
    {
      for i := 0 to |sessions|
        invariant sessions == old(sessions)
        invariant aborted == old(aborted) + Controllers(sessions[..i])
      {
        assert sessions[..i + 1][..i] == sessions[..i];
        if sessions[i].controller.Some? {
          aborted := aborted + [sessions[i].controller.value];
        }
      }
      assert sessions[..|sessions|] == sessions;
      sessions := [];
      runIdToSessionId := map[];
    }
  }

  // ---- what reaping and evicting leave ----

  lemma HasIff(ss: seq<Session>, id: string)
    ensures Has(ss, id) <==> exists i :: 0 <= i < |ss| && ss[i].id == id
  {
  }

  lemma SameIdSame(ss: seq<Session>, id: string)
    requires DistinctIds(ss)
    ensures forall s | s in ss && s.id == id :: Find(ss, id) < |ss| && s == ss[Find(ss, id)]
  {
  }

  lemma EvictedLacks(ss: seq<Session>, id: string)
    requires !Has(ss, id)
    ensures !Has(Evicted(ss), id)
  {
    HasIff(ss, id);
    HasIff(Evicted(ss), id);
  }

  /** Removing an idle session touches neither the index nor a controller. */
  lemma RemovedIdle(st: State, i: nat)
    requires DistinctIds(st.sessions) && i < |st.sessions| && Idle(st.sessions[i])
    ensures Removed(st, st.sessions[i].id) == st.(sessions := Drop(st.sessions, i))
    ensures DistinctIds(Drop(st.sessions, i))
  {
    FindAt(st.sessions, i);
  }

  /** Half-way through reaping: the first `k` sessions have been looked at. */
  function HalfReaped(ss: seq<Session>, k: nat, idleBefore: int): seq<Session>
    requires k <= |ss|
  {
    Survivors(ss[..k], idleBefore) + ss[k..]
  }

  lemma ReapEnds(ss: seq<Session>, idleBefore: int)
    ensures Survivors(ss[..0], idleBefore) == [] && HalfReaped(ss, 0, idleBefore) == ss
    ensures HalfReaped(ss, |ss|, idleBefore) == Survivors(ss, idleBefore)
  {
    assert ss[..|ss|] == ss;
  }

  lemma ReapStep(ss: seq<Session>, k: nat, idleBefore: int)
    requires k <= |ss|
    ensures var i := |Survivors(ss[..k], idleBefore)|;
            && (k < |ss| <==> i < |HalfReaped(ss, k, idleBefore)|)
            && (k < |ss| ==>
                  && HalfReaped(ss, k, idleBefore)[i] == ss[k]
                  && HalfReaped(ss, k + 1, idleBefore)
                       == (if Expired(ss[k], idleBefore) then Drop(HalfReaped(ss, k, idleBefore), i)
                           else HalfReaped(ss, k, idleBefore))
                  && |Survivors(ss[..k + 1], idleBefore)| == if Expired(ss[k], idleBefore) then i else i + 1)
  {
    if k < |ss| {
      assert ss[..k + 1][..k] == ss[..k];
    }
  }

  /** Exactly the sessions that are not expired survive, in their order. */
  /** Neither a run nor a controller. */
  predicate Unused(s: Session) { s.controller.None? && (s.activeRun.None? || s.activeRun.value == "") }

  lemma {:induction false} SurvivorsAre(ss: seq<Session>, idleBefore: int)
    ensures forall s :: s in Survivors(ss, idleBefore) <==> s in ss && !Expired(s, idleBefore)
    ensures forall s :: Expired(s, idleBefore) <==> Unused(s) && s.lastTouchedAt <= idleBefore
    ensures |Survivors(ss, idleBefore)| <= |ss|
    ensures (forall s | s in ss :: !Expired(s, idleBefore)) ==> Survivors(ss, idleBefore) == ss
  {
    assert forall s :: Expired(s, idleBefore) <==> Unused(s) && s.lastTouchedAt <= idleBefore;
    hide Expired, Unused;
    if ss == [] {
    } else {
      var n := |ss| - 1;
      SurvivorsAre(ss[..n], idleBefore);
      assert ss == ss[..n] + [ss[n]];
    }
  }

  lemma {:induction false} SurvivorsDistinct(ss: seq<Session>, idleBefore: int)
    requires DistinctIds(ss)
    ensures DistinctIds(Survivors(ss, idleBefore))
  {
    assert forall s :: Expired(s, idleBefore) <==> Unused(s) && s.lastTouchedAt <= idleBefore;
    hide Expired, Unused;
    if ss == [] {
    } else {
      var n := |ss| - 1;
      SurvivorsDistinct(ss[..n], idleBefore);
      SurvivorsAre(ss[..n], idleBefore);
      forall s | s in Survivors(ss[..n], idleBefore) ensures s.id != ss[n].id {
        assert s in ss[..n];
      }
    }
  }

  lemma SurvivorsLack(ss: seq<Session>, id: string, idleBefore: int)
    requires !Has(ss, id)
    ensures !Has(Survivors(ss, idleBefore), id)
  {
    hide Has, Survivors, Expired;
    SurvivorsAre(ss, idleBefore);
    HasIff(ss, id);
    HasIff(Survivors(ss, idleBefore), id);
    var left := Survivors(ss, idleBefore);
    forall i | 0 <= i < |left| ensures left[i].id != id { assert left[i] in ss; }
  }

  lemma StaysDistinct(ss: seq<Session>, id: string, key: string, cwd: string, now: int, idleBefore: int)
    requires DistinctIds(ss) && !Has(ss, id)
    ensures var left, added := Survivors(ss, idleBefore), Fresh(id, key, cwd, now);
            && DistinctIds(left) && DistinctIds(Evicted(left))
            && DistinctIds(left + [added]) && DistinctIds(Evicted(left) + [added])
  {
    var left := Survivors(ss, idleBefore);
    SurvivorsDistinct(ss, idleBefore);
    SurvivorsLack(ss, id, idleBefore);
    EvictedLacks(left, id);
    HasIff(left, id);
    HasIff(Evicted(left), id);
    hide Survivors, Victim, Has;
  }
}
