/** What the session store keeps, over every run of its operations
    (src/acp/session.ts). */
module SessionRuns {
  import opened Text
  import opened SessionStore

  datatype Op =
    | Create(id: string, key: string, cwd: string, now: int)
    | Get(id: string, now: int)
    | GetByRun(run: string, now: int)
    | SetRun(id: string, run: string, controller: Controller, now: int)
    | ClearRun(id: string, now: int)
    | CancelRun(id: string, now: int)
    | ClearAll

  function Apply(c: Config, st: State, op: Op): State {
    match op
    case Create(id, key, cwd, now) => Created(c, st, id, key, cwd, now)
    case Get(id, now) => st.(sessions := Touched(st.sessions, id, now))
    case GetByRun(run, now) =>
      var found := ByRun(st, run);
      if found.None? then st else st.(sessions := Touched(st.sessions, found.value, now))
    case SetRun(id, run, controller, now) => RunActivated(st, id, run, controller, now)
    case ClearRun(id, now) => RunCleared(st, id, now)
    case CancelRun(id, now) => RunCancelled(st, id, now)
    case ClearAll => State([], map[], st.aborted + Controllers(st.sessions))
  }

  function Run(c: Config, st: State, ops: seq<Op>): State
    decreases |ops|
  {
    if ops == [] then st else Run(c, Apply(c, st, ops[0]), ops[1..])
  }

  // ---- capacity ----

  predicate Bounded(c: Config, st: State) { DistinctIds(st.sessions) && |st.sessions| <= c.maxSessions }

  lemma EvictedSize(ss: seq<Session>)
    ensures |Evicted(ss)| == if CanEvict(ss) then |ss| - 1 else |ss|
  {
  }

  lemma CreateBounded(c: Config, st: State, id: string, key: string, cwd: string, now: int)
    requires Bounded(c, st) && c.maxSessions >= 1
    ensures Bounded(c, Created(c, st, id, key, cwd, now))
  {
    SurvivorsAre(st.sessions, now - c.idleTtlMs);
    EvictedSize(Reaped(c, st, now).sessions);
    hide Survivors, Victim, Evicted, CanEvict;
    if Has(st.sessions, id) {
      hide Find;
    } else {
      StaysDistinct(st.sessions, id, key, cwd, now, now - c.idleTtlMs);
      hide DistinctIds;
    }
  }

  lemma StepBounded(c: Config, st: State, op: Op)
    requires Bounded(c, st) && c.maxSessions >= 1
    ensures Bounded(c, Apply(c, st, op))
  {
    hide Created, Survivors, Find, Controllers, Unindexed, Abort;
    match op
    case Create(id, key, cwd, now) => CreateBounded(c, st, id, key, cwd, now);
    case _ =>
  }

  /** The store never holds more than its limit, nor an id twice. */
  lemma {:induction false} NeverOverfull(c: Config, st: State, ops: seq<Op>)
    requires Bounded(c, st) && c.maxSessions >= 1
    ensures Bounded(c, Run(c, st, ops))
    decreases |ops|
  {
    hide Bounded, Apply;
    if ops == [] {
    } else {
      StepBounded(c, st, ops[0]);
      NeverOverfull(c, Apply(c, st, ops[0]), ops[1..]);
    }
  }

  // ---- creating ----

  /** Among the sessions left by reaping, none idle was touched earlier, and
      none before it as early. */
  ghost predicate IsLeastRecent(c: Config, st: State, s: Session, now: int) {
    var left := Reaped(c, st, now).sessions;
    |left| >= c.maxSessions && exists v: nat :: IsVictim(left, v) && left[v] == s
  }

  lemma EvictedKeeps(ss: seq<Session>, s: Session)
    requires s in ss
    ensures s in Evicted(ss) || exists v: nat :: IsVictim(ss, v) && ss[v] == s
  {
    var j: nat :| j < |ss| && ss[j] == s;
    if CanEvict(ss) {
      var v := Victim(ss).value;
      if j < v {
        assert Evicted(ss)[j] == s;
      } else if j > v {
        assert Evicted(ss)[j - 1] == s;
      } else {
        assert IsVictim(ss, j);
      }
    }
  }

  /** Creating removes only idle sessions: those past the idle time, and at
      most one more, touched least recently, when the store is still full. The
      others stay as they are, no controller is aborted and the index stays. */
  lemma CreateRemovesIdle(c: Config, st: State, id: string, key: string, cwd: string, now: int, s: Session)
    requires Bounded(c, st) && s in st.sessions && s.id != id
    ensures var after := Created(c, st, id, key, cwd, now);
            && after.aborted == st.aborted && after.index == st.index
            && (s !in after.sessions ==>
                  Idle(s) && !Has(st.sessions, id) && (Expired(s, now - c.idleTtlMs) || IsLeastRecent(c, st, s, now)))
  {
    var left, after := Reaped(c, st, now).sessions, Created(c, st, id, key, cwd, now);
    SurvivorsAre(st.sessions, now - c.idleTtlMs);
    hide Survivors, Victim, Evicted, CanEvict, DistinctIds;
    if Has(st.sessions, id) {
      var i :| 0 <= i < |st.sessions| && st.sessions[i] == s;
      assert after.sessions[i] == s;
    } else if s in left && s !in after.sessions {
      EvictedKeeps(left, s);
    }
  }

  /** Sessions that survive, and whose number does not shrink, are all there is. */
  lemma {:induction false} NoneExpired(ss: seq<Session>, idleBefore: int)
    requires |Survivors(ss, idleBefore)| >= |ss|
    ensures forall s | s in ss :: !Expired(s, idleBefore)
  {
    if ss == [] {
    } else {
      var n := |ss| - 1;
      SurvivorsAre(ss[..n], idleBefore);
      NoneExpired(ss[..n], idleBefore);
      assert ss == ss[..n] + [ss[n]];
    }
  }

  predicate NothingExpired(ss: seq<Session>, idleBefore: int) { forall s | s in ss :: !Expired(s, idleBefore) }

  /** All are active, or the one to evict has the empty id. */
  ghost predicate NoneToEvict(ss: seq<Session>) {
    (forall s | s in ss :: !Idle(s)) || exists v: nat :: IsVictim(ss, v) && ss[v].id == ""
  }

  lemma FullIff(c: Config, ss: seq<Session>, idleBefore: int)
    requires |ss| <= c.maxSessions
    ensures |Survivors(ss, idleBefore)| >= c.maxSessions <==> |ss| == c.maxSessions && NothingExpired(ss, idleBefore)
    ensures |Survivors(ss, idleBefore)| >= c.maxSessions ==> Survivors(ss, idleBefore) == ss
  {
    SurvivorsAre(ss, idleBefore);
    if |Survivors(ss, idleBefore)| >= |ss| { NoneExpired(ss, idleBefore); }
    hide Survivors, Expired;
  }

  lemma CanEvictIff(ss: seq<Session>)
    ensures CanEvict(ss) <==> !NoneToEvict(ss)
  {
    var victim := Victim(ss);
    if victim.Some? {
      assert ss[victim.value] in ss;
      if v: nat :| IsVictim(ss, v) && ss[v].id == "" { VictimUnique(ss, v, victim.value); }
    }
  }

  /** Creating is refused exactly when the id is new, the store is full, and
      no session can make room: nothing is past the idle time, and either all
      are active or the one to evict has the empty id. */
  lemma RefusedIff(c: Config, st: State, id: string, now: int)
    requires Bounded(c, st)
    ensures Refused(c, st, id, now) <==>
            && !Has(st.sessions, id) && |st.sessions| == c.maxSessions
            && NothingExpired(st.sessions, now - c.idleTtlMs) && NoneToEvict(st.sessions)
  {
    hide Survivors, Has, DistinctIds, NothingExpired, NoneToEvict, CanEvict;
    FullIff(c, st.sessions, now - c.idleTtlMs);
    CanEvictIff(st.sessions);
  }

  /** Without an empty session id: refused exactly when all are active. */
  lemma RefusedWhenAllActive(c: Config, st: State, id: string, now: int)
    requires Bounded(c, st) && !Has(st.sessions, "")
    ensures Refused(c, st, id, now) <==>
            !Has(st.sessions, id) && |st.sessions| == c.maxSessions && forall s | s in st.sessions :: !Idle(s)
  {
    RefusedIff(c, st, id, now);
    HasIff(st.sessions, "");
    hide Refused, Has, DistinctIds;
  }

  lemma FirstCreated(c: Config, id: string, key: string, cwd: string, now: int)
    requires c.maxSessions >= 1
    ensures Created(c, EMPTY, id, key, cwd, now) == EMPTY.(sessions := [Fresh(id, key, cwd, now)])
  {
  }

  /** One idle session with the empty id fills a store until it expires. */
  lemma EmptyIdBlocks(c: Config, id: string, now: int)
    requires c.maxSessions == 1 && c.idleTtlMs > 0 && id != ""
    ensures var st := Created(c, EMPTY, "", "key", "cwd", now);
            && (forall s | s in st.sessions :: Idle(s))
            && Refused(c, st, id, now)
  {
    var st := Created(c, EMPTY, "", "key", "cwd", now);
    FirstCreated(c, "", "key", "cwd", now);
    hide Created, Refused, Has;
    RefusedIff(c, st, id, now);
    HasIff(st.sessions, id);
    assert IsVictim(st.sessions, 0);
  }

  // ---- the run index ----

  predicate RunsIn(st: State, s: Session, id: string, run: string) {
    s in st.sessions && s.id == id && s.activeRun == Some(run) && run != ""
  }

  /** A session with this id is running `run`. */
  ghost predicate RunsAs(st: State, id: string, run: string) { exists s :: RunsIn(st, s, id, run) }

  /** The index is the inverse of the sessions' active runs. */
  ghost predicate Exact(st: State) {
    forall id, run :: RunsAs(st, id, run) <==> run in st.index && st.index[run] == id
  }

  /** Looking a run up finds the session that is running it, and only that. */
  lemma ByRunIff(st: State, run: string, id: string)
    requires Exact(st)
    ensures ByRun(st, run) == Some(id) <==> id != "" && RunsAs(st, id, run)
  {
    HasIff(st.sessions, id);
    if RunsAs(st, id, run) {
      var s :| RunsIn(st, s, id, run);
      assert s in st.sessions;
    }
  }

  /** Between two states no session starts or stops a run. */
  ghost predicate SameRuns(a: State, b: State) {
    a.index == b.index && forall id, run :: RunsAs(a, id, run) <==> RunsAs(b, id, run)
  }

  lemma SameRunsExact(a: State, b: State)
    requires Exact(a) && SameRuns(a, b)
    ensures Exact(b)
  {
    hide RunsAs;
    forall id, run ensures RunsAs(b, id, run) <==> run in b.index && b.index[run] == id {
      assert RunsAs(a, id, run) <==> RunsAs(b, id, run);
    }
  }

  lemma RunsAt(st: State, i: nat, id: string, run: string)
    requires i < |st.sessions|
    ensures st.sessions[i].id == id && st.sessions[i].activeRun == Some(run) && run != "" ==> RunsAs(st, id, run)
  {
    if st.sessions[i].id == id && st.sessions[i].activeRun == Some(run) && run != "" {
      assert RunsIn(st, st.sessions[i], id, run);
    }
  }

  /** Which runs there are after one session is replaced by another with the
      same id. */
  lemma ReplacedRuns(st: State, i: nat, t: Session, id: string, run: string)
    requires DistinctIds(st.sessions) && i < |st.sessions| && t.id == st.sessions[i].id
    ensures RunsAs(st.(sessions := st.sessions[i := t]), id, run) <==>
            if id == t.id then t.activeRun == Some(run) && run != "" else RunsAs(st, id, run)
    ensures RunsAs(st, t.id, run) <==> st.sessions[i].activeRun == Some(run) && run != ""
  {
    var after := st.(sessions := st.sessions[i := t]);
    RunsAt(after, i, id, run);
    RunsAt(st, i, t.id, run);
    if RunsAs(after, id, run) {
      var s :| RunsIn(after, s, id, run);
      var j: nat :| j < |after.sessions| && after.sessions[j] == s;
      RunsAt(st, j, id, run);
    }
    if RunsAs(st, id, run) {
      var s :| RunsIn(st, s, id, run);
      var j: nat :| j < |st.sessions| && st.sessions[j] == s;
      RunsAt(after, j, id, run);
    }
  }

  lemma CreateKeepsRuns(c: Config, st: State, id: string, key: string, cwd: string, now: int)
    requires Bounded(c, st)
    ensures SameRuns(st, Created(c, st, id, key, cwd, now))
  {
    var after, i := Created(c, st, id, key, cwd, now), Find(st.sessions, id);
    if i < |st.sessions| {
      var t := st.sessions[i].(key := key, cwd := cwd, lastTouchedAt := now);
      forall d, run ensures RunsAs(st, d, run) <==> RunsAs(after, d, run) {
        ReplacedRuns(st, i, t, d, run);
      }
    } else {
      forall d, run ensures RunsAs(st, d, run) <==> RunsAs(after, d, run) {
        CreateKeepsRun(c, st, id, key, cwd, now, d, run);
      }
      CreateAddsOne(c, st, id, key, cwd, now);
    }
  }

  lemma CreateKeepsRun(c: Config, st: State, id: string, key: string, cwd: string, now: int, d: string, run: string)
    requires Bounded(c, st) && !Has(st.sessions, id)
    ensures RunsAs(st, d, run) <==> RunsAs(Created(c, st, id, key, cwd, now), d, run)
  {
    var after := Created(c, st, id, key, cwd, now);
    HasIff(st.sessions, id);
    CreateAddsOne(c, st, id, key, cwd, now);
    hide Has, Find, Bounded;
    if RunsAs(st, d, run) {
      var s :| RunsIn(st, s, d, run);
      CreateRemovesIdle(c, st, id, key, cwd, now, s);
      hide Created;
      assert RunsIn(after, s, d, run);
    }
    if RunsAs(after, d, run) {
      hide Created;
      var s :| RunsIn(after, s, d, run);
      assert RunsIn(st, s, d, run);
    }
  }

  lemma CreateAddsOne(c: Config, st: State, id: string, key: string, cwd: string, now: int)
    requires !Has(st.sessions, id)
    ensures forall s | s in Created(c, st, id, key, cwd, now).sessions ::
            s in st.sessions || s == Fresh(id, key, cwd, now)
    ensures Created(c, st, id, key, cwd, now).index == st.index
  {
    SurvivorsAre(st.sessions, now - c.idleTtlMs);
    hide Survivors, Victim;
  }

  /** The discipline under which the index stays exact. */
  predicate FreshRun(st: State, op: Op) {
    op.SetRun? && Has(st.sessions, op.id) ==>
      && op.run != ""
      && (Running(st.sessions[Find(st.sessions, op.id)]) ==>
            st.sessions[Find(st.sessions, op.id)].activeRun == Some(op.run))
      && (op.run in st.index ==> st.index[op.run] == op.id)
  }

  /** Setting a run keeps the index exact if and only if the run id is not
      empty, the session is running nothing else, and no other session is
      running it. */
  lemma SetRunKeepsIff(st: State, id: string, run: string, controller: Controller, now: int)
    requires DistinctIds(st.sessions) && Exact(st)
    ensures Exact(RunActivated(st, id, run, controller, now)) <==> FreshRun(st, SetRun(id, run, controller, now))
  {
    var i, after := Find(st.sessions, id), RunActivated(st, id, run, controller, now);
    if i < |st.sessions| {
      var was := st.sessions[i];
      var t := was.(activeRun := Some(run), controller := Some(controller), lastTouchedAt := now);
      forall d, r
        ensures RunsAs(after, d, r) <==> if d == id then r == run && run != "" else RunsAs(st, d, r)
        ensures RunsAs(st, id, r) <==> was.activeRun == Some(r) && r != ""
      {
        ReplacedRuns(st, i, t, d, r);
        SameSessions(after, st.(sessions := st.sessions[i := t]), d, r);
      }
      hide RunsAs, Find;
      if Running(was) { assert RunsAs(st, id, was.activeRun.value); }
      if run in st.index { assert RunsAs(st, st.index[run], run); }
      if Exact(after) {
        assert RunsAs(after, id, run);
        if Running(was) { assert !RunsAs(after, id, was.activeRun.value) || was.activeRun == Some(run); }
        if run in st.index {
          var other := st.index[run];
          assert RunsAs(after, other, run) <==> after.index[run] == other;
        }
      }
    }
  }

  lemma SameSessions(a: State, b: State, id: string, run: string)
    requires a.sessions == b.sessions
    ensures RunsAs(a, id, run) <==> RunsAs(b, id, run)
  {
    if s :| RunsIn(a, s, id, run) { assert RunsIn(b, s, id, run); }
    if s :| RunsIn(b, s, id, run) { assert RunsIn(a, s, id, run); }
  }

  lemma ClearedRuns(st: State, id: string, now: int)
    requires DistinctIds(st.sessions) && Exact(st)
    ensures Exact(RunCleared(st, id, now))
  {
    var i, after := Find(st.sessions, id), RunCleared(st, id, now);
    if i < |st.sessions| {
      var was, t := st.sessions[i], Ended(st.sessions[i], now);
      forall d, r
        ensures RunsAs(after, d, r) <==> d != id && RunsAs(st, d, r)
        ensures RunsAs(st, id, r) <==> was.activeRun == Some(r) && r != ""
      {
        ReplacedRuns(st, i, t, d, r);
        SameSessions(after, st.(sessions := st.sessions[i := t]), d, r);
      }
      hide RunsAs, Find;
      forall d, r ensures RunsAs(after, d, r) <==> r in after.index && after.index[r] == d {
        assert RunsAs(st, id, r) <==> r in st.index && st.index[r] == id;
      }
    }
  }

  lemma TouchedRuns(st: State, id: string, now: int)
    requires DistinctIds(st.sessions)
    ensures SameRuns(st, st.(sessions := Touched(st.sessions, id, now)))
  {
    var i := Find(st.sessions, id);
    if i < |st.sessions| {
      forall d, r ensures RunsAs(st, d, r) <==> RunsAs(st.(sessions := Touched(st.sessions, id, now)), d, r) {
        ReplacedRuns(st, i, st.sessions[i].(lastTouchedAt := now), d, r);
      }
    } else {
      assert st.(sessions := st.sessions) == st;
    }
  }

  lemma StepExact(c: Config, st: State, op: Op)
    requires Bounded(c, st) && Exact(st) && FreshRun(st, op)
    ensures Exact(Apply(c, st, op))
  {
    hide Created, RunCleared, RunActivated, Exact, SameRuns, Has, Find, FreshRun;
    var after := Apply(c, st, op);
    match op
    case Create(id, key, cwd, now) =>
      CreateKeepsRuns(c, st, id, key, cwd, now);
      SameRunsExact(st, after);
    case Get(id, now) =>
      TouchedRuns(st, id, now);
      SameRunsExact(st, after);
    case GetByRun(run, now) =>
      var found := ByRun(st, run);
      if found.Some? {
        TouchedRuns(st, found.value, now);
        SameRunsExact(st, after);
      }
    case SetRun(id, run, controller, now) => SetRunKeepsIff(st, id, run, controller, now);
    case ClearRun(id, now) => ClearedRuns(st, id, now);
    case CancelRun(id, now) =>
      ClearedRuns(st, id, now);
      if Cancellable(st, id) { SameIndexExact(RunCleared(st, id, now), after); }
    case ClearAll => NothingRuns(after);
  }

  lemma SameIndexExact(a: State, b: State)
    requires Exact(a) && a.sessions == b.sessions && a.index == b.index
    ensures Exact(b)
  {
    forall id, run ensures RunsAs(a, id, run) <==> RunsAs(b, id, run) {
      SameSessions(a, b, id, run);
    }
    SameRunsExact(a, b);
  }

  lemma NothingRuns(st: State)
    requires st.sessions == [] && st.index == map[]
    ensures Exact(st)
  {
  }

  predicate AllFresh(c: Config, st: State, ops: seq<Op>)
    decreases |ops|
  {
    ops == [] || (FreshRun(st, ops[0]) && AllFresh(c, Apply(c, st, ops[0]), ops[1..]))
  }

  lemma {:induction false} RunExact(c: Config, st: State, ops: seq<Op>)
    requires Bounded(c, st) && Exact(st) && c.maxSessions >= 1 && AllFresh(c, st, ops)
    ensures Exact(Run(c, st, ops))
    decreases |ops|
  {
    hide Bounded, Apply, Exact, FreshRun;
    if ops == [] {
    } else {
      StepBounded(c, st, ops[0]);
      StepExact(c, st, ops[0]);
      RunExact(c, Apply(c, st, ops[0]), ops[1..]);
    }
  }

  /** In every run under the discipline, getSessionByRunId finds a session
      exactly when that session is running the run. */
  lemma IndexFindsRuns(c: Config, ops: seq<Op>, run: string, id: string)
    requires c.maxSessions >= 1 && AllFresh(c, EMPTY, ops)
    ensures ByRun(Run(c, EMPTY, ops), run) == Some(id) <==> id != "" && RunsAs(Run(c, EMPTY, ops), id, run)
  {
    NothingRuns(EMPTY);
    RunExact(c, EMPTY, ops);
    ByRunIff(Run(c, EMPTY, ops), run, id);
    hide Run, AllFresh, Exact, RunsAs, ByRun;
  }

  /** Without it a run that was replaced is still found: setting "b" over "a"
      leaves "a" leading to the session. */
  lemma ReplacedRunIsFound(c: Config, now: int)
    requires c.maxSessions >= 1
    ensures var st := Run(c, EMPTY,
                          [Create("s", "key", "cwd", now), SetRun("s", "a", 1, now), SetRun("s", "b", 2, now)]);
            ByRun(st, "a") == Some("s") && !RunsAs(st, "s", "a")
  {
    var one := Apply(c, EMPTY, Create("s", "key", "cwd", now));
    assert one.sessions == [Fresh("s", "key", "cwd", now)];
    var two := Apply(c, one, SetRun("s", "a", 1, now));
    var three := Apply(c, two, SetRun("s", "b", 2, now));
    var ops := [Create("s", "key", "cwd", now), SetRun("s", "a", 1, now), SetRun("s", "b", 2, now)];
    assert Run(c, EMPTY, ops) == Run(c, one, ops[1..]);
    assert ops[1..][1..] == ops[2..] && ops[2..][1..] == [];
    assert Run(c, one, ops[1..]) == Run(c, two, ops[2..]) == Run(c, three, []);
  }
}
