/** What becomes of one session, and of one controller, over every run of the
    session store (src/acp/session.ts). */
module SessionHistory {
  import opened Text
  import opened SessionStore
  import opened SessionRuns

  // ---- one session ----

  /** The session with this id. */
  function Lookup(st: State, id: string): Option<Session> {
    if Has(st.sessions, id) then Some(st.sessions[Find(st.sessions, id)]) else None
  }

  lemma LookupIff(st: State, id: string, s: Session)
    requires DistinctIds(st.sessions)
    ensures Lookup(st, id) == Some(s) <==> s in st.sessions && s.id == id
  {
    if s in st.sessions {
      var i :| 0 <= i < |st.sessions| && st.sessions[i] == s;
      FindAt(st.sessions, i);
    }
  }

  lemma LookupNone(st: State, id: string)
    ensures Lookup(st, id).None? <==> forall s | s in st.sessions :: s.id != id
  {
    HasIff(st.sessions, id);
    hide Has, Find;
    if forall s | s in st.sessions :: s.id != id {
      assert forall i | 0 <= i < |st.sessions| :: st.sessions[i] in st.sessions;
    }
  }

  /** One session changed in place: the others are found as before. */
  lemma LookupChanged(a: State, b: State, i: nat, t: Session, id: string)
    requires DistinctIds(a.sessions) && i < |a.sessions| && t.id == a.sessions[i].id && b.sessions == a.sessions[i := t]
    ensures Lookup(b, id) == if id == t.id then Some(t) else Lookup(a, id)
  {
    assert DistinctIds(b.sessions);
    if id == t.id {
      LookupIff(b, id, t);
      assert b.sessions[i] == t;
    } else if Lookup(a, id).Some? {
      var s := Lookup(a, id).value;
      LookupIff(a, id, s);
      var j :| 0 <= j < |a.sessions| && a.sessions[j] == s;
      assert b.sessions[j] == s;
      LookupIff(b, id, s);
    } else {
      LookupNone(a, id);
      LookupNone(b, id);
      hide Lookup;
      forall s | s in b.sessions ensures s.id != id {
        var j :| 0 <= j < |b.sessions| && b.sessions[j] == s;
        assert j != i ==> a.sessions[j] == s;
      }
    }
  }

  /** What looking up, setting, clearing and cancelling do to the session with id
      `id`. A look-up by run concerns the session that the index names. */
  function Changed(st: State, op: Op, s: Session): Session {
    match op
    case Get(id, now) => if s.id == id then s.(lastTouchedAt := now) else s
    case GetByRun(run, now) => if ByRun(st, run) == Some(s.id) then s.(lastTouchedAt := now) else s
    case SetRun(id, run, controller, now) =>
      if s.id == id then s.(activeRun := Some(run), controller := Some(controller), lastTouchedAt := now) else s
    case ClearRun(id, now) => if s.id == id then s.(activeRun := None, controller := None, lastTouchedAt := now) else s
    case CancelRun(id, now) =>
      if s.id == id && s.controller.Some? then s.(activeRun := None, controller := None, lastTouchedAt := now) else s
    case Create(id, key, cwd, now) => if s.id == id then s.(key := key, cwd := cwd, lastTouchedAt := now) else s
    case ClearAll => s
  }

  /** Every operation but creating and clearing all keeps each session, changed
      just as its own operations say, and adds none. */
  lemma SessionAfter(c: Config, st: State, op: Op, id: string)
    requires DistinctIds(st.sessions) && !op.Create? && !op.ClearAll?
    ensures Lookup(Apply(c, st, op), id)
         == if Lookup(st, id).None? then None else Some(Changed(st, op, Lookup(st, id).value))
  {
    var after := Apply(c, st, op);
    var named := if op.GetByRun? then ByRun(st, op.run) else Some(op.id);
    if named.Some? && Has(st.sessions, named.value) {
      var i := Find(st.sessions, named.value);
      LookupChanged(st, st.(sessions := st.sessions[i := Changed(st, op, st.sessions[i])]), i,
                    Changed(st, op, st.sessions[i]), id);
      hide Find;
    }
  }

  lemma CreatedNew(c: Config, st: State, id: string, key: string, cwd: string, now: int)
    requires DistinctIds(st.sessions) && !Has(st.sessions, id)
    ensures var after := Created(c, st, id, key, cwd, now).sessions;
            if Refused(c, st, id, now) then forall s | s in after :: s.id != id
            else Fresh(id, key, cwd, now) in after
  {
    hide Survivors, Victim, Evicted, CanEvict, Has, DistinctIds;
    var left := Survivors(st.sessions, now - c.idleTtlMs);
    SurvivorsAre(st.sessions, now - c.idleTtlMs);
    HasIff(st.sessions, id);
    forall s | s in left ensures s.id != id {
      var i :| 0 <= i < |st.sessions| && st.sessions[i] == s;
    }
  }

  /** A known id is refreshed, with its creation time and its run; a new one gets
      a fresh session, unless it is refused. */
  lemma CreatedAfter(c: Config, st: State, id: string, key: string, cwd: string, now: int)
    requires Bounded(c, st)
    ensures Lookup(Created(c, st, id, key, cwd, now), id)
         == if Lookup(st, id).Some? then Some(Lookup(st, id).value.(key := key, cwd := cwd, lastTouchedAt := now))
            else if Refused(c, st, id, now) then None
            else Some(Session(id, key, cwd, now, now, None, None))
  {
    var after := Created(c, st, id, key, cwd, now);
    if Has(st.sessions, id) {
      KnownRefreshed(c, st, id, key, cwd, now);
    } else {
      hide Created, Refused, Has, Find;
      CreatedNew(c, st, id, key, cwd, now);
      CreatedDistinct(c, st, id, key, cwd, now);
      LookupNone(after, id);
      FreshIsFound(after, id, key, cwd, now);
    }
  }

  /** Creating a new session lets go of a session that is not used and was not
      touched within the idle time, and, when the store is still full, of the
      victim among those that are left. */
  ghost predicate LetGo(c: Config, st: State, id: string, s: Session, now: int) {
    var left := Reaped(c, st, now).sessions;
    && !Has(st.sessions, id)
    && ((Unused(s) && s.lastTouchedAt <= now - c.idleTtlMs)
        || (|left| >= c.maxSessions && s.id != "" && exists v: nat :: IsVictim(left, v) && left[v] == s))
  }

  lemma OthersAfterCreate(c: Config, st: State, id: string, key: string, cwd: string, now: int, s: Session)
    requires DistinctIds(st.sessions) && s.id != id
    ensures s in Created(c, st, id, key, cwd, now).sessions <==> s in st.sessions && !LetGo(c, st, id, s, now)
  {
    var left := Reaped(c, st, now).sessions;
    SurvivorsAre(st.sessions, now - c.idleTtlMs);
    hide Expired, Unused, Drop, IsVictim, Survivors, Victim;
    if Has(st.sessions, id) {
      var i := Find(st.sessions, id);
      hide Find;
      if s in st.sessions {
        var j :| 0 <= j < |st.sessions| && st.sessions[j] == s;
        assert Created(c, st, id, key, cwd, now).sessions[j] == s;
      }
    } else {
      SurvivorsDistinct(st.sessions, now - c.idleTtlMs);
      EvictedAre(left, s);
      hide Has, DistinctIds;
    }
  }

  lemma EvictedAre(ss: seq<Session>, s: Session)
    requires DistinctIds(ss)
    ensures s in Evicted(ss) <==> s in ss && !(s.id != "" && exists v: nat :: IsVictim(ss, v) && ss[v] == s)
  {
    if Victim(ss).Some? {
      var v := Victim(ss).value;
      DropAre(ss, v, s);
      forall w: nat | IsVictim(ss, w) ensures w == v {
        VictimUnique(ss, w, v);
      }
      hide Drop, DistinctIds;
    }
  }

  lemma DropAre(ss: seq<Session>, i: nat, s: Session)
    requires DistinctIds(ss) && i < |ss|
    ensures s in Drop(ss, i) <==> s in ss && s != ss[i]
  {
    var r := Drop(ss, i);
    assert forall j | 0 <= j < |r| :: r[j] == ss[if j < i then j else j + 1];
    if s in ss && s != ss[i] {
      var j :| 0 <= j < |ss| && ss[j] == s;
      assert r[if j < i then j else j - 1] == s;
    }
  }

  lemma KnownRefreshed(c: Config, st: State, id: string, key: string, cwd: string, now: int)
    requires DistinctIds(st.sessions) && Has(st.sessions, id)
    ensures Lookup(Created(c, st, id, key, cwd, now), id)
         == Some(Lookup(st, id).value.(key := key, cwd := cwd, lastTouchedAt := now))
  {
    var i, after := Find(st.sessions, id), Created(c, st, id, key, cwd, now);
    LookupChanged(st, after, i, after.sessions[i], id);
    hide Find;
  }

  lemma FreshIsFound(st: State, id: string, key: string, cwd: string, now: int)
    requires DistinctIds(st.sessions)
    ensures Fresh(id, key, cwd, now) in st.sessions ==> Lookup(st, id) == Some(Fresh(id, key, cwd, now))
  {
    LookupIff(st, id, Fresh(id, key, cwd, now));
  }

  /** Removing takes away just the session, its run from the index, and aborts
      its controller. */
  lemma RemovedAfter(st: State, s: Session, id: string)
    requires DistinctIds(st.sessions) && s in st.sessions
    ensures var after := Removed(st, s.id);
            && Lookup(after, id) == (if id == s.id then None else Lookup(st, id))
            && after.aborted == st.aborted + (if s.controller.Some? then [s.controller.value] else [])
            && after.index == if Running(s) then st.index - {s.activeRun.value} else st.index
  {
    LookupIff(st, s.id, s);
    var i, after := Find(st.sessions, s.id), Removed(st, s.id);
    assert after.sessions == Drop(st.sessions, i);
    DroppedLookup(st, after, i, id);
    assert st.aborted + [] == st.aborted;
    hide Find;
  }

  lemma DroppedLookup(a: State, b: State, i: nat, id: string)
    requires DistinctIds(a.sessions) && i < |a.sessions| && b.sessions == Drop(a.sessions, i)
    ensures DistinctIds(b.sessions)
    ensures Lookup(b, id) == if id == a.sessions[i].id then None else Lookup(a, id)
  {
    forall t ensures t in b.sessions <==> t in a.sessions && t != a.sessions[i] {
      DropAre(a.sessions, i, t);
    }
    DropDistinct(a.sessions, i);
    LookupNone(b, id);
    LookupNone(a, id);
    hide Drop, DistinctIds;
    SameId(a.sessions, i);
    if Lookup(b, id).Some? {
      LookupIff(b, id, Lookup(b, id).value);
      LookupIff(a, id, Lookup(b, id).value);
    }
  }

  lemma DropDistinct(ss: seq<Session>, i: nat)
    requires DistinctIds(ss) && i < |ss|
    ensures DistinctIds(Drop(ss, i))
  {
    var r := Drop(ss, i);
    assert forall j | 0 <= j < |r| :: r[j] == ss[if j < i then j else j + 1];
  }

  lemma SameId(ss: seq<Session>, i: nat)
    requires DistinctIds(ss) && i < |ss|
    ensures forall t | t in ss && t.id == ss[i].id :: t == ss[i]
  {
  }

  // ---- controllers ----

  /** A session holds the controller of its run. */
  predicate Held(st: State, id: string, x: Controller) {
    exists s :: s in st.sessions && s.id == id && s.controller == Some(x)
  }

  /** Cancelling aborts the controller of the session, and of no other; without
      one it does nothing. */
  lemma CancelAborts(c: Config, st: State, s: Session, now: int)
    requires DistinctIds(st.sessions) && s in st.sessions
    ensures var after := Apply(c, st, CancelRun(s.id, now));
            if s.controller.Some? then
              && after.aborted == st.aborted + [s.controller.value]
              && Lookup(after, s.id) == Some(s.(activeRun := None, controller := None, lastTouchedAt := now))
            else after == st
  {
    LookupIff(st, s.id, s);
    SessionAfter(c, st, CancelRun(s.id, now), s.id);
    hide Find;
  }

  lemma {:induction false} ControllersAre(ss: seq<Session>)
    ensures forall x :: x in Controllers(ss) <==> exists s :: s in ss && s.controller == Some(x)
  {
    if ss == [] {
    } else {
      var n := |ss| - 1;
      ControllersAre(ss[..n]);
      assert ss == ss[..n] + [ss[n]];
      forall x | exists s :: s in ss && s.controller == Some(x) ensures x in Controllers(ss) {
        var s :| s in ss && s.controller == Some(x);
        assert s in ss[..n] || s == ss[n];
      }
    }
  }

  /** The operation aborts the controller: its session is cancelled, or all are
      cleared, while some session holds it. */
  predicate Aborts(st: State, op: Op, x: Controller) {
    || (op.CancelRun? && Held(st, op.id, x))
    || (op.ClearAll? && exists s :: s in st.sessions && s.controller == Some(x))
  }

  lemma StepAborts(c: Config, st: State, op: Op, x: Controller)
    requires DistinctIds(st.sessions)
    ensures x in Apply(c, st, op).aborted <==> x in st.aborted || Aborts(st, op, x)
  {
    match op
    case CancelRun(id, now) =>
      LookupNone(st, id);
      if Lookup(st, id).Some? {
        var s := Lookup(st, id).value;
        LookupIff(st, id, s);
        CancelAborts(c, st, s, now);
        OnlySession(st, s, x);
      }
      hide Lookup, Apply, DistinctIds;
    case ClearAll => ControllersAre(st.sessions);
    case Create(id, key, cwd, now) => CreateAbortsNone(c, st, id, key, cwd, now);
    case _ =>
  }

  lemma OnlySession(st: State, s: Session, x: Controller)
    requires DistinctIds(st.sessions) && s in st.sessions
    ensures Held(st, s.id, x) <==> s.controller == Some(x)
  {
    if t :| t in st.sessions && t.id == s.id && t.controller == Some(x) {
      var i :| 0 <= i < |st.sessions| && st.sessions[i] == s;
      var j :| 0 <= j < |st.sessions| && st.sessions[j] == t;
      assert !(i < j) && !(j < i);
    }
  }

  lemma CreateAbortsNone(c: Config, st: State, id: string, key: string, cwd: string, now: int)
    ensures Created(c, st, id, key, cwd, now).aborted == st.aborted
  {
    hide Survivors, Victim, Evicted, CanEvict;
  }

  lemma {:induction false} RunSnoc(c: Config, st: State, ops: seq<Op>, op: Op)
    ensures Run(c, st, ops + [op]) == Apply(c, Run(c, st, ops), op)
    decreases |ops|
  {
    hide Apply;
    if ops == [] {
      assert [op][1..] == [];
    } else {
      assert (ops + [op])[1..] == ops[1..] + [op];
      RunSnoc(c, Apply(c, st, ops[0]), ops[1..], op);
    }
  }

  /** In every run a controller is aborted if and only if it was already, or some
      session was cancelled, or all were cleared, while a session held it. */
  lemma {:induction false} AbortedIff(c: Config, st: State, ops: seq<Op>, x: Controller)
    requires Bounded(c, st) && c.maxSessions >= 1
    ensures x in Run(c, st, ops).aborted <==>
            x in st.aborted || exists k :: 0 <= k < |ops| && Aborts(Run(c, st, ops[..k]), ops[k], x)
    decreases |ops|
  {
    hide Bounded, Apply, Aborts, Run;
    if ops == [] {
      RunNothing(c, st);
    } else {
      var n := |ops| - 1;
      AbortedIff(c, st, ops[..n], x);
      NeverOverfull(c, st, ops[..n]);
      RunSnoc(c, st, ops[..n], ops[n]);
      assert ops[..n] + [ops[n]] == ops;
      BoundedDistinct(c, Run(c, st, ops[..n]));
      StepAborts(c, Run(c, st, ops[..n]), ops[n], x);
      assert forall k | 0 <= k < n :: ops[..n][..k] == ops[..k] && ops[..n][k] == ops[k];
    }
  }

  lemma RunNothing(c: Config, st: State)
    ensures Run(c, st, []) == st
  {
  }

  lemma BoundedDistinct(c: Config, st: State)
    requires Bounded(c, st)
    ensures DistinctIds(st.sessions)
  {
  }

  // ---- active sessions ----

  /** The operation is about another session. */
  predicate Spares(op: Op, id: string) {
    match op
    case SetRun(other, _, _, _) => other != id
    case ClearRun(other, _) => other != id
    case CancelRun(other, _) => other != id
    case ClearAll => false
    case _ => true
  }

  lemma ActiveStep(c: Config, st: State, op: Op, s: Session)
    requires Bounded(c, st) && Lookup(st, s.id) == Some(s) && !Idle(s) && Spares(op, s.id)
    ensures var after := Lookup(Apply(c, st, op), s.id);
            && after.Some? && after.value.controller == s.controller && after.value.activeRun == s.activeRun
            && after.value.createdAt == s.createdAt && after.value.id == s.id
  {
    if op.Create? {
      LookupIff(st, s.id, s);
      CreatedAfter(c, st, op.id, op.key, op.cwd, op.now);
      if op.id != s.id {
        CreateRemovesIdle(c, st, op.id, op.key, op.cwd, op.now, s);
        StepDistinct(c, st, op);
        LookupIff(Apply(c, st, op), s.id, s);
      }
      hide Created, Lookup, Refused;
    } else {
      SessionAfter(c, st, op, s.id);
      hide Apply, Lookup;
    }
  }

  lemma StepDistinct(c: Config, st: State, op: Op)
    requires Bounded(c, st)
    ensures DistinctIds(Apply(c, st, op).sessions)
  {
    hide Created, Survivors, Find, Controllers, Unindexed, Abort;
    match op
    case Create(id, key, cwd, now) => CreatedDistinct(c, st, id, key, cwd, now);
    case _ =>
  }

  lemma CreatedDistinct(c: Config, st: State, id: string, key: string, cwd: string, now: int)
    requires DistinctIds(st.sessions)
    ensures DistinctIds(Created(c, st, id, key, cwd, now).sessions)
  {
    hide Survivors, Victim, Evicted, CanEvict;
    if Has(st.sessions, id) {
      hide Find;
    } else {
      StaysDistinct(st.sessions, id, key, cwd, now, now - c.idleTtlMs);
      hide DistinctIds;
    }
  }

  /** Over every run: a session at work is never reaped or evicted, and keeps its
      run and controller, until an operation on it or clearing all. */
  lemma {:induction false} ActiveStays(c: Config, st: State, ops: seq<Op>, s: Session)
    requires Bounded(c, st) && c.maxSessions >= 1 && Lookup(st, s.id) == Some(s) && !Idle(s)
    requires forall op | op in ops :: Spares(op, s.id)
    ensures var after := Lookup(Run(c, st, ops), s.id);
            && after.Some? && after.value.controller == s.controller && after.value.activeRun == s.activeRun
            && after.value.createdAt == s.createdAt
    decreases |ops|
  {
    hide Bounded, Apply, Lookup, Spares;
    if ops == [] {
    } else {
      StepBounded(c, st, ops[0]);
      ActiveStep(c, st, ops[0], s);
      ActiveStays(c, Apply(c, st, ops[0]), ops[1..], Lookup(Apply(c, st, ops[0]), s.id).value);
    }
  }
}
