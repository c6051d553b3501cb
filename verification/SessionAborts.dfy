/** Which controllers the session store aborts, over every run
    (src/acp/session.ts). */
module SessionAborts {
  import opened Text
  import opened SessionStore
  import opened SessionRuns

  predicate Unrepeated(cs: seq<Controller>) { forall i, j | 0 <= i < j < |cs| :: cs[i] != cs[j] }

  /** A controller belongs to one session, and to none once it was aborted. */
  predicate Owned(st: State) {
    && Unrepeated(st.aborted)
    && (forall s | s in st.sessions && s.controller.Some? :: s.controller.value !in st.aborted)
    && (forall s, t | s in st.sessions && t in st.sessions && s.controller.Some? && s.controller == t.controller ::
          s.id == t.id)
  }

  /** A run is set with a controller that no other session has and that was
      not aborted. */
  predicate OwnController(st: State, op: Op) {
    op.SetRun? ==>
      op.controller !in st.aborted
      && forall s | s in st.sessions && s.id != op.id :: s.controller != Some(op.controller)
  }

  /** Sessions that keep or lose their controllers. */
  ghost predicate Keeps(a: State, b: State) {
    forall t | t in b.sessions && t.controller.Some? ::
      exists s :: s in a.sessions && s.id == t.id && s.controller == t.controller
  }

  lemma KeepsOwned(a: State, b: State)
    requires Owned(a) && Keeps(a, b) && b.aborted == a.aborted
    ensures Owned(b)
  {
  }

  lemma OneChanged(st: State, i: nat, t: Session)
    requires i < |st.sessions| && t.id == st.sessions[i].id
    ensures forall s | s in st.sessions[i := t] :: s == t || s in st.sessions
  {
  }

  lemma CreateKeeps(c: Config, st: State, id: string, key: string, cwd: string, now: int)
    ensures Keeps(st, Created(c, st, id, key, cwd, now)) && Created(c, st, id, key, cwd, now).aborted == st.aborted
  {
    var i, after := Find(st.sessions, id), Created(c, st, id, key, cwd, now);
    if i < |st.sessions| {
      var t := st.sessions[i].(key := key, cwd := cwd, lastTouchedAt := now);
      OneChanged(st, i, t);
      assert st.sessions[i] in st.sessions;
    } else {
      CreateAddsOne(c, st, id, key, cwd, now);
      CreateAborts(c, st, id, key, cwd, now);
      hide Created, Find;
    }
  }

  lemma CreateAborts(c: Config, st: State, id: string, key: string, cwd: string, now: int)
    ensures Created(c, st, id, key, cwd, now).aborted == st.aborted
  {
    hide Survivors, Victim, Evicted, CanEvict;
  }

  lemma TouchKeeps(st: State, id: string, now: int)
    ensures Keeps(st, st.(sessions := Touched(st.sessions, id, now)))
  {
    var i := Find(st.sessions, id);
    if i < |st.sessions| {
      OneChanged(st, i, st.sessions[i].(lastTouchedAt := now));
      assert st.sessions[i] in st.sessions;
    }
  }

  lemma EndKeeps(st: State, id: string, now: int)
    ensures Keeps(st, RunCleared(st, id, now)) && RunCleared(st, id, now).aborted == st.aborted
  {
    var i := Find(st.sessions, id);
    if i < |st.sessions| { OneChanged(st, i, Ended(st.sessions[i], now)); }
  }

  lemma SetOwned(st: State, id: string, run: string, controller: Controller, now: int)
    requires Owned(st) && DistinctIds(st.sessions) && OwnController(st, SetRun(id, run, controller, now))
    ensures Owned(RunActivated(st, id, run, controller, now))
  {
    var i := Find(st.sessions, id);
    if i < |st.sessions| {
      OneChanged(st, i, st.sessions[i].(activeRun := Some(run), controller := Some(controller), lastTouchedAt := now));
      hide Find;
    }
  }

  lemma CancelOwned(st: State, id: string, now: int)
    requires Owned(st) && DistinctIds(st.sessions)
    ensures Owned(RunCancelled(st, id, now))
  {
    if Cancellable(st, id) {
      var i := Find(st.sessions, id);
      EndKeeps(st, id, now);
      KeepsOwned(st, RunCleared(st, id, now));
      OnlyHolder(st, i, now);
      hide Find, RunCleared;
    }
  }

  /** Once a session has ended, nobody has its controller. */
  lemma OnlyHolder(st: State, i: nat, now: int)
    requires Owned(st) && DistinctIds(st.sessions) && i < |st.sessions| && st.sessions[i].controller.Some?
    ensures forall t | t in RunCleared(st, st.sessions[i].id, now).sessions :: t.controller != st.sessions[i].controller
  {
    FindAt(st.sessions, i);
    var after := st.sessions[i := Ended(st.sessions[i], now)];
    forall t | t in after ensures t.controller != st.sessions[i].controller {
      var j :| 0 <= j < |after| && after[j] == t;
      if j != i { assert st.sessions[j] in st.sessions && st.sessions[i] in st.sessions; }
    }
  }

  lemma {:induction false} ControllersOwned(ss: seq<Session>)
    requires DistinctIds(ss)
    requires forall s, t | s in ss && t in ss && s.controller.Some? && s.controller == t.controller :: s.id == t.id
    ensures Unrepeated(Controllers(ss))
    ensures forall x | x in Controllers(ss) :: exists s :: s in ss && s.controller == Some(x)
  {
    if ss == [] {
    } else {
      var n := |ss| - 1;
      ControllersOwned(ss[..n]);
      assert ss[n] in ss;
      forall x | x in Controllers(ss[..n])
        ensures Some(x) != ss[n].controller && exists s :: s in ss && s.controller == Some(x)
      {
        var s :| s in ss[..n] && s.controller == Some(x);
        var j :| 0 <= j < n && ss[j] == s;
        assert s in ss;
      }
    }
  }

  lemma StepOwned(c: Config, st: State, op: Op)
    requires Bounded(c, st) && Owned(st) && OwnController(st, op)
    ensures Owned(Apply(c, st, op))
  {
    hide Created, RunCleared, RunActivated, RunCancelled, Touched, Find, Owned, Keeps, ByRun, Controllers;
    var after := Apply(c, st, op);
    match op
    case Create(id, key, cwd, now) => CreateKeeps(c, st, id, key, cwd, now); KeepsOwned(st, after);
    case Get(id, now) => TouchKeeps(st, id, now); KeepsOwned(st, after);
    case GetByRun(run, now) =>
      var found := ByRun(st, run);
      if found.Some? { TouchKeeps(st, found.value, now); KeepsOwned(st, after); }
    case SetRun(id, run, controller, now) => SetOwned(st, id, run, controller, now);
    case ClearRun(id, now) => EndKeeps(st, id, now); KeepsOwned(st, after);
    case CancelRun(id, now) => CancelOwned(st, id, now);
    case ClearAll => AllAborted(st);
  }

  lemma AllAborted(st: State)
    requires Owned(st) && DistinctIds(st.sessions)
    ensures Owned(State([], map[], st.aborted + Controllers(st.sessions)))
  {
    ControllersOwned(st.sessions);
    var held := Controllers(st.sessions);
    assert forall j | 0 <= j < |held| :: held[j] in held;
    hide Controllers;
  }

  predicate AllOwn(c: Config, st: State, ops: seq<Op>)
    decreases |ops|
  {
    ops == [] || (OwnController(st, ops[0]) && AllOwn(c, Apply(c, st, ops[0]), ops[1..]))
  }

  /** In every run in which each run brings a controller of its own, no
      controller is aborted twice, and no session is left with an aborted one. */
  lemma {:induction false} AbortedOnce(c: Config, st: State, ops: seq<Op>)
    requires Bounded(c, st) && c.maxSessions >= 1 && Owned(st) && AllOwn(c, st, ops)
    ensures Owned(Run(c, st, ops))
    decreases |ops|
  {
    hide Bounded, Apply, Owned, OwnController;
    if ops == [] {
    } else {
      StepBounded(c, st, ops[0]);
      StepOwned(c, st, ops[0]);
      AbortedOnce(c, Apply(c, st, ops[0]), ops[1..]);
    }
  }
}
