/** Each tab, each session and each child session of the browser relay extension
    on its own (assets/chrome-extension/background.js): what every step does to
    it, and what it is after every run. */
module RelaySessions {
  import opened Text
  import opened RelayTabs
  import opened RelayRuns

  // ---- one tab ----

  function EntryOf(m: Maps, u: TabId): Option<Tab> { if u in m.tabs then Some(m.tabs[u]) else None }

  /** A tab is let go of when it is detached, removed, clicked on while attached,
      fails to connect or to validate, or begins to navigate; it is taken over by
      a new id, and given a session of its own when it is attached. */
  function EntryAfter(w: World, step: Step, u: TabId): Option<Tab>
    requires Enabled(w, step)
  {
    var m, was := w.maps, EntryOf(w.maps, u);
    match step
    case AttachDone(t, targetId) =>
      if u == t then Some(Connected(SessionName(m.nextSession), targetId, m.nextSession)) else was
    case ConnectFails(t) => if u == t then None else was
    case Detach(t) => if u == t then None else was
    case TabRemoved(t) => if u == t then None else was
    case CheckFailed(check) => if u == check.tab then None else was
    case Navigate(t) => if u == t && t !in m.reattaching then None else was
    case Click(t) =>
      if u != t || t == 0 || t in m.reattaching then was
      else if SessionOf(m, t).Some? then None
      else Some(Connecting)
    case TabReplaced(added, removed) =>
      if removed !in m.tabs then was
      else if u == added then EntryOf(m, removed)
      else if u == removed then None
      else was
    case Restart(readable, valid) => if readable && u in valid then StoredEntry(w.stored, u) else None
    case _ => was
  }

  function StoredEntry(s: Snapshot, u: TabId): Option<Tab> { if u in s.entries then Some(s.entries[u]) else None }

  lemma EntryIsAfter(w: World, step: Step, u: TabId)
    requires Enabled(w, step)
    ensures EntryOf(Apply(w, step).maps, u) == EntryAfter(w, step, u)
  {
    hide SessionName;
  }

  /** The counter of sessions goes up by one with each session. */
  lemma CounterAfter(w: World, step: Step)
    requires Enabled(w, step)
    ensures Apply(w, step).maps.nextSession
         == match step
            case AttachDone(_, _) => w.maps.nextSession + 1
            case Restart(readable, _) => if readable && w.stored.nextSession >= 1 then w.stored.nextSession else 1
            case _ => w.maps.nextSession
  {
    hide SessionName, Distinct;
  }

  /** A validation is pending from its check on, with the session read then, until
      it has passed or failed. */
  lemma PendingAfter(w: World, step: Step, check: Check)
    requires Enabled(w, step)
    ensures check in Apply(w, step).checks <==>
            match step
            case CheckTab(t) => check in w.checks || (check.tab == t && SessionOf(w.maps, t) == Some(check.sessionId))
            case CheckPassed(ended) => check in w.checks && check != ended
            case CheckFailed(ended) => check in w.checks && check != ended
            case Restart(_, _) => false
            case _ => check in w.checks
  {
    hide SessionName, Distinct, Rehydrated;
  }

  /** Whether a tab waits to be attached again. */
  lemma ReattachAfter(w: World, step: Step, u: TabId)
    requires Enabled(w, step)
    ensures u in Apply(w, step).maps.reattaching <==>
            match step
            case Navigate(t) => u == t || u in w.maps.reattaching
            case Click(t) => u in w.maps.reattaching && (u != t || t == 0)
            case TabRemoved(t) => u in w.maps.reattaching && u != t
            case ReattachOver(t) => u in w.maps.reattaching && u != t
            case RelayClosed => false
            case Restart(_, _) => false
            case _ => u in w.maps.reattaching
  {
    hide SessionName, Distinct;
  }

  // ---- one session ----

  function IndexOf(m: Maps, s: SessionId): Option<TabId> { if s in m.bySession then Some(m.bySession[s]) else None }

  /** A session leads nowhere once its tab is let go of, unless connecting failed. */
  lemma SessionAfter(w: World, step: Step, s: SessionId)
    requires Enabled(w, step)
    ensures var m, was := w.maps, IndexOf(w.maps, s);
            IndexOf(Apply(w, step).maps, s) ==
            match step
            case AttachDone(t, _) => if s == SessionName(m.nextSession) then Some(t) else was
            case Detach(t) => if SessionOf(m, t) == Some(s) then None else was
            case TabRemoved(t) => if SessionOf(m, t) == Some(s) then None else was
            case Navigate(t) => if t !in m.reattaching && SessionOf(m, t) == Some(s) then None else was
            case Click(t) => if t != 0 && t !in m.reattaching && SessionOf(m, t) == Some(s) then None else was
            case CheckFailed(check) => if s == check.sessionId then None else was
            case TabReplaced(added, removed) => if SessionOf(m, removed) == Some(s) then Some(added) else was
            case Restart(readable, valid) =>
              IndexOf(if readable then Rehydrated(w.stored, valid) else FRESH, s)
            case _ => was
  {
    hide SessionName, Rehydrated, Distinct;
  }

  // ---- one child session ----

  function ParentOf(m: Maps, c: SessionId): Option<TabId> { if c in m.children then Some(m.children[c]) else None }

  /** A tab takes part in child events when it has a session and is not tab 0. */
  predicate Hears(m: Maps, t: TabId) { t != 0 && SessionOf(m, t).Some? }

  /** The child's own events on a tab decide; otherwise it goes with its tab, and
      follows it to a new id. */
  function ParentAfter(w: World, step: Step, c: SessionId): Option<TabId> {
    var m, was := w.maps, ParentOf(w.maps, c);
    match step
    case ChildIn(t, child) => if child == c && Hears(m, t) then Some(t) else was
    case ChildOut(t, child) => if child == c && Hears(m, t) then None else was
    case Detach(t) => if was == Some(t) then None else was
    case TabRemoved(t) => if was == Some(t) && t in m.tabs then None else was
    case Navigate(t) => if was == Some(t) && t !in m.reattaching then None else was
    case Click(t) => if was == Some(t) && t !in m.reattaching && Hears(m, t) then None else was
    case TabReplaced(added, removed) => if was == Some(removed) && removed in m.tabs then Some(added) else was
    case Restart(_, _) => None
    case _ => was
  }

  lemma ParentIsAfter(w: World, step: Step, c: SessionId)
    requires Enabled(w, step)
    ensures ParentOf(Apply(w, step).maps, c) == ParentAfter(w, step, c)
  {
    hide SessionName, Distinct;
  }

  /** The parent a run leaves a child with. */
  function ParentOver(w: World, steps: seq<Step>, c: SessionId, parent: Option<TabId>): Option<TabId>
    requires ParentOf(w.maps, c) == parent
    decreases |steps|
  {
    if steps == [] || !Enabled(w, steps[0]) then parent
    else
      ParentIsAfter(w, steps[0], c);
      ParentOver(Apply(w, steps[0]), steps[1..], c, ParentAfter(w, steps[0], c))
  }

  lemma {:induction false} ParentFollowed(w: World, steps: seq<Step>, last: World, c: SessionId)
    requires Run(w, steps, last)
    ensures ParentOf(last.maps, c) == ParentOver(w, steps, c, ParentOf(w.maps, c))
    decreases |steps|
  {
    hide Apply, Enabled, ParentAfter;
    if steps == [] {
    } else {
      ParentIsAfter(w, steps[0], c);
      ParentFollowed(Apply(w, steps[0]), steps[1..], last, c);
    }
  }

  /** After a child event on an attached tab the child is found there, and after
      its detach event it is not, unless its id is that of a tab's session. */
  lemma ChildIsFound(w: World, t: TabId, c: SessionId)
    requires Hears(w.maps, t) && c !in w.maps.bySession
    ensures TabBySessionId(Apply(w, ChildIn(t, c)).maps, c) == Child(t)
    ensures TabBySessionId(Apply(w, ChildOut(t, c)).maps, c) == Nothing
  {
    hide SessionName;
  }

  /** The step ends what is known of the child of tab `t`. */
  predicate Ends(w: World, step: Step, c: SessionId, t: TabId) {
    match step
    case ChildIn(_, child) => child == c
    case ChildOut(_, child) => child == c
    case Detach(u) => u == t
    case TabRemoved(u) => u == t
    case Navigate(u) => u == t
    case Click(u) => u == t
    case Restart(_, _) => true
    case _ => false
  }

  function NextTab(w: World, step: Step, t: TabId): TabId {
    if step.TabReplaced? && step.removed == t && t in w.maps.tabs then step.added else t
  }

  ghost predicate Undisputed(w: World, steps: seq<Step>, c: SessionId, t: TabId)
    decreases |steps|
  {
    steps == []
    || (Enabled(w, steps[0]) && !Ends(w, steps[0], c, t)
        && Undisputed(Apply(w, steps[0]), steps[1..], c, NextTab(w, steps[0], t)))
  }

  function LastTab(w: World, steps: seq<Step>, t: TabId): TabId
    decreases |steps|
  {
    if steps == [] || !Enabled(w, steps[0]) then t
    else LastTab(Apply(w, steps[0]), steps[1..], NextTab(w, steps[0], t))
  }

  /** Over every run: a child stays with its tab, under each new id the tab gets,
      until an event of its own, the end of the tab's session or a restart. */
  lemma {:induction false} ChildStays(w: World, steps: seq<Step>, last: World, c: SessionId, t: TabId)
    requires ParentOf(w.maps, c) == Some(t) && Run(w, steps, last) && Undisputed(w, steps, c, t)
    ensures ParentOf(last.maps, c) == Some(LastTab(w, steps, t))
    ensures IndexOf(last.maps, c).None? && LastTab(w, steps, t) != 0 ==>
              TabBySessionId(last.maps, c) == Child(LastTab(w, steps, t))
    decreases |steps|
  {
    hide Apply, Enabled;
    if steps == [] {
    } else {
      ParentIsAfter(w, steps[0], c);
      ChildStays(Apply(w, steps[0]), steps[1..], last, c, NextTab(w, steps[0], t));
    }
  }

  // ---- the storage ----

  /** The snapshots a run asks to be written, in order. */
  function Persisted(w: World, steps: seq<Step>): seq<Snapshot>
    decreases |steps|
  {
    if steps == [] || !Enabled(w, steps[0]) then []
    else
      (if steps[0].Persist? then [SnapshotOf(w.maps)] else []) + Persisted(Apply(w, steps[0]), steps[1..])
  }

  function Write(step: Step): nat { if step.WriteLands? || step.WriteFails? then 1 else 0 }

  /** How many writes have ended. */
  function Written(steps: seq<Step>): nat { if steps == [] then 0 else Write(steps[0]) + Written(steps[1..]) }

  /** The last write that landed, counted from 0. */
  function LastLanded(steps: seq<Step>): (r: Option<nat>)
    ensures r.Some? ==> r.value < Written(steps)
  {
    if steps == [] then None
    else
      var later := LastLanded(steps[1..]);
      if later.Some? then Some(Write(steps[0]) + later.value)
      else if steps[0].WriteLands? then Some(0)
      else None
  }

  /** Until a restart, snapshots are written in the order in which they were
      taken, and what is stored is the last that landed. */
  lemma {:induction false} WritesInOrder(w: World, steps: seq<Step>, last: World)
    requires Run(w, steps, last) && forall step | step in steps :: !step.Restart?
    ensures var writes := w.inFlight + Persisted(w, steps);
            && Written(steps) <= |writes| && last.inFlight == writes[Written(steps)..]
            && last.stored == if LastLanded(steps).None? then w.stored else writes[LastLanded(steps).value]
    decreases |steps|
  {
    hide Apply, Enabled;
    if steps == [] {
      assert w.inFlight + [] == w.inFlight;
    } else {
      var next, rest := Apply(w, steps[0]), steps[1..];
      WritesInOrder(next, rest, last);
      QueueAfter(w, steps[0]);
      hide Write, SnapshotOf;
      var asked := if steps[0].Persist? then [SnapshotOf(w.maps)] else [];
      QueueMoves(w.inFlight, asked, Persisted(next, rest), next.inFlight, Write(steps[0]), Written(rest));
    }
  }

  lemma QueueMoves<T>(queue: seq<T>, asked: seq<T>, later: seq<T>, queue': seq<T>, ended: nat, k: nat)
    requires ended <= |queue| && ended <= 1 && (ended == 1 ==> asked == [])
    requires queue' == queue[ended..] + asked && k <= |queue' + later|
    ensures var all := queue + (asked + later);
            && ended + k <= |all| && all[ended + k..] == (queue' + later)[k..]
            && (ended == 1 ==> all[0] == queue[0])
            && forall i: nat | i < |queue' + later| :: (queue' + later)[i] == all[ended + i]
  {
    var all := queue + (asked + later);
    assert all[ended..] == queue' + later;
    assert forall i: nat | i < |queue' + later| :: all[ended..][i] == all[ended + i];
  }

  lemma QueueAfter(w: World, step: Step)
    requires Enabled(w, step) && !step.Restart?
    ensures Write(step) <= |w.inFlight|
    ensures Write(step) == if step.WriteLands? || step.WriteFails? then 1 else 0
    ensures Apply(w, step).inFlight == w.inFlight[Write(step)..] + if step.Persist? then [SnapshotOf(w.maps)] else []
    ensures Apply(w, step).stored == if step.WriteLands? then w.inFlight[0] else w.stored
  {
    hide SessionName, SnapshotOf;
    assert w.inFlight + [] == w.inFlight;
    assert Write(step) == 1 ==> w.inFlight[1..] + [] == w.inFlight[1..];
  }
}
