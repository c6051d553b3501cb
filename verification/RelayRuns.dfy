/** Runs of the relay extension: handlers interleaved with reannounce checks,
    storage writes and service-worker restarts
    (assets/chrome-extension/background.js). */
module RelayRuns {
  import opened Text
  import opened RelayTabs

  /** A tab being validated, with the session read before. */
  datatype Check = Check(tab: TabId, sessionId: SessionId)

  /** Snapshots being written land in order, or fail. */
  datatype World = World(maps: Maps, checks: set<Check>, inFlight: seq<Snapshot>, stored: Snapshot)

  const START := World(FRESH, {}, [], Snapshot(map[], 0))

  datatype Step =
    | Click(t: TabId)
    | AttachDone(t: TabId, targetId: string)
    | ConnectFails(t: TabId)
    | Detach(t: TabId)
    | Navigate(t: TabId)
    | ReattachOver(t: TabId)
    | TabRemoved(t: TabId)
    | TabReplaced(added: TabId, removed: TabId)
    | ChildIn(t: TabId, c: SessionId)
    | ChildOut(t: TabId, c: SessionId)
    | RelayClosed
    | CheckTab(t: TabId)
    | CheckPassed(check: Check)
    | CheckFailed(check: Check)
    | Persist
    | WriteLands
    | WriteFails
    | Restart(readable: bool, valid: set<TabId>)

  predicate Enabled(w: World, step: Step) {
    match step
    case AttachDone(_, targetId) => targetId != ""
    case CheckTab(t) => SessionOf(w.maps, t).Some?
    case CheckPassed(check) => check in w.checks
    case CheckFailed(check) => check in w.checks
    case WriteLands => w.inFlight != []
    case WriteFails => w.inFlight != []
    case Restart(_, _) => Distinct(w.stored.entries)
    case _ => true
  }

  function Apply(w: World, step: Step): World
    requires Enabled(w, step)
  {
    var m := w.maps;
    match step
    case Click(t) => w.(maps := Clicked(m, t))
    case AttachDone(t, targetId) => w.(maps := Attached(m, t, targetId))
    case ConnectFails(t) => w.(maps := Unconnected(m, t))
    case Detach(t) => w.(maps := Detached(m, t))
    case Navigate(t) => w.(maps := Navigated(m, t))
    case ReattachOver(t) => w.(maps := m.(reattaching := m.reattaching - {t}))
    case TabRemoved(t) => w.(maps := Removed(m, t))
    case TabReplaced(added, removed) => w.(maps := Replaced(m, added, removed))
    case ChildIn(t, c) => w.(maps := ChildAttached(m, t, c))
    case ChildOut(t, c) => w.(maps := ChildDetached(m, t, c))
    case RelayClosed => w.(maps := m.(reattaching := {}))
    case CheckTab(t) => w.(checks := w.checks + {Check(t, SessionOf(m, t).value)})
    case CheckPassed(check) => w.(checks := w.checks - {check})
    case CheckFailed(check) => w.(checks := w.checks - {check}, maps := Dropped(m, check.tab, check.sessionId))
    case Persist => w.(inFlight := w.inFlight + [SnapshotOf(m)])
    case WriteLands => w.(stored := w.inFlight[0], inFlight := w.inFlight[1..])
    case WriteFails => w.(inFlight := w.inFlight[1..])
    case Restart(readable, valid) =>
      World(if readable then Rehydrated(w.stored, valid) else FRESH, {}, [], w.stored)
  }

  // ---- safety ----

  /** The session under check has not moved to another tab. */
  ghost predicate Settled(m: Maps, check: Check) {
    && (exists n: nat | n < m.nextSession :: check.sessionId == SessionName(n))
    && forall u | u in m.tabs && u != check.tab :: SessionOf(m, u) != Some(check.sessionId)
  }

  ghost predicate Safe(w: World) {
    && Consistent(w.maps)
    && (forall check | check in w.checks :: Settled(w.maps, check))
    && (forall i | 0 <= i < |w.inFlight| :: Restorable(w.inFlight[i]))
    && Restorable(w.stored)
  }

  /** No tab is replaced while its session is being validated for another tab. */
  predicate Undisturbed(w: World, step: Step) {
    step.TabReplaced? ==>
      forall check | check in w.checks && check.tab != step.added ::
          SessionOf(w.maps, step.removed) != Some(check.sessionId)
  }

  /** Everything but attaching and replacing only takes tabs away. */
  lemma FewerTabsSettled(m: Maps, n: Maps, check: Check)
    requires Settled(m, check) && m.nextSession <= n.nextSession
    requires forall t :: SessionOf(n, t).Some? ==> SessionOf(n, t) == SessionOf(m, t)
    ensures Settled(n, check)
  {
  }

  lemma AttachSettled(m: Maps, t: TabId, targetId: string, check: Check)
    requires Settled(m, check)
    ensures Settled(Attached(m, t, targetId), check)
  {
    hide SessionName;
    var k: nat :| k < m.nextSession && check.sessionId == SessionName(k);
    if SessionName(k) == SessionName(m.nextSession) { SessionNameInjective(k, m.nextSession); }
  }

  lemma ReplaceSettled(m: Maps, added: TabId, removed: TabId, check: Check)
    requires Settled(m, check) && (check.tab != added ==> SessionOf(m, removed) != Some(check.sessionId))
    ensures Settled(Replaced(m, added, removed), check)
  {
    hide SessionName;
  }

  lemma CheckSettled(m: Maps, t: TabId)
    requires Consistent(m) && SessionOf(m, t).Some?
    ensures Settled(m, Check(t, SessionOf(m, t).value))
  {
    hide SessionName;
  }

  /** The steps that only take tabs away or leave them alone. */
  predicate Subtracts(step: Step) {
    step.Click? || step.ConnectFails? || step.Detach? || step.Navigate? || step.ReattachOver? || step.TabRemoved?
    || step.ChildIn? || step.ChildOut? || step.RelayClosed? || step.CheckFailed?
  }

  lemma SubtractsTabs(w: World, step: Step)
    requires Enabled(w, step) && Subtracts(step)
    ensures forall t | SessionOf(Apply(w, step).maps, t).Some? ::
              SessionOf(Apply(w, step).maps, t) == SessionOf(w.maps, t)
    ensures Apply(w, step).maps.nextSession == w.maps.nextSession
    ensures Apply(w, step).checks <= w.checks
    ensures Apply(w, step).inFlight == w.inFlight && Apply(w, step).stored == w.stored
  {
  }

  lemma SubtractConsistent(w: World, step: Step)
    requires Safe(w) && Enabled(w, step) && Subtracts(step)
    ensures Consistent(Apply(w, step).maps)
  {
    hide SessionName;
    match step
    case Click(t) => DetachKeeps(w.maps, t);
    case Detach(t) => DetachKeeps(w.maps, t);
    case Navigate(t) => DetachKeeps(w.maps, t);
    case TabRemoved(t) => DetachKeeps(w.maps, t);
    case CheckFailed(check) => DropKeepsIff(w.maps, check.tab, check.sessionId);
    case _ =>
  }

  lemma StepKeepsSafe(w: World, step: Step)
    requires Safe(w) && Enabled(w, step) && Undisturbed(w, step)
    ensures Safe(Apply(w, step))
  {
    hide SessionName, Consistent, Settled, Attached, Replaced, Clicked, Detached, Navigated, Removed, Dropped,
      Restorable;
    if Subtracts(step) {
      SubtractsTabs(w, step);
      SubtractConsistent(w, step);
      forall check | check in w.checks ensures Settled(Apply(w, step).maps, check) {
        FewerTabsSettled(w.maps, Apply(w, step).maps, check);
      }
    } else {
      match step
      case AttachDone(t, targetId) =>
        AttachKeeps(w.maps, t, targetId);
        forall check | check in w.checks ensures Settled(Apply(w, step).maps, check) {
          AttachSettled(w.maps, t, targetId, check);
        }
      case TabReplaced(added, removed) =>
        ReplaceKeeps(w.maps, added, removed);
        forall check | check in w.checks ensures Settled(Apply(w, step).maps, check) {
          ReplaceSettled(w.maps, added, removed, check);
        }
      case CheckTab(t) => CheckSettled(w.maps, t);
      case Persist => SnapshotRestorable(w.maps);
      case Restart(readable, valid) => RehydrateKeeps(w.stored, valid); FreshConsistent();
      case _ =>
    }
  }

  lemma FreshConsistent()
    ensures Consistent(FRESH) && Restorable(START.stored)
  {
  }

  /** The worlds a run passes through. */
  ghost predicate Run(w: World, steps: seq<Step>, last: World)
    decreases |steps|
  {
    if steps == [] then last == w
    else Enabled(w, steps[0]) && Run(Apply(w, steps[0]), steps[1..], last)
  }

  ghost predicate QuietRun(w: World, steps: seq<Step>)
    decreases |steps|
  {
    steps == [] || (Enabled(w, steps[0]) && Undisturbed(w, steps[0]) && QuietRun(Apply(w, steps[0]), steps[1..]))
  }

  lemma {:induction false} RunKeepsSafe(w: World, steps: seq<Step>, last: World)
    requires Safe(w) && Run(w, steps, last) && QuietRun(w, steps)
    ensures Safe(last)
    decreases |steps|
  {
    hide Safe, Undisturbed, Apply, Enabled;
    if steps == [] {
    } else {
      StepKeepsSafe(w, steps[0]);
      RunKeepsSafe(Apply(w, steps[0]), steps[1..], last);
    }
  }

  /** In every run from the start in which no tab is replaced while its session
      is being validated: an attached tab is found through its session, no two
      tabs share a session, and every live or stored session number is below
      the counter kept with it. */
  lemma TabsAreFound(steps: seq<Step>, last: World)
    requires Run(START, steps, last) && QuietRun(START, steps)
    ensures forall t | SessionOf(last.maps, t).Some? ::
              TabBySessionId(last.maps, SessionOf(last.maps, t).value) == Main(t) <==> t != 0
    ensures forall t, u | SessionOf(last.maps, t).Some? && SessionOf(last.maps, t) == SessionOf(last.maps, u) :: t == u
    ensures forall t | SessionOf(last.maps, t).Some? :: Tracked(last.maps.tabs[t], last.maps.nextSession)
    ensures Restorable(last.stored)
  {
    hide SessionName;
    FreshConsistent();
    RunKeepsSafe(START, steps, last);
  }

  /** Replacing a tab while it is validated loses it: the run ends with tab 2
      attached and its session leading nowhere. */
  lemma ReplacedDuringCheck(last: World)
    requires Run(START, [AttachDone(1, "T"), CheckTab(1), TabReplaced(2, 1), CheckFailed(Check(1, SessionName(1)))],
                 last)
    ensures SessionOf(last.maps, 2) == Some(SessionName(1))
    ensures TabBySessionId(last.maps, SessionName(1)) == Nothing
  {
    hide SessionName;
    var a := Apply(START, AttachDone(1, "T"));
    var b := Apply(a, CheckTab(1));
    var c := Apply(b, TabReplaced(2, 1));
    var d := Apply(c, CheckFailed(Check(1, SessionName(1))));
    var steps := [AttachDone(1, "T"), CheckTab(1), TabReplaced(2, 1), CheckFailed(Check(1, SessionName(1)))];
    assert Run(START, steps, last) == Run(a, steps[1..], last);
    assert Run(a, steps[1..], last) == Run(b, steps[1..][1..], last);
    assert steps[1..][1..] == steps[2..] && steps[2..][1..] == steps[3..];
    assert Run(b, steps[2..], last) == Run(c, steps[3..], last);
    assert Run(c, steps[3..], last) == Run(d, [], last);
  }

  // ---- the counter ----

  /** Nothing stored or being written is ahead of the counter. */
  ghost predicate CounterAhead(w: World) {
    && w.maps.nextSession >= 1
    && w.stored.nextSession <= w.maps.nextSession
    && forall i | 0 <= i < |w.inFlight| :: w.inFlight[i].nextSession <= w.maps.nextSession
  }

  /** Only a restart that cannot read the storage puts the counter back. */
  lemma CounterStepIff(w: World, step: Step)
    requires CounterAhead(w) && Enabled(w, step)
    ensures CounterAhead(Apply(w, step)) <==> !(step.Restart? && !step.readable && w.stored.nextSession > 1)
  {
    hide SessionName;
  }

  lemma {:induction false} CounterRun(w: World, steps: seq<Step>, last: World)
    requires CounterAhead(w) && Run(w, steps, last)
    requires forall i | 0 <= i < |steps| :: !(steps[i].Restart? && !steps[i].readable)
    ensures CounterAhead(last)
    decreases |steps|
  {
    hide CounterAhead, Apply, Enabled;
    if steps == [] {
    } else {
      CounterStepIff(w, steps[0]);
      CounterRun(Apply(w, steps[0]), steps[1..], last);
    }
  }

  /** With readable storage every stored session number is below the counter. */
  lemma StoredBelowCounter(steps: seq<Step>, last: World, t: TabId)
    requires Run(START, steps, last) && QuietRun(START, steps)
    requires forall i | 0 <= i < |steps| :: !(steps[i].Restart? && !steps[i].readable)
    requires t in last.stored.entries
    ensures Tracked(last.stored.entries[t], last.maps.nextSession)
  {
    hide SessionName;
    CounterRun(START, steps, last);
    TabsAreFound(steps, last);
  }

  // ---- child sessions ----

  ghost predicate ChildrenTracked(m: Maps) { forall c | c in m.children :: m.children[c] in m.tabs }

  /** Exactly the drops that do not sweep leave child sessions behind. */
  lemma ChildrenStepIff(w: World, step: Step)
    requires ChildrenTracked(w.maps) && Enabled(w, step)
    ensures ChildrenTracked(Apply(w, step).maps) <==>
            match step
            case ConnectFails(t) => t !in w.maps.children.Values
            case CheckFailed(check) => check.tab !in w.maps.children.Values
            case _ => true
  {
    hide SessionName, Distinct;
    match step
    case ConnectFails(t) => SweepMatters(w.maps, Apply(w, step).maps, t);
    case CheckFailed(check) => SweepMatters(w.maps, Apply(w, step).maps, check.tab);
    case Restart(_, _) =>
    case _ =>
  }

  lemma SweepMatters(m: Maps, n: Maps, t: TabId)
    requires ChildrenTracked(m) && n.children == m.children && n.tabs == m.tabs - {t}
    ensures ChildrenTracked(n) <==> t !in m.children.Values
  {
    if t in m.children.Values {
      var c :| c in m.children && m.children[c] == t;
      assert n.children[c] !in n.tabs;
    }
  }
}
