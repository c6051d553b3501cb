/** The tab bookkeeping of the browser relay extension
    (assets/chrome-extension/background.js), as a state machine. */
module RelayTabs {
  import opened Text

  type TabId = nat
  type SessionId = string

  datatype Tab = Connecting | Connected(sessionId: SessionId, targetId: string, attachOrder: nat)

  /** The module-level maps. */
  datatype Maps = Maps(tabs: map<TabId, Tab>, bySession: map<SessionId, TabId>, children: map<SessionId, TabId>,
                       reattaching: set<TabId>, nextSession: nat)

  /** What persistState writes: the attached tabs, keyed by id. */
  datatype Snapshot = Snapshot(entries: map<TabId, Tab>, nextSession: nat)

  const FRESH := Maps(map[], map[], map[], {}, 1)

  function SessionName(n: nat): SessionId { "cb-tab-" + Decimal(n) }

  lemma SessionNameInjective(m: nat, n: nat)
    requires SessionName(m) == SessionName(n)
    ensures m == n
  {
    assert Decimal(m) == SessionName(m)[7..] && Decimal(n) == SessionName(n)[7..];
    DecimalInjective(m, n);
  }

  // ---- the handlers' map updates ----

  function SessionOf(m: Maps, t: TabId): Option<SessionId> {
    if t in m.tabs && m.tabs[t].Connected? then Some(m.tabs[t].sessionId) else None
  }

  function WithoutChildrenOf(children: map<SessionId, TabId>, t: TabId): map<SessionId, TabId> {
    map c | c in children && children[c] != t :: children[c]
  }

  function WithoutSession(m: Maps, s: Option<SessionId>): map<SessionId, TabId> {
    if s.Some? then m.bySession - {s.value} else m.bySession
  }

  function Attached(m: Maps, t: TabId, targetId: string): Maps {
    var s := SessionName(m.nextSession);
    m.(tabs := m.tabs[t := Connected(s, targetId, m.nextSession)], bySession := m.bySession[s := t],
       nextSession := m.nextSession + 1)
  }

  function Detached(m: Maps, t: TabId): Maps {
    m.(children := WithoutChildrenOf(m.children, t), bySession := WithoutSession(m, SessionOf(m, t)),
       tabs := m.tabs - {t})
  }

  function Navigated(m: Maps, t: TabId): Maps {
    if t in m.reattaching then m else Detached(m, t).(reattaching := m.reattaching + {t})
  }

  function Removed(m: Maps, t: TabId): Maps {
    var quiet := m.(reattaching := m.reattaching - {t});
    if t !in m.tabs then quiet else Detached(quiet, t)
  }

  function Replaced(m: Maps, added: TabId, removed: TabId): Maps {
    if removed !in m.tabs then m
    else
      var tab := m.tabs[removed];
      m.(tabs := (m.tabs - {removed})[added := tab],
         bySession := if tab.Connected? then m.bySession[tab.sessionId := added] else m.bySession,
         children := MovedChildren(m.children, added, removed))
  }

  function MovedChildren(children: map<SessionId, TabId>, added: TabId, removed: TabId): map<SessionId, TabId> {
    map c | c in children :: if children[c] == removed then added else children[c]
  }

  /** The toolbar button. */
  function Clicked(m: Maps, t: TabId): Maps {
    if t == 0 then m
    else if t in m.reattaching then m.(reattaching := m.reattaching - {t})
    else if t in m.tabs && m.tabs[t].Connected? then Detached(m, t)
    else m.(tabs := m.tabs[t := Connecting])
  }

  /** Connecting failed: the tab is forgotten, and nothing else. */
  function Unconnected(m: Maps, t: TabId): Maps { m.(tabs := m.tabs - {t}) }

  /** Reannouncing found the tab gone: the session is the one read before. */
  function Dropped(m: Maps, t: TabId, s: SessionId): Maps {
    m.(tabs := m.tabs - {t}, bySession := m.bySession - {s})
  }

  function ChildAttached(m: Maps, t: TabId, c: SessionId): Maps {
    if t == 0 || SessionOf(m, t).None? then m else m.(children := m.children[c := t])
  }

  function ChildDetached(m: Maps, t: TabId, c: SessionId): Maps {
    if t == 0 || SessionOf(m, t).None? then m else m.(children := m.children - {c})
  }

  function SnapshotOf(m: Maps): Snapshot {
    Snapshot(map t | t in m.tabs && m.tabs[t].Connected? && m.tabs[t].sessionId != "" && m.tabs[t].targetId != "" ::
               m.tabs[t],
             m.nextSession)
  }

  function Max(a: nat, b: nat): nat { if a < b then b else a }

  predicate Distinct(tabs: map<TabId, Tab>) {
    && (forall t | t in tabs :: tabs[t].Connected?)
    && (forall t, u | t in tabs && u in tabs && tabs[t].sessionId == tabs[u].sessionId :: t == u)
  }

  function Inverse(tabs: map<TabId, Tab>): map<SessionId, TabId>
    requires Distinct(tabs)
  {
    map t | t in tabs :: tabs[t].sessionId := t
  }

  /** The entries whose tabs are in `ids`. */
  function Kept(entries: map<TabId, Tab>, ids: set<TabId>): map<TabId, Tab> {
    map t | t in entries && t in ids :: entries[t]
  }

  lemma KeptIs(entries: map<TabId, Tab>, ids: set<TabId>, tabs: map<TabId, Tab>)
    requires forall t :: t in tabs <==> t in entries && t in ids
    requires forall t | t in tabs :: tabs[t] == entries[t]
    ensures tabs == Kept(entries, ids)
  {
  }

  lemma KeptDistinct(entries: map<TabId, Tab>, ids: set<TabId>)
    requires Distinct(entries)
    ensures Distinct(Kept(entries, ids))
  {
  }

  /** `index` leads from each session to its tab and knows no other session. */
  ghost predicate Inverts(index: map<SessionId, TabId>, tabs: map<TabId, Tab>) {
    && (forall t | t in tabs :: tabs[t].Connected? && tabs[t].sessionId in index && index[tabs[t].sessionId] == t)
    && (forall s | s in index :: index[s] in tabs && tabs[index[s]].Connected? && tabs[index[s]].sessionId == s)
  }

  lemma InvertsDrops(index: map<SessionId, TabId>, tabs: map<TabId, Tab>, t: TabId)
    requires Inverts(index, tabs) && t in tabs
    ensures tabs[t].Connected? && Inverts(index - {tabs[t].sessionId}, tabs - {t})
  {
  }

  lemma InvertsIsInverse(index: map<SessionId, TabId>, tabs: map<TabId, Tab>)
    requires Distinct(tabs) && Inverts(index, tabs)
    ensures index == Inverse(tabs)
  {
    forall s | s in index ensures s in Inverse(tabs) && Inverse(tabs)[s] == index[s] {
      assert index[s] in tabs;
    }
  }

  /** Start of the service worker: restore, then drop the tabs not found. */
  function Rehydrated(stored: Snapshot, valid: set<TabId>): Maps
    requires Distinct(stored.entries)
  {
    var kept := Kept(stored.entries, valid);
    FRESH.(tabs := kept, bySession := Inverse(kept), nextSession := Max(1, stored.nextSession))
  }

  // ---- looking up a session ----

  datatype Found = Main(tab: TabId) | Child(tab: TabId) | Nothing

  function TabBySessionId(m: Maps, s: SessionId): Found {
    if s in m.bySession && m.bySession[s] != 0 then Main(m.bySession[s])
    else if s in m.children && m.children[s] != 0 then Child(m.children[s])
    else Nothing
  }

  // ---- invariants ----

  predicate Tracked(t: Tab, bound: nat) {
    t.Connected? && t.targetId != "" && 1 <= t.attachOrder < bound && t.sessionId == SessionName(t.attachOrder)
  }

  /** Every attached tab is found through its session. */
  ghost predicate Consistent(m: Maps) {
    && m.nextSession >= 1
    && (forall t | t in m.tabs && m.tabs[t].Connected? :: Tracked(m.tabs[t], m.nextSession))
    && (forall t | t in m.tabs && m.tabs[t].Connected? ::
          m.tabs[t].sessionId in m.bySession && m.bySession[m.tabs[t].sessionId] == t)
  }

  ghost predicate Restorable(s: Snapshot) {
    Distinct(s.entries) && forall t | t in s.entries :: Tracked(s.entries[t], s.nextSession)
  }

  lemma AttachKeeps(m: Maps, t: TabId, targetId: string)
    requires Consistent(m) && targetId != ""
    ensures Consistent(Attached(m, t, targetId))
  {
    hide SessionName;
    forall u | u in m.tabs && m.tabs[u].Connected? ensures m.tabs[u].sessionId != SessionName(m.nextSession) {
      if m.tabs[u].sessionId == SessionName(m.nextSession) {
        SessionNameInjective(m.tabs[u].attachOrder, m.nextSession);
      }
    }
  }

  lemma DetachKeeps(m: Maps, t: TabId)
    requires Consistent(m)
    ensures Consistent(Detached(m, t))
  {
    hide SessionName;
  }

  lemma ReplaceKeeps(m: Maps, added: TabId, removed: TabId)
    requires Consistent(m)
    ensures Consistent(Replaced(m, added, removed))
  {
    hide SessionName;
  }

  /** A reannounce drop keeps the maps consistent exactly when no other tab
      has the session that was read before the tab was validated. */
  lemma DropKeepsIff(m: Maps, t: TabId, s: SessionId)
    requires Consistent(m)
    ensures Consistent(Dropped(m, t, s)) <==> forall u | u in m.tabs && u != t :: SessionOf(m, u) != Some(s)
  {
    hide SessionName;
    var after := Dropped(m, t, s);
    if u :| u in m.tabs && u != t && SessionOf(m, u) == Some(s) {
      assert u in after.tabs && after.tabs[u].sessionId !in after.bySession;
    }
  }

  lemma SnapshotRestorable(m: Maps)
    requires Consistent(m)
    ensures Restorable(SnapshotOf(m))
  {
    hide SessionName;
  }

  lemma RehydrateKeeps(stored: Snapshot, valid: set<TabId>)
    requires Restorable(stored)
    ensures Consistent(Rehydrated(stored, valid)) && stored.nextSession <= Rehydrated(stored, valid).nextSession
  {
    hide SessionName;
  }

  lemma SessionNonEmpty(n: nat)
    ensures SessionName(n) != ""
  {
    assert |SessionName(n)| >= 7;
  }

  /** After a restart from an up-to-date snapshot exactly the attached tabs
      that are still there are attached, each under its session and under
      nothing else; the counter goes on where it stood. */
  lemma RestartRestores(m: Maps, valid: set<TabId>)
    requires Consistent(m)
    ensures Restorable(SnapshotOf(m))
    ensures var r := Rehydrated(SnapshotOf(m), valid);
            && (forall t :: t in r.tabs <==> t in valid && SessionOf(m, t).Some?)
            && (forall t | t in r.tabs :: r.tabs[t] == m.tabs[t])
            && (forall s :: s in r.bySession <==> exists t | t in valid :: SessionOf(m, t) == Some(s))
            && (forall s | s in r.bySession :: m.bySession[s] == r.bySession[s])
            && r.nextSession == m.nextSession && r.children == map[]
  {
    SnapshotRestorable(m);
    hide SessionName;
    forall t | t in m.tabs && m.tabs[t].Connected? ensures m.tabs[t].sessionId != "" {
      SessionNonEmpty(m.tabs[t].attachOrder);
    }
    var r := Rehydrated(SnapshotOf(m), valid);
    forall s | exists t | t in valid :: SessionOf(m, t) == Some(s) ensures s in r.bySession {
      var t :| t in valid && SessionOf(m, t) == Some(s);
      assert t in r.tabs;
    }
  }

  /** The session of an attached tab leads back to it; tab id 0 is never found
      as a main session. */
  lemma SessionLeadsBack(m: Maps, t: TabId)
    requires Consistent(m) && SessionOf(m, t).Some?
    ensures TabBySessionId(m, SessionOf(m, t).value) == Main(t) <==> t != 0
  {
  }

  /** A connect that fails lets go of the tab as a detach does if and only if the
      tab has neither session nor children. When the session was registered
      before announcing it failed, it goes on leading to the forgotten tab. */
  lemma FailedConnectIff(m: Maps, t: TabId)
    requires Consistent(m)
    ensures Consistent(Unconnected(m, t)) && SessionOf(Unconnected(m, t), t).None?
    ensures Unconnected(m, t) == Detached(m, t) <==> SessionOf(m, t).None? && t !in m.children.Values
    ensures SessionOf(m, t).Some? ==>
              && (TabBySessionId(Unconnected(m, t), SessionOf(m, t).value) == Main(t) <==> t != 0)
              && TabBySessionId(Detached(m, t), SessionOf(m, t).value) != Main(t)
  {
    hide SessionName;
    var a, b := Unconnected(m, t), Detached(m, t);
    if t in m.children.Values {
      var c :| c in m.children && m.children[c] == t;
      assert c in a.children && c !in b.children;
    } else {
      assert a.children == b.children;
    }
  }
}
