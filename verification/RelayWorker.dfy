/** The service worker's mutable maps and the handlers that update them
    (assets/chrome-extension/background.js). Each handler is the synchronous
    stretch of code between two awaits. */
module RelayWorker {
  import opened Text
  import opened RelayTabs

  class Worker {
    var nextSession: nat
    var tabs: map<TabId, Tab>
    var tabBySession: map<SessionId, TabId>
    var childSessionToTab: map<SessionId, TabId>
    var reattachPending: set<TabId>

    ghost function View(): Maps
      reads this
    {
      Maps(tabs, tabBySession, childSessionToTab, reattachPending, nextSession)
    }

    constructor ()
      ensures View() == FRESH
    {
      nextSession := 1;
      tabs, tabBySession, childSessionToTab, reattachPending := map[], map[], map[], {};
    }

    method SweepChildren(tabId: TabId)
      modifies this`childSessionToTab
      ensures childSessionToTab == WithoutChildrenOf(old(childSessionToTab), tabId)
    {
      var todo := childSessionToTab.Keys;
      ghost var before := childSessionToTab;
      while todo != {}
        invariant todo <= before.Keys
        invariant childSessionToTab == map c | c in before && (c in todo || before[c] != tabId) :: before[c]
        decreases |todo|
      {
        var childSessionId :| childSessionId in todo;
        todo := todo - {childSessionId};
        if childSessionToTab[childSessionId] == tabId {
          childSessionToTab := childSessionToTab - {childSessionId};
        }
      }
    }

    /** The second half of attachTab. `sent` is whether announcing the session
        to the relay succeeded: when it did not, the maps are set all the same. */
    method AttachTab(tabId: TabId, info: Option<string>, skipAttachedEvent: bool, sent: bool)
      returns (sessionId: Option<SessionId>)
      modifies this
      ensures View() == if info.None? || info.value == "" then old(View()) else Attached(old(View()), tabId, info.value)
      ensures sessionId.Some? <==> info.Some? && info.value != "" && (skipAttachedEvent || sent)
      ensures sessionId.Some? ==> sessionId == SessionOf(View(), tabId)
    {
      if info.None? || info.value == "" {
        return None;
      }
      var sid := nextSession;
      nextSession := nextSession + 1;
      tabs := tabs[tabId := Connected(SessionName(sid), info.value, sid)];
      tabBySession := tabBySession[SessionName(sid) := tabId];
      if !skipAttachedEvent && !sent {
        return None;
      }
      return Some(SessionName(sid));
    }

    method DetachTab(tabId: TabId)
      modifies this
      ensures View() == Detached(old(View()), tabId)
    {
      SweepChildren(tabId);
      ForgetTab(tabId);
    }

    /** Drops a tab and the session it has, if any. */
    method ForgetTab(tabId: TabId)
      modifies this`tabs, this`tabBySession
      ensures tabs == old(tabs) - {tabId}
      ensures tabBySession == old(WithoutSession(View(), SessionOf(View(), tabId)))
    {
      if tabId in tabs && tabs[tabId].Connected? {
        tabBySession := tabBySession - {tabs[tabId].sessionId};
      }
      tabs := tabs - {tabId};
    }

    /** onDebuggerDetach, once the tab turned out to be navigating. */
    method BeginReattach(tabId: TabId)
      modifies this
      ensures View() == Navigated(old(View()), tabId)
    {
      if tabId in reattachPending {
        return;
      }
      ForgetTab(tabId);
      SweepChildren(tabId);
      reattachPending := reattachPending + {tabId};
    }

    method OnRemoved(tabId: TabId)
      modifies this
      ensures View() == Removed(old(View()), tabId)
    {
      reattachPending := reattachPending - {tabId};
      if tabId !in tabs {
        return;
      }
      ForgetTab(tabId);
      SweepChildren(tabId);
    }

    method MoveChildren(addedTabId: TabId, removedTabId: TabId)
      modifies this`childSessionToTab
      ensures childSessionToTab == MovedChildren(old(childSessionToTab), addedTabId, removedTabId)
    {
      var todo := childSessionToTab.Keys;
      ghost var before := childSessionToTab;
      while todo != {}
        invariant todo <= before.Keys == childSessionToTab.Keys
        invariant forall c | c in before ::
                    childSessionToTab[c] == if before[c] == removedTabId && c !in todo then addedTabId else before[c]
        decreases |todo|
      {
        var childSessionId :| childSessionId in todo;
        todo := todo - {childSessionId};
        if childSessionToTab[childSessionId] == removedTabId {
          childSessionToTab := childSessionToTab[childSessionId := addedTabId];
        }
      }
    }

    method OnReplaced(addedTabId: TabId, removedTabId: TabId)
      modifies this
      ensures View() == Replaced(old(View()), addedTabId, removedTabId)
    {
      if removedTabId !in tabs {
        return;
      }
      var tab := tabs[removedTabId];
      tabs := tabs - {removedTabId};
      tabs := tabs[addedTabId := tab];
      if tab.Connected? {
        tabBySession := tabBySession[tab.sessionId := addedTabId];
      }
      MoveChildren(addedTabId, removedTabId);
    }

    /** The synchronous part of the toolbar button. */
    method ToggleTab(tabId: TabId) returns (connecting: bool)
      modifies this
      ensures View() == Clicked(old(View()), tabId)
      ensures connecting <==> tabId != 0 && tabId !in old(reattachPending) && old(SessionOf(View(), tabId)).None?
    {
      if tabId == 0 {
        return false;
      }
      if tabId in reattachPending {
        reattachPending := reattachPending - {tabId};
        return false;
      }
      if tabId in tabs && tabs[tabId].Connected? {
        DetachTab(tabId);
        return false;
      }
      tabs := tabs[tabId := Connecting];
      return true;
    }

    method ConnectFailed(tabId: TabId)
      modifies this
      ensures View() == Unconnected(old(View()), tabId)
    {
      tabs := tabs - {tabId};
    }

    /** What reannounceAttachedTabs does with a tab it could not validate. */
    method DropTab(tabId: TabId, tab: Tab)
      requires tab.Connected?
      modifies this
      ensures View() == Dropped(old(View()), tabId, tab.sessionId)
    {
      tabs := tabs - {tabId};
      tabBySession := tabBySession - {tab.sessionId};
    }

    method OnChildEvent(tabId: TabId, attached: bool, childSessionId: SessionId)
      requires childSessionId != ""
      modifies this
      ensures View() == if attached then ChildAttached(old(View()), tabId, childSessionId)
                        else ChildDetached(old(View()), tabId, childSessionId)
    {
      if tabId == 0 || tabId !in tabs || !tabs[tabId].Connected? {
        return;
      }
      if attached {
        childSessionToTab := childSessionToTab[childSessionId := tabId];
      } else {
        childSessionToTab := childSessionToTab - {childSessionId};
      }
    }

    method PersistState() returns (snapshot: Snapshot)
      ensures snapshot == SnapshotOf(View())
    {
      var tabEntries: map<TabId, Tab> := map[];
      var todo := tabs.Keys;
      while todo != {}
        invariant todo <= tabs.Keys
        invariant tabEntries == map t | t in tabs && t !in todo && tabs[t].Connected?
                                  && tabs[t].sessionId != "" && tabs[t].targetId != "" :: tabs[t]
        decreases |todo|
      {
        var tabId :| tabId in todo;
        todo := todo - {tabId};
        var tab := tabs[tabId];
        if tab.Connected? && tab.sessionId != "" && tab.targetId != "" {
          tabEntries := tabEntries[tabId := tab];
        }
      }
      return Snapshot(tabEntries, nextSession);
    }

    /** Startup: `stored` is none when the storage cannot be read, `valid` holds
        the tabs that validation finds attached. */
    method RehydrateState(stored: Option<Snapshot>, valid: set<TabId>)
      requires View() == FRESH
      requires stored.Some? ==> Distinct(stored.value.entries)
      modifies this
      ensures View() == if stored.None? then FRESH else Rehydrated(stored.value, valid)
    {
      if stored.None? {
        return;
      }
      if stored.value.nextSession != 0 {
        nextSession := Max(nextSession, stored.value.nextSession);
      }
      RestoreEntries(stored.value.entries);
      DropMissing(stored.value.entries, valid);
      KeptDistinct(stored.value.entries, valid);
      InvertsIsInverse(tabBySession, tabs);
    }

    method RestoreEntries(entries: map<TabId, Tab>)
      requires Distinct(entries) && tabs == map[] && tabBySession == map[]
      modifies this`tabs, this`tabBySession
      ensures tabs == entries && Inverts(tabBySession, entries)
    {
      var todo := entries.Keys;
      while todo != {}
        invariant todo <= entries.Keys
        invariant tabs.Keys == entries.Keys - todo
        invariant forall t | t in tabs :: tabs[t] == entries[t]
        invariant Inverts(tabBySession, tabs)
        decreases |todo|
      {
        var tabId :| tabId in todo;
        todo := todo - {tabId};
        tabs := tabs[tabId := entries[tabId]];
        tabBySession := tabBySession[entries[tabId].sessionId := tabId];
      }
    }

    method DropMissing(entries: map<TabId, Tab>, valid: set<TabId>)
      requires Distinct(entries) && tabs == entries && Inverts(tabBySession, entries)
      modifies this`tabs, this`tabBySession
      ensures tabs == Kept(entries, valid) && Inverts(tabBySession, tabs)
    {
      hide Kept, Inverts, Distinct;
      var todo := entries.Keys;
      while todo != {}
        invariant todo <= entries.Keys
        invariant forall t :: t in tabs <==> t in entries && (t in todo || t in valid)
        invariant forall t | t in tabs :: tabs[t] == entries[t]
        invariant Inverts(tabBySession, tabs)
        decreases |todo|
      {
        var tabId :| tabId in todo;
        todo := todo - {tabId};
        if tabId !in valid {
          InvertsDrops(tabBySession, tabs, tabId);
          tabs := tabs - {tabId};
          tabBySession := tabBySession - {entries[tabId].sessionId};
        }
      }
      KeptIs(entries, valid, tabs);
    }

    method GetTabBySessionId(sessionId: SessionId) returns (found: Found)
      ensures found == TabBySessionId(View(), sessionId)
    {
      if sessionId in tabBySession && tabBySession[sessionId] != 0 {
        return Main(tabBySession[sessionId]);
      }
      if sessionId in childSessionToTab && childSessionToTab[sessionId] != 0 {
        return Child(childSessionToTab[sessionId]);
      }
      return Nothing;
    }
  }
}
