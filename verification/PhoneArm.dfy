/** Arming phone commands and undoing it (extensions/phone-control/index.ts). */
module PhoneArm {
  import opened Text
  import opened SessionKeys

  // ---- sorted lists ----

  /** The order of `toSorted()`. */
  predicate Less(a: string, b: string) {
    b != "" && (a == "" || a[0] < b[0] || (a[0] == b[0] && Less(a[1..], b[1..])))
  }

  lemma {:induction false} LessTrans(a: string, b: string, c: string)
    requires Less(a, b) && Less(b, c)
    ensures Less(a, c)
  {
    if a != "" && a[0] == b[0] && b[0] == c[0] { LessTrans(a[1..], b[1..], c[1..]); }
  }

  lemma {:induction false} LessTotal(a: string, b: string)
    ensures Less(a, b) || a == b || Less(b, a)
    ensures !Less(a, a) && !(Less(a, b) && Less(b, a))
  {
    if a == "" {
    } else {
      LessTotal(a[1..], if b == "" then "" else b[1..]);
      if b != "" { assert a == [a[0]] + a[1..] && b == [b[0]] + b[1..]; }
    }
  }

  predicate Sorted(s: seq<string>) { forall i, j | 0 <= i < j < |s| :: Less(s[i], s[j]) }

  function Elements(s: seq<string>): set<string> { set i | 0 <= i < |s| :: s[i] }

  lemma NoElements(s: seq<string>)
    ensures Elements(s) == {} <==> s == []
  {
    if s != [] { assert s[0] in Elements(s); }
  }

  /** A set of strings has one sorted list. */
  lemma {:induction false} SortedUnique(s: seq<string>, t: seq<string>)
    requires Sorted(s) && Sorted(t) && Elements(s) == Elements(t)
    ensures s == t
  {
    if s == [] {
      NoElements(t);
    } else {
      assert s[0] in Elements(t);
      HeadsEqual(s, t);
      assert s == [s[0]] + s[1..] && t == [t[0]] + t[1..];
      TailElements(s);
      TailElements(t);
      SortedUnique(s[1..], t[1..]);
    }
  }

  lemma HeadLeast(s: seq<string>, x: string)
    requires Sorted(s) && x in Elements(s)
    ensures s != [] && (x == s[0] || Less(s[0], x))
  {
    hide Less;
    var i :| 0 <= i < |s| && s[i] == x;
  }

  lemma HeadsEqual(s: seq<string>, t: seq<string>)
    requires Sorted(s) && Sorted(t) && Elements(s) == Elements(t) && s != []
    ensures t != [] && s[0] == t[0]
  {
    assert s[0] in Elements(s);
    HeadLeast(t, s[0]);
    assert t[0] in Elements(t);
    HeadLeast(s, t[0]);
    LessTotal(s[0], t[0]);
    hide Less;
  }

  lemma TailElements(s: seq<string>)
    requires Sorted(s) && s != []
    ensures Elements(s[1..]) == Elements(s) - {s[0]} && Sorted(s[1..])
  {
    forall x | x in Elements(s) && x != s[0] ensures x in Elements(s[1..]) {
      var i :| 0 <= i < |s| && s[i] == x;
      assert s[1..][i - 1] == x;
    }
    forall x | x in Elements(s[1..]) ensures x in Elements(s) && x != s[0] {
      var i :| 0 <= i < |s[1..]| && s[1..][i] == x;
      assert s[i + 1] == x && Less(s[0], s[i + 1]);
      LessTotal(x, x);
    }
    hide Less;
  }

  function Insert(x: string, s: seq<string>): seq<string> {
    if s == [] || Less(x, s[0]) then [x] + s else if x == s[0] then s else [s[0]] + Insert(x, s[1..])
  }

  lemma {:induction false} InsertSorted(x: string, s: seq<string>)
    requires Sorted(s)
    ensures Sorted(Insert(x, s)) && Elements(Insert(x, s)) == Elements(s) + {x}
  {
    if s == [] {
      assert Insert(x, s) == [x];
      assert Elements([x]) == {x} by { assert [x][0] == x; }
    } else {
      LessTotal(x, s[0]);
      if Less(x, s[0]) {
        ConsSorted(x, s);
      } else if x == s[0] {
        assert s[0] in Elements(s);
      } else {
        TailElements(s);
        InsertSorted(x, s[1..]);
        LeastBelow(s[0], s, x);
        ConsSorted(s[0], Insert(x, s[1..]));
        assert s[0] in Elements(s);
      }
    }
  }

  lemma LeastBelow(least: string, s: seq<string>, x: string)
    requires Sorted(s) && s != [] && s[0] == least && Less(least, x)
    ensures forall y | y in Elements(s[1..]) + {x} :: Less(least, y)
  {
    forall y | y in Elements(s[1..]) ensures Less(least, y) {
      var i :| 0 <= i < |s[1..]| && s[1..][i] == y;
      assert s[i + 1] == y;
    }
    hide Less;
  }

  lemma ConsSorted(x: string, s: seq<string>)
    requires Sorted(s) && (s != [] ==> Less(x, s[0]) || forall y | y in Elements(s) :: Less(x, y))
    ensures Sorted([x] + s) && Elements([x] + s) == Elements(s) + {x}
  {
    forall j | 0 <= j < |s| ensures Less(x, s[j]) {
      assert s[j] in Elements(s);
      if j > 0 && Less(x, s[0]) { LessTrans(x, s[0], s[j]); }
    }
    hide Less;
    forall y | y in Elements(s) ensures y in Elements([x] + s) {
      var i :| 0 <= i < |s| && s[i] == y;
      assert ([x] + s)[i + 1] == y;
    }
    forall y | y in Elements([x] + s) ensures y in Elements(s) + {x} {
      var i :| 0 <= i < |[x] + s| && ([x] + s)[i] == y;
      if i > 0 { assert s[i - 1] == y; }
    }
    assert ([x] + s)[0] == x;
  }

  /** The trimmed strings that are not empty. */
  function Names(values: seq<string>): set<string> {
    set i | 0 <= i < |values| && TrimJs(values[i]) != "" :: TrimJs(values[i])
  }

  function UniqSorted(values: seq<string>): seq<string> {
    if values == [] then []
    else
      var n := |values| - 1;
      var rest := UniqSorted(values[..n]);
      if TrimJs(values[n]) == "" then rest else Insert(TrimJs(values[n]), rest)
  }

  /** Sorted, without duplicates, and with just the names. */
  lemma {:induction false} UniqSortedIs(values: seq<string>)
    ensures Sorted(UniqSorted(values)) && Elements(UniqSorted(values)) == Names(values)
  {
    hide TrimJs, Less;
    if values == [] {
    } else {
      var n := |values| - 1;
      UniqSortedIs(values[..n]);
      NamesSnoc(values[..n], values[n]);
      assert values[..n] + [values[n]] == values;
      InsertSorted(TrimJs(values[n]), UniqSorted(values[..n]));
      hide Names, Insert, Sorted, Elements;
    }
  }

  lemma NamesSnoc(values: seq<string>, v: string)
    ensures Names(values + [v]) == Names(values) + if TrimJs(v) == "" then {} else {TrimJs(v)}
  {
    hide TrimJs;
    var all := values + [v];
    forall x | x in Names(values) ensures x in Names(all) {
      var i :| 0 <= i < |values| && TrimJs(values[i]) != "" && TrimJs(values[i]) == x;
      assert all[i] == values[i];
    }
    assert all[|values|] == v;
    forall x | x in Names(all) ensures x in Names(values) || (TrimJs(v) != "" && x == TrimJs(v)) {
      var i :| 0 <= i < |all| && TrimJs(all[i]) != "" && TrimJs(all[i]) == x;
      if i < |values| { assert values[i] == all[i]; }
    }
  }

  /** A list is canonical for its names. */
  lemma CanonicalForm(values: seq<string>, others: seq<string>)
    ensures UniqSorted(values) == UniqSorted(others) <==> Names(values) == Names(others)
  {
    UniqSortedIs(values);
    UniqSortedIs(others);
    hide Names, UniqSorted, Elements;
    if Names(values) == Names(others) { SortedUnique(UniqSorted(values), UniqSorted(others)); }
  }

  // ---- arming ----

  datatype Group = Camera | Screen | Writes | All

  function CommandsOf(group: Group): seq<string> {
    match group
    case Camera => UniqSorted(["camera.snap", "camera.clip"])
    case Screen => UniqSorted(["screen.record"])
    case Writes => UniqSorted(["calendar.add", "contacts.add", "reminders.add", "sms.send"])
    case All => UniqSorted(["camera.snap", "camera.clip", "screen.record", "calendar.add", "contacts.add",
                            "reminders.add", "sms.send"])
  }

  /** The lists of the configuration file. */
  datatype Lists = Lists(allow: seq<string>, deny: seq<string>)

  datatype Undo =
    | UndoV1(expiresAtMs: Option<int>, removedFromDeny: seq<string>)
    | UndoV2(expiresAtMs: Option<int>, group: Group, addedToAllow: seq<string>, removedFromDeny: seq<string>)

  function AddedOf(undo: Undo): set<string> { if undo.UndoV1? then {} else Elements(undo.addedToAllow) }

  /** What the lists mean: the names that are allowed and denied. */
  datatype Rights = Rights(allowed: set<string>, denied: set<string>)

  function RightsOf(lists: Lists): Rights { Rights(Names(lists.allow), Names(lists.deny)) }

  function ArmedRights(r: Rights, commands: set<string>): Rights { Rights(r.allowed + commands, r.denied - commands) }

  function DisarmedRights(r: Rights, undo: Undo): Rights {
    Rights(r.allowed - AddedOf(undo), r.denied + Names(undo.removedFromDeny))
  }

  /** Nothing that was added is still allowed, and all that was removed is
      denied again. */
  predicate NothingToUndo(r: Rights, undo: Undo) {
    AddedOf(undo) !! r.allowed && Elements(undo.removedFromDeny) <= r.denied
  }

  function Without(s: seq<string>, x: string): seq<string> {
    if s == [] then [] else Without(s[..|s| - 1], x) + if s[|s| - 1] == x then [] else [s[|s| - 1]]
  }

  lemma ElementsSnoc(s: seq<string>, x: string)
    ensures Elements(s + [x]) == Elements(s) + {x}
  {
    forall y | y in Elements(s + [x]) ensures y in Elements(s) + {x} {
      var i :| 0 <= i < |s + [x]| && (s + [x])[i] == y;
      if i < |s| { assert s[i] == y; }
    }
    forall y | y in Elements(s) ensures y in Elements(s + [x]) {
      var i :| 0 <= i < |s| && s[i] == y;
      assert (s + [x])[i] == y;
    }
    assert (s + [x])[|s|] == x;
  }

  lemma {:induction false} WithoutElements(s: seq<string>, x: string)
    ensures Elements(Without(s, x)) == Elements(s) - {x}
  {
    if s == [] {
      assert Elements(s) == {};
    } else {
      var n := |s| - 1;
      WithoutElements(s[..n], x);
      ElementsSnoc(s[..n], s[n]);
      ElementsSnoc(Without(s[..n], x), s[n]);
      assert s[..n] + [s[n]] == s && Without(s[..n], x) + [] == Without(s[..n], x);
      hide Elements;
    }
  }

  predicate IsName(x: string) { x != "" && TrimJs(x) == x }

  lemma NamesAreNames(values: seq<string>)
    ensures forall x | x in Names(values) :: IsName(x)
  {
    forall x | x in Names(values) ensures IsName(x) {
      var i :| 0 <= i < |values| && TrimJs(values[i]) != "" && TrimJs(values[i]) == x;
      TrimTwice(values[i]);
    }
  }

  /** Sorting a list of names changes no name. */
  lemma UniqSortedNames(s: seq<string>)
    requires forall x | x in Elements(s) :: IsName(x)
    ensures Elements(UniqSorted(s)) == Elements(s) == Names(s)
  {
    UniqSortedIs(s);
    NamesOfNames(s);
  }

  lemma NamesOfNames(s: seq<string>)
    requires forall x | x in Elements(s) :: IsName(x)
    ensures Names(s) == Elements(s)
  {
    hide TrimJs;
    forall i | 0 <= i < |s| ensures IsName(s[i]) {
      assert s[i] in Elements(s);
    }
  }

  lemma InElements(s: seq<string>, x: string)
    ensures x in s <==> x in Elements(s)
  {
    if x in s {
      var i :| 0 <= i < |s| && s[i] == x;
    }
  }

  /** The commands of a group are names, as they are read from a list. */
  lemma CommandsAreNames(group: Group)
    ensures forall x | x in Elements(CommandsOf(group)) :: IsName(x)
  {
    var values := match group
      case Camera => ["camera.snap", "camera.clip"]
      case Screen => ["screen.record"]
      case Writes => ["calendar.add", "contacts.add", "reminders.add", "sms.send"]
      case All => ["camera.snap", "camera.clip", "screen.record", "calendar.add", "contacts.add", "reminders.add",
                   "sms.send"];
    hide UniqSorted, IsName, Elements, Names;
    UniqSortedIs(values);
    NamesAreNames(values);
  }

  /** Sorted, trimmed and without duplicates. */
  predicate Canonical(l: Lists) { UniqSorted(l.allow) == l.allow && UniqSorted(l.deny) == l.deny }

  lemma CanonicalIs(s: seq<string>)
    requires Sorted(s) && Elements(s) == Names(s)
    ensures UniqSorted(s) == s
  {
    UniqSortedIs(s);
    hide Names, Elements, Sorted, UniqSorted;
    SortedUnique(UniqSorted(s), s);
  }

  /** The record holds what arming `group` changes in these rights. */
  predicate Records(undo: Undo, before: Rights, group: Group) {
    var commands := Elements(CommandsOf(group));
    && undo.UndoV2? && undo.group == group
    && AddedOf(undo) == commands - before.allowed
    && Elements(undo.removedFromDeny) == commands * before.denied
  }

  datatype Phone = Phone(lists: Lists, undo: Option<Undo>)

  datatype Op = Arm(group: Group, expiresAtMs: int) | Disarm | Tick(now: int) | Edit(lists: Lists)

  ghost predicate Armed(p: Phone, group: Group, expiresAtMs: int, q: Phone) {
    && RightsOf(q.lists) == ArmedRights(RightsOf(p.lists), Elements(CommandsOf(group))) && Canonical(q.lists)
    && q.undo.Some? && Records(q.undo.value, RightsOf(p.lists), group) && q.undo.value.expiresAtMs == Some(expiresAtMs)
  }

  ghost predicate Disarmed(p: Phone, q: Phone) {
    && q.undo == None
    && if p.undo.None? || NothingToUndo(RightsOf(p.lists), p.undo.value) then q.lists == p.lists
       else RightsOf(q.lists) == DisarmedRights(RightsOf(p.lists), p.undo.value) && Canonical(q.lists)
  }

  /** What each operation does. */
  ghost predicate Steps(p: Phone, op: Op, q: Phone) {
    match op
    case Arm(group, expiresAtMs) => Armed(p, group, expiresAtMs, q)
    case Disarm => Disarmed(p, q)
    case Tick(now) =>
      if p.undo.Some? && p.undo.value.expiresAtMs.Some? && now >= p.undo.value.expiresAtMs.value then
        Disarmed(p, q)
      else q == p
    case Edit(lists) => q == p.(lists := lists)
  }

  class PhoneControl {
    var lists: Lists
    /** The undo record, while armed. */
    var undo: Option<Undo>

    constructor (lists: Lists, undo: Option<Undo>)
      ensures this.lists == lists && this.undo == undo
    {
      this.lists := lists;
      this.undo := undo;
    }

    ghost function View(): Phone
      reads this
    {
      Phone(lists, undo)
    }

    method Arm(group: Group, durationMs: nat, now: int)
      modifies this
      ensures RightsOf(lists) == ArmedRights(old(RightsOf(lists)), Elements(CommandsOf(group)))
      ensures Canonical(lists)
      ensures undo.Some? && Records(undo.value, old(RightsOf(lists)), group)
              && undo.value.expiresAtMs == Some(now + durationMs)
      ensures Steps(old(View()), Op.Arm(group, now + durationMs), View())
    {
      hide TrimJs, Less, UniqSorted, Names, Elements, Sorted, IsName;
      var commands := CommandsOf(group);
      CommandsAreNames(group);
      UniqSortedIs(lists.allow);
      UniqSortedIs(lists.deny);
      NamesAreNames(lists.allow);
      NamesAreNames(lists.deny);
      var allowSet, denySet := UniqSorted(lists.allow), UniqSorted(lists.deny);
      var addedToAllow: seq<string>, removedFromDeny: seq<string> := [], [];
      ghost var a, d := Elements(allowSet), Elements(denySet);
      NoElements([]);
      for i := 0 to |commands|
        invariant Elements(allowSet) == a + Elements(commands[..i]) && Elements(denySet) == d - Elements(commands[..i])
        invariant Elements(addedToAllow) == Elements(commands[..i]) - a
        invariant Elements(removedFromDeny) == Elements(commands[..i]) * d
      {
        var cmd := commands[i];
        assert commands[..i + 1] == commands[..i] + [cmd];
        ElementsSnoc(commands[..i], cmd);
        InElements(allowSet, cmd);
        InElements(denySet, cmd);
        if cmd !in allowSet {
          ElementsSnoc(allowSet, cmd);
          ElementsSnoc(addedToAllow, cmd);
          allowSet := allowSet + [cmd];
          addedToAllow := addedToAllow + [cmd];
        }
        if cmd in denySet {
          WithoutElements(denySet, cmd);
          ElementsSnoc(removedFromDeny, cmd);
          denySet := Without(denySet, cmd);
          removedFromDeny := removedFromDeny + [cmd];
        }
      }
      assert commands[..|commands|] == commands;
      NamesOfNames(allowSet);
      NamesOfNames(denySet);
      WriteLists(allowSet, denySet);
      UniqSortedNames(addedToAllow);
      UniqSortedNames(removedFromDeny);
      undo := Some(UndoV2(Some(now + durationMs), group, UniqSorted(addedToAllow), UniqSorted(removedFromDeny)));
    }

    /** Undoes what the record says; the file is written only on a change. */
    method DisarmNow() returns (changed: bool)
      modifies this
      ensures undo == None
      ensures changed <==> old(undo).Some? && !NothingToUndo(old(RightsOf(lists)), old(undo).value)
      ensures !changed ==> lists == old(lists)
      ensures changed ==> Canonical(lists)
      ensures old(undo).Some? ==> RightsOf(lists) == DisarmedRights(old(RightsOf(lists)), old(undo).value)
      ensures Steps(old(View()), Disarm, View())
    {
      hide TrimJs, Less, UniqSorted, Names, Elements, Sorted, IsName;
      if undo.None? {
        return false;
      }
      var state := undo.value;
      var added := if state.UndoV1? then [] else state.addedToAllow;
      NoElements([]);
      var allow, removed := DeleteAll(UniqSorted(lists.allow), added);
      var deny, restored := AddAll(UniqSorted(lists.deny), state.removedFromDeny);
      UniqSortedIs(lists.allow);
      UniqSortedIs(lists.deny);
      NoElements(removed);
      NoElements(restored);
      NamesAreNames(lists.allow);
      NamesAreNames(lists.deny);
      NamesTrimmed(allow);
      NamesTrimmed(deny);
      NamesTrimmed(state.removedFromDeny);
      TrimAllNames(Elements(allow));
      TrimAllUnion(Names(lists.deny), Elements(state.removedFromDeny));
      NothingUndone(RightsOf(lists), state);
      EmptyParts(Names(lists.allow), AddedOf(state), Names(lists.deny), Elements(state.removedFromDeny));
      changed := |removed| > 0 || |restored| > 0;
      undo := None;
      if changed {
        WriteLists(allow, deny);
      }
    }

    method WriteLists(allow: seq<string>, deny: seq<string>)
      modifies this`lists
      ensures RightsOf(lists) == Rights(Names(allow), Names(deny)) && Canonical(lists)
    {
      hide TrimJs, Less, UniqSorted, Names, Elements, Sorted, IsName;
      UniqSortedTwice(allow);
      UniqSortedTwice(deny);
      lists := Lists(UniqSorted(allow), UniqSorted(deny));
    }

    /** The periodic check. */
    method Tick(now: int)
      modifies this
      ensures var due := old(undo).Some? && old(undo).value.expiresAtMs.Some?
                  && now >= old(undo).value.expiresAtMs.value;
              if due then
                && undo == None && RightsOf(lists) == DisarmedRights(old(RightsOf(lists)), old(undo).value)
                && (if old(NothingToUndo(RightsOf(lists), undo.value)) then lists == old(lists) else Canonical(lists))
              else undo == old(undo) && lists == old(lists)
      ensures Steps(old(View()), Op.Tick(now), View())
    {
      if undo.None? || undo.value.expiresAtMs.None? {
        return;
      }
      if now < undo.value.expiresAtMs.value {
        return;
      }
      var _ := DisarmNow();
    }
  }

  lemma EmptyParts(allowed: set<string>, added: set<string>, denied: set<string>, removed: set<string>)
    ensures allowed * added == {} <==> added !! allowed
    ensures removed - denied == {} <==> removed <= denied
  {
    assert removed <= denied + (removed - denied);
    assert forall x | x in added && x in allowed :: x in allowed * added;
    assert forall x | x in allowed * added :: x in added && x in allowed;
  }

  lemma NothingUndone(r: Rights, undo: Undo)
    requires forall x | x in r.denied :: IsName(x)
    ensures NothingToUndo(r, undo) ==> DisarmedRights(r, undo) == r
  {
    hide TrimJs;
    if NothingToUndo(r, undo) {
      NamesOfNames(undo.removedFromDeny);
      hide Names, Elements;
      assert r.allowed - AddedOf(undo) == r.allowed;
    }
  }

  /** The trimmed strings of a set, but for blank ones. */
  function TrimAll(s: set<string>): set<string> { set x | x in s && TrimJs(x) != "" :: TrimJs(x) }

  lemma NamesTrimmed(values: seq<string>)
    ensures Names(values) == TrimAll(Elements(values))
  {
    hide TrimJs;
    forall y | y in TrimAll(Elements(values)) ensures y in Names(values) {
      var x :| x in Elements(values) && TrimJs(x) != "" && TrimJs(x) == y;
      var i :| 0 <= i < |values| && values[i] == x;
    }
    forall y | y in Names(values) ensures y in TrimAll(Elements(values)) {
      var i :| 0 <= i < |values| && TrimJs(values[i]) != "" && TrimJs(values[i]) == y;
      assert values[i] in Elements(values);
    }
  }

  lemma TrimAllNames(s: set<string>)
    requires forall x | x in s :: IsName(x)
    ensures TrimAll(s) == s
  {
    hide TrimJs;
  }

  lemma TrimAllUnion(s: set<string>, t: set<string>)
    requires forall x | x in s :: IsName(x)
    ensures TrimAll(s + t) == s + TrimAll(t)
  {
    hide TrimJs;
    TrimAllNames(s);
    assert TrimAll(s + t) == TrimAll(s) + TrimAll(t);
  }

  /** Sorting keeps the names, and sorting again changes nothing. */
  lemma UniqSortedTwice(values: seq<string>)
    ensures Names(UniqSorted(values)) == Names(values) && UniqSorted(UniqSorted(values)) == UniqSorted(values)
  {
    UniqSortedIs(values);
    NamesAreNames(values);
    NamesOfNames(UniqSorted(values));
    CanonicalIs(UniqSorted(values));
  }

  method DeleteAll(s: seq<string>, commands: seq<string>) returns (left: seq<string>, removed: seq<string>)
    ensures Elements(left) == Elements(s) - Elements(commands)
    ensures Elements(removed) == Elements(s) * Elements(commands)
  {
    hide Elements;
    left, removed := s, [];
    NoElements([]);
    for i := 0 to |commands|
      invariant Elements(left) == Elements(s) - Elements(commands[..i])
      invariant Elements(removed) == Elements(s) * Elements(commands[..i])
    {
      var cmd := commands[i];
      assert commands[..i + 1] == commands[..i] + [cmd];
      ElementsSnoc(commands[..i], cmd);
      InElements(left, cmd);
      if cmd in left {
        WithoutElements(left, cmd);
        ElementsSnoc(removed, cmd);
        left := Without(left, cmd);
        removed := removed + [cmd];
      }
    }
    assert commands[..|commands|] == commands;
  }

  method AddAll(s: seq<string>, commands: seq<string>) returns (more: seq<string>, added: seq<string>)
    ensures Elements(more) == Elements(s) + Elements(commands)
    ensures Elements(added) == Elements(commands) - Elements(s)
  {
    hide Elements;
    more, added := s, [];
    NoElements([]);
    for i := 0 to |commands|
      invariant Elements(more) == Elements(s) + Elements(commands[..i])
      invariant Elements(added) == Elements(commands[..i]) - Elements(s)
    {
      var cmd := commands[i];
      assert commands[..i + 1] == commands[..i] + [cmd];
      ElementsSnoc(commands[..i], cmd);
      InElements(more, cmd);
      if cmd !in more {
        ElementsSnoc(more, cmd);
        ElementsSnoc(added, cmd);
        more := more + [cmd];
        added := added + [cmd];
      }
    }
    assert commands[..|commands|] == commands;
  }
}
