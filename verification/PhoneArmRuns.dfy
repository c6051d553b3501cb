/** Runs of arming, disarming, expiry and edits of the configuration
    (extensions/phone-control/index.ts). */
module PhoneArmRuns {
  import opened Text
  import opened SessionKeys
  import opened PhoneArm

  /** Every command of any group. */
  function Guarded(): set<string> { Elements(CommandsOf(All)) }

  // ---- one arming ----

  /** Arming leaves every command of the group allowed and none denied. */
  lemma ArmAllows(p: Phone, group: Group, expiresAtMs: int, q: Phone)
    requires Armed(p, group, expiresAtMs, q)
    ensures Elements(CommandsOf(group)) <= RightsOf(q.lists).allowed
    ensures Elements(CommandsOf(group)) !! RightsOf(q.lists).denied
  {
    hide Names, CommandsOf, Elements;
  }

  /** The rights as an edit leaves them, but with the old ones for commands of
      any group. */
  function Carried(orig: Rights, edited: Rights): Rights {
    Rights(edited.allowed - Guarded() + orig.allowed * Guarded(), edited.denied - Guarded() + orig.denied * Guarded())
  }

  /** Undoing is exact on sets: what was added goes, what was removed returns. */
  lemma UndoRights(orig: Rights, commands: set<string>, undo: Undo, group: Group)
    requires Records(undo, orig, group) && commands == Elements(CommandsOf(group))
    ensures DisarmedRights(ArmedRights(orig, commands), undo) == orig
  {
    CommandsAreNames(group);
    NamesOfNames(undo.removedFromDeny);
    hide CommandsOf, Elements, Names;
  }

  /** Whether or not there is something to undo. */
  lemma DisarmedHas(p: Phone, q: Phone)
    requires Disarmed(p, q) && p.undo.Some?
    ensures RightsOf(q.lists) == DisarmedRights(RightsOf(p.lists), p.undo.value)
  {
    NamesAreNames(p.lists.deny);
    NothingUndone(RightsOf(p.lists), p.undo.value);
    hide Names, Elements, IsName;
  }

  /** Disarming takes back what a record of the second version added, adds what
      any record removed from the denied ones, and touches nothing else. */
  lemma DisarmedAre(p: Phone, q: Phone, undo: Undo)
    requires Disarmed(p, q) && p.undo == Some(undo)
    ensures q.undo.None?
    ensures forall c :: c in RightsOf(q.lists).allowed <==>
                          c in RightsOf(p.lists).allowed && !(undo.UndoV2? && c in undo.addedToAllow)
    ensures forall c :: c in RightsOf(q.lists).denied <==>
                          c in RightsOf(p.lists).denied
                          || (c != "" && exists x :: x in undo.removedFromDeny && TrimJs(x) == c)
  {
    DisarmedHas(p, q);
    NamesIff(undo.removedFromDeny);
    if undo.UndoV2? {
      assert forall c :: c in Elements(undo.addedToAllow) <==> c in undo.addedToAllow;
    }
    hide Names, Elements, TrimJs, NothingToUndo;
  }

  lemma NamesIff(values: seq<string>)
    ensures forall c :: c in Names(values) <==> c != "" && exists x :: x in values && TrimJs(x) == c
  {
    hide TrimJs;
    forall c | c != "" && exists x :: x in values && TrimJs(x) == c ensures c in Names(values) {
      var x :| x in values && TrimJs(x) == c;
      var i :| 0 <= i < |values| && values[i] == x;
      assert TrimJs(values[i]) == c;
    }
  }

  /** Disarming gives the lists back, sorted and without duplicates. */
  lemma ArmDisarmRestores(p: Phone, group: Group, expiresAtMs: int, armed: Phone, last: Phone)
    requires Armed(p, group, expiresAtMs, armed) && Disarmed(armed, last)
    ensures last == Phone(Lists(UniqSorted(p.lists.allow), UniqSorted(p.lists.deny)), None)
  {
    UndoRights(RightsOf(p.lists), Elements(CommandsOf(group)), armed.undo.value, group);
    DisarmedHas(armed, last);
    hide Names, CommandsOf, UniqSorted, Elements, Records;
    CanonicalForm(last.lists.allow, p.lists.allow);
    CanonicalForm(last.lists.deny, p.lists.deny);
  }

  /** A check before the expiry time changes nothing; from that time on it gives
      the rights back. */
  lemma ExpiryIff(p: Phone, group: Group, expiresAtMs: int, armed: Phone, now: int, last: Phone)
    requires Armed(p, group, expiresAtMs, armed) && Steps(armed, Tick(now), last)
    ensures if now < expiresAtMs then last == armed && last.undo.Some?
            else last == Phone(Lists(UniqSorted(p.lists.allow), UniqSorted(p.lists.deny)), None)
  {
    if now >= expiresAtMs { ArmDisarmRestores(p, group, expiresAtMs, armed, last); }
    hide RightsOf, Canonical, Records, UniqSorted, CommandsOf;
  }

  // ---- arming twice ----

  /** Arming while armed overwrites the record: disarming then gives the first
      lists back exactly when the first arming changed nothing. */
  lemma RearmRestoresIff(p: Phone, first: Group, second: Group, e: int, f: int, once: Phone, twice: Phone, last: Phone)
    requires Armed(p, first, e, once) && Armed(once, second, f, twice) && Disarmed(twice, last)
    ensures RightsOf(last.lists) == RightsOf(once.lists)
    ensures RightsOf(last.lists) == RightsOf(p.lists) <==>
            Elements(CommandsOf(first)) <= RightsOf(p.lists).allowed
                && Elements(CommandsOf(first)) !! RightsOf(p.lists).denied
  {
    UndoRights(RightsOf(once.lists), Elements(CommandsOf(second)), twice.undo.value, second);
    DisarmedHas(twice, last);
    hide Names, CommandsOf, Elements, Records, Canonical;
    var r, c := RightsOf(p.lists), Elements(CommandsOf(first));
    assert r.allowed + c == r.allowed <==> c <= r.allowed by {
      assert c <= r.allowed + c;
    }
    assert r.denied - c == r.denied <==> c !! r.denied by {
      assert (r.denied - c) !! c;
    }
  }

  // ---- runs ----

  /** Arming only while disarmed, and edits that leave the groups' commands alone. */
  predicate Disciplined(p: Phone, op: Op) {
    match op
    case Arm(_, _) => p.undo.None?
    case Edit(lists) =>
      && Names(lists.allow) * Guarded() == Names(p.lists.allow) * Guarded()
      && Names(lists.deny) * Guarded() == Names(p.lists.deny) * Guarded()
    case _ => true
  }

  /** The rights without arming: those of the last edit, but for the groups'
      commands those at the start. */
  function Intended(orig: Rights, op: Op): Rights {
    if op.Edit? then Carried(orig, RightsOf(op.lists)) else orig
  }

  ghost predicate Run(p: Phone, orig: Rights, ops: seq<Op>, last: Phone, intended: Rights)
    decreases |ops|
  {
    if ops == [] then last == p && intended == orig
    else
      exists q ::
        Disciplined(p, ops[0]) && Steps(p, ops[0], q) && Run(q, Intended(orig, ops[0]), ops[1..], last, intended)
  }

  /** While disarmed the rights are the intended ones; while armed, those plus
      the group's commands, and the record knows the difference. */
  ghost predicate Faithful(p: Phone, intended: Rights) {
    match p.undo
    case None => RightsOf(p.lists) == intended
    case Some(undo) =>
      undo.UndoV2? && Records(undo, intended, undo.group)
      && RightsOf(p.lists) == ArmedRights(intended, Elements(CommandsOf(undo.group)))
  }

  lemma GroupsGuarded(group: Group)
    ensures Elements(CommandsOf(group)) <= Guarded()
  {
    var all := ["camera.snap", "camera.clip", "screen.record", "calendar.add", "contacts.add", "reminders.add",
                "sms.send"];
    UniqSortedIs(all);
    hide UniqSorted, Elements;
    match group
    case Camera => UniqSortedIs(all[..2]); assert all[..2] == ["camera.snap", "camera.clip"]; NamesOfPart(all, 0, 2);
    case Screen => UniqSortedIs(all[2..3]); assert all[2..3] == ["screen.record"]; NamesOfPart(all, 2, 3);
    case Writes =>
      UniqSortedIs(all[3..7]);
      assert all[3..7] == ["calendar.add", "contacts.add", "reminders.add", "sms.send"];
      NamesOfPart(all, 3, 7);
    case All =>
  }

  lemma NamesOfPart(values: seq<string>, i: nat, j: nat)
    requires i <= j <= |values|
    ensures Names(values[i..j]) <= Names(values)
  {
    forall x | x in Names(values[i..j]) ensures x in Names(values) {
      var part := values[i..j];
      var k :| 0 <= k < |part| && TrimJs(part[k]) != "" && TrimJs(part[k]) == x;
      assert values[i + k] == part[k];
    }
  }

  lemma EditKeeps(p: Phone, intended: Rights, lists: Lists)
    requires Faithful(p, intended) && Disciplined(p, Edit(lists))
    ensures Faithful(p.(lists := lists), Carried(intended, RightsOf(lists)))
  {
    if p.undo.Some? { GroupsGuarded(p.undo.value.group); }
    hide Names, CommandsOf, Elements, Guarded;
    var a, d := RightsOf(lists).allowed, RightsOf(lists).denied;
    SplitBy(a, Guarded());
    SplitBy(d, Guarded());
    if p.undo.Some? {
      var c := Elements(CommandsOf(p.undo.value.group));
      EditSets(a, d, intended, c, Guarded());
    }
  }

  lemma SplitBy(s: set<string>, g: set<string>)
    ensures s == (s - g) + s * g
  {
  }

  lemma EditSets(a: set<string>, d: set<string>, i: Rights, c: set<string>, g: set<string>)
    requires c <= g && a * g == (i.allowed + c) * g && d * g == (i.denied - c) * g
    ensures (a - g + i.allowed * g) + c == a && (d - g + i.denied * g) - c == d
    ensures c - (a - g + i.allowed * g) == c - i.allowed && c * (d - g + i.denied * g) == c * i.denied
  {
    forall x ensures x in (a - g + i.allowed * g) + c <==> x in a {
      assert x in a * g <==> x in (i.allowed + c) * g;
    }
    forall x ensures x in (d - g + i.denied * g) - c <==> x in d {
      assert x in d * g <==> x in (i.denied - c) * g;
    }
  }

  lemma DisarmKeeps(p: Phone, intended: Rights, q: Phone)
    requires Faithful(p, intended) && Disarmed(p, q)
    ensures Faithful(q, intended)
  {
    if p.undo.Some? {
      UndoRights(intended, Elements(CommandsOf(p.undo.value.group)), p.undo.value, p.undo.value.group);
      DisarmedHas(p, q);
    }
    hide Names, CommandsOf, Elements, Records, Canonical;
  }

  lemma StepKeeps(p: Phone, intended: Rights, op: Op, q: Phone)
    requires Faithful(p, intended) && Disciplined(p, op) && Steps(p, op, q)
    ensures Faithful(q, Intended(intended, op))
  {
    match op
    case Arm(_, _) => hide Names, CommandsOf, Elements, Canonical;
    case Disarm => DisarmKeeps(p, intended, q);
    case Tick(_) => hide Faithful, Disarmed; if Disarmed(p, q) { DisarmKeeps(p, intended, q); }
    case Edit(lists) => EditKeeps(p, intended, lists);
  }

  lemma {:induction false} RunKeeps(p: Phone, orig: Rights, ops: seq<Op>, last: Phone, intended: Rights)
    requires Faithful(p, orig) && Run(p, orig, ops, last, intended)
    ensures Faithful(last, intended)
    decreases |ops|
  {
    hide Faithful, Steps, Disciplined, Intended;
    if ops == [] {
    } else {
      var q :| Disciplined(p, ops[0]) && Steps(p, ops[0], q)
          && Run(q, Intended(orig, ops[0]), ops[1..], last, intended);
      StepKeeps(p, orig, ops[0], q);
      RunKeeps(q, Intended(orig, ops[0]), ops[1..], last, intended);
    }
  }

  /** In every disciplined run that starts disarmed, whenever the phone is
      disarmed, by hand or by expiry, the rights are the original ones with the
      edits made in between. */
  lemma RestoredAfterRun(start: Lists, ops: seq<Op>, last: Phone, intended: Rights)
    requires Run(Phone(start, None), RightsOf(start), ops, last, intended) && last.undo.None?
    ensures RightsOf(last.lists) == intended
  {
    RunKeeps(Phone(start, None), RightsOf(start), ops, last, intended);
    hide Run, Names;
  }

  /** An edit survives: for any other command the rights are its own, and for a
      group's command those from before. */
  lemma EditsSurvive(orig: Rights, lists: Lists, command: string)
    ensures var r := Intended(orig, Edit(lists));
            && (command in r.allowed
                <==> command in (if command in Guarded() then orig.allowed else Names(lists.allow)))
            && (command in r.denied <==> command in (if command in Guarded() then orig.denied else Names(lists.deny)))
  {
    hide Names, Guarded;
  }

  lemma {:induction false} LiteralElements(s: seq<string>)
    ensures |s| == 1 ==> Elements(s) == {s[0]}
    ensures |s| == 2 ==> Elements(s) == {s[0], s[1]}
    ensures |s| == 4 ==> Elements(s) == {s[0], s[1], s[2], s[3]}
    ensures |s| == 7 ==> Elements(s) == {s[0], s[1], s[2], s[3], s[4], s[5], s[6]}
  {
    assert forall i | 0 <= i < |s| :: s[i] in Elements(s);
  }

  lemma SolidNames(s: seq<string>)
    requires forall i | 0 <= i < |s| :: s[i] != "" && !JsSpace(s[i][0]) && !JsSpace(s[i][|s[i]| - 1])
    ensures Elements(UniqSorted(s)) == Elements(s)
  {
    forall x | x in Elements(s) ensures IsName(x) {
      var i :| 0 <= i < |s| && s[i] == x;
      TrimSolid(x);
    }
    UniqSortedNames(s);
    hide Names, UniqSorted;
  }

  lemma CameraIs()
    ensures Elements(CommandsOf(Camera)) == {"camera.snap", "camera.clip"}
  {
    hide Elements, UniqSorted, Less, TrimJs;
    var values := ["camera.snap", "camera.clip"];
    SolidNames(values);
    LiteralElements(values);
  }

  lemma ScreenIs()
    ensures Elements(CommandsOf(Screen)) == {"screen.record"}
  {
    hide Elements, UniqSorted, Less, TrimJs;
    var values := ["screen.record"];
    SolidNames(values);
    LiteralElements(values);
  }

  lemma WritesIs()
    ensures Elements(CommandsOf(Writes)) == {"calendar.add", "contacts.add", "reminders.add", "sms.send"}
  {
    hide Elements, UniqSorted, Less, TrimJs;
    var values := ["calendar.add", "contacts.add", "reminders.add", "sms.send"];
    SolidNames(values);
    LiteralElements(values);
  }

  lemma AllIs()
    ensures Elements(CommandsOf(All)) == {"camera.snap", "camera.clip", "screen.record", "calendar.add",
                                          "contacts.add", "reminders.add", "sms.send"}
  {
    hide Elements, UniqSorted, Less, TrimJs;
    var values := ["camera.snap", "camera.clip", "screen.record", "calendar.add", "contacts.add", "reminders.add",
                   "sms.send"];
    SolidNames(values);
    LiteralElements(values);
  }

  /** The commands of the groups; the last group is all of them. */
  lemma GroupsAre()
    ensures Elements(CommandsOf(Camera)) == {"camera.snap", "camera.clip"}
    ensures Elements(CommandsOf(Screen)) == {"screen.record"}
    ensures Elements(CommandsOf(Writes)) == {"calendar.add", "contacts.add", "reminders.add", "sms.send"}
    ensures Elements(CommandsOf(All))
         == Elements(CommandsOf(Camera)) + Elements(CommandsOf(Screen)) + Elements(CommandsOf(Writes))
  {
    hide Elements, CommandsOf;
    CameraIs();
    ScreenIs();
    WritesIs();
    AllIs();
  }

  /** Disarming finds nothing to undo if and only if it would change no right. */
  lemma NothingToUndoIff(r: Rights, undo: Undo)
    requires forall x | x in Elements(undo.removedFromDeny) :: IsName(x)
    ensures NothingToUndo(r, undo) <==> DisarmedRights(r, undo) == r
  {
    NamesOfNames(undo.removedFromDeny);
    hide Elements, Names;
  }
}
