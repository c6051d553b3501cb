/** What the pairing notifier keeps over every run of polls and commands
    (extensions/device-pair/notify.ts). */
module PairNotifyRuns {
  import opened Text
  import opened SessionKeys
  import opened PairNotify

  // ---- the file ----

  /** A target that reading the file leaves alone. */
  predicate CleanTarget(t: Target) {
    && t.to != "" && TrimJs(t.to) == t.to
    && (t.accountId.Some? ==> t.accountId.value != "" && TrimJs(t.accountId.value) == t.accountId.value)
  }

  predicate CleanSubscribers(ss: seq<Subscriber>) { forall i | 0 <= i < |ss| :: CleanTarget(ss[i].target) }

  predicate CleanNotified(notified: map<string, int>) { forall r | r in notified :: TrimJs(r) != "" && notified[r] > 0 }

  predicate Clean(st: State) { CleanSubscribers(st.subscribers) && CleanNotified(st.notified) }

  predicate UniqueKeys(ss: seq<Subscriber>) {
    forall i, j | 0 <= i < j < |ss| :: KeyOf(ss[i].target) != KeyOf(ss[j].target)
  }

  lemma ReadCleanTarget(t: Target)
    requires CleanTarget(t)
    ensures ReadTarget(t) == t && t.to != ""
  {
    hide TrimJs;
  }

  lemma {:induction false} ReadCleanSubscribers(ss: seq<Subscriber>)
    requires CleanSubscribers(ss)
    ensures ReadSubscribers(ss) == ss
  {
    hide ReadTarget, CleanTarget;
    if ss == [] {
    } else {
      var n := |ss| - 1;
      ReadCleanTarget(ss[n].target);
      ReadCleanSubscribers(ss[..n]);
      hide CleanSubscribers;
      assert ss[n].(target := ReadTarget(ss[n].target)) == ss[n];
      assert ss == ss[..n] + [ss[n]];
    }
  }

  /** A clean state is read back as it was written. */
  lemma FileRoundTrip(st: State)
    requires Clean(st)
    ensures Read(st) == st
  {
    hide TrimJs;
    ReadCleanSubscribers(st.subscribers);
    hide ReadSubscribers;
  }

  lemma {:induction false} ReadGivesClean(ss: seq<Subscriber>)
    ensures CleanSubscribers(ReadSubscribers(ss))
  {
    if ss == [] {
    } else {
      var n := |ss| - 1;
      ReadGivesClean(ss[..n]);
      TrimTwice(ss[n].target.to);
      if ss[n].target.accountId.Some? { TrimTwice(ss[n].target.accountId.value); }
      hide TrimJs;
    }
  }

  /** Whatever the file holds, what is read from it is clean. */
  lemma ReadIsClean(stored: State)
    ensures Clean(Read(stored)) && Read(Read(stored)) == Read(stored)
  {
    ReadGivesClean(stored.subscribers);
    FileRoundTrip(Read(stored));
    hide TrimJs, ReadSubscribers;
  }

  // ---- files from elsewhere ----

  /** A record as it may stand in the file: None is a missing or unusable value. */
  datatype Stored = Stored(to: Option<string>, accountId: Option<string>, thread: Option<real>, once: bool,
                           addedAtMs: Option<real>)

  datatype StoredState = StoredState(subscribers: seq<Stored>, notified: map<string, Option<real>>)

  function Trunc(x: real): int { if x >= 0.0 then x.Floor else -((-x).Floor) }

  function NormalizedSubscriber(s: Stored, now: int): Subscriber {
    Subscriber(ReadTarget(Target(if s.to.Some? then s.to.value else "", s.accountId,
                                 if s.thread.Some? then Some(Trunc(s.thread.value)) else None)),
               s.once, if s.addedAtMs.Some? then Trunc(s.addedAtMs.value) else now)
  }

  function NormalizedSubscribers(ss: seq<Stored>, now: int): seq<Subscriber> {
    if ss == [] then []
    else
      var read := NormalizedSubscriber(ss[|ss| - 1], now);
      NormalizedSubscribers(ss[..|ss| - 1], now) + if read.target.to == "" then [] else [read]
  }

  predicate Positive(stamp: Option<real>) { stamp.Some? && stamp.value > 0.0 }

  function Normalized(stored: StoredState, now: int): State {
    State(NormalizedSubscribers(stored.subscribers, now),
          map r | r in stored.notified && TrimJs(r) != "" && Positive(stored.notified[r]) ::
            Trunc(stored.notified[r].value))
  }

  /** What writing a state puts into the file. */
  function Written(st: State): StoredState {
    StoredState(WrittenSubscribers(st.subscribers), map r | r in st.notified :: Some(st.notified[r] as real))
  }

  function WrittenSubscriber(s: Subscriber): Stored {
    Stored(Some(s.target.to), s.target.accountId,
           if s.target.thread.Some? then Some(s.target.thread.value as real) else None,
           s.once, Some(s.addedAtMs as real))
  }

  function WrittenSubscribers(ss: seq<Subscriber>): (r: seq<Stored>)
    ensures |r| == |ss|
  {
    seq(|ss|, i requires 0 <= i < |ss| => WrittenSubscriber(ss[i]))
  }

  lemma WrittenSubscriberIsRead(s: Subscriber, now: int)
    ensures NormalizedSubscriber(WrittenSubscriber(s), now) == s.(target := ReadTarget(s.target))
  {
    hide TrimJs;
  }

  lemma {:induction false} WrittenSubscribersAreRead(ss: seq<Subscriber>, now: int)
    ensures NormalizedSubscribers(WrittenSubscribers(ss), now) == ReadSubscribers(ss)
  {
    hide ReadTarget, NormalizedSubscriber, WrittenSubscriber;
    if ss == [] {
    } else {
      var n := |ss| - 1;
      assert WrittenSubscribers(ss)[..n] == WrittenSubscribers(ss[..n]);
      WrittenSubscriberIsRead(ss[n], now);
      WrittenSubscribersAreRead(ss[..n], now);
    }
  }

  /** Reading a file that was written is reading the state. */
  lemma WrittenIsRead(st: State, now: int)
    ensures Normalized(Written(st), now) == Read(st)
  {
    hide TrimJs, NormalizedSubscribers, ReadSubscribers, WrittenSubscribers;
    WrittenSubscribersAreRead(st.subscribers, now);
  }

  /** Fractions are cut off towards zero. */
  lemma TruncIs(x: real)
    ensures Trunc(-x) == -Trunc(x)
    ensures x >= 0.0 ==> Trunc(x) as real <= x < Trunc(x) as real + 1.0
  {
    assert x == 0.0 ==> x.Floor == 0;
  }

  /** A subscriber stored without a time, or a stamp, is read as one that subscribed
      now. */
  lemma UnstampedIsNow(s: Stored, now: int)
    requires s.addedAtMs.None?
    ensures NormalizedSubscriber(s, now) == NormalizedSubscriber(s.(addedAtMs := Some(now as real)), now)
    ensures NormalizedSubscriber(s, now).addedAtMs == now
  {
    hide ReadTarget;
  }

  lemma {:induction false} NormalizedSubscribersAreClean(ss: seq<Stored>, now: int)
    ensures CleanSubscribers(NormalizedSubscribers(ss, now))
  {
    if ss == [] {
    } else {
      var last := ss[|ss| - 1];
      NormalizedSubscribersAreClean(ss[..|ss| - 1], now);
      if last.to.Some? { TrimTwice(last.to.value); }
      if last.accountId.Some? { TrimTwice(last.accountId.value); }
      hide TrimJs, Trunc;
    }
  }

  /** A time stamp that becomes 0. */
  predicate Vanishes(stamp: Option<real>) { stamp.Some? && 0.0 < stamp.value < 1.0 }

  /** What is read from any file is clean, and written and read again as it is,
      if and only if no request has a time stamp between 0 and 1: that is read
      as 0, and then dropped. */
  lemma NormalizedIsCleanIff(stored: StoredState, now: int, later: int)
    ensures var st, fine := Normalized(stored, now),
                            forall r | r in stored.notified && TrimJs(r) != "" :: !Vanishes(stored.notified[r]);
            && (Clean(st) <==> fine)
            && (Normalized(Written(st), later) == st <==> fine)
  {
    hide TrimJs, NormalizedSubscribers, ReadSubscribers, CleanSubscribers;
    var st := Normalized(stored, now);
    NormalizedSubscribersAreClean(stored.subscribers, now);
    ReadCleanSubscribers(st.subscribers);
    WrittenIsRead(st, later);
    if r :| r in stored.notified && TrimJs(r) != "" && Vanishes(stored.notified[r]) {
      assert r in st.notified && st.notified[r] == 0;
      assert r !in Read(st).notified;
    }
  }

  // ---- keys stay unique ----

  lemma UpsertKeeps(ss: seq<Subscriber>, t: Target, once: bool, now: int)
    requires UniqueKeys(ss)
    ensures UniqueKeys(Upserted(ss, t, once, now))
    ensures CleanSubscribers(ss) && CleanTarget(t) ==> CleanSubscribers(Upserted(ss, t, once, now))
  {
    hide KeyOf, CleanTarget;
  }

  lemma WithoutOne(ss: seq<Subscriber>, i: nat)
    requires UniqueKeys(ss) && i < |ss|
    ensures var left := ss[..i] + ss[i + 1..];
            && UniqueKeys(left) && (CleanSubscribers(ss) ==> CleanSubscribers(left))
            && forall k | 0 <= k < |left| :: KeyOf(left[k].target) != KeyOf(ss[i].target)
  {
    hide KeyOf, CleanTarget;
    var left := ss[..i] + ss[i + 1..];
    assert forall k | 0 <= k < |left| :: left[k] == if k < i then ss[k] else ss[k + 1];
  }

  lemma OffKeeps(ss: seq<Subscriber>, t: Target)
    requires UniqueKeys(ss)
    ensures UniqueKeys(SwitchedOff(ss, t))
    ensures CleanSubscribers(ss) ==> CleanSubscribers(SwitchedOff(ss, t))
    ensures forall i | 0 <= i < |SwitchedOff(ss, t)| :: KeyOf(SwitchedOff(ss, t)[i].target) != KeyOf(t)
  {
    var i := Find(ss, KeyOf(t));
    if i < |ss| { WithoutOne(ss, i); }
    hide KeyOf, CleanSubscribers, UniqueKeys, Find;
  }

  /** Exactly the subscribers whose key is not gone remain, in order. */
  lemma {:induction false} RemainingAre(ss: seq<Subscriber>, gone: set<string>)
    ensures forall s :: s in Remaining(ss, gone) <==> s in ss && KeyOf(s.target) !in gone
    ensures UniqueKeys(ss) ==> UniqueKeys(Remaining(ss, gone))
    ensures CleanSubscribers(ss) ==> CleanSubscribers(Remaining(ss, gone))
  {
    hide KeyOf, CleanTarget;
    if ss == [] {
    } else {
      var n := |ss| - 1;
      RemainingAre(ss[..n], gone);
      assert ss == ss[..n] + [ss[n]];
    }
  }

  // ---- one poll ----

  /** What is known of a poll's work at any point. */
  ghost predicate Sound(start: map<string, int>, ss: seq<Subscriber>, ids: set<string>, now: int, w: Work) {
    && (forall m | m in w.messages :: m.at == now && m.requestId in ids && m.requestId !in start)
    && (forall r | r in w.notified :: (r in start && w.notified[r] == start[r]) || (r in ids && w.notified[r] == now))
    && (forall r | r in start :: r in w.notified && w.notified[r] == start[r])
    && (forall k | k in w.oneShot :: exists m :: m in w.messages && m.key == k)
    && (forall k | k in w.oneShot :: exists s :: s in ss && s.once && KeyOf(s.target) == k)
    && (forall m | m in w.messages ::
          exists s :: s in ss && KeyOf(s.target) == m.key && (s.once ==> m.key in w.oneShot))
  }

  /** Every message so far has left its mark. */
  ghost predicate Marked(w: Work, now: int) {
    forall m | m in w.messages :: m.requestId in w.notified && w.notified[m.requestId] == now
  }

  /** Sending one request: nothing when nobody is reached, and otherwise only
      messages about it. */
  lemma {:induction false} SentSound(start: map<string, int>, ss: seq<Subscriber>, k: nat, r: Request, i: nat,
                                     ids: set<string>,
                                     now: int, sends: Sends, w: Work)
    requires k <= |ss| && Sound(start, ss, ids, now, w) && r.id in ids && r.id !in start
    ensures var after := Sent(ss, k, r, i, now, sends, w);
            && Sound(start, ss, ids, now, after) && after.notified == w.notified
            && (forall m | m in after.messages :: m in w.messages || m.requestId == r.id)
            && (!Delivered(ss, k, r, i, sends) ==> after == w)
  {
    hide KeyOf, Wanted;
    if k == 0 {
    } else {
      SentSound(start, ss, k - 1, r, i, ids, now, sends, w);
      DeliveredSnoc(ss, k - 1, r, i, sends);
      hide Delivered;
      OneMoreSent(start, ss, ids, now, Sent(ss, k - 1, r, i, now, sends, w), ss[k - 1], r.id);
      hide Sound;
    }
  }

  lemma OneMoreSent(start: map<string, int>, ss: seq<Subscriber>, ids: set<string>, now: int, w: Work, s: Subscriber,
                    id: string)
    requires Sound(start, ss, ids, now, w) && s in ss && id in ids && id !in start
    ensures var key := KeyOf(s.target);
            Sound(start, ss, ids, now,
                  w.(messages := w.messages + [Message(id, key, now)],
                     oneShot := if s.once then w.oneShot + {key} else w.oneShot))
  {
    hide KeyOf;
    var key := KeyOf(s.target);
    var m := Message(id, key, now);
    var after := w.(messages := w.messages + [m], oneShot := if s.once then w.oneShot + {key} else w.oneShot);
    forall x | x in w.messages ensures x in after.messages {
    }
    assert m in after.messages;
    forall k | k in after.oneShot ensures exists x :: x in after.messages && x.key == k {
      if k in w.oneShot {
        var x :| x in w.messages && x.key == k;
        assert x in after.messages;
      } else {
        assert m.key == k;
      }
    }
  }

  lemma {:induction false} PolledSound(ss: seq<Subscriber>, pending: seq<Request>, n: nat, now: int, sends: Sends,
                                       w: Work)
    requires n <= |pending| && now > 0 && CleanNotified(w.notified) && w.oneShot == {} && w.messages == []
    ensures var after := Polled(ss, pending, n, now, sends, w);
            Sound(w.notified, ss, Ids(pending), now, after) && Marked(after, now)
  {
    hide KeyOf, Sent, Delivered, TrimJs;
    if n == 0 {
    } else {
      PolledSound(ss, pending, n - 1, now, sends, w);
      var before, r := Polled(ss, pending, n - 1, now, sends, w), pending[n - 1];
      assert r.id in Ids(pending);
      if !Seen(before.notified, r.id) {
        assert r.id !in w.notified;
        SentSound(w.notified, ss, |ss|, r, n - 1, Ids(pending), now, sends, before);
        MarkAll(w.notified, ss, Ids(pending), now, before, Sent(ss, |ss|, r, n - 1, now, sends, before), r.id);
      }
    }
  }

  lemma MarkAll(start: map<string, int>, ss: seq<Subscriber>, ids: set<string>, now: int, w: Work, after: Work,
                id: string)
    requires Sound(start, ss, ids, now, after) && Marked(w, now) && after.notified == w.notified
    requires id in ids && id !in start
    requires forall m | m in after.messages :: m in w.messages || m.requestId == id
    ensures Sound(start, ss, ids, now, after.(notified := after.notified[id := now]))
    ensures Marked(after.(notified := after.notified[id := now]), now)
  {
    hide KeyOf;
  }

  predicate Ready(st: State) { Clean(st) && UniqueKeys(st.subscribers) }

  predicate NamedRequests(pending: seq<Request>) { forall i | 0 <= i < |pending| :: TrimJs(pending[i].id) != "" }

  lemma PollWorkSound(st: State, pending: seq<Request>, now: int, sends: Sends)
    requires CleanNotified(st.notified) && now > 0
    ensures var w, start := PollWork(st, pending, now, sends), Pruned(st.notified, Ids(pending), now);
            Sound(start, st.subscribers, Ids(pending), now, w) && Marked(w, now)
  {
    hide TrimJs, KeyOf, Ids, Polled;
    var start := Pruned(st.notified, Ids(pending), now);
    PolledSound(st.subscribers, pending, |pending|, now, sends, Work(start, {}, []));
  }

  /** One poll announces only pending requests that were not announced within
      a day, and remembers each; it forgets what is no longer pending. */
  lemma PollAnnounces(st: State, pending: seq<Request>, now: int, sends: Sends)
    requires CleanNotified(st.notified) && now > 0
    ensures var w, after := PollWork(st, pending, now, sends), Poll(st, pending, now, sends);
            && (forall m | m in w.messages ::
                  && m.at == now && m.requestId in Ids(pending)
                  && m.requestId !in Pruned(st.notified, Ids(pending), now)
                  && m.requestId in after.notified && after.notified[m.requestId] == now)
            && after.notified.Keys <= Ids(pending)
  {
    PollWorkSound(st, pending, now, sends);
    hide PollWork, Remaining, KeyOf, Ids, CleanNotified;
  }

  /** When keys are unique, a poll removes exactly the one-shot subscribers that
      got a message. */
  lemma PollFacts(st: State, pending: seq<Request>, now: int, sends: Sends)
    requires Ready(st) && now > 0
    ensures var w, after := PollWork(st, pending, now, sends), Poll(st, pending, now, sends);
            forall s :: s in after.subscribers <==>
              s in st.subscribers && !(s.once && exists m :: m in w.messages && m.key == KeyOf(s.target))
  {
    var w, after := PollWork(st, pending, now, sends), Poll(st, pending, now, sends);
    PollWorkSound(st, pending, now, sends);
    RemainingAre(st.subscribers, w.oneShot);
    hide PollWork, Remaining, KeyOf, Ids, Clean;
    forall s | s in st.subscribers
      ensures KeyOf(s.target) in w.oneShot <==> s.once && exists m :: m in w.messages && m.key == KeyOf(s.target)
    {
      GoneIff(st, Pruned(st.notified, Ids(pending), now), Ids(pending), now, w, s);
    }
  }

  lemma GoneIff(st: State, start: map<string, int>, ids: set<string>, now: int, w: Work, s: Subscriber)
    requires UniqueKeys(st.subscribers) && Sound(start, st.subscribers, ids, now, w) && s in st.subscribers
    ensures KeyOf(s.target) in w.oneShot <==> s.once && exists m :: m in w.messages && m.key == KeyOf(s.target)
  {
    hide KeyOf;
    var key := KeyOf(s.target);
    if key in w.oneShot {
      var t :| t in st.subscribers && t.once && KeyOf(t.target) == key;
      SameKeySame(st.subscribers, s, t);
    }
    if m :| s.once && m in w.messages && m.key == key {
      var t :| t in st.subscribers && KeyOf(t.target) == m.key && (t.once ==> m.key in w.oneShot);
      SameKeySame(st.subscribers, s, t);
    }
  }

  lemma SameKeySame(ss: seq<Subscriber>, s: Subscriber, t: Subscriber)
    requires UniqueKeys(ss) && s in ss && t in ss && KeyOf(s.target) == KeyOf(t.target)
    ensures s == t
  {
    hide KeyOf;
    var i :| 0 <= i < |ss| && ss[i] == s;
    var j :| 0 <= j < |ss| && ss[j] == t;
    assert !(i < j) && !(j < i);
  }

  /** What was announced within a day, and is still pending, stays remembered. */
  lemma PollRemembers(st: State, pending: seq<Request>, now: int, sends: Sends, r: string)
    requires CleanNotified(st.notified) && now > 0
    requires r in st.notified && r in Ids(pending) && now - st.notified[r] <= MAX_SEEN_AGE_MS
    ensures var after := Poll(st, pending, now, sends); r in after.notified && after.notified[r] == st.notified[r]
  {
    PollWorkSound(st, pending, now, sends);
    hide PollWork, KeyOf, Ids, CleanNotified;
  }

  lemma PollKeepsClean(st: State, pending: seq<Request>, now: int, sends: Sends)
    requires CleanNotified(st.notified) && now > 0 && NamedRequests(pending)
    ensures CleanNotified(Poll(st, pending, now, sends).notified)
  {
    PollWorkSound(st, pending, now, sends);
    hide PollWork, Remaining, KeyOf, TrimJs;
  }

  lemma PollKeepsReady(st: State, pending: seq<Request>, now: int, sends: Sends)
    requires Ready(st) && now > 0 && NamedRequests(pending)
    ensures Ready(Poll(st, pending, now, sends))
  {
    PollKeepsClean(st, pending, now, sends);
    RemainingAre(st.subscribers, PollWork(st, pending, now, sends).oneShot);
    hide PollWork, Remaining, KeyOf, CleanSubscribers, CleanNotified, TrimJs, UniqueKeys;
  }

  // ---- runs ----

  datatype Op =
    | PollOnce(pending: seq<Request>, now: int, sends: Sends)
    | On(target: Target, once: bool, now: int)
    | Off(target: Target)

  /** `lastSent` is when a request was announced last, as long as every poll
      since found it pending: an observer, apart from the file. */
  datatype History = History(file: State, clock: int, lastSent: map<string, int>)

  /** Before any poll: whatever file there is. */
  function Start(file: State, clock: int): History { History(file, clock, map[]) }

  predicate Allowed(h: History, op: Op) {
    match op
    case PollOnce(pending, now, _) => now >= h.clock && now > 0 && NamedRequests(pending)
    case On(_, _, now) => now >= h.clock
    case Off(_) => true
  }

  predicate Announces(messages: seq<Message>, r: string) { exists m :: m in messages && m.requestId == r }

  ghost function Step(h: History, op: Op): History {
    var st := Read(h.file);
    match op
    case PollOnce(pending, now, sends) =>
      var messages := PollWork(st, pending, now, sends).messages;
      History(Poll(st, pending, now, sends), now,
              map r | r in Ids(pending) && (Announces(messages, r) || r in h.lastSent) ::
                if Announces(messages, r) then now else h.lastSent[r])
    case On(t, once, now) => h.(file := st.(subscribers := Upserted(st.subscribers, t, once, now)), clock := now)
    case Off(t) => h.(file := st.(subscribers := SwitchedOff(st.subscribers, t)))
  }

  /** What was announced within a day is in the file. */
  ghost predicate Guarded(h: History) {
    forall r | r in h.lastSent ::
      && h.lastSent[r] <= h.clock
      && (h.clock - h.lastSent[r] <= MAX_SEEN_AGE_MS ==>
            r in Read(h.file).notified && Read(h.file).notified[r] == h.lastSent[r])
  }

  /** Clean stamps are read back as they are. */
  lemma StampsReadBack(st: State)
    requires CleanNotified(st.notified)
    ensures Read(st).notified == st.notified
  {
    hide TrimJs;
  }

  /** A poll announces nothing again that was announced within a day. */
  lemma AnnouncedOnce(h: History, pending: seq<Request>, now: int, sends: Sends, m: Message)
    requires Guarded(h) && Allowed(h, PollOnce(pending, now, sends))
    requires m in PollWork(Read(h.file), pending, now, sends).messages
    ensures m.requestId in h.lastSent ==> now - h.lastSent[m.requestId] > MAX_SEEN_AGE_MS
  {
    ReadIsClean(h.file);
    PollAnnounces(Read(h.file), pending, now, sends);
    hide PollWork, Poll, CleanNotified, NamedRequests, Read;
  }

  lemma PollGuarded(h: History, pending: seq<Request>, now: int, sends: Sends)
    requires Guarded(h) && Allowed(h, PollOnce(pending, now, sends))
    ensures Guarded(Step(h, PollOnce(pending, now, sends)))
  {
    var st := Read(h.file);
    ReadIsClean(h.file);
    PollKeepsClean(st, pending, now, sends);
    PollAnnounces(st, pending, now, sends);
    var after := Step(h, PollOnce(pending, now, sends));
    StampsReadBack(after.file);
    var messages := PollWork(st, pending, now, sends).messages;
    hide PollWork, Poll, Clean, CleanNotified, Ids, Read, NamedRequests;
    forall r | r in after.lastSent && now - after.lastSent[r] <= MAX_SEEN_AGE_MS
      ensures r in after.file.notified && after.file.notified[r] == after.lastSent[r]
    {
      if Announces(messages, r) {
        var m :| m in messages && m.requestId == r;
        assert after.file.notified[m.requestId] == now;
      } else {
        assert CleanNotified(st.notified);
        PollRemembers(st, pending, now, sends, r);
      }
    }
  }

  lemma StepGuarded(h: History, op: Op)
    requires Guarded(h) && Allowed(h, op)
    ensures Guarded(Step(h, op))
  {
    ReadIsClean(h.file);
    if op.PollOnce? {
      PollGuarded(h, op.pending, op.now, op.sends);
    } else {
      StampsReadBack(Step(h, op).file);
      hide Read, Upserted, SwitchedOff, CleanSubscribers;
    }
  }

  ghost predicate Run(h: History, ops: seq<Op>, last: History)
    decreases |ops|
  {
    if ops == [] then last == h else Allowed(h, ops[0]) && Run(Step(h, ops[0]), ops[1..], last)
  }

  lemma {:induction false} RunGuarded(h: History, ops: seq<Op>, last: History)
    requires Guarded(h) && Run(h, ops, last)
    ensures Guarded(last)
    decreases |ops|
  {
    hide Guarded, Step, Allowed;
    if ops == [] {
    } else {
      StepGuarded(h, ops[0]);
      RunGuarded(Step(h, ops[0]), ops[1..], last);
    }
  }

  /** Over every run of polls and commands, from any file and for any targets: a
      request that was announced is not announced again while every poll finds
      it pending and a day has not passed. */
  lemma NotTwiceADay(file: State, clock: int, ops: seq<Op>, h: History, pending: seq<Request>, now: int, sends: Sends,
                     m: Message)
    requires Run(Start(file, clock), ops, h) && Allowed(h, PollOnce(pending, now, sends))
    requires m in PollWork(Read(h.file), pending, now, sends).messages
    ensures m.requestId in h.lastSent ==> now - h.lastSent[m.requestId] > MAX_SEEN_AGE_MS
  {
    hide Step, PollWork, Read, Allowed;
    RunGuarded(Start(file, clock), ops, h);
    AnnouncedOnce(h, pending, now, sends, m);
  }

  // ---- targets that the file changes ----

  /** What a command is given: a trimmed recipient, and no empty account id. */
  predicate Resolved(t: Target) {
    t.to != "" && TrimJs(t.to) == t.to && (t.accountId.Some? ==> t.accountId.value != "")
  }

  predicate PaddedAccount(t: Target) { t.accountId.Some? && TrimJs(t.accountId.value) != t.accountId.value }

  lemma CleanIffNotPadded(t: Target)
    requires Resolved(t)
    ensures CleanTarget(t) <==> !PaddedAccount(t)
  {
    hide TrimJs;
  }

  lemma {:induction false} TrimShorter(s: string)
    ensures |TrimJs(s)| <= |s| && (|TrimJs(s)| == |s| ==> TrimJs(s) == s)
  {
    TrimLeftParts(s, JsSpace);
    TrimRightParts(TrimLeft(s, JsSpace), JsSpace);
  }

  /** A padded account id is read back to another key. */
  lemma PaddedKeyChanges(t: Target)
    requires Resolved(t)
    ensures PaddedAccount(t) ==> KeyOf(ReadTarget(t)) != KeyOf(t)
    ensures !PaddedAccount(t) ==> ReadTarget(t) == t
  {
    if t.accountId.Some? {
      TrimShorter(t.accountId.value);
      KeyLength(t);
      KeyLength(ReadTarget(t));
    }
    hide TrimJs, KeyOf, ThreadText;
  }

  lemma KeyLength(t: Target)
    ensures |KeyOf(t)| == |t.to| + (if t.accountId.Some? then |t.accountId.value| else 0) + |ThreadText(t.thread)| + 2
  {
  }

  /** The command finds a subscriber with its key and mode, and leaves the list
      as it is. */
  predicate Kept(ss: seq<Subscriber>, t: Target, once: bool) {
    exists s :: s in ss && KeyOf(s.target) == KeyOf(t) && s.once == once
  }

  predicate NoneWith(ss: seq<Subscriber>, key: string) { forall s | s in ss :: KeyOf(s.target) != key }

  lemma FindKey(ss: seq<Subscriber>, key: string)
    ensures var i := Find(ss, key);
            && i <= |ss| && (i < |ss| ==> KeyOf(ss[i].target) == key) && (i == |ss| <==> NoneWith(ss, key))
  {
    hide KeyOf;
    if i :| 0 <= i < |ss| && KeyOf(ss[i].target) == key { assert Keys(ss)[i] == key; }
  }

  lemma {:induction false} ReadAppend(xs: seq<Subscriber>, ys: seq<Subscriber>)
    ensures ReadSubscribers(xs + ys) == ReadSubscribers(xs) + ReadSubscribers(ys)
  {
    hide ReadTarget;
    if ys == [] {
      assert xs + ys == xs;
    } else {
      var n := |ys| - 1;
      assert (xs + ys)[..|xs| + n] == xs + ys[..n];
      ReadAppend(xs, ys[..n]);
    }
  }

  /** Of a clean list with one more target in it, all are read back, and this
      one as `ReadTarget` has it. */
  lemma ReadOne(a: seq<Subscriber>, s: Subscriber, b: seq<Subscriber>)
    requires CleanSubscribers(a) && CleanSubscribers(b) && Resolved(s.target)
    ensures ReadSubscribers(a + [s] + b) == a + [s.(target := ReadTarget(s.target))] + b
  {
    ReadAppend(a + [s], b);
    ReadAppend(a, [s]);
    ReadCleanSubscribers(a);
    ReadCleanSubscribers(b);
    assert [s][..0] == [];
    hide TrimJs;
  }

  lemma KeptIff(ss: seq<Subscriber>, t: Target, once: bool)
    requires UniqueKeys(ss)
    ensures var i := Find(ss, KeyOf(t)); Kept(ss, t, once) <==> i < |ss| && ss[i].once == once
  {
    hide KeyOf, Find;
    FindKey(ss, KeyOf(t));
    var i := Find(ss, KeyOf(t));
    if x :| x in ss && KeyOf(x.target) == KeyOf(t) && x.once == once { SameKeySame(ss, x, ss[i]); }
  }

  /** The list after `On`, with the target as it is read back. */
  function Told(ss: seq<Subscriber>, i: nat, s: Subscriber): seq<Subscriber> {
    if i < |ss| then ss[i := s] else ss + [s]
  }

  lemma ReadTold(ss: seq<Subscriber>, i: nat, s: Subscriber)
    requires CleanSubscribers(ss) && i <= |ss| && Resolved(s.target)
    ensures ReadSubscribers(Told(ss, i, s)) == Told(ss, i, s.(target := ReadTarget(s.target)))
  {
    hide CleanTarget, ReadTarget, Resolved, ReadSubscribers;
    var a, b := ss[..i], if i < |ss| then ss[i + 1..] else [];
    var read := s.(target := ReadTarget(s.target));
    ReadOne(a, s, b);
    assert Told(ss, i, s) == a + [s] + b;
    assert Told(ss, i, read) == a + [read] + b;
  }

  /** What the next command finds in the file after `On`: the list as it was, or
      the target as it is read back in the place that `On` chose. */
  lemma ReadAfterOn(ss: seq<Subscriber>, t: Target, once: bool, now: int)
    requires CleanSubscribers(ss) && UniqueKeys(ss) && Resolved(t)
    ensures ReadSubscribers(Upserted(ss, t, once, now))
         == if Kept(ss, t, once) then ss else Told(ss, Find(ss, KeyOf(t)), Subscriber(ReadTarget(t), once, now))
  {
    hide KeyOf, ReadTarget, Find, UniqueKeys, Kept, CleanSubscribers, Resolved, ReadSubscribers;
    FindKey(ss, KeyOf(t));
    KeptIff(ss, t, once);
    ReadCleanSubscribers(ss);
    ReadTold(ss, Find(ss, KeyOf(t)), Subscriber(t, once, now));
  }

  /** The subscribers that the next command finds. */
  function Listed(h: History): seq<Subscriber> { Read(h.file).subscribers }

  lemma ListedAfter(h: History, t: Target, once: bool, now: int)
    ensures Listed(Step(h, On(t, once, now))) == ReadSubscribers(Upserted(Listed(h), t, once, now))
    ensures Listed(Step(h, Off(t))) == ReadSubscribers(SwitchedOff(Listed(h), t))
    ensures CleanSubscribers(Listed(h))
  {
    ReadGivesClean(h.file.subscribers);
    hide ReadSubscribers, Upserted, SwitchedOff, CleanSubscribers;
  }

  /** Adding a target whose key is not among the others, or putting it in the
      place of another. */
  lemma UniqueWith(ss: seq<Subscriber>, i: nat, s: Subscriber)
    requires UniqueKeys(ss) && i <= |ss| && (i < |ss| ==> KeyOf(ss[i].target) != KeyOf(s.target))
    ensures UniqueKeys(Told(ss, i, s)) <==> NoneWith(ss, KeyOf(s.target))
  {
    hide KeyOf;
    var left := Told(ss, i, s);
    assert left[i] == s;
    if UniqueKeys(left) {
      forall x | x in ss ensures KeyOf(x.target) != KeyOf(s.target) {
        var j :| 0 <= j < |ss| && ss[j] == x;
        assert j != i ==> left[j] == x;
      }
    }
  }

  /** From a file with unique keys, `On` leaves them unique for the next command
      if and only if the account id is not padded, or the list is left as it
      is, or nobody has the key of the target as it is read back. */
  lemma OnKeepsIff(h: History, t: Target, once: bool, now: int)
    requires UniqueKeys(Listed(h)) && Resolved(t)
    ensures UniqueKeys(Listed(Step(h, On(t, once, now))))
            <==> !PaddedAccount(t) || Kept(Listed(h), t, once) || NoneWith(Listed(h), KeyOf(ReadTarget(t)))
  {
    hide KeyOf, ReadTarget, ReadSubscribers, Find, Upserted, UniqueKeys, PaddedAccount, Resolved, CleanTarget, Listed,
      Kept, NoneWith, CleanSubscribers, Told, Step;
    var ss := Listed(h);
    ListedAfter(h, t, once, now);
    PaddedKeyChanges(t);
    if !PaddedAccount(t) {
      UpsertKeeps(ss, t, once, now);
      CleanIffNotPadded(t);
      ReadCleanSubscribers(Upserted(ss, t, once, now));
    } else {
      ReadAfterOn(ss, t, once, now);
      FindKey(ss, KeyOf(t));
      UniqueWith(ss, Find(ss, KeyOf(t)), Subscriber(ReadTarget(t), once, now));
    }
  }

  /** A subscriber with another key stays through `Off`, and no other comes. */
  lemma OffLeaves(ss: seq<Subscriber>, t: Target)
    ensures forall s | s in SwitchedOff(ss, t) :: s in ss
    ensures forall s | s in ss && KeyOf(s.target) != KeyOf(t) :: s in SwitchedOff(ss, t)
    ensures CleanSubscribers(ss) ==> CleanSubscribers(SwitchedOff(ss, t))
  {
    FindKey(ss, KeyOf(t));
    hide KeyOf, CleanTarget, Find, NoneWith;
    var i := Find(ss, KeyOf(t));
    forall s | s in ss && KeyOf(s.target) != KeyOf(t) ensures s in SwitchedOff(ss, t) {
      var j :| 0 <= j < |ss| && ss[j] == s;
      assert i < |ss| ==> s == if j < i then ss[..i][j] else ss[i + 1..][j - i - 1];
    }
  }

  predicate Holds(ss: seq<Subscriber>, t: Target) { exists s :: s in ss && s.target == t }

  /** From a state with unique keys, switching a chat on and then off leaves no
      subscription of it, if and only if its account id is not padded, or both
      commands acted on another chat's subscription that has the same key. */
  lemma OffIff(h: History, t: Target, once: bool, now: int)
    requires UniqueKeys(Listed(h)) && Resolved(t)
    ensures !Holds(Listed(Step(Step(h, On(t, once, now)), Off(t))), ReadTarget(t))
            <==> !PaddedAccount(t) || (Kept(Listed(h), t, once) && !Holds(Listed(h), ReadTarget(t)))
  {
    hide KeyOf, ReadTarget, ReadSubscribers, Find, Upserted, SwitchedOff, UniqueKeys, PaddedAccount, Resolved,
      CleanTarget, Listed, Kept, CleanSubscribers, NoneWith, Step;
    var ss, u, on := Listed(h), ReadTarget(t), Step(h, On(t, once, now));
    ListedAfter(h, t, once, now);
    ListedAfter(on, t, once, now);
    PaddedKeyChanges(t);
    OffLeaves(Listed(on), t);
    ReadCleanSubscribers(SwitchedOff(Listed(on), t));
    OnKeepsIff(h, t, once, now);
    ReadAfterOn(ss, t, once, now);
    if !PaddedAccount(t) {
      OffKeeps(Listed(on), t);
    } else if !Kept(ss, t, once) {
      FindKey(ss, KeyOf(t));
      assert Told(ss, Find(ss, KeyOf(t)), Subscriber(u, once, now))[Find(ss, KeyOf(t))].target == u;
    }
  }

  /** From a file without subscribers, switching a chat on and off leaves none if
      and only if its account id is not padded. */
  lemma OffFromNoneIff(h: History, t: Target, once: bool, now: int)
    requires Listed(h) == [] && Resolved(t)
    ensures Listed(Step(Step(h, On(t, once, now)), Off(t))) == [] <==> !PaddedAccount(t)
  {
    hide KeyOf, ReadTarget, SwitchedOff, PaddedAccount, Resolved, CleanTarget, Upserted, Step, Listed,
      ReadSubscribers, Find;
    var on := Step(h, On(t, once, now));
    OffIff(h, t, once, now);
    ReadAfterOn([], t, once, now);
    ListedAfter(h, t, once, now);
    ListedAfter(on, t, once, now);
    OffLeaves(Listed(on), t);
    ReadCleanSubscribers(SwitchedOff(Listed(on), t));
    var left := SwitchedOff(Listed(on), t);
    if left != [] { assert left[0] in left && left[0].target == ReadTarget(t); }
  }

  /** A chat with a padded account id that is switched on twice is listed twice. */
  lemma PaddedIsDoubled(h: History, t: Target, once: bool, now: int)
    requires Listed(h) == [] && Resolved(t) && PaddedAccount(t)
    ensures !UniqueKeys(Listed(Step(Step(h, On(t, once, now)), On(t, once, now))))
  {
    hide KeyOf, ReadTarget, PaddedAccount, Resolved, CleanTarget, Upserted, Step, Listed, ReadSubscribers, Find;
    var on := Step(h, On(t, once, now));
    ReadAfterOn([], t, once, now);
    ListedAfter(h, t, once, now);
    PaddedKeyChanges(t);
    OnKeepsIff(on, t, once, now);
    assert Subscriber(ReadTarget(t), once, now) in Listed(on);
  }

  // ---- keys over runs ----

  lemma StepReady(h: History, op: Op)
    requires UniqueKeys(Listed(h)) && Allowed(h, op)
    requires op.On? ==> Resolved(op.target) && !PaddedAccount(op.target)
    ensures UniqueKeys(Listed(Step(h, op)))
  {
    var st := Read(h.file);
    ReadIsClean(h.file);
    if op.PollOnce? {
      PollKeepsReady(st, op.pending, op.now, op.sends);
      FileRoundTrip(Poll(st, op.pending, op.now, op.sends));
      hide Poll, Read, UniqueKeys, CleanSubscribers, CleanNotified, NamedRequests;
    } else if op.On? {
      OnKeepsIff(h, op.target, op.once, op.now);
    } else {
      OffKeeps(st.subscribers, op.target);
      ReadCleanSubscribers(SwitchedOff(st.subscribers, op.target));
      hide ReadSubscribers, UniqueKeys, SwitchedOff, CleanSubscribers;
    }
  }

  /** Over every run whose commands name no padded account id, no two
      subscribers of the file are for the same chat. */
  lemma {:induction false} KeysStayUnique(h: History, ops: seq<Op>, last: History)
    requires UniqueKeys(Listed(h)) && Run(h, ops, last)
    requires forall op | op in ops :: op.On? ==> Resolved(op.target) && !PaddedAccount(op.target)
    ensures UniqueKeys(Listed(last))
    decreases |ops|
  {
    hide UniqueKeys, Step, Allowed, Read, Resolved, PaddedAccount;
    if ops == [] {
    } else {
      StepReady(h, ops[0]);
      KeysStayUnique(Step(h, ops[0]), ops[1..], last);
    }
  }

  // ---- how often a one-shot subscriber is told ----

  function CountKey(ms: seq<Message>, key: string): nat {
    if ms == [] then 0 else CountKey(ms[..|ms| - 1], key) + if ms[|ms| - 1].key == key then 1 else 0
  }

  /** The requests among the first `n` that are new and get through to
      subscriber `j`. */
  function NewFor(ss: seq<Subscriber>, j: nat, pending: seq<Request>, n: nat,
                  known: map<string, int>, sends: Sends): nat
    requires n <= |pending|
  {
    if n == 0 then 0
    else
      NewFor(ss, j, pending, n - 1, known, sends)
      + if !Seen(known, pending[n - 1].id) && Reaches(ss, j, pending[n - 1], n - 1, sends) then 1 else 0
  }

  predicate DistinctRequests(pending: seq<Request>) {
    forall i, j | 0 <= i < j < |pending| :: pending[i].id != pending[j].id
  }

  lemma {:induction false} SentCount(ss: seq<Subscriber>, k: nat, j: nat, r: Request, i: nat, now: int, sends: Sends,
                                     w: Work)
    requires k <= |ss| && j < |ss| && UniqueKeys(ss)
    ensures CountKey(Sent(ss, k, r, i, now, sends, w).messages, KeyOf(ss[j].target))
         == CountKey(w.messages, KeyOf(ss[j].target)) + if j < k && Reaches(ss, j, r, i, sends) then 1 else 0
  {
    hide KeyOf, Wanted;
    if k == 0 {
    } else {
      SentCount(ss, k - 1, j, r, i, now, sends, w);
      var sofar := Sent(ss, k - 1, r, i, now, sends, w).messages;
      var m := Message(r.id, KeyOf(ss[k - 1].target), now);
      assert (sofar + [m])[..|sofar|] == sofar;
      assert KeyOf(ss[k - 1].target) == KeyOf(ss[j].target) <==> k - 1 == j;
    }
  }

  /** Polling the others does not make a request seen. */
  lemma {:induction false} PolledSeen(ss: seq<Subscriber>, pending: seq<Request>, n: nat, i: nat, now: int,
                                      sends: Sends, w: Work)
    requires n <= i < |pending| && DistinctRequests(pending)
    ensures Seen(Polled(ss, pending, n, now, sends, w).notified, pending[i].id) <==> Seen(w.notified, pending[i].id)
  {
    hide Wanted, Delivered, Sent;
    if n == 0 {
    } else {
      PolledSeen(ss, pending, n - 1, i, now, sends, w);
      SentNotified(ss, |ss|, pending[n - 1], n - 1, now, sends, Polled(ss, pending, n - 1, now, sends, w));
      assert pending[n - 1].id != pending[i].id;
    }
  }

  lemma {:induction false} SentNotified(ss: seq<Subscriber>, k: nat, r: Request, i: nat, now: int, sends: Sends,
                                        w: Work)
    requires k <= |ss|
    ensures Sent(ss, k, r, i, now, sends, w).notified == w.notified
  {
    hide KeyOf, Wanted;
    if k == 0 {
    } else {
      SentNotified(ss, k - 1, r, i, now, sends, w);
    }
  }

  lemma {:induction false} PolledCount(ss: seq<Subscriber>, j: nat, pending: seq<Request>, n: nat, now: int,
                                       sends: Sends, w: Work)
    requires n <= |pending| && j < |ss| && UniqueKeys(ss) && DistinctRequests(pending) && w.messages == []
    ensures CountKey(Polled(ss, pending, n, now, sends, w).messages, KeyOf(ss[j].target))
         == NewFor(ss, j, pending, n, w.notified, sends)
  {
    hide KeyOf, Wanted, Sent, UniqueKeys, Delivered, Seen, DistinctRequests, Reaches;
    if n == 0 {
    } else {
      PolledCount(ss, j, pending, n - 1, now, sends, w);
      PolledSeen(ss, pending, n - 1, n - 1, now, sends, w);
      SentCount(ss, |ss|, j, pending[n - 1], n - 1, now, sends, Polled(ss, pending, n - 1, now, sends, w));
    }
  }

  /** In one poll a subscriber gets as many messages as there are new requests
      that get through to it; a one-shot subscriber then gets no more, and so
      hears only once exactly when there is at most one such request. */
  lemma MessagesToSubscriber(st: State, j: nat, pending: seq<Request>, now: int, sends: Sends)
    requires Ready(st) && now > 0 && j < |st.subscribers| && DistinctRequests(pending)
    ensures var told := CountKey(PollWork(st, pending, now, sends).messages, KeyOf(st.subscribers[j].target));
            && told == NewFor(st.subscribers, j, pending, |pending|, Pruned(st.notified, Ids(pending), now), sends)
            && (st.subscribers[j].once && told > 0 ==> st.subscribers[j] !in Poll(st, pending, now, sends).subscribers)
  {
    var start := Work(Pruned(st.notified, Ids(pending), now), {}, []);
    PolledCount(st.subscribers, j, pending, |pending|, now, sends, start);
    PollFacts(st, pending, now, sends);
    hide KeyOf, Ids, NewFor, Polled, Poll, Clean, UniqueKeys;
    var messages := PollWork(st, pending, now, sends).messages;
    if CountKey(messages, KeyOf(st.subscribers[j].target)) > 0 {
      var m := CountedIn(messages, KeyOf(st.subscribers[j].target));
    }
  }

  lemma {:induction false} CountedIn(ms: seq<Message>, key: string) returns (m: Message)
    requires CountKey(ms, key) > 0
    ensures m in ms && m.key == key
  {
    var n := |ms| - 1;
    if ms[n].key == key { m := ms[n]; } else { m := CountedIn(ms[..n], key); }
  }

  // ---- where the text promises more ----

  lemma SentToOne(s: Subscriber, r: Request, i: nat, now: int, sends: Sends, w: Work)
    requires s.once && Wanted(s, r) && sends(i, 0)
    ensures Sent([s], 1, r, i, now, sends, w)
         == w.(messages := w.messages + [Message(r.id, KeyOf(s.target), now)], oneShot := w.oneShot + {KeyOf(s.target)})
    ensures Delivered([s], 1, r, i, sends)
  {
    hide KeyOf, Wanted;
    assert Reaches([s], 0, r, i, sends);
    assert Sent([s], 0, r, i, now, sends, w) == w;
  }

  lemma PolledOneMore(s: Subscriber, pending: seq<Request>, n: nat, now: int, sends: Sends, w: Work)
    requires n < |pending| && s.once && Wanted(s, pending[n]) && sends(n, 0)
    requires !Seen(Polled([s], pending, n, now, sends, w).notified, pending[n].id)
    ensures var before, after := Polled([s], pending, n, now, sends, w), Polled([s], pending, n + 1, now, sends, w);
            && after.messages == before.messages + [Message(pending[n].id, KeyOf(s.target), now)]
            && after.notified == before.notified[pending[n].id := now]
  {
    SentToOne(s, pending[n], n, now, sends, Polled([s], pending, n, now, sends, w));
    hide KeyOf, Wanted, Sent, Delivered, Seen;
  }

  /** A one-shot subscriber, promised one notice, gets one for every new
      request that is pending at the poll. */
  lemma OnceGetsSeveral(t: Target, now: int)
    requires now > 7
    ensures PollWork(State([Subscriber(t, true, 5)], map[]), [Request("a", Some(6)), Request("b", Some(7))], now,
                     (i, j) => true).messages
         == [Message("a", KeyOf(t), now), Message("b", KeyOf(t), now)]
  {
    var s, sends: Sends := Subscriber(t, true, 5), (i, j) => true;
    var pending := [Request("a", Some(6)), Request("b", Some(7))];
    var w0 := Work(map[], {}, []);
    assert Pruned(map[], Ids(pending), now) == map[];
    hide KeyOf;
    PolledOneMore(s, pending, 0, now, sends, w0);
    assert "a"[0] != "b"[0];
    PolledOneMore(s, pending, 1, now, sends, w0);
    hide Polled;
    assert PollWork(State([s], map[]), pending, now, sends) == Polled([s], pending, 2, now, sends, w0);
  }

  const SPACED := Target("7", Some(" x"), None)

  /** A chat whose account id is padded cannot be switched off. */
  lemma SpacedAccountStaysOn(once: bool, now: int)
    ensures var on := Step(Start(State([], map[]), 0), On(SPACED, once, now));
            Listed(Step(on, Off(SPACED))) != []
  {
    assert TrimLeft(" x", JsSpace) == TrimLeft(" x"[1..], JsSpace);
    assert " x"[1..] == "x";
    TrimSolid("x");
    TrimSolid("7");
    OffFromNoneIff(Start(State([], map[]), 0), SPACED, once, now);
  }
}
