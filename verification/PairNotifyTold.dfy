/** Who is told of which pairing request in a poll, what is remembered of it, and
    what the commands leave (extensions/device-pair/notify.ts). */
module PairNotifyTold {
  import opened Text
  import opened SessionKeys
  import opened PairNotify
  import opened PairNotifyRuns

  /** Subscriber `s` is to be told of request `r`: always, or for a one-shot one
      when the request has a time that is not before the subscription. */
  predicate Concerns(s: Subscriber, r: Request) { s.once ==> r.ts.Some? && s.addedAtMs <= r.ts.value }

  /** Request `i` is to be sent to subscriber `j`, and gets through. */
  predicate Tells(ss: seq<Subscriber>, pending: seq<Request>, sends: Sends, i: nat, j: nat) {
    i < |pending| && j < |ss| && Concerns(ss[j], pending[i]) && sends(i, j)
  }

  /** The request was announced within a day. */
  predicate Recent(st: State, id: string, now: int) {
    id in st.notified && st.notified[id] != 0 && now - st.notified[id] <= MAX_SEEN_AGE_MS
  }

  function Telling(ss: seq<Subscriber>, pending: seq<Request>, now: int, i: nat, j: nat): Message
    requires i < |pending| && j < |ss|
  {
    Message(pending[i].id, KeyOf(ss[j].target), now)
  }

  /** Among the first `n` requests: from one that was not known to one it concerns. */
  ghost predicate Told(ss: seq<Subscriber>, pending: seq<Request>, n: nat, now: int, sends: Sends,
                       known: map<string, int>, m: Message)
  {
    exists i: nat, j: nat ::
      i < n && Tells(ss, pending, sends, i, j) && !Seen(known, pending[i].id) && m == Telling(ss, pending, now, i, j)
  }

  lemma {:induction false} SentAre(ss: seq<Subscriber>, k: nat, r: Request, i: nat, now: int, sends: Sends, w: Work,
                                   m: Message)
    requires k <= |ss|
    ensures m in Sent(ss, k, r, i, now, sends, w).messages <==>
              m in w.messages
              || exists j: nat :: j < k && Concerns(ss[j], r) && sends(i, j)
                                  && m == Message(r.id, KeyOf(ss[j].target), now)
  {
    hide KeyOf;
    if k == 0 {
    } else {
      SentAre(ss, k - 1, r, i, now, sends, w, m);
    }
  }

  lemma {:induction false} PolledAre(ss: seq<Subscriber>, pending: seq<Request>, n: nat, now: int, sends: Sends,
                                     w: Work,
                                     m: Message)
    requires n <= |pending| && DistinctRequests(pending)
    ensures m in Polled(ss, pending, n, now, sends, w).messages <==>
              m in w.messages || Told(ss, pending, n, now, sends, w.notified, m)
  {
    hide KeyOf, Sent, Delivered, Seen, Concerns, DistinctRequests;
    if n == 0 {
    } else {
      PolledAre(ss, pending, n - 1, now, sends, w, m);
      var before, r := Polled(ss, pending, n - 1, now, sends, w), pending[n - 1];
      PolledSeen(ss, pending, n - 1, n - 1, now, sends, w);
      SentAre(ss, |ss|, r, n - 1, now, sends, before, m);
      hide Polled;
      OneMore(ss, pending, n, now, sends, w.notified, m);
    }
  }

  lemma OneMore(ss: seq<Subscriber>, pending: seq<Request>, n: nat, now: int, sends: Sends, known: map<string, int>,
                m: Message)
    requires 0 < n <= |pending|
    ensures Told(ss, pending, n, now, sends, known, m) <==>
              Told(ss, pending, n - 1, now, sends, known, m)
              || (!Seen(known, pending[n - 1].id)
                  && exists j: nat :: j < |ss| && Concerns(ss[j], pending[n - 1]) && sends(n - 1, j)
                                      && m == Message(pending[n - 1].id, KeyOf(ss[j].target), now))
  {
    hide KeyOf, Seen, Concerns;
    if j: nat :| !Seen(known, pending[n - 1].id) && j < |ss| && Concerns(ss[j], pending[n - 1]) && sends(n - 1, j)
                 && m == Message(pending[n - 1].id, KeyOf(ss[j].target), now)
    {
      assert Tells(ss, pending, sends, n - 1, j) && m == Telling(ss, pending, now, n - 1, j);
    }
    if Told(ss, pending, n, now, sends, known, m) {
      var i: nat, j: nat :| i < n && Tells(ss, pending, sends, i, j) && !Seen(known, pending[i].id)
                            && m == Telling(ss, pending, now, i, j);
      if i < n - 1 { assert Told(ss, pending, n - 1, now, sends, known, m); }
    }
  }

  lemma SeenIffRecent(st: State, pending: seq<Request>, now: int, i: nat)
    requires i < |pending|
    ensures Seen(Pruned(st.notified, Ids(pending), now), pending[i].id) <==> Recent(st, pending[i].id, now)
  {
    assert pending[i].id in Ids(pending);
    hide Ids;
  }

  /** A poll sends exactly these messages: of every pending request not announced
      within a day, to every subscriber it concerns, where it gets through. */
  lemma MessagesAre(st: State, pending: seq<Request>, now: int, sends: Sends, m: Message)
    requires DistinctRequests(pending)
    ensures m in PollWork(st, pending, now, sends).messages <==>
            exists i: nat, j: nat ::
              Tells(st.subscribers, pending, sends, i, j) && !Recent(st, pending[i].id, now)
              && m == Telling(st.subscribers, pending, now, i, j)
  {
    hide KeyOf, Polled, Recent, Concerns, DistinctRequests, Ids, Pruned;
    var known := Pruned(st.notified, Ids(pending), now);
    forall i: nat | i < |pending| ensures Seen(known, pending[i].id) <==> Recent(st, pending[i].id, now) {
      SeenIffRecent(st, pending, now, i);
    }
    PolledAre(st.subscribers, pending, |pending|, now, sends, Work(known, {}, []), m);
    hide Seen;
  }

  lemma {:induction false} PolledRemembers(ss: seq<Subscriber>, pending: seq<Request>, n: nat, i: nat, now: int,
                                           sends: Sends, w: Work)
    requires n <= |pending| && i < |pending| && DistinctRequests(pending)
    ensures var r, after := pending[i].id, Polled(ss, pending, n, now, sends, w).notified;
            if i < n && !Seen(w.notified, r) && Delivered(ss, |ss|, pending[i], i, sends) then
              r in after && after[r] == now
            else (r in after <==> r in w.notified) && (r in after ==> after[r] == w.notified[r])
  {
    hide Delivered, Sent, Seen;
    if n == 0 {
    } else {
      PolledRemembers(ss, pending, n - 1, i, now, sends, w);
      SentNotified(ss, |ss|, pending[n - 1], n - 1, now, sends, Polled(ss, pending, n - 1, now, sends, w));
      PolledSeen(ss, pending, n - 1, n - 1, now, sends, w);
      assert i != n - 1 ==> pending[n - 1].id != pending[i].id;
      hide DistinctRequests;
    }
  }

  /** After a poll a pending request is remembered exactly when it was announced
      within a day, then as it was, or when its message now got through to some
      subscriber that it concerns, then with the time of the poll. */
  lemma RememberedIff(st: State, pending: seq<Request>, now: int, sends: Sends, i: nat)
    requires DistinctRequests(pending) && CleanNotified(st.notified) && i < |pending|
    ensures var r, after := pending[i].id, Poll(st, pending, now, sends).notified;
            if Recent(st, r, now) then r in after && after[r] == st.notified[r]
            else if exists j: nat :: Tells(st.subscribers, pending, sends, i, j) then r in after && after[r] == now
            else r !in after
  {
    var ss, known := st.subscribers, Pruned(st.notified, Ids(pending), now);
    SeenIffRecent(st, pending, now, i);
    PolledRemembers(ss, pending, |pending|, i, now, sends, Work(known, {}, []));
    DeliveredIff(ss, pending, sends, i);
    hide Polled, Remaining, Delivered, DistinctRequests, Ids, KeyOf, Tells;
    assert ss == [] ==> forall j: nat :: !Tells(ss, pending, sends, i, j) by { NobodyTold(ss, pending, sends, i); }
  }

  lemma NobodyTold(ss: seq<Subscriber>, pending: seq<Request>, sends: Sends, i: nat)
    ensures ss == [] ==> forall j: nat :: !Tells(ss, pending, sends, i, j)
  {
  }

  lemma DeliveredIff(ss: seq<Subscriber>, pending: seq<Request>, sends: Sends, i: nat)
    requires i < |pending|
    ensures Delivered(ss, |ss|, pending[i], i, sends) <==> exists j: nat :: Tells(ss, pending, sends, i, j)
  {
    if Delivered(ss, |ss|, pending[i], i, sends) {
      var j :| 0 <= j < |ss| && Reaches(ss, j, pending[i], i, sends);
      assert Tells(ss, pending, sends, i, j);
    }
    if j: nat :| Tells(ss, pending, sends, i, j) { assert Reaches(ss, j, pending[i], i, sends); }
  }

  /** After a poll a request is remembered with the poll's time, if it was just
      announced, or as it was, if that is within a day and it is still pending. */
  lemma RememberedAre(st: State, pending: seq<Request>, now: int, sends: Sends, r: string)
    requires CleanNotified(st.notified) && now > 0
    ensures r in Poll(st, pending, now, sends).notified ==>
              r in Ids(pending)
              && var at := Poll(st, pending, now, sends).notified[r];
                 at == now || (r in st.notified && at == st.notified[r] && now - at <= MAX_SEEN_AGE_MS)
  {
    PollWorkSound(st, pending, now, sends);
    hide PollWork, KeyOf, Ids, CleanNotified, Remaining;
  }

  /** After switching on there is a subscriber with the key and the mode, added now
      unless it was there; all others stay, and no other comes. */
  lemma OnAdds(ss: seq<Subscriber>, t: Target, once: bool, now: int)
    requires UniqueKeys(ss)
    ensures var after := Upserted(ss, t, once, now);
            && (forall s | s in ss && KeyOf(s.target) != KeyOf(t) :: s in after)
            && (forall s | s in after && KeyOf(s.target) != KeyOf(t) :: s in ss)
            && (forall s | s in after && KeyOf(s.target) == KeyOf(t) ::
                  s.once == once && (s in ss || s == Subscriber(t, once, now)))
            && (Kept(ss, t, once) ==> after == ss)
            && (!Kept(ss, t, once) ==> Subscriber(t, once, now) in after)
  {
    hide KeyOf;
    FindKey(ss, KeyOf(t));
    KeptIff(ss, t, once);
    var i, after := Find(ss, KeyOf(t)), Upserted(ss, t, once, now);
    hide Find;
    forall s | s in ss && KeyOf(s.target) != KeyOf(t) ensures s in after {
      var k :| 0 <= k < |ss| && ss[k] == s;
      assert after[k] == s;
    }
    if !Kept(ss, t, once) { assert after[i] == Subscriber(t, once, now); }
    forall s | s in after && KeyOf(s.target) == KeyOf(t) ensures s in ss || s == Subscriber(t, once, now) {
    }
    forall s | s in after && KeyOf(s.target) == KeyOf(t) ensures s.once == once {
      if s in ss && i < |ss| { SameKeySame(ss, s, ss[i]); }
    }
  }

  /** Targets without a bar in them have different keys. */
  lemma KeyInjective(t: Target, u: Target)
    requires '|' !in t.to && '|' !in u.to && KeyOf(t) == KeyOf(u)
    requires t.accountId.Some? ==> '|' !in t.accountId.value && t.accountId.value != ""
    requires u.accountId.Some? ==> '|' !in u.accountId.value && u.accountId.value != ""
    ensures t == u
  {
    var a := if t.accountId.Some? then t.accountId.value else "";
    var b := if u.accountId.Some? then u.accountId.value else "";
    ThreadParts(t);
    ThreadParts(u);
    ThreadInjective(t.thread, u.thread);
    hide KeyOf, ThreadText;
    SplitsApart(t.to, a, ThreadText(t.thread), KeyOf(t));
    SplitsApart(u.to, b, ThreadText(u.thread), KeyOf(u));
  }

  lemma ThreadParts(t: Target)
    ensures KeyOf(t) == t.to + ['|']
            + ((if t.accountId.Some? then t.accountId.value else "") + ['|'] + ThreadText(t.thread))
    ensures '|' !in ThreadText(t.thread)
  {
    if t.thread.Some? {
      var n := if t.thread.value < 0 then -t.thread.value else t.thread.value;
      assert forall i | 0 <= i < |Decimal(n)| :: IsDigit(Decimal(n)[i]);
    }
    hide Decimal;
  }

  lemma SplitsApart(a: string, b: string, c: string, key: string)
    requires '|' !in a && '|' !in b && '|' !in c && key == a + ['|'] + (b + ['|'] + c)
    ensures Split(key, '|') == [a, b, c]
  {
    SplitAtSeparator(a, '|', b + ['|'] + c);
    SplitAtSeparator(b, '|', c);
    SplitFree(a, '|');
    SplitFree(b, '|');
    SplitFree(c, '|');
    hide Split;
  }

  lemma ThreadChars(x: int)
    ensures var digits := Decimal(if x < 0 then -x else x);
            && digits != "" && digits[0] != '-'
            && ThreadText(Some(x)) == (if x < 0 then "-" else "") + digits
  {
    var digits := Decimal(if x < 0 then -x else x);
    assert IsDigit(digits[0]);
    hide Decimal;
    assert "" + digits == digits;
  }

  lemma ThreadInjective(x: Option<int>, y: Option<int>)
    ensures ThreadText(x) == ThreadText(y) ==> x == y
  {
    hide Decimal;
    if x.Some? { ThreadChars(x.value); }
    if y.Some? { ThreadChars(y.value); }
    if x.Some? && y.Some? && ThreadText(x) == ThreadText(y) {
      hide ThreadText;
      var m := if x.value < 0 then -x.value else x.value;
      var n := if y.value < 0 then -y.value else y.value;
      SignedSame(x.value < 0, Decimal(m), y.value < 0, Decimal(n));
      DecimalInjective(m, n);
    }
  }

  lemma SignedSame(negative: bool, digits: string, negative': bool, digits': string)
    requires digits != "" && digits' != "" && digits[0] != '-' && digits'[0] != '-'
    requires (if negative then "-" else "") + digits == (if negative' then "-" else "") + digits'
    ensures negative == negative' && digits == digits'
  {
    var s := (if negative then "-" else "") + digits;
    assert s[if negative then 1 else 0..] == digits;
    assert s[if negative' then 1 else 0..] == digits';
    assert negative <==> s[0] == '-';
    assert negative' <==> s[0] == '-';
  }
}
