/** Notifying chats of pending pairing requests
    (extensions/device-pair/notify.ts). */
module PairNotify {
  import opened Text
  import opened SessionKeys

  const MAX_SEEN_AGE_MS := 24 * 60 * 60 * 1000

  datatype Target = Target(to: string, accountId: Option<string>, thread: Option<int>)

  datatype Subscriber = Subscriber(target: Target, once: bool, addedAtMs: int)

  datatype State = State(subscribers: seq<Subscriber>, notified: map<string, int>)

  /** The time stamp is None when it is missing, not a number or not positive. */
  datatype Request = Request(id: string, ts: Option<int>)

  datatype Message = Message(requestId: string, key: string, at: int)

  function ThreadText(thread: Option<int>): string {
    if thread.None? then "" else if thread.value < 0 then "-" + Decimal(-thread.value) else Decimal(thread.value)
  }

  function KeyOf(t: Target): string {
    t.to + "|" + (if t.accountId.Some? then t.accountId.value else "") + "|" + ThreadText(t.thread)
  }

  // ---- reading the file ----

  function ReadTarget(t: Target): Target {
    var accountId := if t.accountId.Some? then TrimJs(t.accountId.value) else "";
    Target(TrimJs(t.to), if accountId != "" then Some(accountId) else None, t.thread)
  }

  function ReadSubscribers(ss: seq<Subscriber>): seq<Subscriber> {
    if ss == [] then []
    else
      var n := |ss| - 1;
      var read := ss[n].(target := ReadTarget(ss[n].target));
      ReadSubscribers(ss[..n]) + if read.target.to == "" then [] else [read]
  }

  function Read(stored: State): State {
    State(ReadSubscribers(stored.subscribers),
          map r | r in stored.notified && TrimJs(r) != "" && stored.notified[r] > 0 :: stored.notified[r])
  }

  // ---- commands ----

  function Keys(ss: seq<Subscriber>): (keys: seq<string>)
    ensures |keys| == |ss| && forall i | 0 <= i < |ss| :: keys[i] == KeyOf(ss[i].target)
  {
    seq(|ss|, i requires 0 <= i < |ss| => KeyOf(ss[i].target))
  }

  function IndexOf(keys: seq<string>, key: string): (i: nat)
    ensures i <= |keys| && (i < |keys| ==> keys[i] == key)
    ensures forall j | 0 <= j < i :: keys[j] != key
  {
    if keys == [] || keys[0] == key then 0 else 1 + IndexOf(keys[1..], key)
  }

  /** The first subscriber with the key. */
  function Find(ss: seq<Subscriber>, key: string): nat { IndexOf(Keys(ss), key) }

  function Upserted(ss: seq<Subscriber>, t: Target, once: bool, now: int): seq<Subscriber> {
    var i := Find(ss, KeyOf(t));
    if i == |ss| then ss + [Subscriber(t, once, now)]
    else if ss[i].once == once then ss
    else ss[i := Subscriber(t, once, now)]
  }

  function SwitchedOff(ss: seq<Subscriber>, t: Target): seq<Subscriber> {
    var i := Find(ss, KeyOf(t));
    if i == |ss| then ss else ss[..i] + ss[i + 1..]
  }

  // ---- a poll ----

  predicate Wanted(s: Subscriber, r: Request) { s.once ==> r.ts.Some? && r.ts.value >= s.addedAtMs }

  function Ids(pending: seq<Request>): set<string> { set i | 0 <= i < |pending| :: pending[i].id }

  function Pruned(notified: map<string, int>, ids: set<string>, now: int): map<string, int> {
    map r | r in notified && r in ids && now - notified[r] <= MAX_SEEN_AGE_MS :: notified[r]
  }

  /** What a poll has done so far. */
  datatype Work = Work(notified: map<string, int>, oneShot: set<string>, messages: seq<Message>)

  /** `sends(i, j)` is whether sending request `i` to subscriber `j` succeeds. */
  type Sends = (nat, nat) -> bool

  predicate Reaches(ss: seq<Subscriber>, j: nat, r: Request, i: nat, sends: Sends) {
    j < |ss| && Wanted(ss[j], r) && sends(i, j)
  }

  function Sent(ss: seq<Subscriber>, k: nat, r: Request, i: nat, now: int, sends: Sends, w: Work): Work
    requires k <= |ss|
  {
    if k == 0 then w
    else
      var before := Sent(ss, k - 1, r, i, now, sends, w);
      if !Reaches(ss, k - 1, r, i, sends) then before
      else
        var key := KeyOf(ss[k - 1].target);
        before.(messages := before.messages + [Message(r.id, key, now)],
                oneShot := if ss[k - 1].once then before.oneShot + {key} else before.oneShot)
  }

  predicate Delivered(ss: seq<Subscriber>, k: nat, r: Request, i: nat, sends: Sends) {
    exists j | 0 <= j < k :: Reaches(ss, j, r, i, sends)
  }

  predicate Seen(notified: map<string, int>, id: string) { id in notified && notified[id] != 0 }

  function Polled(ss: seq<Subscriber>, pending: seq<Request>, n: nat, now: int, sends: Sends, w: Work): Work
    requires n <= |pending|
  {
    if n == 0 then w
    else
      var before := Polled(ss, pending, n - 1, now, sends, w);
      var r := pending[n - 1];
      if Seen(before.notified, r.id) then before
      else
        var after := Sent(ss, |ss|, r, n - 1, now, sends, before);
        if Delivered(ss, |ss|, r, n - 1, sends) then after.(notified := after.notified[r.id := now]) else after
  }

  function Remaining(ss: seq<Subscriber>, gone: set<string>): seq<Subscriber> {
    if ss == [] then []
    else
      var n := |ss| - 1;
      Remaining(ss[..n], gone) + if KeyOf(ss[n].target) in gone then [] else [ss[n]]
  }

  function PollWork(st: State, pending: seq<Request>, now: int, sends: Sends): Work {
    var start := Work(Pruned(st.notified, Ids(pending), now), {}, []);
    if st.subscribers == [] then start else Polled(st.subscribers, pending, |pending|, now, sends, start)
  }

  function Poll(st: State, pending: seq<Request>, now: int, sends: Sends): State {
    var w := PollWork(st, pending, now, sends);
    State(Remaining(st.subscribers, w.oneShot), w.notified)
  }

  lemma DeliveredSnoc(ss: seq<Subscriber>, k: nat, r: Request, i: nat, sends: Sends)
    ensures Delivered(ss, k + 1, r, i, sends) <==> Delivered(ss, k, r, i, sends) || Reaches(ss, k, r, i, sends)
  {
  }

  /** The messages sent before a poll do not matter to it. */
  lemma {:induction false} SentAppends(ss: seq<Subscriber>, k: nat, r: Request, i: nat, now: int, sends: Sends, w: Work,
                                       before: seq<Message>)
    requires k <= |ss|
    ensures Sent(ss, k, r, i, now, sends, w.(messages := before + w.messages))
         == var after := Sent(ss, k, r, i, now, sends, w); after.(messages := before + after.messages)
  {
    hide Wanted, KeyOf;
    if k == 0 {
    } else {
      SentAppends(ss, k - 1, r, i, now, sends, w, before);
      var sofar := Sent(ss, k - 1, r, i, now, sends, w).messages;
      var m := Message(r.id, KeyOf(ss[k - 1].target), now);
      assert (before + sofar) + [m] == before + (sofar + [m]);
    }
  }

  lemma {:induction false} PolledAppends(ss: seq<Subscriber>, pending: seq<Request>, n: nat, now: int, sends: Sends,
                                         w: Work,
                                         before: seq<Message>)
    requires n <= |pending|
    ensures Polled(ss, pending, n, now, sends, w.(messages := before + w.messages))
         == var after := Polled(ss, pending, n, now, sends, w); after.(messages := before + after.messages)
  {
    hide Sent, Delivered, Seen;
    if n == 0 {
    } else {
      PolledAppends(ss, pending, n - 1, now, sends, w, before);
      SentAppends(ss, |ss|, pending[n - 1], n - 1, now, sends, Polled(ss, pending, n - 1, now, sends, w), before);
    }
  }

  // ---- the notifier ----

  class Notifier {
    /** The state file as it was written last. */
    var file: State
    /** What was sent, in order. */
    var messages: seq<Message>

    constructor (file: State)
      ensures this.file == file && messages == []
    {
      this.file := file;
      messages := [];
    }

    /** Sends one request to every subscriber that wants it. */
    method Announce(ss: seq<Subscriber>, r: Request, i: nat, now: int, sends: Sends, oneShot0: set<string>,
                    ghost notified: map<string, int>)
      returns (delivered: bool, oneShot: set<string>)
      modifies this`messages
      ensures delivered == Delivered(ss, |ss|, r, i, sends)
      ensures Work(notified, oneShot, messages)
              == Sent(ss, |ss|, r, i, now, sends, Work(notified, oneShot0, old(messages)))
    {
      hide Wanted, KeyOf, Delivered;
      delivered, oneShot := false, oneShot0;
      assert !Delivered(ss, 0, r, i, sends) by { NoneDelivered(ss, r, i, sends); }
      for j := 0 to |ss|
        invariant delivered == Delivered(ss, j, r, i, sends)
        invariant Work(notified, oneShot, messages)
                  == Sent(ss, j, r, i, now, sends, Work(notified, oneShot0, old(messages)))
      {
        DeliveredSnoc(ss, j, r, i, sends);
        var subscriber := ss[j];
        if !Wanted(subscriber, r) {
          continue;
        }
        var sent := sends(i, j);
        if sent {
          messages := messages + [Message(r.id, KeyOf(subscriber.target), now)];
        }
        delivered := delivered || sent;
        if sent && subscriber.once {
          oneShot := oneShot + {KeyOf(subscriber.target)};
        }
      }
    }

    /** Forgets the requests that are no longer pending or were announced long ago. */
    method Prune(notified: map<string, int>, pendingIds: set<string>, now: int)
            returns (left: map<string, int>, changed: bool)
      ensures left == Pruned(notified, pendingIds, now)
      ensures !changed ==> left == notified
    {
      left, changed := notified, false;
      var todo := notified.Keys;
      while todo != {}
        invariant todo <= notified.Keys
        invariant left == map r | r in notified
                  && (r in todo || (r in pendingIds && now - notified[r] <= MAX_SEEN_AGE_MS)) :: notified[r]
        invariant !changed ==> left == notified
        decreases |todo|
      {
        var requestId :| requestId in todo;
        todo := todo - {requestId};
        if requestId !in pendingIds || now - notified[requestId] > MAX_SEEN_AGE_MS {
          left := left - {requestId};
          changed := true;
        }
      }
    }

    method NotifyPendingPairingRequests(pending: seq<Request>, now: int, sends: Sends)
      modifies this
      ensures messages == old(messages) + PollWork(Read(old(file)), pending, now, sends).messages
      ensures file == Poll(Read(old(file)), pending, now, sends)
           || (file == old(file) && Poll(Read(old(file)), pending, now, sends) == Read(old(file)))
    {
      hide Read, Sent, Delivered, Seen, Remaining, Pruned, KeyOf;
      var state := Read(file);
      var notified, changed := Prune(state.notified, Ids(pending), now);
      var subscribers := state.subscribers;
      ghost var start, sentBefore := Work(notified, {}, []), messages;
      if |state.subscribers| > 0 {
        var oneShotDelivered: set<string> := {};
        PolledAppends(subscribers, pending, 0, now, sends, start, sentBefore);
        for i := 0 to |pending|
          invariant file == old(file)
          invariant Work(notified, oneShotDelivered, messages)
                 == Polled(subscribers, pending, i, now, sends, start.(messages := sentBefore + []))
          invariant !changed ==> notified == state.notified
        {
          var request := pending[i];
          if Seen(notified, request.id) {
            continue;
          }
          var delivered, oneShot := Announce(subscribers, request, i, now, sends, oneShotDelivered, notified);
          oneShotDelivered := oneShot;
          if delivered {
            notified := notified[request.id := now];
            changed := true;
          }
        }
        PolledAppends(subscribers, pending, |pending|, now, sends, start, sentBefore);
        subscribers := Remaining(state.subscribers, oneShotDelivered);
        if |subscribers| != |state.subscribers| {
          changed := true;
        }
        RemainingAll(state.subscribers, oneShotDelivered);
      } else {
        RemainingAll(state.subscribers, {});
      }
      if changed {
        file := State(subscribers, notified);
      }
    }

    method SwitchOn(t: Target, once: bool, now: int)
      modifies this`file
      ensures var before := Read(old(file)).subscribers;
              file == if Upserted(before, t, once, now) == before then old(file)
                      else Read(old(file)).(subscribers := Upserted(Read(old(file)).subscribers, t, once, now))
    {
      hide Read, KeyOf;
      var state := Read(file);
      var i := Find(state.subscribers, KeyOf(t));
      if i == |state.subscribers| {
        file := state.(subscribers := state.subscribers + [Subscriber(t, once, now)]);
        return;
      }
      if state.subscribers[i].once == once {
        return;
      }
      file := state.(subscribers := state.subscribers[i := Subscriber(t, once, now)]);
      assert file.subscribers[i] != state.subscribers[i];
    }

    method SwitchOff(t: Target)
      modifies this`file
      ensures file == if Find(Read(old(file)).subscribers, KeyOf(t)) == |Read(old(file)).subscribers| then old(file)
                      else Read(old(file)).(subscribers := SwitchedOff(Read(old(file)).subscribers, t))
    {
      hide Read, KeyOf;
      var state := Read(file);
      var i := Find(state.subscribers, KeyOf(t));
      if i < |state.subscribers| {
        file := state.(subscribers := state.subscribers[..i] + state.subscribers[i + 1..]);
      }
    }
  }

  lemma NoneDelivered(ss: seq<Subscriber>, r: Request, i: nat, sends: Sends)
    ensures !Delivered(ss, 0, r, i, sends)
  {
  }

  /** Nobody is dropped, or fewer are left. */
  lemma {:induction false} RemainingAll(ss: seq<Subscriber>, gone: set<string>)
    ensures |Remaining(ss, gone)| <= |ss|
    ensures |Remaining(ss, gone)| == |ss| ==> Remaining(ss, gone) == ss
    ensures gone == {} ==> Remaining(ss, gone) == ss
  {
    hide KeyOf;
    if ss == [] {
    } else {
      RemainingAll(ss[..|ss| - 1], gone);
      assert ss == ss[..|ss| - 1] + [ss[|ss| - 1]];
    }
  }
}
