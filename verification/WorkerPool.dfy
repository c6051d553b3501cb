/** The document worker pool of scripts/docs-i18n/main.go: a producer feeding
    an unbuffered channel of jobs, workers sending into a buffer with one slot
    per file, and a collector. Each action is one atomic step of one goroutine. */
module WorkerPool {

  /** What `processFileDoc` says about a file. */
  datatype Outcome = Written | AlreadyDone | Failed

  datatype Result = StartError | JobResult(job: nat, outcome: Outcome)

  predicate IsError(r: Result) { r.StartError? || r.outcome.Failed? }

  datatype Worker =
    | Starting(willFail: bool)            // creating its translator
    | Refused                             // about to send its start-up error
    | Idle                                // waiting for a job
    | Holding(job: nat)                   // has a job, has not looked at the context yet
    | Working(job: nat)
    | Reporting(job: nat, outcome: Outcome)
    | Cancelling                          // has sent an error, about to cancel the context
    | Finished                            // wg.Done has run

  datatype Collector = Receiving(i: nat) | Draining(failed: bool) | Returned(failed: bool)

  /** `refused[w]` says whether worker `w` fails to create its translator. */
  datatype Config = Config(files: nat, refused: seq<bool>)

  /** `received` and `dropped` record results taken from the buffer and jobs
      given up because the context was cancelled. */
  datatype State = State(workers: seq<Worker>, next: nat, closed: bool, buffer: seq<Result>, cancelled: bool,
                         collector: Collector, processed: nat, skipped: nat,
                         received: seq<Result>, dropped: seq<nat>)

  function Init(c: Config): State {
    State(seq(|c.refused|, w requires 0 <= w < |c.refused| => Starting(c.refused[w])),
          0, false, [], false, Receiving(0), 0, 0, [], [])
  }

  datatype Action =
    | Start(w: nat) | Refuse(w: nat) | Take(w: nat) | CloseJobs | SeeClosed(w: nat) | CheckContext(w: nat)
    | Process(w: nat, outcome: Outcome) | Send(w: nat) | Cancel(w: nat)
    | Receive | LeaveLoop | Return

  predicate At(s: State, w: nat, x: Worker) { w < |s.workers| && s.workers[w] == x }

  predicate Enabled(c: Config, s: State, a: Action) {
    match a
    case Start(w) => w < |s.workers| && s.workers[w].Starting?
    case Refuse(w) => At(s, w, Refused) && |s.buffer| < c.files
    case Take(w) => At(s, w, Idle) && s.next < c.files
    case CloseJobs => s.next == c.files && !s.closed
    case SeeClosed(w) => At(s, w, Idle) && s.closed
    case CheckContext(w) => w < |s.workers| && s.workers[w].Holding?
    case Process(w, _) => w < |s.workers| && s.workers[w].Working?
    case Send(w) => w < |s.workers| && s.workers[w].Reporting? && |s.buffer| < c.files
    case Cancel(w) => At(s, w, Cancelling)
    case Receive => s.collector.Receiving? && s.collector.i < c.files && s.buffer != []
    case LeaveLoop => s.collector == Receiving(c.files)
    case Return => s.collector.Draining? && forall w | w in s.workers :: w.Finished?
  }

  function Put(s: State, w: nat, x: Worker): State
    requires w < |s.workers|
  {
    s.(workers := s.workers[w := x])
  }

  function Next(c: Config, s: State, a: Action): State
    requires Enabled(c, s, a)
  {
    match a
    case Start(w) => Put(s, w, if s.workers[w].willFail then Refused else Idle)
    case Refuse(w) => Put(s, w, Finished).(buffer := s.buffer + [StartError])
    case Take(w) => Put(s, w, Holding(s.next)).(next := s.next + 1)
    case CloseJobs => s.(closed := true)
    case SeeClosed(w) => Put(s, w, Finished)
    case CheckContext(w) =>
      var job := s.workers[w].job;
      if s.cancelled then Put(s, w, Finished).(dropped := s.dropped + [job]) else Put(s, w, Working(job))
    case Process(w, outcome) => Put(s, w, Reporting(s.workers[w].job, outcome))
    case Send(w) =>
      var r := JobResult(s.workers[w].job, s.workers[w].outcome);
      Put(s, w, if IsError(r) then Cancelling else Idle).(buffer := s.buffer + [r])
    case Cancel(w) => Put(s, w, Finished).(cancelled := true)
    case Receive =>
      var r, s' := s.buffer[0], s.(buffer := s.buffer[1..], received := s.received + [s.buffer[0]]);
      if IsError(r) then s'.(collector := Draining(true))
      else if r.outcome.AlreadyDone? then s'.(skipped := s.skipped + 1, collector := Receiving(s.collector.i + 1))
      else s'.(processed := s.processed + 1, collector := Receiving(s.collector.i + 1))
    case LeaveLoop => s.(collector := Draining(false))
    case Return => s.(collector := Returned(s.collector.failed))
  }

  /** `s` is reached from `s0` by taking these actions. */
  ghost predicate Run(c: Config, s0: State, actions: seq<Action>, s: State)
    decreases |actions|
  {
    if actions == [] then s == s0
    else Enabled(c, s0, actions[0]) && Run(c, Next(c, s0, actions[0]), actions[1..], s)
  }

  ghost predicate Reachable(c: Config, s: State) { exists actions :: Run(c, Init(c), actions, s) }

  /** The collector has not returned and no goroutine can move. */
  ghost predicate Stuck(c: Config, s: State) {
    !s.collector.Returned? && forall a :: !Enabled(c, s, a)
  }

  // ---- sums over the workers ----

  function Sum(ws: seq<Worker>, f: Worker -> nat): nat {
    if ws == [] then 0 else f(ws[0]) + Sum(ws[1..], f)
  }

  lemma {:induction false} SumUpdate(ws: seq<Worker>, i: nat, x: Worker, f: Worker -> nat)
    requires i < |ws|
    ensures Sum(ws[i := x], f) + f(ws[i]) == Sum(ws, f) + f(x)
  {
    if i == 0 {
      assert ws[i := x][1..] == ws[1..];
    } else {
      assert ws[i := x][1..] == ws[1..][i - 1 := x];
      SumUpdate(ws[1..], i - 1, x, f);
    }
  }

  lemma {:induction false} SumAtLeast(ws: seq<Worker>, i: nat, f: Worker -> nat)
    requires i < |ws|
    ensures f(ws[i]) <= Sum(ws, f)
  {
    if i == 0 {
    } else {
      SumAtLeast(ws[1..], i - 1, f);
    }
  }

  lemma {:induction false} SumZero(ws: seq<Worker>, f: Worker -> nat)
    requires forall w | w in ws :: f(w) == 0
    ensures Sum(ws, f) == 0
  {
    if ws == [] {
    } else {
      SumZero(ws[1..], f);
    }
  }

  /** A result this worker still owes: a start-up error or that of its job. */
  function Owes(w: Worker): nat {
    match w
    case Starting(willFail) => if willFail then 1 else 0
    case Refused | Holding(_) | Working(_) | Reporting(_, _) => 1
    case Idle | Cancelling | Finished => 0
  }

  function OwesRefusal(w: Worker): nat { if w == Starting(true) || w.Refused? then 1 else 0 }

  // ---- every run is finite ----

  function Rank(w: Worker): nat {
    match w
    case Holding(_) => 4
    case Working(_) => 3
    case Reporting(_, _) | Starting(_) => 2
    case Refused | Idle | Cancelling => 1
    case Finished => 0
  }

  function Measure(c: Config, s: State): nat
    requires s.next <= c.files && (s.collector.Receiving? ==> s.collector.i <= c.files)
  {
    4 * (c.files - s.next) + (if s.closed then 0 else 1) + Sum(s.workers, Rank)
    + match s.collector
      case Receiving(i) => c.files - i + 2
      case Draining(_) => 1
      case Returned(_) => 0
  }

  // ---- the invariant ----

  function Refusals(c: Config): nat { Sum(Init(c).workers, OwesRefusal) }

  ghost predicate ErrorSent(s: State) {
    exists r :: (r in s.received || r in s.buffer) && IsError(r)
  }

  predicate Counts(s: State) { s.processed + s.skipped == |s.received| && forall r | r in s.received :: !IsError(r) }

  predicate CollectorInv(c: Config, s: State) {
    match s.collector
    case Receiving(i) => i == |s.received| <= c.files && Counts(s)
    case Draining(failed) =>
      if failed then 0 < |s.received| <= c.files && IsError(s.received[|s.received| - 1])
      else |s.received| == c.files && Counts(s)
    case Returned(failed) =>
      && (forall w | w in s.workers :: w.Finished?)
      && if failed then 0 < |s.received| <= c.files && IsError(s.received[|s.received| - 1])
         else |s.received| == c.files && Counts(s)
  }

  ghost predicate WorkerInv(c: Config, s: State, w: Worker, refused: bool) {
    && (refused ==> w == Starting(true) || w.Refused? || w.Finished?)
    && (!refused ==> w != Starting(true) && !w.Refused?)
    && (w.Cancelling? ==> ErrorSent(s))
    && (w.Finished? ==> s.closed || ErrorSent(s))
  }

  predicate Sizes(c: Config, s: State) {
    && |s.workers| == |c.refused| && |s.buffer| <= c.files
    && s.next <= c.files && (s.closed ==> s.next == c.files)
  }

  ghost predicate WorkersInv(c: Config, s: State)
    requires |s.workers| == |c.refused|
  {
    && (forall w | 0 <= w < |s.workers| :: WorkerInv(c, s, s.workers[w], c.refused[w]))
    && (s.cancelled ==> ErrorSent(s)) && (s.dropped != [] ==> s.cancelled)
    && (s.next > 0 ==> exists w :: 0 <= w < |c.refused| && !c.refused[w])
  }

  /** Every result that is owed or was given belongs to one job handed out or
      to one worker that cannot start. */
  ghost predicate Balance(c: Config, s: State) {
    |s.received| + |s.buffer| + Sum(s.workers, Owes) + |s.dropped| == s.next + Refusals(c)
  }

  ghost predicate Inv(c: Config, s: State) {
    Sizes(c, s) && WorkersInv(c, s) && CollectorInv(c, s) && Balance(c, s)
  }

  lemma {:induction false} OwesAtStart(ws: seq<Worker>)
    requires forall w | w in ws :: w.Starting?
    ensures Sum(ws, Owes) == Sum(ws, OwesRefusal)
  {
    if ws == [] {
    } else {
      OwesAtStart(ws[1..]);
    }
  }

  lemma InvInit(c: Config)
    ensures Inv(c, Init(c))
  {
    OwesAtStart(Init(c).workers);
  }

  lemma ErrorStays(c: Config, s: State, a: Action)
    requires Enabled(c, s, a) && ErrorSent(s)
    ensures ErrorSent(Next(c, s, a))
  {
    var s' := Next(c, s, a);
    var r :| (r in s.received || r in s.buffer) && IsError(r);
    if a.Receive? {
      assert s.buffer == [s.buffer[0]] + s.buffer[1..];
    }
    assert r in s'.received || r in s'.buffer;
  }

  lemma ErrorAppears(c: Config, s: State, a: Action)
    requires Enabled(c, s, a)
    requires a.Refuse? || (a.Send? && s.workers[a.w].outcome.Failed?)
    ensures ErrorSent(Next(c, s, a))
  {
    var s' := Next(c, s, a);
    assert s'.buffer[|s.buffer|] in s'.buffer;
  }

  predicate OfWorker(a: Action) { !(a.CloseJobs? || a.Receive? || a.LeaveLoop? || a.Return?) }

  lemma InvStep(c: Config, s: State, a: Action)
    requires Inv(c, s) && Enabled(c, s, a)
    ensures Inv(c, Next(c, s, a))
  {
    WorkersStep(c, s, a);
    CollectorStep(c, s, a);
    BalanceStep(c, s, a);
  }

  lemma BalanceStep(c: Config, s: State, a: Action)
    requires Balance(c, s) && Enabled(c, s, a)
    ensures Balance(c, Next(c, s, a))
  {
    hide Refusals, Sum;
    if OfWorker(a) { SumUpdate(s.workers, a.w, Next(c, s, a).workers[a.w], Owes); }
  }

  lemma SizesStep(c: Config, s: State, a: Action)
    requires Sizes(c, s) && Enabled(c, s, a)
    ensures Sizes(c, Next(c, s, a))
  {
  }

  lemma WorkersStep(c: Config, s: State, a: Action)
    requires Sizes(c, s) && WorkersInv(c, s) && Enabled(c, s, a)
    ensures Sizes(c, Next(c, s, a)) && WorkersInv(c, Next(c, s, a))
  {
    SizesStep(c, s, a);
    var s' := Next(c, s, a);
    if ErrorSent(s) { ErrorStays(c, s, a); }
    if a.Refuse? || (a.Send? && s.workers[a.w].outcome.Failed?) { ErrorAppears(c, s, a); }
    hide ErrorSent, Sum;
    forall w | 0 <= w < |s'.workers| ensures WorkerInv(c, s', s'.workers[w], c.refused[w]) {
      assert WorkerInv(c, s, s.workers[w], c.refused[w]);
      WorkerStep(c, s, a, w);
    }
    hide WorkerInv;
    TakenByWorker(c, s, a);
  }

  lemma WorkerStep(c: Config, s: State, a: Action, w: nat)
    requires Sizes(c, s) && Enabled(c, s, a) && w < |s.workers| && WorkerInv(c, s, s.workers[w], c.refused[w])
    requires ErrorSent(s) || a.Refuse? || (a.Send? && s.workers[a.w].outcome.Failed?) ==> ErrorSent(Next(c, s, a))
    requires s.cancelled ==> ErrorSent(s)
    ensures w < |Next(c, s, a).workers| && WorkerInv(c, Next(c, s, a), Next(c, s, a).workers[w], c.refused[w])
  {
    hide ErrorSent, Sum;
  }

  /** Only a worker that started takes a job. */
  lemma TakenByWorker(c: Config, s: State, a: Action)
    requires Sizes(c, s) && WorkersInv(c, s) && Enabled(c, s, a)
    ensures Next(c, s, a).next > 0 ==> exists w :: 0 <= w < |c.refused| && !c.refused[w]
  {
    hide ErrorSent;
    if a.Take? { assert WorkerInv(c, s, s.workers[a.w], c.refused[a.w]); }
  }

  lemma CollectorStep(c: Config, s: State, a: Action)
    requires Enabled(c, s, a) && CollectorInv(c, s)
    ensures CollectorInv(c, Next(c, s, a))
  {
    if OfWorker(a) {
      SameCollector(c, s, a);
    } else if a.Receive? {
      hide Sum;
    }
  }

  /** A worker's step leaves the collector alone, and comes before it returns. */
  lemma SameCollector(c: Config, s: State, a: Action)
    requires Enabled(c, s, a) && CollectorInv(c, s) && OfWorker(a)
    ensures CollectorInv(c, Next(c, s, a))
  {
    hide IsError;
    assert s.workers[a.w] in s.workers;
    assert !s.collector.Returned?;
  }

  lemma StepDecreases(c: Config, s: State, a: Action)
    requires Inv(c, s) && Enabled(c, s, a)
    ensures Inv(c, Next(c, s, a))
    ensures Measure(c, Next(c, s, a)) < Measure(c, s)
  {
    InvStep(c, s, a);
    MeasureStep(c, s, a);
  }

  lemma MeasureStep(c: Config, s: State, a: Action)
    requires s.next <= c.files && Enabled(c, s, a) && (s.collector.Receiving? ==> s.collector.i <= c.files)
    ensures Next(c, s, a).next <= c.files
    ensures Next(c, s, a).collector.Receiving? ==> Next(c, s, a).collector.i <= c.files
    ensures Measure(c, Next(c, s, a)) < Measure(c, s)
  {
    hide Sum;
    if OfWorker(a) { SumUpdate(s.workers, a.w, Next(c, s, a).workers[a.w], Rank); }
  }

  lemma {:induction false} InvRun(c: Config, s0: State, actions: seq<Action>, s: State)
    requires Inv(c, s0) && Run(c, s0, actions, s)
    ensures Inv(c, s)
    ensures Measure(c, s) + |actions| <= Measure(c, s0)
    decreases |actions|
  {
    if actions == [] {
    } else {
      StepDecreases(c, s0, actions[0]);
      InvRun(c, Next(c, s0, actions[0]), actions[1..], s);
    }
  }

  // ---- when the pool can get stuck ----

  /** With at least one file at most one worker may fail to start, unless all
      do and the buffer takes all their errors but one; with no file none may. */
  predicate Safe(c: Config) {
    var f := Refusals(c);
    if c.files == 0 then f == 0
    else |c.refused| >= 1 && (f <= 1 || (f <= c.files + 1 && forall w | 0 <= w < |c.refused| :: c.refused[w]))
  }

  lemma StuckSenders(c: Config, s: State, w: nat)
    requires Inv(c, s) && Stuck(c, s) && w < |s.workers|
    ensures s.workers[w].Finished? || (|s.buffer| == c.files && (s.workers[w].Refused? || s.workers[w].Reporting?))
  {
    assert !Enabled(c, s, Start(w)) && !Enabled(c, s, Refuse(w)) && !Enabled(c, s, Take(w));
    assert !Enabled(c, s, SeeClosed(w)) && !Enabled(c, s, CloseJobs) && !Enabled(c, s, CheckContext(w));
    assert !Enabled(c, s, Process(w, Written)) && !Enabled(c, s, Send(w)) && !Enabled(c, s, Cancel(w));
  }

  lemma NotStuckReceiving(c: Config, s: State)
    requires Inv(c, s) && Safe(c) && s.collector.Receiving?
    ensures !Stuck(c, s)
  {
    if Stuck(c, s) {
      assert !Enabled(c, s, Receive) && !Enabled(c, s, LeaveLoop);
      assert s.buffer == [] && c.files > 0;
      forall w | w in s.workers ensures Owes(w) == 0 && w.Finished? {
        var i :| 0 <= i < |s.workers| && s.workers[i] == w;
        StuckSenders(c, s, i);
      }
      SumZero(s.workers, Owes);
    }
  }

  lemma NotStuckDraining(c: Config, s: State)
    requires Inv(c, s) && Safe(c) && s.collector.Draining?
    ensures !Stuck(c, s)
  {
    if Stuck(c, s) {
      assert !Enabled(c, s, Return);
      var x :| x in s.workers && !x.Finished?;
      var w :| 0 <= w < |s.workers| && s.workers[w] == x;
      StuckSenders(c, s, w);
      SumAtLeast(s.workers, w, Owes);
    }
  }

  /** In a safe configuration some goroutine can always move until the
      collector returns, and every run is bounded by the initial measure. */
  lemma NeverStuck(c: Config, actions: seq<Action>, s: State)
    requires Safe(c) && Run(c, Init(c), actions, s)
    ensures !Stuck(c, s)
    ensures Inv(c, Init(c)) && |actions| <= Measure(c, Init(c))
  {
    InvInit(c);
    InvRun(c, Init(c), actions, s);
    if s.collector.Receiving? { NotStuckReceiving(c, s); }
    if s.collector.Draining? { NotStuckDraining(c, s); }
  }

  // ---- the other direction ----

  /** The collector takes no more results, and the buffer cannot take all the
      start-up errors still to come. */
  ghost predicate Doomed(c: Config, s: State) {
    s.collector.Draining? && |s.buffer| + Sum(s.workers, OwesRefusal) > c.files
  }

  lemma DoomedStep(c: Config, s: State, a: Action)
    requires Inv(c, s) && Doomed(c, s) && Enabled(c, s, a)
    ensures Doomed(c, Next(c, s, a))
  {
    if OfWorker(a) { SumUpdate(s.workers, a.w, Next(c, s, a).workers[a.w], OwesRefusal); }
    if a.Return? { SumZero(s.workers, OwesRefusal); }
  }

  lemma {:induction false} RunAppend(c: Config, s0: State, actions: seq<Action>, s: State, a: Action)
    requires Run(c, s0, actions, s) && Enabled(c, s, a)
    ensures Run(c, s0, actions + [a], Next(c, s, a))
    decreases |actions|
  {
    if actions == [] {
      assert [a][1..] == [];
    } else {
      assert (actions + [a])[1..] == actions[1..] + [a];
      RunAppend(c, Next(c, s0, actions[0]), actions[1..], s, a);
    }
  }

  lemma ReachNext(c: Config, s: State, a: Action)
    requires Reachable(c, s) && Enabled(c, s, a)
    ensures Reachable(c, Next(c, s, a))
  {
    var actions :| Run(c, Init(c), actions, s);
    RunAppend(c, Init(c), actions, s, a);
  }

  lemma ReachInv(c: Config, s: State)
    requires Reachable(c, s)
    ensures Inv(c, s)
  {
    var actions :| Run(c, Init(c), actions, s);
    InvInit(c);
    InvRun(c, Init(c), actions, s);
  }

  /** A doomed run, however it goes on, ends stuck. */
  lemma DoomedGetsStuck(c: Config, s: State) returns (stuck: State)
    requires Reachable(c, s) && Inv(c, s) && Doomed(c, s)
    ensures Reachable(c, stuck) && Stuck(c, stuck)
    decreases Measure(c, s)
  {
    if a :| Enabled(c, s, a) {
      ReachNext(c, s, a);
      DoomedStep(c, s, a);
      StepDecreases(c, s, a);
      stuck := DoomedGetsStuck(c, Next(c, s, a));
    } else {
      stuck := s;
    }
  }

  /** The start of a run in which a refused worker reports before any other. */
  lemma FirstRefusal(c: Config, w: nat) returns (s: State)
    requires c.files > 0 && w < |c.refused| && c.refused[w]
    ensures Reachable(c, s)
    ensures s == Init(c).(workers := Init(c).workers[w := Finished], collector := Draining(true),
                          received := [StartError])
    ensures Sum(s.workers, OwesRefusal) + 1 == Refusals(c)
  {
    var s0 := Init(c);
    assert Run(c, s0, [], s0);
    var s1 := Next(c, s0, Start(w));
    ReachNext(c, s0, Start(w));
    var s2 := Next(c, s1, Refuse(w));
    ReachNext(c, s1, Refuse(w));
    s := Next(c, s2, Receive);
    ReachNext(c, s2, Receive);
    assert s.workers == s0.workers[w := Finished];
    SumUpdate(s0.workers, w, Finished, OwesRefusal);
  }

  /** A healthy worker takes and finishes one more file. */
  lemma OneMoreFile(c: Config, s: State, w: nat) returns (s': State)
    requires Reachable(c, s) && At(s, w, Idle) && !s.cancelled && s.next < c.files && |s.buffer| < c.files
    ensures Reachable(c, s')
    ensures s' == s.(next := s.next + 1, buffer := s.buffer + [JobResult(s.next, Written)])
  {
    var s1 := Next(c, s, Take(w));
    ReachNext(c, s, Take(w));
    var s2 := Next(c, s1, CheckContext(w));
    ReachNext(c, s1, CheckContext(w));
    var s3 := Next(c, s2, Process(w, Written));
    ReachNext(c, s2, Process(w, Written));
    s' := Next(c, s3, Send(w));
    ReachNext(c, s3, Send(w));
    assert s'.workers == s.workers;
  }

  lemma AllFiles(c: Config, s: State, w: nat) returns (s': State)
    requires Reachable(c, s) && At(s, w, Idle) && !s.cancelled && s.next == |s.buffer| <= c.files
    ensures Reachable(c, s') && |s'.buffer| == c.files
    ensures s'.workers == s.workers && s'.collector == s.collector
    decreases c.files - s.next
  {
    if s.next == c.files {
      s' := s;
    } else {
      s' := OneMoreFile(c, s, w);
      s' := AllFiles(c, s', w);
    }
  }

  lemma ReachesDoom(c: Config) returns (s: State)
    requires !Safe(c) && |c.refused| > 0
    ensures Reachable(c, s) && Doomed(c, s)
  {
    var s0 := Init(c);
    if c.files == 0 {
      assert Run(c, s0, [], s0);
      ReachNext(c, s0, LeaveLoop);
      s := Next(c, s0, LeaveLoop);
    } else {
      if forall w | 0 <= w < |c.refused| :: !c.refused[w] { SumZero(s0.workers, OwesRefusal); }
      var w :| 0 <= w < |c.refused| && c.refused[w];
      s := FirstRefusal(c, w);
      if Refusals(c) <= c.files + 1 {
        var h :| 0 <= h < |c.refused| && !c.refused[h];
        ReachNext(c, s, Start(h));
        var before := s.workers;
        s := Next(c, s, Start(h));
        SumUpdate(before, h, Idle, OwesRefusal);
        s := AllFiles(c, s, h);
      }
    }
  }

  /** Outside the safe configurations some run gets stuck, so the condition
      is exact. */
  lemma SafeIsNeeded(c: Config) returns (stuck: State)
    requires !Safe(c)
    ensures Reachable(c, stuck) && Stuck(c, stuck)
  {
    if |c.refused| == 0 {
      stuck := Init(c);
      assert Run(c, stuck, [], stuck);
    } else {
      var s := ReachesDoom(c);
      ReachInv(c, s);
      stuck := DoomedGetsStuck(c, s);
    }
  }

  /** No interleaving deadlocks the pool if and only if it is safe. */
  lemma DeadlockFreeIff(c: Config)
    ensures Safe(c) <==> forall s | Reachable(c, s) :: !Stuck(c, s)
  {
    if Safe(c) {
      forall s | Reachable(c, s) ensures !Stuck(c, s) {
        var actions :| Run(c, Init(c), actions, s);
        NeverStuck(c, actions, s);
      }
    } else {
      var stuck := SafeIsNeeded(c);
    }
  }

  // ---- what a returning pool has done ----

  function Count(rs: seq<Result>, j: nat): nat {
    if rs == [] then 0 else Is(rs[0], j) + Count(rs[1..], j)
  }

  function CountDropped(jobs: seq<nat>, j: nat): nat {
    if jobs == [] then 0 else (if jobs[|jobs| - 1] == j then 1 else 0) + CountDropped(jobs[..|jobs| - 1], j)
  }

  function HasJob(j: nat): Worker -> nat {
    (w: Worker) => if (w.Holding? || w.Working? || w.Reporting?) && w.job == j then 1 else 0
  }

  /** In how many places job `j` is: received, in the buffer, with a worker,
      or dropped after a cancellation. */
  function Places(s: State, j: nat): nat {
    Count(s.received, j) + Count(s.buffer, j) + Sum(s.workers, HasJob(j)) + CountDropped(s.dropped, j)
  }

  ghost predicate OnePlace(s: State, j: nat) { Places(s, j) == if j < s.next then 1 else 0 }

  function Is(r: Result, j: nat): nat { if r.JobResult? && r.job == j then 1 else 0 }

  lemma {:induction false} CountAppend(rs: seq<Result>, r: Result, j: nat)
    ensures Count(rs + [r], j) == Count(rs, j) + Is(r, j)
  {
    if rs == [] {
    } else {
      assert (rs + [r])[1..] == rs[1..] + [r];
      CountAppend(rs[1..], r, j);
    }
  }

  lemma CountFront(rs: seq<Result>, j: nat)
    requires rs != []
    ensures Count(rs, j) == Is(rs[0], j) + Count(rs[1..], j)
  {
  }

  lemma DropAppend(jobs: seq<nat>, job: nat, j: nat)
    ensures CountDropped(jobs + [job], j) == CountDropped(jobs, j) + if job == j then 1 else 0
  {
    assert (jobs + [job])[..|jobs|] == jobs;
  }

  lemma PlacesStep(c: Config, s: State, a: Action, j: nat)
    requires OnePlace(s, j) && Enabled(c, s, a)
    ensures OnePlace(Next(c, s, a), j)
  {
    hide Count, CountDropped, Sum, HasJob, Is;
    if OfWorker(a) {
      WorkerPlacesStep(c, s, a, j);
    } else if a.Receive? {
      CountFront(s.buffer, j);
      CountAppend(s.received, s.buffer[0], j);
    }
  }

  lemma WorkerPlacesStep(c: Config, s: State, a: Action, j: nat)
    requires OnePlace(s, j) && Enabled(c, s, a) && OfWorker(a)
    ensures OnePlace(Next(c, s, a), j)
  {
    hide Count, CountDropped, Sum;
    var s', w := Next(c, s, a), s.workers[a.w];
    SumUpdate(s.workers, a.w, s'.workers[a.w], HasJob(j));
    match a
    case Refuse(_) => CountAppend(s.buffer, StartError, j);
    case Send(_) => CountAppend(s.buffer, JobResult(w.job, w.outcome), j);
    case CheckContext(_) => DropAppend(s.dropped, w.job, j);
    case _ =>
  }

  lemma {:induction false} PlacesRun(c: Config, s0: State, actions: seq<Action>, s: State, j: nat)
    requires OnePlace(s0, j) && Run(c, s0, actions, s)
    ensures OnePlace(s, j)
    decreases |actions|
  {
    if actions == [] {
    } else {
      PlacesStep(c, s0, actions[0], j);
      PlacesRun(c, Next(c, s0, actions[0]), actions[1..], s, j);
    }
  }

  /** In every run each job handed out is in exactly one place. */
  lemma JobsConserved(c: Config, actions: seq<Action>, s: State, j: nat)
    requires Run(c, Init(c), actions, s)
    ensures Places(s, j) == if j < s.next then 1 else 0
  {
    SumZero(Init(c).workers, HasJob(j));
    PlacesRun(c, Init(c), actions, s, j);
  }

  /** The number of results for the jobs below `n`. */
  function Total(rs: seq<Result>, n: nat): nat { if n == 0 then 0 else Total(rs, n - 1) + Count(rs, n - 1) }

  lemma {:induction false} TotalFront(rs: seq<Result>, n: nat)
    requires rs != []
    ensures Total(rs, n) == Total(rs[1..], n) + if rs[0].JobResult? && rs[0].job < n then 1 else 0
  {
    if n == 0 {
    } else {
      TotalFront(rs, n - 1);
    }
  }

  lemma {:induction false} TotalIsLength(rs: seq<Result>, n: nat)
    requires forall r | r in rs :: r.JobResult?
    requires forall j: nat | j >= n :: Count(rs, j) == 0
    ensures Total(rs, n) == |rs|
  {
    if rs == [] {
      TotalOfNothing(n);
    } else {
      TotalFront(rs, n);
      assert Count(rs, rs[0].job) > 0;
      forall j: nat | j >= n ensures Count(rs[1..], j) == 0 {
        assert Count(rs, j) == 0;
      }
      TotalIsLength(rs[1..], n);
    }
  }

  lemma {:induction false} TotalOfNothing(n: nat)
    ensures Total([], n) == 0
  {
    if n == 0 {
    } else {
      TotalOfNothing(n - 1);
    }
  }

  /** If no job below `n` has two results and there are `n` of them, each has one. */
  lemma {:induction false} EachOnce(rs: seq<Result>, n: nat)
    requires forall j: nat | j < n :: Count(rs, j) <= 1
    ensures Total(rs, n) <= n
    ensures Total(rs, n) == n ==> forall j: nat | j < n :: Count(rs, j) == 1
  {
    if n == 0 {
    } else {
      EachOnce(rs, n - 1);
    }
  }

  /** When the pool returns without an error, it took exactly one result for
      each file, and every file was counted once as processed or skipped. */
  lemma SuccessMeansAll(c: Config, actions: seq<Action>, s: State)
    requires Run(c, Init(c), actions, s) && s.collector == Returned(false)
    ensures s.processed + s.skipped == |s.received| == c.files
    ensures forall j: nat | j < c.files :: Count(s.received, j) == 1
    ensures forall r | r in s.received :: r.JobResult? && !r.outcome.Failed?
    ensures forall w | w in s.workers :: w.Finished?
  {
    InvInit(c);
    InvRun(c, Init(c), actions, s);
    forall j: nat ensures Count(s.received, j) <= if j < s.next then 1 else 0 {
      JobsConserved(c, actions, s, j);
    }
    TotalIsLength(s.received, c.files);
    EachOnce(s.received, c.files);
  }

  /** An error is returned only if a worker could not start or a file failed,
      and then all workers have finished. */
  lemma ErrorMeansFailure(c: Config, actions: seq<Action>, s: State)
    requires Run(c, Init(c), actions, s) && s.collector == Returned(true)
    ensures exists r :: r in s.received && IsError(r)
    ensures forall w | w in s.workers :: w.Finished?
  {
    InvInit(c);
    InvRun(c, Init(c), actions, s);
    assert s.received[|s.received| - 1] in s.received;
  }
}
