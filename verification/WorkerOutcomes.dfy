/** What a run of the document worker pool says about its files
    (scripts/docs-i18n/main.go): how results are counted, and what the
    cancellation of the context stops. */
module WorkerOutcomes {
  import opened WorkerPool

  // ---- counting results ----

  function Says(r: Result, o: Outcome): nat { if r.JobResult? && r.outcome == o then 1 else 0 }

  /** How many results have the outcome. */
  function Tally(rs: seq<Result>, o: Outcome): nat {
    if rs == [] then 0 else Says(rs[0], o) + Tally(rs[1..], o)
  }

  lemma {:induction false} TallyAppend(rs: seq<Result>, r: Result, o: Outcome)
    ensures Tally(rs + [r], o) == Tally(rs, o) + Says(r, o)
  {
    if rs == [] {
    } else {
      assert (rs + [r])[1..] == rs[1..] + [r];
      TallyAppend(rs[1..], r, o);
    }
  }

  /** The two counters are those of the results received. */
  predicate Counted(s: State) {
    s.processed == Tally(s.received, Written) && s.skipped == Tally(s.received, AlreadyDone)
  }

  lemma CountedStep(c: Config, s: State, a: Action)
    requires Counted(s) && Enabled(c, s, a)
    ensures Counted(Next(c, s, a))
  {
    hide Tally;
    if a.Receive? {
      TallyAppend(s.received, s.buffer[0], Written);
      TallyAppend(s.received, s.buffer[0], AlreadyDone);
    }
  }

  /** In every run, wherever the collector is, the files counted as processed are
      those whose result was that they were written, and those counted as skipped
      those that had nothing to do. */
  lemma {:induction false} ResultsAreCounted(c: Config, s0: State, actions: seq<Action>, s: State)
    requires Counted(s0) && Run(c, s0, actions, s)
    ensures s.processed == Tally(s.received, Written) && s.skipped == Tally(s.received, AlreadyDone)
    decreases |actions|
  {
    if actions == [] {
    } else {
      CountedStep(c, s0, actions[0]);
      hide Next, Enabled, Counted;
      ResultsAreCounted(c, Next(c, s0, actions[0]), actions[1..], s);
    }
  }

  // ---- what became of the files that were processed ----

  /** How many files were processed with the outcome. */
  function Ended(actions: seq<Action>, o: Outcome): nat {
    if actions == [] then 0
    else (if actions[0].Process? && actions[0].outcome == o then 1 else 0) + Ended(actions[1..], o)
  }

  function Reports(o: Outcome): Worker -> nat { (w: Worker) => if w.Reporting? && w.outcome == o then 1 else 0 }

  /** Where such an outcome is: received, in the buffer, or about to be sent. */
  function Known(s: State, o: Outcome): nat {
    Tally(s.received, o) + Tally(s.buffer, o) + Sum(s.workers, Reports(o))
  }

  lemma KnownStep(c: Config, s: State, a: Action, o: Outcome)
    requires Enabled(c, s, a)
    ensures Known(Next(c, s, a), o) == Known(s, o) + if a.Process? && a.outcome == o then 1 else 0
  {
    hide Tally, Sum, Says;
    if OfWorker(a) {
      WorkerKnownStep(c, s, a, o);
    } else if a.Receive? {
      TallyAppend(s.received, s.buffer[0], o);
      TallyFront(s.buffer, o);
    }
  }

  lemma WorkerKnownStep(c: Config, s: State, a: Action, o: Outcome)
    requires Enabled(c, s, a) && OfWorker(a)
    ensures Known(Next(c, s, a), o) == Known(s, o) + if a.Process? && a.outcome == o then 1 else 0
  {
    hide Tally, Sum;
    var s', w := Next(c, s, a), s.workers[a.w];
    SumUpdate(s.workers, a.w, s'.workers[a.w], Reports(o));
    match a
    case Refuse(_) => TallyAppend(s.buffer, StartError, o);
    case Send(_) => TallyAppend(s.buffer, JobResult(w.job, w.outcome), o);
    case _ =>
  }

  lemma TallyFront(rs: seq<Result>, o: Outcome)
    requires rs != []
    ensures Tally(rs, o) == Says(rs[0], o) + Tally(rs[1..], o)
  {
  }

  /** No outcome is lost, changed or made up. */
  lemma {:induction false} OutcomesConserved(c: Config, s0: State, actions: seq<Action>, s: State, o: Outcome)
    requires Run(c, s0, actions, s)
    ensures Known(s, o) == Known(s0, o) + Ended(actions, o)
    decreases |actions|
  {
    if actions == [] {
    } else {
      KnownStep(c, s0, actions[0], o);
      hide Next, Enabled, Known;
      OutcomesConserved(c, Next(c, s0, actions[0]), actions[1..], s, o);
    }
  }

  /** When each job below `files` has a result in `received`, the buffer has none. */
  lemma {:induction false} NoneBuffered(rs: seq<Result>, o: Outcome)
    requires forall j: nat :: Count(rs, j) == 0
    ensures Tally(rs, o) == 0
  {
    if rs == [] {
    } else {
      assert rs[0].JobResult? ==> Count(rs, rs[0].job) > 0;
      forall j: nat ensures Count(rs[1..], j) == 0 { CountFront(rs, j); }
      NoneBuffered(rs[1..], o);
    }
  }

  /** A return without an error reports as processed just the files that were
      written in the run, and as skipped just those that had nothing to do; no
      file failed. */
  lemma SuccessReports(c: Config, actions: seq<Action>, s: State)
    requires Run(c, Init(c), actions, s) && s.collector == Returned(false)
    ensures s.processed == Ended(actions, Written) && s.skipped == Ended(actions, AlreadyDone)
    ensures Ended(actions, Failed) == 0
  {
    assert Counted(Init(c));
    hide Run, Count, Tally, Ended;
    ResultsAreCounted(c, Init(c), actions, s);
    SuccessMeansAll(c, actions, s);
    forall j: nat ensures Count(s.buffer, j) == 0 { JobElsewhere(c, actions, s, j); }
    forall o: Outcome ensures Tally(s.received, o) == Ended(actions, o) {
      KnownAtEnds(c, actions, s, o);
      NoneBuffered(s.buffer, o);
    }
    NoneFailed(s.received);
  }

  lemma JobElsewhere(c: Config, actions: seq<Action>, s: State, j: nat)
    requires Run(c, Init(c), actions, s)
    requires j < c.files ==> Count(s.received, j) == 1
    ensures Count(s.buffer, j) == 0
  {
    InvInit(c);
    InvRun(c, Init(c), actions, s);
    JobsConserved(c, actions, s, j);
    hide Run, Count, Sum, Inv;
  }

  lemma {:induction false} NoneFailed(rs: seq<Result>)
    requires forall r | r in rs :: r.JobResult? && !r.outcome.Failed?
    ensures Tally(rs, Failed) == 0
  {
    if rs == [] {
    } else {
      assert rs[0] in rs;
      NoneFailed(rs[1..]);
    }
  }

  // ---- cancellation ----

  function IsCancelling(w: Worker): nat { if w.Cancelling? then 1 else 0 }

  function IsWorking(w: Worker): nat { if w.Working? then 1 else 0 }

  /** The context is cancelled for failed files, and for nothing else. */
  predicate CancelledForFailure(s: State) {
    s.cancelled || Sum(s.workers, IsCancelling) > 0 <==> Tally(s.received, Failed) + Tally(s.buffer, Failed) > 0
  }

  lemma CancelledStep(c: Config, s: State, a: Action)
    requires CancelledForFailure(s) && Enabled(c, s, a)
    ensures CancelledForFailure(Next(c, s, a))
  {
    hide Tally, Sum;
    var s' := Next(c, s, a);
    if OfWorker(a) {
      SumUpdate(s.workers, a.w, s'.workers[a.w], IsCancelling);
      match a
      case Refuse(_) => TallyAppend(s.buffer, StartError, Failed);
      case Send(w) => TallyAppend(s.buffer, JobResult(s.workers[w].job, s.workers[w].outcome), Failed);
      case _ =>
    } else if a.Receive? {
      TallyAppend(s.received, s.buffer[0], Failed);
      TallyFront(s.buffer, Failed);
    }
  }

  lemma {:induction false} CancelledRun(c: Config, s0: State, actions: seq<Action>, s: State)
    requires CancelledForFailure(s0) && Run(c, s0, actions, s)
    ensures CancelledForFailure(s)
    decreases |actions|
  {
    if actions == [] {
    } else {
      CancelledStep(c, s0, actions[0]);
      hide Next, Enabled, CancelledForFailure;
      CancelledRun(c, Next(c, s0, actions[0]), actions[1..], s);
    }
  }

  lemma ReturnedIsFinished(c: Config, actions: seq<Action>, s: State)
    requires Run(c, Init(c), actions, s) && s.collector.Returned?
    ensures forall w | w in s.workers :: w.Finished?
  {
    InvInit(c);
    InvRun(c, Init(c), actions, s);
  }

  lemma KnownAtEnds(c: Config, actions: seq<Action>, s: State, o: Outcome)
    requires Run(c, Init(c), actions, s) && forall w | w in s.workers :: w.Finished?
    ensures Tally(s.received, o) + Tally(s.buffer, o) == Ended(actions, o)
  {
    hide Run;
    OutcomesConserved(c, Init(c), actions, s, o);
    SumZero(Init(c).workers, Reports(o));
    SumZero(s.workers, Reports(o));
  }

  /** When the pool has returned, the context was cancelled if and only if some
      file of the run failed; a worker that could not start cancels nothing. */
  lemma CancelledIffFailed(c: Config, actions: seq<Action>, s: State)
    requires Run(c, Init(c), actions, s) && s.collector.Returned?
    ensures s.cancelled <==> Ended(actions, Failed) > 0
  {
    hide Run;
    SumZero(Init(c).workers, IsCancelling);
    CancelledRun(c, Init(c), actions, s);
    ReturnedIsFinished(c, actions, s);
    KnownAtEnds(c, actions, s, Failed);
    SumZero(s.workers, IsCancelling);
  }

  /** How many files were processed. */
  function Files(actions: seq<Action>): nat {
    if actions == [] then 0 else (if actions[0].Process? then 1 else 0) + Files(actions[1..])
  }

  lemma WorkingStep(c: Config, s: State, a: Action)
    requires s.cancelled && Enabled(c, s, a)
    ensures Next(c, s, a).cancelled
    ensures Sum(Next(c, s, a).workers, IsWorking) + (if a.Process? then 1 else 0) == Sum(s.workers, IsWorking)
  {
    hide Sum;
    if OfWorker(a) { SumUpdate(s.workers, a.w, Next(c, s, a).workers[a.w], IsWorking); }
  }

  /** Once the context is cancelled no further file is begun: those still to be
      processed are those that workers were at. */
  lemma {:induction false} CancelStopsWork(c: Config, s0: State, actions: seq<Action>, s: State)
    requires s0.cancelled && Run(c, s0, actions, s)
    ensures Files(actions) + Sum(s.workers, IsWorking) == Sum(s0.workers, IsWorking)
    decreases |actions|
  {
    if actions == [] {
    } else {
      WorkingStep(c, s0, actions[0]);
      hide Next, Enabled;
      CancelStopsWork(c, Next(c, s0, actions[0]), actions[1..], s);
    }
  }
}
