/** The relay from a spawned run to its parent session
    (src/agents/acp-spawn-parent-stream.ts), as a state machine. */
module StreamRelay {
  import opened Text
  import opened SessionKeys

  const BUFFER_MAX := 4000
  const SNIPPET_MAX := 220

  datatype Config = Config(streamFlushMs: nat, noOutputNoticeMs: nat)

  datatype Notice =
    | Start
    | Progress(snippet: string)
    | Stall
    | Resumed
    | Done
    | Failed(error: string)
    | TimedOut

  /** `accepted` are the deltas taken in, `flushed` the buffers that were sent,
      as they were before shortening. */
  datatype State = State(disposed: bool, pendingText: string, lastProgressAt: int, stallNotified: bool,
                         flushArmed: bool,
                         lifetimeArmed: bool, notices: seq<Notice>, accepted: seq<string>, flushed: seq<string>)

  function Init(now: int, emitStartNotice: bool): State {
    State(false, "", now, false, false, true, if emitStartNotice then [Start] else [], [], [])
  }

  // ---- text ----

  predicate Blank(s: string) { forall i | 0 <= i < |s| :: JsSpace(s[i]) }

  /** Every run of white space becomes one space. */
  function Collapse(s: string, inRun: bool): string {
    if s == "" then ""
    else if JsSpace(s[0]) then (if inRun then "" else " ") + Collapse(s[1..], true)
    else [s[0]] + Collapse(s[1..], false)
  }

  function Compact(s: string): string { TrimJs(Collapse(s, false)) }

  function Truncate(s: string, maxChars: nat): (r: string)
    ensures |r| <= maxChars
    ensures |s| <= maxChars ==> r == s
  {
    if |s| <= maxChars then s
    else if maxChars <= 1 then s[..maxChars]
    else s[..maxChars - 1] + [0x2026 as char]
  }

  function Snippet(buffer: string): string { Truncate(Compact(buffer), SNIPPET_MAX) }

  function Concat(parts: seq<string>): string {
    if parts == [] then "" else Concat(parts[..|parts| - 1]) + parts[|parts| - 1]
  }

  /** `slice(-n)`. */
  function Last(s: string, n: nat): string { if |s| <= n then s else s[|s| - n..] }

  // ---- events ----

  datatype Payload = Missing | NotText | Text(text: string)

  /** The delta an assistant event carries, unless it is blank. */
  function Delta(delta: Payload, text: Payload): Option<string> {
    var candidate := if delta.Missing? then text else delta;
    if candidate.Text? && TrimJs(candidate.text) != "" then Some(candidate.text) else None
  }

  datatype Step =
    | Assistant(delta: Payload, text: Payload, now: int)
    | Ended
    | Errored(error: string)
    | OtherEvent
    | FlushTimer
    | Watch(now: int)
    | Lifetime
    | Dispose
    | NotifyStarted

  function Emit(st: State, n: Notice): State { st.(notices := st.notices + [n]) }

  function Flushed(st: State): State {
    var quiet := st.(flushArmed := false);
    if st.pendingText == "" then quiet
    else
      var sent := quiet.(pendingText := "", flushed := st.flushed + [st.pendingText]);
      if Snippet(st.pendingText) == "" then sent else Emit(sent, Progress(Snippet(st.pendingText)))
  }

  function Scheduled(c: Config, st: State): State {
    if st.disposed || c.streamFlushMs == 0 then st else st.(flushArmed := true)
  }

  function Disposed(st: State): State {
    if st.disposed then st else st.(disposed := true, flushArmed := false, lifetimeArmed := false)
  }

  /** The state once the delta is in the buffer. */
  function Buffered(st: State, delta: string, now: int): State {
    var awake := if st.stallNotified then Emit(st.(stallNotified := false), Resumed) else st;
    awake.(lastProgressAt := now, pendingText := Last(st.pendingText + delta, BUFFER_MAX),
           accepted := st.accepted + [delta])
  }

  predicate FlushNow(st: State, delta: string) { |st.pendingText| >= SNIPPET_MAX || Contains(delta, "\n\n") }

  function Taken(c: Config, st: State, delta: string, now: int): State {
    var full := Buffered(st, delta, now);
    if FlushNow(full, delta) then Flushed(full) else Scheduled(c, full)
  }

  predicate StallDue(c: Config, st: State, now: int) {
    !st.disposed && c.noOutputNoticeMs > 0 && !st.stallNotified && now - st.lastProgressAt >= c.noOutputNoticeMs
  }

  /** Timers that are not armed do not fire; the watcher runs until disposal. */
  predicate Enabled(st: State, step: Step) {
    match step
    case FlushTimer => st.flushArmed
    case Lifetime => st.lifetimeArmed
    case Watch(_) => !st.disposed
    case _ => true
  }

  function Apply(c: Config, st: State, step: Step): State {
    match step
    case Assistant(delta, text, now) =>
      if st.disposed || Delta(delta, text).None? then st else Taken(c, st, Delta(delta, text).value, now)
    case Ended => if st.disposed then st else Disposed(Emit(Flushed(st), Done))
    case Errored(error) => if st.disposed then st else Disposed(Emit(Flushed(st), Failed(error)))
    case OtherEvent => st
    case FlushTimer => Flushed(st)
    case Watch(now) => if StallDue(c, st, now) then Emit(st.(stallNotified := true), Stall) else st
    case Lifetime => if st.disposed then st else Disposed(Emit(st, TimedOut))
    case Dispose => Disposed(st)
    case NotifyStarted => Emit(st, Start)
  }

  // ---- the buffer ----

  lemma {:induction false} CollapseBlank(s: string, inRun: bool)
    ensures Blank(Collapse(s, inRun)) <==> Blank(s)
  {
    if s == "" {
    } else {
      var first, rest := [s[0]], Collapse(s[1..], JsSpace(s[0]));
      CollapseBlank(s[1..], JsSpace(s[0]));
      BlankParts(first, s[1..]);
      assert s == first + s[1..];
      var head := if !JsSpace(s[0]) then first else if inRun then "" else " ";
      BlankParts(head, rest);
      assert Collapse(s, inRun) == head + rest;
    }
  }

  lemma BlankParts(a: string, b: string)
    ensures Blank(a + b) <==> Blank(a) && Blank(b)
  {
    if Blank(a + b) {
      forall i | 0 <= i < |b| ensures JsSpace(b[i]) { assert (a + b)[|a| + i] == b[i]; }
      forall i | 0 <= i < |a| ensures JsSpace(a[i]) { assert (a + b)[i] == a[i]; }
    }
  }

  lemma TrimBlankIff(s: string)
    ensures TrimJs(s) == "" <==> Blank(s)
  {
    TrimLeftParts(s, JsSpace);
    var t := TrimLeft(s, JsSpace);
    TrimRightParts(t, JsSpace);
    var k :| 0 <= k <= |s| && t == s[k..];
    TrimLeftDrops(s);
    TrimRightDrops(t);
  }

  lemma {:induction false} TrimLeftDrops(s: string)
    ensures TrimLeft(s, JsSpace) == "" <==> Blank(s)
  {
    if s == "" {
    } else {
      TrimLeftDrops(s[1..]);
      BlankParts([s[0]], s[1..]);
      assert s == [s[0]] + s[1..];
    }
  }

  lemma {:induction false} TrimRightDrops(s: string)
    ensures TrimRight(s, JsSpace) == "" <==> Blank(s)
  {
    if s == "" {
    } else {
      TrimRightDrops(s[..|s| - 1]);
      BlankParts(s[..|s| - 1], [s[|s| - 1]]);
      assert s == s[..|s| - 1] + [s[|s| - 1]];
    }
  }

  /** A buffer is sent as a notice exactly when it is not blank. */
  lemma SnippetBlankIff(buffer: string)
    ensures Snippet(buffer) == "" <==> Blank(buffer)
  {
    CollapseBlank(buffer, false);
    TrimBlankIff(Collapse(buffer, false));
    hide TrimJs, Collapse, Blank;
  }

  lemma ConcatSnoc(parts: seq<string>, last: string)
    ensures Concat(parts + [last]) == Concat(parts) + last
  {
    assert (parts + [last])[..|parts|] == parts;
  }

  /** What was taken in is what was sent followed by what is pending. */
  ghost predicate Conserved(st: State) { Concat(st.flushed) + st.pendingText == Concat(st.accepted) }

  lemma FlushConserves(st: State)
    ensures Concat(Flushed(st).flushed) + Flushed(st).pendingText == Concat(st.flushed) + st.pendingText
    ensures Flushed(st).accepted == st.accepted
  {
    hide Snippet;
    ConcatSnoc(st.flushed, st.pendingText);
    hide Concat;
    assert Concat(st.flushed) + "" == Concat(st.flushed);
  }

  /** Taking a delta in loses nothing exactly when it fits the buffer. */
  lemma TakeConservesIff(c: Config, st: State, delta: string, now: int)
    requires Conserved(st)
    ensures Conserved(Taken(c, st, delta, now)) <==> |st.pendingText| + |delta| <= BUFFER_MAX
  {
    hide Flushed, FlushNow, Scheduled;
    var full := Buffered(st, delta, now);
    ConcatSnoc(st.accepted, delta);
    FlushConserves(full);
    ScheduleConserves(c, full);
    hide Concat;
    var sent, all := Concat(st.flushed), st.pendingText + delta;
    assert Concat(full.accepted) == sent + all;
    assert Concat(full.flushed) == sent && full.pendingText == Last(all, BUFFER_MAX);
  }

  lemma ScheduleConserves(c: Config, st: State)
    ensures Conserved(Scheduled(c, st)) <==> Conserved(st)
  {
    hide Concat;
  }

  /** Between events less than a snippet is pending, and the flush timer is
      armed exactly when something is. */
  ghost predicate Settled(c: Config, st: State) {
    && |st.pendingText| < SNIPPET_MAX
    && (st.flushArmed <==> st.pendingText != "" && !st.disposed && c.streamFlushMs > 0)
    && (st.lifetimeArmed <==> !st.disposed)
  }

  lemma TakenSettled(c: Config, st: State, delta: string, now: int)
    requires Settled(c, st) && !st.disposed && delta != ""
    ensures Settled(c, Taken(c, st, delta, now))
  {
    hide Snippet, Contains;
  }

  lemma StepSettled(c: Config, st: State, step: Step)
    requires Settled(c, st) && Enabled(st, step)
    ensures Settled(c, Apply(c, st, step))
  {
    hide Snippet, TrimJs, Taken;
    if step.Assistant? && !st.disposed && Delta(step.delta, step.text).Some? {
      TrimOfEmpty();
      TakenSettled(c, st, Delta(step.delta, step.text).value, step.now);
    }
  }

  lemma TrimOfEmpty()
    ensures TrimJs("") == ""
  {
  }

  /** An accepted delta of this length always fits. */
  const DELTA_MAX := BUFFER_MAX - SNIPPET_MAX + 1

  predicate Short(step: Step) {
    step.Assistant? && Delta(step.delta, step.text).Some? ==> |Delta(step.delta, step.text).value| <= DELTA_MAX
  }

  lemma StepConserves(c: Config, st: State, step: Step)
    requires Conserved(st) && Settled(c, st) && Enabled(st, step) && Short(step)
    ensures Conserved(Apply(c, st, step))
  {
    hide Snippet, TrimJs, Taken, Flushed, Concat;
    FlushConserves(st);
    if step.Assistant? && !st.disposed && Delta(step.delta, step.text).Some? {
      TakeConservesIff(c, st, Delta(step.delta, step.text).value, step.now);
    }
  }

  // ---- the notices ----

  /** The snippets of the buffers that were not blank. */
  function Snippets(buffers: seq<string>): seq<Notice> {
    if buffers == [] then []
    else
      var n := |buffers| - 1;
      Snippets(buffers[..n]) + (if Snippet(buffers[n]) == "" then [] else [Progress(Snippet(buffers[n]))])
  }

  function Pick(notices: seq<Notice>, wanted: Notice -> bool): seq<Notice> {
    if notices == [] then []
    else
      var n := |notices| - 1;
      Pick(notices[..n], wanted) + (if wanted(notices[n]) then [notices[n]] else [])
  }

  lemma PickSnoc(notices: seq<Notice>, n: Notice, wanted: Notice -> bool)
    ensures Pick(notices + [n], wanted) == Pick(notices, wanted) + if wanted(n) then [n] else []
  {
    assert (notices + [n])[..|notices|] == notices;
  }

  predicate IsProgress(n: Notice) { n.Progress? }

  predicate IsStall(n: Notice) { n.Stall? || n.Resumed? }

  predicate IsFinal(n: Notice) { n.Done? || n.Failed? || n.TimedOut? }

  /** Stall and resumed take turns, stall first; the flag is up after a stall. */
  ghost predicate Alternates(st: State) {
    var turns := Pick(st.notices, IsStall);
    && (forall i | 0 <= i < |turns| :: turns[i] == if i % 2 == 0 then Stall else Resumed)
    && (st.stallNotified <==> |turns| % 2 == 1)
  }

  ghost predicate FinalOnce(st: State) {
    |Pick(st.notices, IsFinal)| <= 1 && (Pick(st.notices, IsFinal) != [] ==> st.disposed)
  }

  /** The progress notices are the flushed buffers, shortened. */
  ghost predicate ProgressIsFlushed(st: State) { Pick(st.notices, IsProgress) == Snippets(st.flushed) }

  ghost predicate Orderly(st: State) { Alternates(st) && FinalOnce(st) && ProgressIsFlushed(st) }

  lemma EmitPicks(st: State, n: Notice)
    ensures Pick(Emit(st, n).notices, IsStall) == Pick(st.notices, IsStall) + if IsStall(n) then [n] else []
    ensures Pick(Emit(st, n).notices, IsFinal) == Pick(st.notices, IsFinal) + if IsFinal(n) then [n] else []
    ensures Pick(Emit(st, n).notices, IsProgress) == Pick(st.notices, IsProgress) + if IsProgress(n) then [n] else []
  {
    PickSnoc(st.notices, n, IsStall);
    PickSnoc(st.notices, n, IsFinal);
    PickSnoc(st.notices, n, IsProgress);
  }

  lemma SnippetsSnoc(buffers: seq<string>, last: string)
    ensures Snippets(buffers + [last])
            == Snippets(buffers) + if Snippet(last) == "" then [] else [Progress(Snippet(last))]
  {
    hide Snippet;
    assert (buffers + [last])[..|buffers|] == buffers;
  }

  lemma FlushOrderly(st: State)
    requires Orderly(st)
    ensures Orderly(Flushed(st))
  {
    hide Snippet, Pick, Snippets;
    SnippetsSnoc(st.flushed, st.pendingText);
    EmitPicks(st, Progress(Snippet(st.pendingText)));
    hide Alternates, FinalOnce;
    FlushTurns(st);
  }

  lemma FlushTurns(st: State)
    requires Alternates(st) && FinalOnce(st)
    ensures Alternates(Flushed(st)) && FinalOnce(Flushed(st))
  {
    hide Snippet, Pick;
    EmitPicks(st, Progress(Snippet(st.pendingText)));
  }

  lemma EmitOrderly(st: State, n: Notice)
    requires Orderly(st) && !n.Progress?
    requires n.Stall? ==> !st.stallNotified
    requires n.Resumed? ==> st.stallNotified
    requires IsFinal(n) ==> !st.disposed
    ensures var after := Emit(st, n).(stallNotified := if IsStall(n) then n.Stall? else st.stallNotified,
                                      disposed := st.disposed || IsFinal(n));
            Orderly(after)
  {
    hide Pick, Snippets;
    EmitPicks(st, n);
  }

  lemma TakenOrderly(c: Config, st: State, delta: string, now: int)
    requires Orderly(st) && !st.disposed
    ensures Orderly(Taken(c, st, delta, now))
  {
    hide Flushed, FlushNow, Orderly, Last;
    if st.stallNotified { EmitOrderly(st, Resumed); }
    SameNotices(if st.stallNotified then Emit(st.(stallNotified := false), Resumed) else st, Buffered(st, delta, now));
    var full := Buffered(st, delta, now);
    FlushOrderly(full);
    SameNotices(full, Scheduled(c, full));
  }

  lemma SameNotices(a: State, b: State)
    requires Orderly(a) && a.notices == b.notices && a.flushed == b.flushed
    requires a.stallNotified == b.stallNotified && (a.disposed ==> b.disposed)
    ensures Orderly(b)
  {
    hide Pick, Snippets;
  }

  lemma StepOrderly(c: Config, st: State, step: Step)
    requires Orderly(st) && Enabled(st, step)
    ensures Orderly(Apply(c, st, step))
  {
    hide Orderly, Taken, Flushed, Delta;
    var after := Apply(c, st, step);
    match step
    case Assistant(delta, text, now) =>
      if !st.disposed && Delta(delta, text).Some? { TakenOrderly(c, st, Delta(delta, text).value, now); }
    case Ended => EndOrderly(st, Done);
    case Errored(error) => EndOrderly(st, Failed(error));
    case FlushTimer => FlushOrderly(st);
    case Watch(now) =>
      if StallDue(c, st, now) {
        EmitOrderly(st, Stall);
        SameNotices(Emit(st.(stallNotified := true), Stall), after);
      }
    case Lifetime => if !st.disposed {
      EmitOrderly(st, TimedOut);
      SameNotices(Emit(st, TimedOut).(disposed := true), after);
    }
    case Dispose => SameNotices(st, after);
    case NotifyStarted => EmitOrderly(st, Start); SameNotices(Emit(st, Start), after);
    case OtherEvent =>
  }

  lemma EndOrderly(st: State, n: Notice)
    requires Orderly(st) && (n.Done? || n.Failed?)
    ensures !st.disposed ==> Orderly(Disposed(Emit(Flushed(st), n)))
  {
    hide Orderly;
    FlushOrderly(st);
    FlushFlags(st);
    hide Flushed;
    if !st.disposed {
      EmitOrderly(Flushed(st), n);
      SameNotices(Emit(Flushed(st), n).(disposed := true), Disposed(Emit(Flushed(st), n)));
    }
  }

  lemma FlushFlags(st: State)
    ensures Flushed(st).disposed == st.disposed && Flushed(st).stallNotified == st.stallNotified
    ensures Flushed(st).accepted == st.accepted
  {
    hide Snippet;
  }

  // ---- runs ----

  ghost predicate Run(c: Config, st: State, steps: seq<Step>, last: State)
    decreases |steps|
  {
    if steps == [] then last == st
    else Enabled(st, steps[0]) && Run(c, Apply(c, st, steps[0]), steps[1..], last)
  }

  lemma {:induction false} RunOrderly(c: Config, st: State, steps: seq<Step>, last: State)
    requires Orderly(st) && Settled(c, st) && Run(c, st, steps, last)
    ensures Orderly(last) && Settled(c, last)
    decreases |steps|
  {
    hide Orderly, Settled, Apply, Enabled;
    if steps == [] {
    } else {
      StepOrderly(c, st, steps[0]);
      StepSettled(c, st, steps[0]);
      RunOrderly(c, Apply(c, st, steps[0]), steps[1..], last);
    }
  }

  /** Every run: stall and resumed alternate, stall first; at most one of done,
      failed and timed out; progress notices are the flushed buffers, shortened;
      less than a snippet is pending, and never without its timer. */
  lemma NoticesAreOrderly(c: Config, now: int, start: bool, steps: seq<Step>, last: State)
    requires Run(c, Init(now, start), steps, last)
    ensures Orderly(last) && Settled(c, last)
  {
    hide Apply, Enabled;
    EmitPicks(Init(now, false), Start);
    assert Init(now, true).notices == Emit(Init(now, false), Start).notices;
    RunOrderly(c, Init(now, start), steps, last);
  }

  lemma {:induction false} RunConserves(c: Config, st: State, steps: seq<Step>, last: State)
    requires Conserved(st) && Settled(c, st) && Run(c, st, steps, last)
    requires forall i | 0 <= i < |steps| :: Short(steps[i])
    ensures Conserved(last)
    decreases |steps|
  {
    hide Conserved, Settled, Apply, Enabled, Short;
    if steps == [] {
    } else {
      StepConserves(c, st, steps[0]);
      StepSettled(c, st, steps[0]);
      RunConserves(c, Apply(c, st, steps[0]), steps[1..], last);
    }
  }

  /** With deltas that always fit, no character is lost or doubled. */
  lemma TextIsConserved(c: Config, now: int, start: bool, steps: seq<Step>, last: State)
    requires Run(c, Init(now, start), steps, last)
    requires forall i | 0 <= i < |steps| :: Short(steps[i])
    ensures Concat(last.flushed) + last.pendingText == Concat(last.accepted)
  {
    hide Apply, Enabled, Short;
    RunConserves(c, Init(now, start), steps, last);
  }

  /** The bound is the largest: behind a buffer that is all but full for a
      flush, any longer delta loses characters. */
  lemma LongerDeltaLoses(c: Config, now: int, a: string, b: string, last: State)
    requires |a| == SNIPPET_MAX - 1 && !Contains(a, "\n\n") && TrimJs(a) != ""
    requires |b| > DELTA_MAX && TrimJs(b) != ""
    requires Run(c, Init(now, false), [Assistant(Text(a), Missing, now), Assistant(Text(b), Missing, now)], last)
    ensures Concat(last.flushed) + last.pendingText != Concat(last.accepted)
  {
    hide Flushed, TrimJs, Contains;
    var first := Taken(c, Init(now, false), a, now);
    assert "" + a == a && first.pendingText == a && !first.disposed;
    assert Conserved(first) by { TakeConservesIff(c, Init(now, false), a, now); }
    TakeConservesIff(c, first, b, now);
    var steps := [Assistant(Text(a), Missing, now), Assistant(Text(b), Missing, now)];
    hide Taken, Concat;
    assert Run(c, Init(now, false), steps, last) == Run(c, first, steps[1..], last);
    assert steps[1..][1..] == [];
    assert Run(c, first, steps[1..], last) == Run(c, Taken(c, first, b, now), [], last);
  }

  lemma {:induction false} DisposedIsQuiet(c: Config, st: State, steps: seq<Step>, last: State)
    requires st.disposed && Settled(c, st) && Run(c, st, steps, last)
    requires forall i | 0 <= i < |steps| :: !steps[i].NotifyStarted?
    ensures last == st
    decreases |steps|
  {
    hide Snippet, Delta, Taken;
    if steps == [] {
    } else {
      assert Apply(c, st, steps[0]) == st;
      hide Apply, Settled;
      DisposedIsQuiet(c, st, steps[1..], last);
    }
  }

  /** The end of the run, or its failure, leaves nothing behind. */
  lemma EndSendsAll(c: Config, st: State, step: Step)
    requires !st.disposed && Conserved(st) && (step.Ended? || step.Errored?)
    ensures var after := Apply(c, st, step);
            after.disposed && Concat(after.flushed) == Concat(st.accepted)
  {
    hide Snippet;
    FlushConserves(st);
    hide Concat;
    assert Concat(Flushed(st).flushed) + "" == Concat(Flushed(st).flushed);
  }

  /** A timeout or a disposal loses exactly what was pending. */
  lemma TimeoutLosesPending(c: Config, st: State, step: Step)
    requires !st.disposed && Conserved(st) && Enabled(st, step) && (step.Lifetime? || step.Dispose?)
    ensures var after := Apply(c, st, step);
            after.disposed && (Concat(after.flushed) == Concat(st.accepted) <==> st.pendingText == "")
  {
    hide Concat;
    var sent := Concat(st.flushed);
    if st.pendingText != "" {
      assert |sent + st.pendingText| > |sent|;
    } else {
      assert sent + "" == sent;
    }
  }

  // ---- every flush is heard ----

  /** Nothing blank is pending or was flushed. */
  ghost predicate Audible(st: State) {
    (st.pendingText != "" ==> !Blank(st.pendingText)) && forall i | 0 <= i < |st.flushed| :: !Blank(st.flushed[i])
  }

  lemma FlushAudible(st: State)
    requires Audible(st)
    ensures Audible(Flushed(st))
  {
    hide Snippet, Blank;
  }

  lemma TakenAudible(c: Config, st: State, delta: string, now: int)
    requires Audible(st) && |st.pendingText| + |delta| <= BUFFER_MAX && TrimJs(delta) != ""
    ensures Audible(Taken(c, st, delta, now))
  {
    TrimBlankIff(delta);
    BlankParts(st.pendingText, delta);
    hide Snippet, Blank, TrimJs, FlushNow, Flushed;
    FlushAudible(Buffered(st, delta, now));
  }

  lemma StepAudible(c: Config, st: State, step: Step)
    requires Audible(st) && Settled(c, st) && Enabled(st, step) && Short(step)
    ensures Audible(Apply(c, st, step))
  {
    hide Snippet, Blank, TrimJs, Taken, Flushed;
    FlushAudible(st);
    if step.Assistant? && !st.disposed && Delta(step.delta, step.text).Some? {
      TakenAudible(c, st, Delta(step.delta, step.text).value, step.now);
    }
  }

  lemma {:induction false} RunAudible(c: Config, st: State, steps: seq<Step>, last: State)
    requires Audible(st) && Settled(c, st) && Run(c, st, steps, last)
    requires forall i | 0 <= i < |steps| :: Short(steps[i])
    ensures Audible(last)
    decreases |steps|
  {
    hide Audible, Settled, Apply, Enabled, Short;
    if steps == [] {
    } else {
      StepAudible(c, st, steps[0]);
      StepSettled(c, st, steps[0]);
      RunAudible(c, Apply(c, st, steps[0]), steps[1..], last);
    }
  }

  lemma {:induction false} AudibleSnippets(buffers: seq<string>)
    requires forall i | 0 <= i < |buffers| :: !Blank(buffers[i])
    ensures Snippets(buffers) == seq(|buffers|, i requires 0 <= i < |buffers| => Progress(Snippet(buffers[i])))
  {
    hide Snippet, Blank;
    if buffers == [] {
    } else {
      var n := |buffers| - 1;
      AudibleSnippets(buffers[..n]);
      SnippetBlankIff(buffers[n]);
    }
  }

  /** With deltas that always fit, every flush is one notice, in order. */
  lemma EveryFlushIsHeard(c: Config, now: int, start: bool, steps: seq<Step>, last: State)
    requires Run(c, Init(now, start), steps, last)
    requires forall i | 0 <= i < |steps| :: Short(steps[i])
    ensures Pick(last.notices, IsProgress)
            == seq(|last.flushed|, i requires 0 <= i < |last.flushed| => Progress(Snippet(last.flushed[i])))
  {
    hide Apply, Enabled, Short, Snippet, Blank;
    RunAudible(c, Init(now, start), steps, last);
    NoticesAreOrderly(c, now, start, steps, last);
    AudibleSnippets(last.flushed);
  }
}
