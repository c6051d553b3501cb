/** What a relay's events say on their own, and what the relay made of them after
    every run (src/agents/acp-spawn-parent-stream.ts). */
module StreamHistory {
  import opened Text
  import opened SessionKeys
  import opened StreamRelay

  // ---- what an event says ----

  /** The text of an assistant event: its delta, also when that is no text; its
      whole text only when there is no delta. What is blank does not count. */
  function Said(delta: Payload, text: Payload): string {
    match delta
    case Text(d) => if Blank(d) then "" else d
    case NotText => ""
    case Missing => if text.Text? && !Blank(text.text) then text.text else ""
  }

  function SaidBy(step: Step): string { if step.Assistant? then Said(step.delta, step.text) else "" }

  lemma DeltaIsSaid(delta: Payload, text: Payload)
    ensures Delta(delta, text) == if Said(delta, text) == "" then None else Some(Said(delta, text))
  {
    if delta.Text? { TrimBlankIff(delta.text); }
    if text.Text? { TrimBlankIff(text.text); }
    hide TrimJs;
  }

  /** What was sent and what waits to be sent. */
  function Out(st: State): string { Concat(st.flushed) + st.pendingText }

  lemma FlushKeepsOut(st: State)
    ensures Out(Flushed(st)) == Out(st)
  {
    FlushConserves(st);
    hide Flushed, Concat;
  }

  /** A live relay takes in what an assistant event says, whatever else the event
      carries: a stall is over, and the text that fits is sent or waits; it is
      sent at once with a paragraph break or when it fills a snippet. */
  lemma AssistantTakes(c: Config, st: State, delta: Payload, text: Payload, now: int)
    requires !st.disposed
    ensures var after, said := Apply(c, st, Assistant(delta, text, now)), Said(delta, text);
            if said == "" then after == st
            else
              && !after.disposed && !after.stallNotified && after.lastProgressAt == now
              && st.notices <= after.notices
              && (st.stallNotified ==> |after.notices| > |st.notices| && after.notices[|st.notices|] == Resumed)
              && (|st.pendingText| + |said| <= BUFFER_MAX ==> Out(after) == Out(st) + said)
              && (if |st.pendingText| + |said| >= SNIPPET_MAX || Contains(said, "\n\n") then
                    after.flushed == st.flushed + [Last(st.pendingText + said, BUFFER_MAX)] && after.pendingText == ""
                  else after.flushed == st.flushed && after.pendingText == st.pendingText + said)
  {
    DeltaIsSaid(delta, text);
    var said := Said(delta, text);
    hide Said, Delta, Blank, Snippet, Contains, Concat;
    if said != "" {
      var full := Buffered(st, said, now);
      FlushKeepsOut(full);
      assert Concat(st.flushed) + (st.pendingText + said) == Out(st) + said;
    }
  }

  /** What does not fit loses its beginning: the last 4000 characters are sent. */
  lemma OverflowKeepsEnd(c: Config, st: State, delta: Payload, text: Payload, now: int)
    requires !st.disposed && |st.pendingText| + |Said(delta, text)| > BUFFER_MAX && Said(delta, text) != ""
    ensures var after, all := Apply(c, st, Assistant(delta, text, now)), st.pendingText + Said(delta, text);
            after.flushed == st.flushed + [all[|all| - BUFFER_MAX..]] && after.pendingText == ""
  {
    AssistantTakes(c, st, delta, text, now);
    hide Apply, Said, Contains, Out;
  }

  /** The flush timer sends all that waits. */
  lemma TimerSends(c: Config, st: State)
    ensures var after := Apply(c, st, FlushTimer);
            after.pendingText == "" && Out(after) == Out(st) && !after.flushArmed
  {
    FlushKeepsOut(st);
    hide Snippet, Concat;
  }

  // ---- whole runs ----

  /** The relay's life ends with the run's end or failure, the time limit or its
      disposal. */
  predicate Terminates(step: Step) { step.Ended? || step.Errored? || step.Lifetime? || step.Dispose? }

  /** What the events of a run say, up to its end. */
  function Heard(steps: seq<Step>): string {
    if steps == [] || Terminates(steps[0]) then "" else SaidBy(steps[0]) + Heard(steps[1..])
  }

  lemma StepHears(c: Config, st: State, step: Step)
    requires !st.disposed && Enabled(st, step) && Settled(c, st) && |SaidBy(step)| <= DELTA_MAX
    ensures var after := Apply(c, st, step);
            after.disposed == Terminates(step)
            && Out(after) == if Terminates(step) then Out(st) else Out(st) + SaidBy(step)
  {
    hide Snippet, Concat, Said;
    FlushKeepsOut(st);
    assert Out(st) + "" == Out(st);
    match step
    case Assistant(delta, text, now) =>
      AssistantTakes(c, st, delta, text, now);
      hide Apply, Out, Contains;
    case _ =>
  }

  lemma {:induction false} DisposedKeepsOut(c: Config, st: State, steps: seq<Step>, last: State)
    requires st.disposed && Settled(c, st) && Run(c, st, steps, last)
    ensures Out(last) == Out(st) && last.disposed
    decreases |steps|
  {
    hide Snippet, Delta, Taken, Concat;
    if steps == [] {
    } else {
      StepSettled(c, st, steps[0]);
      assert Out(Apply(c, st, steps[0])) == Out(st) && Apply(c, st, steps[0]).disposed;
      hide Apply, Settled, Out;
      DisposedKeepsOut(c, Apply(c, st, steps[0]), steps[1..], last);
    }
  }

  lemma {:induction false} RunHears(c: Config, st: State, steps: seq<Step>, last: State)
    requires !st.disposed && Settled(c, st) && Run(c, st, steps, last)
    requires forall step | step in steps :: |SaidBy(step)| <= DELTA_MAX
    ensures Out(last) == Out(st) + Heard(steps)
    decreases |steps|
  {
    hide Apply, Enabled, Settled, Out, SaidBy;
    if steps == [] {
      assert Out(st) + "" == Out(st);
    } else {
      var after := Apply(c, st, steps[0]);
      StepHears(c, st, steps[0]);
      StepSettled(c, st, steps[0]);
      if Terminates(steps[0]) {
        DisposedKeepsOut(c, after, steps[1..], last);
        assert Out(st) + "" == Out(st);
      } else {
        RunHears(c, after, steps[1..], last);
        assert (Out(st) + SaidBy(steps[0])) + Heard(steps[1..]) == Out(st) + (SaidBy(steps[0]) + Heard(steps[1..]));
      }
    }
  }

  /** Over every run whose events say at most 3781 characters each: what was sent
      and what is pending is just what the events said, in order, up to the end
      of the relay. */
  lemma EveryWordIsKept(c: Config, now: int, start: bool, steps: seq<Step>, last: State)
    requires Run(c, Init(now, start), steps, last)
    requires forall step | step in steps :: |SaidBy(step)| <= DELTA_MAX
    ensures Concat(last.flushed) + last.pendingText == Heard(steps)
  {
    hide Apply, Enabled, SaidBy;
    RunHears(c, Init(now, start), steps, last);
    assert Concat([]) + "" == "";
    assert "" + Heard(steps) == Heard(steps);
  }

  // ---- the last notice ----

  /** How the first terminating step is announced. */
  function FinalOf(steps: seq<Step>): seq<Notice> {
    if steps == [] then []
    else match steps[0]
      case Ended => [Done]
      case Errored(error) => [Failed(error)]
      case Lifetime => [TimedOut]
      case Dispose => []
      case _ => FinalOf(steps[1..])
  }

  lemma FlushFinal(st: State)
    ensures Pick(Flushed(st).notices, IsFinal) == Pick(st.notices, IsFinal)
  {
    PickSnoc(st.notices, Progress(Snippet(st.pendingText)), IsFinal);
    hide Snippet, Pick;
    assert Pick(st.notices, IsFinal) + [] == Pick(st.notices, IsFinal);
  }

  lemma TakenFinal(c: Config, st: State, delta: string, now: int)
    ensures Pick(Taken(c, st, delta, now).notices, IsFinal) == Pick(st.notices, IsFinal)
    ensures Taken(c, st, delta, now).disposed == st.disposed
  {
    PickSnoc(st.notices, Resumed, IsFinal);
    FlushFinal(Buffered(st, delta, now));
    FlushFlags(Buffered(st, delta, now));
    hide Flushed, Pick, Contains;
    assert Pick(st.notices, IsFinal) + [] == Pick(st.notices, IsFinal);
  }

  lemma StepFinal(c: Config, st: State, step: Step)
    requires !st.disposed
    ensures var was, now := Pick(st.notices, IsFinal), Pick(Apply(c, st, step).notices, IsFinal);
            now == was + match step
                         case Ended => [Done]
                         case Errored(error) => [Failed(error)]
                         case Lifetime => [TimedOut]
                         case _ => []
    ensures Apply(c, st, step).disposed == Terminates(step)
  {
    hide Flushed, Taken, Delta, Pick, StallDue;
    var was := Pick(st.notices, IsFinal);
    assert was + [] == was;
    FlushFinal(st);
    FlushFlags(st);
    match step
    case Assistant(delta, text, now) =>
        if Delta(delta, text).Some? { TakenFinal(c, st, Delta(delta, text).value, now); }
    case Ended => PickSnoc(Flushed(st).notices, Done, IsFinal);
    case Errored(error) => PickSnoc(Flushed(st).notices, Failed(error), IsFinal);
    case Lifetime => PickSnoc(st.notices, TimedOut, IsFinal);
    case Watch(_) => PickSnoc(st.notices, Stall, IsFinal);
    case NotifyStarted => PickSnoc(st.notices, Start, IsFinal);
    case _ =>
  }

  lemma {:induction false} DisposedFinal(c: Config, st: State, steps: seq<Step>, last: State)
    requires st.disposed && Settled(c, st) && Run(c, st, steps, last)
    ensures Pick(last.notices, IsFinal) == Pick(st.notices, IsFinal)
    decreases |steps|
  {
    hide Snippet, Delta, Taken, Pick;
    if steps == [] {
    } else {
      PickSnoc(st.notices, Start, IsFinal);
      StepSettled(c, st, steps[0]);
      assert Pick(st.notices, IsFinal) + [] == Pick(st.notices, IsFinal);
      assert Pick(Apply(c, st, steps[0]).notices, IsFinal) == Pick(st.notices, IsFinal);
      assert Apply(c, st, steps[0]).disposed;
      hide Apply, Settled;
      DisposedFinal(c, Apply(c, st, steps[0]), steps[1..], last);
    }
  }

  lemma {:induction false} RunFinal(c: Config, st: State, steps: seq<Step>, last: State)
    requires !st.disposed && Settled(c, st) && Run(c, st, steps, last)
    ensures Pick(last.notices, IsFinal) == Pick(st.notices, IsFinal) + FinalOf(steps)
    decreases |steps|
  {
    hide Apply, Enabled, Settled, Pick;
    var was := Pick(st.notices, IsFinal);
    assert was + [] == was;
    if steps == [] {
    } else {
      var after := Apply(c, st, steps[0]);
      StepFinal(c, st, steps[0]);
      StepSettled(c, st, steps[0]);
      if Terminates(steps[0]) {
        DisposedFinal(c, after, steps[1..], last);
      } else {
        RunFinal(c, after, steps[1..], last);
      }
    }
  }

  /** Over every run: done, failed with the run's error, timed out or nothing is
      announced, as the relay ended first. */
  lemma FinalNoticeTells(c: Config, now: int, start: bool, steps: seq<Step>, last: State)
    requires Run(c, Init(now, start), steps, last)
    ensures Pick(last.notices, IsFinal) == FinalOf(steps)
  {
    hide Apply, Enabled;
    RunFinal(c, Init(now, start), steps, last);
    assert Pick([Start], IsFinal) == [];
  }

  // ---- silence ----

  /** When the relay last heard anything, or else was made. */
  function LastHeard(now: int, steps: seq<Step>): int {
    if steps == [] then now
    else
      var n := |steps| - 1;
      if SaidBy(steps[n]) == "" then LastHeard(now, steps[..n]) else steps[n].now
  }

  lemma {:induction false} RunSnoc(c: Config, st: State, steps: seq<Step>, step: Step, last: State)
    requires Run(c, st, steps + [step], last)
    ensures exists before :: Run(c, st, steps, before) && Enabled(before, step) && last == Apply(c, before, step)
    decreases |steps|
  {
    hide Apply, Enabled;
    if steps == [] {
      assert [step][1..] == [];
      assert Run(c, st, [], st);
    } else {
      assert (steps + [step])[1..] == steps[1..] + [step];
      RunSnoc(c, Apply(c, st, steps[0]), steps[1..], step, last);
    }
  }

  lemma StepProgress(c: Config, st: State, step: Step)
    requires !Apply(c, st, step).disposed
    ensures !st.disposed
    ensures Apply(c, st, step).lastProgressAt == if SaidBy(step) == "" then st.lastProgressAt else step.now
  {
    FlushFlags(st);
    if st.disposed { hide Snippet, Taken, Delta; }
    match step
    case Assistant(delta, text, now) =>
      DeltaIsSaid(delta, text);
      if !st.disposed { AssistantTakes(c, st, delta, text, now); }
      hide Said, Delta, Taken, Out, Contains, Snippet;
    case _ =>
  }

  lemma {:induction false} ProgressIsLastHeard(c: Config, now: int, start: bool, steps: seq<Step>, last: State)
    requires Run(c, Init(now, start), steps, last) && !last.disposed
    ensures last.lastProgressAt == LastHeard(now, steps)
    decreases |steps|
  {
    hide Apply, Enabled, SaidBy;
    if steps == [] {
    } else {
      var n := |steps| - 1;
      assert steps == steps[..n] + [steps[n]];
      RunSnoc(c, Init(now, start), steps[..n], steps[n], last);
      var before :| Run(c, Init(now, start), steps[..n], before) && last == Apply(c, before, steps[n]);
      StepProgress(c, before, steps[n]);
      ProgressIsLastHeard(c, now, start, steps[..n], before);
    }
  }

  /** The watcher of a live relay announces a stall if and only if it is told to,
      nothing was heard for that long, and no stall is under way. */
  lemma StallIff(c: Config, now: int, start: bool, steps: seq<Step>, last: State, at: int)
    requires Run(c, Init(now, start), steps, last) && !last.disposed
    ensures var due := c.noOutputNoticeMs > 0 && at - LastHeard(now, steps) >= c.noOutputNoticeMs
                       && |Pick(last.notices, IsStall)| % 2 == 0;
            Apply(c, last, Watch(at)).notices == last.notices + if due then [Stall] else []
  {
    hide Run, LastHeard, Pick, Settled, FinalOnce, ProgressIsFlushed, Delta, Taken, Flushed;
    ProgressIsLastHeard(c, now, start, steps, last);
    NoticesAreOrderly(c, now, start, steps, last);
    assert last.notices + [] == last.notices;
  }

  // ---- snippets ----

  /** How many characters come before the first space. */
  function WordEnd(s: string): (n: nat)
    ensures n <= |s| && (forall i | 0 <= i < n :: !JsSpace(s[i])) && (n < |s| ==> JsSpace(s[n]))
  {
    if s == "" || JsSpace(s[0]) then 0 else 1 + WordEnd(s[1..])
  }

  /** The stretches between spaces. */
  function Words(s: string): (ws: seq<string>)
    ensures forall i | 0 <= i < |ws| :: ws[i] != "" && forall k | 0 <= k < |ws[i]| :: !JsSpace(ws[i][k])
    decreases |s|
  {
    if s == "" then []
    else if JsSpace(s[0]) then Words(s[1..])
    else [s[..WordEnd(s)]] + Words(s[WordEnd(s)..])
  }

  function Joined(ws: seq<string>): string { if ws == [] then "" else Join(ws, ' ') }

  lemma JoinedFront(w: string, ws: seq<string>)
    ensures Joined([w] + ws) == w + if ws == [] then "" else " " + Joined(ws)
  {
    assert ([w] + ws)[1..] == ws;
    if ws == [] {
      assert w + "" == w;
    } else {
      assert w + [' '] + Join(ws, ' ') == w + (" " + Join(ws, ' '));
    }
  }

  lemma {:induction false} CollapseWord(s: string, n: nat, inRun: bool)
    requires n <= |s| && forall i | 0 <= i < n :: !JsSpace(s[i])
    ensures n > 0 ==> Collapse(s, inRun) == s[..n] + Collapse(s[n..], false)
    decreases n
  {
    hide JsSpace;
    if n <= 1 {
    } else {
      CollapseWord(s[1..], n - 1, false);
      assert s[1..][n - 1..] == s[n..] && [s[0]] + s[1..][..n - 1] == s[..n];
      assert [s[0]] + (s[1..][..n - 1] + Collapse(s[n..], false)) == s[..n] + Collapse(s[n..], false);
    }
  }

  function Lead(s: string): string { if s != "" && JsSpace(s[0]) then " " else "" }

  function Trail(s: string): string { if Words(s) != [] && JsSpace(s[|s| - 1]) then " " else "" }

  /** The words one space apart, with a space behind where there was any. */
  function Spaced(s: string): string { Joined(Words(s)) + Trail(s) }

  /** Collapsing white space leaves the words of a text one space apart, with a
      space in front and behind where there was any. */
  lemma {:induction false} CollapseIsWords(s: string, inRun: bool)
    ensures Collapse(s, inRun) == if inRun then Spaced(s) else Lead(s) + Spaced(s)
    ensures s != "" && Words(s) == [] ==> JsSpace(s[|s| - 1])
    decreases |s|
  {
    hide JsSpace, Spaced, Collapse, Words;
    if s == "" {
      NothingCollapsed(inRun);
    } else if JsSpace(s[0]) {
      CollapseSpace(s, inRun);
      SpaceInFront(s);
      CollapseIsWords(s[1..], true);
    } else {
      WordInFront(s, inRun);
      assert "" + Spaced(s) == Spaced(s);
    }
  }

  lemma NothingCollapsed(inRun: bool)
    ensures Collapse("", inRun) == Spaced("") == ""
  {
  }

  lemma CollapseSpace(s: string, inRun: bool)
    requires s != "" && JsSpace(s[0])
    ensures Collapse(s, inRun) == if inRun then Collapse(s[1..], true) else " " + Collapse(s[1..], true)
  {
    assert "" + Collapse(s[1..], true) == Collapse(s[1..], true);
  }

  lemma SpaceInFront(s: string)
    requires s != "" && JsSpace(s[0])
    ensures Words(s) == Words(s[1..]) && Spaced(s) == Spaced(s[1..]) && Lead(s) == " "
    ensures s[1..] != "" ==> s[1..][|s| - 2] == s[|s| - 1]
  {
    hide JsSpace, Joined;
  }

  lemma {:induction false} WordInFront(s: string, inRun: bool)
    requires s != "" && !JsSpace(s[0])
    ensures Collapse(s, inRun) == Spaced(s) && Words(s) != []
    decreases |s|, 0
  {
    hide JsSpace, Spaced, Collapse, Words;
    CollapseWord(s, WordEnd(s), inRun);
    CollapseIsWords(s[WordEnd(s)..], false);
    FirstWord(s);
  }

  lemma FirstWord(s: string)
    requires s != "" && !JsSpace(s[0])
    requires var rest := s[WordEnd(s)..]; rest != "" && Words(rest) == [] ==> JsSpace(rest[|rest| - 1])
    ensures WordEnd(s) > 0 && Words(s) != []
    ensures var rest := s[WordEnd(s)..]; s[..WordEnd(s)] + (Lead(rest) + Spaced(rest)) == Spaced(s)
  {
    hide Words, Joined, JsSpace, Trail;
    FirstWordIs(s);
    JoinedFront(s[..WordEnd(s)], Words(s[WordEnd(s)..]));
    WordThenRest(s[..WordEnd(s)], s[WordEnd(s)..], Trail(s));
  }

  lemma FirstWordIs(s: string)
    requires s != "" && !JsSpace(s[0])
    ensures var rest := s[WordEnd(s)..];
            && WordEnd(s) > 0 && Words(s) == [s[..WordEnd(s)]] + Words(rest) && (rest != "" ==> JsSpace(rest[0]))
            && Trail(s) == if rest != "" && JsSpace(rest[|rest| - 1]) then " " else ""
  {
    hide JsSpace;
    var rest := s[WordEnd(s)..];
    if rest != "" { assert rest[0] == s[WordEnd(s)] && rest[|rest| - 1] == s[|s| - 1]; }
  }

  lemma WordThenRest(w: string, rest: string, trail: string)
    requires rest != "" ==> JsSpace(rest[0])
    requires trail == if rest != "" && JsSpace(rest[|rest| - 1]) then " " else ""
    requires rest != "" && Words(rest) == [] ==> JsSpace(rest[|rest| - 1])
    ensures w + (Lead(rest) + Spaced(rest))
            == (w + if Words(rest) == [] then "" else " " + Joined(Words(rest))) + trail
  {
    SpacedIs(rest, trail);
    hide Words, Joined, JsSpace, Spaced;
    if Words(rest) == [] {
      assert w + "" == w && trail + "" == trail;
    } else {
      Regroup(w, " ", Joined(Words(rest)), trail);
    }
  }

  lemma SpacedIs(rest: string, trail: string)
    requires trail == if rest != "" && JsSpace(rest[|rest| - 1]) then " " else ""
    ensures Spaced(rest) == if Words(rest) == [] then "" else Joined(Words(rest)) + trail
  {
    hide JsSpace;
  }

  lemma Regroup(a: string, b: string, c: string, d: string)
    ensures a + (b + (c + d)) == (a + (b + c)) + d
  {
  }

  lemma CompactIsWords(buffer: string)
    ensures Compact(buffer) == Joined(Words(buffer))
  {
    hide TrimJs, Words, Joined, Collapse, JsSpace;
    CollapseIsWords(buffer, false);
    JoinedEnds(Words(buffer));
    TrimPadded(Lead(buffer), Joined(Words(buffer)), Trail(buffer));
    assert Lead(buffer) + (Joined(Words(buffer)) + Trail(buffer))
           == Lead(buffer) + Joined(Words(buffer)) + Trail(buffer);
  }

  /** A snippet is the buffer's words, one space apart, cut after 219 characters
      with an ellipsis when they take more than 220. */
  lemma SnippetIsWords(buffer: string)
    ensures var all := Joined(Words(buffer));
            Snippet(buffer) == if |all| <= SNIPPET_MAX then all else all[..SNIPPET_MAX - 1] + [0x2026 as char]
  {
    hide Compact, Words, Joined;
    CompactIsWords(buffer);
  }

  lemma {:induction false} JoinedEnds(ws: seq<string>)
    requires forall i | 0 <= i < |ws| :: ws[i] != "" && forall k | 0 <= k < |ws[i]| :: !JsSpace(ws[i][k])
    ensures var s := Joined(ws); s == "" || (!JsSpace(s[0]) && !JsSpace(s[|s| - 1]))
    ensures ws != [] ==> Joined(ws) != ""
  {
    hide JsSpace;
    if |ws| <= 1 {
    } else {
      JoinedEnds(ws[1..]);
    }
  }

  lemma TrimPadded(lead: string, s: string, trail: string)
    requires lead == "" || lead == " "
    requires trail == "" || (trail == " " && s != "")
    requires s == "" || (!JsSpace(s[0]) && !JsSpace(s[|s| - 1]))
    ensures TrimJs(lead + s + trail) == s
  {
    var all := lead + s + trail;
    assert TrimLeft(all, JsSpace) == s + trail by {
      if lead == " " {
        assert all[1..] == s + trail;
      } else {
        assert all == s + trail;
      }
    }
    if trail == " " {
      assert (s + trail)[|s|] == ' ' && (s + trail)[..|s|] == s;
      assert TrimRight(s + trail, JsSpace) == TrimRight(s, JsSpace);
    } else {
      assert s + trail == s;
    }
  }
}
