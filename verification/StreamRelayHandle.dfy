/** The relay's closure state and callbacks, and the buffer of its log
    (src/agents/acp-spawn-parent-stream.ts). */
module StreamRelayHandle {
  import opened Text
  import opened SessionKeys
  import opened StreamRelay

  class Relay {
    const config: Config
    var disposed: bool
    var pendingText: string
    var lastProgressAt: int
    var stallNotified: bool
    var flushArmed: bool
    var lifetimeArmed: bool
    /** The system events sent to the parent session. */
    var notices: seq<Notice>
    ghost var accepted: seq<string>
    ghost var flushed: seq<string>

    ghost function View(): State
      reads this
    {
      State(disposed, pendingText, lastProgressAt, stallNotified, flushArmed, lifetimeArmed, notices, accepted, flushed)
    }

    constructor (config: Config, now: int, emitStartNotice: bool)
      ensures View() == Init(now, emitStartNotice) && this.config == config
    {
      this.config := config;
      disposed, pendingText, lastProgressAt, stallNotified := false, "", now, false;
      flushArmed, lifetimeArmed := false, true;
      notices := if emitStartNotice then [Start] else [];
      accepted, flushed := [], [];
    }

    method EmitNotice(n: Notice)
      modifies this`notices
      ensures View() == Emit(old(View()), n)
    {
      notices := notices + [n];
    }

    method FlushPending()
      modifies this
      ensures View() == Flushed(old(View()))
    {
      flushArmed := false;
      if pendingText == "" {
        return;
      }
      var snippet := Snippet(pendingText);
      flushed := flushed + [pendingText];
      pendingText := "";
      if snippet == "" {
        return;
      }
      EmitNotice(Progress(snippet));
    }

    method ScheduleFlush()
      modifies this`flushArmed
      ensures View() == Scheduled(config, old(View()))
    {
      if disposed || flushArmed || config.streamFlushMs <= 0 {
        return;
      }
      flushArmed := true;
    }

    method OnAssistant(delta: Payload, text: Payload, now: int)
      modifies this
      ensures View() == Apply(config, old(View()), Assistant(delta, text, now))
    {
      hide Flushed, Contains, TrimJs;
      TrimOfEmpty();
      if disposed {
        return;
      }
      var candidate := if delta.Missing? then text else delta;
      if !candidate.Text? || candidate.text == "" || TrimJs(candidate.text) == "" {
        return;
      }
      if stallNotified {
        stallNotified := false;
        EmitNotice(Resumed);
      }
      lastProgressAt := now;
      accepted := accepted + [candidate.text];
      pendingText := pendingText + candidate.text;
      if |pendingText| > BUFFER_MAX {
        pendingText := Last(pendingText, BUFFER_MAX);
      }
      if |pendingText| >= SNIPPET_MAX || Contains(candidate.text, "\n\n") {
        FlushPending();
        return;
      }
      ScheduleFlush();
    }

    /** A lifecycle event; `error` matters to the error phase only. */
    method OnLifecycle(phase: string, error: string)
      modifies this
      ensures View() == Apply(config, old(View()),
                              if phase == "end" then Ended else if phase == "error" then Errored(error) else OtherEvent)
    {
      if disposed {
        return;
      }
      if phase == "end" {
        FlushPending();
        EmitNotice(Done);
        DisposeRelay();
        return;
      }
      if phase == "error" {
        FlushPending();
        EmitNotice(Failed(error));
        DisposeRelay();
      }
    }

    method WatchOutput(now: int)
      modifies this
      ensures View() == Apply(config, old(View()), Watch(now))
    {
      if disposed || config.noOutputNoticeMs <= 0 {
        return;
      }
      if stallNotified {
        return;
      }
      if now - lastProgressAt < config.noOutputNoticeMs {
        return;
      }
      stallNotified := true;
      EmitNotice(Stall);
    }

    method LifetimeOver()
      modifies this
      ensures View() == Apply(config, old(View()), Lifetime)
    {
      if disposed {
        return;
      }
      EmitNotice(TimedOut);
      DisposeRelay();
    }

    method DisposeRelay()
      modifies this
      ensures View() == Disposed(old(View()))
    {
      if disposed {
        return;
      }
      disposed := true;
      flushArmed := false;
      lifetimeArmed := false;
    }
  }

  // ---- the log ----

  const LOG_FLUSH_CHARS := 16384

  datatype Log = Log(pendingLines: string, flushScheduled: bool, chunks: seq<string>)

  datatype LogStep = Line(line: string) | Microtask | FlushLog

  function LogFlushed(log: Log): Log {
    if log.pendingLines == "" then log else log.(pendingLines := "", chunks := log.chunks + [log.pendingLines])
  }

  predicate LogEnabled(log: Log, step: LogStep) { step.Microtask? ==> log.flushScheduled }

  function LogApply(log: Log, step: LogStep): Log {
    match step
    case Line(line) =>
      var more := log.(pendingLines := log.pendingLines + line);
      if |more.pendingLines| >= LOG_FLUSH_CHARS then LogFlushed(more) else more.(flushScheduled := true)
    case Microtask => LogFlushed(log.(flushScheduled := false))
    case FlushLog => LogFlushed(log)
  }

  function Lines(steps: seq<LogStep>): string {
    if steps == [] then ""
    else (if steps[0].Line? then steps[0].line else "") + Lines(steps[1..])
  }

  ghost predicate LogRun(log: Log, steps: seq<LogStep>, last: Log)
    decreases |steps|
  {
    if steps == [] then last == log
    else LogEnabled(log, steps[0]) && LogRun(LogApply(log, steps[0]), steps[1..], last)
  }

  /** Between callbacks the buffer is short, and lines in it are due to be
      written. */
  ghost predicate LogInv(log: Log) {
    |log.pendingLines| < LOG_FLUSH_CHARS && (log.pendingLines != "" ==> log.flushScheduled)
  }

  lemma LogStepWrites(log: Log, step: LogStep)
    requires LogInv(log) && LogEnabled(log, step)
    ensures var after := LogApply(log, step);
            && LogInv(after)
            && Concat(after.chunks) + after.pendingLines
                 == Concat(log.chunks) + log.pendingLines + if step.Line? then step.line else ""
  {
    var all := log.pendingLines + if step.Line? then step.line else "";
    ConcatSnoc(log.chunks, all);
    hide Concat;
    assert Concat(log.chunks) + all == Concat(log.chunks) + log.pendingLines + if step.Line? then step.line else "";
    assert Concat(log.chunks) + "" == Concat(log.chunks);
  }

  /** Below 16384 characters lines wait; a flush hands on all that waits, in one
      chunk, and nothing when nothing waits. */
  lemma LogWaits(log: Log, step: LogStep)
    requires LogEnabled(log, step)
    ensures var after := LogApply(log, step);
            var all := if step.Line? then log.pendingLines + step.line else log.pendingLines;
            if step.Line? && |all| < 16384 then after == Log(all, true, log.chunks)
            else after.pendingLines == "" && after.chunks == if all == "" then log.chunks else log.chunks + [all]
  {
  }

  /** Every line is written or pending, once and in order, over any run of
      writes, flushes and microtasks. */
  lemma {:induction false} LogIsComplete(log: Log, steps: seq<LogStep>, last: Log)
    requires LogInv(log) && LogRun(log, steps, last)
    ensures LogInv(last)
    ensures Concat(last.chunks) + last.pendingLines == Concat(log.chunks) + log.pendingLines + Lines(steps)
    decreases |steps|
  {
    hide Concat, LogInv, LogApply, LogEnabled;
    var before := Concat(log.chunks) + log.pendingLines;
    if steps == [] {
      assert before + "" == before;
    } else {
      var line := if steps[0].Line? then steps[0].line else "";
      LogStepWrites(log, steps[0]);
      LogIsComplete(LogApply(log, steps[0]), steps[1..], last);
      assert before + line + Lines(steps[1..]) == before + (line + Lines(steps[1..]));
    }
  }

  class LogBuffer {
    var pendingLogLines: string
    var logFlushScheduled: bool
    /** The chunks handed to the file, in order. */
    var chunks: seq<string>

    ghost function View(): Log
      reads this
    {
      Log(pendingLogLines, logFlushScheduled, chunks)
    }

    constructor ()
      ensures View() == Log("", false, []) && LogInv(View())
    {
      pendingLogLines, logFlushScheduled, chunks := "", false, [];
    }

    method FlushLogBuffer()
      modifies this
      ensures View() == LogApply(old(View()), FlushLog)
    {
      if pendingLogLines == "" {
        return;
      }
      var chunk := pendingLogLines;
      pendingLogLines := "";
      chunks := chunks + [chunk];
    }

    method RunMicrotask()
      requires logFlushScheduled
      modifies this
      ensures View() == LogApply(old(View()), Microtask)
    {
      logFlushScheduled := false;
      FlushLogBuffer();
    }

    method WriteLogLine(line: string)
      modifies this
      ensures View() == LogApply(old(View()), Line(line))
    {
      pendingLogLines := pendingLogLines + line;
      if |pendingLogLines| >= LOG_FLUSH_CHARS {
        FlushLogBuffer();
        return;
      }
      logFlushScheduled := true;
    }
  }
}
