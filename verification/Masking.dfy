/** Masking of code spans and URLs before translation, and their restoration
    afterwards (scripts/docs-i18n/masking.go, placeholders.go, translator.go). */
module Masking {
  import opened Text
  import opened MaskTokens

  // ---- restoring: the two functions the pipeline promises something about ----

  /** The placeholders replaced in the order in which they were issued. */
  function Unmask(text: string, placeholders: seq<string>, mapping: map<string, string>): string
    requires "" !in placeholders
    decreases |placeholders|
  {
    if placeholders == [] then text
    else
      var original := if placeholders[0] in mapping then mapping[placeholders[0]] else "";
      Unmask(ReplaceAll(text, placeholders[0], original), placeholders[1..], mapping)
  }

  predicate AllPresent(text: string, placeholders: seq<string>) {
    forall p | p in placeholders :: Contains(text, p)
  }

  // ---- the history of a masking run ----

  /** Placeholder `n` was put in the place of `body`. */
  datatype Step = Step(n: nat, body: seq<Token>)

  datatype History = History(toks: seq<Token>, steps: seq<Step>, env: map<nat, string>)

  ghost predicate Issued(steps: seq<Step>, upTo: nat, n: nat)
    requires upTo <= |steps|
  {
    exists i :: 0 <= i < upTo && steps[i].n == n
  }

  /** A later span covered placeholder `i`. */
  ghost predicate Swallowed(steps: seq<Step>, i: nat)
    requires i < |steps|
  {
    exists j :: i < j < |steps| && Hole(steps[i].n) in steps[j].body
  }

  ghost predicate Distinct(steps: seq<Step>) {
    forall i, j | 0 <= i < j < |steps| :: steps[i].n != steps[j].n
  }

  ghost predicate Consistent(steps: seq<Step>, env: map<nat, string>) {
    && (forall i | 0 <= i < |steps| :: steps[i].n in env && env[steps[i].n] == Fill(steps[i].body, env))
    && (forall n | n in env :: Issued(steps, |steps|, n))
  }

  ghost predicate Unrepeated(toks: seq<Token>) {
    forall i, j | 0 <= i < j < |toks| && toks[i].Hole? :: toks[i] != toks[j]
  }

  ghost predicate Ordered(toks: seq<Token>, steps: seq<Step>) {
    && (forall t | t in toks && t.Hole? :: Issued(steps, |steps|, t.n))
    && (forall j, t | 0 <= j < |steps| && t in steps[j].body && t.Hole? :: Issued(steps, j, t.n))
  }

  /** Every placeholder is in exactly one place: visible, or under a later span. */
  ghost predicate OnePlaceEach(toks: seq<Token>, steps: seq<Step>) {
    forall i | 0 <= i < |steps| :: Hole(steps[i].n) in toks <==> !Swallowed(steps, i)
  }

  ghost predicate WellMasked(h: History) {
    && Distinct(h.steps)
    && Consistent(h.steps, h.env)
    && Unrepeated(h.toks)
    && Ordered(h.toks, h.steps)
    && OnePlaceEach(h.toks, h.steps)
  }

  /** `h` explains how `text` became `masked` with these placeholders. */
  ghost predicate Explains(h: History, text: string, masked: string,
                           placeholders: seq<string>, mapping: map<string, string>)
  {
    && WellMasked(h)
    && Render(h.toks) == masked
    && Fill(h.toks, h.env) == text
    && |placeholders| == |h.steps|
    && (forall i | 0 <= i < |h.steps| :: placeholders[i] == Mark(h.steps[i].n))
    && (forall i | 0 <= i < |h.steps| ::
          placeholders[i] in mapping && mapping[placeholders[i]] == Render(h.steps[i].body))
  }

  /** No issued placeholder's needle occurs in `text`. */
  ghost predicate NeedleFree(text: string, steps: seq<Step>) {
    forall i | 0 <= i < |steps| :: !Contains(text, Needle(steps[i].n))
  }

  // ---- one masking step ----

  function Masked(h: History, a: seq<Token>, body: seq<Token>, b: seq<Token>, n: nat): History {
    History(a + [Hole(n)] + b, h.steps + [Step(n, body)], h.env[n := Fill(body, h.env)])
  }

  lemma MaskStep(h: History, a: seq<Token>, body: seq<Token>, b: seq<Token>, n: nat)
    requires WellMasked(h) && h.toks == a + body + b && n !in h.env
    ensures WellMasked(Masked(h, a, body, b, n))
    ensures Fill(Masked(h, a, body, b, n).toks, Masked(h, a, body, b, n).env) == Fill(h.toks, h.env)
  {
    var h', s := Masked(h, a, body, b, n), Step(n, body);
    assert Hole(n) !in h.toks;
    StepConsistent(h, body, n);
    StepFills(h, a, body, b, n);
    StepUnrepeated(a, body, b, n);
    StepOrdered(h, a, body, b, n);
    StepOnePlace(h, a, body, b, n);
  }

  lemma StepFills(h: History, a: seq<Token>, body: seq<Token>, b: seq<Token>, n: nat)
    requires h.toks == a + body + b && Hole(n) !in h.toks
    ensures Fill(Masked(h, a, body, b, n).toks, Masked(h, a, body, b, n).env) == Fill(h.toks, h.env)
  {
    var h' := Masked(h, a, body, b, n);
    FillFrame(a, h.env, n, Fill(body, h.env));
    FillFrame(b, h.env, n, Fill(body, h.env));
    FillConcat(a + body, b, h.env);
    FillConcat(a, body, h.env);
    FillConcat(a + [Hole(n)], b, h'.env);
    FillConcat(a, [Hole(n)], h'.env);
    assert Fill([Hole(n)], h'.env) == h'.env[n] + Fill([], h'.env);
  }

  lemma IssuedGrows(steps: seq<Step>, s: Step, upTo: nat, n: nat)
    requires upTo <= |steps|
    ensures Issued(steps, upTo, n) ==> Issued(steps + [s], upTo, n) && Issued(steps + [s], |steps| + 1, n)
    ensures Issued(steps + [s], |steps| + 1, s.n)
  {
    assert (steps + [s])[|steps|] == s;
    if i :| 0 <= i < upTo && steps[i].n == n {
      assert (steps + [s])[i] == steps[i];
    }
  }

  lemma StepConsistent(h: History, body: seq<Token>, n: nat)
    requires WellMasked(h) && n !in h.env && Hole(n) !in body
    ensures Consistent(h.steps + [Step(n, body)], h.env[n := Fill(body, h.env)])
    ensures Distinct(h.steps + [Step(n, body)])
  {
    var s, steps', env' := Step(n, body), h.steps + [Step(n, body)], h.env[n := Fill(body, h.env)];
    forall i | 0 <= i < |steps'|
      ensures steps'[i].n in env' && env'[steps'[i].n] == Fill(steps'[i].body, env')
    {
      if i < |h.steps| {
        assert Hole(n) !in h.steps[i].body;
        FillFrame(h.steps[i].body, h.env, n, Fill(body, h.env));
      } else {
        FillFrame(body, h.env, n, Fill(body, h.env));
      }
    }
    forall m | m in env' ensures Issued(steps', |steps'|, m) {
      IssuedGrows(h.steps, s, |h.steps|, m);
    }
  }

  lemma StepOrdered(h: History, a: seq<Token>, body: seq<Token>, b: seq<Token>, n: nat)
    requires WellMasked(h) && h.toks == a + body + b
    ensures Ordered(a + [Hole(n)] + b, h.steps + [Step(n, body)])
  {
    var s, steps', toks' := Step(n, body), h.steps + [Step(n, body)], a + [Hole(n)] + b;
    forall t | t in toks' && t.Hole? ensures Issued(steps', |steps'|, t.n) {
      assert t in h.toks || t == Hole(n);
      IssuedGrows(h.steps, s, |h.steps|, t.n);
    }
    forall j, t | 0 <= j < |steps'| && t in steps'[j].body && t.Hole? ensures Issued(steps', j, t.n) {
      if j == |h.steps| {
        assert t in h.toks;
      }
      IssuedGrows(h.steps, s, j, t.n);
    }
  }

  lemma StepUnrepeated(a: seq<Token>, body: seq<Token>, b: seq<Token>, n: nat)
    requires Unrepeated(a + body + b) && Hole(n) !in a + body + b
    ensures Unrepeated(a + [Hole(n)] + b)
    ensures forall t: Token | t.Hole? && t in body :: t !in a && t !in b
  {
    PartsUnrepeated(a, body, b);
    var toks := a + [Hole(n)] + b;
    forall i, j | 0 <= i < j < |toks| && toks[i].Hole? ensures toks[i] != toks[j] {
      assert toks[i] == if i < |a| then a[i] else if i == |a| then Hole(n) else b[i - |a| - 1];
      assert toks[j] == if j < |a| then a[j] else if j == |a| then Hole(n) else b[j - |a| - 1];
    }
  }

  lemma PartsUnrepeated(a: seq<Token>, body: seq<Token>, b: seq<Token>)
    requires Unrepeated(a + body + b)
    ensures Unrepeated(a) && Unrepeated(b)
    ensures forall t: Token | t.Hole? && t in a :: t !in body && t !in b
    ensures forall t: Token | t.Hole? && t in body :: t !in b
  {
    var toks := a + body + b;
    assert forall i | 0 <= i < |a| :: toks[i] == a[i];
    assert forall i | 0 <= i < |body| :: toks[|a| + i] == body[i];
    assert forall i | 0 <= i < |b| :: toks[|a| + |body| + i] == b[i];
  }

  lemma StepOnePlace(h: History, a: seq<Token>, body: seq<Token>, b: seq<Token>, n: nat)
    requires WellMasked(h) && h.toks == a + body + b && n !in h.env
    ensures OnePlaceEach(a + [Hole(n)] + b, h.steps + [Step(n, body)])
  {
    var steps', toks' := h.steps + [Step(n, body)], a + [Hole(n)] + b;
    StepUnrepeated(a, body, b, n);
    forall i | 0 <= i < |steps'|
      ensures Hole(steps'[i].n) in toks' <==> !Swallowed(steps', i)
    {
      if i < |h.steps| {
        var t := Hole(h.steps[i].n);
        assert steps'[i] == h.steps[i] && t.n != n;
        assert t in toks' <==> t in a || t in b;
        assert t in h.toks <==> t in a || t in body || t in b;
        SwallowedGrows(h.steps, Step(n, body), i);
      }
    }
  }

  lemma SwallowedGrows(steps: seq<Step>, s: Step, i: nat)
    requires i < |steps|
    ensures Swallowed(steps + [s], i) <==> Swallowed(steps, i) || Hole(steps[i].n) in s.body
  {
    var steps' := steps + [s];
    if Hole(steps[i].n) in s.body {
      assert steps'[|steps|] == s;
    }
    if j :| i < j < |steps| && Hole(steps[i].n) in steps[j].body {
      assert steps'[j] == steps[j];
    }
  }

  // ---- restoring, on tokens ----

  function Undo(toks: seq<Token>, steps: seq<Step>): seq<Token>
    decreases |steps|
  {
    if steps == [] then toks else Undo(Subst(toks, steps[0].n, steps[0].body), steps[1..])
  }

  /** Restoring strings is restoring tokens, and loses no text. */
  lemma {:induction false} UnmaskIsUndo(toks: seq<Token>, steps: seq<Step>, env: map<nat, string>,
                                        placeholders: seq<string>, mapping: map<string, string>)
    requires |placeholders| == |steps|
    requires forall i | 0 <= i < |steps| :: placeholders[i] == Mark(steps[i].n)
    requires forall i | 0 <= i < |steps| ::
               placeholders[i] in mapping && mapping[placeholders[i]] == Render(steps[i].body)
    requires forall i | 0 <= i < |steps| :: steps[i].n in env && env[steps[i].n] == Fill(steps[i].body, env)
    requires NeedleFree(Fill(toks, env), steps)
    ensures "" !in placeholders
    ensures Unmask(Render(toks), placeholders, mapping) == Render(Undo(toks, steps))
    ensures Fill(Undo(toks, steps), env) == Fill(toks, env)
    decreases |steps|
  {
    if steps == [] {
    } else {
      var Step(n, body) := steps[0];
      CleanFromText(toks, env, n);
      ReplaceIsSubst(toks, n, body);
      SubstKeepsFill(toks, n, body, env);
      assert forall i | 0 <= i < |steps[1..]| :: steps[1..][i] == steps[i + 1];
      UnmaskIsUndo(Subst(toks, n, body), steps[1..], env, placeholders[1..], mapping);
    }
  }

  lemma {:induction false} UndoLeavesNoHole(toks: seq<Token>, steps: seq<Step>)
    requires forall t | t in toks && t.Hole? :: Issued(steps, |steps|, t.n)
    requires forall i | 0 <= i < |steps| :: HoleFree(steps[i].body)
    ensures HoleFree(Undo(toks, steps))
    decreases |steps|
  {
    if steps == [] {
      assert forall i | 0 <= i < |toks| :: toks[i] in toks;
    } else {
      var toks' := Subst(toks, steps[0].n, steps[0].body);
      forall t | t in toks' && t.Hole? ensures Issued(steps[1..], |steps[1..]|, t.n) {
        SubstMembers(toks, steps[0].n, steps[0].body, t);
        var i :| 0 <= i < |steps| && steps[i].n == t.n;
        assert steps[1..][i - 1] == steps[i];
      }
      UndoLeavesNoHole(toks', steps[1..]);
    }
  }

  /** A hole no later step fills stays. */
  lemma {:induction false} HoleStays(toks: seq<Token>, steps: seq<Step>, m: nat)
    requires Hole(m) in toks && forall i | 0 <= i < |steps| :: steps[i].n != m
    ensures Hole(m) in Undo(toks, steps)
    decreases |steps|
  {
    if steps == [] {
    } else {
      SubstMembers(toks, steps[0].n, steps[0].body, Hole(m));
      HoleStays(Subst(toks, steps[0].n, steps[0].body), steps[1..], m);
    }
  }

  /** Filling hole `steps[j].n` puts back a placeholder whose turn is over. */
  lemma {:induction false} HoleReappears(toks: seq<Token>, steps: seq<Step>, j: nat, m: nat)
    requires Distinct(steps) && j < |steps|
    requires Hole(steps[j].n) in toks && Hole(m) in steps[j].body
    requires forall i | j <= i < |steps| :: steps[i].n != m
    ensures Hole(m) in Undo(toks, steps)
    decreases |steps|
  {
    var toks' := Subst(toks, steps[0].n, steps[0].body);
    if j == 0 {
      SubstMembers(toks, steps[0].n, steps[0].body, Hole(m));
      HoleStays(toks', steps[1..], m);
    } else {
      SubstMembers(toks, steps[0].n, steps[0].body, Hole(steps[j].n));
      assert steps[1..][j - 1] == steps[j];
      HoleReappears(toks', steps[1..], j - 1, m);
    }
  }

  lemma VisibleMeansHoleFreeBodies(h: History)
    requires WellMasked(h)
    requires forall i | 0 <= i < |h.steps| :: Hole(h.steps[i].n) in h.toks
    ensures forall j | 0 <= j < |h.steps| :: HoleFree(h.steps[j].body)
  {
    forall j, k | 0 <= j < |h.steps| && 0 <= k < |h.steps[j].body|
      ensures h.steps[j].body[k].Lit?
    {
      if h.steps[j].body[k].Hole? { BuriedIsHidden(h, j, h.steps[j].body[k].n); }
    }
  }

  lemma BuriedIsHidden(h: History, j: nat, n: nat)
    requires WellMasked(h) && j < |h.steps| && Hole(n) in h.steps[j].body
    ensures exists i :: 0 <= i < |h.steps| && h.steps[i].n == n && Hole(h.steps[i].n) !in h.toks
  {
    var i :| 0 <= i < j && h.steps[i].n == n;
    assert Swallowed(h.steps, i);
  }

  /** The newest placeholder that is not visible lies under a visible one. */
  lemma NewestSwallowed(h: History, m: nat) returns (i: nat, j: nat)
    requires WellMasked(h) && m < |h.steps| && Hole(h.steps[m].n) !in h.toks
    ensures i < j < |h.steps| && Hole(h.steps[j].n) in h.toks && Hole(h.steps[i].n) in h.steps[j].body
    decreases |h.steps| - m
  {
    var k :| m < k < |h.steps| && Hole(h.steps[m].n) in h.steps[k].body;
    if Hole(h.steps[k].n) in h.toks {
      i, j := m, k;
    } else {
      i, j := NewestSwallowed(h, k);
    }
  }

  // ---- main results ----

  /** The visible holes are exactly the placeholders the validation finds. */
  lemma ValidationSeesHoles(h: History, text: string, masked: string,
                            placeholders: seq<string>, mapping: map<string, string>)
    requires Explains(h, text, masked, placeholders, mapping) && NeedleFree(text, h.steps)
    ensures forall i | 0 <= i < |h.steps| ::
              Contains(masked, placeholders[i]) <==> Hole(h.steps[i].n) in h.toks
  {
    forall i | 0 <= i < |h.steps|
      ensures Contains(masked, placeholders[i]) <==> Hole(h.steps[i].n) in h.toks
    {
      CleanFromText(h.toks, h.env, h.steps[i].n);
      ContainsIffHole(h.toks, h.steps[i].n);
    }
  }

  /** Masking followed by unmasking is the identity exactly when the
      validation accepts the masked text. */
  lemma RoundTrip(h: History, text: string, masked: string,
                  placeholders: seq<string>, mapping: map<string, string>)
    requires Explains(h, text, masked, placeholders, mapping) && NeedleFree(text, h.steps)
    ensures "" !in placeholders
    ensures Unmask(masked, placeholders, mapping) == text <==> AllPresent(masked, placeholders)
  {
    UnmaskIsUndo(h.toks, h.steps, h.env, placeholders, mapping);
    ValidationSeesHoles(h, text, masked, placeholders, mapping);
    if AllPresent(masked, placeholders) {
      assert forall i | 0 <= i < |h.steps| :: placeholders[i] in placeholders;
      AllVisible(h);
    } else {
      var p :| p in placeholders && !Contains(masked, p);
      var m :| 0 <= m < |placeholders| && placeholders[m] == p;
      SomeHidden(h, m);
    }
  }

  lemma AllVisible(h: History)
    requires WellMasked(h)
    requires forall i | 0 <= i < |h.steps| :: Hole(h.steps[i].n) in h.toks
    requires Fill(Undo(h.toks, h.steps), h.env) == Fill(h.toks, h.env)
    ensures Render(Undo(h.toks, h.steps)) == Fill(h.toks, h.env)
  {
    VisibleMeansHoleFreeBodies(h);
    UndoLeavesNoHole(h.toks, h.steps);
    FillOfHoleFree(Undo(h.toks, h.steps), h.env);
  }

  lemma SomeHidden(h: History, m: nat)
    requires WellMasked(h) && m < |h.steps| && Hole(h.steps[m].n) !in h.toks
    requires NeedleFree(Fill(h.toks, h.env), h.steps)
    ensures Render(Undo(h.toks, h.steps)) != Fill(h.toks, h.env)
  {
    var i, j := NewestSwallowed(h, m);
    HoleReappears(h.toks, h.steps, j, h.steps[i].n);
    HoleShows(Undo(h.toks, h.steps), h.steps[i].n);
    MarkHasNeedle(Render(Undo(h.toks, h.steps)), h.steps[i].n);
  }

  lemma MarkHasNeedle(s: string, n: nat)
    requires Contains(s, Mark(n))
    ensures Contains(s, Needle(n))
  {
    var d: nat :| d <= |s| && At(s, Mark(n), d);
    MarkAt(s, n, d);
    assert s[d + 2..d + 2 + |Needle(n)|] == Needle(n);
    assert At(s, Needle(n), d + 2);
  }

  /** What the placeholders of a translated text stand for. */
  function Restored(toks: seq<Token>, mapping: map<string, string>): string {
    if toks == [] then ""
    else (match toks[0]
          case Lit(c) => [c]
          case Hole(n) => if Mark(n) in mapping then mapping[Mark(n)] else "")
         + Restored(toks[1..], mapping)
  }

  /** The rendering with the holes of `m` replaced, and the others as marks. */
  function Put(toks: seq<Token>, m: map<nat, string>): string {
    if toks == [] then ""
    else (if toks[0].Hole? && toks[0].n in m then m[toks[0].n] else Piece(toks[0])) + Put(toks[1..], m)
  }

  lemma {:induction false} PutConcat(a: seq<Token>, b: seq<Token>, m: map<nat, string>)
    ensures Put(a + b, m) == Put(a, m) + Put(b, m)
  {
    if a == [] {
      assert a + b == b;
    } else {
      assert (a + b)[1..] == a[1..] + b;
      PutConcat(a[1..], b, m);
    }
  }

  lemma {:induction false} PutNothing(toks: seq<Token>, m: map<nat, string>)
    requires forall n | n in m :: Hole(n) !in toks
    ensures Put(toks, m) == Render(toks)
  {
    if toks == [] {
    } else {
      PutNothing(toks[1..], m);
    }
  }

  /** Filling one hole first changes nothing, when what it is filled with has no
      hole to fill. */
  lemma {:induction false} PutAfterSubst(toks: seq<Token>, n: nat, body: seq<Token>, m: map<nat, string>)
    requires n in m && m[n] == Render(body) && forall k | k in m :: Hole(k) !in body
    ensures Put(Subst(toks, n, body), m - {n}) == Put(toks, m)
  {
    if toks == [] {
    } else {
      PutAfterSubst(toks[1..], n, body, m);
      PutConcat(if toks[0] == Hole(n) then body else [toks[0]], Subst(toks[1..], n, body), m - {n});
      PutNothing(body, m - {n});
    }
  }

  /** The placeholders still to be replaced, with what replaces them. */
  ghost predicate Pending(steps: seq<Step>, m: map<nat, string>) {
    && (forall i | 0 <= i < |steps| :: steps[i].n in m && m[steps[i].n] == Render(steps[i].body))
    && (forall n | n in m :: Issued(steps, |steps|, n))
  }

  /** A span is masked before the placeholders of later spans are issued. */
  ghost predicate Later(steps: seq<Step>) {
    forall i, j | 0 <= i <= j < |steps| :: Hole(steps[j].n) !in steps[i].body
  }

  lemma {:induction false} UndoIsPut(toks: seq<Token>, steps: seq<Step>, m: map<nat, string>)
    requires Distinct(steps) && Later(steps) && Pending(steps, m)
    ensures Render(Undo(toks, steps)) == Put(toks, m)
    decreases |steps|
  {
    if steps == [] {
      PutNothing(toks, m);
    } else {
      var Step(n, body) := steps[0];
      forall k | k in m ensures Hole(k) !in body { var i :| 0 <= i < |steps| && steps[i].n == k; }
      PutAfterSubst(toks, n, body, m);
      PendingRest(steps, m);
      UndoIsPut(Subst(toks, n, body), steps[1..], m - {n});
    }
  }

  lemma PendingRest(steps: seq<Step>, m: map<nat, string>)
    requires steps != [] && Distinct(steps) && Later(steps) && Pending(steps, m)
    ensures Distinct(steps[1..]) && Later(steps[1..]) && Pending(steps[1..], m - {steps[0].n})
  {
    var rest := steps[1..];
    assert forall i | 0 <= i < |rest| :: rest[i] == steps[i + 1];
    forall n | n in m - {steps[0].n} ensures Issued(rest, |rest|, n) {
      var i :| 0 <= i < |steps| && steps[i].n == n;
      assert rest[i - 1].n == n;
    }
  }

  lemma StepsAreLater(h: History)
    requires WellMasked(h)
    ensures Later(h.steps)
  {
    forall i, j | 0 <= i <= j < |h.steps| ensures Hole(h.steps[j].n) !in h.steps[i].body {
      assert Hole(h.steps[j].n) in h.steps[i].body ==> Issued(h.steps, i, h.steps[j].n);
    }
  }

  /** What the placeholders are replaced with, by number. */
  function ByNumber(h: History, mapping: map<string, string>): map<nat, string> {
    map n | n in h.env && Mark(n) in mapping :: mapping[Mark(n)]
  }

  lemma ByNumberPending(h: History, text: string, masked: string,
                        placeholders: seq<string>, mapping: map<string, string>)
    requires Explains(h, text, masked, placeholders, mapping)
    ensures Pending(h.steps, ByNumber(h, mapping))
  {
    hide Mark, Fill, Render, Unrepeated, Ordered, OnePlaceEach, Distinct;
    var m := ByNumber(h, mapping);
    forall i | 0 <= i < |h.steps| ensures h.steps[i].n in m && m[h.steps[i].n] == Render(h.steps[i].body) {
      assert placeholders[i] == Mark(h.steps[i].n);
    }
  }

  lemma {:induction false} RestoredIsPut(toks: seq<Token>, mapping: map<string, string>, m: map<nat, string>)
    requires forall t | t in toks && t.Hole? :: t.n in m && Mark(t.n) in mapping && mapping[Mark(t.n)] == m[t.n]
    ensures Restored(toks, mapping) == Put(toks, m)
  {
    if toks == [] {
    } else {
      RestoredIsPut(toks[1..], mapping, m);
    }
  }

  /** A reply read as words and placeholders, in which no needle stands apart. */
  ghost predicate Reads(toks: seq<Token>, reply: string, placeholders: seq<string>, h: History) {
    && Render(toks) == reply && (forall t | t in toks && t.Hole? :: Mark(t.n) in placeholders)
    && NeedleFree(Fill(toks, h.env), h.steps)
  }

  /** Whatever the translator does to the words, and wherever and however
      often it puts the placeholders, each placeholder is replaced by the
      span it stands for and every other character is kept. */
  lemma TranslationIsRestored(h: History, text: string, masked: string, placeholders: seq<string>,
                              mapping: map<string, string>, toks: seq<Token>, reply: string)
    requires Explains(h, text, masked, placeholders, mapping) && Reads(toks, reply, placeholders, h)
    ensures "" !in placeholders
    ensures Unmask(reply, placeholders, mapping) == Restored(toks, mapping)
  {
    var m := ByNumber(h, mapping);
    UnmaskIsUndo(toks, h.steps, h.env, placeholders, mapping);
    StepsAreLater(h);
    ByNumberPending(h, text, masked, placeholders, mapping);
    UndoIsPut(toks, h.steps, m);
    forall t | t in toks && t.Hole? ensures t.n in m && Mark(t.n) in mapping && mapping[Mark(t.n)] == m[t.n] {
      var i :| 0 <= i < |placeholders| && placeholders[i] == Mark(t.n);
      MarkInjective(t.n, h.steps[i].n);
    }
    RestoredIsPut(toks, mapping, m);
  }

  lemma MarkInjective(m: nat, n: nat)
    requires Mark(m) == Mark(n)
    ensures m == n
  {
    assert Mark(m) + "" == Mark(m);
    MarkPrefix(m, n, "");
  }

  /** The hypothesis on the text cannot be dropped. The text below is not a
      placeholder, so `n` (900000 on a fresh allocator) is issued for it; the
      validation accepts the masked text, and yet another string comes back. */
  lemma NeedleMatters(n: nat)
    ensures Explains(Clash(n), ClashText(n), ClashMasked(n), [Mark(n)], map[Mark(n) := "`x`"])
    ensures AllPresent(ClashMasked(n), [Mark(n)])
    ensures Unmask(ClashMasked(n), [Mark(n)], map[Mark(n) := "`x`"]) != ClashText(n)
  {
    ClashExplained(n);
    assert At(ClashMasked(n), Mark(n), |"__" + Needle(n)|);
    ClashReplaced(n);
    var mapping := map[Mark(n) := "`x`"];
    assert [Mark(n)][1..] == [];
    assert Unmask(ClashMasked(n), [Mark(n)], mapping)
           == Unmask(ReplaceAll(ClashMasked(n), Mark(n), "`x`"), [], mapping);
    assert ClashText(n)[0] == '_';
  }

  function ClashText(n: nat): string { "__" + Needle(n) + "`x`" }

  function ClashMasked(n: nat): string { "__" + Needle(n) + Mark(n) }

  function Clash(n: nat): History {
    History(Literals("__" + Needle(n)) + [Hole(n)], [Step(n, Literals("`x`"))], map[n := "`x`"])
  }

  lemma ClashRenders(n: nat)
    ensures Render(Clash(n).toks) == ClashMasked(n) && Fill(Clash(n).toks, Clash(n).env) == ClashText(n)
  {
    hide Needle, Mark, Literals;
    var h, lits := Clash(n), Literals("__" + Needle(n));
    LiteralsStandForThemselves("__" + Needle(n), h.env);
    RenderConcat(lits, [Hole(n)]);
    FillConcat(lits, [Hole(n)], h.env);
    assert Render([Hole(n)]) == Mark(n) + Render([]);
    assert Fill([Hole(n)], h.env) == "`x`" + Fill([], h.env);
  }

  lemma ClashExplained(n: nat)
    ensures Explains(Clash(n), ClashText(n), ClashMasked(n), [Mark(n)], map[Mark(n) := "`x`"])
  {
    hide WellMasked, Fill, Render, Literals, Mark, Needle, ClashMasked, ClashText;
    ClashRenders(n);
    ClashWellMasked(n);
    LiteralsStandForThemselves("`x`", Clash(n).env);
  }

  lemma ClashWellMasked(n: nat)
    ensures WellMasked(Clash(n))
  {
    var h := Clash(n);
    LiteralsStandForThemselves("`x`", h.env);
    assert h.steps[0].n == n;
    assert h.toks[|h.toks| - 1] == Hole(n);
  }

  lemma ClashReplaced(n: nat)
    ensures ReplaceAll(ClashMasked(n), Mark(n), "`x`") == "`x`" + (Needle(n) + "__")
  {
    var masked, tail := ClashMasked(n), Needle(n) + "__";
    assert masked == Mark(n) + tail;
    assert forall d: nat | d < |tail| :: !At(tail + "", Mark(n), d);
    ReplaceSkips(tail, "", Mark(n), "`x`");
    assert tail + "" == tail && masked[|Mark(n)|..] == tail;
  }

  /** Nor is it necessary: the text below holds the needle, is masked to the same
      string, and comes back. */
  lemma NeedleMayStay(n: nat)
    ensures var text, mapping := "`x`" + Needle(n) + "__", map[Mark(n) := "`x`"];
            && Contains(text, Needle(n))
            && Explains(Lucky(n), text, ClashMasked(n), [Mark(n)], mapping)
            && Unmask(ClashMasked(n), [Mark(n)], mapping) == text
  {
    LuckyExplained(n);
    hide Explains;
    LuckyTexts(n);
    ClashReplaced(n);
    assert [Mark(n)][1..] == [];
    AtConcat("`x`", Needle(n), "__");
  }

  lemma AtConcat(a: string, sub: string, b: string)
    ensures At(a + sub + b, sub, |a|)
  {
  }

  function Lucky(n: nat): History {
    History([Hole(n)] + Literals(Needle(n) + "__"), [Step(n, Literals("`x`"))], map[n := "`x`"])
  }

  lemma LuckyWellMasked(n: nat)
    ensures WellMasked(Lucky(n))
  {
    var h := Lucky(n);
    LiteralsStandForThemselves("`x`", h.env);
    assert h.steps[0].n == n;
    assert h.toks[0] == Hole(n);
  }

  lemma LuckyRenders(n: nat)
    ensures Render(Lucky(n).toks) == Mark(n) + (Needle(n) + "__")
    ensures Fill(Lucky(n).toks, Lucky(n).env) == "`x`" + (Needle(n) + "__")
  {
    hide Needle, Mark, Literals;
    var h, lits, rest := Lucky(n), Literals(Needle(n) + "__"), Needle(n) + "__";
    LiteralsStandForThemselves(rest, h.env);
    RenderConcat([Hole(n)], lits);
    FillConcat([Hole(n)], lits, h.env);
    assert Render([Hole(n)]) == Mark(n) + Render([]);
    assert Fill([Hole(n)], h.env) == "`x`" + Fill([], h.env);
  }

  lemma LuckyTexts(n: nat)
    ensures ClashMasked(n) == Mark(n) + (Needle(n) + "__")
    ensures "`x`" + Needle(n) + "__" == "`x`" + (Needle(n) + "__")
  {
    hide Needle;
  }

  lemma LuckyExplained(n: nat)
    ensures Explains(Lucky(n), "`x`" + Needle(n) + "__", ClashMasked(n), [Mark(n)], map[Mark(n) := "`x`"])
  {
    hide WellMasked, Fill, Render, Literals, Mark, Needle, ClashMasked;
    LuckyTexts(n);
    LuckyRenders(n);
    LuckyWellMasked(n);
    LiteralsStandForThemselves("`x`", Lucky(n).env);
  }
}
