/** The loops of scripts/docs-i18n/masking.go and placeholders.go, and the
    pipeline of translator.go that ties them together. */
module MaskPasses {
  import opened Text
  import opened MaskTokens
  import opened Masking

  // ---- fresh placeholders ----

  function DigitRun(s: string): nat {
    if s != "" && IsDigit(s[0]) then 1 + DigitRun(s[1..]) else 0
  }

  /** The length of the placeholder-shaped match that starts `s`, or 0. */
  function HitLength(s: string): (n: nat)
    ensures n <= |s|
  {
    if !("__OC_I18N_" <= s) then 0
    else
      var digits := DigitRun(s[10..]);
      DigitRunFits(s[10..]);
      if digits > 0 && "__" <= s[10 + digits..] then 12 + digits else 0
  }

  lemma DigitRunFits(s: string)
    ensures DigitRun(s) <= |s|
  {
  }

  /** The successive non-overlapping matches, as `FindAllString` lists them. */
  function Hits(text: string): seq<string> {
    if text == "" then []
    else if HitLength(text) > 0 then [text[..HitLength(text)]] + Hits(text[HitLength(text)..])
    else Hits(text[1..])
  }

  class PlaceholderState {
    var counter: nat
    var used: set<string>

    constructor (text: string)
      ensures counter == 900000
      ensures forall s :: s in used <==> s in Hits(text)
    {
      counter, used := 900000, {};
      new;
      var hits := Hits(text);
      for i := 0 to |hits|
        invariant counter == 900000
        invariant forall s :: s in used <==> s in hits[..i]
      {
        used := used + {hits[i]};
      }
      assert hits[..|hits|] == hits;
    }

    /** The used marks the counter has still to pass. */
    ghost function Ahead(): set<string>
      reads this
    {
      set s | s in used && exists m: nat :: counter <= m && s == Mark(m)
    }

    /** The first number at or above the counter whose mark is not used. */
    method Next() returns (placeholder: string, ghost n: nat)
      modifies this
      ensures placeholder == Mark(n) && placeholder !in old(used)
      ensures old(counter) <= n && counter == n + 1
      ensures forall m: nat | old(counter) <= m < n :: Mark(m) in old(used)
      ensures used == old(used) + {placeholder}
    {
      while true
        invariant used == old(used) && old(counter) <= counter
        invariant forall m: nat | old(counter) <= m < counter :: Mark(m) in used
        decreases |Ahead()|
      {
        var candidate := "__" + "OC_I18N_" + Decimal(counter) + "__";
        assert candidate == Mark(counter);
        n := counter;
        ghost var ahead := Ahead();
        counter := counter + 1;
        if candidate in used {
          assert candidate in ahead && candidate !in Ahead() by {
            if m: nat :| counter <= m && candidate == Mark(m) {
              MarkInjective(m, n);
            }
          }
          assert Ahead() <= ahead - {candidate};
          SmallerSet(Ahead(), ahead, candidate);
          continue;
        }
        used := used + {candidate};
        placeholder := candidate;
        return;
      }
    }
  }

  lemma SmallerSet<T>(a: set<T>, b: set<T>, x: T)
    requires a <= b - {x} && x in b
    ensures |a| < |b|
  {
    SubsetSize(a, b - {x});
  }

  lemma {:induction false} SubsetSize<T>(a: set<T>, b: set<T>)
    requires a <= b
    ensures |a| <= |b|
  {
    if x :| x in a {
      SubsetSize(a - {x}, b - {x});
    }
  }

  // ---- spans ----

  datatype Span = Span(start: nat, end: nat)

  /** A match of a link pattern: the whole match and the URL group in it. A
      group that took no part in the match has negative bounds. */
  datatype LinkSpan = LinkSpan(fullStart: nat, urlStart: int, urlEnd: int)

  predicate Inside(text: string, start: nat, end: nat) {
    start <= end <= |text| && NotCutting(text, start) && NotCutting(text, end)
  }

  /** A backtick, at least one character, none of them a backtick, a backtick. */
  predicate InlineCode(text: string, s: Span) {
    && s.start + 3 <= s.end <= |text|
    && text[s.start] == '`' == text[s.end - 1]
    && '`' !in text[s.start + 1..s.end - 1]
  }

  predicate AngleLink(text: string, s: Span) {
    && s.start + 9 < s.end <= |text|
    && ("<http://" <= text[s.start..] || "<https://" <= text[s.start..])
    && text[s.end - 1] == '>'
    && '>' !in text[s.start + 1..s.end - 1]
  }

  predicate LinkUrl(text: string, s: LinkSpan) {
    && s.fullStart + 3 <= s.urlStart < s.urlEnd < |text|
    && text[s.fullStart] == '[' && text[s.urlStart - 2] == ']' && text[s.urlStart - 1] == '('
    && text[s.urlEnd] == ')' && ')' !in text[s.urlStart..s.urlEnd]
  }

  /** None of the three patterns can cut a placeholder in two. */
  lemma PatternsDoNotCut(text: string, s: Span, l: LinkSpan)
    ensures InlineCode(text, s) ==> Inside(text, s.start, s.end)
    ensures AngleLink(text, s) ==> Inside(text, s.start, s.end)
    ensures LinkUrl(text, l) ==> Inside(text, l.urlStart, l.urlEnd)
  {
    if AngleLink(text, s) {
      assert text[s.start..][0] == '<';
    }
  }

  // ---- what a pass computes ----

  function EndOf(kept: seq<Span>): nat { if kept == [] then 0 else kept[|kept| - 1].end }

  /** The matches a pass acts on: it goes from left to right, and passes over
      those that begin before the end of the last one it acted on. */
  function Kept(matches: seq<LinkSpan>): seq<Span> {
    if matches == [] then []
    else
      var kept, m := Kept(matches[..|matches| - 1]), matches[|matches| - 1];
      if m.urlStart < 0 || m.urlEnd < 0 || m.fullStart < EndOf(kept) then kept
      else kept + [Span(m.urlStart, m.urlEnd)]
  }

  function AsLinks(matches: seq<Span>): seq<LinkSpan> {
    seq(|matches|, i requires 0 <= i < |matches| => LinkSpan(matches[i].start, matches[i].start, matches[i].end))
  }

  predicate InOrder(text: string, kept: seq<Span>) {
    && (forall i | 0 <= i < |kept| :: kept[i].start <= kept[i].end <= |text|)
    && (forall i | 0 < i < |kept| :: kept[i - 1].end <= kept[i].start)
  }

  /** The text up to the end of the last span, with marks for the spans. */
  function Woven(text: string, kept: seq<Span>, marks: seq<string>): string
    requires InOrder(text, kept) && |marks| == |kept|
  {
    if kept == [] then ""
    else
      var k := |kept| - 1;
      Woven(text, kept[..k], marks[..k]) + text[EndOf(kept[..k])..kept[k].start] + marks[k]
  }

  /** Each mark stands for the span it was put in the place of. */
  ghost predicate StandFor(text: string, kept: seq<Span>, marks: seq<string>, mapping: map<string, string>)
    requires InOrder(text, kept) && |marks| == |kept|
  {
    forall i | 0 <= i < |kept| :: marks[i] in mapping && mapping[marks[i]] == text[kept[i].start..kept[i].end]
  }

  ghost predicate Wove(text: string, kept: seq<Span>, out: string, marks: seq<string>, mapping: map<string, string>) {
    InOrder(text, kept) && |marks| == |kept| && out == Woven(text, kept, marks) && StandFor(text, kept, marks, mapping)
  }

  /** `masked` is `text` with exactly the kept spans replaced, in order, by the
      placeholders added to the list; earlier entries are untouched. */
  ghost predicate Replaced(text: string, kept: seq<Span>, masked: string,
                           placeholders: seq<string>, mapping: map<string, string>,
                           placeholders': seq<string>, mapping': map<string, string>)
  {
    && InOrder(text, kept) && |placeholders'| == |placeholders| + |kept|
    && placeholders'[..|placeholders|] == placeholders
    && (forall p | p in mapping :: p in mapping' && mapping'[p] == mapping[p])
    && masked == Woven(text, kept, placeholders'[|placeholders|..]) + text[EndOf(kept)..]
    && StandFor(text, kept, placeholders'[|placeholders|..], mapping')
  }

  lemma WeaveOne(text: string, kept: seq<Span>, out: string, marks: seq<string>, mapping: map<string, string>,
                 start: nat, end: nat, mark: string)
    requires Wove(text, kept, out, marks, mapping) && EndOf(kept) <= start <= end <= |text| && mark !in mapping
    ensures Wove(text, kept + [Span(start, end)], out + text[EndOf(kept)..start] + mark, marks + [mark],
                 mapping[mark := text[start..end]])
  {
    var kept', marks' := kept + [Span(start, end)], marks + [mark];
    assert kept'[..|kept|] == kept && marks'[..|kept|] == marks;
  }

  // ---- one step of a pass ----

  /** `out` has been written, `text[pos..]` is still to be copied. */
  ghost predicate Midway(h: History, k: nat, origin: string, text: string, pos: nat, out: string,
                         placeholders: seq<string>, mapping: map<string, string>)
  {
    && pos <= |text| && k <= |h.toks|
    && Explains(h, origin, out + text[pos..], placeholders, mapping)
    && Render(h.toks[..k]) == out && Render(h.toks[k..]) == text[pos..]
  }

  /** Every issued mark is a key of the mapping, and keys are used marks. */
  ghost predicate Recorded(h: History, used: set<string>, mapping: map<string, string>) {
    && (forall n | n in h.env :: Mark(n) in mapping)
    && mapping.Keys <= used
  }

  /** `h'` adds steps to `h`, all with marks outside `used`. */
  ghost predicate Extends(h: History, h': History, used: set<string>) {
    && |h.steps| <= |h'.steps| && h'.steps[..|h.steps|] == h.steps
    && (forall i | |h.steps| <= i < |h'.steps| :: Mark(h'.steps[i].n) !in used)
  }

  lemma ExtendsFurther(h: History, m: History, h': History, used: set<string>)
    requires Extends(h, m, used)
    requires |h'.steps| == |m.steps| + 1 && h'.steps[..|m.steps|] == m.steps
    requires Mark(h'.steps[|m.steps|].n) !in used
    ensures Extends(h, h', used)
  {
    assert forall i | 0 <= i < |m.steps| :: h'.steps[i] == h'.steps[..|m.steps|][i];
  }

  lemma SliceOfFront<T>(s: seq<T>, i: nat, j: nat)
    requires i <= j <= |s|
    ensures s[..j][..i] == s[..i] && s[..j][i..] == s[i..j]
  {
  }

  lemma SplitRest(rest: seq<Token>, x: string, y: string, z: string) returns (i: nat, j: nat)
    requires Render(rest) == x + y + z && Inside(Render(rest), |x|, |x + y|)
    ensures i <= j <= |rest|
    ensures Render(rest[..i]) == x && Render(rest[i..j]) == y && Render(rest[j..]) == z
  {
    j := TokenBoundary(rest, |x + y|);
    RenderSplit(rest, j);
    var front := rest[..j];
    assert Render(front) == x + y;
    assert NotCutting(x + y, |x|);
    hide NotCutting, Inside, Render;
    i := TokenBoundary(front, |x|);
    RenderSplit(front, i);
    SliceOfFront(rest, i, j);
  }

  lemma TailInParts(text: string, pos: nat, start: nat, end: nat)
    requires pos <= start <= end <= |text|
    ensures text[pos..] == text[pos..start] + text[start..end] + text[end..]
  {
    assert text[pos..] == text[pos..start] + text[start..];
    assert text[start..] == text[start..end] + text[end..];
  }

  lemma ThreeParts(text: string, pos: nat, start: nat, end: nat)
    requires pos <= start && Inside(text, start, end)
    ensures text[pos..] == text[pos..start] + text[start..end] + text[end..]
    ensures Inside(text[pos..start] + text[start..end] + text[end..],
                   |text[pos..start]|, |text[pos..start] + text[start..end]|)
  {
    var head, tail := text[..pos], text[pos..];
    assert text == head + tail;
    TailInParts(text, pos, start, end);
    BoundaryBehind(head, tail, start - pos);
    BoundaryBehind(head, tail, end - pos);
  }

  lemma CutRest(rest: seq<Token>, text: string, pos: nat, start: nat, end: nat) returns (i: nat, j: nat)
    requires pos <= start && Inside(text, start, end) && Render(rest) == text[pos..]
    ensures i <= j <= |rest|
    ensures Render(rest[..i]) == text[pos..start]
    ensures Render(rest[i..j]) == text[start..end]
    ensures Render(rest[j..]) == text[end..]
  {
    ThreeParts(text, pos, start, end);
    i, j := SplitRest(rest, text[pos..start], text[start..end], text[end..]);
  }

  lemma CutOut(toks: seq<Token>, k: nat, text: string, pos: nat, start: nat, end: nat)
    returns (a: seq<Token>, body: seq<Token>, b: seq<Token>)
    requires k <= |toks| && pos <= start && Inside(text, start, end)
    requires Render(toks[k..]) == text[pos..]
    ensures toks == a + body + b
    ensures Render(a) == Render(toks[..k]) + text[pos..start]
    ensures Render(body) == text[start..end]
    ensures Render(b) == text[end..]
  {
    var i, j := CutRest(toks[k..], text, pos, start, end);
    a, body, b := toks[..k] + toks[k..][..i], toks[k..][i..j], toks[k..][j..];
    RenderConcat(toks[..k], toks[k..][..i]);
    Regroup(toks, k, i, j);
  }

  lemma Regroup(toks: seq<Token>, k: nat, i: nat, j: nat)
    requires k <= |toks| && i <= j <= |toks[k..]|
    ensures toks == (toks[..k] + toks[k..][..i]) + toks[k..][i..j] + toks[k..][j..]
  {
  }

  lemma RenderMasked(a: seq<Token>, b: seq<Token>, n: nat)
    ensures Render(a + [Hole(n)]) == Render(a) + Mark(n)
    ensures Render(a + [Hole(n)] + b) == Render(a) + Mark(n) + Render(b)
  {
    RenderConcat(a, [Hole(n)]);
    RenderConcat(a + [Hole(n)], b);
    assert Render([Hole(n)]) == Mark(n) + Render([]);
  }

  lemma Advance(h: History, k: nat, origin: string, text: string, pos: nat, out: string,
                placeholders: seq<string>, mapping: map<string, string>, start: nat, end: nat, n: nat)
    returns (h': History, k': nat)
    requires Midway(h, k, origin, text, pos, out, placeholders, mapping)
    requires pos <= start && Inside(text, start, end) && Mark(n) !in mapping
    requires forall m | m in h.env :: Mark(m) in mapping
    ensures Midway(h', k', origin, text, end, out + text[pos..start] + Mark(n),
                   placeholders + [Mark(n)], mapping[Mark(n) := text[start..end]])
    ensures h'.env.Keys == h.env.Keys + {n}
    ensures |h'.steps| == |h.steps| + 1 && h'.steps[..|h.steps|] == h.steps && h'.steps[|h.steps|].n == n
  {
    var a, body, b := CutOut(h.toks, k, text, pos, start, end);
    MaskStep(h, a, body, b, n);
    h', k' := Masked(h, a, body, b, n), |a| + 1;
    RenderMasked(a, b, n);
    MappingExtended(h, placeholders, mapping, n, body);
    CursorAfterHole(a, b, n);
    var out' := out + text[pos..start] + Mark(n);
    assert Explains(h', origin, out' + text[end..], placeholders + [Mark(n)], mapping[Mark(n) := text[start..end]]);
  }

  lemma CursorAfterHole(a: seq<Token>, b: seq<Token>, n: nat)
    ensures (a + [Hole(n)] + b)[..|a| + 1] == a + [Hole(n)]
    ensures (a + [Hole(n)] + b)[|a| + 1..] == b
  {
  }

  lemma MappingExtended(h: History, placeholders: seq<string>, mapping: map<string, string>, n: nat, body: seq<Token>)
    requires |placeholders| == |h.steps| && Mark(n) !in mapping
    requires forall i | 0 <= i < |h.steps| :: placeholders[i] == Mark(h.steps[i].n)
    requires forall i | 0 <= i < |h.steps| ::
               placeholders[i] in mapping && mapping[placeholders[i]] == Render(h.steps[i].body)
    ensures var placeholders', mapping', steps' :=
              placeholders + [Mark(n)], mapping[Mark(n) := Render(body)], h.steps + [Step(n, body)];
            && (forall i | 0 <= i < |steps'| :: placeholders'[i] == Mark(steps'[i].n))
            && (forall i | 0 <= i < |steps'| ::
                  placeholders'[i] in mapping' && mapping'[placeholders'[i]] == Render(steps'[i].body))
  {
  }

  // ---- the passes ----

  /** Where a pass started. */
  datatype Start = Start(h: History, used: set<string>, placeholders: seq<string>, mapping: map<string, string>)

  /** What holds between two iterations of a pass. */
  ghost predicate PassInv(s: Start, h: History, k: nat, origin: string, text: string, kept: seq<Span>,
                          pos: nat, out: string, placeholders: seq<string>, mapping: map<string, string>,
                          used: set<string>)
  {
    && Midway(h, k, origin, text, pos, out, placeholders, mapping)
    && Recorded(h, used, mapping)
    && s.used <= used && Extends(s.h, h, s.used)
    && pos == EndOf(kept)
    && s.placeholders <= placeholders
    && Wove(text, kept, out, placeholders[|s.placeholders|..], mapping)
    && (forall p | p in s.mapping :: p in mapping && mapping[p] == s.mapping[p])
  }

  lemma PassStep(s: Start, h: History, k: nat, origin: string, text: string, kept: seq<Span>, pos: nat,
                 out: string, placeholders: seq<string>, mapping: map<string, string>, used: set<string>,
                 start: nat, end: nat, n: nat)
    returns (h': History, k': nat)
    requires PassInv(s, h, k, origin, text, kept, pos, out, placeholders, mapping, used)
    requires pos <= start && Inside(text, start, end) && Mark(n) !in used
    ensures PassInv(s, h', k', origin, text, kept + [Span(start, end)], end, out + text[pos..start] + Mark(n),
                    placeholders + [Mark(n)], mapping[Mark(n) := text[start..end]], used + {Mark(n)})
  {
    hide Midway, Wove, Extends;
    h', k' := Advance(h, k, origin, text, pos, out, placeholders, mapping, start, end, n);
    ExtendsFurther(s.h, h, h', s.used);
    var old', marks := |s.placeholders|, placeholders[|s.placeholders|..];
    WeaveOne(text, kept, out, marks, mapping, start, end, Mark(n));
    assert (placeholders + [Mark(n)])[old'..] == marks + [Mark(n)];
  }

  lemma PassStart(s: Start, origin: string, text: string)
    requires Explains(s.h, origin, text, s.placeholders, s.mapping) && Recorded(s.h, s.used, s.mapping)
    ensures PassInv(s, s.h, 0, origin, text, [], 0, "", s.placeholders, s.mapping, s.used)
  {
    var toks := s.h.toks;
    assert toks[..0] == [] && toks[0..] == toks && text[0..] == text && "" + text == text;
  }

  lemma PassEnd(s: Start, h: History, k: nat, origin: string, text: string, kept: seq<Span>, pos: nat,
                out: string, placeholders: seq<string>, mapping: map<string, string>, used: set<string>)
    requires PassInv(s, h, k, origin, text, kept, pos, out, placeholders, mapping, used)
    ensures Explains(h, origin, out + text[pos..], placeholders, mapping) && Recorded(h, used, mapping)
    ensures s.used <= used && Extends(s.h, h, s.used)
    ensures Replaced(text, kept, out + text[pos..], s.placeholders, s.mapping, placeholders, mapping)
  {
  }

  method MaskMatches(text: string, matches: seq<Span>, state: PlaceholderState,
                     placeholders: seq<string>, mapping: map<string, string>, ghost h: History, ghost origin: string)
    returns (masked: string, placeholders': seq<string>, mapping': map<string, string>, ghost h': History)
    requires forall m | m in matches :: Inside(text, m.start, m.end)
    requires Explains(h, origin, text, placeholders, mapping) && Recorded(h, state.used, mapping)
    modifies state
    ensures Replaced(text, Kept(AsLinks(matches)), masked, placeholders, mapping, placeholders', mapping')
    ensures Explains(h', origin, masked, placeholders', mapping') && Recorded(h', state.used, mapping')
    ensures old(state.used) <= state.used && Extends(h, h', old(state.used))
  {
    hide PassInv, Explains, Recorded, Extends, Replaced;
    masked, placeholders', mapping', h' := text, placeholders, mapping, h;
    ghost var start0, links := Start(h, state.used, placeholders, mapping), AsLinks(matches);
    ghost var k: nat, kept := 0, Kept(links[..0]);
    PassStart(start0, origin, text);
    if |matches| == 0 {
      PassEnd(start0, h, 0, origin, text, [], 0, "", placeholders, mapping, state.used);
      assert links == [] && "" + text[0..] == text;
      return;
    }
    var out, pos: nat := "", 0;
    for i := 0 to |matches|
      invariant PassInv(start0, h', k, origin, text, kept, pos, out, placeholders', mapping', state.used)
      invariant kept == Kept(links[..i]) && pos == EndOf(kept) <= |text|
    {
      assert links[..i + 1][..i] == links[..i] && matches[i] in matches;
      var start, end := matches[i].start, matches[i].end;
      if start < pos {
        continue;
      }
      ghost var before, used := out, state.used;
      out := out + text[pos..start];
      var placeholder, n := state.Next();
      h', k := PassStep(start0, h', k, origin, text, kept, pos, before, placeholders', mapping', used, start, end, n);
      kept := kept + [Span(start, end)];
      mapping' := mapping'[placeholder := text[start..end]];
      placeholders' := placeholders' + [placeholder];
      out := out + placeholder;
      pos := end;
    }
    masked := out + text[pos..];
    PassEnd(start0, h', k, origin, text, kept, pos, out, placeholders', mapping', state.used);
    assert links[..|matches|] == links;
  }

  method MaskLinkURLs(text: string, matches: seq<LinkSpan>, state: PlaceholderState,
                      placeholders: seq<string>, mapping: map<string, string>, ghost h: History, ghost origin: string)
    returns (masked: string, placeholders': seq<string>, mapping': map<string, string>, ghost h': History)
    requires forall m | m in matches && m.urlStart >= 0 && m.urlEnd >= 0 ::
               m.fullStart <= m.urlStart && Inside(text, m.urlStart, m.urlEnd)
    requires Explains(h, origin, text, placeholders, mapping) && Recorded(h, state.used, mapping)
    modifies state
    ensures Replaced(text, Kept(matches), masked, placeholders, mapping, placeholders', mapping')
    ensures Explains(h', origin, masked, placeholders', mapping') && Recorded(h', state.used, mapping')
    ensures old(state.used) <= state.used && Extends(h, h', old(state.used))
  {
    hide PassInv, Explains, Recorded, Extends, Replaced;
    masked, placeholders', mapping', h' := text, placeholders, mapping, h;
    ghost var start0 := Start(h, state.used, placeholders, mapping);
    ghost var k: nat, kept := 0, Kept(matches[..0]);
    PassStart(start0, origin, text);
    if |matches| == 0 {
      PassEnd(start0, h, 0, origin, text, [], 0, "", placeholders, mapping, state.used);
      assert matches == [] && "" + text[0..] == text;
      return;
    }
    var out, pos: nat := "", 0;
    for i := 0 to |matches|
      invariant PassInv(start0, h', k, origin, text, kept, pos, out, placeholders', mapping', state.used)
      invariant kept == Kept(matches[..i]) && pos == EndOf(kept) <= |text|
    {
      assert matches[..i + 1][..i] == matches[..i] && matches[i] in matches;
      var fullStart, urlStart, urlEnd := matches[i].fullStart, matches[i].urlStart, matches[i].urlEnd;
      if urlStart < 0 || urlEnd < 0 {
        continue;
      }
      if fullStart < pos {
        continue;
      }
      ghost var before, used := out, state.used;
      out := out + text[pos..urlStart];
      var placeholder, n := state.Next();
      h', k := PassStep(start0, h', k, origin, text, kept, pos, before,
                        placeholders', mapping', used, urlStart, urlEnd, n);
      kept := kept + [Span(urlStart, urlEnd)];
      mapping' := mapping'[placeholder := text[urlStart..urlEnd]];
      placeholders' := placeholders' + [placeholder];
      out := out + placeholder;
      pos := urlEnd;
    }
    masked := out + text[pos..];
    PassEnd(start0, h', k, origin, text, kept, pos, out, placeholders', mapping', state.used);
    assert matches[..|matches|] == matches;
  }

  /** The three regular expressions, as the lists of matches they find. */
  datatype Patterns = Patterns(code: string -> seq<Span>, angle: string -> seq<Span>, link: string -> seq<LinkSpan>)

  ghost predicate Lawful(p: Patterns) {
    && (forall t, m | m in p.code(t) :: InlineCode(t, m))
    && (forall t, m | m in p.angle(t) :: AngleLink(t, m))
    && (forall t, m | m in p.link(t) && m.urlStart >= 0 && m.urlEnd >= 0 :: LinkUrl(t, m))
  }

  ghost function Unmasked(text: string): History { History(Literals(text), [], map[]) }

  lemma UnmaskedExplains(text: string)
    ensures Explains(Unmasked(text), text, text, [], map[])
  {
    LiteralsStandForThemselves(text, map[]);
  }

  lemma PassesCompose(h0: History, h1: History, h2: History, used0: set<string>, used1: set<string>)
    requires used0 <= used1 && Extends(h0, h1, used0) && Extends(h1, h2, used1)
    ensures Extends(h0, h2, used0)
  {
    assert forall i | 0 <= i < |h1.steps| :: h2.steps[i] == h2.steps[..|h1.steps|][i];
    assert h2.steps[..|h0.steps|] == h2.steps[..|h1.steps|][..|h0.steps|];
  }

  /** The three passes one after the other, each on the text the one before
      it left. */
  ghost predicate ThreePasses(text: string, patterns: Patterns, masked: string, placeholders: seq<string>,
                              mapping: map<string, string>)
  {
    exists text1, ps1, mp1, text2, ps2, mp2 ::
      && Replaced(text, Kept(AsLinks(patterns.code(text))), text1, [], map[], ps1, mp1)
      && Replaced(text1, Kept(AsLinks(patterns.angle(text1))), text2, ps1, mp1, ps2, mp2)
      && Replaced(text2, Kept(patterns.link(text2)), masked, ps2, mp2, placeholders, mapping)
  }

  /** All three passes. `h` records what was put where; no placeholder that
      was in use before is issued again. */
  method MaskMarkdown(text: string, patterns: Patterns, state: PlaceholderState)
    returns (masked: string, placeholders: seq<string>, mapping: map<string, string>, ghost h: History)
    requires Lawful(patterns)
    modifies state
    ensures ThreePasses(text, patterns, masked, placeholders, mapping)
    ensures Explains(h, text, masked, placeholders, mapping)
    ensures forall p | p in placeholders :: p !in old(state.used)
  {
    hide Explains, Extends, Inside, Replaced;
    ghost var h0 := Unmasked(text);
    UnmaskedExplains(text);
    CodeDoesNotCut(patterns, text);
    ghost var h1, h2, used1, used2;
    masked, placeholders, mapping, h1 := MaskMatches(text, patterns.code(text), state, [], map[], h0, text);
    used1 := state.used;
    ghost var text1, ps1, mp1 := masked, placeholders, mapping;
    CodeDoesNotCut(patterns, text1);
    masked, placeholders, mapping, h2 :=
      MaskMatches(masked, patterns.angle(masked), state, placeholders, mapping, h1, text);
    used2 := state.used;
    ghost var text2, ps2, mp2 := masked, placeholders, mapping;
    CodeDoesNotCut(patterns, text2);
    masked, placeholders, mapping, h :=
      MaskLinkURLs(masked, patterns.link(masked), state, placeholders, mapping, h2, text);
    PassesCompose(h0, h1, h2, old(state.used), used1);
    PassesCompose(h0, h2, h, old(state.used), used2);
    NothingReissued(h0, h, text, masked, placeholders, mapping, old(state.used));
  }

  lemma CodeDoesNotCut(p: Patterns, text: string)
    requires Lawful(p)
    ensures forall m | m in p.code(text) :: Inside(text, m.start, m.end)
    ensures forall m | m in p.angle(text) :: Inside(text, m.start, m.end)
    ensures forall m | m in p.link(text) && m.urlStart >= 0 && m.urlEnd >= 0 ::
              m.fullStart <= m.urlStart && Inside(text, m.urlStart, m.urlEnd)
  {
    forall m | m in p.angle(text) ensures Inside(text, m.start, m.end) {
      PatternsDoNotCut(text, m, LinkSpan(0, -1, -1));
    }
  }

  lemma NothingReissued(h0: History, h: History, text: string, masked: string, placeholders: seq<string>,
                        mapping: map<string, string>, used: set<string>)
    requires Explains(h, text, masked, placeholders, mapping) && Extends(h0, h, used) && h0.steps == []
    ensures forall p | p in placeholders :: p !in used
  {
  }

  // ---- restoring ----

  method UnmaskMarkdown(text: string, placeholders: seq<string>, mapping: map<string, string>) returns (out: string)
    requires "" !in placeholders
    ensures out == Unmask(text, placeholders, mapping)
  {
    out := text;
    for i := 0 to |placeholders|
      invariant Unmask(out, placeholders[i..], mapping) == Unmask(text, placeholders, mapping)
    {
      var original := if placeholders[i] in mapping then mapping[placeholders[i]] else "";
      out := ReplaceAll(out, placeholders[i], original);
      assert placeholders[i..][1..] == placeholders[i + 1..];
    }
  }

  /** The first placeholder that is missing, if any. */
  method ValidatePlaceholders(text: string, placeholders: seq<string>) returns (missing: Option<string>)
    ensures missing.None? <==> AllPresent(text, placeholders)
    ensures missing.Some? ==> exists i :: 0 <= i < |placeholders| && placeholders[i] == missing.value
                                       && !Contains(text, missing.value) && AllPresent(text, placeholders[..i])
  {
    for i := 0 to |placeholders|
      invariant AllPresent(text, placeholders[..i])
    {
      if !Contains(text, placeholders[i]) {
        return Some(placeholders[i]);
      }
      assert placeholders[..i + 1] == placeholders[..i] + [placeholders[i]];
    }
    assert placeholders[..|placeholders|] == placeholders;
    return None;
  }

  // ---- the pipeline ----

  predicate IsWhitespace(c: char) { c == ' ' || c == '\t' || c == '\n' || c == '\r' }

  method SplitWhitespace(text: string) returns (prefix: string, core: string, suffix: string)
    ensures prefix + core + suffix == text
    ensures forall c | c in prefix + suffix :: IsWhitespace(c)
    ensures core != "" ==> !IsWhitespace(core[0]) && !IsWhitespace(core[|core| - 1])
    ensures core == "" ==> suffix == ""
  {
    if text == "" {
      return "", "", "";
    }
    var start := 0;
    while start < |text| && IsWhitespace(text[start])
      invariant start <= |text| && forall c | c in text[..start] :: IsWhitespace(c)
    {
      start := start + 1;
    }
    var end := |text|;
    while end > start && IsWhitespace(text[end - 1])
      invariant start <= end <= |text| && forall c | c in text[end..] :: IsWhitespace(c)
      invariant start < |text| ==> !IsWhitespace(text[start])
    {
      end := end - 1;
    }
    return text[..start], text[start..end], text[end..];
  }

  datatype Outcome =
    | Translated(text: string)
    | PromptFailed
    | EmptyTranslation
    | PlaceholderMissing(placeholder: string)

  lemma MarksNotEmpty(h: History, text: string, masked: string, placeholders: seq<string>, mapping: map<string, string>)
    requires Explains(h, text, masked, placeholders, mapping)
    ensures "" !in placeholders
  {
  }

  method TranslateMasked(core: string, patterns: Patterns, prompt: string -> Option<string>)
    returns (r: Outcome, masked: string, placeholders: seq<string>, mapping: map<string, string>, ghost h: History)
    requires Lawful(patterns)
    ensures ThreePasses(core, patterns, masked, placeholders, mapping)
    ensures Explains(h, core, masked, placeholders, mapping) && "" !in placeholders
    ensures forall p | p in placeholders :: p !in Hits(core)
    ensures r.PromptFailed? <==> prompt(masked).None?
    ensures prompt(masked).Some? ==>
              var reply := Trim(prompt(masked).value, UnicodeSpace);
              && (r.EmptyTranslation? <==> reply == "")
              && (r.Translated? <==> reply != "" && AllPresent(reply, placeholders))
              && (r.Translated? ==> r.text == Unmask(reply, placeholders, mapping))
              && (r.Translated? ==>
                    forall toks | Reads(toks, reply, placeholders, h) :: r.text == Restored(toks, mapping))
  {
    hide Explains, Unmask, ThreePasses, Reads, Restored;
    var state := new PlaceholderState(core);
    masked, placeholders, mapping, h := MaskMarkdown(core, patterns, state);
    MarksNotEmpty(h, core, masked, placeholders, mapping);
    var reply := prompt(masked);
    if reply.None? {
      r := PromptFailed;
      return;
    }
    var translated := Trim(reply.value, UnicodeSpace);
    if translated == "" {
      r := EmptyTranslation;
      return;
    }
    var missing := ValidatePlaceholders(translated, placeholders);
    if missing.Some? {
      r := PlaceholderMissing(missing.value);
      return;
    }
    var out := UnmaskMarkdown(translated, placeholders, mapping);
    r := Translated(out);
    forall toks | Reads(toks, translated, placeholders, h) ensures out == Restored(toks, mapping) {
      TranslationIsRestored(h, core, masked, placeholders, mapping, toks, translated);
    }
  }

  /** A trimmed text stays trimmed when its spans are masked. */
  lemma MaskedEnds(h: History, text: string)
    requires Fill(h.toks, h.env) == text && text != ""
    requires !UnicodeSpace(text[0]) && !UnicodeSpace(text[|text| - 1])
    ensures Trim(Render(h.toks), UnicodeSpace) == Render(h.toks) != ""
  {
    assert h.toks != [];
    FirstChar(h.toks, h.env);
    LastChar(h.toks, h.env);
  }

  lemma FirstChar(toks: seq<Token>, env: map<nat, string>)
    requires toks != []
    ensures Render(toks) != "" && (Render(toks)[0] == '_' || [Render(toks)[0]] <= Fill(toks, env))
  {
  }

  lemma {:induction false} LastChar(toks: seq<Token>, env: map<nat, string>)
    requires toks != []
    ensures var s, t := Render(toks), Fill(toks, env);
            s != "" && (s[|s| - 1] == '_' || (t != "" && s[|s| - 1] == t[|t| - 1]))
  {
    if |toks| > 1 {
      LastChar(toks[1..], env);
      hide Mark;
    } else {
      LastOfOne(toks[0], env);
      assert toks == [toks[0]];
    }
  }

  lemma LastOfOne(tok: Token, env: map<nat, string>)
    ensures var s, t := Render([tok]), Fill([tok], env);
            s != "" && (s[|s| - 1] == '_' || (t != "" && s[|s| - 1] == t[|t| - 1]))
  {
    assert Render([tok]) == Piece(tok) + "";
  }

  lemma PrefixAt(text: string, core: string, before: nat, needle: string, d: nat)
    requires before + |core| <= |text| && text[before..before + |core|] == core
    requires "OC_I18N_" <= needle && At(core, needle, d)
    ensures Contains(text, "OC_I18N_")
  {
    assert forall k | 0 <= k < 8 :: needle[k] == "OC_I18N_"[k];
    assert forall k | d <= k < d + |needle| :: core[k] == core[d..d + |needle|][k - d] == needle[k - d];
    assert forall k | before <= k < before + |core| :: text[k] == text[before..before + |core|][k - before];
    assert text[before + d..before + d + 8] == "OC_I18N_";
    assert At(text, "OC_I18N_", before + d);
  }

  lemma NoNeedles(text: string, core: string, before: nat, steps: seq<Step>)
    requires !Contains(text, "OC_I18N_")
    requires before + |core| <= |text| && text[before..before + |core|] == core
    ensures NeedleFree(core, steps)
  {
    forall i | 0 <= i < |steps| ensures !Contains(core, Needle(steps[i].n)) {
      if d: nat :| d <= |core| && At(core, Needle(steps[i].n), d) {
        PrefixAt(text, core, before, Needle(steps[i].n), d);
      }
    }
  }

  /** `out` is `text` with all but its outer white space exchanged. */
  ghost predicate KeepsOuter(text: string, out: string) {
    exists prefix, core, suffix, put ::
      && text == prefix + core + suffix && out == prefix + put + suffix
      && (forall c | c in prefix + suffix :: IsWhitespace(c))
      && (core != "" ==> !IsWhitespace(core[0]) && !IsWhitespace(core[|core| - 1]))
  }

  lemma OuterKept(prefix: string, core: string, suffix: string, put: string)
    requires forall c | c in prefix + suffix :: IsWhitespace(c)
    requires core != "" ==> !IsWhitespace(core[0]) && !IsWhitespace(core[|core| - 1])
    ensures KeepsOuter(prefix + core + suffix, prefix + put + suffix)
  {
  }

  /** The outer white space of a translated text is kept. With a translator
      that answers each prompt with the prompt itself, a text free of the marker
      comes back unchanged, or the loss of a placeholder is reported; it never
      comes back damaged. */
  method Translate(text: string, patterns: Patterns, prompt: string -> Option<string>) returns (r: Outcome)
    requires Lawful(patterns)
    ensures (forall s :: prompt(s) == Some(s)) && !Contains(text, "OC_I18N_")
            && (forall c | c in text && UnicodeSpace(c) :: IsWhitespace(c))
            ==> r == Translated(text) || r.PlaceholderMissing?
    ensures r.Translated? ==> KeepsOuter(text, r.text)
  {
    var prefix, core, suffix := SplitWhitespace(text);
    hide KeepsOuter;
    if core == "" {
      OuterKept(prefix, core, suffix, core);
      return Translated(text);
    }
    ghost var masked, placeholders, mapping, h;
    r, masked, placeholders, mapping, h := TranslateMasked(core, patterns, prompt);
    if (forall s :: prompt(s) == Some(s)) && !Contains(text, "OC_I18N_")
       && (forall c | c in text && UnicodeSpace(c) :: IsWhitespace(c)) {
      assert core[0] in text && core[|core| - 1] in text;
      NoNeedles(text, core, |prefix|, h.steps);
      MaskedEnds(h, core);
      RoundTrip(h, core, masked, placeholders, mapping);
    }
    if r.Translated? {
      OuterKept(prefix, core, suffix, r.text);
      r := Translated(prefix + r.text + suffix);
    }
  }

  // ---- which placeholders are in use ----

  /** What `__OC_I18N_\d+__` matches. */
  predicate Shaped(p: string) { |p| > 12 && Digits(p[10..|p| - 2]) && p == "__OC_I18N_" + p[10..|p| - 2] + "__" }

  predicate Digits(s: string) { s != "" && AllDigits(s) }

  lemma {:induction false} DigitRunIs(s: string, n: nat)
    requires n <= |s| && AllDigits(s[..n]) && (n < |s| ==> !IsDigit(s[n]))
    ensures DigitRun(s) == n
  {
    if n == 0 {
    } else {
      assert s[..n][0] == s[0];
      assert s[1..][..n - 1] == s[..n][1..];
      DigitRunIs(s[1..], n - 1);
    }
  }

  lemma {:induction false} DigitRunDigits(s: string)
    ensures DigitRun(s) <= |s| && AllDigits(s[..DigitRun(s)])
  {
    DigitRunFits(s);
    if s != "" && IsDigit(s[0]) {
      DigitRunDigits(s[1..]);
      var n := DigitRun(s[1..]);
      assert s[..n + 1] == [s[0]] + s[1..][..n];
    }
  }

  /** A match is as long as the placeholder that begins the text. */
  lemma HitIsShaped(s: string)
    ensures HitLength(s) > 0 ==> Shaped(s[..HitLength(s)])
  {
    if HitLength(s) > 0 {
      var d := DigitRun(s[10..]);
      DigitRunDigits(s[10..]);
      var p := s[..12 + d];
      assert p[10..|p| - 2] == s[10..][..d];
      assert s[..10] == "__OC_I18N_" && s[10 + d..][..2] == "__";
      assert p == s[..10] + s[10..][..d] + s[10 + d..][..2];
    }
  }

  lemma ShapedIsHit(s: string, p: string)
    requires Shaped(p) && p <= s
    ensures HitLength(s) == |p|
  {
    var d := p[10..|p| - 2];
    assert s[..|p|] == p && p[..10] == "__OC_I18N_" && s[..10] == p[..10];
    assert s[10..][..|d|] == d;
    assert s[10 + |d|] == p[10 + |d|] == '_' && s[10 + |d| + 1] == p[10 + |d| + 1] == '_';
    assert s[10..][|d|] == s[10 + |d|];
    DigitRunIs(s[10..], |d|);
    assert s[10 + |d|..][..2] == "__";
  }

  /** Each placeholder in use is one, and stands in the text. */
  lemma {:induction false} HitsAreShaped(text: string)
    ensures forall p | p in Hits(text) :: Shaped(p) && Contains(text, p)
    decreases |text|
  {
    hide HitLength, Shaped;
    if text == "" {
    } else {
      var n := if HitLength(text) > 0 then HitLength(text) else 1;
      HitsAreShaped(text[n..]);
      if HitLength(text) > 0 {
        HitIsShaped(text);
        assert At(text, text[..n], 0);
      }
      forall p | p in Hits(text[n..]) ensures Contains(text, p) {
        var i: nat :| i <= |text[n..]| && At(text[n..], p, i);
        assert text[n + i..n + i + |p|] == text[n..][i..i + |p|];
        assert At(text, p, n + i);
      }
    }
  }

  /** A hit that stands in the text where `p` begins at `i`, or begins within it. */
  predicate Covers(text: string, h: string, j: nat, p: string, i: nat) {
    h in Hits(text) && At(text, h, j) && j <= i < j + |h| && (j == i ==> h == p)
  }

  lemma CoversBehind(text: string, k: nat, h: string, j: nat, p: string, i: nat)
    requires k <= |text| && k <= i && Covers(text[k..], h, j, p, i - k)
    requires forall x | x in Hits(text[k..]) :: x in Hits(text)
    ensures Covers(text, h, k + j, p, i)
  {
    hide Hits;
    assert text[k + j..k + j + |h|] == text[k..][j..j + |h|];
  }

  lemma HitsStep(text: string)
    requires text != ""
    ensures var n := HitLength(text);
            && (n > 0 ==> text[..n] in Hits(text))
            && forall x | x in Hits(text[if n > 0 then n else 1..]) :: x in Hits(text)
  {
    hide HitLength;
  }

  /** A placeholder that stands in the text is in use, unless it begins within
      another that is. */
  lemma AtBehind(text: string, p: string, i: nat, k: nat)
    requires At(text, p, i) && k <= i
    ensures k <= |text| && At(text[k..], p, i - k)
  {
    assert text[k..][i - k..i - k + |p|] == text[i..i + |p|];
  }

  lemma {:induction false} HitsAreAll(text: string, p: string, i: nat)
    requires Shaped(p) && At(text, p, i)
    ensures exists h, j: nat :: Covers(text, h, j, p, i)
    decreases |text|
  {
    if i == 0 { ShapedIsHit(text, p); }
    hide HitLength, Shaped, Hits, Covers;
    var n := HitLength(text);
    HitsStep(text);
    if n > 0 && i < n {
      assert Covers(text, text[..n], 0, p, i) by { FirstCovers(text, n, p, i); }
    } else {
      var k := if n > 0 then n else 1;
      AtBehind(text, p, i, k);
      HitsAreAll(text[k..], p, i - k);
      var h, j: nat :| Covers(text[k..], h, j, p, i - k);
      CoversBehind(text, k, h, j, p, i);
    }
  }

  lemma FirstCovers(text: string, n: nat, p: string, i: nat)
    requires i < n <= |text| && text[..n] in Hits(text) && At(text, p, i) && (i == 0 ==> n == |p|)
    ensures Covers(text, text[..n], 0, p, i)
  {
    hide Hits;
    assert text[0..n] == text[..n];
    if i == 0 { assert text[0..|p|] == text[..n]; }
  }

  // ---- which spans are masked ----

  /** Matches that do not overlap are all acted on, those with a URL group. */
  lemma {:induction false} KeptAll(matches: seq<LinkSpan>)
    requires forall i | 0 <= i < |matches| :: matches[i].urlStart >= 0 && matches[i].urlEnd >= 0
    requires forall i, j | 0 <= i < j < |matches| :: matches[i].urlEnd <= matches[j].fullStart
    ensures |Kept(matches)| == |matches|
    ensures forall i | 0 <= i < |matches| :: Kept(matches)[i] == Span(matches[i].urlStart, matches[i].urlEnd)
  {
    if matches == [] {
    } else {
      KeptAll(matches[..|matches| - 1]);
    }
  }
}
