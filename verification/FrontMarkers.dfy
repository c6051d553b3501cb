/** The markers around translatable front matter, and the values read back
    from between them (scripts/docs-i18n/doc_mode.go). */
module FrontMarkers {
  import opened Text
  import opened TaggedDoc

  datatype Field = Summary | Title | ReadWhen

  datatype Marker = Marker(field: Field, index: nat)

  const OPEN := "[[[FM_"

  function FieldName(f: Field): string {
    match f
    case Summary => "SUMMARY"
    case Title => "TITLE"
    case ReadWhen => "READ_WHEN"
  }

  const CLOSE := "]]]"

  function Suffix(opening: bool): string { if opening then "_START" else "_END" }

  function Label(m: Marker, opening: bool): string { FieldName(m.field) + "_" + Decimal(m.index) + Suffix(opening) }

  function MarkText(m: Marker, opening: bool): string { OPEN + Label(m, opening) + CLOSE }

  /** An item of read_when: a string, or another value as it is printed. */
  datatype Item = Words(text: string) | Printed(text: string)

  datatype Data = Data(summary: Option<string>, title: Option<string>, readWhen: Option<seq<Item>>)

  /** A line of the template: a value between its markers, or a bare line. */
  datatype Line = Marked(prefix: string, marker: Marker, value: string) | Bare(text: string)

  function LineText(l: Line): string {
    match l
    case Marked(prefix, m, value) => prefix + MarkText(m, true) + value + MarkText(m, false)
    case Bare(text) => text
  }

  function ItemLines(items: seq<Item>): (lines: seq<Line>)
    ensures |lines| == |items|
  {
    if items == [] then []
    else
      var n := |items| - 1;
      ItemLines(items[..n])
      + [if items[n].Words? then Marked("  - ", Marker(ReadWhen, n), items[n].text) else Bare("  - " + items[n].text)]
  }

  function Lines(data: Data): seq<Line> {
    (if data.summary.Some? then [Marked("summary: ", Marker(Summary, 0), data.summary.value)] else [])
    + (if data.title.Some? then [Marked("title: ", Marker(Title, 0), data.title.value)] else [])
    + (if data.readWhen.Some? then [Bare("read_when:")] + ItemLines(data.readWhen.value) else [])
  }

  function Texts(lines: seq<Line>): (texts: seq<string>)
    ensures |texts| == |lines|
  {
    seq(|lines|, i requires 0 <= i < |lines| => LineText(lines[i]))
  }

  function Template(data: Data): string { JoinAll(Texts(Lines(data))) }

  /** The markers of the template, in order. */
  function MarkersOf(lines: seq<Line>): seq<Marker> {
    if lines == [] then []
    else
      var n := |lines| - 1;
      MarkersOf(lines[..n]) + if lines[n].Marked? then [lines[n].marker] else []
  }

  lemma MarkersSnoc(lines: seq<Line>, l: Line)
    ensures MarkersOf(lines + [l]) == MarkersOf(lines) + if l.Marked? then [l.marker] else []
  {
    assert (lines + [l])[..|lines|] == lines;
  }

  lemma TextsSnoc(lines: seq<Line>, l: Line)
    ensures Texts(lines + [l]) == Texts(lines) + [LineText(l)]
  {
    hide LineText;
  }

  method BuildFrontmatterTemplate(data: Data) returns (template: string, markers: seq<Marker>)
    ensures template == Template(data) && markers == MarkersOf(Lines(data))
  {
    hide MarkText, LineText, MarkersOf, Texts, JoinAll;
    var lines: seq<string> := [];
    markers := [];
    ghost var built: seq<Line> := [];
    NoLines();
    if data.summary.Some? {
      var l := Marked("summary: ", Marker(Summary, 0), data.summary.value);
      MarkersSnoc(built, l);
      TextsSnoc(built, l);
      markers := markers + [Marker(Summary, 0)];
      lines := lines + [LineText(l)];
      built := built + [l];
    }
    if data.title.Some? {
      var l := Marked("title: ", Marker(Title, 0), data.title.value);
      MarkersSnoc(built, l);
      TextsSnoc(built, l);
      markers := markers + [Marker(Title, 0)];
      lines := lines + [LineText(l)];
      built := built + [l];
    }
    if data.readWhen.Some? {
      var items := data.readWhen.value;
      MarkersSnoc(built, Bare("read_when:"));
      TextsSnoc(built, Bare("read_when:"));
      lines := lines + [LineText(Bare("read_when:"))];
      built := built + [Bare("read_when:")];
      ghost var head := built;
      for idx := 0 to |items|
        invariant built == head + ItemLines(items[..idx])
        invariant lines == Texts(built) && markers == MarkersOf(built)
      {
        assert items[..idx + 1][..idx] == items[..idx];
        var l := if items[idx].Words? then Marked("  - ", Marker(ReadWhen, idx), items[idx].text)
                 else Bare("  - " + items[idx].text);
        MarkersSnoc(built, l);
        TextsSnoc(built, l);
        if l.Marked? {
          markers := markers + [Marker(ReadWhen, idx)];
        }
        lines := lines + [LineText(l)];
        built := built + [l];
      }
      assert items[..|items|] == items;
    }
    assert built == Lines(data);
    return JoinAll(lines), markers;
  }

  lemma NoLines()
    ensures Texts([]) == [] && MarkersOf([]) == []
  {
  }

  /** The text between the first start and the first end after it. */
  function Extract(text: string, start: string, end: string): Option<string> {
    var from := IndexFrom(text, start, 0);
    if from.None? then None
    else
      var to := IndexFrom(text, end, from.value + |start|);
      if to.None? then None else Some(text[from.value + |start|..to.value])
  }

  // ---- one marker ----

  predicate Unbracketed(s: string) { forall i | 0 <= i < |s| :: s[i] != '[' && s[i] != ']' && s[i] != '\n' }

  lemma LabelUnbracketed(m: Marker, opening: bool)
    ensures Unbracketed(Label(m, opening)) && Label(m, opening) != ""
  {
    var d := Decimal(m.index);
    assert forall i | 0 <= i < |d| :: IsDigit(d[i]);
    assert Unbracketed(FieldName(m.field)) && Unbracketed(d) && Unbracketed(Suffix(opening));
    hide FieldName, Suffix;
  }

  lemma MarkEnds(m: Marker, opening: bool)
    ensures var t := MarkText(m, opening);
            && |t| > 9 && OPEN <= t && '\n' !in t
            && t[|t| - 3] == ']' && (forall i | 3 <= i < |t| :: t[i] != '[')
            && (forall i | 0 <= i < |t| - 3 :: t[i] != ']')
  {
    var middle := Label(m, opening);
    LabelUnbracketed(m, opening);
    hide Label;
    var t := MarkText(m, opening);
    assert t[..6] == OPEN;
    assert forall i | 6 <= i < |t| - 3 :: t[i] == middle[i - 6];
  }

  lemma MarkInjective(m: Marker, a: bool, n: Marker, b: bool)
    requires MarkText(m, a) == MarkText(n, b)
    ensures m == n && a == b
  {
    var s := MarkText(m, a);
    assert Label(m, a) == s[6..|s| - 3] && Label(n, b) == s[6..|s| - 3];
    hide MarkText;
    LabelInjective(m, a, n, b);
  }

  lemma LabelParts(m: Marker, opening: bool)
    ensures var s, f := Label(m, opening), |FieldName(m.field)|;
            f > 0 && f + 1 <= |s| && s[0] == FieldName(m.field)[0] && s[f + 1..] == Decimal(m.index) + Suffix(opening)
  {
    var s, f := Label(m, opening), |FieldName(m.field)|;
    hide Decimal;
    assert s == (FieldName(m.field) + "_") + (Decimal(m.index) + Suffix(opening));
  }

  lemma FieldByLetter(f: Field, g: Field)
    requires FieldName(f)[0] == FieldName(g)[0]
    ensures f == g
  {
  }

  lemma LabelInjective(m: Marker, a: bool, n: Marker, b: bool)
    requires Label(m, a) == Label(n, b)
    ensures m == n && a == b
  {
    LabelParts(m, a);
    LabelParts(n, b);
    hide Label, FieldName, Decimal;
    FieldByLetter(m.field, n.field);
    TailsAgree(Decimal(m.index), Suffix(a), Decimal(n.index), Suffix(b));
    DecimalInjective(m.index, n.index);
    assert |Suffix(true)| != |Suffix(false)|;
  }

  lemma TailsAgree(x: string, u: string, y: string, v: string)
    requires AllDigits(x) && AllDigits(y) && u != "" && v != "" && u[0] == '_' && v[0] == '_' && x + u == y + v
    ensures x == y && u == v
  {
    var s := x + u;
    assert s[|x|] == '_' && s[|y|] == '_';
    assert forall i | 0 <= i < |x| :: s[i] == x[i];
    assert forall i | 0 <= i < |y| :: s[i] == y[i];
    assert |x| == |y|;
    assert x == s[..|x|] && y == s[..|y|] && u == s[|x|..] && v == s[|y|..];
  }

  lemma AtChar(s: string, sub: string, q: nat, k: nat)
    requires At(s, sub, q) && k < |sub|
    ensures q + k < |s| && s[q + k] == sub[k]
  {
    assert s[q..q + |sub|][k] == s[q + k];
  }

  lemma ClosesFirst(s: string, q: nat, t: string, u: string)
    requires At(s, t, q) && At(s, u, q) && |t| >= 3 && t[|t| - 3] == ']' && forall i | 0 <= i < |u| - 3 :: u[i] != ']'
    ensures |t| >= |u|
  {
    var k := |t| - 3;
    AtChar(s, t, q, k);
    if k < |u| { AtChar(s, u, q, k); }
    hide At;
  }

  /** Two markers at the same place are the same. */
  lemma MarkDetermined(s: string, q: nat, m: Marker, a: bool, n: Marker, b: bool)
    requires At(s, MarkText(m, a), q) && At(s, MarkText(n, b), q)
    ensures m == n && a == b
  {
    var t, u := MarkText(m, a), MarkText(n, b);
    MarkEnds(m, a);
    MarkEnds(n, b);
    hide MarkText;
    ClosesFirst(s, q, t, u);
    ClosesFirst(s, q, u, t);
    assert t == s[q..q + |t|] && u == s[q..q + |u|];
    MarkInjective(m, a, n, b);
  }

  // ---- one line ----

  /** The template's own words have no bracket. */
  predicate PlainPrefix(l: Line) { l.Marked? ==> Unbracketed(l.prefix) }

  /** What a line holds of the data, and where. */
  function Body(l: Line): string { if l.Marked? then l.value else l.text }

  function BodyAt(l: Line): nat { if l.Marked? then |l.prefix| + |MarkText(l.marker, true)| else 0 }

  predicate Shaped(mark: string) { |mark| > 9 && OPEN <= mark && forall i | 3 <= i < |mark| :: mark[i] != '[' }

  /** Markers do not overlap. */
  lemma MarksApart(s: string, p: nat, mark: string, q: nat, other: string)
    requires At(s, mark, p) && At(s, other, q) && Shaped(mark) && Shaped(other)
    ensures !(p < q < p + |mark|)
  {
    AtChars(s, mark, p);
    AtChars(s, other, q);
    hide At;
    assert mark[3] == OPEN[3] && other[0] == OPEN[0] && other[1] == OPEN[1] && other[2] == OPEN[2];
    forall j | p <= j < p + |mark| ensures s[j] == mark[j - p] { assert s[p + (j - p)] == mark[j - p]; }
    forall j | q <= j < q + |other| ensures s[j] == other[j - q] { assert s[q + (j - q)] == other[j - q]; }
    assert s[p + 3] == 'F' && s[q] == '[';
  }

  lemma LineParts(l: Line)
    requires l.Marked?
    ensures var s, p := LineText(l), |l.prefix|;
            var v := p + |MarkText(l.marker, true)|;
            var e := v + |l.value|;
            && |s| == e + |MarkText(l.marker, false)|
            && s[..p] == l.prefix && s[p..v] == MarkText(l.marker, true) && s[v..e] == l.value
            && s[e..] == MarkText(l.marker, false)
  {
    hide MarkText;
  }

  predicate DistinctMarkers(lines: seq<Line>) {
    forall i, j | 0 <= i < j < |lines| && lines[i].Marked? && lines[j].Marked? :: lines[i].marker != lines[j].marker
  }

  /** Where a marked line has its start or end marker. */
  function MarkIn(l: Line, opening: bool): nat
    requires l.Marked?
  {
    |l.prefix| + if opening then 0 else |MarkText(l.marker, true)| + |l.value|
  }

  lemma LineMarks(l: Line, opening: bool)
    requires l.Marked?
    ensures At(LineText(l), MarkText(l.marker, opening), MarkIn(l, opening))
  {
    LineParts(l);
    hide MarkText, LineText;
  }

  lemma NotInPrefix(s: string, prefix: string, mark: string, q: nat)
    requires |prefix| <= |s| && s[..|prefix|] == prefix && Unbracketed(prefix) && At(s, mark, q) && Shaped(mark)
    ensures q >= |prefix|
  {
    AtChars(s, mark, q);
    hide At;
    assert s[q + 0] == mark[0] == OPEN[0];
    assert forall j | 0 <= j < |prefix| :: prefix[j] == s[j];
  }

  /** A marker in a marked line is at one of the line's own two places or within
      the value. */
  lemma MarkInLine(l: Line, mark: string, q: nat)
    requires l.Marked? && PlainPrefix(l) && At(LineText(l), mark, q) && Shaped(mark)
    ensures q == MarkIn(l, true) || q == MarkIn(l, false) || (BodyAt(l) <= q && At(l.value, mark, q - BodyAt(l)))
  {
    assert |mark| > 9;
    hide MarkText, LineText, Unbracketed, Shaped, At;
    var s, v, e := LineText(l), BodyAt(l), MarkIn(l, false);
    LineParts(l);
    LineMarks(l, true);
    LineMarks(l, false);
    MarkEnds(l.marker, true);
    MarkEnds(l.marker, false);
    MarkIsShaped(l.marker, true);
    MarkIsShaped(l.marker, false);
    NotInPrefix(s, l.prefix, mark, q);
    MarksApart(s, MarkIn(l, true), MarkText(l.marker, true), q, mark);
    MarksApart(s, q, mark, e, MarkText(l.marker, false));
    MarksApart(s, e, MarkText(l.marker, false), q, mark);
    AtInside(s, mark, q);
    if v <= q < e { TagInside(s, v, l.value, mark, q); }
  }

  lemma MarkIsShaped(m: Marker, opening: bool)
    ensures Shaped(MarkText(m, opening)) && '\n' !in MarkText(m, opening)
  {
    MarkEnds(m, opening);
    hide MarkText;
  }

  lemma AtInside(s: string, sub: string, i: nat)
    requires At(s, sub, i)
    ensures i + |sub| <= |s|
  {
  }

  /** A marker in a line is the line's own, at its place, or is in its body. */
  lemma OnlyInLine(l: Line, m: Marker, opening: bool, q: nat)
    requires PlainPrefix(l) && At(LineText(l), MarkText(m, opening), q)
    ensures || (l.Marked? && l.marker == m && q == MarkIn(l, opening))
            || (BodyAt(l) <= q && At(Body(l), MarkText(m, opening), q - BodyAt(l)))
  {
    MarkIsShaped(m, opening);
    if l.Marked? {
      hide MarkText, LineText, At, Unbracketed, Shaped;
      MarkInLine(l, MarkText(m, opening), q);
      LineMarks(l, true);
      LineMarks(l, false);
      if q == MarkIn(l, true) { MarkDetermined(LineText(l), q, m, opening, l.marker, true); }
      if q == MarkIn(l, false) { MarkDetermined(LineText(l), q, m, opening, l.marker, false); }
    }
  }

  /** What is in the body of a line is in the line. */
  lemma BodyInLine(l: Line)
    ensures var s, v := LineText(l), BodyAt(l); v + |Body(l)| <= |s| && s[v..v + |Body(l)|] == Body(l)
    ensures l.Marked? ==> MarkIn(l, true) < BodyAt(l) <= MarkIn(l, false) == BodyAt(l) + |l.value|
  {
    if l.Marked? {
      LineParts(l);
      MarkEnds(l.marker, true);
    }
    hide MarkText;
  }

  // ---- the whole template ----

  /** Where line `i` begins in the joined text. */
  function Offset(parts: seq<string>, i: nat): nat
    requires i < |parts|
  {
    if i == 0 then 0 else |parts[0]| + 1 + Offset(parts[1..], i - 1)
  }

  /** A line of the text, between its line breaks. */
  lemma {:induction false} LineAt(parts: seq<string>, i: nat)
    requires i < |parts|
    ensures var at := Offset(parts, i);
            at + |parts[i]| <= |Join(parts, '\n')| && Join(parts, '\n')[at..at + |parts[i]|] == parts[i]
    decreases i
  {
    var text := Join(parts, '\n');
    if i == 0 {
      if |parts| > 1 { assert text == parts[0] + (['\n'] + Join(parts[1..], '\n')); }
    } else {
      LineAt(parts[1..], i - 1);
      var rest, n := Join(parts[1..], '\n'), |parts[0]| + 1;
      assert text == (parts[0] + ['\n']) + rest;
      assert text[n..] == rest;
      var at := Offset(parts[1..], i - 1);
      assert text[n + at..n + at + |parts[i]|] == rest[at..at + |parts[i]|];
    }
  }

  /** What has no line break and stands in the text stands in a line of it. */
  lemma {:induction false} InSomeLine(parts: seq<string>, tag: string, p: nat) returns (i: nat)
    requires |parts| > 0 && '\n' !in tag && tag != "" && At(Join(parts, '\n'), tag, p)
    ensures i < |parts| && Offset(parts, i) <= p && p + |tag| <= Offset(parts, i) + |parts[i]|
    decreases |parts|
  {
    var text := Join(parts, '\n');
    if |parts| == 1 {
      i := 0;
    } else {
      var rest, n := Join(parts[1..], '\n'), |parts[0]| + 1;
      assert text == (parts[0] + ['\n']) + rest && text[n..] == rest && text[n - 1] == '\n';
      if p + |tag| < n {
        i := 0;
      } else {
        NotOverBreak(text, tag, p, n - 1);
        TagInside(text, n, rest, tag, p);
        var j := InSomeLine(parts[1..], tag, p - n);
        i := j + 1;
      }
    }
  }

  lemma NotOverBreak(text: string, tag: string, p: nat, at: nat)
    requires '\n' !in tag && At(text, tag, p) && at < |text| && text[at] == '\n' && at < p + |tag|
    ensures at < p
  {
    if p <= at { NoTagOver(text, tag, p, at); }
  }

  lemma {:induction false} OffsetsOrdered(parts: seq<string>, i: nat, j: nat)
    requires i < j < |parts|
    ensures Offset(parts, i) + |parts[i]| < Offset(parts, j)
  {
    if i == 0 {
    } else {
      OffsetsOrdered(parts[1..], i - 1, j - 1);
    }
  }

  lemma MarkerPlace(lines: seq<Line>, k: nat, opening: bool)
    requires k < |lines| && lines[k].Marked?
    ensures At(Join(Texts(lines), '\n'), MarkText(lines[k].marker, opening),
               Offset(Texts(lines), k) + MarkIn(lines[k], opening))
  {
    hide Join, MarkText, Offset, LineText, MarkIn, At;
    var parts := Texts(lines);
    LineAt(parts, k);
    LineMarks(lines[k], opening);
    InMarkBounds(lines[k], opening);
    TagInside(Join(parts, '\n'), Offset(parts, k), parts[k], MarkText(lines[k].marker, opening),
              Offset(parts, k) + MarkIn(lines[k], opening));
  }

  lemma InMarkBounds(l: Line, opening: bool)
    requires l.Marked?
    ensures MarkIn(l, opening) + |MarkText(l.marker, opening)| <= |LineText(l)|
  {
    LineParts(l);
    hide MarkText;
  }

  lemma SliceOfSlice(text: string, at: nat, part: string, from: nat, to: nat)
    requires at + |part| <= |text| && text[at..at + |part|] == part && from <= to <= |part|
    ensures text[at + from..at + to] == part[from..to]
  {
    assert forall i | at <= i < at + |part| :: text[i] == part[i - at];
  }

  predicate PlainLines(lines: seq<Line>) { forall i | 0 <= i < |lines| :: PlainPrefix(lines[i]) }

  function TextOf(lines: seq<Line>): string
    requires lines != []
  {
    Join(Texts(lines), '\n')
  }

  /** Where a line's body, and where its markers, are in the text. */
  function BodyPlace(lines: seq<Line>, i: nat): nat
    requires i < |lines|
  {
    Offset(Texts(lines), i) + BodyAt(lines[i])
  }

  function MarkPlace(lines: seq<Line>, i: nat, opening: bool): nat
    requires i < |lines| && lines[i].Marked?
  {
    Offset(Texts(lines), i) + MarkIn(lines[i], opening)
  }

  lemma BodyInText(lines: seq<Line>, i: nat)
    requires i < |lines|
    ensures var v, b := BodyPlace(lines, i), Body(lines[i]);
            && Offset(Texts(lines), i) <= v && v + |b| <= Offset(Texts(lines), i) + |Texts(lines)[i]| <= |TextOf(lines)|
            && TextOf(lines)[v..v + |b|] == b
    ensures lines[i].Marked? ==>
              MarkPlace(lines, i, true) < BodyPlace(lines, i) <= MarkPlace(lines, i, false)
              == BodyPlace(lines, i) + |lines[i].value|
  {
    hide Join, MarkText, Offset, LineText, MarkIn, BodyAt, Body;
    LineAt(Texts(lines), i);
    BodyInLine(lines[i]);
    SliceOfSlice(TextOf(lines), Offset(Texts(lines), i), LineText(lines[i]), BodyAt(lines[i]),
                 BodyAt(lines[i]) + |Body(lines[i])|);
  }

  /** A line's marker stands at its place, and elsewhere only in a line's body. */
  lemma OnlyPlaces(lines: seq<Line>, k: nat, opening: bool, p: nat) returns (i: nat)
    requires k < |lines| && lines[k].Marked? && PlainLines(lines) && DistinctMarkers(lines)
    requires At(TextOf(lines), MarkText(lines[k].marker, opening), p)
    ensures i < |lines| && Offset(Texts(lines), i) <= p
            && p + |MarkText(lines[k].marker, opening)| <= Offset(Texts(lines), i) + |Texts(lines)[i]|
    ensures || (i == k && p == MarkPlace(lines, k, opening))
            || (BodyPlace(lines, i) <= p
                 && At(Body(lines[i]), MarkText(lines[k].marker, opening), p - BodyPlace(lines, i)))
  {
    hide Join, MarkText, Offset, LineText, MarkIn, At, PlainPrefix, Body, BodyAt;
    var m := lines[k].marker;
    MarkIsShaped(m, opening);
    i := InSomeLine(Texts(lines), MarkText(m, opening), p);
    LineAt(Texts(lines), i);
    TagInside(TextOf(lines), Offset(Texts(lines), i), Texts(lines)[i], MarkText(m, opening), p);
    OnlyInLine(lines[i], m, opening, p - Offset(Texts(lines), i));
  }

  /** Some earlier line has the marker in its body. */
  predicate Earlier(lines: seq<Line>, k: nat, opening: bool)
    requires k < |lines| && lines[k].Marked?
  {
    exists i :: 0 <= i < k && Contains(Body(lines[i]), MarkText(lines[k].marker, opening))
  }

  /** Every line's start is found, at its place or in an earlier line's body. */
  lemma FirstStart(lines: seq<Line>, k: nat)
    requires k < |lines| && lines[k].Marked? && PlainLines(lines) && DistinctMarkers(lines)
    ensures var mark, place := MarkText(lines[k].marker, true), MarkPlace(lines, k, true);
            var found := IndexFrom(TextOf(lines), mark, 0);
            && found.Some? && (if Earlier(lines, k, true) then found.value + |mark| <= place else found.value == place)
  {
    hide Join, MarkText, Offset, At, PlainPrefix, Body, BodyAt, Texts, MarkIn, IndexFrom, Contains, LineText;
    var mark, place := MarkText(lines[k].marker, true), MarkPlace(lines, k, true);
    MarkerPlace(lines, k, true);
    IndexIsFirst(TextOf(lines), mark, 0, place);
    var found := IndexFrom(TextOf(lines), mark, 0).value;
    var i := OnlyPlaces(lines, k, true, found);
    BodyInText(lines, k);
    BodyInText(lines, i);
    if i < k {
      OffsetsOrdered(Texts(lines), i, k);
      AtContains(Body(lines[i]), mark, found - BodyPlace(lines, i));
    } else if k < i {
      OffsetsOrdered(Texts(lines), k, i);
    }
    if Earlier(lines, k, true) { var p := EarlierIsBefore(lines, k, true); }
  }

  lemma AtContains(s: string, sub: string, i: nat)
    requires At(s, sub, i)
    ensures Contains(s, sub)
  {
  }

  lemma EarlierIsBefore(lines: seq<Line>, k: nat, opening: bool) returns (p: nat)
    requires k < |lines| && lines[k].Marked? && Earlier(lines, k, opening)
    ensures At(TextOf(lines), MarkText(lines[k].marker, opening), p)
    ensures p + |MarkText(lines[k].marker, opening)| <= MarkPlace(lines, k, opening)
  {
    hide Join, MarkText, Offset, At, Body, BodyAt, Texts, MarkIn, LineText;
    var mark := MarkText(lines[k].marker, opening);
    var i: nat :| i < k && Contains(Body(lines[i]), mark);
    var q: nat :| q <= |Body(lines[i])| && At(Body(lines[i]), mark, q);
    BodyInText(lines, i);
    OffsetsOrdered(Texts(lines), i, k);
    AtInside(Body(lines[i]), mark, q);
    p := BodyPlace(lines, i) + q;
    TagInside(TextOf(lines), BodyPlace(lines, i), Body(lines[i]), mark, p);
  }

  /** From where only the line's own text can hold its end, its end is found. */
  lemma FirstEnd(lines: seq<Line>, k: nat, from: nat)
    requires k < |lines| && lines[k].Marked? && PlainLines(lines) && DistinctMarkers(lines)
    requires !Contains(lines[k].value, MarkText(lines[k].marker, false))
    requires from <= BodyPlace(lines, k) && (from == BodyPlace(lines, k) || !Earlier(lines, k, false))
    ensures from <= |TextOf(lines)|
    ensures IndexFrom(TextOf(lines), MarkText(lines[k].marker, false), from) == Some(MarkPlace(lines, k, false))
  {
    hide Join, MarkText, Offset, At, PlainPrefix, BodyAt, Texts, MarkIn, IndexFrom, Contains, LineText;
    var mark, place := MarkText(lines[k].marker, false), MarkPlace(lines, k, false);
    BodyInText(lines, k);
    MarkerPlace(lines, k, false);
    IndexIsFirst(TextOf(lines), mark, from, place);
    var found := IndexFrom(TextOf(lines), mark, from).value;
    var i := OnlyPlaces(lines, k, false, found);
    BodyInText(lines, i);
    if !(i == k && found == place) {
      AtContains(Body(lines[i]), mark, found - BodyPlace(lines, i));
    }
    if i < k {
      OffsetsOrdered(Texts(lines), i, k);
    } else if k < i {
      OffsetsOrdered(Texts(lines), k, i);
    }
  }

  lemma BodyFollows(lines: seq<Line>, k: nat)
    requires k < |lines| && lines[k].Marked?
    ensures BodyPlace(lines, k) == MarkPlace(lines, k, true) + |MarkText(lines[k].marker, true)|
  {
    hide MarkText, Offset;
  }

  lemma ValueInText(lines: seq<Line>, k: nat)
    requires k < |lines| && lines[k].Marked?
    ensures var v, to := BodyPlace(lines, k), MarkPlace(lines, k, false);
            && v == MarkPlace(lines, k, true) + |MarkText(lines[k].marker, true)|
            && v <= to <= |TextOf(lines)| && TextOf(lines)[v..to] == lines[k].value
  {
    hide Offset, MarkText, TextOf, BodyPlace, MarkPlace, Texts, LineText;
    BodyInText(lines, k);
    BodyFollows(lines, k);
  }

  lemma FirstHasNone(text: string, sub: string, from: nat)
    requires sub != "" && from <= |text| && IndexFrom(text, sub, from).Some?
    ensures !Contains(text[from..IndexFrom(text, sub, from).value], sub)
  {
    hide IndexFrom;
    var to := IndexFrom(text, sub, from).value;
    forall q: nat | q <= to - from && q + |sub| <= to - from ensures !At(text[from..to], sub, q) {
      TagInside(text, from, text[from..to], sub, from + q);
      assert !At(text, sub, from + q);
    }
  }

  lemma Pieces(text: string, a: nat, b: nat, c: nat, d: nat)
    requires a <= b <= c <= d <= |text|
    ensures text[a..d] == text[a..b] + text[b..c] + text[c..d]
  {
  }

  lemma AtSlice(s: string, sub: string, i: nat)
    requires At(s, sub, i)
    ensures i + |sub| <= |s| && s[i..i + |sub|] == sub
  {
  }

  /** Reading, given where the value and the first start are. */
  lemma ReadAt(text: string, start: string, end: string, found: nat, place: nat, to: nat)
    requires IndexFrom(text, start, 0) == Some(found) && (found == place || found + |start| <= place)
    requires At(text, start, place) && place + |start| <= to && At(text, end, to) && end != ""
    ensures to <= |text| && Extract(text, start, end).Some? && !Contains(Extract(text, start, end).value, end)
    ensures IndexFrom(text, end, found + |start|) == Some(to) ==>
              Extract(text, start, end).value
              == if found == place then text[place + |start|..to]
                 else text[found + |start|..place] + start + text[place + |start|..to]
  {
    hide At, IndexFrom, Contains;
    AtSlice(text, start, place);
    AtInside(text, end, to);
    var from := found + |start|;
    IndexIsFirst(text, end, from, to);
    FirstHasNone(text, end, from);
    var x := Extract(text, start, end);
    assert x == Some(text[from..IndexFrom(text, end, from).value]);
    hide Extract;
    if found != place {
      Pieces(text, from, place, place + |start|, to);
    }
  }

  /** What is read between a line's markers never holds its end. It is the value,
      when that does not hold its end either and no earlier line holds the start;
      with an earlier start, it is longer. */
  lemma ReadBetween(lines: seq<Line>, k: nat) returns (x: string, before: string)
    requires k < |lines| && lines[k].Marked? && PlainLines(lines) && DistinctMarkers(lines)
    ensures var start, end := MarkText(lines[k].marker, true), MarkText(lines[k].marker, false);
            && Extract(TextOf(lines), start, end) == Some(x) && !Contains(x, end)
            && (!Contains(lines[k].value, end) ==>
                  && (!Earlier(lines, k, true) ==> x == lines[k].value)
                  && (Earlier(lines, k, true) && !Earlier(lines, k, false) ==> x == before + start + lines[k].value))
  {
    hide Join, MarkText, Offset, At, PlainPrefix, Texts, IndexFrom, Contains, LineText, Earlier, DistinctMarkers,
      PlainLines, Extract, TextOf, MarkPlace, BodyPlace;
    var start, end, text := MarkText(lines[k].marker, true), MarkText(lines[k].marker, false), TextOf(lines);
    FirstStart(lines, k);
    ValueInText(lines, k);
    MarkersInText(lines, k);
    MarkEnds(lines[k].marker, false);
    var found, place, to := IndexFrom(text, start, 0).value, MarkPlace(lines, k, true), MarkPlace(lines, k, false);
    ReadAt(text, start, end, found, place, to);
    x := Extract(text, start, end).value;
    before := if Earlier(lines, k, true) then text[found + |start|..place] else "";
    if !Contains(lines[k].value, end) && (!Earlier(lines, k, true) || !Earlier(lines, k, false)) {
      FirstEnd(lines, k, found + |start|);
    }
  }

  lemma MarkersInText(lines: seq<Line>, k: nat)
    requires k < |lines| && lines[k].Marked?
    ensures At(TextOf(lines), MarkText(lines[k].marker, true), MarkPlace(lines, k, true))
    ensures At(TextOf(lines), MarkText(lines[k].marker, false), MarkPlace(lines, k, false))
  {
    hide MarkText, At, Join, Offset, Texts, MarkIn;
    MarkerPlace(lines, k, true);
    MarkerPlace(lines, k, false);
  }
}
