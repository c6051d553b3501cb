/** Translated front matter is read back into the fields it came from
    (scripts/docs-i18n/doc_mode.go). */
module FrontValues {
  import opened Text
  import opened TaggedDoc
  import opened FrontMarkers

  function GoTrim(s: string): string { Trim(s, UnicodeSpace) }

  // ---- applying a translation ----

  function Padded(items: seq<Item>, n: nat): seq<Item>
    ensures |Padded(items, n)| == if |items| < n then n else |items|
    decreases n
  {
    if |items| >= n then items else Padded(items, n - 1) + [Words("")]
  }

  function WithItem(items: seq<Item>, index: nat, value: string): seq<Item> {
    Padded(items, index + 1)[index := Words(value)]
  }

  method SetReadWhenValue(existing: Option<seq<Item>>, index: nat, value: string) returns (readWhen: seq<Item>)
    ensures readWhen == WithItem(if existing.Some? then existing.value else [], index, value)
  {
    readWhen := if existing.Some? then existing.value else [];
    ghost var before := readWhen;
    while |readWhen| <= index
      invariant |readWhen| >= |before| && readWhen == Padded(before, |readWhen|)
      invariant |readWhen| <= index + 1 || readWhen == before
      decreases index + 1 - |readWhen|
    {
      readWhen := readWhen + [Words("")];
    }
    PaddedEnough(before, index + 1);
    readWhen := readWhen[index := Words(value)];
  }

  lemma PaddedEnough(items: seq<Item>, n: nat)
    ensures |items| >= n ==> Padded(items, n) == items
  {
  }

  function Put(data: Data, m: Marker, value: string): Data {
    match m.field
    case Summary => data.(summary := Some(value))
    case Title => data.(title := Some(value))
    case ReadWhen =>
      data.(readWhen := Some(WithItem(if data.readWhen.Some? then data.readWhen.value else [], m.index, value)))
  }

  function ValueOf(front: string, m: Marker): Option<string> { Extract(front, MarkText(m, true), MarkText(m, false)) }

  /** The data with every marked value replaced, unless a marker is missing. */
  function Applied(data: Data, markers: seq<Marker>, front: string): Option<Data> {
    if markers == [] then Some(data)
    else
      var n := |markers| - 1;
      var before := Applied(data, markers[..n], front);
      if before.None? || ValueOf(front, markers[n]).None? then None
      else Some(Put(before.value, markers[n], GoTrim(ValueOf(front, markers[n]).value)))
  }

  /** The first occurrence of `sub`, and the first behind `from`. */
  predicate FirstBehind(text: string, sub: string, from: nat, i: nat) {
    from <= i && At(text, sub, i) && forall k: nat | from <= k < i :: !At(text, sub, k)
  }

  /** The text from behind the first start to the first end behind that. */
  predicate Between(text: string, start: string, end: string, i: nat, j: nat, value: string) {
    FirstBehind(text, start, 0, i) && FirstBehind(text, end, i + |start|, j) && value == text[i + |start|..j]
  }

  /** A value is what is between the markers, and is missing exactly when there is
      no such text. */
  lemma ExtractIff(text: string, start: string, end: string, value: string)
    ensures Extract(text, start, end) == Some(value) <==>
            exists i: nat, j: nat :: Between(text, start, end, i, j, value)
  {
    hide IndexFrom, At;
    if i: nat, j: nat :| Between(text, start, end, i, j, value) {
      FoundFirst(text, start, 0, i);
      FoundFirst(text, end, i + |start|, j);
    }
    if Extract(text, start, end) == Some(value) {
      var i := IndexFrom(text, start, 0).value;
      Within(text, start, i);
      var j := IndexFrom(text, end, i + |start|).value;
      assert Between(text, start, end, i, j, value);
    }
  }

  lemma Within(text: string, sub: string, i: nat)
    requires At(text, sub, i)
    ensures i + |sub| <= |text|
  {
  }

  lemma FoundFirst(text: string, sub: string, from: nat, i: nat)
    requires FirstBehind(text, sub, from, i)
    ensures i + |sub| <= |text| && IndexFrom(text, sub, from) == Some(i)
  {
    FirstAt(text, sub, from, i);
  }

  method ExtractMarkerValue(text: string, start: string, end: string) returns (value: Option<string>)
    ensures value == Extract(text, start, end)
  {
    hide IndexFrom;
    var found := IndexFrom(text, start, 0);
    if found.None? {
      return None;
    }
    var startIndex := found.value + |start|;
    found := IndexFrom(text, end, startIndex);
    if found.None? {
      return None;
    }
    return Some(text[startIndex..found.value]);
  }

  method ApplyFrontmatterTranslations(data: Data, markers: seq<Marker>, translatedFront: string)
          returns (r: Option<Data>)
    ensures r == Applied(data, markers, translatedFront)
  {
    hide MarkText, Extract, GoTrim;
    var current := data;
    for i := 0 to |markers|
      invariant Applied(data, markers[..i], translatedFront) == Some(current)
    {
      assert markers[..i + 1][..i] == markers[..i];
      var marker := markers[i];
      var value := ExtractMarkerValue(translatedFront, MarkText(marker, true), MarkText(marker, false));
      if value.None? {
        NoneStays(data, markers, i + 1, translatedFront);
        return None;
      }
      var trimmed := GoTrim(value.value);
      match marker.field
      case Summary => current := current.(summary := Some(trimmed));
      case Title => current := current.(title := Some(trimmed));
      case ReadWhen =>
        var items := SetReadWhenValue(current.readWhen, marker.index, trimmed);
        current := current.(readWhen := Some(items));
    }
    assert markers[..|markers|] == markers;
    return Some(current);
  }

  lemma {:induction false} NoneStays(data: Data, markers: seq<Marker>, i: nat, front: string)
    requires i <= |markers| && Applied(data, markers[..i], front).None?
    ensures Applied(data, markers, front).None?
  {
    hide ValueOf, Put, GoTrim;
    if i < |markers| {
      assert markers[..|markers| - 1][..i] == markers[..i];
      NoneStays(data, markers[..|markers| - 1], i, front);
    } else {
      assert markers[..i] == markers;
    }
  }

  lemma {:induction false} AppliedConcat(data: Data, a: seq<Marker>, b: seq<Marker>, front: string)
    ensures Applied(data, a + b, front) ==
            if Applied(data, a, front).None? then None else Applied(Applied(data, a, front).value, b, front)
  {
    hide ValueOf, Put, GoTrim;
    if b == [] {
      assert a + b == a;
    } else {
      var n := |b| - 1;
      assert (a + b)[..|a| + n] == a + b[..n];
      AppliedConcat(data, a, b[..n], front);
    }
  }

  // ---- the template's lines ----

  lemma {:induction false} ItemLineAt(items: seq<Item>, i: nat)
    requires i < |items|
    ensures ItemLines(items)[i] ==
            if items[i].Words? then Marked("  - ", Marker(ReadWhen, i), items[i].text) else Bare("  - " + items[i].text)
  {
    var n := |items| - 1;
    if |items| <= 1 {
    } else {
      ItemLineAt(items[..n], if i < n then i else 0);
    }
  }

  lemma LinesAreFree(d: Data)
    ensures PlainLines(Lines(d)) && DistinctMarkers(Lines(d))
  {
    assert Unbracketed("summary: ") && Unbracketed("title: ") && Unbracketed("  - ");
    if d.readWhen.Some? {
      var items := d.readWhen.value;
      forall i | 0 <= i < |items|
        ensures PlainPrefix(ItemLines(items)[i])
                && (ItemLines(items)[i].Marked? ==> ItemLines(items)[i].marker == Marker(ReadWhen, i))
      {
        ItemLineAt(items, i);
      }
      if items != [] { ItemLineAt(items, 0); }
    }
    hide Unbracketed;
  }

  // ---- reading a translation back ----

  /** Applying fails exactly when a value is missing. */
  lemma {:induction false} AppliedIff(data: Data, markers: seq<Marker>, front: string)
    ensures Applied(data, markers, front).Some? <==> forall m | m in markers :: ValueOf(front, m).Some?
  {
    hide ValueOf, Put;
    if markers == [] {
    } else {
      var n := |markers| - 1;
      AppliedIff(data, markers[..n], front);
      assert markers == markers[..n] + [markers[n]];
    }
  }

  /** The same fields and items, with other strings. */
  predicate SameShape(d: Data, e: Data) {
    && d.summary.Some? == e.summary.Some? && d.title.Some? == e.title.Some? && d.readWhen.Some? == e.readWhen.Some?
    && (d.readWhen.Some? ==> SameItems(d.readWhen.value, e.readWhen.value))
  }

  predicate SameItems(a: seq<Item>, b: seq<Item>) {
    && |a| == |b|
    && forall i | 0 <= i < |a| :: a[i].Words? == b[i].Words? && (a[i].Printed? ==> a[i] == b[i])
  }

  function TrimmedText(t: Option<string>): Option<string> { if t.None? then None else Some(GoTrim(t.value)) }

  function TrimmedItem(i: Item): Item { if i.Words? then Words(GoTrim(i.text)) else i }

  function TrimmedItems(items: seq<Item>): (r: seq<Item>)
    ensures |r| == |items|
  {
    seq(|items|, i requires 0 <= i < |items| => TrimmedItem(items[i]))
  }

  function TrimmedData(d: Data): Data {
    Data(TrimmedText(d.summary), TrimmedText(d.title),
         if d.readWhen.None? then None else Some(TrimmedItems(d.readWhen.value)))
  }

  function ItemMarkers(items: seq<Item>): seq<Marker> { MarkersOf(ItemLines(items)) }

  lemma ItemMarkersSnoc(items: seq<Item>, i: Item)
    ensures ItemMarkers(items + [i]) == ItemMarkers(items) + if i.Words? then [Marker(ReadWhen, |items|)] else []
  {
    var n := |items|;
    assert (items + [i])[..n] == items;
    var line := if i.Words? then Marked("  - ", Marker(ReadWhen, n), i.text) else Bare("  - " + i.text);
    MarkersSnoc(ItemLines(items), line);
    hide MarkersOf;
  }

  lemma {:induction false} MarkersConcat(a: seq<Line>, b: seq<Line>)
    ensures MarkersOf(a + b) == MarkersOf(a) + MarkersOf(b)
  {
    if b == [] {
      assert a + b == a;
    } else {
      var n := |b| - 1;
      assert (a + b)[..|a| + n] == a + b[..n];
      MarkersConcat(a, b[..n]);
    }
  }

  lemma {:induction false} SameItemMarkers(a: seq<Item>, b: seq<Item>)
    requires SameItems(a, b)
    ensures ItemMarkers(a) == ItemMarkers(b)
  {
    if a == [] {
    } else {
      var n := |a| - 1;
      SameItemMarkers(a[..n], b[..n]);
      ItemMarkersSnoc(a[..n], a[n]);
      ItemMarkersSnoc(b[..n], b[n]);
      assert a == a[..n] + [a[n]] && b == b[..n] + [b[n]];
      hide ItemMarkers;
    }
  }

  /** The markers: those of the two strings, then those of the items. */
  lemma MarkersByField(d: Data)
    ensures MarkersOf(Lines(d)) ==
            (if d.summary.Some? then [Marker(Summary, 0)] else []) + (if d.title.Some? then [Marker(Title, 0)] else [])
            + (if d.readWhen.Some? then ItemMarkers(d.readWhen.value) else [])
  {
    hide MarkersOf, ItemLines;
    var s := if d.summary.Some? then [Marked("summary: ", Marker(Summary, 0), d.summary.value)] else [];
    var t := if d.title.Some? then [Marked("title: ", Marker(Title, 0), d.title.value)] else [];
    var w := if d.readWhen.Some? then [Bare("read_when:")] + ItemLines(d.readWhen.value) else [];
    assert Lines(d) == s + t + w;
    hide Lines;
    MarkersConcat(s, t);
    MarkersConcat(s + t, w);
    MarkersOne(s);
    MarkersOne(t);
    if d.readWhen.Some? {
      MarkersConcat([Bare("read_when:")], ItemLines(d.readWhen.value));
      MarkersOne([Bare("read_when:")]);
      assert [] + ItemMarkers(d.readWhen.value) == ItemMarkers(d.readWhen.value);
    } else {
      MarkersOne(w);
    }
  }

  lemma MarkersOne(lines: seq<Line>)
    requires |lines| <= 1
    ensures MarkersOf(lines) == if lines != [] && lines[0].Marked? then [lines[0].marker] else []
  {
    if lines != [] { assert lines[..0] == []; }
  }

  // ---- any text that has the markers ----

  /** Between the markers the text has the strings of `c`. */
  predicate ReadsAs(front: string, c: Data) {
    && (c.summary.Some? ==> ValueOf(front, Marker(Summary, 0)) == c.summary)
    && (c.title.Some? ==> ValueOf(front, Marker(Title, 0)) == c.title)
    && (c.readWhen.Some? ==> forall i | 0 <= i < |c.readWhen.value| && c.readWhen.value[i].Words? ::
                               ValueOf(front, Marker(ReadWhen, i)) == Some(c.readWhen.value[i].text))
  }

  /** The items with the first `n` exchanged for the translated ones. */
  function Mixed(mine: seq<Item>, theirs: seq<Item>, n: nat): seq<Item>
    requires |mine| == |theirs| && n <= |mine|
  {
    TrimmedItems(theirs[..n]) + mine[n..]
  }

  lemma MixedNext(mine: seq<Item>, theirs: seq<Item>, n: nat)
    requires SameItems(mine, theirs) && n < |mine|
    ensures Mixed(mine, theirs, n + 1) ==
            if theirs[n].Words? then WithItem(Mixed(mine, theirs, n), n, GoTrim(theirs[n].text))
            else Mixed(mine, theirs, n)
  {
    PaddedEnough(Mixed(mine, theirs, n), n + 1);
    hide GoTrim, Padded;
  }

  lemma {:induction false} ItemsApplied(d: Data, c: Data, front: string, n: nat)
    requires ReadsAs(front, c) && d.readWhen.Some? && c.readWhen.Some? && SameItems(d.readWhen.value, c.readWhen.value)
    requires |d.readWhen.value| == |c.readWhen.value| && n <= |c.readWhen.value|
    ensures Applied(d, ItemMarkers(c.readWhen.value[..n]), front)
         == Some(d.(readWhen := Some(Mixed(d.readWhen.value, c.readWhen.value, n))))
  {
    hide ItemMarkers, Mixed, WithItem, GoTrim, ValueOf, SameItems;
    var mine, theirs := d.readWhen.value, c.readWhen.value;
    if n == 0 {
      NothingMixed(mine, theirs);
    } else {
      ItemsApplied(d, c, front, n - 1);
      ItemMarkersSnoc(theirs[..n - 1], theirs[n - 1]);
      assert theirs[..n] == theirs[..n - 1] + [theirs[n - 1]];
      MixedNext(mine, theirs, n - 1);
      if theirs[n - 1].Words? {
        AppliedOne(d, ItemMarkers(theirs[..n - 1]), Marker(ReadWhen, n - 1), front);
      } else {
        assert ItemMarkers(theirs[..n - 1]) + [] == ItemMarkers(theirs[..n - 1]);
      }
    }
  }

  lemma NothingMixed(mine: seq<Item>, theirs: seq<Item>)
    requires |mine| == |theirs|
    ensures Mixed(mine, theirs, 0) == mine && ItemMarkers(theirs[..0]) == []
  {
    assert theirs[..0] == [];
  }

  lemma AppliedOne(d: Data, markers: seq<Marker>, m: Marker, front: string)
    requires Applied(d, markers, front).Some? && ValueOf(front, m).Some?
    ensures Applied(d, markers + [m], front)
            == Some(Put(Applied(d, markers, front).value, m, GoTrim(ValueOf(front, m).value)))
  {
    assert (markers + [m])[..|markers|] == markers;
    hide ValueOf, Put, GoTrim;
  }

  lemma StringsApplied(d: Data, c: Data, front: string)
    requires SameShape(d, c) && ReadsAs(front, c)
    ensures var s := if d.summary.Some? then [Marker(Summary, 0)] else [];
            var t := if d.title.Some? then [Marker(Title, 0)] else [];
            Applied(d, s + t, front) == Some(d.(summary := TrimmedText(c.summary), title := TrimmedText(c.title)))
  {
    hide ValueOf, GoTrim;
    var s := if d.summary.Some? then [Marker(Summary, 0)] else [];
    assert Applied(d, [], front) == Some(d);
    if d.summary.Some? {
      AppliedOne(d, [], Marker(Summary, 0), front);
      assert [] + [Marker(Summary, 0)] == s;
    }
    if d.title.Some? {
      AppliedOne(d, s, Marker(Title, 0), front);
    } else {
      assert s + [] == s;
    }
  }

  /** Whatever else the translator returned, applying it gives just the strings
      between the markers, trimmed, and leaves everything else. */
  lemma AppliedReads(d: Data, c: Data, front: string)
    requires SameShape(d, c) && ReadsAs(front, c)
    ensures Applied(d, MarkersOf(Lines(d)), front) == Some(TrimmedData(c))
  {
    hide ValueOf, GoTrim, MarkersOf, Lines, ItemMarkers, Put, ReadsAs;
    MarkersByField(d);
    StringsApplied(d, c, front);
    var s := if d.summary.Some? then [Marker(Summary, 0)] else [];
    var t := if d.title.Some? then [Marker(Title, 0)] else [];
    if d.readWhen.Some? {
      var mine, theirs := d.readWhen.value, c.readWhen.value;
      SameItemMarkers(mine, theirs);
      assert theirs[..|theirs|] == theirs;
      var between := d.(summary := TrimmedText(c.summary), title := TrimmedText(c.title));
      AppliedConcat(d, s + t, ItemMarkers(mine), front);
      ItemsApplied(between, c, front, |theirs|);
      assert Mixed(mine, theirs, |theirs|) == TrimmedItems(theirs);
    } else {
      assert s + t + [] == s + t;
    }
  }

  // ---- trimming ----

  /** Dropping a space at either end loses no marker. */
  lemma DropSpace(s: string, i: nat, rest: string, mark: string)
    requires i <= 1 <= |s| && rest == s[i..i + |s| - 1] && UnicodeSpace(s[if i == 0 then |s| - 1 else 0])
    requires mark != "" && !UnicodeSpace(mark[0]) && !UnicodeSpace(mark[|mark| - 1])
    ensures Contains(rest, mark) <==> Contains(s, mark)
  {
    hide UnicodeSpace;
    if q: nat :| q <= |s| && At(s, mark, q) {
      AtChars(s, mark, q);
      assert s[q + 0] == mark[0] && s[q + (|mark| - 1)] == mark[|mark| - 1];
      TagInside(s, i, rest, mark, q);
      assert At(rest, mark, q - i);
    }
    if q: nat :| q <= |rest| && At(rest, mark, q) {
      AtInside(rest, mark, q);
      TagInside(s, i, rest, mark, q + i);
      assert At(s, mark, q + i);
    }
  }

  lemma {:induction false} TrimLeftKeeps(s: string, mark: string)
    requires mark != "" && !UnicodeSpace(mark[0]) && !UnicodeSpace(mark[|mark| - 1])
    ensures Contains(TrimLeft(s, UnicodeSpace), mark) <==> Contains(s, mark)
  {
    hide UnicodeSpace, Contains;
    if s != "" && UnicodeSpace(s[0]) {
      DropSpace(s, 1, s[1..], mark);
      TrimLeftKeeps(s[1..], mark);
    }
  }

  lemma {:induction false} TrimRightKeeps(s: string, mark: string)
    requires mark != "" && !UnicodeSpace(mark[0]) && !UnicodeSpace(mark[|mark| - 1])
    ensures Contains(TrimRight(s, UnicodeSpace), mark) <==> Contains(s, mark)
  {
    hide UnicodeSpace, Contains;
    if s != "" && UnicodeSpace(s[|s| - 1]) {
      DropSpace(s, 0, s[..|s| - 1], mark);
      TrimRightKeeps(s[..|s| - 1], mark);
    }
  }

  lemma MarkIsKept(s: string, m: Marker, opening: bool)
    ensures Contains(GoTrim(s), MarkText(m, opening)) <==> Contains(s, MarkText(m, opening))
  {
    var mark := MarkText(m, opening);
    assert mark[0] == '[' && mark[|mark| - 1] == ']';
    hide MarkText, Contains;
    TrimLeftKeeps(s, mark);
    TrimRightKeeps(TrimLeft(s, UnicodeSpace), mark);
  }

  /** How many characters are not spaces. */
  function Solid(s: string): nat { if s == "" then 0 else (if UnicodeSpace(s[0]) then 0 else 1) + Solid(s[1..]) }

  lemma {:induction false} SolidConcat(a: string, b: string)
    ensures Solid(a + b) == Solid(a) + Solid(b)
  {
    hide UnicodeSpace;
    if a == "" {
      assert a + b == b;
    } else {
      SolidConcat(a[1..], b);
      assert (a + b)[1..] == a[1..] + b;
    }
  }

  lemma {:induction false} TrimLeftSolid(s: string)
    ensures Solid(TrimLeft(s, UnicodeSpace)) == Solid(s)
  {
    hide UnicodeSpace;
    if s != "" && UnicodeSpace(s[0]) { TrimLeftSolid(s[1..]); }
  }

  lemma {:induction false} TrimRightSolid(s: string)
    ensures Solid(TrimRight(s, UnicodeSpace)) == Solid(s)
  {
    hide UnicodeSpace;
    if s != "" && UnicodeSpace(s[|s| - 1]) {
      TrimRightSolid(s[..|s| - 1]);
      SolidConcat(s[..|s| - 1], [s[|s| - 1]]);
      assert s == s[..|s| - 1] + [s[|s| - 1]];
    }
  }

  /** A text with a marker before it is not trimmed to the same. */
  lemma LongerIsOther(before: string, m: Marker, value: string)
    ensures GoTrim(before + MarkText(m, true) + value) != GoTrim(value)
  {
    var mark := MarkText(m, true);
    assert mark[0] == '[';
    hide MarkText, UnicodeSpace;
    assert !UnicodeSpace('[') by { NotSpace(); }
    SolidConcat(before + mark, value);
    SolidConcat(before, mark);
    TrimLeftSolid(value);
    TrimRightSolid(TrimLeft(value, UnicodeSpace));
    var x := before + mark + value;
    TrimLeftSolid(x);
    TrimRightSolid(TrimLeft(x, UnicodeSpace));
  }

  lemma NotSpace()
    ensures !UnicodeSpace('[')
  {
  }

  // ---- what a translation reads back as ----

  /** A line's value has not its own end marker in it, and no earlier line its
      start. */
  predicate Intact(lines: seq<Line>, k: nat)
    requires k < |lines| && lines[k].Marked?
  {
    !Contains(lines[k].value, MarkText(lines[k].marker, false)) && !Earlier(lines, k, true)
  }

  predicate ReadBack(front: string, l: Line) {
    l.Marked? ==> ValueOf(front, l.marker).Some? && GoTrim(ValueOf(front, l.marker).value) == GoTrim(l.value)
  }

  /** A value is read back if and only if it is intact, unless earlier lines hold
      both of its markers. */
  lemma ReadBackIff(lines: seq<Line>, k: nat)
    requires k < |lines| && lines[k].Marked? && PlainLines(lines) && DistinctMarkers(lines)
    ensures ValueOf(TextOf(lines), lines[k].marker).Some?
    ensures !(Earlier(lines, k, true) && Earlier(lines, k, false)) ==>
              (ReadBack(TextOf(lines), lines[k]) <==> Intact(lines, k))
  {
    hide Extract, MarkText, Contains, GoTrim, Earlier, TextOf, PlainLines, DistinctMarkers;
    var x, before := ReadBetween(lines, k);
    MarkIsKept(x, lines[k].marker, false);
    MarkIsKept(lines[k].value, lines[k].marker, false);
    LongerIsOther(before, lines[k].marker, lines[k].value);
  }

  function GotText(front: string, m: Marker, t: Option<string>): Option<string> {
    if t.None? then None else ValueOf(front, m)
  }

  function GotItem(front: string, i: nat, item: Item): Item {
    var got := ValueOf(front, Marker(ReadWhen, i));
    if item.Words? && got.Some? then Words(got.value) else item
  }

  function GotItems(front: string, items: seq<Item>): (r: seq<Item>)
    ensures |r| == |items|
  {
    seq(|items|, i requires 0 <= i < |items| => GotItem(front, i, items[i]))
  }

  /** The data with every string as it stands between its markers. */
  function GotData(front: string, e: Data): Data {
    Data(GotText(front, Marker(Summary, 0), e.summary), GotText(front, Marker(Title, 0), e.title),
         if e.readWhen.None? then None else Some(GotItems(front, e.readWhen.value)))
  }

  ghost predicate AllFound(front: string, lines: seq<Line>) {
    forall l | l in lines && l.Marked? :: ValueOf(front, l.marker).Some?
  }

  lemma LineOfItem(items: seq<Item>, i: nat)
    requires i < |items| && items[i].Words?
    ensures Marked("  - ", Marker(ReadWhen, i), items[i].text) in ItemLines(items)
  {
    ItemLineAt(items, i);
  }

  lemma ItemsGot(front: string, e: Data)
    requires AllFound(front, Lines(e)) && e.readWhen.Some?
    ensures var items, got := e.readWhen.value, GotItems(front, e.readWhen.value);
            && SameItems(items, got)
            && forall i | 0 <= i < |items| && items[i].Words? ::
                 ValueOf(front, Marker(ReadWhen, i)) == Some(got[i].text)
  {
    hide ValueOf;
    var items := e.readWhen.value;
    forall i | 0 <= i < |items| && items[i].Words? ensures ValueOf(front, Marker(ReadWhen, i)).Some? {
      LineOfItem(items, i);
      assert Marked("  - ", Marker(ReadWhen, i), items[i].text) in Lines(e);
    }
  }

  lemma GotReads(front: string, d: Data, e: Data)
    requires SameShape(d, e) && AllFound(front, Lines(e))
    ensures SameShape(d, GotData(front, e)) && ReadsAs(front, GotData(front, e))
  {
    hide ValueOf;
    if e.readWhen.Some? { ItemsGot(front, e); }
    if e.summary.Some? { assert Marked("summary: ", Marker(Summary, 0), e.summary.value) in Lines(e); }
    if e.title.Some? { assert Marked("title: ", Marker(Title, 0), e.title.value) in Lines(e); }
    hide GotItems, ItemLines;
  }

  ghost predicate AllReadBack(front: string, lines: seq<Line>) { forall l | l in lines :: ReadBack(front, l) }

  lemma ItemsReadBackIff(front: string, items: seq<Item>)
    requires AllFound(front, ItemLines(items))
    ensures TrimmedItems(GotItems(front, items)) == TrimmedItems(items) <==> AllReadBack(front, ItemLines(items))
  {
    hide ValueOf, GoTrim;
    forall i | 0 <= i < |items|
      ensures ItemLines(items)[i] in ItemLines(items)
      ensures TrimmedItem(GotItem(front, i, items[i])) == TrimmedItem(items[i])
              <==> ReadBack(front, ItemLines(items)[i])
    {
      ItemLineAt(items, i);
    }
    var got, want := TrimmedItems(GotItems(front, items)), TrimmedItems(items);
    if got == want {
      forall i | 0 <= i < |items| ensures ReadBack(front, ItemLines(items)[i]) { assert got[i] == want[i]; }
    }
  }

  lemma BareIsReadBack(front: string)
    ensures forall l: Line | l.Bare? :: ReadBack(front, l)
    ensures AllReadBack(front, []) && AllReadBack(front, [Bare("read_when:")])
  {
  }

  lemma PartsReadBack(front: string, a: seq<Line>, b: seq<Line>)
    ensures AllReadBack(front, a + b) <==> AllReadBack(front, a) && AllReadBack(front, b)
    ensures AllFound(front, a + b) <==> AllFound(front, a) && AllFound(front, b)
  {
    hide ValueOf, ReadBack;
    if AllReadBack(front, a + b) {
      forall l | l in a ensures ReadBack(front, l) { assert l in a + b; }
      forall l | l in b ensures ReadBack(front, l) { assert l in a + b; }
    }
    if AllFound(front, a + b) {
      forall l | l in a && l.Marked? ensures ValueOf(front, l.marker).Some? { assert l in a + b; }
      forall l | l in b && l.Marked? ensures ValueOf(front, l.marker).Some? { assert l in a + b; }
    }
  }

  lemma StringReadBackIff(front: string, prefix: string, m: Marker, t: Option<string>)
    ensures var lines := if t.Some? then [Marked(prefix, m, t.value)] else [];
            AllFound(front, lines) ==>
              (TrimmedText(GotText(front, m, t)) == TrimmedText(t) <==> AllReadBack(front, lines))
  {
    hide ValueOf, GoTrim;
    if t.Some? { assert Marked(prefix, m, t.value) in [Marked(prefix, m, t.value)]; }
  }

  /** The data is read back if and only if every line is. */
  lemma DataReadBackIff(front: string, e: Data)
    requires AllFound(front, Lines(e))
    ensures TrimmedData(GotData(front, e)) == TrimmedData(e) <==> AllReadBack(front, Lines(e))
  {
    hide ValueOf, GoTrim, GotItems, GotText, TrimmedText, TrimmedItems, ItemLines, AllReadBack, AllFound;
    var s := if e.summary.Some? then [Marked("summary: ", Marker(Summary, 0), e.summary.value)] else [];
    var t := if e.title.Some? then [Marked("title: ", Marker(Title, 0), e.title.value)] else [];
    var w := if e.readWhen.Some? then [Bare("read_when:")] + ItemLines(e.readWhen.value) else [];
    PartsReadBack(front, s, t);
    PartsReadBack(front, s + t, w);
    StringReadBackIff(front, "summary: ", Marker(Summary, 0), e.summary);
    StringReadBackIff(front, "title: ", Marker(Title, 0), e.title);
    BareIsReadBack(front);
    if e.readWhen.Some? {
      PartsReadBack(front, [Bare("read_when:")], ItemLines(e.readWhen.value));
      ItemsReadBackIff(front, e.readWhen.value);
    }
  }

  /** No value's markers are both imitated before it. */
  predicate Separate(lines: seq<Line>) {
    forall k | 0 <= k < |lines| && lines[k].Marked? :: !(Earlier(lines, k, true) && Earlier(lines, k, false))
  }

  predicate AllIntact(lines: seq<Line>) { forall k | 0 <= k < |lines| && lines[k].Marked? :: Intact(lines, k) }

  lemma LinesReadBackIff(lines: seq<Line>)
    requires lines != [] && PlainLines(lines) && DistinctMarkers(lines)
    ensures AllFound(TextOf(lines), lines)
    ensures Separate(lines) ==> (AllReadBack(TextOf(lines), lines) <==> AllIntact(lines))
  {
    hide ValueOf, ReadBack, Intact, Earlier, TextOf, PlainLines, DistinctMarkers;
    forall k | 0 <= k < |lines| && lines[k].Marked?
      ensures ValueOf(TextOf(lines), lines[k].marker).Some?
      ensures !(Earlier(lines, k, true) && Earlier(lines, k, false))
              ==> (ReadBack(TextOf(lines), lines[k]) <==> Intact(lines, k))
    {
      ReadBackIff(lines, k);
    }
    BareIsReadBack(TextOf(lines));
  }

  /** Whatever a translation does to the strings, as long as it keeps the template
      around them, applying it gives just the translated strings, trimmed, and
      leaves everything else, if and only if no string has its own end marker in
      it and no line before it has its start marker. */
  lemma TranslationIsRead(d: Data, e: Data)
    requires SameShape(d, e) && Separate(Lines(e))
    ensures Applied(d, MarkersOf(Lines(d)), Template(e)) == Some(TrimmedData(e)) <==> AllIntact(Lines(e))
  {
    hide Applied, MarkersOf, Lines, AllFound, AllReadBack, AllIntact, SameShape, GotData, TrimmedData, Separate,
      PlainLines, DistinctMarkers, ReadsAs;
    var front := Template(e);
    LinesAreFree(e);
    if Lines(e) == [] {
      NoLinesReadBack(front);
    } else {
      LinesReadBackIff(Lines(e));
    }
    GotReads(front, d, e);
    AppliedReads(d, GotData(front, e), front);
    DataReadBackIff(front, e);
  }

  lemma NoLinesReadBack(front: string)
    ensures AllFound(front, []) && AllReadBack(front, []) && AllIntact([])
  {
  }

  /** A lone summary is read back if and only if its end marker is not in it. */
  lemma ImitationIsCut(summary: string)
    ensures var e, m := Data(Some(summary), None, None), Marker(Summary, 0);
            Applied(e, MarkersOf(Lines(e)), Template(e)) == Some(TrimmedData(e))
            <==> !Contains(summary, MarkText(m, false))
  {
    hide Applied, MarkersOf, Template, TrimmedData, Contains, MarkText;
    var e := Data(Some(summary), None, None);
    assert Lines(e) == [Marked("summary: ", Marker(Summary, 0), summary)];
    TranslationIsRead(e, e);
    assert AllIntact(Lines(e)) <==> Intact(Lines(e), 0);
  }

  // ---- lists of items ----

  /** Beyond the end the list is filled up with empty strings; the item at the
      index is replaced, and the others stay. */
  lemma {:induction false} WithItemIs(items: seq<Item>, index: nat, value: string)
    ensures var r := WithItem(items, index, value);
            && |r| == (if index < |items| then |items| else index + 1) && r[index] == Words(value)
            && forall i | 0 <= i < |r| && i != index :: r[i] == if i < |items| then items[i] else Words("")
  {
    PaddedIs(items, index + 1);
  }

  lemma {:induction false} PaddedIs(items: seq<Item>, n: nat)
    ensures forall i | 0 <= i < |Padded(items, n)| ::
              Padded(items, n)[i] == if i < |items| then items[i] else Words("")
    decreases n
  {
    if |items| >= n {
    } else {
      PaddedIs(items, n - 1);
    }
  }
}
