/** The tagged document sent to the translator (scripts/docs-i18n/doc_mode.go)
    and the front matter of a page (scripts/docs-i18n/process.go). */
module TaggedDoc {
  import opened Text

  const FRONT_START := "<frontmatter>"
  const FRONT_END := "</frontmatter>"
  const BODY_START := "<body>"
  const BODY_END := "</body>"

  function FormatTaggedDocument(frontMatter: string, body: string): string {
    FRONT_START + "\n" + frontMatter + "\n" + FRONT_END + "\n" + BODY_START + "\n" + body + "\n" + BODY_END
  }

  /** Removes one line break at each end. */
  function TrimTagNewlines(value: string): string {
    var v := if "\n" <= value then value[1..] else value;
    if v != "" && v[|v| - 1] == '\n' then v[..|v| - 1] else v
  }

  datatype Parsed = Document(frontMatter: string, body: string) | Missing(tag: string) | Unexpected

  predicate GoBlank(s: string) { Trim(s, UnicodeSpace) == "" }

  method ParseTaggedDocument(text: string) returns (r: Parsed)
    ensures r == Parse(text)
  {
    hide IndexFrom, TrimTagNewlines, GoBlank;
    var found := IndexFrom(text, FRONT_START, 0);
    if found.None? {
      return Missing(FRONT_START);
    }
    var frontStart := found.value + |FRONT_START|;
    found := IndexFrom(text, FRONT_END, frontStart);
    if found.None? {
      return Missing(FRONT_END);
    }
    var frontEnd := found.value;
    found := IndexFrom(text, BODY_START, frontEnd);
    if found.None? {
      return Missing(BODY_START);
    }
    var bodyStart := found.value + |BODY_START|;
    found := IndexFrom(text, BODY_END, bodyStart);
    if found.None? {
      return Missing(BODY_END);
    }
    var bodyEnd := found.value;
    if !GoBlank(text[..frontStart - |FRONT_START|]) || !GoBlank(text[bodyEnd + |BODY_END|..]) {
      return Unexpected;
    }
    return Document(TrimTagNewlines(text[frontStart..frontEnd]), TrimTagNewlines(text[bodyStart..bodyEnd]));
  }

  function Parse(text: string): Parsed { Sections(text, FRONT_START, FRONT_END, BODY_START, BODY_END) }

  /** Each tag is looked for after the one before it. */
  function Sections(text: string, frontStartTag: string, frontEndTag: string, bodyStartTag: string,
                    bodyEndTag: string): Parsed {
    var front := IndexFrom(text, frontStartTag, 0);
    if front.None? then Missing(frontStartTag)
    else
      var frontStart := front.value + |frontStartTag|;
      var frontEnd := IndexFrom(text, frontEndTag, frontStart);
      if frontEnd.None? then Missing(frontEndTag)
      else
        var body := IndexFrom(text, bodyStartTag, frontEnd.value);
        if body.None? then Missing(bodyStartTag)
        else
          var bodyStart := body.value + |bodyStartTag|;
          var bodyEnd := IndexFrom(text, bodyEndTag, bodyStart);
          if bodyEnd.None? then Missing(bodyEndTag)
          else if !GoBlank(text[..front.value]) || !GoBlank(text[bodyEnd.value + |bodyEndTag|..]) then Unexpected
          else Document(TrimTagNewlines(text[frontStart..frontEnd.value]),
                        TrimTagNewlines(text[bodyStart..bodyEnd.value]))
  }

  /** Where the search for the tag between `a` and `b` ends. */
  lemma FirstAt(text: string, sub: string, from: nat, at: nat)
    requires from <= at && At(text, sub, at)
    requires forall i: nat | from <= i < at :: !At(text, sub, i)
    ensures IndexFrom(text, sub, from) == Some(at)
  {
  }

  lemma AtChars(s: string, sub: string, i: nat)
    ensures At(s, sub, i) <==> i + |sub| <= |s| && forall k | 0 <= k < |sub| :: s[i + k] == sub[k]
  {
    if i + |sub| <= |s| {
      var there := s[i..i + |sub|];
      assert forall k | 0 <= k < |there| :: there[k] == s[i + k];
    }
  }

  lemma TagInside(text: string, n: nat, value: string, tag: string, i: nat)
    requires n + |value| <= |text| && text[n..n + |value|] == value
    requires n <= i && i + |tag| <= n + |value|
    ensures At(text, tag, i) <==> At(value, tag, i - n)
  {
    AtChars(text, tag, i);
    AtChars(value, tag, i - n);
    assert forall j | n <= j < n + |value| :: text[j] == value[j - n];
    forall k | 0 <= k < |tag| ensures text[i + k] == value[i - n + k] && tag[k] == tag[k] {
    }
  }

  lemma NoTagOver(text: string, tag: string, i: nat, p: nat)
    requires '\n' !in tag && i <= p < i + |tag| && p < |text| && text[p] == '\n'
    ensures !At(text, tag, i)
  {
    AtChars(text, tag, i);
    assert tag[p - i] != '\n';
    if i + |tag| <= |text| {
      assert text[i + (p - i)] == '\n';
    }
  }

  /** A value between line breaks, with the tag after it: the first occurrence
      of the tag is in the value, or else the one after it. */
  lemma TagAfterValue(text: string, n: nat, value: string, tag: string)
    requires |tag| > 0 && '\n' !in tag
    requires 0 < n && n + |value| < |text| && text[n..n + |value|] == value
    requires text[n - 1] == '\n' && text[n + |value|] == '\n' && At(text, tag, n + |value| + 1)
    ensures var found := IndexFrom(text, tag, n - 1);
            && found.Some? && n <= found.value <= n + |value| + 1
            && (found.value == n + |value| + 1 <==> !Contains(value, tag))
            && (Contains(value, tag) ==> found.value < n + |value|)
  {
    hide At, Contains, IndexFrom;
    var m := n + |value| + 1;
    IndexIsFirst(text, tag, n - 1, m);
    var found := IndexFrom(text, tag, n - 1).value;
    NoTagOver(text, tag, n - 1, n - 1);
    if found < m {
      NotAcross(text, n, value, tag, found);
      TagInside(text, n, value, tag, found);
      ContainsAt(value, tag, found - n);
    }
    if Contains(value, tag) {
      var i := WhereContained(value, tag);
      TagInside(text, n, value, tag, n + i);
      IndexIsFirst(text, tag, n - 1, n + i);
    }
  }

  lemma IndexIsFirst(text: string, tag: string, from: nat, at: nat)
    requires from <= at && At(text, tag, at)
    ensures var found := IndexFrom(text, tag, from);
            found.Some? && from <= found.value <= at && At(text, tag, found.value)
  {
  }

  lemma NotAcross(text: string, n: nat, value: string, tag: string, i: nat)
    requires '\n' !in tag && n + |value| < |text| && text[n + |value|] == '\n'
    requires i <= n + |value| && At(text, tag, i)
    ensures i + |tag| <= n + |value|
  {
    if i + |tag| > n + |value| { NoTagOver(text, tag, i, n + |value|); }
  }

  lemma ContainsAt(s: string, sub: string, i: nat)
    requires At(s, sub, i)
    ensures Contains(s, sub)
  {
  }

  lemma WhereContained(s: string, sub: string) returns (i: nat)
    requires Contains(s, sub)
    ensures At(s, sub, i) && i + |sub| <= |s|
  {
    i :| i <= |s| && At(s, sub, i);
  }

  // ---- round trip ----

  const MIDDLE := "</frontmatter>\n<body>"

  lemma FormattedFront(f: string, b: string)
    ensures var text, m := FormatTaggedDocument(f, b), 14 + |f|;
            && |text| == m + 31 + |b| && At(text, FRONT_START, 0)
            && text[13] == '\n' && text[14..m] == f && text[m] == '\n' && text[13..m + 1] == "\n" + f + "\n"
            && At(text, FRONT_END, m + 1)
  {
  }

  lemma FormattedBody(f: string, b: string)
    ensures var text, m := FormatTaggedDocument(f, b), 14 + |f|;
            && |text| == m + 31 + |b|
            && text[m + 1..m + 22] == MIDDLE
            && text[m + 22] == '\n' && text[m + 23..m + 23 + |b|] == b && text[m + 23 + |b|] == '\n'
            && text[m + 22..m + 24 + |b|] == "\n" + b + "\n"
            && At(text, BODY_END, m + 24 + |b|)
  {
  }

  lemma MiddleChars(j: nat)
    requires j < 15
    ensures MIDDLE[j] != BODY_START[0] || MIDDLE[j + 1] != BODY_START[1]
  {
  }

  lemma NoBodyTagBefore(text: string, p: nat, i: nat)
    requires p + |MIDDLE| <= |text| && text[p..p + |MIDDLE|] == MIDDLE && p <= i < p + 15
    ensures !At(text, BODY_START, i)
  {
    MiddleChars(i - p);
    AtChars(text, BODY_START, i);
    var middle := text[p..p + |MIDDLE|];
    assert text[i] == middle[i - p] && text[i + 1] == middle[i - p + 1];
  }

  lemma BodyTagAfter(text: string, p: nat)
    requires p + |MIDDLE| <= |text| && text[p..p + |MIDDLE|] == MIDDLE
    ensures IndexFrom(text, BODY_START, p) == Some(p + 15)
  {
    assert text[p + 15..p + 21] == text[p..p + 21][15..] == BODY_START;
    forall i: nat | p <= i < p + 15 ensures !At(text, BODY_START, i) {
      NoBodyTagBefore(text, p, i);
    }
    FirstAt(text, BODY_START, p, p + 15);
  }

  lemma TrimBetween(value: string)
    ensures TrimTagNewlines("\n" + value + "\n") == value
  {
    assert ("\n" + value + "\n")[1..] == value + "\n";
  }

  /** Cut short, the value comes out shorter. */
  lemma TrimShort(text: string, n: nat, cut: nat)
    requires 0 < n <= cut <= |text| && text[n - 1] == '\n'
    ensures |TrimTagNewlines(text[n - 1..cut])| <= cut - n
  {
  }

  /** Parsing, given where the tags are found. */
  lemma SectionsAt(text: string, fs: string, fe: string, bs: string, be: string, frontEnd: nat, body: nat, bodyEnd: nat)
    requires IndexFrom(text, fs, 0) == Some(0) && |fs| <= frontEnd <= body
    requires body + |bs| <= bodyEnd && bodyEnd + |be| <= |text|
    requires IndexFrom(text, fe, |fs|) == Some(frontEnd)
    requires IndexFrom(text, bs, frontEnd) == Some(body)
    requires IndexFrom(text, be, body + |bs|) == Some(bodyEnd)
    ensures Sections(text, fs, fe, bs, be) ==
            if !GoBlank(text[bodyEnd + |be|..]) then Unexpected
            else Document(TrimTagNewlines(text[|fs|..frontEnd]), TrimTagNewlines(text[body + |bs|..bodyEnd]))
  {
    EmptyIsBlank();
    hide IndexFrom, TrimTagNewlines, At, GoBlank;
    assert text[..0] == "";
  }

  lemma SectionsFront(text: string, fs: string, fe: string, bs: string, be: string, frontEnd: nat)
    requires IndexFrom(text, fs, 0) == Some(0) && |fs| <= frontEnd <= |text|
    requires IndexFrom(text, fe, |fs|) == Some(frontEnd)
    ensures var r := Sections(text, fs, fe, bs, be);
            r.Document? ==> r.frontMatter == TrimTagNewlines(text[|fs|..frontEnd])
  {
    hide IndexFrom, TrimTagNewlines, At, GoBlank;
  }

  lemma FrontEndFound(f: string, b: string) returns (frontEnd: nat)
    ensures var text := FormatTaggedDocument(f, b);
            && IndexFrom(text, FRONT_START, 0) == Some(0) && IndexFrom(text, FRONT_END, 13) == Some(frontEnd)
            && 14 <= frontEnd <= 15 + |f| <= |text| && text[13] == '\n'
            && (frontEnd == 15 + |f| <==> !Contains(f, FRONT_END))
            && (Contains(f, FRONT_END) ==> frontEnd < 14 + |f|)
  {
    var text := FormatTaggedDocument(f, b);
    FormattedFront(f, b);
    hide FormatTaggedDocument, Contains;
    FirstAt(text, FRONT_START, 0, 0);
    hide IndexFrom, At;
    TagAfterValue(text, 14, f, FRONT_END);
    frontEnd := IndexFrom(text, FRONT_END, 13).value;
  }

  lemma BodyEndFound(f: string, b: string) returns (bodyEnd: nat)
    ensures var text, n := FormatTaggedDocument(f, b), 37 + |f|;
            && IndexFrom(text, BODY_START, n - 22) == Some(n - 7) && IndexFrom(text, BODY_END, n - 1) == Some(bodyEnd)
            && n <= bodyEnd <= n + |b| + 1 && n + |b| + 8 == |text| && text[n - 1] == '\n'
            && (bodyEnd == n + |b| + 1 <==> !Contains(b, BODY_END))
            && (Contains(b, BODY_END) ==> bodyEnd < n + |b|)
  {
    var text, n := FormatTaggedDocument(f, b), 37 + |f|;
    FormattedBody(f, b);
    hide FormatTaggedDocument, Contains, IndexFrom, At;
    BodyTagAfter(text, n - 22);
    TagAfterValue(text, n, b, BODY_END);
    bodyEnd := IndexFrom(text, BODY_END, n - 1).value;
  }

  lemma ParseFormatted(f: string, b: string)
    requires !Contains(f, FRONT_END)
    ensures var r := Parse(FormatTaggedDocument(f, b));
            && (!Contains(b, BODY_END) ==> r == Document(f, b))
            && (Contains(b, BODY_END) ==> r.Document? ==> |r.body| < |b|)
  {
    var text, n := FormatTaggedDocument(f, b), 37 + |f|;
    var frontEnd := FrontEndFound(f, b);
    var bodyEnd := BodyEndFound(f, b);
    FormattedFront(f, b);
    FormattedBody(f, b);
    hide FormatTaggedDocument, Contains, IndexFrom, At, Sections, TrimTagNewlines, GoBlank;
    SectionsAt(text, FRONT_START, FRONT_END, BODY_START, BODY_END, frontEnd, n - 7, bodyEnd);
    TrimBetween(f);
    TrimBetween(b);
    TrimShort(text, n, bodyEnd);
    EmptyIsBlank();
    assert text[|text|..] == "";
  }

  lemma EmptyIsBlank()
    ensures GoBlank("")
  {
  }

  /** The front matter is cut at an end tag of its own, whatever follows. */
  lemma FrontCutShort(f: string, b: string)
    requires Contains(f, FRONT_END)
    ensures var r := Parse(FormatTaggedDocument(f, b)); r.Document? ==> |r.frontMatter| < |f|
  {
    var text := FormatTaggedDocument(f, b);
    var frontEnd := FrontEndFound(f, b);
    hide FormatTaggedDocument, Contains, IndexFrom, TrimTagNewlines, GoBlank, Sections;
    TrimShort(text, 14, frontEnd);
    SectionsFront(text, FRONT_START, FRONT_END, BODY_START, BODY_END, frontEnd);
  }

  /** A formatted document is parsed back exactly when neither part contains
      its own end tag. */
  lemma DocumentRoundTrip(f: string, b: string)
    ensures Parse(FormatTaggedDocument(f, b)) == Document(f, b) <==> !Contains(f, FRONT_END) && !Contains(b, BODY_END)
  {
    hide Parse, FormatTaggedDocument, Contains;
    if Contains(f, FRONT_END) { FrontCutShort(f, b); } else { ParseFormatted(f, b); }
  }

  // ---- front matter ----

  predicate Fence(line: string) { Trim(line, UnicodeSpace) == "---" }

  /** The first closing fence after the first line. */
  function ClosingFence(lines: seq<string>, from: nat): (r: Option<nat>)
    ensures r.None? ==> forall i | from <= i < |lines| :: !Fence(lines[i])
    ensures r.Some? ==> from <= r.value < |lines| && Fence(lines[r.value])
    ensures r.Some? ==> forall i | from <= i < r.value :: !Fence(lines[i])
    decreases |lines| - from
  {
    if from >= |lines| then None
    else if Fence(lines[from]) then Some(from)
    else ClosingFence(lines, from + 1)
  }

  function JoinAll(lines: seq<string>): string { if lines == [] then "" else Join(lines, '\n') }

  datatype Page = Page(front: string, body: string)

  function SplitPage(content: string): Page {
    var lines := Split(content, '\n');
    var end := ClosingFence(lines, 1);
    if !("---" <= content) || |lines| < 2 || end.None? then Page("", content)
    else
      var body := JoinAll(lines[end.value + 1..]);
      Page(JoinAll(lines[1..end.value]), if "\n" <= body then body[1..] else body)
  }

  method SplitFrontMatter(content: string) returns (front: string, body: string)
    ensures Page(front, body) == SplitPage(content)
  {
    hide Split, Join, Fence;
    if !("---" <= content) {
      return "", content;
    }
    var lines := Split(content, '\n');
    if |lines| < 2 {
      return "", content;
    }
    var endIndex := -1;
    var i := 1;
    while i < |lines|
      invariant 1 <= i <= |lines|
      invariant endIndex == -1 && ClosingFence(lines, 1) == ClosingFence(lines, i)
    {
      if Fence(lines[i]) {
        endIndex := i;
        break;
      }
      i := i + 1;
    }
    if endIndex == -1 {
      return "", content;
    }
    front := JoinAll(lines[1..endIndex]);
    body := JoinAll(lines[endIndex + 1..]);
    if "\n" <= body {
      body := body[1..];
    }
  }

  /** The shape written for a page: fences around the encoded front matter. */
  function WritePage(encoded: string, body: string): string { "---\n" + encoded + "---\n\n" + body }

  /** No line of the encoded front matter is a fence. */
  predicate Unfenced(front: string) { forall i | 0 <= i < |Split(front, '\n')| :: !Fence(Split(front, '\n')[i]) }

  lemma PageLines(front: string, body: string)
    ensures Split(WritePage(front + "\n", body), '\n') == ["---"] + Split(front, '\n') + ["---", ""] + Split(body, '\n')
  {
    hide Split;
    var rest := "" + ['\n'] + body;
    var tail := "---" + ['\n'] + rest;
    var all := "---" + ['\n'] + (front + ['\n'] + tail);
    assert WritePage(front + "\n", body) == all by {
      assert rest == "\n" + body;
      assert tail == "---\n\n" + body;
    }
    SplitFree("---", '\n');
    SplitFree("", '\n');
    SplitAtSeparator("---", '\n', front + ['\n'] + tail);
    SplitAtSeparator(front, '\n', tail);
    SplitAtSeparator("---", '\n', rest);
    SplitAtSeparator("", '\n', body);
  }

  lemma FenceIs()
    ensures Fence("---") && !Fence("")
  {
  }

  /** Joined lines grow with every further line. */
  lemma JoinLonger(lines: seq<string>, k: nat)
    requires 0 < k < |lines|
    ensures |Join(lines[..k], '\n')| < |Join(lines, '\n')|
  {
    JoinAppend(lines[..k], lines[k..], '\n');
    assert lines[..k] + lines[k..] == lines;
    hide Join;
  }

  lemma CutFrontDiffers(front: string, k: nat)
    requires k < |Split(front, '\n')| && Fence(Split(front, '\n')[k])
    ensures JoinAll(Split(front, '\n')[..k]) != front
  {
    var lines := Split(front, '\n');
    JoinOfSplit(front, '\n');
    if k == 0 {
      FenceIs();
      hide Fence;
      assert front != "";
    } else {
      JoinLonger(lines, k);
      hide Join, Split, Fence;
    }
  }

  lemma ClosingIs(lines: seq<string>, from: nat, end: nat)
    requires from <= end < |lines| && Fence(lines[end]) && forall i | from <= i < end :: !Fence(lines[i])
    ensures ClosingFence(lines, from) == Some(end)
  {
    hide Fence;
  }

  /** The body is what follows the blank line. */
  lemma BodyAfterBlank(body: string)
    ensures JoinAll([""] + Split(body, '\n')) == "\n" + body
  {
    JoinOfSplit(body, '\n');
    var lines := [""] + Split(body, '\n');
    assert lines[1..] == Split(body, '\n');
    assert Join(lines, '\n') == "" + ['\n'] + body;
  }

  lemma WrittenStart(encoded: string, body: string)
    ensures "---" <= WritePage(encoded, body)
  {
    assert WritePage(encoded, body)[..3] == "---";
  }

  lemma SplitAtFence(front: string, body: string, end: nat)
    requires var lines := ["---"] + Split(front, '\n') + ["---", ""] + Split(body, '\n');
             1 <= end < |lines| && ClosingFence(lines, 1) == Some(end)
    ensures var lines := ["---"] + Split(front, '\n') + ["---", ""] + Split(body, '\n');
            var rest := JoinAll(lines[end + 1..]);
            SplitPage(WritePage(front + "\n", body))
                == Page(JoinAll(lines[1..end]), if "\n" <= rest then rest[1..] else rest)
  {
    PageLines(front, body);
    WrittenStart(front + "\n", body);
    hide Split, JoinAll, WritePage, Fence;
  }

  lemma UnfencedRoundTrip(front: string, body: string)
    requires Unfenced(front)
    ensures SplitPage(WritePage(front + "\n", body)) == Page(front, body)
  {
    var f, rest := Split(front, '\n'), Split(body, '\n');
    var lines := ["---"] + f + ["---", ""] + rest;
    FenceIs();
    JoinOfSplit(front, '\n');
    BodyAfterBlank(body);
    hide Fence, Split, Join, WritePage, SplitPage;
    assert lines[|f| + 1] == "---" && forall i | 1 <= i <= |f| :: lines[i] == f[i - 1];
    ClosingIs(lines, 1, |f| + 1);
    SplitAtFence(front, body, |f| + 1);
    assert lines[1..|f| + 1] == f && lines[|f| + 2..] == [""] + rest;
  }

  lemma FencedCut(front: string, body: string)
    requires !Unfenced(front)
    ensures SplitPage(WritePage(front + "\n", body)).front != front
  {
    var f := Split(front, '\n');
    var lines := ["---"] + f + ["---", ""] + Split(body, '\n');
    hide Fence, Split, JoinAll, WritePage, SplitPage;
    var end := FirstFence(lines, f);
    SplitAtFence(front, body, end);
    assert lines[1..end] == f[..end - 1];
    CutFrontDiffers(front, end - 1);
  }

  /** A written page is split into what was written exactly when no line of
      the front matter reads like a fence. */
  lemma PageRoundTrip(front: string, body: string)
    ensures SplitPage(WritePage(front + "\n", body)) == Page(front, body) <==> Unfenced(front)
  {
    hide SplitPage, WritePage, Unfenced;
    if Unfenced(front) { UnfencedRoundTrip(front, body); } else { FencedCut(front, body); }
  }

  lemma FirstFence(lines: seq<string>, f: seq<string>) returns (end: nat)
    requires |lines| > |f| && forall i | 1 <= i <= |f| :: lines[i] == f[i - 1]
    requires exists i :: 0 <= i < |f| && Fence(f[i])
    ensures 1 <= end <= |f| && Fence(f[end - 1]) && ClosingFence(lines, 1) == Some(end)
  {
    hide Fence;
    var i :| 0 <= i < |f| && Fence(f[i]);
    assert Fence(lines[i + 1]);
    end := ClosingFence(lines, 1).value;
  }
}
