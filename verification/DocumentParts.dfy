/** The tagged document and the page once more, cut at the first occurrence of each
    tag or fence (scripts/docs-i18n/doc_mode.go, scripts/docs-i18n/process.go). */
module DocumentParts {
  import opened Text
  import opened TaggedDoc

  datatype Parts = Parts(before: string, after: string)

  /** The text before and behind the first occurrence of the tag. */
  function Cut(s: string, tag: string): (r: Option<Parts>)
    ensures r.None? <==> !Contains(s, tag)
    ensures r.Some? ==> s == r.value.before + tag + r.value.after
    ensures r.Some? ==> forall i: nat | i < |r.value.before| :: !At(s, tag, i)
  {
    var at := IndexFrom(s, tag, 0);
    if at.None? then None
    else
      CutIs(s, tag, at.value);
      Some(Parts(s[..at.value], s[at.value + |tag|..]))
  }

  lemma CutIs(s: string, tag: string, at: nat)
    requires At(s, tag, at)
    ensures at + |tag| <= |s| && s == s[..at] + tag + s[at + |tag|..]
  {
  }

  /** The four tags in order, each the first behind the one before it; only white
      space around the sections; each section without a line break at its ends. */
  function Reference(text: string): Parsed {
    var front := Cut(text, FRONT_START);
    if front.None? then Missing(FRONT_START)
    else
      var inner := Cut(front.value.after, FRONT_END);
      if inner.None? then Missing(FRONT_END)
      else
        var between := Cut(inner.value.after, BODY_START);
        if between.None? then Missing(BODY_START)
        else
          var body := Cut(between.value.after, BODY_END);
          if body.None? then Missing(BODY_END)
          else if GoBlank(front.value.before) && GoBlank(body.value.after) then
            Document(TrimTagNewlines(inner.value.before), TrimTagNewlines(body.value.before))
          else Unexpected
  }

  /** Searching behind `n` is searching the rest. */
  lemma IndexBehind(text: string, tag: string, n: nat)
    requires n <= |text|
    ensures var found, rest := IndexFrom(text, tag, n), IndexFrom(text[n..], tag, 0);
            (found.Some? <==> rest.Some?) && (found.Some? ==> found.value == n + rest.value)
  {
    hide IndexFrom;
    var found, rest := IndexFrom(text, tag, n), IndexFrom(text[n..], tag, 0);
    forall i: nat | i <= |text| - n ensures At(text, tag, n + i) <==> At(text[n..], tag, i) {
      AtChars(text, tag, n + i);
      AtChars(text[n..], tag, i);
    }
    if found.Some? {
      AtWithin(text, tag, found.value);
      assert At(text[n..], tag, found.value - n);
    }
    if rest.Some? {
      AtWithin(text[n..], tag, rest.value);
      assert At(text, tag, n + rest.value);
    }
  }

  lemma AtWithin(s: string, sub: string, i: nat)
    requires At(s, sub, i)
    ensures i + |sub| <= |s|
  {
  }

  /** No tag of the body begins within the end tag of the front matter. */
  lemma BodyBehindEnd(text: string, at: nat)
    requires At(text, FRONT_END, at)
    ensures at + |FRONT_END| <= |text|
    ensures IndexFrom(text, BODY_START, at) == IndexFrom(text, BODY_START, at + |FRONT_END|)
  {
    AtWithin(text, FRONT_END, at);
    forall i: nat | at <= i < at + |FRONT_END| ensures !At(text, BODY_START, i) {
      NotHere(text, at, i);
    }
    SkipTo(text, BODY_START, at, at + |FRONT_END|);
  }

  lemma NotHere(text: string, at: nat, i: nat)
    requires At(text, FRONT_END, at) && at <= i < at + |FRONT_END|
    ensures !At(text, BODY_START, i)
  {
    AtChars(text, FRONT_END, at);
    AtChars(text, BODY_START, i);
    EndTagChars(i - at);
    assert text[at + (i - at)] == FRONT_END[i - at] && text[at + 1] == FRONT_END[1];
    assert i == at ==> text[i + 1] == FRONT_END[1];
    assert text[i + 0] == FRONT_END[i - at];
  }

  lemma EndTagChars(j: nat)
    requires j < |FRONT_END|
    ensures FRONT_END[j] != BODY_START[0] || (j == 0 && FRONT_END[1] != BODY_START[1])
  {
  }

  lemma {:induction false} SkipTo(text: string, tag: string, from: nat, to: nat)
    requires from <= to <= |text|
    requires forall i: nat | from <= i < to :: !At(text, tag, i)
    ensures IndexFrom(text, tag, from) == IndexFrom(text, tag, to)
    decreases |text| - from
  {
    if from == to {
    } else {
      SkipTo(text, tag, from + 1, to);
    }
  }

  /** Cutting the rest is cutting the text, from where the search began. */
  lemma CutBehind(text: string, tag: string, n: nat)
    requires n <= |text|
    ensures var at := IndexFrom(text, tag, n);
            && (at.None? ==> Cut(text[n..], tag) == None)
            && (at.Some? ==>
                  && at.value + |tag| <= |text|
                  && Cut(text[n..], tag) == Some(Parts(text[n..at.value], text[at.value + |tag|..])))
  {
    IndexBehind(text, tag, n);
    hide IndexFrom, At, Contains, Cut;
    var at, there := IndexFrom(text, tag, n), IndexFrom(text[n..], tag, 0);
    if at.Some? {
      SameParts(text, tag, n, at.value, there.value);
      CutAt(text[n..], tag, there.value);
    } else {
      CutNowhere(text[n..], tag);
    }
  }

  lemma CutNowhere(s: string, tag: string)
    requires IndexFrom(s, tag, 0).None?
    ensures Cut(s, tag) == None
  {
    hide IndexFrom, Contains, At;
  }

  lemma CutAt(s: string, tag: string, at: nat)
    requires IndexFrom(s, tag, 0) == Some(at)
    ensures at + |tag| <= |s| && Cut(s, tag) == Some(Parts(s[..at], s[at + |tag|..]))
  {
    AtWithin(s, tag, at);
    hide IndexFrom, Contains, At;
  }

  lemma SameParts(text: string, tag: string, n: nat, at: nat, there: nat)
    requires At(text, tag, at) && n <= at && at == n + there
    ensures at + |tag| <= |text| && there + |tag| <= |text[n..]|
    ensures text[n..][..there] == text[n..at] && text[n..][there + |tag|..] == text[at + |tag|..]
  {
    hide At;
    AtWithin(text, tag, at);
    DropTake(text, n, at);
    DropDrop(text, n, at + |tag|);
  }

  /** Parsing is cutting at the tags. */
  lemma ParseIsReference(text: string)
    ensures Parse(text) == Reference(text)
  {
    hide IndexFrom, TrimTagNewlines, GoBlank, At, Contains, Cut;
    assert text[0..] == text;
    CutBehind(text, FRONT_START, 0);
    var front := IndexFrom(text, FRONT_START, 0);
    if front.Some? {
      assert text[0..front.value] == text[..front.value];
      var n := front.value + |FRONT_START|;
      CutBehind(text, FRONT_END, n);
      var end := IndexFrom(text, FRONT_END, n);
      if end.Some? {
        BodyBehindEnd(text, end.value);
        var m := end.value + |FRONT_END|;
        CutBehind(text, BODY_START, m);
        var start := IndexFrom(text, BODY_START, m);
        if start.Some? { CutBehind(text, BODY_END, start.value + |BODY_START|); }
      }
    }
  }

  lemma DropDrop(s: string, m: nat, k: nat)
    requires m <= k <= |s|
    ensures s[m..][k - m..] == s[k..]
  {
  }

  lemma DropTake(s: string, m: nat, k: nat)
    requires m <= k <= |s|
    ensures s[m..k] == s[m..][..k - m]
  {
  }

  // ---- fences ----

  predicate AllSpace(s: string) { forall i | 0 <= i < |s| :: UnicodeSpace(s[i]) }

  lemma {:induction false} TrimmedInFront(s: string) returns (a: string)
    ensures s == a + TrimLeft(s, UnicodeSpace) && AllSpace(a)
  {
    if s != "" && UnicodeSpace(s[0]) {
      var b := TrimmedInFront(s[1..]);
      a := [s[0]] + b;
      hide UnicodeSpace;
      assert s == [s[0]] + s[1..];
    } else {
      a := "";
    }
  }

  lemma {:induction false} TrimmedBehind(s: string) returns (b: string)
    ensures s == TrimRight(s, UnicodeSpace) + b && AllSpace(b)
  {
    if s != "" && UnicodeSpace(s[|s| - 1]) {
      var a := TrimmedBehind(s[..|s| - 1]);
      b := a + [s[|s| - 1]];
      hide UnicodeSpace;
      assert s == s[..|s| - 1] + [s[|s| - 1]];
    } else {
      b := "";
    }
  }

  lemma {:induction false} TrimsInFront(a: string, s: string)
    requires AllSpace(a) && (s == "" || !UnicodeSpace(s[0]))
    ensures TrimLeft(a + s, UnicodeSpace) == s
  {
    hide UnicodeSpace;
    if a == "" {
      assert a + s == s;
    } else {
      assert (a + s)[1..] == a[1..] + s;
      TrimsInFront(a[1..], s);
    }
  }

  lemma {:induction false} TrimsBehind(s: string, b: string)
    requires AllSpace(b) && (s == "" || !UnicodeSpace(s[|s| - 1]))
    ensures TrimRight(s + b, UnicodeSpace) == s
  {
    hide UnicodeSpace;
    if b == "" {
      assert s + b == s;
    } else {
      assert (s + b)[..|s + b| - 1] == s + b[..|b| - 1];
      TrimsBehind(s, b[..|b| - 1]);
    }
  }

  /** A fence is three dashes with white space around them. */
  lemma FenceIff(line: string)
    ensures Fence(line) <==> exists a, b :: AllSpace(a) && AllSpace(b) && line == a + ("---" + b)
  {
    hide AllSpace;
    if Fence(line) {
      var a := TrimmedInFront(line);
      var b := TrimmedBehind(TrimLeft(line, UnicodeSpace));
    }
    if a, b :| AllSpace(a) && AllSpace(b) && line == a + ("---" + b) {
      TrimsInFront(a, "---" + b);
      TrimsBehind("---", b);
    }
  }

  // ---- pages ----

  /** A page: a first line that begins with three dashes, front matter without a
      fence, a fence; one line break of what follows is dropped. */
  lemma PageSplits(open: string, front: string, fence: string, rest: string)
    requires "---" <= open && '\n' !in open && '\n' !in fence && Fence(fence) && Unfenced(front)
    ensures SplitPage(open + "\n" + front + "\n" + fence + "\n" + rest)
         == Page(front, if "\n" <= rest then rest[1..] else rest)
  {
    var content := open + "\n" + front + "\n" + fence + "\n" + rest;
    var f, r := Split(front, '\n'), Split(rest, '\n');
    PageLinesAre(open, front, fence, rest);
    assert content[..3] == "---" by { assert content[..|open|] == open; }
    hide Fence, Unfenced, Split, Join, SplitPage;
    LinesSplit(content, [open] + f + [fence] + r, f, front, fence, r);
    JoinOfSplit(front, '\n');
    JoinOfSplit(rest, '\n');
  }

  lemma LinesSplit(content: string, lines: seq<string>, f: seq<string>, front: string, fence: string, r: seq<string>)
    requires "---" <= content && Split(content, '\n') == lines && f == Split(front, '\n') && |r| > 0
    requires |lines| == |f| + 2 + |r| && lines[1..|f| + 1] == f && lines[|f| + 1] == fence && lines[|f| + 2..] == r
    requires Fence(fence) && Unfenced(front)
    ensures var body := JoinAll(r);
            SplitPage(content) == Page(JoinAll(f), if "\n" <= body then body[1..] else body)
  {
    hide Fence, Unfenced, Split, JoinAll;
    FirstFenceIs(lines, f, front, fence);
  }

  lemma PageLinesAre(open: string, front: string, fence: string, rest: string)
    requires '\n' !in open && '\n' !in fence
    ensures Split(open + "\n" + front + "\n" + fence + "\n" + rest, '\n')
         == [open] + Split(front, '\n') + [fence] + Split(rest, '\n')
  {
    hide Split;
    var tail := fence + ['\n'] + rest;
    var all := open + ['\n'] + (front + ['\n'] + tail);
    assert open + "\n" + front + "\n" + fence + "\n" + rest == all;
    SplitFree(open, '\n');
    SplitFree(fence, '\n');
    SplitAtSeparator(open, '\n', front + ['\n'] + tail);
    SplitAtSeparator(front, '\n', tail);
    SplitAtSeparator(fence, '\n', rest);
  }

  lemma FirstFenceIs(lines: seq<string>, f: seq<string>, front: string, fence: string)
    requires |lines| > |f| + 1 && f == Split(front, '\n') && Unfenced(front) && Fence(fence)
    requires lines[1..|f| + 1] == f && lines[|f| + 1] == fence
    ensures ClosingFence(lines, 1) == Some(|f| + 1)
  {
    hide Fence, Split;
    assert forall i | 1 <= i <= |f| :: lines[i] == lines[1..|f| + 1][i - 1] == f[i - 1];
    ClosingIs(lines, 1, |f| + 1);
  }

  /** Without dashes at the start, or without a later fence, all is body. */
  lemma PageIsBody(content: string)
    requires var lines := Split(content, '\n');
             !("---" <= content) || forall i | 1 <= i < |lines| :: !Fence(lines[i])
    ensures SplitPage(content) == Page("", content)
  {
    hide Fence, Split;
    var end := ClosingFence(Split(content, '\n'), 1);
    assert end.Some? ==> Fence(Split(content, '\n')[end.value]);
  }
}
