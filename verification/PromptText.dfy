/** Extracting the text of a prompt under a byte limit
    (src/acp/event-mapper.ts). */
module PromptText {
  import opened Text
  import opened Utf16

  type Byte = n: nat | n < 0x100

  /** The UTF-8 bytes of a code point (RFC 3629, section 3). */
  function Utf8(c: nat): seq<Byte>
    requires c < 0x110000
    ensures 1 <= |Utf8(c)| <= 4
  {
    if c < 0x80 then [c]
    else if c < 0x800 then [0xC0 + c / 0x40, 0x80 + c % 0x40]
    else if c < 0x10000 then [0xE0 + c / 0x1000, 0x80 + c / 0x40 % 0x40, 0x80 + c % 0x40]
    else [0xF0 + c / 0x40000, 0x80 + c / 0x1000 % 0x40, 0x80 + c / 0x40 % 0x40, 0x80 + c % 0x40]
  }

  predicate CodePoints(cs: seq<nat>) { forall i | 0 <= i < |cs| :: cs[i] < 0x110000 }

  function Encode(cs: seq<nat>): seq<Byte>
    requires CodePoints(cs)
  {
    if cs == [] then [] else Utf8(cs[0]) + Encode(cs[1..])
  }

  lemma {:induction false} ScalarsAreCodePoints(s: Units)
    ensures CodePoints(Scalars(s))
  {
    if s == [] {
    } else {
      ScalarsAreCodePoints(s[FirstSize(s)..]);
    }
  }

  /** `Buffer.byteLength(s, "utf-8")`. */
  function ByteLength(s: Units): nat {
    ScalarsAreCodePoints(s);
    |Encode(Scalars(s))|
  }

  lemma {:induction false} EncodeConcat(x: seq<nat>, y: seq<nat>)
    requires CodePoints(x) && CodePoints(y)
    ensures Encode(x + y) == Encode(x) + Encode(y)
  {
    hide Utf8;
    if x == [] {
      assert x + y == y;
    } else {
      assert (x + y)[1..] == x[1..] + y;
      EncodeConcat(x[1..], y);
    }
  }

  /** Lengths add up where no pair is cut. */
  lemma ByteLengthCut(a: Units, b: Units)
    requires !Splits(a + b, |a|)
    ensures ByteLength(a + b) == ByteLength(a) + ByteLength(b)
  {
    ScalarsCut(a, b);
    ScalarsAreCodePoints(a);
    ScalarsAreCodePoints(b);
    EncodeConcat(Scalars(a), Scalars(b));
    hide Scalars, Encode;
  }

  lemma LoneScalar(u: Unit)
    requires High(u) || Low(u)
    ensures Scalars([u]) == [REPLACEMENT]
  {
    assert [u][FirstSize([u])..] == [];
  }

  lemma PairScalar(high: Unit, low: Unit)
    requires High(high) && Low(low)
    ensures |Scalars([high, low])| == 1 && 0x10000 <= Scalars([high, low])[0] < 0x110000
  {
    assert [high, low][FirstSize([high, low])..] == [];
  }

  /** Across a pair they do not: two halves count three bytes each, the pair four. */
  lemma ByteLengthAcrossPair(high: Unit, low: Unit)
    requires High(high) && Low(low)
    ensures ByteLength([high]) == 3 && ByteLength([low]) == 3 && ByteLength([high] + [low]) == 4
  {
    assert [high] + [low] == [high, low];
    LoneScalar(high);
    LoneScalar(low);
    PairScalar(high, low);
    EncodeOne(REPLACEMENT);
    EncodeOne(Scalars([high, low])[0]);
    assert Scalars([high, low]) == [Scalars([high, low])[0]];
    hide Scalars, Encode;
  }

  lemma EncodeOne(c: nat)
    requires c < 0x110000
    ensures Encode([c]) == Utf8(c)
  {
    assert [c][1..] == [];
  }

  const NEWLINE: Unit := 10

  lemma NewlineIsOneByte()
    ensures ByteLength([NEWLINE]) == 1 && ByteLength([]) == 0
  {
    assert Scalars([NEWLINE]) == [NEWLINE];
    EncodeOne(NEWLINE);
  }

  function JoinLines(parts: seq<Units>): Units {
    if parts == [] then []
    else if |parts| == 1 then parts[0]
    else JoinLines(parts[..|parts| - 1]) + [NEWLINE] + parts[|parts| - 1]
  }

  /** The running total grows by what the join grows by. */
  lemma JoinGrows(parts: seq<Units>, part: Units)
    ensures ByteLength(JoinLines(parts + [part]))
         == ByteLength(JoinLines(parts)) + (if |parts| > 0 then 1 else 0) + ByteLength(part)
  {
    NewlineIsOneByte();
    hide ByteLength;
    if parts == [] {
      assert parts + [part] == [part];
    } else {
      assert (parts + [part])[..|parts|] == parts;
      var before := JoinLines(parts);
      ByteLengthCut(before, [NEWLINE]);
      ByteLengthCut(before + [NEWLINE], part);
    }
  }

  lemma {:induction false} JoinMonotone(parts: seq<Units>, more: seq<Units>)
    ensures ByteLength(JoinLines(parts)) <= ByteLength(JoinLines(parts + more))
  {
    hide ByteLength, JoinLines;
    if more == [] {
      assert parts + more == parts;
    } else {
      var n := |more| - 1;
      JoinMonotone(parts, more[..n]);
      assert parts + more == (parts + more[..n]) + [more[n]];
      JoinGrows(parts + more[..n], more[n]);
    }
  }

  // ---- the prompt ----

  /** Titles and addresses are already escaped; an absent one is empty. */
  datatype Block =
    | TextBlock(text: Units)
    | Resource(body: Option<Units>)
    | ResourceLink(title: Units, uri: Units)
    | OtherBlock

  /** "[Resource link", "(" after a space, ")" and "]". */
  const LINK_OPEN: Units := [91, 82, 101, 115, 111, 117, 114, 99, 101, 32, 108, 105, 110, 107]
  const TITLE_OPEN: Units := [32, 40]
  const TITLE_CLOSE: Units := [41]
  const LINK_CLOSE: Units := [93]
  const SPACE: Units := [32]

  function LinkText(title: Units, uri: Units): Units {
    var shown := if title == [] then [] else TITLE_OPEN + title + TITLE_CLOSE;
    LINK_OPEN + shown + LINK_CLOSE + if uri == [] then [] else SPACE + uri
  }

  function BlockText(b: Block): Option<Units> {
    match b
    case TextBlock(text) => Some(text)
    case Resource(body) => if body == Some([]) then None else body
    case ResourceLink(title, uri) => Some(LinkText(title, uri))
    case OtherBlock => None
  }

  function Texts(prompt: seq<Block>): seq<Units> {
    if prompt == [] then []
    else
      var n := |prompt| - 1;
      Texts(prompt[..n]) + if BlockText(prompt[n]).Some? then [BlockText(prompt[n]).value] else []
  }

  lemma {:induction false} TextsPrefix(prompt: seq<Block>, i: nat) returns (rest: seq<Units>)
    requires i <= |prompt|
    ensures Texts(prompt) == Texts(prompt[..i]) + rest
  {
    hide BlockText;
    if i == |prompt| {
      assert prompt[..i] == prompt;
      rest := [];
    } else {
      var n := |prompt| - 1;
      var middle := TextsPrefix(prompt[..n], i);
      assert prompt[..n][..i] == prompt[..i];
      rest := middle + if BlockText(prompt[n]).Some? then [BlockText(prompt[n]).value] else [];
    }
  }

  datatype Extracted = Ok(text: Units) | TooLarge

  /** Some text is there, and all of it takes more bytes than allowed. */
  predicate Oversized(prompt: seq<Block>, maxBytes: Option<int>) {
    maxBytes.Some? && Texts(prompt) != [] && ByteLength(JoinLines(Texts(prompt))) > maxBytes.value
  }

  method ExtractTextFromPrompt(prompt: seq<Block>, maxBytes: Option<int>) returns (r: Extracted)
    ensures r.TooLarge? <==> Oversized(prompt, maxBytes)
    ensures r.Ok? ==> r.text == JoinLines(Texts(prompt))
  {
    hide ByteLength, JoinLines, BlockText;
    var parts: seq<Units> := [];
    var totalBytes := 0;
    EmptyIsNoBytes();
    for i := 0 to |prompt|
      invariant parts == Texts(prompt[..i])
      invariant maxBytes.Some? ==> totalBytes == ByteLength(JoinLines(parts))
      invariant maxBytes.Some? && parts != [] ==> totalBytes <= maxBytes.value
    {
      assert prompt[..i + 1][..i] == prompt[..i];
      var blockText := BlockText(prompt[i]);
      if blockText.Some? {
        JoinGrows(parts, blockText.value);
        if maxBytes.Some? {
          var separatorBytes := if |parts| > 0 then 1 else 0;
          totalBytes := totalBytes + separatorBytes + ByteLength(blockText.value);
          if totalBytes > maxBytes.value {
            ghost var rest := TextsPrefix(prompt, i + 1);
            JoinMonotone(parts + [blockText.value], rest);
            return TooLarge;
          }
        }
        parts := parts + [blockText.value];
      }
    }
    assert prompt[..|prompt|] == prompt;
    return Ok(JoinLines(parts));
  }

  lemma EmptyIsNoBytes()
    ensures ByteLength(JoinLines([])) == 0
  {
  }

  /** The limit is on the joined text, but for an empty prompt under a negative
      limit, which is accepted. */
  lemma LimitIff(prompt: seq<Block>, limit: int)
    ensures (Oversized(prompt, Some(limit)) <==> ByteLength(JoinLines(Texts(prompt))) > limit)
            <==> Texts(prompt) != [] || limit >= 0
  {
    EmptyIsNoBytes();
    hide ByteLength, JoinLines, Texts;
  }

  // ---- the parts ----

  /** A unit takes one byte, two, or three when it is no half of a pair. */
  lemma ByteLengthOfUnit(u: Unit)
    ensures ByteLength([u]) == if u < 0x80 then 1 else if u < 0x800 then 2 else 3
  {
    if High(u) || Low(u) {
      LoneScalar(u);
      EncodeOne(REPLACEMENT);
    } else {
      assert [u][FirstSize([u])..] == [];
      assert Scalars([u]) == [u];
      EncodeOne(u);
    }
    hide Encode;
  }

  /** Every text block is a part, also an empty one; of a resource just a text that
      is not empty; a link is announced with its title and its address, if any. */
  lemma PartsOf(prompt: seq<Block>, b: Block)
    ensures Texts(prompt + [b]) == Texts(prompt) +
            match b
            case TextBlock(text) => [text]
            case Resource(body) => if body.Some? && body.value != [] then [body.value] else []
            case ResourceLink(title, uri) =>
              [LINK_OPEN + (if title == [] then [] else [32, 40] + title + [41]) + [93]
               + if uri == [] then [] else [32] + uri]
            case OtherBlock => []
  {
    assert (prompt + [b])[..|prompt|] == prompt;
    assert Texts([]) == [];
  }

  lemma {:induction false} PartsConcat(a: seq<Block>, b: seq<Block>)
    ensures Texts(a + b) == Texts(a) + Texts(b)
  {
    hide BlockText;
    if b == [] {
      assert a + b == a;
    } else {
      var n := |b| - 1;
      assert (a + b)[..|a| + n] == a + b[..n];
      PartsConcat(a, b[..n]);
    }
  }

  /** Parts are joined in order, a line break between them. */
  lemma {:induction false} JoinLinesConcat(a: seq<Units>, b: seq<Units>)
    requires a != [] && b != []
    ensures JoinLines(a + b) == JoinLines(a) + [NEWLINE] + JoinLines(b)
  {
    var n := |b| - 1;
    assert (a + b)[..|a| + n] == a + b[..n];
    if n == 0 {
      assert a + b[..n] == a;
    } else {
      JoinLinesConcat(a, b[..n]);
    }
  }
}
