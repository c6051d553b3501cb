/** Account ids, agent ids and session keys (src/routing/account-id.ts,
    src/routing/session-key.ts, src/sessions/session-key-utils.ts). */
module SessionKeys {
  import opened Text

  /** The characters `String.prototype.trim` removes. */
  predicate JsSpace(c: char) {
    || '\t' <= c <= '\r' || c == ' '
    || c == 0xA0 as char || c == 0x1680 as char || 0x2000 as char <= c <= 0x200A as char
    || c == 0x2028 as char || c == 0x2029 as char || c == 0x202F as char || c == 0x205F as char
    || c == 0x3000 as char || c == 0xFEFF as char
  }

  function TrimJs(s: string): string { Trim(s, JsSpace) }

  function LowerChar(c: char): char { if 'A' <= c <= 'Z' then (c as int + 32) as char else c }

  function Lower(s: string): string { seq(|s|, i requires 0 <= i < |s| => LowerChar(s[i])) }

  predicate IdStart(c: char) { 'a' <= c <= 'z' || '0' <= c <= '9' }

  predicate IdChar(c: char) { IdStart(c) || c == '_' || c == '-' }

  predicate IdChars(s: string) { forall i | 0 <= i < |s| :: IdChar(s[i]) }

  /** A non-empty part of a key: no colon, no space, nothing to lower. */
  predicate Plain(s: string) { s != "" && IdChars(s) }

  predicate ValidId(s: string) {
    1 <= |s| <= 64 && IdStart(LowerChar(s[0])) && IdChars(Lower(s))
  }

  /** Each run of other characters becomes one dash. */
  function Dashed(s: string, inRun: bool): (r: string)
    ensures IdChars(r)
  {
    if s == "" then ""
    else if IdChar(s[0]) then [s[0]] + Dashed(s[1..], false)
    else (if inRun then "" else "-") + Dashed(s[1..], true)
  }

  predicate Dash(c: char) { c == '-' }

  function StripDashes(s: string): string { TrimRight(TrimLeft(s, Dash), Dash) }

  function Take64(s: string): string { if |s| <= 64 then s else s[..64] }

  function Canonicalize(value: string): string {
    if ValidId(value) then Lower(value) else Take64(StripDashes(Dashed(Lower(value), false)))
  }

  predicate BlockedKey(s: string) { s == "__proto__" || s == "prototype" || s == "constructor" }

  const DEFAULT_ACCOUNT_ID := "default"
  const DEFAULT_AGENT_ID := "main"

  function NormalizeAccountId(value: string): string {
    var trimmed := TrimJs(value);
    var canonical := Canonicalize(trimmed);
    if trimmed == "" || canonical == "" || BlockedKey(canonical) then DEFAULT_ACCOUNT_ID else canonical
  }

  function SanitizeAgentId(value: string): string {
    var trimmed := TrimJs(value);
    var canonical := Canonicalize(trimmed);
    if trimmed == "" || canonical == "" then DEFAULT_AGENT_ID else canonical
  }

  // ---- shape of normalized ids ----

  lemma {:induction false} TrimLeftParts(s: string, blank: char -> bool)
    ensures exists k :: 0 <= k <= |s| && TrimLeft(s, blank) == s[k..]
    ensures TrimLeft(s, blank) == "" || !blank(TrimLeft(s, blank)[0])
  {
    if s != "" && blank(s[0]) {
      TrimLeftParts(s[1..], blank);
      var k :| 0 <= k <= |s[1..]| && TrimLeft(s[1..], blank) == s[1..][k..];
      assert s[1..][k..] == s[k + 1..];
    } else {
      assert s[0..] == s;
    }
  }

  lemma {:induction false} TrimRightParts(s: string, blank: char -> bool)
    ensures exists k :: 0 <= k <= |s| && TrimRight(s, blank) == s[..k]
    ensures TrimRight(s, blank) == "" || !blank(TrimRight(s, blank)[|TrimRight(s, blank)| - 1])
  {
    if s != "" && blank(s[|s| - 1]) {
      TrimRightParts(s[..|s| - 1], blank);
      var k :| 0 <= k <= |s| - 1 && TrimRight(s[..|s| - 1], blank) == s[..|s| - 1][..k];
      assert s[..|s| - 1][..k] == s[..k];
    } else {
      assert s[..|s|] == s;
    }
  }

  lemma TrimSolid(s: string)
    requires s == "" || (!JsSpace(s[0]) && !JsSpace(s[|s| - 1]))
    ensures TrimJs(s) == s
  {
  }

  lemma TrimTwice(s: string)
    ensures TrimJs(TrimJs(s)) == TrimJs(s)
  {
    TrimLeftParts(s, JsSpace);
    TrimRightParts(TrimLeft(s, JsSpace), JsSpace);
    TrimSolid(TrimJs(s));
  }

  lemma TrimPlain(s: string)
    requires IdChars(s)
    ensures TrimJs(s) == s && Lower(s) == s
  {
  }

  lemma {:induction false} DashedPlain(s: string, inRun: bool)
    requires IdChars(s)
    ensures Dashed(s, inRun) == s
  {
    if s == "" {
    } else {
      DashedPlain(s[1..], false);
    }
  }

  lemma StripShape(s: string)
    requires IdChars(s)
    ensures IdChars(StripDashes(s))
    ensures StripDashes(s) != "" ==> StripDashes(s)[0] != '-' && StripDashes(s)[|StripDashes(s)| - 1] != '-'
  {
    TrimLeftParts(s, Dash);
    TrimRightParts(TrimLeft(s, Dash), Dash);
  }

  lemma CanonicalShape(v: string)
    ensures var r := Canonicalize(v);
            IdChars(r) && |r| <= 64 && (r != "" ==> r[0] != '-')
            && (r != "" && !IdStart(r[0]) && |r| < 64 ==> r[|r| - 1] != '-')
  {
    if !ValidId(v) { StripShape(Dashed(Lower(v), false)); }
  }

  lemma NormalizedIsPlain(v: string)
    ensures Plain(NormalizeAccountId(v)) && Plain(SanitizeAgentId(v))
  {
    CanonicalShape(TrimJs(v));
  }

  // ---- normalizing twice ----

  /** The cut after 64 characters leaves a dash at the end of an id that does
      not begin with a letter or digit. */
  predicate EndsInCutDash(n: string) { |n| == 64 && n[0] == '_' && n[63] == '-' }

  lemma CanonicalFixed(n: string)
    requires IdChars(n) && n != "" && |n| <= 64 && n[0] != '-'
    ensures IdStart(n[0]) || n[|n| - 1] != '-' ==> Canonicalize(n) == n
    ensures !IdStart(n[0]) && n[|n| - 1] == '-' ==> |Canonicalize(n)| < |n|
  {
    TrimPlain(n);
    DashedPlain(n, false);
    StripLast(n);
    hide Dashed, StripDashes;
  }

  lemma StripLast(n: string)
    requires n != "" && n[0] != '-'
    ensures n[|n| - 1] != '-' ==> StripDashes(n) == n
    ensures n[|n| - 1] == '-' ==> |StripDashes(n)| < |n|
  {
    assert TrimLeft(n, Dash) == n;
    TrimRightParts(n[..|n| - 1], Dash);
  }

  /** Normalizing an id a second time changes it in exactly one case. */
  lemma NormalizeTwice(v: string)
    ensures var n := NormalizeAccountId(v);
            NormalizeAccountId(n) == n <==> !EndsInCutDash(n)
  {
    var n := NormalizeAccountId(v);
    CanonicalShape(TrimJs(v));
    TrimPlain(n);
    CanonicalFixed(n);
  }

  /** The result of the second normalization is always stable. */
  lemma NormalizeThrice(v: string)
    ensures var m := NormalizeAccountId(NormalizeAccountId(v)); NormalizeAccountId(m) == m
  {
    var n := NormalizeAccountId(v);
    NormalizeTwice(v);
    NormalizeTwice(n);
    NormalizedIsPlain(v);
    if EndsInCutDash(n) { CutDashGoes(n); }
    hide NormalizeAccountId;
  }

  lemma CutDashGoes(n: string)
    requires IdChars(n) && EndsInCutDash(n)
    ensures |NormalizeAccountId(n)| < 64
  {
    TrimPlain(n);
    CanonicalFixed(n);
    hide Canonicalize;
  }

  /** Such ids exist: an underscore, 62 further characters, a dash, anything. */
  lemma LongIdIsUnstable(mid: string, last: char)
    requires |mid| == 62 && IdChars(mid) && IdStart(last)
    ensures NormalizeAccountId("_" + mid + "-" + [last]) == "_" + mid + "-"
    ensures EndsInCutDash("_" + mid + "-")
  {
    var v := "_" + mid + "-" + [last];
    TrimPlain(v);
    DashedPlain(v, false);
    assert TrimLeft(v, Dash) == v && TrimRight(v, Dash) == v;
    assert Canonicalize(v) == Take64(v) == "_" + mid + "-";
  }

  // ---- what an id becomes ----

  /** A letter or digit starts it, up to 64 of the plain characters: such an id is
      only lowered. Blank ids become the default. */
  lemma NormalizeKeepsValid(v: string)
    ensures TrimJs(v) == "" ==> NormalizeAccountId(v) == DEFAULT_ACCOUNT_ID && SanitizeAgentId(v) == DEFAULT_AGENT_ID
    ensures ValidId(TrimJs(v)) && Lower(TrimJs(v)) !in {"__proto__", "prototype", "constructor"} ==>
              NormalizeAccountId(v) == Lower(TrimJs(v))
    ensures ValidId(TrimJs(v)) ==> SanitizeAgentId(v) == Lower(TrimJs(v))
  {
    hide TrimJs, Dashed, StripDashes;
  }

  /** So do the names of object members. */
  lemma BlockedIsDefault(v: string)
    requires Lower(TrimJs(v)) in {"__proto__", "prototype", "constructor"}
    ensures NormalizeAccountId(v) == DEFAULT_ACCOUNT_ID
  {
    hide TrimJs, Dashed, StripDashes;
    var t := Lower(TrimJs(v));
    assert IdChars(t);
    DashedPlain(t, false);
    StripLast(t);
    assert |t| <= 64;
  }

  lemma {:induction false} LowerTwice(s: string)
    ensures Lower(Lower(s)) == Lower(s) && (ValidId(Lower(s)) <==> ValidId(s))
  {
    assert Lower(Lower(s)) == Lower(s);
  }

  /** Case and outer spaces do not matter. */
  lemma NormalizeIgnoresCase(v: string)
    ensures NormalizeAccountId(Lower(TrimJs(v))) == NormalizeAccountId(v)
  {
    LowerTwice(TrimJs(v));
    LowerKeepsSpaces(v);
    hide TrimJs, Dashed, StripDashes, BlockedKey, ValidId, Lower;
  }

  lemma LowerKeepsSpaces(v: string)
    ensures TrimJs(Lower(TrimJs(v))) == Lower(TrimJs(v)) && (Lower(TrimJs(v)) == "" <==> TrimJs(v) == "")
  {
    var t := TrimJs(v);
    TrimLeftParts(v, JsSpace);
    TrimRightParts(TrimLeft(v, JsSpace), JsSpace);
    if t != "" { assert !JsSpace(Lower(t)[0]) && !JsSpace(Lower(t)[|t| - 1]); }
    TrimSolid(Lower(t));
  }

  /** The characters that no dash stands for. */
  function Letters(s: string): string {
    if s == "" then ""
    else (if IdChar(s[0]) && s[0] != '-' then [s[0]] else "") + Letters(s[1..])
  }

  lemma {:induction false} LettersConcat(a: string, b: string)
    ensures Letters(a + b) == Letters(a) + Letters(b)
  {
    if a == "" {
      assert a + b == b;
    } else {
      assert (a + b)[1..] == a[1..] + b;
      LettersConcat(a[1..], b);
    }
  }

  lemma {:induction false} DashedLetters(s: string, inRun: bool)
    ensures Letters(Dashed(s, inRun)) == Letters(s)
    ensures '-' !in s ==> var d := Dashed(s, inRun);
            (inRun && d != "" ==> d[0] != '-') && forall i | 0 < i < |d| :: d[i - 1] != '-' || d[i] != '-'
  {
    if s == "" {
    } else {
      DashedLetters(s[1..], !IdChar(s[0]));
      LettersConcat(if IdChar(s[0]) then [s[0]] else if inRun then "" else "-", Dashed(s[1..], !IdChar(s[0])));
    }
  }

  lemma {:induction false} TrimLeftLetters(s: string)
    ensures Letters(TrimLeft(s, Dash)) == Letters(s)
  {
    if s != "" && Dash(s[0]) { TrimLeftLetters(s[1..]); }
  }

  lemma {:induction false} TrimRightLetters(s: string)
    ensures Letters(TrimRight(s, Dash)) == Letters(s)
  {
    if s != "" && Dash(s[|s| - 1]) {
      TrimRightLetters(s[..|s| - 1]);
      LettersConcat(s[..|s| - 1], [s[|s| - 1]]);
      assert s == s[..|s| - 1] + [s[|s| - 1]];
    }
  }

  lemma StripKeepsLetters(s: string)
    ensures Letters(StripDashes(s)) == Letters(s) && |StripDashes(s)| <= |s|
  {
    TrimLeftLetters(s);
    TrimRightLetters(TrimLeft(s, Dash));
    TrimLeftParts(s, Dash);
    TrimRightParts(TrimLeft(s, Dash), Dash);
  }

  lemma CanonicalLetters(v: string)
    requires |v| <= 64
    ensures Letters(Canonicalize(v)) == Letters(Lower(v))
  {
    hide ValidId, Dashed, StripDashes;
    DashedShort(Lower(v), false);
    DashedLetters(Lower(v), false);
    StripKeepsLetters(Dashed(Lower(v), false));
  }

  /** No letter, digit or underscore of a short id is lost or moved. */
  lemma NormalizeKeepsLetters(v: string)
    requires |TrimJs(v)| <= 64 && Letters(Lower(TrimJs(v))) != "" && !BlockedKey(Canonicalize(TrimJs(v)))
    ensures Letters(NormalizeAccountId(v)) == Letters(Lower(TrimJs(v)))
  {
    CanonicalLetters(TrimJs(v));
    hide TrimJs, Canonicalize;
  }

  lemma {:induction false} DashedShort(s: string, inRun: bool)
    ensures |Dashed(s, inRun)| <= |s|
  {
    if s == "" {
    } else {
      DashedShort(s[1..], !IdChar(s[0]));
    }
  }

  // ---- session keys ----

  datatype ParsedKey = ParsedKey(agentId: string, rest: string)

  function NonEmpty(parts: seq<string>): seq<string> {
    if parts == [] then []
    else (if parts[0] == "" then [] else [parts[0]]) + NonEmpty(parts[1..])
  }

  function ParseAgentSessionKey(key: string): Option<ParsedKey> {
    var raw := Lower(TrimJs(key));
    if raw == "" then None
    else
      var parts := NonEmpty(Split(raw, ':'));
      if |parts| < 3 || parts[0] != "agent" then None
      else
        var agentId, rest := TrimJs(parts[1]), Join(parts[2..], ':');
        if agentId == "" || rest == "" then None else Some(ParsedKey(agentId, rest))
  }

  datatype Channel = Discord | Telegram | Feishu

  function Name(ch: Channel): string {
    match ch
    case Discord => "discord"
    case Telegram => "telegram"
    case Feishu => "feishu"
  }

  function NormalizeChannel(value: string): Option<Channel> {
    var normalized := Lower(TrimJs(value));
    if normalized == "discord" then Some(Discord)
    else if normalized == "telegram" then Some(Telegram)
    else if normalized == "feishu" then Some(Feishu)
    else None
  }

  lemma ChannelName(ch: Channel)
    ensures Plain(Name(ch)) && NormalizeChannel(Name(ch)) == Some(ch)
  {
    TrimPlain(Name(ch));
  }

  /** Just the three names are recognized, in any case and with outer spaces. */
  lemma ChannelIff(value: string, ch: Channel)
    ensures NormalizeChannel(value) == Some(ch) <==> Lower(TrimJs(value)) == Name(ch)
  {
    assert Name(Discord)[0] != Name(Telegram)[0] && Name(Telegram)[0] != Name(Feishu)[0];
    assert Name(Discord)[0] != Name(Feishu)[0];
    hide TrimJs, Lower;
  }

  datatype KeyParts = KeyParts(channel: Channel, accountId: string)

  function ParseConfiguredKey(key: string): Option<KeyParts> {
    var parsed := ParseAgentSessionKey(key);
    if parsed.None? then None
    else
      var rest := Lower(TrimJs(parsed.value.rest));
      if rest == "" then None
      else
        var tokens := Split(rest, ':');
        if |tokens| != 5 || tokens[0] != "acp" || tokens[1] != "binding" then None
        else
          var channel := NormalizeChannel(tokens[2]);
          if channel.None? then None
          else Some(KeyParts(channel.value, NormalizeAccountId(tokens[3])))
  }

  /** The parts of the key of a configured binding. */
  function KeyTokens(agent: string, ch: Channel, account: string, hash: string): seq<string> {
    ["agent", agent, "acp", "binding", Name(ch), account, hash]
  }

  function MakeKey(agent: string, ch: Channel, account: string, hash: string): string {
    Join(KeyTokens(agent, ch, account, hash), ':')
  }

  predicate KeyChar(c: char) { IdChar(c) || c == ':' }

  lemma {:induction false} JoinChars(parts: seq<string>)
    requires |parts| >= 1 && forall i | 0 <= i < |parts| :: Plain(parts[i])
    ensures var s := Join(parts, ':');
            && s != "" && (forall i | 0 <= i < |s| :: KeyChar(s[i]))
            && IdChar(s[0]) && IdChar(s[|s| - 1])
  {
    if |parts| <= 1 {
    } else {
      JoinChars(parts[1..]);
    }
  }

  lemma KeyCharsFixed(s: string)
    requires s != "" && (forall i | 0 <= i < |s| :: KeyChar(s[i])) && IdChar(s[0]) && IdChar(s[|s| - 1])
    ensures TrimJs(s) == s && Lower(s) == s
  {
  }

  lemma {:induction false} AllNonEmpty(parts: seq<string>)
    requires forall i | 0 <= i < |parts| :: Plain(parts[i])
    ensures NonEmpty(parts) == parts
  {
    if parts == [] {
    } else {
      AllNonEmpty(parts[1..]);
    }
  }

  lemma SplitPlain(parts: seq<string>)
    requires |parts| >= 1 && forall i | 0 <= i < |parts| :: Plain(parts[i])
    ensures var s := Join(parts, ':');
            s != "" && Lower(TrimJs(s)) == TrimJs(s) == s && Split(s, ':') == parts
  {
    JoinChars(parts);
    KeyCharsFixed(Join(parts, ':'));
    forall i | 0 <= i < |parts| ensures ':' !in parts[i] {
      assert forall k | 0 <= k < |parts[i]| :: IdChar(parts[i][k]);
    }
    SplitOfJoin(parts, ':');
  }

  lemma TokensPlain(agent: string, ch: Channel, account: string, hash: string)
    requires Plain(agent) && Plain(account) && Plain(hash)
    ensures var t := KeyTokens(agent, ch, account, hash);
            && |t| == 7 && (forall i | 0 <= i < |t| :: Plain(t[i]))
            && (forall i | 0 <= i < |t[2..]| :: Plain(t[2..][i]))
            && t[0] == "agent" && t[1] == agent && t[4] == Name(ch) && t[5] == account && t[6] == hash
            && t[2..] == ["acp", "binding", Name(ch), account, hash]
  {
    assert Plain("agent") && Plain("acp") && Plain("binding");
  }

  /** Parsing a built key gives back its channel and account. */
  lemma KeyRoundTrip(agent: string, ch: Channel, account: string, hash: string)
    requires Plain(agent) && Plain(account) && Plain(hash)
    ensures var key := MakeKey(agent, ch, account, hash);
            && key != "" && TrimJs(key) == key
            && ParseConfiguredKey(key) == Some(KeyParts(ch, NormalizeAccountId(account)))
  {
    var t := KeyTokens(agent, ch, account, hash);
    ChannelName(ch);
    TokensPlain(agent, ch, account, hash);
    hide Join, Split, ParseAgentSessionKey, TrimJs, Lower, NormalizeAccountId, NormalizeChannel, Plain, KeyTokens, Name;
    SplitPlain(t);
    AgentKeyParsed(t);
    SplitPlain(t[2..]);
  }

  lemma AgentKeyParsed(t: seq<string>)
    requires |t| >= 3 && t[0] == "agent" && forall i | 0 <= i < |t| :: Plain(t[i])
    ensures ParseAgentSessionKey(Join(t, ':')) == Some(ParsedKey(t[1], Join(t[2..], ':')))
  {
    SplitPlain(t);
    SplitPlain(t[2..]);
    AllNonEmpty(t);
    TrimPlain(t[1]);
    hide Join, Split, TrimJs, Lower, NonEmpty;
  }

  /** Two keys are equal only if all their parts are. */
  lemma KeyInjective(a1: string, c1: Channel, x1: string, h1: string, a2: string, c2: Channel, x2: string, h2: string)
    requires Plain(a1) && Plain(x1) && Plain(h1) && Plain(a2) && Plain(x2) && Plain(h2)
    requires MakeKey(a1, c1, x1, h1) == MakeKey(a2, c2, x2, h2)
    ensures a1 == a2 && c1 == c2 && x1 == x2 && h1 == h2
  {
    var t1, t2 := KeyTokens(a1, c1, x1, h1), KeyTokens(a2, c2, x2, h2);
    ChannelName(c1);
    ChannelName(c2);
    TokensPlain(a1, c1, x1, h1);
    TokensPlain(a2, c2, x2, h2);
    hide Join, Split, TrimJs, Lower, NormalizeChannel, Plain, KeyTokens, Name;
    SplitPlain(t1);
    SplitPlain(t2);
  }
}
