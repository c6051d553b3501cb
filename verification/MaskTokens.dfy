/** Masked markdown seen as a sequence of literal characters and holes. The
    rendering of such a sequence is the string the code works on; the lemmas
    here say that on clean sequences searching and replacing a placeholder
    string is the same as searching and replacing a hole. */
module MaskTokens {
  import opened Text

  datatype Token = Lit(c: char) | Hole(n: nat)

  /** The part of a placeholder that ordinary text must not contain. */
  function Needle(n: nat): string { "OC_I18N_" + Decimal(n) }

  function Mark(n: nat): string { "__" + Needle(n) + "__" }

  predicate MarkChar(c: char) {
    IsDigit(c) || c == '_' || c == 'O' || c == 'C' || c == 'I' || c == 'N'
  }

  function Piece(t: Token): string {
    match t
    case Lit(c) => [c]
    case Hole(n) => Mark(n)
  }

  function Render(toks: seq<Token>): string {
    if toks == [] then "" else Piece(toks[0]) + Render(toks[1..])
  }

  function Literals(s: string): seq<Token> { seq(|s|, i requires 0 <= i < |s| => Lit(s[i])) }

  /** The text a sequence stands for when hole `n` stands for `env[n]`. */
  function Fill(toks: seq<Token>, env: map<nat, string>): string {
    if toks == [] then ""
    else (match toks[0]
          case Lit(c) => [c]
          case Hole(n) => if n in env then env[n] else "")
         + Fill(toks[1..], env)
  }

  /** Every hole `n` replaced by `body`. */
  function Subst(toks: seq<Token>, n: nat, body: seq<Token>): seq<Token> {
    if toks == [] then []
    else (if toks[0] == Hole(n) then body else [toks[0]]) + Subst(toks[1..], n, body)
  }

  predicate HoleFree(toks: seq<Token>) { forall i | 0 <= i < |toks| :: toks[i].Lit? }

  lemma {:induction false} RenderConcat(a: seq<Token>, b: seq<Token>)
    ensures Render(a + b) == Render(a) + Render(b)
  {
    if a == [] {
      assert a + b == b;
    } else {
      assert (a + b)[1..] == a[1..] + b;
      RenderConcat(a[1..], b);
    }
  }

  lemma {:induction false} FillConcat(a: seq<Token>, b: seq<Token>, env: map<nat, string>)
    ensures Fill(a + b, env) == Fill(a, env) + Fill(b, env)
  {
    if a == [] {
      assert a + b == b;
    } else {
      assert (a + b)[1..] == a[1..] + b;
      FillConcat(a[1..], b, env);
    }
  }

  /** Binding a hole that does not occur changes nothing. */
  lemma {:induction false} FillFrame(toks: seq<Token>, env: map<nat, string>, n: nat, v: string)
    requires Hole(n) !in toks
    ensures Fill(toks, env[n := v]) == Fill(toks, env)
  {
    if toks == [] {
    } else {
      FillFrame(toks[1..], env, n, v);
    }
  }

  lemma {:induction false} FillOfHoleFree(toks: seq<Token>, env: map<nat, string>)
    requires HoleFree(toks)
    ensures Fill(toks, env) == Render(toks)
  {
    if toks == [] {
    } else {
      FillOfHoleFree(toks[1..], env);
    }
  }

  lemma {:induction false} LiteralsStandForThemselves(s: string, env: map<nat, string>)
    ensures Render(Literals(s)) == s == Fill(Literals(s), env)
  {
    if s == "" {
    } else {
      assert Literals(s)[1..] == Literals(s[1..]);
      LiteralsStandForThemselves(s[1..], env);
    }
  }

  lemma {:induction false} SubstKeepsFill(toks: seq<Token>, n: nat, body: seq<Token>, env: map<nat, string>)
    requires n in env && env[n] == Fill(body, env)
    ensures Fill(Subst(toks, n, body), env) == Fill(toks, env)
  {
    if toks == [] {
    } else {
      SubstKeepsFill(toks[1..], n, body, env);
      FillConcat(if toks[0] == Hole(n) then body else [toks[0]], Subst(toks[1..], n, body), env);
    }
  }

  lemma {:induction false} SubstMembers(toks: seq<Token>, n: nat, body: seq<Token>, t: Token)
    ensures t in Subst(toks, n, body) <==> (t in toks && t != Hole(n)) || (Hole(n) in toks && t in body)
  {
    if toks == [] {
    } else {
      SubstMembers(toks[1..], n, body, t);
    }
  }

  // ---- where a placeholder string can occur in a rendering ----

  /** The sequence begins with the literal characters of `w`. */
  predicate Spells(toks: seq<Token>, w: string) {
    |w| <= |toks| && forall i | 0 <= i < |w| :: toks[i] == Lit(w[i])
  }

  /** No run of literals spells the needle of `n`. */
  predicate Clean(toks: seq<Token>, n: nat) {
    forall k | 0 <= k <= |toks| :: !Spells(toks[k..], Needle(n))
  }

  lemma CleanTail(toks: seq<Token>, n: nat)
    requires toks != [] && Clean(toks, n)
    ensures Clean(toks[1..], n)
  {
    forall k | 0 <= k <= |toks[1..]| ensures !Spells(toks[1..][k..], Needle(n)) {
      assert toks[1..][k..] == toks[k + 1..];
    }
  }

  lemma {:induction false} SpelledIsFilled(toks: seq<Token>, w: string, env: map<nat, string>)
    requires Spells(toks, w)
    ensures w <= Fill(toks, env)
  {
    if w == "" {
    } else {
      SpelledIsFilled(toks[1..], w[1..], env);
    }
  }

  /** A sequence that stands for a text without the needle is clean. */
  lemma CleanFromText(toks: seq<Token>, env: map<nat, string>, n: nat)
    requires !Contains(Fill(toks, env), Needle(n))
    ensures Clean(toks, n)
  {
    forall k | 0 <= k <= |toks| ensures !Spells(toks[k..], Needle(n)) {
      if Spells(toks[k..], Needle(n)) {
        SpelledIsFilled(toks[k..], Needle(n), env);
        FillConcat(toks[..k], toks[k..], env);
        assert toks[..k] + toks[k..] == toks;
        assert At(Fill(toks, env), Needle(n), |Fill(toks[..k], env)|);
        assert false;
      }
    }
  }

  /** `w` has no two adjacent underscores and does not end in one. */
  predicate Unjoinable(w: string) {
    forall i | 0 <= i < |w| && w[i] == '_' :: i + 1 < |w| && w[i + 1] != '_'
  }

  lemma NeedleUnjoinable(n: nat)
    ensures Unjoinable(Needle(n))
  {
    var w, d := Needle(n), Decimal(n);
    assert forall i | 0 <= i < |d| :: IsDigit(d[i]) && w[i + 8] == d[i];
    assert forall i | 8 <= i < |w| :: IsDigit(d[i - 8]) && w[i] == d[i - 8];
    assert IsDigit(w[8]);
  }

  lemma HoleStart(toks: seq<Token>)
    requires toks != []
    ensures toks[0].Hole? ==> |Render(toks)| >= 2 && Render(toks)[0] == Render(toks)[1] == '_'
  {
    if toks[0].Hole? {
      assert Render(toks) == "__" + (Needle(toks[0].n) + "__" + Render(toks[1..]));
    }
  }

  /** Such a word at the front of a rendering is made of literals only. */
  lemma {:induction false} RenderedIsSpelled(toks: seq<Token>, w: string)
    requires Unjoinable(w) && w <= Render(toks)
    ensures Spells(toks, w)
  {
    if w == "" {
    } else {
      assert toks != [];
      HoleStart(toks);
      assert Render(toks)[1..] == Render(toks[1..]);
      assert forall i | 0 <= i < |w[1..]| :: w[1..][i] == w[i + 1];
      RenderedIsSpelled(toks[1..], w[1..]);
    }
  }

  /** "_" followed by the needle of `n` cannot start a clean rendering. */
  lemma NoUnderscoreNeedle(toks: seq<Token>, n: nat)
    requires Clean(toks, n)
    ensures !("_" + Needle(n) <= Render(toks))
  {
    if toks != [] {
      var s := Render(toks);
      assert toks[0].Hole? ==> s[1] == '_';
      assert ("_" + Needle(n))[1] == 'O' && Needle(n) == ("_" + Needle(n))[1..];
      assert toks[0].Lit? ==> s[1..] == Render(toks[1..]);
      CleanTail(toks, n);
      NoNeedle(toks[1..], n);
    }
  }

  lemma NoNeedle(toks: seq<Token>, n: nat)
    requires Clean(toks, n)
    ensures !(Needle(n) <= Render(toks))
  {
    assert toks[0..] == toks;
    NeedleUnjoinable(n);
    if Needle(n) <= Render(toks) {
      RenderedIsSpelled(toks, Needle(n));
      assert false;
    }
  }

  /** What an occurrence of a mark says about the characters from `d` on. */
  lemma MarkAt(s: string, n: nat, d: nat)
    requires At(s, Mark(n), d)
    ensures d + 10 < |s| && s[d] == '_' && s[d + 1] == '_' && s[d + 2] == 'O'
    ensures "_" + Needle(n) <= s[d + 1..]
    ensures Needle(n) <= s[d + 2..]
  {
    var t := s[d..d + |Mark(n)|];
    assert forall i | 0 <= i < |t| :: s[d + i] == t[i] == Mark(n)[i];
    assert Mark(n)[2] == 'O' && Mark(n)[0] == '_' && Mark(n)[1] == '_';
    assert "_" + Needle(n) == t[1..|t| - 2];
    assert Needle(n) == t[2..|t| - 2];
  }

  /** Two digit strings, each followed by an underscore at the front of `s`. */
  lemma DigitsEndTogether(s: string, a: string, b: string)
    requires AllDigits(a) && AllDigits(b)
    requires a + "_" <= s && b + "_" <= s
    ensures a == b
  {
    assert s[|a|] == (a + "_")[|a|] && s[|b|] == (b + "_")[|b|];
    assert forall i | 0 <= i < |a| :: s[i] == (a + "_")[i] == a[i] && IsDigit(s[i]);
    assert forall i | 0 <= i < |b| :: s[i] == (b + "_")[i] == b[i] && IsDigit(s[i]);
    assert |a| == |b|;
  }

  lemma DigitsInMark(s: string, n: nat)
    requires Mark(n) <= s
    ensures |s| > 10 && Decimal(n) + "_" <= s[10..]
  {
    var d := Decimal(n);
    assert forall i | 0 <= i < |d| :: s[10..][i] == s[10 + i] == Mark(n)[10 + i] == d[i];
    assert s[10 + |d|] == Mark(n)[10 + |d|] == '_';
  }

  /** A mark that starts another mark is that mark. */
  lemma MarkPrefix(m: nat, n: nat, rest: string)
    requires Mark(n) <= Mark(m) + rest
    ensures m == n
  {
    var s := Mark(m) + rest;
    DigitsInMark(s, m);
    DigitsInMark(s, n);
    DigitsEndTogether(s[10..], Decimal(m), Decimal(n));
    DecimalInjective(m, n);
  }

  lemma MarkHasOneO(m: nat, i: nat)
    requires 2 < i < |Mark(m)|
    ensures Mark(m)[i] != 'O'
  {
    var d := Decimal(m);
    assert forall k | 0 <= k < |d| :: IsDigit(d[k]) && Mark(m)[k + 10] == d[k];
    assert 10 <= i < 10 + |d| ==> IsDigit(d[i - 10]) && Mark(m)[i] == d[i - 10];
  }

  /** An occurrence that starts inside the first token is exactly that token. */
  lemma HeadOccurrence(toks: seq<Token>, n: nat, d: nat)
    requires toks != [] && Clean(toks, n)
    requires d < |Piece(toks[0])| && At(Render(toks), Mark(n), d)
    ensures d == 0 && toks[0] == Hole(n)
  {
    var s, p, rest := Render(toks), Piece(toks[0]), Render(toks[1..]);
    CleanTail(toks, n);
    NoNeedle(toks[1..], n);
    NoUnderscoreNeedle(toks[1..], n);
    MarkAt(s, n, d);
    assert rest == s[|p|..];
    if toks[0].Hole? {
      HeadOccurrenceInHole(toks[0].n, rest, n, d);
    }
  }

  lemma HeadOccurrenceInHole(m: nat, rest: string, n: nat, d: nat)
    requires d < |Mark(m)| && At(Mark(m) + rest, Mark(n), d)
    requires !(Needle(n) <= rest) && !("_" + Needle(n) <= rest)
    ensures d == 0 && m == n
  {
    var s := Mark(m) + rest;
    MarkAt(s, n, d);
    assert rest == s[|Mark(m)|..];
    if d == 0 {
      assert s[0..|Mark(n)|] == s[..|Mark(n)|];
      MarkPrefix(m, n, rest);
    } else if d + 2 < |Mark(m)| {
      MarkHasOneO(m, d + 2);
    }
  }

  /** Searching a concatenation behind its first part. */
  lemma AtBehind(p: string, rest: string, sub: string, d: nat)
    ensures At(p + rest, sub, |p| + d) <==> At(rest, sub, d)
  {
    if d + |sub| <= |rest| {
      assert (p + rest)[|p| + d..|p| + d + |sub|] == rest[d..d + |sub|];
    }
  }

  /** On clean sequences the placeholder occurs exactly where its hole does. */
  lemma {:induction false} ContainsIffHole(toks: seq<Token>, n: nat)
    requires Clean(toks, n)
    ensures Contains(Render(toks), Mark(n)) <==> Hole(n) in toks
  {
    if toks == [] {
    } else {
      CleanTail(toks, n);
      ContainsIffHole(toks[1..], n);
      if Contains(Render(toks), Mark(n)) { HoleFound(toks, n); }
      if Hole(n) in toks { HoleShows(toks, n); }
    }
  }

  lemma HoleFound(toks: seq<Token>, n: nat)
    requires toks != [] && Clean(toks, n) && Contains(Render(toks), Mark(n))
    requires Contains(Render(toks[1..]), Mark(n)) ==> Hole(n) in toks[1..]
    ensures Hole(n) in toks
  {
    var s, p := Render(toks), Piece(toks[0]);
    var d: nat :| d <= |s| && At(s, Mark(n), d);
    if d < |p| {
      HeadOccurrence(toks, n, d);
    } else {
      AtBehind(p, Render(toks[1..]), Mark(n), d - |p|);
    }
  }

  lemma {:induction false} HoleShows(toks: seq<Token>, n: nat)
    requires Hole(n) in toks
    ensures Contains(Render(toks), Mark(n))
  {
    var s, p := Render(toks), Piece(toks[0]);
    if toks[0] == Hole(n) {
      assert At(s, Mark(n), 0);
    } else {
      HoleShows(toks[1..], n);
      var d: nat :| d <= |Render(toks[1..])| && At(Render(toks[1..]), Mark(n), d);
      AtBehind(p, Render(toks[1..]), Mark(n), d);
      assert At(s, Mark(n), |p| + d);
    }
  }

  /** On clean sequences replacing the placeholder replaces the hole. */
  lemma {:induction false} ReplaceIsSubst(toks: seq<Token>, n: nat, body: seq<Token>)
    requires Clean(toks, n)
    ensures ReplaceAll(Render(toks), Mark(n), Render(body)) == Render(Subst(toks, n, body))
  {
    if toks == [] {
    } else {
      var s, p, rest := Render(toks), Piece(toks[0]), Render(toks[1..]);
      CleanTail(toks, n);
      ReplaceIsSubst(toks[1..], n, body);
      RenderConcat(if toks[0] == Hole(n) then body else [toks[0]], Subst(toks[1..], n, body));
      if toks[0] == Hole(n) {
        assert Mark(n) <= s && s[|Mark(n)|..] == rest;
      } else {
        forall d: nat | d < |p| ensures !At(p + rest, Mark(n), d) {
          if At(s, Mark(n), d) { HeadOccurrence(toks, n, d); }
        }
        ReplaceSkips(p, rest, Mark(n), Render(body));
        assert Render([toks[0]]) == p + Render([]);
      }
    }
  }

  // ---- where a span may start or end ----

  /** Position `b` of `s` is not strictly inside a run of mark characters. */
  predicate NotCutting(s: string, b: nat)
    requires b <= |s|
  {
    b == 0 || b == |s| || !MarkChar(s[b - 1]) || !MarkChar(s[b])
  }

  lemma MarkChars(n: nat)
    ensures forall i | 0 <= i < |Mark(n)| :: MarkChar(Mark(n)[i])
  {
    var d := Decimal(n);
    assert forall k | 0 <= k < |d| :: IsDigit(d[k]) && Mark(n)[k + 10] == d[k];
    assert forall i | 10 <= i < 10 + |d| :: IsDigit(d[i - 10]) && Mark(n)[i] == d[i - 10];
  }

  /** Such a position falls between two tokens. */
  lemma {:induction false} TokenBoundary(toks: seq<Token>, b: nat) returns (k: nat)
    requires b <= |Render(toks)| && NotCutting(Render(toks), b)
    ensures k <= |toks| && |Render(toks[..k])| == b
  {
    if b == 0 {
      k := 0;
    } else {
      NotInsideHead(toks, b);
      var p := Piece(toks[0]);
      BoundaryBehind(p, Render(toks[1..]), b - |p|);
      var k' := TokenBoundary(toks[1..], b - |p|);
      k := k' + 1;
      assert toks[..k][0] == toks[0] && toks[..k][1..] == toks[1..][..k'];
    }
  }

  lemma BoundaryBehind(p: string, rest: string, b: nat)
    requires b <= |rest| && NotCutting(p + rest, |p| + b)
    ensures NotCutting(rest, b)
  {
    if 0 < b < |rest| {
      assert (p + rest)[|p| + b] == rest[b] && (p + rest)[|p| + b - 1] == rest[b - 1];
    }
  }

  lemma NotInsideHead(toks: seq<Token>, b: nat)
    requires 0 < b <= |Render(toks)| && NotCutting(Render(toks), b)
    ensures toks != [] && |Piece(toks[0])| <= b
  {
    var s, p := Render(toks), Piece(toks[0]);
    if toks[0].Hole? {
      MarkChars(toks[0].n);
      assert forall i | 0 <= i < |p| :: s[i] == p[i] && MarkChar(s[i]);
    }
  }

  /** Cutting a rendering at a token boundary. */
  lemma RenderSplit(toks: seq<Token>, k: nat)
    requires k <= |toks|
    ensures |Render(toks[..k])| <= |Render(toks)|
    ensures Render(toks[..k]) == Render(toks)[..|Render(toks[..k])|]
    ensures Render(toks[k..]) == Render(toks)[|Render(toks[..k])|..]
  {
    RenderConcat(toks[..k], toks[k..]);
    assert toks[..k] + toks[k..] == toks;
  }
}
