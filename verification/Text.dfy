/** Strings as sequences of characters, with the few library operations the
    modelled code calls: search, replace-all, split, join, decimal printing. */
module Text {

  datatype Option<+T> = None | Some(value: T)

  /** `sub` occurs in `s` at offset `i`. */
  predicate At(s: string, sub: string, i: nat) {
    i + |sub| <= |s| && s[i..i + |sub|] == sub
  }

  predicate Contains(s: string, sub: string) {
    exists i: nat | i <= |s| :: At(s, sub, i)
  }

  /** The first offset at which `sub` occurs in `s`, at `from` or later. */
  function IndexFrom(s: string, sub: string, from: nat): (r: Option<nat>)
    requires from <= |s|
    ensures r.None? ==> forall i: nat | from <= i <= |s| :: !At(s, sub, i)
    ensures r.Some? ==> from <= r.value && At(s, sub, r.value)
    ensures r.Some? ==> forall i: nat | from <= i < r.value :: !At(s, sub, i)
    decreases |s| - from
  {
    if At(s, sub, from) then Some(from)
    else if from == |s| then None
    else IndexFrom(s, sub, from + 1)
  }

  /** Leftmost, non-overlapping replacement of every `target` in `s`. */
  function ReplaceAll(s: string, target: string, put: string): string
    requires |target| > 0
  {
    if s == "" then ""
    else if target <= s then put + ReplaceAll(s[|target|..], target, put)
    else [s[0]] + ReplaceAll(s[1..], target, put)
  }

  /** A stretch in which `target` starts nowhere is copied unchanged. */
  lemma {:induction false} ReplaceSkips(u: string, rest: string, target: string, put: string)
    requires |target| > 0
    requires forall d: nat | d < |u| :: !At(u + rest, target, d)
    ensures ReplaceAll(u + rest, target, put) == u + ReplaceAll(rest, target, put)
  {
    if u == "" {
      assert u + rest == rest;
    } else {
      var s := u + rest;
      assert s[1..] == u[1..] + rest;
      assert !At(s, target, 0);
      forall d: nat | d < |u[1..]| ensures !At(u[1..] + rest, target, d) {
        assert !At(s, target, d + 1);
        assert d + |target| <= |s[1..]| ==> s[d + 1..d + 1 + |target|] == s[1..][d..d + |target|];
      }
      ReplaceSkips(u[1..], rest, target, put);
      assert [s[0]] + (u[1..] + ReplaceAll(rest, target, put)) == u + ReplaceAll(rest, target, put);
    }
  }

  predicate IsDigit(c: char) { '0' <= c <= '9' }

  predicate AllDigits(s: string) { forall i | 0 <= i < |s| :: IsDigit(s[i]) }

  /** Decimal notation of a natural number, without leading zeros. */
  function Decimal(n: nat): (s: string)
    ensures s != "" && AllDigits(s)
  {
    if n < 10 then ["0123456789"[n]] else Decimal(n / 10) + ["0123456789"[n % 10]]
  }

  lemma {:induction false} DecimalInjective(m: nat, n: nat)
    requires Decimal(m) == Decimal(n)
    ensures m == n
  {
    DecimalLong(m);
    DecimalLong(n);
    var sm, sn := Decimal(m), Decimal(n);
    assert sm[|sm| - 1] == "0123456789"[m % 10];
    assert sn[|sn| - 1] == "0123456789"[n % 10];
    if m >= 10 && n >= 10 {
      assert Decimal(m / 10) == sm[..|sm| - 1] == sn[..|sn| - 1] == Decimal(n / 10);
      DecimalInjective(m / 10, n / 10);
    }
  }

  lemma DecimalLong(n: nat)
    ensures |Decimal(n)| > 1 <==> n >= 10
  {
  }

  /** `s` split at every `sep`; always at least one part. */
  function Split(s: string, sep: char): (parts: seq<string>)
    ensures |parts| >= 1
    ensures forall i | 0 <= i < |parts| :: sep !in parts[i]
  {
    if s == "" then [""]
    else
      var rest := Split(s[1..], sep);
      if s[0] == sep then [""] + rest else [[s[0]] + rest[0]] + rest[1..]
  }

  function Join(parts: seq<string>, sep: char): string
    requires |parts| >= 1
  {
    if |parts| == 1 then parts[0] else parts[0] + [sep] + Join(parts[1..], sep)
  }

  lemma {:induction false} SplitFree(s: string, sep: char)
    requires sep !in s
    ensures Split(s, sep) == [s]
  {
    if s == "" {
    } else {
      SplitFree(s[1..], sep);
      assert [s[0]] + s[1..] == s;
    }
  }

  lemma {:induction false} SplitAtSeparator(a: string, sep: char, b: string)
    ensures Split(a + [sep] + b, sep) == Split(a, sep) + Split(b, sep)
  {
    var s := a + [sep] + b;
    if a == "" {
      assert s[1..] == b;
    } else {
      assert s[1..] == a[1..] + [sep] + b;
      SplitAtSeparator(a[1..], sep, b);
    }
  }

  lemma {:induction false} SplitOfJoin(parts: seq<string>, sep: char)
    requires |parts| >= 1
    requires forall i | 0 <= i < |parts| :: sep !in parts[i]
    ensures Split(Join(parts, sep), sep) == parts
  {
    SplitFree(parts[0], sep);
    if |parts| <= 1 {
    } else {
      SplitAtSeparator(parts[0], sep, Join(parts[1..], sep));
      SplitOfJoin(parts[1..], sep);
    }
  }

  lemma {:induction false} JoinOfSplit(s: string, sep: char)
    ensures Join(Split(s, sep), sep) == s
  {
    if s == "" {
    } else {
      JoinOfSplit(s[1..], sep);
    }
  }

  lemma {:induction false} JoinAppend(xs: seq<string>, ys: seq<string>, sep: char)
    requires |xs| >= 1 && |ys| >= 1
    ensures Join(xs + ys, sep) == Join(xs, sep) + [sep] + Join(ys, sep)
  {
    if |xs| == 1 {
      assert (xs + ys)[1..] == ys;
    } else {
      assert (xs + ys)[1..] == xs[1..] + ys;
      JoinAppend(xs[1..], ys, sep);
    }
  }

  /** Removes the characters satisfying `blank` at both ends. */
  function TrimLeft(s: string, blank: char -> bool): string {
    if s != "" && blank(s[0]) then TrimLeft(s[1..], blank) else s
  }

  function TrimRight(s: string, blank: char -> bool): string {
    if s != "" && blank(s[|s| - 1]) then TrimRight(s[..|s| - 1], blank) else s
  }

  function Trim(s: string, blank: char -> bool): string {
    TrimRight(TrimLeft(s, blank), blank)
  }

  /** The spaces `strings.TrimSpace` removes. */
  predicate UnicodeSpace(c: char) {
    || '\t' <= c <= '\r' || c == ' '
    || c == 0x85 as char || c == 0xA0 as char || c == 0x1680 as char || 0x2000 as char <= c <= 0x200A as char
    || c == 0x2028 as char || c == 0x2029 as char || c == 0x202F as char || c == 0x205F as char || c == 0x3000 as char
  }
}
