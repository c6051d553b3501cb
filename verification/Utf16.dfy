/** Slicing UTF-16 strings without splitting a surrogate pair (src/utils.ts),
    and their code points and UTF-8 bytes. */
module Utf16 {

  /** A UTF-16 code unit. */
  type Unit = n: nat | n < 0x10000

  type Units = seq<Unit>

  predicate High(u: Unit) { 0xD800 <= u <= 0xDBFF }

  predicate Low(u: Unit) { 0xDC00 <= u <= 0xDFFF }

  /** Cutting at `k` separates the two halves of a pair. */
  predicate Splits(s: Units, k: nat) { 0 < k < |s| && High(s[k - 1]) && Low(s[k]) }

  /** The unit at `k` is a surrogate without its other half. */
  predicate Lone(s: Units, k: nat)
    requires k < |s|
  {
    (High(s[k]) && !Splits(s, k + 1)) || (Low(s[k]) && !Splits(s, k))
  }

  /** Well-formed UTF-16 (The Unicode Standard, section 3.9). */
  predicate WellFormed(s: Units) { forall k: nat | k < |s| :: !Lone(s, k) }

  // ---- slicing ----

  function Clamp(len: nat, at: int): nat {
    if at < 0 then (if len + at < 0 then 0 else len + at) else if at < len then at else len
  }

  function Min(a: nat, b: nat): nat { if a < b then a else b }

  function Max(a: nat, b: nat): nat { if a < b then b else a }

  datatype Window = Window(from: nat, to: nat)

  /** The part asked for, with its ends in order. */
  function Asked(len: nat, start: int, end: int): Window {
    Window(Min(Clamp(len, start), Clamp(len, end)), Max(Clamp(len, start), Clamp(len, end)))
  }

  /** The largest part of `w` that cuts no pair, or an empty one. */
  function SafeWindow(input: Units, w: Window): (v: Window)
    requires w.from <= w.to <= |input|
    ensures w.from <= v.from <= v.to <= w.to
    ensures v.from < v.to ==> !Splits(input, v.from) && !Splits(input, v.to)
    ensures v.from <= w.from + 1 && w.to - w.from <= v.to - v.from + 2
  {
    var from := if Splits(input, w.from) then w.from + 1 else w.from;
    var to := if Splits(input, w.to) then w.to - 1 else w.to;
    if to < from then Window(w.from, w.from) else Window(from, to)
  }

  /** No part of `w` that cuts no pair reaches further. */
  lemma SafeWindowLargest(input: Units, w: Window, x: nat, y: nat)
    requires w.from <= x < y <= w.to <= |input| && !Splits(input, x) && !Splits(input, y)
    ensures SafeWindow(input, w).from <= x && y <= SafeWindow(input, w).to
  {
  }

  function SafeSlice(input: Units, w: Window): Units
    requires w.from <= w.to <= |input|
  {
    var v := SafeWindow(input, w);
    input[v.from..v.to]
  }

  method SliceUtf16Safe(input: Units, start: int, end: int) returns (r: Units)
    ensures r == SafeSlice(input, Asked(|input|, start, end))
  {
    var len := |input|;
    var from := Clamp(len, start);
    var to := Clamp(len, end);
    if to < from {
      var tmp := from;
      from := to;
      to := tmp;
    }
    ghost var w := Asked(len, start, end);
    assert w == Window(from, to);
    hide Clamp, Asked;
    if 0 < from < len {
      if Low(input[from]) && High(input[from - 1]) {
        from := from + 1;
      }
    }
    if 0 < to < len {
      if High(input[to - 1]) && Low(input[to]) {
        to := to - 1;
      }
    }
    return if from <= to then input[from..to] else [];
  }

  /** A longer input is cut to the limit, or to one unit less before a pair. */
  method TruncateUtf16Safe(input: Units, maxLen: int) returns (r: Units)
    ensures |input| <= maxLen ==> r == input
    ensures |input| > maxLen ==>
              var limit := if maxLen < 0 then 0 else maxLen;
              r == input[..if Splits(input, limit) then limit - 1 else limit]
  {
    var limit := if maxLen < 0 then 0 else maxLen;
    if |input| <= limit {
      return input;
    }
    r := SliceUtf16Safe(input, 0, limit);
    assert Asked(|input|, 0, limit) == Window(0, limit);
  }

  // ---- what slicing keeps ----

  /** In a slice that cuts no pair a unit is a lone surrogate exactly when it
      was one in the input. */
  lemma LoneInSlice(input: Units, a: nat, b: nat, k: nat)
    requires a < b <= |input| && !Splits(input, a) && !Splits(input, b) && k < b - a
    ensures Lone(input[a..b], k) <==> Lone(input, a + k)
  {
    var s := input[a..b];
    assert s[k] == input[a + k];
    assert k + 1 < |s| ==> s[k + 1] == input[a + k + 1];
    assert k > 0 ==> s[k - 1] == input[a + k - 1];
  }

  /** Slicing breaks no pair, whatever the input. */
  lemma SliceKeepsPairs(input: Units, start: int, end: int, k: nat)
    requires k < |SafeSlice(input, Asked(|input|, start, end))|
    ensures var v := SafeWindow(input, Asked(|input|, start, end));
            Lone(SafeSlice(input, Asked(|input|, start, end)), k) <==> Lone(input, v.from + k)
  {
    var v := SafeWindow(input, Asked(|input|, start, end));
    LoneInSlice(input, v.from, v.to, k);
  }

  /** Slices of well-formed text are well-formed, for any start and end. */
  lemma SliceWellFormed(input: Units, start: int, end: int)
    requires WellFormed(input)
    ensures WellFormed(SafeSlice(input, Asked(|input|, start, end)))
  {
    hide SafeSlice, SafeWindow, Lone;
    var r := SafeSlice(input, Asked(|input|, start, end));
    forall k: nat | k < |r| ensures !Lone(r, k) {
      SliceKeepsPairs(input, start, end, k);
      SliceInside(input, start, end, k);
    }
  }

  lemma SliceInside(input: Units, start: int, end: int, k: nat)
    requires k < |SafeSlice(input, Asked(|input|, start, end))|
    ensures SafeWindow(input, Asked(|input|, start, end)).from + k < |input|
  {
  }

  // ---- code points ----

  const REPLACEMENT: nat := 0xFFFD

  /** How many units the first code point takes. */
  function FirstSize(s: Units): nat { if Splits(s, 1) then 2 else 1 }

  function FirstScalar(s: Units): nat
    requires s != []
  {
    if Splits(s, 1) then 0x10000 + (s[0] - 0xD800) * 0x400 + (s[1] - 0xDC00)
    else if High(s[0]) || Low(s[0]) then REPLACEMENT
    else s[0]
  }

  /** The code points of a string; a lone surrogate counts as U+FFFD. */
  function Scalars(s: Units): seq<nat> {
    if s == [] then [] else [FirstScalar(s)] + Scalars(s[FirstSize(s)..])
  }

  lemma FirstOfCut(a: Units, b: Units)
    requires a != [] && !Splits(a + b, |a|)
    ensures FirstSize(a + b) == FirstSize(a) <= |a| && FirstScalar(a + b) == FirstScalar(a)
  {
    assert (a + b)[0] == a[0];
    assert |a| > 1 ==> (a + b)[1] == a[1];
  }

  /** Code points on the two sides of a cut do not mix. */
  lemma {:induction false} ScalarsCut(a: Units, b: Units)
    requires !Splits(a + b, |a|)
    ensures Scalars(a + b) == Scalars(a) + Scalars(b)
    decreases |a|
  {
    hide FirstScalar, FirstSize, Splits;
    if a == [] {
      assert a + b == b;
    } else {
      FirstOfCut(a, b);
      var n := FirstSize(a);
      SizePositive(a);
      ScalarsRest(a, b, n);
      ScalarsCut(a[n..], b);
      assert (a + b)[n..] == a[n..] + b;
    }
  }

  lemma SizePositive(s: Units)
    ensures FirstSize(s) >= 1
  {
  }

  lemma ScalarsRest(a: Units, b: Units, n: nat)
    requires n <= |a| && !Splits(a + b, |a|)
    ensures !Splits(a[n..] + b, |a[n..]|)
  {
    var s := a + b;
    assert s[n..] == a[n..] + b;
  }

  /** The units of a code point, and of a sequence of them. */
  function UnitsOf(c: nat): Units
    requires c < 0x110000
  {
    if c < 0x10000 then [c] else [0xD800 + (c - 0x10000) / 0x400, 0xDC00 + (c - 0x10000) % 0x400]
  }

  predicate ScalarValues(cs: seq<nat>) {
    forall i | 0 <= i < |cs| :: cs[i] < 0x110000 && !(0xD800 <= cs[i] < 0xE000)
  }

  function EncodeUnits(cs: seq<nat>): Units
    requires ScalarValues(cs)
  {
    if cs == [] then [] else UnitsOf(cs[0]) + EncodeUnits(cs[1..])
  }

  lemma FirstOfUnits(c: nat, rest: Units)
    requires c < 0x110000 && !(0xD800 <= c < 0xE000)
    ensures UnitsOf(c) != [] && FirstScalar(UnitsOf(c) + rest) == c && FirstSize(UnitsOf(c) + rest) == |UnitsOf(c)|
  {
  }

  /** Any code points but surrogates are read back from their units. */
  lemma {:induction false} EncodedIsRead(cs: seq<nat>)
    requires ScalarValues(cs)
    ensures Scalars(EncodeUnits(cs)) == cs
  {
    if cs == [] {
    } else {
      var first, rest := UnitsOf(cs[0]), EncodeUnits(cs[1..]);
      EncodedIsRead(cs[1..]);
      FirstOfUnits(cs[0], rest);
      hide FirstScalar, FirstSize, UnitsOf;
      assert (first + rest)[|first|..] == rest;
    }
  }

  /** The code points of the slice are a stretch of those of the input. */
  lemma SliceKeepsCodePoints(input: Units, start: int, end: int)
    ensures var v := SafeWindow(input, Asked(|input|, start, end));
            v.from < v.to ==>
              Scalars(input) == Scalars(input[..v.from]) + Scalars(SafeSlice(input, Asked(|input|, start, end)))
                                + Scalars(input[v.to..])
  {
    var v := SafeWindow(input, Asked(|input|, start, end));
    if v.from < v.to {
      CutInThree(input, v.from, v.to);
    }
  }

  lemma CutInThree(s: Units, a: nat, b: nat)
    requires a <= b <= |s| && !Splits(s, a) && !Splits(s, b)
    ensures Scalars(s) == Scalars(s[..a]) + Scalars(s[a..b]) + Scalars(s[b..])
  {
    assert s == s[..b] + s[b..] && s[..b] == s[..a] + s[a..b];
    ScalarsCut(s[..b], s[b..]);
    ScalarsCut(s[..a], s[a..b]);
  }

  // ---- which part is asked for ----

  /** Positions count from the start, negative ones from the end, both are kept
      within the input, and the two ends may come in either order. */
  lemma AskedIs(len: nat, start: int, end: int)
    ensures 0 <= start <= end <= len ==> Asked(len, start, end) == Window(start, end)
    ensures Asked(len, end, start) == Asked(len, start, end)
    ensures start < 0 <= len + start ==> Asked(len, start, end) == Asked(len, len + start, end)
    ensures len + start < 0 ==> Asked(len, start, end) == Asked(len, 0, end)
    ensures start > len ==> Asked(len, start, end) == Asked(len, len, end)
  {
  }
}
