/** The locations a tool call mentions (src/acp/event-mapper.ts): a map without
    duplicates, filled by a walk over a bounded part of a value. */
module ToolLocations {
  import opened Text

  /** Lines are positive. */
  datatype Location = Location(path: string, line: Option<nat>)

  datatype Entry = Entry(key: string, location: Location)

  function KeyOf(l: Location): string { l.path + ":" + LineText(l.line) }

  function LineText(line: Option<nat>): (s: string)
    ensures ':' !in s
  {
    if line.None? then "" else Decimal(line.value)
  }

  lemma KeyColon(l: Location)
    ensures KeyOf(l)[|l.path|] == ':' && forall i | |l.path| < i < |KeyOf(l)| :: KeyOf(l)[i] != ':'
    ensures l.path == KeyOf(l)[..|l.path|] && LineText(l.line) == KeyOf(l)[|l.path| + 1..]
  {
    assert forall i | |l.path| < i < |KeyOf(l)| :: KeyOf(l)[i] == LineText(l.line)[i - |l.path| - 1];
  }

  /** Different locations have different keys, whatever the paths. */
  lemma KeyInjective(x: Location, y: Location)
    requires KeyOf(x) == KeyOf(y)
    ensures x == y
  {
    KeyColon(x);
    KeyColon(y);
    assert |x.path| == |y.path|;
    if x.line.Some? && y.line.Some? { DecimalInjective(x.line.value, y.line.value); }
  }

  function Locations(es: seq<Entry>): set<Location> { set i | 0 <= i < |es| :: es[i].location }

  /** Keys are those of the locations, and a path is held either without a
      line or with lines. */
  ghost predicate Tidy(es: seq<Entry>) {
    && (forall i | 0 <= i < |es| :: es[i].key == KeyOf(es[i].location))
    && (forall i, j | 0 <= i < j < |es| :: es[i].location != es[j].location)
    && (forall i, j | 0 <= i < |es| && 0 <= j < |es| && es[i].location.path == es[j].location.path ::
          es[i].location.line.None? <==> es[j].location.line.None?)
  }

  /** The entries after adding a path, with or without a line. */
  function Added(es: seq<Entry>, l: Location): seq<Entry> {
    if l in Locations(es) || (l.line.None? && exists m :: m in Locations(es) && m.path == l.path) then es
    else Without(es, l.path) + [Entry(KeyOf(l), l)]
  }

  /** The entries but for the path without a line. */
  function Without(es: seq<Entry>, path: string): seq<Entry> {
    if es == [] then []
    else
      var n := |es| - 1;
      Without(es[..n], path) + if es[n].location == Location(path, None) then [] else [es[n]]
  }

  /** The first `k` entries have been looked at. */
  function HalfWithout(es: seq<Entry>, k: nat, path: string): seq<Entry>
    requires k <= |es|
  {
    Without(es[..k], path) + es[k..]
  }

  lemma WithoutEnds(es: seq<Entry>, path: string)
    ensures HalfWithout(es, 0, path) == es && HalfWithout(es, |es|, path) == Without(es, path)
            && Without(es[..0], path) == []
  {
    assert es[..|es|] == es;
  }

  lemma WithoutStep(es: seq<Entry>, k: nat, path: string)
    requires k <= |es|
    ensures var i, half := |Without(es[..k], path)|, HalfWithout(es, k, path);
            && (k < |es| <==> i < |half|)
            && (k < |es| ==>
                  && half[i] == es[k]
                  && HalfWithout(es, k + 1, path)
                       == (if es[k].location == Location(path, None) then half[..i] + half[i + 1..] else half)
                  && |Without(es[..k + 1], path)| == if es[k].location == Location(path, None) then i else i + 1)
  {
    if k < |es| {
      assert es[..k + 1][..k] == es[..k];
    }
  }

  /** Nothing found so far that settles the addition of `l`. */
  predicate Open(e: Entry, l: Location) { e.location.path == l.path ==> l.line.Some? && e.location.line != l.line }

  lemma NothingFound(es: seq<Entry>, l: Location)
    requires forall j | 0 <= j < |es| :: Open(es[j], l)
    ensures Added(es, l) == Without(es, l.path) + [Entry(KeyOf(l), l)]
  {
  }

  lemma {:induction false} WithoutNone(es: seq<Entry>, path: string)
    requires forall j | 0 <= j < |es| :: es[j].location != Location(path, None)
    ensures Without(es, path) == es
  {
    if es == [] {
    } else {
      WithoutNone(es[..|es| - 1], path);
    }
  }

  /** In tidy entries nothing was removed before a match. */
  lemma FoundKeeps(es: seq<Entry>, k: nat, l: Location)
    requires Tidy(es) && k < |es| && !Open(es[k], l) && forall j | 0 <= j < k :: Open(es[j], l)
    ensures Added(es, l) == es && HalfWithout(es, k, l.path) == es
  {
    hide KeyOf;
    assert es[k].location in Locations(es);
    forall j | 0 <= j < |es[..k]| ensures es[..k][j].location != Location(l.path, None) {
      assert Open(es[j], l);
    }
    WithoutNone(es[..k], l.path);
    assert es[..k] + es[k..] == es;
    if l.line.Some? { assert es[k].location == l; }
  }

  lemma KeysUnused(es: seq<Entry>, l: Location, k: nat)
    requires Tidy(es) && k < |Without(es, l.path)| && forall j | 0 <= j < |es| :: Open(es[j], l)
    ensures Without(es, l.path)[k].key != KeyOf(l)
  {
    WithoutWhere(es, l.path, k);
    var j :| 0 <= j < |es| && Without(es, l.path)[k] == es[j];
    assert Open(es[j], l);
    if KeyOf(es[j].location) == KeyOf(l) { KeyInjective(es[j].location, l); }
  }

  lemma {:induction false} WithoutWhere(es: seq<Entry>, path: string, k: nat)
    requires k < |Without(es, path)|
    ensures exists j :: 0 <= j < |es| && Without(es, path)[k] == es[j]
  {
    var n := |es| - 1;
    if k < |Without(es[..n], path)| {
      WithoutWhere(es[..n], path, k);
      var j :| 0 <= j < n && Without(es[..n], path)[k] == es[..n][j];
      assert Without(es, path)[k] == es[j];
    } else {
      assert Without(es, path)[k] == es[n];
    }
  }

  class LocationMap {
    var entries: seq<Entry>

    constructor ()
      ensures entries == []
    {
      entries := [];
    }

    /** `path` is the normalized path; None when it is not acceptable. */
    method AddToolLocation(path: Option<string>, line: Option<nat>)
      requires Tidy(entries)
      modifies this
      ensures entries == if path.None? then old(entries) else Added(old(entries), Location(path.value, line))
    {
      hide Without, Added, HalfWithout, Tidy, KeyOf;
      if path.None? {
        return;
      }
      var l := Location(path.value, line);
      ghost var before, seen: nat := entries, 0;
      WithoutEnds(before, l.path);
      var i := 0;
      while i < |entries|
        invariant seen <= |before| && i == |Without(before[..seen], l.path)|
        invariant entries == HalfWithout(before, seen, l.path)
        invariant forall j | 0 <= j < seen :: Open(before[j], l)
        decreases |before| - seen
      {
        WithoutStep(before, seen, l.path);
        var existing := entries[i].location;
        if existing.path != l.path {
          i := i + 1;
        } else if line.None? || existing.line == line {
          FoundKeeps(before, seen, l);
          return;
        } else if existing.line.None? {
          entries := entries[..i] + entries[i + 1..];
        } else {
          i := i + 1;
        }
        seen := seen + 1;
      }
      WithoutStep(before, seen, l.path);
      NothingFound(before, l);
      var locationKey := KeyOf(l);
      var k := 0;
      while k < |entries|
        invariant k <= |entries| && entries == Without(before, l.path)
      {
        KeysUnused(before, l, k);
        if entries[k].key == locationKey {
          return;
        }
        k := k + 1;
      }
      entries := entries + [Entry(locationKey, l)];
    }
  }
}
