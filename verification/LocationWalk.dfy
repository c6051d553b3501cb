/** What the location map holds after any additions, and the bounded walk that
    makes them (src/acp/event-mapper.ts). */
module LocationWalk {
  import opened Text
  import opened ToolLocations

  // ---- the map is a set ----

  function AddAll(es: seq<Entry>, adds: seq<Location>): seq<Entry> {
    if adds == [] then es else Added(AddAll(es, adds[..|adds| - 1]), adds[|adds| - 1])
  }

  /** Every location added with a line, and those without whose path was never
      added with one. */
  predicate Kept(adds: seq<Location>, l: Location) {
    l in adds && (l.line.None? ==> forall m | m in adds && m.path == l.path :: m.line.None?)
  }

  lemma {:induction false} WithoutSet(es: seq<Entry>, path: string)
    ensures Locations(Without(es, path)) == Locations(es) - {Location(path, None)}
  {
    if es == [] {
      assert Without(es, path) == es && Locations(es) == {};
    } else {
      var n := |es| - 1;
      WithoutSet(es[..n], path);
      LocationsSnoc(es[..n], es[n]);
      LocationsSnoc(Without(es[..n], path), es[n]);
      assert Without(es[..n], path) + [] == Without(es[..n], path);
      assert es[..n] + [es[n]] == es;
      hide Locations;
    }
  }

  lemma LocationsSnoc(es: seq<Entry>, e: Entry)
    ensures Locations(es + [e]) == Locations(es) + {e.location}
  {
    forall l | l in Locations(es + [e]) ensures l in Locations(es) + {e.location} {
      var i :| 0 <= i < |es + [e]| && (es + [e])[i].location == l;
      if i < |es| { assert es[i].location == l; }
    }
    forall l | l in Locations(es) ensures l in Locations(es + [e]) {
      var i :| 0 <= i < |es| && es[i].location == l;
      assert (es + [e])[i].location == l;
    }
    assert (es + [e])[|es|].location == e.location;
  }

  predicate Settles(es: seq<Entry>, l: Location) {
    l in Locations(es) || (l.line.None? && exists m :: m in Locations(es) && m.path == l.path)
  }

  lemma AddedSet(es: seq<Entry>, l: Location)
    ensures Locations(Added(es, l)) ==
            if Settles(es, l) then Locations(es) else Locations(es) - {Location(l.path, None)} + {l}
  {
    if !Settles(es, l) {
      WithoutSet(es, l.path);
      LocationsSnoc(Without(es, l.path), Entry(KeyOf(l), l));
    }
  }

  /** After any additions the map holds exactly the locations kept, in tidy
      entries. */
  lemma {:induction false} MapIsKept(adds: seq<Location>)
    ensures forall l :: l in Locations(AddAll([], adds)) <==> Kept(adds, l)
  {
    hide KeyOf, Added, Locations;
    if adds == [] {
      NothingKept();
    } else {
      var n := |adds| - 1;
      MapIsKept(adds[..n]);
      AddedSet(AddAll([], adds[..n]), adds[n]);
      var es := AddAll([], adds[..n]);
      forall l ensures l in Locations(AddAll([], adds)) <==> Kept(adds, l) {
        KeptSnoc(adds[..n], adds[n], l);
        assert adds[..n] + [adds[n]] == adds;
        SettlesIff(adds[..n], es, adds[n]);
      }
    }
  }

  lemma NothingKept()
    ensures Locations(AddAll([], [])) == {}
  {
  }

  lemma SettlesIff(adds: seq<Location>, es: seq<Entry>, l: Location)
    requires forall m :: m in Locations(es) <==> Kept(adds, m)
    ensures Settles(es, l) <==> if l.line.None? then exists m :: m in adds && m.path == l.path else l in adds
  {
    hide Locations;
    if l.line.None? {
      if m :| m in adds && m.path == l.path {
        var k := KeptForPath(adds, m);
        assert k in Locations(es);
      }
      if m :| m in Locations(es) && m.path == l.path { assert Kept(adds, m); }
    } else {
      assert Kept(adds, l) <==> l in adds;
    }
  }

  /** Some location of the path is kept. */
  lemma KeptForPath(adds: seq<Location>, m: Location) returns (k: Location)
    requires m in adds
    ensures Kept(adds, k) && k.path == m.path
  {
    if m.line.None? && exists x :: x in adds && x.path == m.path && x.line.Some? {
      k :| k in adds && k.path == m.path && k.line.Some?;
    } else {
      k := m;
    }
  }

  lemma KeptSnoc(adds: seq<Location>, a: Location, l: Location)
    ensures Kept(adds + [a], l) <==>
            && (Kept(adds, l)
                || (l == a && (a.line.None? ==> forall m | m in adds && m.path == a.path :: m.line.None?)))
            && (l.line.None? && a.path == l.path ==> a.line.None?)
  {
  }

  /** The order of additions does not matter. */
  lemma OrderDoesNotMatter(adds: seq<Location>, others: seq<Location>)
    requires forall l :: l in adds <==> l in others
    ensures Locations(AddAll([], adds)) == Locations(AddAll([], others))
  {
    MapIsKept(adds);
    MapIsKept(others);
    hide Locations, AddAll;
    forall l ensures Kept(adds, l) <==> Kept(others, l) {
    }
  }

  lemma AddedTidy(es: seq<Entry>, l: Location)
    requires Tidy(es)
    ensures Tidy(Added(es, l))
  {
    hide KeyOf;
    if !Settles(es, l) {
      var kept := Without(es, l.path);
      WithoutTidy(es, l.path);
      WithoutSet(es, l.path);
      forall i | 0 <= i < |kept|
        ensures kept[i].location != l
                && (kept[i].location.path == l.path ==> kept[i].location.line.Some? && l.line.Some?)
      {
        assert kept[i].location in Locations(kept);
      }
      hide Without;
    }
  }

  lemma {:induction false} WithoutTidy(es: seq<Entry>, path: string)
    requires Tidy(es)
    ensures Tidy(Without(es, path))
  {
    hide KeyOf;
    if es == [] {
    } else {
      var n := |es| - 1;
      WithoutTidy(es[..n], path);
      var kept := Without(es[..n], path);
      forall i | 0 <= i < |kept| ensures exists j :: 0 <= j < n && kept[i] == es[j] {
        WithoutWhere(es[..n], path, i);
        var j :| 0 <= j < n && kept[i] == es[..n][j];
        assert kept[i] == es[j];
      }
      hide Without;
    }
  }

  // ---- the walk ----

  /** A JSON value as the walk sees it: candidate paths in text markers, the
      paths and the line of a record, and what is nested. */
  datatype Value =
    | Words(markers: seq<string>)
    | Scalar
    | Array(items: seq<Value>)
    | Record(line: Option<nat>, paths: seq<string>, markers: seq<string>, nested: seq<Value>)

  const MAX_DEPTH := 4
  const MAX_NODES := 100

  function Children(v: Value): (cs: seq<Value>)
    ensures forall i | 0 <= i < |cs| :: cs[i] < v
  {
    match v
    case Array(items) => items
    case Record(_, _, _, nested) => nested
    case _ => []
  }

  /** The additions for raw paths that are acceptable. */
  function Accepted(normalize: string -> Option<string>, raw: seq<string>, line: Option<nat>): seq<Location> {
    if raw == [] then []
    else
      var n := |raw| - 1;
      Accepted(normalize, raw[..n], line)
      + if normalize(raw[n]).Some? then [Location(normalize(raw[n]).value, line)] else []
  }

  function Own(normalize: string -> Option<string>, v: Value): seq<Location> {
    match v
    case Words(markers) => Accepted(normalize, markers, None)
    case Record(line, paths, markers, _) => Accepted(normalize, paths, line) + Accepted(normalize, markers, None)
    case _ => []
  }

  function OwnAll(normalize: string -> Option<string>, nodes: seq<Value>): seq<Location> {
    if nodes == [] then [] else Own(normalize, nodes[0]) + OwnAll(normalize, nodes[1..])
  }

  /** The nodes no deeper than the limit, parents first. */
  function Preorder(v: Value, depth: nat): seq<Value>
    decreases v, |Children(v)| + 1
  {
    if depth > MAX_DEPTH then [] else [v] + Forest(v, |Children(v)|, depth)
  }

  function Forest(v: Value, k: nat, depth: nat): seq<Value>
    requires k <= |Children(v)|
    decreases v, k
  {
    if k == 0 then [] else Forest(v, k - 1, depth) + Preorder(Children(v)[k - 1], depth + 1)
  }

  function Take<T>(s: seq<T>, n: int): seq<T> { if n <= 0 then [] else if |s| <= n then s else s[..n] }

  lemma TakeConcat<T>(a: seq<T>, b: seq<T>, n: int)
    ensures Take(a + b, n) == Take(a, n) + Take(b, n - |Take(a, n)|)
  {
  }

  lemma {:induction false} AddAllConcat(es: seq<Entry>, a: seq<Location>, b: seq<Location>)
    ensures AddAll(es, a + b) == AddAll(AddAll(es, a), b)
  {
    hide Added;
    if b == [] {
      assert a + b == a;
    } else {
      var n := |b| - 1;
      AddAllConcat(es, a, b[..n]);
      assert (a + b)[..|a| + n] == a + b[..n];
    }
  }

  lemma {:induction false} OwnConcat(normalize: string -> Option<string>, a: seq<Value>, b: seq<Value>)
    ensures OwnAll(normalize, a + b) == OwnAll(normalize, a) + OwnAll(normalize, b)
  {
    hide Own;
    if a == [] {
      assert a + b == b;
    } else {
      assert (a + b)[1..] == a[1..] + b;
      OwnConcat(normalize, a[1..], b);
    }
  }

  lemma {:induction false} AddAllTidy(es: seq<Entry>, adds: seq<Location>)
    requires Tidy(es)
    ensures Tidy(AddAll(es, adds))
  {
    hide Added, Tidy;
    if adds == [] {
    } else {
      AddAllTidy(es, adds[..|adds| - 1]);
      AddedTidy(AddAll(es, adds[..|adds| - 1]), adds[|adds| - 1]);
    }
  }

  class Visits {
    var visited: nat

    constructor ()
      ensures visited == 0
    {
      visited := 0;
    }
  }

  method AddPaths(normalize: string -> Option<string>, raw: seq<string>, line: Option<nat>, locations: LocationMap)
    requires Tidy(locations.entries)
    modifies locations
    ensures locations.entries == AddAll(old(locations.entries), Accepted(normalize, raw, line))
            && Tidy(locations.entries)
  {
    hide Added, Tidy;
    ghost var before := locations.entries;
    for i := 0 to |raw|
      invariant locations.entries == AddAll(before, Accepted(normalize, raw[..i], line)) && Tidy(locations.entries)
    {
      assert raw[..i + 1][..i] == raw[..i];
      ghost var soFar := Accepted(normalize, raw[..i], line);
      var path := normalize(raw[i]);
      locations.AddToolLocation(path, line);
      if path.Some? {
        assert (soFar + [Location(path.value, line)])[..|soFar|] == soFar;
      } else {
        assert soFar + [] == soFar;
      }
      AddAllTidy(before, Accepted(normalize, raw[..i + 1], line));
    }
    assert raw[..|raw|] == raw;
  }

  /** What the walk of `v` visits when `visited` nodes have been visited. */
  function Visited(v: Value, depth: nat, visited: nat): seq<Value> { Take(Preorder(v, depth), MAX_NODES - visited) }

  /** The walk has visited `nodes`, and added what they hold. */
  ghost predicate Walked(normalize: string -> Option<string>, es: seq<Entry>, visited: nat, nodes: seq<Value>,
                         es': seq<Entry>, visited': nat)
  {
    visited' == visited + |nodes| && es' == AddAll(es, OwnAll(normalize, nodes)) && Tidy(es')
  }

  lemma WalkedThen(normalize: string -> Option<string>, es: seq<Entry>, v: nat, a: seq<Value>,
                   es1: seq<Entry>, v1: nat, b: seq<Value>, es2: seq<Entry>, v2: nat)
    requires Walked(normalize, es, v, a, es1, v1) && Walked(normalize, es1, v1, b, es2, v2)
    ensures Walked(normalize, es, v, a + b, es2, v2)
  {
    OwnConcat(normalize, a, b);
    AddAllConcat(es, OwnAll(normalize, a), OwnAll(normalize, b));
  }

  lemma OwnOne(normalize: string -> Option<string>, v: Value)
    ensures OwnAll(normalize, [v]) == Own(normalize, v)
  {
    assert [v][1..] == [];
    assert Own(normalize, v) + [] == Own(normalize, v);
  }

  method VisitOwn(normalize: string -> Option<string>, value: Value, locations: LocationMap, state: Visits)
    requires Tidy(locations.entries)
    modifies locations, state
    ensures Walked(normalize, old(locations.entries), old(state.visited), [value], locations.entries, state.visited)
  {
    OwnOne(normalize, value);
    ghost var before := locations.entries;
    state.visited := state.visited + 1;
    if value.Words? {
      AddPaths(normalize, value.markers, None, locations);
    }
    if value.Record? {
      AddPaths(normalize, value.paths, value.line, locations);
      AddPaths(normalize, value.markers, None, locations);
      AddAllConcat(before, Accepted(normalize, value.paths, value.line), Accepted(normalize, value.markers, None));
    }
  }

  /** The part of a node's visit up to its child `k`. */
  function VisitedTo(v: Value, k: nat, depth: nat, visited: nat): seq<Value>
    requires k <= |Children(v)|
  {
    Take([v] + Forest(v, k, depth), MAX_NODES - visited)
  }

  lemma VisitStarts(v: Value, depth: nat, visited: nat)
    ensures visited >= MAX_NODES || depth > MAX_DEPTH ==> Visited(v, depth, visited) == []
    ensures visited < MAX_NODES ==> VisitedTo(v, 0, depth, visited) == [v]
  {
  }

  lemma ForestStep(v: Value, k: nat, depth: nat)
    requires k < |Children(v)|
    ensures Forest(v, k + 1, depth) == Forest(v, k, depth) + Preorder(Children(v)[k], depth + 1)
  {
    hide Preorder;
  }

  lemma VisitGoesOn(v: Value, k: nat, depth: nat, visited: nat)
    requires k < |Children(v)|
    ensures var sofar := VisitedTo(v, k, depth, visited);
            sofar + Visited(Children(v)[k], depth + 1, visited + |sofar|) == VisitedTo(v, k + 1, depth, visited)
  {
    hide Forest, Preorder;
    var first, rest := [v] + Forest(v, k, depth), Preorder(Children(v)[k], depth + 1);
    ForestStep(v, k, depth);
    TakeConcat(first, rest, MAX_NODES - visited);
    assert first + rest == [v] + Forest(v, k + 1, depth);
  }

  lemma VisitEnds(v: Value, k: nat, depth: nat, visited: nat)
    requires k <= |Children(v)| && depth <= MAX_DEPTH
    requires k == |Children(v)| || visited + |VisitedTo(v, k, depth, visited)| >= MAX_NODES
    ensures VisitedTo(v, k, depth, visited) == Visited(v, depth, visited)
  {
    var rest := ForestSplit(v, k, |Children(v)|, depth);
    var first := [v] + Forest(v, k, depth);
    PreorderIs(v, depth, k, rest);
    hide Forest, Preorder, Children;
    if visited + |Take(first, MAX_NODES - visited)| >= MAX_NODES {
      TakeConcat(first, rest, MAX_NODES - visited);
    }
  }

  lemma PreorderIs(v: Value, depth: nat, k: nat, rest: seq<Value>)
    requires depth <= MAX_DEPTH && k <= |Children(v)|
    requires Forest(v, |Children(v)|, depth) == Forest(v, k, depth) + rest
    ensures Preorder(v, depth) == [v] + Forest(v, k, depth) + rest
  {
    hide Forest, Children;
  }

  lemma ForestSplit(v: Value, k: nat, n: nat, depth: nat) returns (rest: seq<Value>)
    requires k <= n <= |Children(v)|
    ensures Forest(v, n, depth) == Forest(v, k, depth) + rest
    decreases n
  {
    if k == n {
      rest := [];
    } else {
      var middle := ForestSplit(v, k, n - 1, depth);
      rest := middle + Preorder(Children(v)[n - 1], depth + 1);
    }
  }

  lemma WalkedNothing(normalize: string -> Option<string>, es: seq<Entry>, v: nat)
    requires Tidy(es)
    ensures Walked(normalize, es, v, [], es, v)
  {
  }

  /** Visits the first nodes of the preorder, as many as the budget allows. */
  method CollectToolLocations(normalize: string -> Option<string>, value: Value, locations: LocationMap,
                              state: Visits, depth: nat)
    requires Tidy(locations.entries)
    modifies locations, state
    ensures Walked(normalize, old(locations.entries), old(state.visited), Visited(value, depth, old(state.visited)),
                   locations.entries, state.visited)
    ensures Tidy(locations.entries)
    decreases value
  {
    hide Children, Visited, VisitedTo, AddAll, OwnAll, Tidy;
    ghost var es, v := locations.entries, state.visited;
    WalkedNothing(normalize, es, v);
    VisitStarts(value, depth, v);
    if state.visited >= MAX_NODES || depth > MAX_DEPTH {
      return;
    }
    VisitOwn(normalize, value, locations, state);
    var children := Children(value);
    var k := 0;
    while k < |children|
      invariant k <= |children|
      invariant Walked(normalize, es, v, VisitedTo(value, k, depth, v), locations.entries, state.visited)
      decreases |children| - k
    {
      ghost var es1, v1 := locations.entries, state.visited;
      CollectToolLocations(normalize, children[k], locations, state, depth + 1);
      VisitGoesOn(value, k, depth, v);
      WalkedThen(normalize, es, v, VisitedTo(value, k, depth, v), es1, v1, Visited(children[k], depth + 1, v1),
                 locations.entries, state.visited);
      k := k + 1;
      if state.visited >= MAX_NODES {
        VisitEnds(value, k, depth, v);
        return;
      }
    }
    VisitEnds(value, k, depth, v);
  }

  // ---- the limits ----

  /** All nodes of a value, parents first. */
  function AllNodes(v: Value): seq<Value>
    decreases v, |Children(v)| + 1
  {
    [v] + AllBelow(v, |Children(v)|)
  }

  function AllBelow(v: Value, k: nat): seq<Value>
    requires k <= |Children(v)|
    decreases v, k
  {
    if k == 0 then [] else AllBelow(v, k - 1) + AllNodes(Children(v)[k - 1])
  }

  /** No node lies deeper than `room` below `v`. */
  predicate Fits(v: Value, room: int)
    decreases v
  {
    room >= 0 && forall i | 0 <= i < |Children(v)| :: Fits(Children(v)[i], room - 1)
  }

  lemma {:induction false} ShallowPreorder(v: Value, depth: nat)
    requires Fits(v, MAX_DEPTH - depth)
    ensures Preorder(v, depth) == AllNodes(v)
    decreases v, |Children(v)| + 1
  {
    ShallowForest(v, |Children(v)|, depth);
  }

  lemma {:induction false} ShallowForest(v: Value, k: nat, depth: nat)
    requires k <= |Children(v)| && Fits(v, MAX_DEPTH - depth)
    ensures Forest(v, k, depth) == AllBelow(v, k)
    decreases v, k
  {
    if k == 0 {
    } else {
      ShallowForest(v, k - 1, depth);
      ShallowPreorder(Children(v)[k - 1], depth + 1);
    }
  }

  /** A value within both limits is walked like an unbounded walk would; any
      value is walked over at most 100 nodes. */
  lemma WithinLimits(v: Value)
    ensures |Visited(v, 0, 0)| <= 100
    ensures Fits(v, 4) && |AllNodes(v)| <= 100 ==> Visited(v, 0, 0) == AllNodes(v)
  {
    if Fits(v, MAX_DEPTH) { ShallowPreorder(v, 0); }
  }

  // ---- the entry point ----

  /** What is visited in each value: each has its own budget. */
  function VisitedIn(values: seq<Value>): seq<Value> {
    if values == [] then [] else VisitedIn(values[..|values| - 1]) + Visited(values[|values| - 1], 0, 0)
  }

  method ExtractToolCallLocations(normalize: string -> Option<string>, values: seq<Value>)
          returns (found: seq<Location>)
    ensures forall l :: l in found <==> Kept(OwnAll(normalize, VisitedIn(values)), l)
    ensures forall i, j | 0 <= i < j < |found| :: found[i] != found[j]
    ensures var es := AddAll([], OwnAll(normalize, VisitedIn(values)));
            |found| == |es| && forall i | 0 <= i < |es| :: found[i] == es[i].location
  {
    hide AddAll, OwnAll, Tidy, Visited, Kept, Locations;
    var locations := new LocationMap();
    ghost var seen: nat := 0;
    NothingTidy();
    WalkedNothing(normalize, [], 0);
    for i := 0 to |values|
      invariant fresh(locations) && Walked(normalize, [], 0, VisitedIn(values[..i]), locations.entries, seen)
      invariant Tidy(locations.entries)
    {
      assert values[..i + 1][..i] == values[..i];
      var state := new Visits();
      ghost var es := locations.entries;
      CollectToolLocations(normalize, values[i], locations, state, 0);
      ghost var more := Visited(values[i], 0, 0);
      WalkedShift(normalize, es, 0, seen, more, locations.entries);
      WalkedThen(normalize, [], 0, VisitedIn(values[..i]), es, seen, more, locations.entries, seen + |more|);
      seen := seen + |more|;
    }
    assert values[..|values|] == values;
    MapIsKept(OwnAll(normalize, VisitedIn(values)));
    found := seq(|locations.entries|, i requires 0 <= i < |locations.entries| reads locations =>
                                             locations.entries[i].location);
    FoundAre(locations.entries, found);
  }

  lemma NothingTidy()
    ensures Tidy([])
  {
  }

  lemma WalkedShift(normalize: string -> Option<string>, es: seq<Entry>, v: nat, w: nat, nodes: seq<Value>,
                    es': seq<Entry>)
    requires Walked(normalize, es, v, nodes, es', v + |nodes|)
    ensures Walked(normalize, es, w, nodes, es', w + |nodes|)
  {
    hide AddAll, OwnAll, Tidy;
  }

  lemma FoundAre(es: seq<Entry>, found: seq<Location>)
    requires Tidy(es) && |found| == |es| && forall i | 0 <= i < |es| :: found[i] == es[i].location
    ensures forall l :: l in found <==> l in Locations(es)
    ensures forall i, j | 0 <= i < j < |found| :: found[i] != found[j]
  {
    forall l | l in Locations(es) ensures l in found {
      var i :| 0 <= i < |es| && es[i].location == l;
      assert found[i] == l;
    }
  }
}
