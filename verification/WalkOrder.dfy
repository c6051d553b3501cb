/** Which nodes the walk visits and in which order, what each of them names, and
    where a location is put (src/acp/event-mapper.ts). */
module WalkOrder {
  import opened Text
  import opened ToolLocations
  import opened LocationWalk

  // ---- the nodes ----

  /** A node comes before what is nested in it, nothing lies deeper than the
      limit, and a leaf is walked alone. */
  lemma NodeFirst(v: Value, depth: nat)
    ensures depth > MAX_DEPTH ==> Preorder(v, depth) == []
    ensures depth <= MAX_DEPTH ==> |Preorder(v, depth)| > 0 && Preorder(v, depth)[0] == v
    ensures depth <= MAX_DEPTH && Children(v) == [] ==> Preorder(v, depth) == [v]
  {
  }

  /** One nested value is walked one level deeper. */
  lemma OneDeeper(x: Value, depth: nat)
    requires depth <= MAX_DEPTH
    ensures Preorder(Array([x]), depth) == [Array([x])] + Preorder(x, depth + 1)
  {
    ForestStep(Array([x]), 0, depth);
    assert Forest(Array([x]), 0, depth) == [];
  }

  /** What is nested is walked from left to right, the first whole before the
      second begins. */
  lemma LeftToRight(a: seq<Value>, b: seq<Value>, depth: nat)
    requires depth <= MAX_DEPTH
    ensures Preorder(Array(a + b), depth)[1..] == Preorder(Array(a), depth)[1..] + Preorder(Array(b), depth)[1..]
  {
    hide Forest, Preorder;
    ForestOfConcat(a, b, |b|, depth);
    ForestOfPrefix(Array(a + b), Array(a), |a|, depth);
    PreorderBelow(Array(a + b), depth);
    PreorderBelow(Array(a), depth);
    PreorderBelow(Array(b), depth);
  }

  lemma PreorderBelow(v: Value, depth: nat)
    requires depth <= MAX_DEPTH
    ensures |Preorder(v, depth)| > 0 && Preorder(v, depth)[1..] == Forest(v, |Children(v)|, depth)
  {
    hide Forest, Children;
  }

  /** A record is walked like the list of what is nested in it. */
  lemma RecordsAlike(v: Value, depth: nat)
    requires depth <= MAX_DEPTH
    ensures Preorder(v, depth)[1..] == Preorder(Array(Children(v)), depth)[1..]
  {
    ForestOfPrefix(v, Array(Children(v)), |Children(v)|, depth);
    hide Forest;
  }

  lemma {:induction false} ForestOfPrefix(v: Value, w: Value, k: nat, depth: nat)
    requires k <= |Children(v)| && k <= |Children(w)| && Children(v)[..k] == Children(w)[..k]
    ensures Forest(v, k, depth) == Forest(w, k, depth)
  {
    if k == 0 {
    } else {
      assert Children(v)[..k][k - 1] == Children(w)[..k][k - 1];
      assert Children(v)[..k - 1] == Children(v)[..k][..k - 1] == Children(w)[..k][..k - 1] == Children(w)[..k - 1];
      ForestOfPrefix(v, w, k - 1, depth);
      hide Preorder;
    }
  }

  lemma NoForest(v: Value, depth: nat)
    ensures Forest(v, 0, depth) == []
  {
  }

  lemma {:induction false} ForestOfConcat(a: seq<Value>, b: seq<Value>, k: nat, depth: nat)
    requires k <= |b|
    ensures Forest(Array(a + b), |a| + k, depth) == Forest(Array(a + b), |a|, depth) + Forest(Array(b), k, depth)
  {
    hide Forest, Preorder;
    var all := Array(a + b);
    NoForest(Array(b), depth);
    if k == 0 {
    } else {
      ForestOfConcat(a, b, k - 1, depth);
      ForestStep(all, |a| + k - 1, depth);
      ForestStep(Array(b), k - 1, depth);
      assert Children(all)[|a| + k - 1] == b[k - 1];
      ThreeParts(Forest(all, |a|, depth), Forest(Array(b), k - 1, depth), Preorder(b[k - 1], depth + 1));
    }
  }

  lemma ThreeParts<T>(x: seq<T>, y: seq<T>, z: seq<T>)
    ensures (x + y) + z == x + (y + z)
  {
  }

  /** The budget cuts the walk off, wherever it stands. */
  lemma BudgetCuts(v: Value, depth: nat, visited: nat)
    ensures Visited(v, depth, visited) <= Preorder(v, depth)
    ensures visited + |Visited(v, depth, visited)| <= MAX_NODES || Visited(v, depth, visited) == []
    ensures Visited(v, depth, visited) == Preorder(v, depth)
            || visited + |Visited(v, depth, visited)| == MAX_NODES || visited > MAX_NODES
  {
    hide Preorder;
  }

  /** Each value of a call is walked with a budget of its own. */
  lemma {:induction false} EachIsWalked(values: seq<Value>, node: Value)
    ensures node in VisitedIn(values) <==> exists i :: 0 <= i < |values| && node in Visited(values[i], 0, 0)
  {
    hide Visited;
    if values == [] {
    } else {
      var n := |values| - 1;
      EachIsWalked(values[..n], node);
      if i :| 0 <= i < n && node in Visited(values[..n][i], 0, 0) { assert node in Visited(values[i], 0, 0); }
      if i :| 0 <= i < |values| && node in Visited(values[i], 0, 0) {
        if i < n { assert node in Visited(values[..n][i], 0, 0); }
      }
    }
  }

  // ---- what a node names ----

  /** One of the raw paths is acceptable and reads as `path`. */
  predicate Reads(normalize: string -> Option<string>, raw: seq<string>, path: string) {
    exists i :: 0 <= i < |raw| && normalize(raw[i]) == Some(path)
  }

  /** A path of a record carries the record's line, a path in a text marker none. */
  predicate Names(normalize: string -> Option<string>, v: Value, l: Location) {
    || (v.Record? && Reads(normalize, v.paths, l.path) && l.line == v.line)
    || ((v.Record? || v.Words?) && Reads(normalize, v.markers, l.path) && l.line.None?)
  }

  lemma {:induction false} AcceptedAre(normalize: string -> Option<string>, raw: seq<string>, line: Option<nat>,
                                       l: Location)
    ensures l in Accepted(normalize, raw, line) <==> Reads(normalize, raw, l.path) && l.line == line
  {
    if raw == [] {
    } else {
      var n := |raw| - 1;
      AcceptedAre(normalize, raw[..n], line, l);
      if Reads(normalize, raw[..n], l.path) {
        var i :| 0 <= i < n && normalize(raw[..n][i]) == Some(l.path);
        assert normalize(raw[i]) == Some(l.path);
      }
      if Reads(normalize, raw, l.path) {
        var i :| 0 <= i < |raw| && normalize(raw[i]) == Some(l.path);
        if i < n { assert normalize(raw[..n][i]) == Some(l.path); }
      }
    }
  }

  lemma OwnAre(normalize: string -> Option<string>, v: Value, l: Location)
    ensures l in Own(normalize, v) <==> Names(normalize, v, l)
  {
    if v.Record? {
      AcceptedAre(normalize, v.paths, v.line, l);
      AcceptedAre(normalize, v.markers, None, l);
    }
    if v.Words? { AcceptedAre(normalize, v.markers, None, l); }
    hide Accepted, Reads;
  }

  lemma {:induction false} OwnAllAre(normalize: string -> Option<string>, nodes: seq<Value>, l: Location)
    ensures l in OwnAll(normalize, nodes) <==> exists i :: 0 <= i < |nodes| && Names(normalize, nodes[i], l)
  {
    hide Own, Names;
    if nodes == [] {
    } else {
      OwnAre(normalize, nodes[0], l);
      OwnAllAre(normalize, nodes[1..], l);
      if i :| 0 <= i < |nodes[1..]| && Names(normalize, nodes[1..][i], l) { assert Names(normalize, nodes[i + 1], l); }
      if i :| 0 <= i < |nodes| && Names(normalize, nodes[i], l) {
        if i > 0 { assert Names(normalize, nodes[1..][i - 1], l); }
      }
    }
  }

  /** Some visited node of some value names the location. */
  ghost predicate Mentioned(normalize: string -> Option<string>, values: seq<Value>, l: Location) {
    exists node :: node in VisitedIn(values) && Names(normalize, node, l)
  }

  /** A call has just the locations its visited nodes name, where one without a
      line gives way to any with a line for the same path. */
  lemma FoundIff(normalize: string -> Option<string>, values: seq<Value>, l: Location)
    ensures Kept(OwnAll(normalize, VisitedIn(values)), l) <==>
            && Mentioned(normalize, values, l)
            && (l.line.None? ==> forall n: nat :: !Mentioned(normalize, values, Location(l.path, Some(n))))
  {
    hide OwnAll, VisitedIn, Names, Mentioned;
    var adds := OwnAll(normalize, VisitedIn(values));
    forall m: Location ensures m in adds <==> Mentioned(normalize, values, m) {
      MentionedIff(normalize, values, m);
    }
    if l.line.None? && Mentioned(normalize, values, l) {
      forall m | m in adds && m.path == l.path && m.line.Some?
        ensures Mentioned(normalize, values, Location(l.path, Some(m.line.value)))
      {
        assert m == Location(l.path, Some(m.line.value));
      }
      forall n: nat | Mentioned(normalize, values, Location(l.path, Some(n)))
        ensures Location(l.path, Some(n)) in adds
      {
      }
    }
  }

  lemma MentionedIff(normalize: string -> Option<string>, values: seq<Value>, l: Location)
    ensures l in OwnAll(normalize, VisitedIn(values)) <==> Mentioned(normalize, values, l)
  {
    hide OwnAll, VisitedIn, Names;
    var nodes := VisitedIn(values);
    OwnAllAre(normalize, nodes, l);
    if Mentioned(normalize, values, l) {
      var node :| node in nodes && Names(normalize, node, l);
      var i :| 0 <= i < |nodes| && nodes[i] == node;
      assert Names(normalize, nodes[i], l);
    }
  }

  // ---- where a location is put ----

  function Stays(e: Entry, path: string): seq<Entry> { if e.location == Location(path, None) then [] else [e] }

  lemma WithoutSnoc(es: seq<Entry>, e: Entry, path: string)
    ensures Without(es + [e], path) == Without(es, path) + Stays(e, path)
  {
    assert (es + [e])[..|es|] == es;
  }

  lemma WithoutEmpty(path: string)
    ensures Without([], path) == []
  {
  }

  lemma {:induction false} WithoutConcat(a: seq<Entry>, b: seq<Entry>, path: string)
    ensures Without(a + b, path) == Without(a, path) + Without(b, path)
  {
    hide Without, Stays;
    if b == [] {
      WithoutEmpty(path);
      assert a + b == a;
    } else {
      var first, e := b[..|b| - 1], b[|b| - 1];
      assert first + [e] == b;
      calc {
        Without(a + b, path);
        { ThreeParts(a, first, [e]); WithoutSnoc(a + first, e, path); }
        Without(a + first, path) + Stays(e, path);
        { WithoutConcat(a, first, path); }
        (Without(a, path) + Without(first, path)) + Stays(e, path);
        { ThreeParts(Without(a, path), Without(first, path), Stays(e, path)); }
        Without(a, path) + (Without(first, path) + Stays(e, path));
        { WithoutSnoc(first, e, path); }
        Without(a, path) + Without(b, path);
      }
    }
  }

  /** Nothing of the path was there: the location is put last. */
  lemma PutLast(es: seq<Entry>, l: Location)
    requires forall i | 0 <= i < |es| :: es[i].location.path != l.path
    ensures Added(es, l) == es + [Entry(KeyOf(l), l)]
  {
    hide KeyOf;
    WithoutNone(es, l.path);
  }

  /** With a line it takes no place over: the entry without one goes, the others
      stay in order, and the new one is last. */
  lemma PutInstead(a: seq<Entry>, e: Entry, b: seq<Entry>, l: Location)
    requires e.location == Location(l.path, None) && l.line.Some?
    requires forall i | 0 <= i < |a| :: a[i].location.path != l.path
    requires forall i | 0 <= i < |b| :: b[i].location.path != l.path
    ensures Added(a + [e] + b, l) == a + b + [Entry(KeyOf(l), l)]
  {
    hide KeyOf, Without;
    WithoutNone(a, l.path);
    WithoutNone(b, l.path);
    WithoutConcat(a + [e], b, l.path);
    WithoutConcat(a, [e], l.path);
    WithoutOne(e, l.path);
    assert a + [] == a;
  }

  lemma WithoutOne(e: Entry, path: string)
    requires e.location == Location(path, None)
    ensures Without([e], path) == []
  {
    assert [e][..0] == [];
  }

  /** Another line of a path that has lines is put last too. */
  lemma PutBeside(es: seq<Entry>, l: Location)
    requires l.line.Some?
    requires forall i | 0 <= i < |es| :: es[i].location != l && es[i].location != Location(l.path, None)
    ensures Added(es, l) == es + [Entry(KeyOf(l), l)]
  {
    hide KeyOf;
    WithoutNone(es, l.path);
  }

  /** A location that is there, or a bare path that is there, changes nothing. */
  lemma NothingPut(es: seq<Entry>, l: Location, i: nat)
    requires i < |es| && es[i].location.path == l.path && (l.line.None? || es[i].location == l)
    ensures Added(es, l) == es
  {
    hide KeyOf, Without;
    assert es[i].location in Locations(es);
  }
}
