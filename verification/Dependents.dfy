/** Which modules of one build depend on a module: the union over its versions,
    annotated, sorted, and narrowed in place. */
module Dependents {
  import opened Wrappers
  import opened Seqs
  import opened Order
  import opened Coordinates

  datatype GraphNode = GraphNode(coord: Coord, direct: bool)

  datatype GraphEdge = GraphEdge(from: Coord, to: Coord)

  datatype Walk = Walk(target: Coord, nodes: seq<GraphNode>, edges: seq<GraphEdge>)

  datatype Row = Row(coord: Coord, direct: bool, root: bool)

  datatype RootScope = RootScope(root: Coord, excluded: bool, dependsOnTarget: bool)

  // ---- the answer, stated ----

  predicate IsDirect(w: Walk, c: Coord) {
    exists n :: n in w.nodes && n.direct && n.coord == c
  }

  function RowOf(w: Walk, c: Coord): Row {
    Row(c, IsDirect(w, c), c == w.target)
  }

  /** c has an edge into one of the targets. */
  predicate DependsOn(w: Walk, c: Coord, targets: seq<Coord>) {
    exists e :: e in w.edges && e.from == c && e.to in targets
  }

  /** The rows of an answer over these targets. */
  predicate Answers(w: Walk, targets: seq<Coord>, includeRoot: bool, row: Row) {
    row == RowOf(w, row.coord) && DependsOn(w, row.coord, targets) && (row.root ==> includeRoot)
  }

  /** The root first, then by path, then by version. No two rows of an answer
      share a coordinate; the last clause only makes the order total. */
  predicate RowLess(a: Row, b: Row) {
    if a.root != b.root then a.root
    else if a.coord != b.coord then PairLess((a.coord.path, a.coord.version), (b.coord.path, b.coord.version))
    else !a.direct && b.direct
  }

  lemma RowLessIsStrict()
    ensures StrictOrder(RowLess)
  {
    PairLessIsStrict();
    forall x, y
      ensures !RowLess(x, x) && (x == y || RowLess(x, y) || RowLess(y, x))
    {
      assert x.coord == y.coord || (x.coord.path, x.coord.version) != (y.coord.path, y.coord.version);
    }
    forall x, y, z | RowLess(x, y) && RowLess(y, z)
      ensures RowLess(x, z)
    {
      RowTransitive(x, y, z);
    }
  }

  lemma RowTransitive(x: Row, y: Row, z: Row)
    requires StrictOrder(PairLess) && RowLess(x, y) && RowLess(y, z)
    ensures RowLess(x, z)
  {
    var a, b, c := (x.coord.path, x.coord.version), (y.coord.path, y.coord.version), (z.coord.path, z.coord.version);
    if x.root == y.root == z.root && a != b && b != c {
      assert PairLess(a, c);
      assert !PairLess(a, a);
    }
  }

  /** The one list that answers: its rows, each once, in order. */
  ghost predicate IsAnswer(w: Walk, targets: seq<Coord>, includeRoot: bool, rows: seq<Row>) {
    Ascending(rows, RowLess) && forall row :: row in rows <==> Answers(w, targets, includeRoot, row)
  }

  /** One row stands before another: the root first, then the lesser path, and of one
      path the lesser version. */
  predicate StandsBefore(a: Row, b: Row) {
    || (a.root && !b.root)
    || (a.root == b.root && StrLess(a.coord.path, b.coord.path))
    || (a.root == b.root && a.coord.path == b.coord.path && StrLess(a.coord.version, b.coord.version))
  }

  lemma RowsStandInOrder(w: Walk, rows: seq<Row>)
    requires Ascending(rows, RowLess) && forall row :: row in rows ==> row == RowOf(w, row.coord)
    ensures forall i, j :: 0 <= i < j < |rows| ==> StandsBefore(rows[i], rows[j])
  {
    forall i, j | 0 <= i < j < |rows|
      ensures StandsBefore(rows[i], rows[j])
    {
      assert rows[i] in rows && rows[j] in rows && RowLess(rows[i], rows[j]);
      assert RowOf(w, rows[i].coord) == rows[i] && RowOf(w, rows[j].coord) == rows[j];
    }
  }

  // ---- how it is computed ----

  method DirectDeps(w: Walk) returns (direct: set<Coord>)
    ensures forall c :: c in direct <==> IsDirect(w, c)
  {
    direct := {};
    for i := 0 to |w.nodes|
      invariant forall c :: c in direct <==> exists n :: n in w.nodes[..i] && n.direct && n.coord == c
    {
      assert w.nodes[..i + 1] == w.nodes[..i] + [w.nodes[i]];
      if w.nodes[i].direct {
        direct := direct + {w.nodes[i].coord};
      }
    }
    assert w.nodes[..|w.nodes|] == w.nodes;
  }

  /** c is the near end of an edge, among the first n, into t. */
  predicate Seen(w: Walk, n: nat, t: Coord, c: Coord)
    requires n <= |w.edges|
  {
    exists i :: 0 <= i < n && w.edges[i].from == c && w.edges[i].to == t
  }

  method WalkDependents(w: Walk, t: Coord, includeRoot: bool) returns (out: seq<Row>, scope: RootScope)
    ensures IsAnswer(w, [t], includeRoot, out)
    ensures scope == RootScope(w.target, !includeRoot, DependsOn(w, w.target, [t]))
  {
    var direct := DirectDeps(w);
    var seen: set<Coord> := {};
    out := [];
    scope := RootScope(w.target, !includeRoot, false);
    for i := 0 to |w.edges|
      invariant forall c :: c in seen <==> Seen(w, i, t, c)
      invariant forall row :: row in out <==> row.coord in seen && row == RowOf(w, row.coord) && (row.root ==> includeRoot)
      invariant Distinct(out)
      invariant scope == RootScope(w.target, !includeRoot, w.target in seen)
    {
      var e := w.edges[i];
      if e.to.path != t.path || e.to.version != t.version {
        continue;
      }
      if e.from in seen {
        continue;
      }
      seen := seen + {e.from};
      var isRoot := e.from.path == w.target.path && e.from.version == w.target.version;
      if isRoot {
        scope := scope.(dependsOnTarget := true);
      }
      if isRoot && !includeRoot {
        continue;
      }
      out := out + [Row(e.from, e.from in direct, isRoot)];
    }
    forall c
      ensures Seen(w, |w.edges|, t, c) <==> DependsOn(w, c, [t])
    {
      SeenIsDependsOn(w, t, c);
    }
    RowLessIsStrict();
    SortAscends(out, RowLess);
    out := Sort(out, RowLess);
  }

  lemma SeenIsDependsOn(w: Walk, t: Coord, c: Coord)
    ensures Seen(w, |w.edges|, t, c) <==> DependsOn(w, c, [t])
  {
    if i :| 0 <= i < |w.edges| && w.edges[i].from == c && w.edges[i].to == t {
      assert w.edges[i] in w.edges;
    }
  }

  /** The union over every target. With no target at all the scope stays at its
      zero value, which states neither the root nor that it was excluded. */
  method WalkDependentsOver(w: Walk, targets: seq<Coord>, includeRoot: bool) returns (out: seq<Row>, scope: RootScope)
    ensures IsAnswer(w, targets, includeRoot, out)
    ensures scope.dependsOnTarget == DependsOn(w, w.target, targets)
    ensures scope == if targets == [] then RootScope(Coord("", ""), false, false)
                     else RootScope(w.target, !includeRoot, scope.dependsOnTarget)
  {
    out := [];
    scope := RootScope(Coord("", ""), false, false);
    var at: map<Coord, nat> := map[];
    for i := 0 to |targets|
      invariant Placed(out, at)
      invariant forall row :: row in out <==> Answers(w, targets[..i], includeRoot, row)
      invariant scope.dependsOnTarget == DependsOn(w, w.target, targets[..i])
      invariant scope == if i == 0 then RootScope(Coord("", ""), false, false)
                         else RootScope(w.target, !includeRoot, scope.dependsOnTarget)
    {
      var deps, sc := WalkDependents(w, targets[i], includeRoot);
      scope := if i == 0 then sc else scope.(dependsOnTarget := scope.dependsOnTarget || sc.dependsOnTarget);
      out, at := Union(w, out, at, deps);
      assert targets[..i + 1] == targets[..i] + [targets[i]];
      forall c
        ensures DependsOn(w, c, targets[..i + 1]) <==> DependsOn(w, c, targets[..i]) || DependsOn(w, c, [targets[i]])
      {
        OneMoreTarget(w, c, targets[..i], targets[i]);
      }
    }
    assert targets[..|targets|] == targets;
    RowLessIsStrict();
    SortAscends(out, RowLess);
    out := Sort(out, RowLess);
  }

  /** at says where each coordinate's row stands. */
  predicate Placed(out: seq<Row>, at: map<Coord, nat>) {
    && Distinct(out)
    && (forall c :: c in at ==> at[c] < |out| && out[at[c]].coord == c)
    && (forall i :: 0 <= i < |out| ==> out[i].coord in at && at[out[i].coord] == i)
  }

  /** Adds the rows not yet there, and strengthens those that are. */
  method Union(w: Walk, before: seq<Row>, placed: map<Coord, nat>, deps: seq<Row>) returns (out: seq<Row>, at: map<Coord, nat>)
    requires Placed(before, placed)
    requires forall row :: row in before || row in deps ==> row == RowOf(w, row.coord)
    ensures Placed(out, at)
    ensures forall row :: row in out <==> row in before || row in deps
  {
    out, at := before, placed;
    for k := 0 to |deps|
      invariant Placed(out, at)
      invariant forall row :: row in out <==> row in before || row in deps[..k]
    {
      var d := deps[k];
      assert d in deps && deps[..k + 1] == deps[..k] + [d];
      if d.coord !in at {
        at := at[d.coord := |out|];
        out := out + [d];
      } else {
        var j := at[d.coord];
        assert out[j] in out;
        assert out[j] == d;
        out := out[j := Row(out[j].coord, out[j].direct || d.direct, out[j].root || d.root)];
        assert out[j] == d;
      }
    }
    assert deps[..|deps|] == deps;
  }

  lemma OneMoreTarget(w: Walk, c: Coord, targets: seq<Coord>, t: Coord)
    ensures DependsOn(w, c, targets + [t]) <==> DependsOn(w, c, targets) || DependsOn(w, c, [t])
  {
    if e :| e in w.edges && e.from == c && e.to in targets {
      assert e.to in targets + [t];
    }
    if e :| e in w.edges && e.from == c && e.to in [t] {
      assert e.to in targets + [t];
    }
  }

  // ---- what the answer depends on ----

  /** Two builds with the same edges, nodes and root, asked about the same
      targets, give the same list, whatever order each was recorded in. */
  lemma OrderOfRecordDoesNotMatter(w: Walk, v: Walk, ts: seq<Coord>, us: seq<Coord>, includeRoot: bool, a: seq<Row>, b: seq<Row>)
    requires w.target == v.target
    requires forall n :: n in w.nodes <==> n in v.nodes
    requires forall e :: e in w.edges <==> e in v.edges
    requires forall t :: t in ts <==> t in us
    requires IsAnswer(w, ts, includeRoot, a) && IsAnswer(v, us, includeRoot, b)
    ensures a == b
  {
    RowLessIsStrict();
    forall row: Row
      ensures row in a <==> row in b
    {
      assert IsDirect(w, row.coord) == IsDirect(v, row.coord);
      assert DependsOn(w, row.coord, ts) == DependsOn(v, row.coord, us);
    }
    AscendingIsUnique(a, b, RowLess);
  }

  /** Asking for the root adds its row, first, exactly when the root depends on a
      target, and changes nothing else. */
  lemma IncludingTheRoot(w: Walk, ts: seq<Coord>, without: seq<Row>, withRoot: seq<Row>)
    requires IsAnswer(w, ts, false, without) && IsAnswer(w, ts, true, withRoot)
    ensures withRoot == (if DependsOn(w, w.target, ts) then [RowOf(w, w.target)] else []) + without
  {
    RowLessIsStrict();
    var expected := (if DependsOn(w, w.target, ts) then [RowOf(w, w.target)] else []) + without;
    forall i, j | 0 <= i < j < |expected|
      ensures RowLess(expected[i], expected[j])
    {
      if DependsOn(w, w.target, ts) {
        assert expected[j] == without[j - 1] && without[j - 1] in without;
      }
    }
    forall row
      ensures row in withRoot <==> row in expected
    {
      assert row in expected <==> row in without || (DependsOn(w, w.target, ts) && row == RowOf(w, w.target));
    }
    AscendingIsUnique(withRoot, expected, RowLess);
  }

  // ---- narrowing to direct dependents, in place ----

  predicate Shown(row: Row) {
    row.direct || row.root
  }

  /** Compacts the rows worth showing to the front of the array they are in. */
  method KeepDirect(deps: array<Row>) returns (n: nat)
    modifies deps
    ensures n <= deps.Length
    ensures deps[..n] == Filter(old(deps[..]), Shown)
  {
    n := 0;
    ghost var was := deps[..];
    for i := 0 to deps.Length
      invariant n <= i && deps[..n] == Filter(was[..i], Shown)
      invariant forall k :: i <= k < deps.Length ==> deps[k] == was[k]
    {
      FilterStep(was, i, Shown);
      var d := deps[i];
      if d.direct || d.root {
        deps[n] := d;
        n := n + 1;
        assert deps[..n] == deps[..n - 1] + [d];
      }
    }
    FilterAll(was, Shown);
  }

  /** The narrowed list is the answer to the narrowed question, still in order. */
  lemma {:induction false} NarrowedIsSorted(rows: seq<Row>)
    requires Ascending(rows, RowLess)
    ensures Ascending(Filter(rows, Shown), RowLess)
    ensures forall row :: row in Filter(rows, Shown) <==> row in rows && Shown(row)
  {
    forall row
      ensures row in Filter(rows, Shown) <==> row in rows && Shown(row)
    {
      InFilter(rows, Shown, row);
    }
    if rows != [] {
      var n := |rows| - 1;
      NarrowedIsSorted(rows[..n]);
      forall i | 0 <= i < |Filter(rows[..n], Shown)|
        ensures RowLess(Filter(rows[..n], Shown)[i], rows[n])
      {
        InFilter(rows[..n], Shown, Filter(rows[..n], Shown)[i]);
      }
    }
  }

  // ---- a bare path ----

  /** What makes a version one a coordinate can be built at. */
  predicate Constructible(c: Coord, isSemver: string -> bool) {
    c.path != "" && c.version != "" && (c.version == "local" || isSemver(c.version))
  }

  /** The distinct versions of a path the graph holds, in the order newer gives. */
  method GraphVersionsOf(w: Walk, path: string, newer: (string, string) -> bool) returns (out: seq<string>)
    ensures Distinct(out)
    ensures WeakOrder(newer) ==> InOrder(out, newer)
    ensures forall v :: v in out <==> exists n :: n in w.nodes && n.coord == Coord(path, v)
  {
    var seen: set<string> := {};
    out := [];
    for i := 0 to |w.nodes|
      invariant Distinct(out) && forall v :: v in seen <==> v in out
      invariant forall v :: v in out <==> exists n :: n in w.nodes[..i] && n.coord == Coord(path, v)
    {
      var n := w.nodes[i];
      assert w.nodes[..i + 1] == w.nodes[..i] + [n];
      if n.coord.path != path {
        continue;
      }
      assert n.coord == Coord(path, n.coord.version);
      if n.coord.version in seen {
        continue;
      }
      seen := seen + {n.coord.version};
      out := out + [n.coord.version];
    }
    assert w.nodes[..|w.nodes|] == w.nodes;
    var sorted := Sort(out, newer);
    forall v
      ensures v in sorted <==> v in out
    {
      SameElements(sorted, out, v);
    }
    DistinctPermutation(out, sorted);
    if WeakOrder(newer) {
      SortInOrder(out, newer);
    }
    out := sorted;
  }

  lemma DistinctPermutation(s: seq<string>, t: seq<string>)
    requires Distinct(s) && multiset(s) == multiset(t)
    ensures Distinct(t)
  {
    forall i, j | 0 <= i < j < |t|
      ensures t[i] != t[j]
    {
      if t[i] == t[j] {
        assert t == t[..i] + [t[i]] + t[i + 1..j] + [t[j]] + t[j + 1..];
        assert multiset(t)[t[i]] >= 2;
        OnceEach(s, t[i]);
      }
    }
  }

  lemma {:induction false} OnceEach(s: seq<string>, x: string)
    requires Distinct(s)
    ensures multiset(s)[x] <= 1
  {
    if s != [] {
      var n := |s| - 1;
      assert s == s[..n] + [s[n]];
      OnceEach(s[..n], x);
      if x == s[n] {
        assert x !in multiset(s[..n]);
      }
    }
  }

  /** The coordinates one question is answered over. */
  method DependentsTargets(w: Walk, c: Coord, newer: (string, string) -> bool, isSemver: string -> bool) returns (out: seq<Coord>)
    ensures c.version != "" ==> out == [c]
    ensures c.version == "" ==>
      forall t :: t in out <==>
        && t.path == c.path && t.path != "" && t.version != "" && (t.version == "local" || isSemver(t.version))
        && exists n :: n in w.nodes && n.coord == t
  {
    if c.version != "" {
      return [c];
    }
    var versions := GraphVersionsOf(w, c.path, newer);
    out := [];
    for i := 0 to |versions|
      invariant forall t :: t in out <==> t.path == c.path && t.version in versions[..i] && Constructible(t, isSemver)
    {
      assert versions[..i + 1] == versions[..i] + [versions[i]];
      var t := Coord(c.path, versions[i]);
      if t.path == "" || t.version == "" || (t.version != "local" && !isSemver(t.version)) {
        continue;
      }
      out := out + [t];
    }
    assert versions[..|versions|] == versions;
    forall t
      ensures t in out <==> t.path == c.path && Constructible(t, isSemver) && exists n :: n in w.nodes && n.coord == t
    {
      assert t == Coord(t.path, t.version);
    }
  }

  /** Over a graph whose edge ends are its nodes, a bare path's targets cover an
      edge into that path exactly when a coordinate can be built at its end: one
      into a node held at no version, or at one that is not semver, is dropped. */
  lemma BarePathCoverage(w: Walk, path: string, targets: seq<Coord>, isSemver: string -> bool, e: GraphEdge)
    requires forall t :: t in targets <==> t.path == path && Constructible(t, isSemver) && exists n :: n in w.nodes && n.coord == t
    requires e in w.edges && e.to.path == path
    requires forall d :: d in w.edges ==> exists n :: n in w.nodes && n.coord == d.to
    ensures e.to in targets <==> Constructible(e.to, isSemver)
    ensures Constructible(e.to, isSemver) ==> DependsOn(w, e.from, targets)
  {
  }

  /** The coordinates a question about c is answered over, stated. */
  predicate IsTarget(w: Walk, c: Coord, isSemver: string -> bool, t: Coord) {
    if c.version != "" then t == c
    else t.path == c.path && Constructible(t, isSemver) && exists n :: n in w.nodes && n.coord == t
  }

  /** The whole query: every module with an edge into a target, annotated, the
      root only when asked for, all or only the direct ones, each once, in order. */
  method DependentsWith(w: Walk, c: Coord, includeRoot: bool, directOnly: bool,
                        newer: (string, string) -> bool, isSemver: string -> bool) returns (rows: seq<Row>, scope: RootScope)
    ensures forall i, j :: 0 <= i < j < |rows| ==> StandsBefore(rows[i], rows[j])
    ensures forall row :: row in rows <==>
              && (exists e :: e in w.edges && e.from == row.coord && IsTarget(w, c, isSemver, e.to))
              && (row.root <==> row.coord == w.target) && (row.root ==> includeRoot)
              && (row.direct <==> exists n :: n in w.nodes && n.direct && n.coord == row.coord)
              && (directOnly ==> row.direct || row.root)
    ensures scope.dependsOnTarget <==> exists e :: e in w.edges && e.from == w.target && IsTarget(w, c, isSemver, e.to)
    ensures if exists t :: IsTarget(w, c, isSemver, t) then scope.root == w.target && scope.excluded == !includeRoot
            else scope == RootScope(Coord("", ""), false, false)
  {
    var targets := DependentsTargets(w, c, newer, isSemver);
    assert forall t :: t in targets <==> IsTarget(w, c, isSemver, t);
    assert targets != [] ==> targets[0] in targets;
    rows, scope := WalkDependentsOver(w, targets, includeRoot);
    if directOnly {
      NarrowedIsSorted(rows);
      rows := OnlyDirect(rows);
    }
    RowsStandInOrder(w, rows);
  }

  method OnlyDirect(rows: seq<Row>) returns (shown: seq<Row>)
    ensures shown == Filter(rows, Shown)
  {
    var deps := new Row[|rows|](i requires 0 <= i < |rows| => rows[i]);
    assert deps[..] == rows;
    var n := KeepDirect(deps);
    shown := deps[..n];
  }
}
