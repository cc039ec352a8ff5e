/** What a call-graph query reads: the coordinates the store lists, the record it
    serves at each, and which module a symbol belongs to. */
module CallGraphStore {
  import opened Wrappers
  import opened Seqs

  /** How much of a module an analysis built. */
  datatype Level = UnknownLevel | BuiltWithBodies | TypeOnly | MetadataOnly | FailedLevel

  predicate BelowFull(l: Level) {
    l != UnknownLevel && l != BuiltWithBodies
  }

  /** Whether an axis of the analysis was measured. */
  datatype Scope = Unmeasured | Analysed | Excluded

  datatype Confidence = Direct | ChaOverapprox | Vta | Framework | UnknownCallee

  datatype Node = Node(id: string, symbol: string, receiver: string, isTest: bool,
                       usesUnsafePointer: bool, isAssemblyOrLinkname: bool, usesPlugin: bool)

  datatype Edge = Edge(fromId: string, toId: string, confidence: Confidence)

  datatype Record = Record(
    partial: bool, failedPackages: seq<string>, failureCause: string, failureDetail: string,
    analyserLimit: bool, analysisRoot: string, completeness: Level,
    testScope: Scope, testScopeDetail: string, referenceScope: Scope,
    nodes: seq<Node>, edges: seq<Edge>)

  /** A row of the listing, with the columns that say whether any generation
      under it is partial, or below full fidelity. */
  datatype Coordinate = Coordinate(path: string, version: string, pipeline: string,
                                   anyPartial: bool, anyBelowFull: bool)

  /** What reading a coordinate's record yields; Conflict is generations that
      disagree, Unreadable any other failure, a coordinate naming no module
      among them. */
  datatype Read = Served(rec: Record) | Missing | Conflict | Unreadable

  /** One key of the record store; toolchain is the reader's preference. */
  datatype Key = Key(path: string, version: string, pipeline: string, toolchain: string)

  /** The store during one command. listing is None when it cannot be listed;
      otherFrames are the module versions held under some other build frame;
      gapsRead and worktreeRead say whether the reads succeed that look for
      superseded edges and for the working tree that answers. */
  datatype Store = Store(listing: Option<seq<Coordinate>>, records: map<Key, Read>,
                         otherFrames: set<(string, string)>, stdlibInOtherFrame: bool,
                         gapsRead: bool, worktreeRead: bool)

  function ReadAt(st: Store, c: Coordinate, toolchain: string): Read {
    var k := Key(c.path, c.version, c.pipeline, toolchain);
    if k in st.records then st.records[k] else Missing
  }

  /** The build a query is restricted to, if any. */
  datatype ModuleSet = Everything | Only(members: set<(string, string)>)

  predicate Contains(scope: ModuleSet, c: Coordinate) {
    scope.Only? ==> (c.path, c.version) in scope.members
  }

  /** Which pipeline versions a listing admits. */
  datatype PipelineFilter = AnyPipeline | Exactly(version: string)

  predicate Admits(f: PipelineFilter, c: Coordinate) {
    f.Exactly? ==> c.pipeline == f.version
  }

  function Listed(coords: seq<Coordinate>, scope: ModuleSet, f: PipelineFilter): seq<Coordinate> {
    Filter(Filter(coords, c => Admits(f, c)), c => Contains(scope, c))
  }

  lemma InListed(coords: seq<Coordinate>, scope: ModuleSet, f: PipelineFilter, c: Coordinate)
    ensures c in Listed(coords, scope, f) <==> c in coords && Admits(f, c) && Contains(scope, c)
  {
    InFilter(coords, c => Admits(f, c), c);
    InFilter(Filter(coords, c => Admits(f, c)), c => Contains(scope, c), c);
  }

  /** The store's own listing, filtered by pipeline version. */
  method ListCallGraphCoordinates(st: Store, f: PipelineFilter) returns (r: Option<seq<Coordinate>>)
    ensures r == (if st.listing.None? then None else Some(Filter(st.listing.value, c => Admits(f, c))))
  {
    if st.listing.None? {
      return None;
    }
    r := Some(Filter(st.listing.value, c => Admits(f, c)));
  }

  method ListCoordinates(st: Store, scope: ModuleSet, f: PipelineFilter) returns (r: Option<seq<Coordinate>>)
    ensures r == (if st.listing.None? then None else Some(Listed(st.listing.value, scope, f)))
  {
    var coords := ListCallGraphCoordinates(st, f);
    if coords.None? {
      return None;
    }
    var all, inScope := coords.value, c => Contains(scope, c);
    if scope.Everything? {
      KeepsAll(all, inScope);
      return coords;
    }
    var out := [];
    for i := 0 to |all|
      invariant out == Filter(all[..i], inScope)
    {
      FilterStep(all, i, inScope);
      if (all[i].path, all[i].version) in scope.members {
        out := out + [all[i]];
      }
    }
    FilterAll(all, inScope);
    r := Some(out);
  }

  lemma {:induction false} KeepsAll(s: seq<Coordinate>, p: Coordinate -> bool)
    requires forall c :: p(c)
    ensures Filter(s, p) == s
  {
    if s != [] {
      KeepsAll(s[..|s| - 1], p);
    }
  }

  // ---- which module owns a symbol ----

  /** A module owns the symbols that equal its path or continue it at a
      package or a name. */
  predicate Owns(m: string, symbol: string) {
    m != "" && m <= symbol && (|symbol| > |m| ==> symbol[|m|] == '.' || symbol[|m|] == '/')
  }

  /** The longest listed path that owns the symbol, empty when none does. */
  function LongestOwner(paths: seq<string>, symbol: string): (best: string)
    ensures best != "" ==> best in paths && Owns(best, symbol)
    ensures forall m :: m in paths && Owns(m, symbol) ==> best != "" && |m| <= |best|
  {
    if paths == [] then ""
    else
      var n := |paths| - 1;
      var best := LongestOwner(paths[..n], symbol);
      assert paths == paths[..n] + [paths[n]];
      if Owns(paths[n], symbol) && |paths[n]| > |best| then paths[n] else best
  }

  method ResolveSymbolModule(symbol: string, paths: seq<string>) returns (best: string, ok: bool)
    ensures best == LongestOwner(paths, symbol) && (ok <==> best != "")
  {
    best := "";
    for i := 0 to |paths|
      invariant best == LongestOwner(paths[..i], symbol)
    {
      assert paths[..i + 1][..i] == paths[..i];
      var m := paths[i];
      var owns := m != "" && m <= symbol;
      if owns && |symbol| > |m| {
        owns := symbol[|m|] == '.' || symbol[|m|] == '/';
      }
      if owns && |m| > |best| {
        best := m;
      }
    }
    assert paths[..|paths|] == paths;
    ok := best != "";
  }

  /** A module's own symbols are its path, its names and what lies in its packages;
      another path that merely begins with its own is not among them. */
  lemma OwnsIff(m: string, symbol: string)
    ensures Owns(m, symbol) <==>
              m != "" && (symbol == m || exists rest: string :: symbol == m + "." + rest || symbol == m + "/" + rest)
  {
    if m <= symbol && |symbol| > |m| {
      var rest := symbol[|m| + 1..];
      assert symbol == m + [symbol[|m|]] + rest;
    }
    if rest: string :| symbol == m + "." + rest || symbol == m + "/" + rest {
      assert m <= symbol && (symbol[|m|] == '.' || symbol[|m|] == '/');
    }
  }

  /** The owner is unique: it is any listed owner no listed owner is longer than. */
  lemma OwnerIsUnique(paths: seq<string>, symbol: string, m: string)
    requires m in paths && Owns(m, symbol)
    requires forall o :: o in paths && Owns(o, symbol) ==> |o| <= |m|
    ensures LongestOwner(paths, symbol) == m
  {
    var best := LongestOwner(paths, symbol);
    assert best == symbol[..|m|] == m;
  }

  /** Narrowing a listing keeps the owner, as long as the owner survives it. */
  lemma NarrowingKeepsTheOwner(wide: seq<string>, narrow: seq<string>, symbol: string)
    requires forall m :: m in narrow ==> m in wide
    requires LongestOwner(wide, symbol) in narrow && LongestOwner(wide, symbol) != ""
    ensures LongestOwner(narrow, symbol) == LongestOwner(wide, symbol)
  {
    OwnerIsUnique(narrow, symbol, LongestOwner(wide, symbol));
  }

  function Paths(coords: seq<Coordinate>): (r: seq<string>)
    ensures |r| == |coords| && forall i :: 0 <= i < |coords| ==> r[i] == coords[i].path
  {
    Map(coords, (c: Coordinate) => c.path)
  }

  lemma InPaths(coords: seq<Coordinate>, m: string)
    ensures m in Paths(coords) <==> exists c :: c in coords && c.path == m
  {
    if m in Paths(coords) {
      var i :| 0 <= i < |coords| && Paths(coords)[i] == m;
      assert coords[i] in coords;
    }
    if c :| c in coords && c.path == m {
      var i :| 0 <= i < |coords| && coords[i] == c;
      assert Paths(coords)[i] == m;
    }
  }

  method CoordinatePaths(coords: seq<Coordinate>) returns (paths: seq<string>)
    ensures paths == Paths(coords)
  {
    paths := [];
    for i := 0 to |coords|
      invariant paths == Paths(coords)[..i]
    {
      paths := paths + [coords[i].path];
    }
  }
}
