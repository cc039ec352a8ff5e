/** The verdict on an empty callers/callees answer: what is gathered from the
    records of the owning module, and when an absence may be called proven. */
module NegativeAnswer {
  import opened Wrappers
  import opened Order
  import opened CallGraphStore

  /** The signals gathered; a node is there exactly when the symbol was found. */
  datatype Inputs = Inputs(
    methodName: string, queriedNode: Option<Node>, moduleLevel: Level,
    edges: seq<Edge>, nodesById: map<string, Node>, scanDispatch: bool,
    testScope: Scope, testScopeDetail: string, referenceScope: Scope,
    droppedPackage: string, droppedDetail: string, testsExcluded: bool)

  /** The name after the last dot. */
  function MethodName(symbol: string): string {
    if symbol == [] then ""
    else
      var n := |symbol| - 1;
      if symbol[n] == '.' then "" else MethodName(symbol[..n]) + [symbol[n]]
  }

  function Start(symbol: string, scanDispatch: bool, droppedPackage: string, droppedDetail: string, testsExcluded: bool): Inputs {
    Inputs(MethodName(symbol), None, UnknownLevel, [], map[], scanDispatch,
           Analysed, "", Analysed, droppedPackage, droppedDetail, testsExcluded)
  }

  // ---- gathering ----

  /** The nodes so far, later ones displacing earlier ones of the same id. */
  function Index(m: map<string, Node>, nodes: seq<Node>): map<string, Node> {
    if nodes == [] then m
    else
      var n := |nodes| - 1;
      Index(m, nodes[..n])[nodes[n].id := nodes[n]]
  }

  /** The last node with this id. */
  function NodeNamed(nodes: seq<Node>, id: string): (r: Option<Node>)
    ensures r.Some? <==> exists n :: n in nodes && n.id == id
    ensures r.Some? ==> r.value in nodes && r.value.id == id
  {
    if nodes == [] then None
    else
      var n := |nodes| - 1;
      assert nodes == nodes[..n] + [nodes[n]];
      if nodes[n].id == id then Some(nodes[n]) else NodeNamed(nodes[..n], id)
  }

  /** The name is the symbol's tail after its last dot, or the whole of a symbol that
      has none. */
  predicate IsMethodName(symbol: string, name: string) {
    '.' !in name && (symbol == name ||
      (|symbol| > |name| && symbol[|symbol| - |name| - 1] == '.' && symbol[|symbol| - |name|..] == name))
  }

  lemma {:induction false} UndottedName(name: string)
    requires '.' !in name
    ensures MethodName(name) == name
  {
    if name != [] {
      UndottedName(name[..|name| - 1]);
      assert name == name[..|name| - 1] + [name[|name| - 1]];
    }
  }

  /** As symbols are written: the package, perhaps a receiver, a dot and the name. */
  lemma {:induction false} DottedName(prefix: string, name: string)
    requires '.' !in name
    ensures MethodName(prefix + "." + name) == name
  {
    var symbol := prefix + "." + name;
    if name != [] {
      var m := |name| - 1;
      assert symbol[..|symbol| - 1] == prefix + "." + name[..m] && symbol[|symbol| - 1] == name[m];
      DottedName(prefix, name[..m]);
      assert name == name[..m] + [name[m]];
    }
  }

  lemma MethodNameIs(symbol: string, name: string)
    requires IsMethodName(symbol, name)
    ensures MethodName(symbol) == name
  {
    if symbol == name {
      UndottedName(name);
    } else {
      var prefix := symbol[..|symbol| - |name| - 1];
      assert symbol == prefix + "." + name;
      DottedName(prefix, name);
    }
  }

  /** Of the nodes of one id the last is meant. */
  lemma {:induction false} LastNodeIsNamed(nodes: seq<Node>, i: nat)
    requires i < |nodes| && forall j :: i < j < |nodes| ==> nodes[j].id != nodes[i].id
    ensures NodeNamed(nodes, nodes[i].id) == Some(nodes[i])
  {
    var n := |nodes| - 1;
    if i < n {
      LastNodeIsNamed(nodes[..n], i);
    }
  }

  /** One record folded in. */
  function Merged(inp: Inputs, rec: Record, symbol: string): Inputs {
    var hit := NodeNamed(rec.nodes, symbol);
    var losesTests := rec.testScope != Analysed && inp.testScope == Analysed;
    inp.(
      edges := inp.edges + rec.edges,
      nodesById := Index(inp.nodesById, rec.nodes),
      queriedNode := if hit.Some? then hit else inp.queriedNode,
      moduleLevel := if hit.Some? then rec.completeness else inp.moduleLevel,
      testScope := if losesTests then rec.testScope else inp.testScope,
      testScopeDetail := if losesTests then rec.testScopeDetail else inp.testScopeDetail,
      referenceScope := if rec.referenceScope != Analysed then rec.referenceScope else inp.referenceScope)
  }

  function WeakestLevel(soFar: Level, rec: Record): Level {
    if soFar == UnknownLevel && BelowFull(rec.completeness) then rec.completeness else soFar
  }

  method MergeNegativeInputs(inp: Inputs, belowFull: Level, rec: Record, symbol: string) returns (out: Inputs, below: Level)
    ensures out == Merged(inp, rec, symbol) && below == WeakestLevel(belowFull, rec)
  {
    out := inp.(edges := inp.edges + rec.edges);
    for i := 0 to |rec.nodes|
      invariant out == inp.(
        edges := inp.edges + rec.edges,
        nodesById := Index(inp.nodesById, rec.nodes[..i]),
        queriedNode := if NodeNamed(rec.nodes[..i], symbol).Some? then NodeNamed(rec.nodes[..i], symbol) else inp.queriedNode,
        moduleLevel := if NodeNamed(rec.nodes[..i], symbol).Some? then rec.completeness else inp.moduleLevel)
    {
      assert rec.nodes[..i + 1][..i] == rec.nodes[..i];
      var n := rec.nodes[i];
      out := out.(nodesById := out.nodesById[n.id := n]);
      if n.id == symbol {
        out := out.(queriedNode := Some(n), moduleLevel := rec.completeness);
      }
    }
    assert rec.nodes[..|rec.nodes|] == rec.nodes;
    below := belowFull;
    if below == UnknownLevel && rec.completeness != UnknownLevel && rec.completeness != BuiltWithBodies {
      below := rec.completeness;
    }
    if rec.testScope != Analysed && out.testScope == Analysed {
      out := out.(testScope := rec.testScope, testScopeDetail := rec.testScopeDetail);
    }
    if rec.referenceScope != Analysed {
      out := out.(referenceScope := rec.referenceScope);
    }
  }

  /** Every record folded in, first to last. */
  function Folded(inp: Inputs, recs: seq<Record>, symbol: string): Inputs {
    if recs == [] then inp
    else
      var n := |recs| - 1;
      Merged(Folded(inp, recs[..n], symbol), recs[n], symbol)
  }

  function FoldedLevel(recs: seq<Record>): Level {
    if recs == [] then UnknownLevel
    else
      var n := |recs| - 1;
      WeakestLevel(FoldedLevel(recs[..n]), recs[n])
  }

  /** The inputs once the fold is over: a symbol that is no node takes the first
      below-full level seen, and with nothing owning it no axis was measured. */
  function Closed(inp: Inputs, belowFull: Level, owning: nat): Inputs {
    var i1 := if inp.queriedNode.None? then inp.(moduleLevel := belowFull) else inp;
    if owning == 0 then i1.(testScope := Unmeasured, referenceScope := Unmeasured) else i1
  }

  // ---- what the fold says ----

  /** Position of the last record in which the symbol is a node, or -1. */
  function LastHolder(recs: seq<Record>, symbol: string): (i: int)
    ensures -1 <= i < |recs|
    ensures i >= 0 ==> NodeNamed(recs[i].nodes, symbol).Some?
    ensures forall j :: i < j < |recs| ==> NodeNamed(recs[j].nodes, symbol).None?
  {
    if recs == [] then -1
    else if NodeNamed(recs[|recs| - 1].nodes, symbol).Some? then |recs| - 1
    else LastHolder(recs[..|recs| - 1], symbol)
  }

  /** Position of the first record that did not measure the test axis, or |recs|. */
  function FirstUntested(recs: seq<Record>): (i: nat)
    ensures i <= |recs| && (i < |recs| ==> recs[i].testScope != Analysed)
    ensures forall j :: 0 <= j < i ==> recs[j].testScope == Analysed
  {
    if recs == [] then 0
    else
      var n := |recs| - 1;
      var i := FirstUntested(recs[..n]);
      if i == n && recs[n].testScope == Analysed then n + 1 else i
  }

  /** Position of the last record that did not measure references, or -1. */
  function LastUnreferenced(recs: seq<Record>): (i: int)
    ensures -1 <= i < |recs| && (i >= 0 ==> recs[i].referenceScope != Analysed)
    ensures forall j :: i < j < |recs| ==> recs[j].referenceScope == Analysed
  {
    if recs == [] then -1
    else if recs[|recs| - 1].referenceScope != Analysed then |recs| - 1
    else LastUnreferenced(recs[..|recs| - 1])
  }

  function FirstBelowFull(recs: seq<Record>): (i: nat)
    ensures i <= |recs| && (i < |recs| ==> BelowFull(recs[i].completeness))
    ensures forall j :: 0 <= j < i ==> !BelowFull(recs[j].completeness)
  {
    if recs == [] then 0
    else
      var n := |recs| - 1;
      var i := FirstBelowFull(recs[..n]);
      if i == n && !BelowFull(recs[n].completeness) then n + 1 else i
  }

  /** The weakest of the records, axis by axis: the first that measured no tests,
      the last that measured no references, the level of the last that holds the
      symbol, and the first level below full. */
  lemma {:induction false} FoldIsWeakest(inp: Inputs, recs: seq<Record>, symbol: string)
    requires inp.testScope == Analysed && inp.referenceScope == Analysed && inp.queriedNode.None?
    ensures var out := Folded(inp, recs, symbol);
            var t, r, h := FirstUntested(recs), LastUnreferenced(recs), LastHolder(recs, symbol);
            && out.testScope == (if t < |recs| then recs[t].testScope else Analysed)
            && out.testScopeDetail == (if t < |recs| then recs[t].testScopeDetail else inp.testScopeDetail)
            && out.referenceScope == (if r >= 0 then recs[r].referenceScope else Analysed)
            && out.queriedNode == (if h >= 0 then NodeNamed(recs[h].nodes, symbol) else None)
            && (h >= 0 ==> out.moduleLevel == recs[h].completeness)
    ensures FoldedLevel(recs) == (if FirstBelowFull(recs) < |recs| then recs[FirstBelowFull(recs)].completeness else UnknownLevel)
    ensures var out := Folded(inp, recs, symbol);
            out == inp.(edges := out.edges, nodesById := out.nodesById, queriedNode := out.queriedNode,
                        moduleLevel := out.moduleLevel, testScope := out.testScope,
                        testScopeDetail := out.testScopeDetail, referenceScope := out.referenceScope)
  {
    if recs != [] {
      FoldIsWeakest(inp, recs[..|recs| - 1], symbol);
    }
  }

  /** Which axes count as measured, whether the symbol is found, and whether any
      level is below full, depend on which records were read and not on their
      order. */
  lemma MeasuredIsOrderFree(inp: Inputs, recs: seq<Record>, others: seq<Record>, symbol: string)
    requires inp.testScope == Analysed && inp.referenceScope == Analysed && inp.queriedNode.None?
    requires multiset(recs) == multiset(others)
    ensures var a, b := Folded(inp, recs, symbol), Folded(inp, others, symbol);
            && (a.testScope == Analysed <==> b.testScope == Analysed)
            && (a.referenceScope == Analysed <==> b.referenceScope == Analysed)
            && (a.queriedNode.Some? <==> b.queriedNode.Some?)
    ensures FoldedLevel(recs) == UnknownLevel <==> FoldedLevel(others) == UnknownLevel
  {
    FoldMeasures(inp, recs, symbol);
    FoldMeasures(inp, others, symbol);
    forall r: Record
      ensures r in recs <==> r in others
    {
      SameElements(recs, others, r);
    }
  }

  lemma FoldMeasures(inp: Inputs, recs: seq<Record>, symbol: string)
    requires inp.testScope == Analysed && inp.referenceScope == Analysed && inp.queriedNode.None?
    ensures var out := Folded(inp, recs, symbol);
            && (out.testScope == Analysed <==> forall r :: r in recs ==> r.testScope == Analysed)
            && (out.referenceScope == Analysed <==> forall r :: r in recs ==> r.referenceScope == Analysed)
            && (out.queriedNode.Some? <==> exists r :: r in recs && NodeNamed(r.nodes, symbol).Some?)
    ensures FoldedLevel(recs) == UnknownLevel <==> forall r :: r in recs ==> !BelowFull(r.completeness)
  {
    FoldIsWeakest(inp, recs, symbol);
    var t, r, h, b := FirstUntested(recs), LastUnreferenced(recs), LastHolder(recs, symbol), FirstBelowFull(recs);
    assert t < |recs| ==> recs[t] in recs;
    assert r >= 0 ==> recs[r] in recs;
    assert h >= 0 ==> recs[h] in recs;
    assert b < |recs| ==> recs[b] in recs;
  }

  /** The completeness axis is not the weakest of the records: the level kept is
      that of the last record holding the symbol, however far below full another
      record is. It is below full exactly when that one is. */
  lemma LevelIsTheLastHolders(inp: Inputs, recs: seq<Record>, symbol: string)
    requires inp.testScope == Analysed && inp.referenceScope == Analysed && inp.queriedNode.None?
    requires LastHolder(recs, symbol) >= 0
    ensures Closed(Folded(inp, recs, symbol), FoldedLevel(recs), |recs|).moduleLevel == recs[LastHolder(recs, symbol)].completeness
  {
    FoldIsWeakest(inp, recs, symbol);
  }

  /** So a level below full is kept whenever some record is below full exactly when
      the last holder is, or none is. */
  lemma LevelIsWeakestIff(inp: Inputs, recs: seq<Record>, symbol: string)
    requires inp.testScope == Analysed && inp.referenceScope == Analysed && inp.queriedNode.None?
    requires LastHolder(recs, symbol) >= 0
    ensures ((exists r :: r in recs && BelowFull(r.completeness)) ==>
               BelowFull(Closed(Folded(inp, recs, symbol), FoldedLevel(recs), |recs|).moduleLevel)) <==>
              BelowFull(recs[LastHolder(recs, symbol)].completeness) || forall r :: r in recs ==> !BelowFull(r.completeness)
  {
    LevelIsTheLastHolders(inp, recs, symbol);
  }

  /** All edges read are scanned, and a callee's name is the last record's. */
  lemma {:induction false} FoldedGraph(inp: Inputs, recs: seq<Record>, symbol: string, e: Edge)
    ensures e in Folded(inp, recs, symbol).edges <==> e in inp.edges || exists r :: r in recs && e in r.edges
  {
    if recs != [] {
      var n := |recs| - 1;
      FoldedGraph(inp, recs[..n], symbol, e);
      assert recs == recs[..n] + [recs[n]];
      assert forall r :: r in recs <==> r in recs[..n] || r == recs[n];
    }
  }

  lemma {:induction false} IndexHolds(m: map<string, Node>, nodes: seq<Node>, id: string)
    requires id in Index(m, nodes)
    ensures Index(m, nodes)[id] in nodes || (id in m && Index(m, nodes)[id] == m[id])
  {
    if nodes != [] {
      var n := |nodes| - 1;
      assert nodes == nodes[..n] + [nodes[n]];
      if nodes[n].id != id {
        IndexHolds(m, nodes[..n], id);
      }
    }
  }

  /** A callee is a node of a record folded in, under its own id. */
  lemma {:induction false} FoldedNodes(inp: Inputs, recs: seq<Record>, symbol: string, id: string)
    requires inp.nodesById == map[] && id in Folded(inp, recs, symbol).nodesById
    ensures var node := Folded(inp, recs, symbol).nodesById[id];
            node.id == id && exists r :: r in recs && node in r.nodes
  {
    if recs != [] {
      var n := |recs| - 1;
      var before := Folded(inp, recs[..n], symbol).nodesById;
      assert recs == recs[..n] + [recs[n]];
      if id in before {
        FoldedNodes(inp, recs[..n], symbol, id);
        var r :| r in recs[..n] && before[id] in r.nodes;
        assert r in recs;
      }
      IndexNames(before, recs[n].nodes, id);
      IndexHolds(before, recs[n].nodes, id);
    }
  }

  lemma {:induction false} IndexNames(m: map<string, Node>, nodes: seq<Node>, id: string)
    requires id in Index(m, nodes) && (id in m ==> m[id].id == id)
    ensures Index(m, nodes)[id].id == id
  {
    if nodes != [] && nodes[|nodes| - 1].id != id {
      IndexNames(m, nodes[..|nodes| - 1], id);
    }
  }

  /** Under an id stands the node the last record that holds it names. */
  lemma {:induction false} IndexedNodeIs(inp: Inputs, recs: seq<Record>, symbol: string, id: string)
    requires inp.nodesById == map[]
    ensures var h, folded := LastHolder(recs, id), Folded(inp, recs, symbol).nodesById;
            && (id in folded <==> h >= 0)
            && (h >= 0 ==> folded[id] == NodeNamed(recs[h].nodes, id).value)
  {
    if recs != [] {
      var n := |recs| - 1;
      IndexedNodeIs(inp, recs[..n], symbol, id);
      IndexIs(Folded(inp, recs[..n], symbol).nodesById, recs[n].nodes, id);
    }
  }

  lemma {:induction false} IndexIs(m: map<string, Node>, nodes: seq<Node>, id: string)
    ensures var named := NodeNamed(nodes, id);
            && (id in Index(m, nodes) <==> named.Some? || id in m)
            && (id in Index(m, nodes) ==> Index(m, nodes)[id] == if named.Some? then named.value else m[id])
  {
    if nodes != [] {
      IndexIs(m, nodes[..|nodes| - 1], id);
    }
  }

  // ---- the verdict ----

  datatype Outcome = ResolvedAbsent | Unresolved

  /** A reason an absence is not proven, by kind and by the place it was found. */
  datatype Sink = Sink(kind: string, site: string)

  datatype Answer = Answer(outcome: Outcome, sinks: seq<Sink>)

  function Site(inp: Inputs): string {
    if inp.queriedNode.Some? && inp.queriedNode.value.id != "" then inp.queriedNode.value.id else inp.methodName
  }

  function Add(s: seq<Sink>, b: bool, sink: Sink): seq<Sink> {
    if b then s + [sink] else s
  }

  function LeafSinks(s: seq<Sink>, n: Node): seq<Sink> {
    var s1 := Add(s, n.usesUnsafePointer, Sink("unsafe-pointer-leaf", n.id));
    var s2 := Add(s1, n.isAssemblyOrLinkname, Sink("assembly-or-linkname-leaf", n.id));
    Add(s2, n.usesPlugin, Sink("plugin-leaf", n.id))
  }

  function UnmeasuredScopeSinks(s: seq<Sink>, inp: Inputs): seq<Sink> {
    var s1 := Add(s, inp.testScope != Analysed && !inp.testsExcluded, Sink("test-scope-unmeasured", Site(inp)));
    Add(s1, inp.referenceScope != Analysed, Sink("reference-scope-unmeasured", Site(inp)))
  }

  /** "Test" followed by anything but a lower-case letter, and its siblings. */
  predicate HarnessName(symbol: string, prefix: string, alone: bool) {
    prefix <= symbol &&
    if |symbol| == |prefix| then alone else symbol[|prefix|] < 'a' || symbol[|prefix|] > 'z'
  }

  /** A function the go test harness calls from outside the graph. */
  predicate IsTestHarnessEntry(n: Node) {
    n.isTest && n.receiver == "" &&
    (n.symbol == "TestMain" || HarnessName(n.symbol, "Test", false) || HarnessName(n.symbol, "Benchmark", false)
     || HarnessName(n.symbol, "Fuzz", false) || HarnessName(n.symbol, "Example", true))
  }

  /** A call not narrowed to one callee. */
  predicate Unnarrowed(e: Edge) {
    e.confidence == ChaOverapprox || e.confidence == UnknownCallee
  }

  /** An interface call, not narrowed to one callee, that dispatches on the name. */
  predicate DispatchesOn(name: string, e: Edge, nodesById: map<string, Node>) {
    && Unnarrowed(e)
    && e.toId in nodesById && nodesById[e.toId].symbol == name
  }

  function DispatchSinks(name: string, edges: seq<Edge>, nodesById: map<string, Node>): seq<Sink> {
    if name == "" || edges == [] then []
    else
      var n := |edges| - 1;
      Add(DispatchSinks(name, edges[..n], nodesById),
          DispatchesOn(name, edges[n], nodesById), Sink("interface-dispatch", edges[n].fromId))
  }

  method InterfaceDispatchSinks(name: string, edges: seq<Edge>, nodesById: map<string, Node>) returns (out: seq<Sink>)
    ensures out == DispatchSinks(name, edges, nodesById)
  {
    out := [];
    if name == "" {
      return;
    }
    for i := 0 to |edges|
      invariant out == DispatchSinks(name, edges[..i], nodesById)
    {
      assert edges[..i + 1][..i] == edges[..i];
      var e := edges[i];
      if e.confidence != ChaOverapprox && e.confidence != UnknownCallee {
        continue;
      }
      if e.toId !in nodesById || nodesById[e.toId].symbol != name {
        continue;
      }
      out := out + [Sink("interface-dispatch", e.fromId)];
    }
    assert edges[..|edges|] == edges;
  }

  /** What stands against the absence because of the module, the symbol's
      package and the node itself. */
  function GraphSinks(inp: Inputs): seq<Sink> {
    var s1 := Add([], BelowFull(inp.moduleLevel), Sink("type-only-callee", Site(inp)));
    var s2 := Add(s1, inp.droppedPackage != "", Sink("dropped-package-edges", Site(inp)));
    if inp.queriedNode.Some? then LeafSinks(s2, inp.queriedNode.value) else s2
  }

  /** All that stands against it. */
  function Sinks(inp: Inputs): seq<Sink> {
    var s1 := UnmeasuredScopeSinks(GraphSinks(inp), inp);
    var s2 := if inp.queriedNode.None? then s1
              else Add(s1, IsTestHarnessEntry(inp.queriedNode.value), Sink("test-harness-entry", inp.queriedNode.value.id));
    if inp.scanDispatch then s2 + DispatchSinks(inp.methodName, inp.edges, inp.nodesById) else s2
  }

  predicate SinkLess(a: Sink, b: Sink) {
    PairLess((a.kind, a.site), (b.kind, b.site))
  }

  /** First occurrences only. */
  function Once(sinks: seq<Sink>): (r: seq<Sink>)
    ensures Distinct(r) && forall s :: s in r <==> s in sinks
  {
    if sinks == [] then []
    else
      var n := |sinks| - 1;
      var r := Once(sinks[..n]);
      assert sinks == sinks[..n] + [sinks[n]];
      if sinks[n] in r then r else r + [sinks[n]]
  }

  method DedupeSinks(sinks: seq<Sink>) returns (out: seq<Sink>)
    ensures out == Sort(Once(sinks), SinkLess)
  {
    var seen: set<Sink> := {};
    out := [];
    for i := 0 to |sinks|
      invariant out == Once(sinks[..i]) && forall s :: s in seen <==> s in out
    {
      assert sinks[..i + 1][..i] == sinks[..i];
      if sinks[i] in seen {
        continue;
      }
      seen := seen + {sinks[i]};
      out := out + [sinks[i]];
    }
    assert sinks[..|sinks|] == sinks;
    out := Sort(out, SinkLess);
  }

  function Classified(inp: Inputs): Answer {
    var sinks := Sort(Once(Sinks(inp)), SinkLess);
    Answer(if sinks == [] then ResolvedAbsent else Unresolved, sinks)
  }

  method ClassifyNegativeAnswer(inp: Inputs) returns (a: Answer)
    ensures a == Classified(inp)
  {
    var site := Site(inp);
    var sinks: seq<Sink> := [];
    if inp.moduleLevel != UnknownLevel && inp.moduleLevel != BuiltWithBodies {
      sinks := sinks + [Sink("type-only-callee", site)];
    }
    if inp.droppedPackage != "" {
      sinks := sinks + [Sink("dropped-package-edges", site)];
    }
    if inp.queriedNode.Some? {
      sinks := LeafSinks(sinks, inp.queriedNode.value);
    }
    sinks := UnmeasuredScopeSinks(sinks, inp);
    if inp.queriedNode.Some? && IsTestHarnessEntry(inp.queriedNode.value) {
      sinks := sinks + [Sink("test-harness-entry", inp.queriedNode.value.id)];
    }
    var dispatch: seq<Sink> := [];
    if inp.scanDispatch {
      dispatch := InterfaceDispatchSinks(inp.methodName, inp.edges, inp.nodesById);
    }
    sinks := sinks + dispatch;
    assert sinks == Sinks(inp);
    sinks := DedupeSinks(sinks);
    a := Answer(if sinks == [] then ResolvedAbsent else Unresolved, sinks);
  }

  lemma {:induction false} NoDispatchSinks(name: string, edges: seq<Edge>, nodesById: map<string, Node>)
    ensures DispatchSinks(name, edges, nodesById) == []
       <==> name == "" || forall e :: e in edges ==> !DispatchesOn(name, e, nodesById)
  {
    if name != "" && edges != [] {
      var n := |edges| - 1;
      NoDispatchSinks(name, edges[..n], nodesById);
      assert edges == edges[..n] + [edges[n]];
    }
  }

  /** A test function the harness calls, spelt out by what follows its prefix: nothing,
      for an example alone, or a character that is not a lower-case letter. */
  lemma HarnessCalls(n: Node, prefix: string, rest: string)
    requires prefix in {"Test", "Benchmark", "Fuzz", "Example"} && n.symbol == prefix + rest && n.symbol != "TestMain"
    ensures IsTestHarnessEntry(n) <==>
              n.isTest && n.receiver == "" && if rest == "" then prefix == "Example" else !('a' <= rest[0] <= 'z')
  {
    assert n.symbol[0] == prefix[0] && n.symbol[|prefix|..] == rest;
    assert "Test"[0] == 'T' && "Benchmark"[0] == 'B' && "Fuzz"[0] == 'F' && "Example"[0] == 'E';
  }

  lemma HarnessCallsNoOther(n: Node)
    requires n.symbol != "TestMain" && !("Test" <= n.symbol) && !("Benchmark" <= n.symbol)
    requires !("Fuzz" <= n.symbol) && !("Example" <= n.symbol)
    ensures !IsTestHarnessEntry(n)
  {
  }

  lemma HarnessCallsTestMain(n: Node)
    requires n.symbol == "TestMain"
    ensures IsTestHarnessEntry(n) <==> n.isTest && n.receiver == ""
  {
  }

  lemma {:induction false} DispatchSinkIff(name: string, edges: seq<Edge>, nodesById: map<string, Node>, s: Sink)
    ensures s in DispatchSinks(name, edges, nodesById) <==>
              name != "" && exists e :: e in edges && DispatchesOn(name, e, nodesById) && s == Sink("interface-dispatch", e.fromId)
  {
    if name != "" && edges != [] {
      var n := |edges| - 1;
      DispatchSinkIff(name, edges[..n], nodesById, s);
      assert edges == edges[..n] + [edges[n]];
    }
  }

  /** What is named where the sink is about the symbol asked for. */
  function About(inp: Inputs): string {
    if inp.queriedNode.Some? && inp.queriedNode.value.id != "" then inp.queriedNode.value.id else inp.methodName
  }

  /** What a node hides, named at the node. */
  predicate HidesAt(n: Node, s: Sink) {
    || (s == Sink("unsafe-pointer-leaf", n.id) && n.usesUnsafePointer)
    || (s == Sink("assembly-or-linkname-leaf", n.id) && n.isAssemblyOrLinkname)
    || (s == Sink("plugin-leaf", n.id) && n.usesPlugin)
    || (s == Sink("test-harness-entry", n.id) && IsTestHarnessEntry(n))
  }

  /** What was not measured, or lost with the symbol's package. */
  predicate MissedAt(inp: Inputs, s: Sink) {
    || (s == Sink("type-only-callee", About(inp)) && inp.moduleLevel != UnknownLevel && inp.moduleLevel != BuiltWithBodies)
    || (s == Sink("dropped-package-edges", About(inp)) && inp.droppedPackage != "")
    || (s == Sink("test-scope-unmeasured", About(inp)) && inp.testScope != Analysed && !inp.testsExcluded)
    || (s == Sink("reference-scope-unmeasured", About(inp)) && inp.referenceScope != Analysed)
  }

  /** A call not narrowed to one callee, of a node by the name, at its caller. */
  ghost predicate MayDispatchAt(inp: Inputs, s: Sink) {
    inp.scanDispatch && inp.methodName != ""
    && exists e :: e in inp.edges && DispatchesOn(inp.methodName, e, inp.nodesById) && s == Sink("interface-dispatch", e.fromId)
  }

  lemma InAdd(x: seq<Sink>, b: bool, sink: Sink, s: Sink)
    ensures s in Add(x, b, sink) <==> s in x || (b && s == sink)
  {
  }

  lemma LeafSinkIff(x: seq<Sink>, n: Node, s: Sink)
    ensures s in LeafSinks(x, n) || (IsTestHarnessEntry(n) && s == Sink("test-harness-entry", n.id)) <==> s in x || HidesAt(n, s)
  {
    var unsafe, linked, plugin := Sink("unsafe-pointer-leaf", n.id), Sink("assembly-or-linkname-leaf", n.id), Sink("plugin-leaf", n.id);
    InAdd(x, n.usesUnsafePointer, unsafe, s);
    InAdd(Add(x, n.usesUnsafePointer, unsafe), n.isAssemblyOrLinkname, linked, s);
    InAdd(Add(Add(x, n.usesUnsafePointer, unsafe), n.isAssemblyOrLinkname, linked), n.usesPlugin, plugin, s);
  }

  lemma ScopeSinkIff(x: seq<Sink>, inp: Inputs, s: Sink)
    ensures s in UnmeasuredScopeSinks(x, inp) <==>
              || s in x
              || (s == Sink("test-scope-unmeasured", About(inp)) && inp.testScope != Analysed && !inp.testsExcluded)
              || (s == Sink("reference-scope-unmeasured", About(inp)) && inp.referenceScope != Analysed)
  {
  }

  lemma GraphSinkIff(inp: Inputs, s: Sink)
    ensures s in GraphSinks(inp) <==>
              || (s == Sink("type-only-callee", About(inp)) && inp.moduleLevel != UnknownLevel && inp.moduleLevel != BuiltWithBodies)
              || (s == Sink("dropped-package-edges", About(inp)) && inp.droppedPackage != "")
              || (inp.queriedNode.Some? && s in LeafSinks([], inp.queriedNode.value))
  {
    var s1 := Add([], BelowFull(inp.moduleLevel), Sink("type-only-callee", Site(inp)));
    var s2 := Add(s1, inp.droppedPackage != "", Sink("dropped-package-edges", Site(inp)));
    InAdd([], BelowFull(inp.moduleLevel), Sink("type-only-callee", Site(inp)), s);
    InAdd(s1, inp.droppedPackage != "", Sink("dropped-package-edges", Site(inp)), s);
    if inp.queriedNode.Some? {
      LeafSinkIff(s2, inp.queriedNode.value, s);
      LeafSinkIff([], inp.queriedNode.value, s);
      LeavesAreApart(s2, inp.queriedNode.value, s);
    }
  }

  lemma LeavesAreApart(x: seq<Sink>, n: Node, s: Sink)
    ensures s in LeafSinks(x, n) <==> s in x || s in LeafSinks([], n)
  {
    var unsafe, linked := Sink("unsafe-pointer-leaf", n.id), Sink("assembly-or-linkname-leaf", n.id);
    InAdd(x, n.usesUnsafePointer, unsafe, s);
    InAdd(Add(x, n.usesUnsafePointer, unsafe), n.isAssemblyOrLinkname, linked, s);
  }

  /** Each reason against the absence is in the answer exactly when it applies, under
      its own name and at its own place. */
  lemma EachSinkIff(inp: Inputs, s: Sink)
    ensures s in Classified(inp).sinks <==>
              MissedAt(inp, s) || (inp.queriedNode.Some? && HidesAt(inp.queriedNode.value, s)) || MayDispatchAt(inp, s)
  {
    assert s in Classified(inp).sinks <==> s in Sinks(inp) by {
      SameElements(Sort(Once(Sinks(inp)), SinkLess), Once(Sinks(inp)), s);
    }
    AnySinkIff(inp, UnmeasuredScopeSinks(GraphSinks(inp), inp), s);
    ScopeSinkIff(GraphSinks(inp), inp, s);
    GraphSinkIff(inp, s);
    if inp.queriedNode.Some? {
      LeafSinkIff([], inp.queriedNode.value, s);
    }
  }

  lemma AnySinkIff(inp: Inputs, x: seq<Sink>, s: Sink)
    requires x == UnmeasuredScopeSinks(GraphSinks(inp), inp)
    ensures s in Sinks(inp) <==>
              || s in x
              || (inp.queriedNode.Some? && IsTestHarnessEntry(inp.queriedNode.value) && s == Sink("test-harness-entry", inp.queriedNode.value.id))
              || MayDispatchAt(inp, s)
  {
    DispatchSinkIff(inp.methodName, inp.edges, inp.nodesById, s);
  }

  lemma SinkLessIsStrict()
    ensures StrictOrder(SinkLess)
  {
    PairLessIsStrict();
    forall x, y
      ensures !SinkLess(x, x) && (x == y || SinkLess(x, y) || SinkLess(y, x))
    {
      assert x == y || (x.kind, x.site) != (y.kind, y.site);
      assert !PairLess((x.kind, x.site), (x.kind, x.site));
    }
    forall x, y, z | SinkLess(x, y) && SinkLess(y, z)
      ensures SinkLess(x, z)
    {
      assert PairLess((x.kind, x.site), (z.kind, z.site));
    }
  }

  /** The sinks of an answer are each named once, in order of kind and then of
      site; which they are does not depend on the order they were met in. */
  lemma SinksAreCanonical(inp: Inputs, sinks: seq<Sink>)
    requires Ascending(sinks, SinkLess) && forall s :: s in sinks <==> s in Sinks(inp)
    ensures Ascending(Classified(inp).sinks, SinkLess) && Classified(inp).sinks == sinks
  {
    SinkLessIsStrict();
    SortAscends(Once(Sinks(inp)), SinkLess);
    AscendingIsUnique(Classified(inp).sinks, sinks, SinkLess);
  }

  /** A node that hides nothing: no unsafe, assembly or plugin leaf, and no test
      entry point called from outside the graph. */
  predicate Transparent(n: Node) {
    !n.usesUnsafePointer && !n.isAssemblyOrLinkname && !n.usesPlugin && !IsTestHarnessEntry(n)
  }

  /** Nothing at all stands against the absence. */
  predicate NothingAgainst(inp: Inputs) {
    && !BelowFull(inp.moduleLevel)
    && inp.droppedPackage == ""
    && (inp.queriedNode.Some? ==> Transparent(inp.queriedNode.value))
    && (inp.testScope == Analysed || inp.testsExcluded)
    && inp.referenceScope == Analysed
    && (inp.scanDispatch && inp.methodName != "" ==>
          forall e :: e in inp.edges ==> !DispatchesOn(inp.methodName, e, inp.nodesById))
  }

  /** An absence is called proven exactly then. */
  lemma AbsentIff(inp: Inputs)
    ensures Classified(inp).outcome == ResolvedAbsent <==> NothingAgainst(inp)
  {
    var all := Sinks(inp);
    var sinks := Sort(Once(all), SinkLess);
    assert sinks == [] <==> all == [] by {
      if all != [] {
        assert all[0] in Once(all);
      }
      assert |sinks| == |Once(all)|;
      assert Once(all) != [] ==> Once(all)[0] in all;
    }
    NoDispatchSinks(inp.methodName, inp.edges, inp.nodesById);
  }
}
