/** What an edge query says, from the store and the question alone: which outcome,
    which refusal, and every reason against an absence. */
module EdgeAnswers {
  import opened Wrappers
  import opened Seqs
  import opened Order
  import opened CallGraphStore
  import opened NegativeAnswer
  import opened EdgeQuery

  // ---- every reason against an absence ----

  /** The level the verdict is held to is below full: the last holder's, or where the
      symbol is no node some record's. */
  ghost predicate BuiltBelowFull(q: Query, recs: seq<Record>) {
    var h := LastHolder(recs, q.symbol);
    if h >= 0 then BelowFull(recs[h].completeness) else exists r :: r in recs && BelowFull(r.completeness)
  }

  /** The node a call's far end names: the one under that id in the last record that
      holds it. */
  predicate CallsByName(recs: seq<Record>, e: Edge, name: string) {
    var k := LastHolder(recs, e.toId);
    k >= 0 && NodeNamed(recs[k].nodes, e.toId).value.symbol == name
  }

  ghost predicate MayHaveMissed(q: Query, recs: seq<Record>, name: string, s: Sink) {
    q.callers && name != "" && exists r, e :: r in recs && e in r.edges && MissesAt(recs, e, name, s)
  }

  predicate MissesAt(recs: seq<Record>, e: Edge, name: string, s: Sink) {
    (e.confidence == ChaOverapprox || e.confidence == UnknownCallee) && CallsByName(recs, e, name)
    && s == Sink("interface-dispatch", e.fromId)
  }

  /** Where a reason about the symbol itself is named: its node, or its name alone. */
  function Place(q: Query, recs: seq<Record>, name: string): string {
    if LastHolder(recs, q.symbol) >= 0 && q.symbol != "" then q.symbol else name
  }

  ghost predicate StandsAgainst(q: Query, pr: PartialRoot, recs: seq<Record>, name: string, s: Sink) {
    var h, site := LastHolder(recs, q.symbol), Place(q, recs, name);
    || (s == Sink("type-only-callee", site) && BuiltBelowFull(q, recs))
    || (s == Sink("dropped-package-edges", site) && pr.failedPkg != "")
    || (s == Sink("test-scope-unmeasured", site) && !q.excludeTests && exists r :: r in recs && r.testScope != Analysed)
    || (s == Sink("reference-scope-unmeasured", site) && exists r :: r in recs && r.referenceScope != Analysed)
    || (h >= 0 && HidesAt(NodeNamed(recs[h].nodes, q.symbol).value, s))
    || MayHaveMissed(q, recs, name, s)
  }

  /** The inputs a verdict is classified from, axis by axis. */
  lemma GatheredSays(q: Query, pr: PartialRoot, recs: seq<Record>, owning: nat, name: string)
    requires owning > 0 && IsMethodName(q.symbol, name)
    ensures var inp, h := Gathered(q, pr, recs, owning), LastHolder(recs, q.symbol);
            && inp.methodName == name && inp.scanDispatch == q.callers && inp.testsExcluded == q.excludeTests
            && inp.droppedPackage == pr.failedPkg
            && inp.queriedNode == (if h >= 0 then NodeNamed(recs[h].nodes, q.symbol) else None)
            && (BelowFull(inp.moduleLevel) <==> BuiltBelowFull(q, recs))
            && (inp.testScope != Analysed <==> exists r :: r in recs && r.testScope != Analysed)
            && (inp.referenceScope != Analysed <==> exists r :: r in recs && r.referenceScope != Analysed)
            && inp.edges == FoldedOf(q, pr, recs).edges && inp.nodesById == FoldedOf(q, pr, recs).nodesById
  {
    var start := Start(q.symbol, q.callers, pr.failedPkg, pr.detail, q.excludeTests);
    MethodNameIs(q.symbol, name);
    FoldIsWeakest(start, recs, q.symbol);
    FoldMeasures(start, recs, q.symbol);
  }

  lemma CallSays(q: Query, pr: PartialRoot, recs: seq<Record>, e: Edge, name: string)
    ensures var folded := FoldedOf(q, pr, recs);
            && (e in folded.edges <==> exists r :: r in recs && e in r.edges)
            && (DispatchesOn(name, e, folded.nodesById) <==>
                  (e.confidence == ChaOverapprox || e.confidence == UnknownCallee) && CallsByName(recs, e, name))
  {
    var start := Start(q.symbol, q.callers, pr.failedPkg, pr.detail, q.excludeTests);
    FoldedGraph(start, recs, q.symbol, e);
    IndexedNodeIs(start, recs, q.symbol, e.toId);
  }

  lemma DispatchSays(q: Query, pr: PartialRoot, recs: seq<Record>, inp: Inputs, name: string, s: Sink)
    requires inp.methodName == name && inp.scanDispatch == q.callers
    requires inp.edges == FoldedOf(q, pr, recs).edges && inp.nodesById == FoldedOf(q, pr, recs).nodesById
    ensures MayDispatchAt(inp, s) <==> MayHaveMissed(q, recs, name, s)
  {
    if MayDispatchAt(inp, s) {
      var e :| e in inp.edges && DispatchesOn(name, e, inp.nodesById) && s == Sink("interface-dispatch", e.fromId);
      CallSays(q, pr, recs, e, name);
      var r :| r in recs && e in r.edges;
      assert MissesAt(recs, e, name, s);
    }
    if MayHaveMissed(q, recs, name, s) {
      var r, e :| r in recs && e in r.edges && MissesAt(recs, e, name, s);
      CallSays(q, pr, recs, e, name);
      assert e in inp.edges && DispatchesOn(name, e, inp.nodesById);
    }
  }

  /** A printed verdict names exactly the reasons that stand against the absence in the
      records consulted, and RESOLVED-ABSENT is printed exactly when none does. */
  lemma AnswerSays(st: Store, q: Query, edges: Option<seq<Edge>>, name: string, s: Sink)
    requires Flow(st, q, edges).Answered? && IsMethodName(q.symbol, name)
    ensures var out := Flow(st, q, edges);
            && (s in out.answer.sinks <==> StandsAgainst(q, out.partialRoot, Consulted(st, q), name, s))
            && (out.answer.outcome == ResolvedAbsent <==> out.answer.sinks == [])
  {
    Passed(st, q, edges);
    var pr, recs := Flow(st, q, edges).partialRoot, Consulted(st, q);
    var owning := GatheredFrom(st, q, edges);
    EachSinkIff(Gathered(q, pr, recs, owning), s);
    GatheredSays(q, pr, recs, owning, name);
    DispatchSays(q, pr, recs, Gathered(q, pr, recs, owning), name, s);
    SinkParts(q, pr, recs, owning, name, s);
  }

  lemma SinkParts(q: Query, pr: PartialRoot, recs: seq<Record>, owning: nat, name: string, s: Sink)
    requires owning > 0 && IsMethodName(q.symbol, name)
    ensures var inp, h := Gathered(q, pr, recs, owning), LastHolder(recs, q.symbol);
            (MissedAt(inp, s) || (inp.queriedNode.Some? && HidesAt(inp.queriedNode.value, s)) || MayHaveMissed(q, recs, name, s)) <==>
              StandsAgainst(q, pr, recs, name, s)
  {
    GatheredSays(q, pr, recs, owning, name);
    assert About(Gathered(q, pr, recs, owning)) == Place(q, recs, name);
  }

  /** The records a verdict was gathered from are those consulted. */
  lemma GatheredFrom(st: Store, q: Query, edges: Option<seq<Edge>>) returns (owning: nat)
    requires Flow(st, q, edges).Answered?
    ensures owning > 0
    ensures Flow(st, q, edges).answer == Classified(Gathered(q, Flow(st, q, edges).partialRoot, Consulted(st, q), owning))
  {
    Passed(st, q, edges);
    VerdictRestsOnARecord(st, q, edges);
    var pr, m := Flow(st, q, edges).partialRoot, ServedOwner(st, q);
    var served := Listed(st.listing.value, q.scope, Current(q));
    var c :| c in served && if pr.failedPkg == "" then HoldsSymbol(st, c, m, q) else Dropped(st, c, m, q, pr);
    HolderIsConsulted(st, q, pr, c);
    owning := |Owning(served, m)|;
  }

  /** A caller query's absence is not proven where a consulted record holds a call not
      narrowed to one callee, of a node by the symbol's own name. */
  lemma DispatchIsReported(st: Store, q: Query, edges: Option<seq<Edge>>, name: string, r: Record, e: Edge)
    requires Flow(st, q, edges).Answered? && q.callers && name != "" && IsMethodName(q.symbol, name)
    requires r in Consulted(st, q) && e in r.edges && (e.confidence == ChaOverapprox || e.confidence == UnknownCallee)
    requires CallsByName(Consulted(st, q), e, name)
    ensures var a := Flow(st, q, edges).answer;
            a.outcome == Unresolved && Sink("interface-dispatch", e.fromId) in a.sinks
  {
    var s, recs := Sink("interface-dispatch", e.fromId), Consulted(st, q);
    Missed(q, Flow(st, q, edges).partialRoot, recs, name, r, e, s);
    AnswerSays(st, q, edges, name, s);
    OutcomeIsSinks(st, q, edges);
  }

  lemma Missed(q: Query, pr: PartialRoot, recs: seq<Record>, name: string, r: Record, e: Edge, s: Sink)
    requires q.callers && name != "" && r in recs && e in r.edges && MissesAt(recs, e, name, s)
    ensures StandsAgainst(q, pr, recs, name, s)
  {
  }

  lemma OutcomeIsSinks(st: Store, q: Query, edges: Option<seq<Edge>>)
    requires Flow(st, q, edges).Answered?
    ensures var a := Flow(st, q, edges).answer;
            (a.outcome == ResolvedAbsent <==> a.sinks == []) && (a.outcome == Unresolved <==> a.sinks != [])
  {
    var owning := GatheredFrom(st, q, edges);
  }

  /** The reasons are named by kind and then by place, each once. */
  lemma SinksInOrder(inp: Inputs)
    ensures var sinks := Classified(inp).sinks;
            forall i, j :: 0 <= i < j < |sinks| ==>
              StrLess(sinks[i].kind, sinks[j].kind) || (sinks[i].kind == sinks[j].kind && StrLess(sinks[i].site, sinks[j].site))
  {
    SinkLessIsStrict();
    SortAscends(Once(Sinks(inp)), SinkLess);
  }

  // ---- which records are consulted ----

  /** Those served for the toolchain asked for, at the versions of the module the
      symbol resolves to, */
  lemma ConsultedIff(st: Store, q: Query, edges: Option<seq<Edge>>, rec: Record)
    requires Flow(st, q, edges).Answered?
    ensures rec in Consulted(st, q) <==>
              exists c :: c in InService(st, q) && c.path == ServedOwner(st, q)
                          && ReadAt(st, c, q.toolchain) == Served(rec)
  {
    Passed(st, q, edges);
    var m := ServedOwner(st, q);
    VerdictRestsOnARecord(st, q, edges);
    var owning := Owning(InService(st, q), m);
    if rec in Consulted(st, q) {
      FromRecordsAt(st, owning, q.toolchain, rec);
      var c :| c in owning && ReadAt(st, c, q.toolchain) == Served(rec);
      InOwning(InService(st, q), m, c);
    }
    if c :| c in InService(st, q) && c.path == m && ReadAt(st, c, q.toolchain) == Served(rec) {
      InOwning(InService(st, q), m, c);
      InRecordsAt(st, owning, q.toolchain, c);
    }
  }

  /** in the order of their versions as strings. */
  lemma OwningInOrder(coords: seq<Coordinate>, m: string)
    ensures var owning := Owning(coords, m);
            forall i, j :: 0 <= i < j < |owning| ==> !StrLess(owning[j].version, owning[i].version)
    ensures forall c :: c in Owning(coords, m) <==> c in coords && c.path == m
  {
    forall c
      ensures c in Owning(coords, m) <==> c in coords && c.path == m
    {
      InOwning(coords, m, c);
    }
    VersionLessIsWeak();
    SortInOrder(OwnVersions(coords, m), VersionLess);
  }

  lemma VersionLessIsWeak()
    ensures WeakOrder(VersionLess)
  {
    StrLessIsStrict();
    forall a, b, c | !VersionLess(a, b) && !VersionLess(b, c)
      ensures !VersionLess(a, c)
    {
      StrConnected(a.version, b.version);
      StrConnected(b.version, c.version);
    }
  }

  // ---- the scope check ----

  /** A build that holds the module the symbol belongs to at no analysed version is
      refused, by whether it names the module at all. */
  lemma ScopeRefusalIff(st: Store, q: Query)
    ensures var refusal, m := SymbolInScope(st, q), Owner(st, q, Everything, AnyPipeline);
            var foreign := q.scope.Only? && st.listing.Some? && m != ""
                           && forall c :: c in st.listing.value && c.path == m ==> (m, c.version) !in q.scope.members;
            && (refusal == Some(ListingFailed) <==> q.scope.Only? && st.listing.None?)
            && (refusal == Some(BuildVersionNotAnalysed) <==> foreign && exists v :: (m, v) in q.scope.members)
            && (refusal == Some(NotInBuild) <==> foreign && forall v :: (m, v) !in q.scope.members)
            && (refusal.None? <==> q.scope.Everything? || (st.listing.Some? && !foreign))
  {
    if q.scope.Only? && st.listing.Some? {
      KeepsAll(st.listing.value, c => Admits(AnyPipeline, c));
      KeepsAll(st.listing.value, c => Contains(Everything, c));
      var m := Owner(st, q, Everything, AnyPipeline);
      assert Listed(st.listing.value, Everything, AnyPipeline) == st.listing.value;
      assert HeldInScope(st.listing.value, m, q.scope) <==>
               exists c :: c in st.listing.value && c.path == m && (m, c.version) in q.scope.members;
      NamesModuleIff(q.scope, m);
    }
  }

  lemma NamesModuleIff(scope: ModuleSet, m: string)
    requires scope.Only?
    ensures NamesModule(scope, m) <==> exists v :: (m, v) in scope.members
  {
    if p :| p in scope.members && p.0 == m {
      assert (m, p.1) in scope.members;
    }
    if v :| (m, v) in scope.members {
      assert (m, v).0 == m;
    }
  }

  // ---- why an empty result is no answer ----

  /** The module the symbol resolves to over everything stored in the build. */
  function StoredOwner(st: Store, q: Query): string {
    Owner(st, q, q.scope, AnyPipeline)
  }

  ghost predicate IsListed(st: Store, q: Query, m: string) {
    exists c :: c in InService(st, q) && c.path == m
  }

  /** A record of the module is served; one cannot be read; one holds the symbol. */
  ghost predicate SomeServed(st: Store, q: Query, m: string) {
    exists c :: c in InService(st, q) && c.path == m && ReadAt(st, c, q.toolchain).Served?
  }

  ghost predicate SomeFails(st: Store, q: Query, m: string) {
    exists c :: c in InService(st, q) && c.path == m
                && (ReadAt(st, c, q.toolchain).Conflict? || ReadAt(st, c, q.toolchain).Unreadable?)
  }

  ghost predicate SomeHolds(st: Store, q: Query, m: string) {
    exists c :: c in InService(st, q) && HoldsSymbol(st, c, m, q)
  }

  /** The module's record is held, in some version, under another build frame. */
  ghost predicate HeldElsewhere(st: Store, q: Query, m: string) {
    exists c :: c in InService(st, q) && c.path == m && (m, c.version) in st.otherFrames
  }

  lemma {:induction false} KnowledgeSays(st: Store, coords: seq<Coordinate>, m: string, q: Query, served: bool)
    requires forall c :: c in coords && c.path == m ==>
               !ReadAt(st, c, q.toolchain).Conflict? && !ReadAt(st, c, q.toolchain).Unreadable?
    ensures var k := KnownNode(st, coords, m, q, served);
            && (k == Known <==> exists c :: c in coords && HoldsSymbol(st, c, m, q))
            && (k.Unknown? ==> (k.served <==> served || exists c :: c in coords && c.path == m && ReadAt(st, c, q.toolchain).Served?))
            && k != KnowledgeFailed
    decreases |coords|
  {
    if coords != [] {
      var c, rest := coords[0], coords[1..];
      assert forall d :: d in coords <==> d == c || d in rest;
      assert HoldsSymbol(st, c, m, q) ==> KnownNode(st, coords, m, q, served) == Known;
      KnowledgeSays(st, rest, m, q, if c.path == m && ReadAt(st, c, q.toolchain).Served? then true else served);
    }
  }

  /** Where the listing and every record of the module in service can be read, an empty
      result is refused for a reason each of these conditions tells apart, and is an
      answer exactly where the symbol is a node of a served record. */
  lemma RefusalSays(st: Store, q: Query)
    requires st.listing.Some? && !SomeFails(st, q, StoredOwner(st, q))
    ensures var why, m := Classification(st, q), StoredOwner(st, q);
            var listed, held := m != "" && IsListed(st, q, m), m != "" && SomeHolds(st, q, m);
            && (why == Some(StdlibUnderOtherFrame) <==> m == "" && st.stdlibInOtherFrame)
            && (why == Some(NeverAnalysed) <==> m == "" && !st.stdlibInOtherFrame)
            && (why == Some(Superseded) <==> m != "" && !listed)
            && (why.None? <==> held)
            && (why == Some(UnderOtherFrame) <==> listed && !held && !SomeServed(st, q, m) && HeldElsewhere(st, q, m))
            && (why == Some(NotANode) <==> listed && !held && (SomeServed(st, q, m) || !HeldElsewhere(st, q, m)))
  {
    var m, coords := StoredOwner(st, q), InService(st, q);
    InPaths(coords, m);
    KnowledgeSays(st, coords, m, q, false);
    assert HeldUnderOtherFrame(st, coords, m) <==> HeldElsewhere(st, q, m);
  }

  // ---- what is told of a partial graph ----

  /** The coordinate is the module's, and what is served there is partial. */
  predicate IsPartialAt(st: Store, q: Query, m: string, c: Coordinate) {
    c.path == m && c.anyPartial && ReadAt(st, c, q.toolchain).Served? && ReadAt(st, c, q.toolchain).rec.partial
  }

  /** The record there failed on this package, and the symbol is one of the package's
      own names. */
  predicate DropsAt(st: Store, q: Query, m: string, c: Coordinate, pkg: string) {
    IsPartialAt(st, q, m, c) && pkg in ReadAt(st, c, q.toolchain).rec.failedPackages
    && pkg != "" && pkg + "." <= q.symbol
  }

  predicate LimitedAt(st: Store, q: Query, m: string, c: Coordinate, detail: string) {
    IsPartialAt(st, q, m, c) && detail != ""
    && ReadAt(st, c, q.toolchain).rec.analyserLimit && ReadAt(st, c, q.toolchain).rec.failureDetail == detail
  }

  lemma FailedPackageSays(symbol: string, pkgs: seq<string>)
    ensures var p := FailedPackageOf(symbol, pkgs);
            && (p != "" ==> p in pkgs && p + "." <= symbol)
            && (p == "" ==> forall o :: o in pkgs && o != "" ==> !(o + "." <= symbol))
  {
    forall o | o in pkgs && o != ""
      ensures o + "." <= symbol <==> o <= symbol && |symbol| > |o| && symbol[|o|] == '.'
    {
      if o <= symbol && |symbol| > |o| && symbol[|o|] == '.' {
        assert symbol[..|o| + 1] == o + ".";
      }
      if o + "." <= symbol {
        assert symbol[|o|] == (o + ".")[|o|];
        assert o == symbol[..|o|];
      }
    }
  }

  /** Of several failed packages the symbol would be in, the first listed is told. */
  lemma {:induction false} FirstFailedPackage(symbol: string, pkgs: seq<string>, i: nat)
    requires i < |pkgs| && pkgs[i] != "" && pkgs[i] + "." <= symbol
    requires forall j :: 0 <= j < i && pkgs[j] != "" ==> !(pkgs[j] + "." <= symbol)
    ensures FailedPackageOf(symbol, pkgs) == pkgs[i]
  {
    FailedPackageSays(symbol, [pkgs[0]]);
    assert [pkgs[0]][1..] == [];
    if i > 0 {
      FirstFailedPackage(symbol, pkgs[1..], i - 1);
    }
  }

  /** The status over these coordinates, given what was noted before them. */
  ghost predicate StatusSays(st: Store, q: Query, m: string, coords: seq<Coordinate>, before: PartialRoot, pr: PartialRoot) {
    && (pr.isPartial <==> before.isPartial || exists c :: c in coords && IsPartialAt(st, q, m, c))
    && (forall p :: p in pr.failedPkgs <==>
          p in before.failedPkgs || exists c :: c in coords && FailsOnAt(st, q, m, c, p))
    && (if before.failedPkg != "" then SameDrop(pr, before)
        else pr.failedPkg == "" <==> forall c, p :: c in coords ==> !DropsAt(st, q, m, c, p))
    && (if before.limitDetail != "" then pr.limitDetail == before.limitDetail
        else pr.limitDetail == "" <==> forall c, d :: c in coords ==> !LimitedAt(st, q, m, c, d))
    && (pr.limitDetail != "" && before.limitDetail == "" ==> exists c :: c in coords && LimitedAt(st, q, m, c, pr.limitDetail))
  }

  predicate FailsOnAt(st: Store, q: Query, m: string, c: Coordinate, p: string) {
    IsPartialAt(st, q, m, c) && p in ReadAt(st, c, q.toolchain).rec.failedPackages
  }

  lemma {:induction false} PartialsSay(st: Store, q: Query, m: string, coords: seq<Coordinate>, before: PartialRoot)
    requires NotePartials(st, coords, m, q, true, before).Success?
    ensures StatusSays(st, q, m, coords, before, NotePartials(st, coords, m, q, true, before).value)
    decreases |coords|
  {
    if coords != [] {
      var c, rest := coords[0], coords[1..];
      var noted := if IsPartialAt(st, q, m, c) then NotePartialRecord(before, ReadAt(st, c, q.toolchain).rec, c, q.symbol) else before;
      assert forall d :: d in coords <==> d == c || d in rest;
      OneNoted(st, q, m, c, before);
      PartialsSay(st, q, m, rest, noted);
      StatusOnwards(st, q, m, c, rest, before, noted, NotePartials(st, coords, m, q, true, before).value);
    }
  }

  lemma OneNoted(st: Store, q: Query, m: string, c: Coordinate, before: PartialRoot)
    ensures var noted := if IsPartialAt(st, q, m, c) then NotePartialRecord(before, ReadAt(st, c, q.toolchain).rec, c, q.symbol) else before;
            StatusSays(st, q, m, [c], before, noted)
  {
    assert c in [c];
    if IsPartialAt(st, q, m, c) {
      var rec := ReadAt(st, c, q.toolchain).rec;
      FailedPackageSays(q.symbol, rec.failedPackages);
      var fp := FailedPackageOf(q.symbol, rec.failedPackages);
      assert fp != "" ==> DropsAt(st, q, m, c, fp);
      assert rec.analyserLimit && rec.failureDetail != "" ==> LimitedAt(st, q, m, c, rec.failureDetail);
      forall p
        ensures p in NotePartialRecord(before, rec, c, q.symbol).failedPkgs <==> p in before.failedPkgs || FailsOnAt(st, q, m, c, p)
      {
      }
    }
  }

  lemma StatusOnwards(st: Store, q: Query, m: string, c: Coordinate, rest: seq<Coordinate>, before: PartialRoot, noted: PartialRoot, pr: PartialRoot)
    requires StatusSays(st, q, m, [c], before, noted) && StatusSays(st, q, m, rest, noted, pr)
    ensures StatusSays(st, q, m, [c] + rest, before, pr)
  {
  }

  /** Whether a graph of the module is partial, every package it failed on, whether the
      symbol's own was dropped, and why its packages could not be read. */
  lemma PartialStatusSays(st: Store, q: Query)
    requires RootPartial(st, q, true).Success? && ServedOwner(st, q) != ""
    ensures StatusSays(st, q, ServedOwner(st, q), InService(st, q), WHOLE, RootPartial(st, q, true).value)
  {
    PartialsSay(st, q, ServedOwner(st, q), InService(st, q), WHOLE);
  }

  // ---- the completeness notice ----

  /** A served record there, whatever its toolchain, is below full fidelity. */
  predicate BelowFullAt(st: Store, m: string, c: Coordinate, l: Level) {
    c.path == m && c.anyBelowFull && ReadAt(st, c, "").Served? && ReadAt(st, c, "").rec.completeness == l
    && l != UnknownLevel && l != BuiltWithBodies
  }

  /** The notice gives the level of the first record below full fidelity, and none
      exactly where there is none. */
  lemma {:induction false} CaveatSays(st: Store, coords: seq<Coordinate>, m: string)
    requires FirstCaveat(st, coords, m, true).Success?
    ensures var caveat := FirstCaveat(st, coords, m, true).value;
            && (caveat.None? <==> forall c, l :: c in coords ==> !BelowFullAt(st, m, c, l))
            && (caveat.Some? ==> exists i :: 0 <= i < |coords| && BelowFullAt(st, m, coords[i], caveat.value)
                                             && forall j, l :: 0 <= j < i ==> !BelowFullAt(st, m, coords[j], l))
    decreases |coords|
  {
    if coords != [] {
      var c, rest := coords[0], coords[1..];
      assert forall d :: d in coords <==> d == c || d in rest;
      if c.path == m && c.anyBelowFull && ReadAt(st, c, "").Served? && BelowFull(ReadAt(st, c, "").rec.completeness) {
        assert BelowFullAt(st, m, coords[0], ReadAt(st, c, "").rec.completeness);
      } else {
        CaveatSays(st, rest, m);
        var caveat := FirstCaveat(st, rest, m, true).value;
        if caveat.Some? {
          var i :| 0 <= i < |rest| && BelowFullAt(st, m, rest[i], caveat.value) && forall j, l :: 0 <= j < i ==> !BelowFullAt(st, m, rest[j], l);
          assert coords[i + 1] == rest[i];
          forall j, l | 0 <= j < i + 1
            ensures !BelowFullAt(st, m, coords[j], l)
          {
            assert j > 0 ==> coords[j] == rest[j - 1];
          }
        }
      }
    }
  }

  // ---- which reads fail ----

  /** The coordinate is the module's, and its record cannot be read: its generations
      disagree, or it fails otherwise. */
  predicate FailsAt(st: Store, q: Query, m: string, c: Coordinate) {
    c.path == m && (ReadAt(st, c, q.toolchain).Conflict? || ReadAt(st, c, q.toolchain).Unreadable?)
  }

  lemma {:induction false} PartialsFailIff(st: Store, q: Query, m: string, coords: seq<Coordinate>, out: PartialRoot)
    ensures NotePartials(st, coords, m, q, true, out).Failure? <==> exists c :: c in coords && c.anyPartial && FailsAt(st, q, m, c)
    decreases |coords|
  {
    if coords != [] {
      var c, rest := coords[0], coords[1..];
      assert forall d :: d in coords <==> d == c || d in rest;
      PartialsFailIff(st, q, m, rest, if IsPartialAt(st, q, m, c) then NotePartialRecord(out, ReadAt(st, c, q.toolchain).rec, c, q.symbol) else out);
    }
  }

  /** The partial status cannot be told exactly where the listing fails, or a record
      that may be partial. */
  lemma StatusFailsIff(st: Store, q: Query)
    ensures RootPartial(st, q, true).Failure? <==>
              || st.listing.None?
              || (ServedOwner(st, q) != "" && exists c :: c in InService(st, q) && c.anyPartial && FailsAt(st, q, ServedOwner(st, q), c))
  {
    PartialsFailIff(st, q, ServedOwner(st, q), InService(st, q), WHOLE);
  }

  lemma {:induction false} RecordsFailIff(st: Store, coords: seq<Coordinate>, toolchain: string)
    ensures RecordsAt(st, coords, toolchain).None? <==>
              exists c :: c in coords && (ReadAt(st, c, toolchain).Conflict? || ReadAt(st, c, toolchain).Unreadable?)
  {
    if coords != [] {
      var n := |coords| - 1;
      assert forall d :: d in coords <==> d == coords[n] || d in coords[..n];
      RecordsFailIff(st, coords[..n], toolchain);
    }
  }

  /** No verdict is given exactly where the listing fails, or any record of the module:
      an absence is not printed over a record that could not be read. */
  lemma VerdictFailsIff(st: Store, q: Query, pr: PartialRoot)
    ensures Verdict(st, q, pr).Failure? <==>
              || st.listing.None?
              || (ServedOwner(st, q) != "" && exists c :: c in InService(st, q) && FailsAt(st, q, ServedOwner(st, q), c))
  {
    var m, coords := ServedOwner(st, q), InService(st, q);
    RecordsFailIff(st, Owning(coords, m), q.toolchain);
    OwningInOrder(coords, m);
  }

  /** The notice fails where a record cannot be read, unless one before it answers; for
      generations that disagree it is passed over. */
  lemma {:induction false} CaveatFailsIff(st: Store, coords: seq<Coordinate>, m: string)
    ensures FirstCaveat(st, coords, m, true).Failure? <==> exists i :: UnreadFirst(st, coords, m, i)
    decreases |coords|
  {
    if coords != [] {
      var c, rest := coords[0], coords[1..];
      CaveatFailsIff(st, rest, m);
      if c.path == m && c.anyBelowFull && ReadAt(st, c, "").Unreadable? {
        assert UnreadFirst(st, coords, m, 0);
      } else if c.path == m && c.anyBelowFull && ReadAt(st, c, "").Served? && BelowFull(ReadAt(st, c, "").rec.completeness) {
        assert BelowFullAt(st, m, coords[0], ReadAt(st, c, "").rec.completeness);
      } else {
        assert forall l :: !BelowFullAt(st, m, c, l);
        forall i | UnreadFirst(st, rest, m, i)
          ensures UnreadFirst(st, coords, m, i + 1)
        {
          assert forall j :: 0 < j <= i ==> coords[j] == rest[j - 1];
        }
        forall i | UnreadFirst(st, coords, m, i)
          ensures i > 0 && UnreadFirst(st, rest, m, i - 1)
        {
          assert forall j :: 0 <= j < i - 1 ==> rest[j] == coords[j + 1];
        }
      }
    }
  }

  ghost predicate UnreadFirst(st: Store, coords: seq<Coordinate>, m: string, i: int) {
    && 0 <= i < |coords| && coords[i].path == m && coords[i].anyBelowFull && ReadAt(st, coords[i], "").Unreadable?
    && forall j, l :: 0 <= j < i ==> !BelowFullAt(st, m, coords[j], l)
  }

  /** An empty result is refused for a failed read where a record cannot be read, unless
      one before it holds the symbol. */
  lemma {:induction false} KnowledgeFailsIff(st: Store, coords: seq<Coordinate>, m: string, q: Query, served: bool)
    ensures KnownNode(st, coords, m, q, served) == KnowledgeFailed <==> exists i :: FailsFirst(st, coords, m, q, i)
    decreases |coords|
  {
    if coords != [] {
      var c, rest := coords[0], coords[1..];
      KnowledgeFailsIff(st, rest, m, q, if c.path == m && ReadAt(st, c, q.toolchain).Served? then true else served);
      if FailsAt(st, q, m, c) {
        assert FailsFirst(st, coords, m, q, 0);
      } else if HoldsSymbol(st, c, m, q) {
        assert HoldsSymbol(st, coords[0], m, q);
      } else {
        forall i | FailsFirst(st, rest, m, q, i)
          ensures FailsFirst(st, coords, m, q, i + 1)
        {
          assert forall j :: 0 < j <= i ==> coords[j] == rest[j - 1];
        }
        forall i | FailsFirst(st, coords, m, q, i)
          ensures i > 0 && FailsFirst(st, rest, m, q, i - 1)
        {
          assert forall j :: 0 <= j < i - 1 ==> rest[j] == coords[j + 1];
        }
      }
    }
  }

  predicate FailsFirst(st: Store, coords: seq<Coordinate>, m: string, q: Query, i: int) {
    0 <= i < |coords| && FailsAt(st, q, m, coords[i]) && forall j :: 0 <= j < i ==> !HoldsSymbol(st, coords[j], m, q)
  }

  lemma ReadFailedIff(st: Store, q: Query)
    ensures Classification(st, q) == Some(ListingFailed) <==> st.listing.None?
    ensures Classification(st, q) == Some(ReadFailed) <==>
              && st.listing.Some? && StoredOwner(st, q) != "" && IsListed(st, q, StoredOwner(st, q))
              && exists i :: FailsFirst(st, InService(st, q), StoredOwner(st, q), q, i)
  {
    if st.listing.Some? {
      InPaths(InService(st, q), StoredOwner(st, q));
      KnowledgeFailsIff(st, InService(st, q), StoredOwner(st, q), q, false);
    }
  }

  // ---- which outcome ----

  /** A command's outcome, from what its stages find: the first of these that holds. */
  lemma OutcomeSays(st: Store, q: Query, edges: Option<seq<Edge>>)
    ensures var out, status := Flow(st, q, edges), RootPartial(st, q, true);
            var through := SymbolInScope(st, q).None? && status.Success? && edges.Some?;
            var unexplained := through && (edges.value != [] || status.value.failedPkg != "" || Classification(st, q).None?);
            var noted := unexplained && st.gapsRead && !q.json && RootCaveat(st, q, true).Success? && st.worktreeRead;
            && (SymbolInScope(st, q).Some? ==> out == Refused(SymbolInScope(st, q).value))
            && (SymbolInScope(st, q).None? && status.Success? && edges.None? ==> out == Refused(QueryFailed))
            && (through && !unexplained ==> out == Refused(Classification(st, q).value))
            && (out.Json? <==> unexplained && st.gapsRead && q.json)
            && (out.Rows? <==> noted && edges.value != [])
            && (out.Answered? <==> noted && edges.value == [] && Verdict(st, q, status.value).Success?)
            && (out.Json? ==> out.refs == edges.value) && (out.Rows? ==> out.refs == edges.value)
            && (unexplained && !out.Json? && !out.Rows? && !out.Answered? ==> out == Refused(ReadFailed))
  {
  }
}
