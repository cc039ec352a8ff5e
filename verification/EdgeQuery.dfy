/** `callers` and `callees` as decision flows: which checks an empty result
    passes before a verdict is printed on it. */
module EdgeQuery {
  import opened Wrappers
  import opened Seqs
  import opened Order
  import opened CallGraphStore
  import opened NegativeAnswer

  datatype Refusal =
    | ListingFailed | NotInBuild | BuildVersionNotAnalysed
    | NeverAnalysed | StdlibUnderOtherFrame | Superseded | UnderOtherFrame | NotANode
    | ReadFailed | QueryFailed

  /** One command's question, and the pipeline version the build asking serves. */
  datatype Query = Query(symbol: string, callers: bool, scope: ModuleSet, toolchain: string,
                         excludeTests: bool, json: bool, pipeline: string)

  /** Only what this build serves. */
  function Current(q: Query): PipelineFilter {
    Exactly(q.pipeline)
  }

  // ---- is the symbol's module in the build asked about? ----

  function OwnVersions(coords: seq<Coordinate>, m: string): seq<Coordinate> {
    Filter(coords, (c: Coordinate) => c.path == m)
  }

  /** A listing and the module it resolves the symbol to. */
  function Resolved(st: Store, q: Query, scope: ModuleSet, f: PipelineFilter): Option<(seq<Coordinate>, string)> {
    if st.listing.None? then None
    else
      var coords := Listed(st.listing.value, scope, f);
      Some((coords, LongestOwner(Paths(coords), q.symbol)))
  }

  method Resolve(st: Store, q: Query, scope: ModuleSet, f: PipelineFilter) returns (r: Option<(seq<Coordinate>, string)>)
    ensures r == Resolved(st, q, scope, f)
  {
    var listed := ListCoordinates(st, scope, f);
    if listed.None? {
      return None;
    }
    var paths := CoordinatePaths(listed.value);
    var m, _ := ResolveSymbolModule(q.symbol, paths);
    r := Some((listed.value, m));
  }

  predicate HeldInScope(coords: seq<Coordinate>, m: string, scope: ModuleSet) {
    exists c :: c in coords && c.path == m && Contains(scope, c)
  }

  /** Refused when the store has analysed the module but the build contains it at
      no analysed version. */
  function SymbolInScope(st: Store, q: Query): Option<Refusal> {
    if q.scope.Everything? then None
    else
      var all := Resolved(st, q, Everything, AnyPipeline);
      if all.None? then Some(ListingFailed)
      else if all.value.1 == "" || HeldInScope(all.value.0, all.value.1, q.scope) then None
      else Some(if NamesModule(q.scope, all.value.1) then BuildVersionNotAnalysed else NotInBuild)
  }

  predicate NamesModule(scope: ModuleSet, m: string) {
    scope.Only? && exists v :: v in scope.members && v.0 == m
  }

  method CheckSymbolInScope(st: Store, q: Query) returns (r: Option<Refusal>)
    ensures r == SymbolInScope(st, q)
  {
    if q.scope.Everything? {
      return None;
    }
    var resolved := Resolve(st, q, Everything, AnyPipeline);
    if resolved.None? {
      return Some(ListingFailed);
    }
    var (all, m) := resolved.value;
    if m == "" {
      return None;
    }
    var held := AnyHeld(all, m, q.scope);
    if held {
      return None;
    }
    r := Some(if NamesModule(q.scope, m) then BuildVersionNotAnalysed else NotInBuild);
  }

  method AnyHeld(all: seq<Coordinate>, m: string, scope: ModuleSet) returns (r: bool)
    ensures r <==> HeldInScope(all, m, scope)
  {
    for i := 0 to |all|
      invariant forall j :: 0 <= j < i ==> !(all[j].path == m && Contains(scope, all[j]))
    {
      if all[i].path == m && Contains(scope, all[i]) {
        assert all[i] in all;
        return true;
      }
    }
    r := false;
  }

  // ---- how a partial graph bears on the symbol ----

  datatype PartialRoot = PartialRoot(
    failedPkg: string, dropper: Option<Coordinate>, cause: string, detail: string, analysisRoot: string,
    isPartial: bool, failedPkgs: set<string>, limitDetail: string)

  const WHOLE := PartialRoot("", None, "", "", "", false, {}, "")

  /** The failed package the symbol is declared in, by import path. */
  function FailedPackageOf(symbol: string, pkgs: seq<string>): (p: string)
    ensures p != "" ==> p in pkgs && p <= symbol && |symbol| > |p| && symbol[|p|] == '.'
    ensures p == "" ==> forall o :: o in pkgs && o != "" && o <= symbol && |symbol| > |o| ==> symbol[|o|] != '.'
  {
    if pkgs == [] then ""
    else if pkgs[0] != "" && pkgs[0] <= symbol && |symbol| > |pkgs[0]| && symbol[|pkgs[0]|] == '.' then pkgs[0]
    else FailedPackageOf(symbol, pkgs[1..])
  }

  function NotePartialRecord(out: PartialRoot, rec: Record, c: Coordinate, symbol: string): PartialRoot {
    var o1 := out.(isPartial := true, failedPkgs := out.failedPkgs + set p | p in rec.failedPackages);
    var o2 := if rec.analyserLimit && o1.limitDetail == "" then o1.(limitDetail := rec.failureDetail) else o1;
    var fp := FailedPackageOf(symbol, rec.failedPackages);
    if fp != "" && o2.failedPkg == "" then
      o2.(failedPkg := fp, dropper := Some(c), cause := rec.failureCause,
          detail := rec.failureDetail, analysisRoot := rec.analysisRoot)
    else o2
  }

  /** Notes the partial records among coords; with skip, a coordinate none of
      whose generations is partial is not read at all. */
  function NotePartials(st: Store, coords: seq<Coordinate>, m: string, q: Query, skip: bool, out: PartialRoot): Result<PartialRoot>
    decreases |coords|
  {
    if coords == [] then Success(out)
    else
      var c, rest := coords[0], coords[1..];
      if c.path != m || (skip && !c.anyPartial) then NotePartials(st, rest, m, q, skip, out)
      else
        match ReadAt(st, c, q.toolchain)
        case Missing => NotePartials(st, rest, m, q, skip, out)
        case Served(rec) =>
          NotePartials(st, rest, m, q, skip, if rec.partial then NotePartialRecord(out, rec, c, q.symbol) else out)
        case _ => Failure("loading call graph")
  }

  function RootPartial(st: Store, q: Query, skip: bool): Result<PartialRoot> {
    var r := Resolved(st, q, q.scope, Current(q));
    if r.None? then Failure("listing analysed modules")
    else if r.value.1 == "" then Success(WHOLE)
    else NotePartials(st, r.value.0, r.value.1, q, skip, WHOLE)
  }

  method RootPartialStatus(st: Store, q: Query) returns (r: Result<PartialRoot>)
    ensures r == RootPartial(st, q, true)
  {
    var resolved := Resolve(st, q, q.scope, Current(q));
    if resolved.None? {
      return Failure("listing analysed modules");
    }
    var (coords, m) := resolved.value;
    if m == "" {
      return Success(WHOLE);
    }
    r := ReadPartials(st, coords, m, q);
  }

  method ReadPartials(st: Store, coords: seq<Coordinate>, m: string, q: Query) returns (r: Result<PartialRoot>)
    ensures r == NotePartials(st, coords, m, q, true, WHOLE)
  {
    var out := WHOLE;
    for i := 0 to |coords|
      invariant NotePartials(st, coords[i..], m, q, true, out) == NotePartials(st, coords, m, q, true, WHOLE)
    {
      assert coords[i..][1..] == coords[i + 1..];
      var c := coords[i];
      if c.path != m || !c.anyPartial {
        continue;
      }
      match ReadAt(st, c, q.toolchain) {
        case Missing =>
        case Served(rec) =>
          if rec.partial {
            out := NotePartialRecord(out, rec, c, q.symbol);
          }
        case _ => return Failure("loading call graph");
      }
    }
    r := Success(out);
  }

  // ---- is an empty result an answer at all? ----

  datatype Knowledge = Known | Unknown(served: bool) | KnowledgeFailed

  /** Whether the symbol is a node of some served record of the module. */
  function KnownNode(st: Store, coords: seq<Coordinate>, m: string, q: Query, served: bool): Knowledge
    decreases |coords|
  {
    if coords == [] then Unknown(served)
    else if coords[0].path != m then KnownNode(st, coords[1..], m, q, served)
    else
      match ReadAt(st, coords[0], q.toolchain)
      case Missing => KnownNode(st, coords[1..], m, q, served)
      case Served(rec) =>
        if NodeNamed(rec.nodes, q.symbol).Some? then Known else KnownNode(st, coords[1..], m, q, true)
      case _ => KnowledgeFailed
  }

  method SymbolIsKnownNode(st: Store, coords: seq<Coordinate>, m: string, q: Query) returns (r: Knowledge)
    ensures r == KnownNode(st, coords, m, q, false)
  {
    var served := false;
    for i := 0 to |coords|
      invariant KnownNode(st, coords[i..], m, q, served) == KnownNode(st, coords, m, q, false)
    {
      assert coords[i..][1..] == coords[i + 1..];
      if coords[i].path != m {
        continue;
      }
      match ReadAt(st, coords[i], q.toolchain) {
        case Missing => continue;
        case Served(rec) =>
          served := true;
          for j := 0 to |rec.nodes|
            invariant forall k :: 0 <= k < j ==> rec.nodes[k].id != q.symbol
          {
            if rec.nodes[j].id == q.symbol {
              assert rec.nodes[j] in rec.nodes;
              return Known;
            }
          }
          assert NodeNamed(rec.nodes, q.symbol).None?;
        case _ => return KnowledgeFailed;
      }
    }
    r := Unknown(served);
  }

  predicate HeldUnderOtherFrame(st: Store, coords: seq<Coordinate>, m: string) {
    exists c :: c in coords && c.path == m && (c.path, c.version) in st.otherFrames
  }

  /** None when the symbol is a node with genuinely no edges; otherwise why an
      empty list would be no answer. */
  function Classification(st: Store, q: Query): Option<Refusal> {
    var stored := Resolved(st, q, q.scope, AnyPipeline);
    if stored.None? then Some(ListingFailed)
    else if stored.value.1 == "" then Some(if st.stdlibInOtherFrame then StdlibUnderOtherFrame else NeverAnalysed)
    else
      var coords, m := Listed(st.listing.value, q.scope, Current(q)), stored.value.1;
      if m !in Paths(coords) then Some(Superseded) else Explained(st, coords, m, KnownNode(st, coords, m, q, false))
  }

  function Explained(st: Store, coords: seq<Coordinate>, m: string, k: Knowledge): Option<Refusal> {
    match k
    case Known => None
    case KnowledgeFailed => Some(ReadFailed)
    case Unknown(served) => Some(if !served && HeldUnderOtherFrame(st, coords, m) then UnderOtherFrame else NotANode)
  }

  method ClassifyEmptyEdgeResult(st: Store, q: Query) returns (r: Option<Refusal>)
    ensures r == Classification(st, q)
  {
    var stored := Resolve(st, q, q.scope, AnyPipeline);
    if stored.None? {
      return Some(ListingFailed);
    }
    var m := stored.value.1;
    if m == "" {
      return Some(if st.stdlibInOtherFrame then StdlibUnderOtherFrame else NeverAnalysed);
    }
    var listed := ListCoordinates(st, q.scope, Current(q));
    var coords := listed.value;
    var covered := ModuleServedAtThisPipeline(m, coords);
    if !covered {
      return Some(Superseded);
    }
    var known := SymbolIsKnownNode(st, coords, m, q);
    match known {
      case Known => r := None;
      case KnowledgeFailed => r := Some(ReadFailed);
      case Unknown(served) =>
        var miss := false;
        if !served {
          miss := ModuleFrameMiss(st, coords, m);
        }
        r := Some(if miss then UnderOtherFrame else NotANode);
    }
  }

  method ModuleFrameMiss(st: Store, coords: seq<Coordinate>, m: string) returns (r: bool)
    ensures r <==> HeldUnderOtherFrame(st, coords, m)
  {
    for i := 0 to |coords|
      invariant forall j :: 0 <= j < i ==> !(coords[j].path == m && (coords[j].path, coords[j].version) in st.otherFrames)
    {
      if coords[i].path == m && (coords[i].path, coords[i].version) in st.otherFrames {
        assert coords[i] in coords;
        return true;
      }
    }
    r := false;
  }

  method ModuleServedAtThisPipeline(m: string, served: seq<Coordinate>) returns (r: bool)
    ensures r <==> m in Paths(served)
  {
    for i := 0 to |served|
      invariant forall j :: 0 <= j < i ==> served[j].path != m
    {
      if served[i].path == m {
        assert Paths(served)[i] == m;
        return true;
      }
    }
    r := false;
  }

  // ---- the completeness notice ----

  /** The first definite below-full level among the module's served records. */
  function FirstCaveat(st: Store, coords: seq<Coordinate>, m: string, skip: bool): Result<Option<Level>>
    decreases |coords|
  {
    if coords == [] then Success(None)
    else
      var c, rest := coords[0], coords[1..];
      if c.path != m || (skip && !c.anyBelowFull) then FirstCaveat(st, rest, m, skip)
      else
        match ReadAt(st, c, "")
        case Unreadable => Failure("loading call graph")
        case Served(rec) =>
          if BelowFull(rec.completeness) then Success(Some(rec.completeness)) else FirstCaveat(st, rest, m, skip)
        case _ => FirstCaveat(st, rest, m, skip)
  }

  function RootCaveat(st: Store, q: Query, skip: bool): Result<Option<Level>> {
    var r := Resolved(st, q, q.scope, Current(q));
    if r.None? then Failure("listing analysed modules")
    else if r.value.1 == "" then Success(None)
    else FirstCaveat(st, r.value.0, r.value.1, skip)
  }

  method RootCompletenessCaveat(st: Store, q: Query) returns (r: Result<Option<Level>>)
    ensures r == RootCaveat(st, q, true)
  {
    var resolved := Resolve(st, q, q.scope, Current(q));
    if resolved.None? {
      return Failure("listing analysed modules");
    }
    var (coords, m) := resolved.value;
    if m == "" {
      return Success(None);
    }
    r := ReadCaveat(st, coords, m);
  }

  method ReadCaveat(st: Store, coords: seq<Coordinate>, m: string) returns (r: Result<Option<Level>>)
    ensures r == FirstCaveat(st, coords, m, true)
  {
    for i := 0 to |coords|
      invariant FirstCaveat(st, coords[i..], m, true) == FirstCaveat(st, coords, m, true)
    {
      assert coords[i..][1..] == coords[i + 1..];
      var c := coords[i];
      if c.path != m || !c.anyBelowFull {
        continue;
      }
      match ReadAt(st, c, "") {
        case Unreadable => return Failure("loading call graph");
        case Served(rec) =>
          if rec.completeness != UnknownLevel && rec.completeness != BuiltWithBodies {
            return Success(Some(rec.completeness));
          }
        case _ =>
      }
    }
    r := Success(None);
  }

  /** The columns summarise the generations: no record is served in a condition
      its coordinate's column denies. */
  ghost predicate Summarised(st: Store) {
    forall c: Coordinate, t: string ::
      st.listing.Some? && c in st.listing.value && ReadAt(st, c, t).Served? ==>
        (ReadAt(st, c, t).rec.partial ==> c.anyPartial) &&
        (BelowFull(ReadAt(st, c, t).rec.completeness) ==> c.anyBelowFull)
  }

  lemma {:induction false} SkippingPartials(st: Store, coords: seq<Coordinate>, m: string, q: Query, out: PartialRoot)
    requires Summarised(st) && st.listing.Some? && forall c :: c in coords ==> c in st.listing.value
    requires NotePartials(st, coords, m, q, false, out).Success?
    ensures NotePartials(st, coords, m, q, true, out) == NotePartials(st, coords, m, q, false, out)
    decreases |coords|
  {
    if coords != [] {
      var c, rest := coords[0], coords[1..];
      assert c in coords;
      var read := ReadAt(st, c, q.toolchain);
      if c.path == m && read.Served? && read.rec.partial {
        SkippingPartials(st, rest, m, q, NotePartialRecord(out, read.rec, c, q.symbol));
      } else {
        SkippingPartials(st, rest, m, q, out);
      }
    }
  }

  lemma {:induction false} SkippingCaveats(st: Store, coords: seq<Coordinate>, m: string)
    requires Summarised(st) && st.listing.Some? && forall c :: c in coords ==> c in st.listing.value
    requires FirstCaveat(st, coords, m, false).Success?
    ensures FirstCaveat(st, coords, m, true) == FirstCaveat(st, coords, m, false)
    decreases |coords|
  {
    if coords != [] {
      var c := coords[0];
      assert c in coords;
      if !(c.path == m && ReadAt(st, c, "").Served? && BelowFull(ReadAt(st, c, "").rec.completeness)) {
        SkippingCaveats(st, coords[1..], m);
      }
    }
  }

  /** Skipping records on the strength of their columns changes neither answer,
      wherever reading every record would have gone without error. */
  lemma SkippingIsSound(st: Store, q: Query)
    requires Summarised(st)
    ensures RootPartial(st, q, false).Success? ==> RootPartial(st, q, true) == RootPartial(st, q, false)
    ensures RootCaveat(st, q, false).Success? ==> RootCaveat(st, q, true) == RootCaveat(st, q, false)
  {
    if st.listing.Some? {
      var coords := Listed(st.listing.value, q.scope, Current(q));
      var m := LongestOwner(Paths(coords), q.symbol);
      forall c | c in coords
        ensures c in st.listing.value
      {
        InListed(st.listing.value, q.scope, Current(q), c);
      }
      if m != "" && RootPartial(st, q, false).Success? {
        SkippingPartials(st, coords, m, q, WHOLE);
      }
      if m != "" && RootCaveat(st, q, false).Success? {
        SkippingCaveats(st, coords, m);
      }
    }
  }

  // ---- the verdict on an empty result ----

  predicate VersionLess(a: Coordinate, b: Coordinate) {
    StrLess(a.version, b.version)
  }

  /** The module's served coordinates, in version order. */
  function Owning(coords: seq<Coordinate>, m: string): seq<Coordinate> {
    Sort(OwnVersions(coords, m), VersionLess)
  }

  /** The records found at these coordinates; None when one cannot be read. */
  function RecordsAt(st: Store, coords: seq<Coordinate>, toolchain: string): Option<seq<Record>> {
    if coords == [] then Some([])
    else
      var n := |coords| - 1;
      var before := RecordsAt(st, coords[..n], toolchain);
      if before.None? then None
      else
        match ReadAt(st, coords[n], toolchain)
        case Served(rec) => Some(before.value + [rec])
        case Missing => before
        case _ => None
  }

  function Gathered(q: Query, pr: PartialRoot, recs: seq<Record>, owning: nat): Inputs {
    Closed(Folded(Start(q.symbol, q.callers, pr.failedPkg, pr.detail, q.excludeTests), recs, q.symbol),
           FoldedLevel(recs), owning)
  }

  function Verdict(st: Store, q: Query, pr: PartialRoot): Result<Answer> {
    var r := Resolved(st, q, q.scope, Current(q));
    if r.None? then Failure("listing analysed modules")
    else if r.value.1 == "" then Success(Answer(ResolvedAbsent, []))
    else
      var owning := Owning(r.value.0, r.value.1);
      var recs := RecordsAt(st, owning, q.toolchain);
      if recs.None? then Failure("loading call graph")
      else Success(Classified(Gathered(q, pr, recs.value, |owning|)))
  }

  method NegativeCallAnswer(st: Store, q: Query, pr: PartialRoot) returns (r: Result<Answer>)
    ensures r == Verdict(st, q, pr)
  {
    var resolved := Resolve(st, q, q.scope, Current(q));
    if resolved.None? {
      return Failure("listing analysed modules");
    }
    var (coords, m) := resolved.value;
    if m == "" {
      return Success(Answer(ResolvedAbsent, []));
    }
    var owning := OwningCoordinates(coords, m);
    var inp := Gather(st, q, pr, owning);
    if inp.None? {
      return Failure("loading call graph");
    }
    var a := ClassifyNegativeAnswer(inp.value);
    r := Success(a);
  }

  method OwningCoordinates(coords: seq<Coordinate>, m: string) returns (owning: seq<Coordinate>)
    ensures owning == Owning(coords, m)
  {
    var owns := (c: Coordinate) => c.path == m;
    owning := [];
    for i := 0 to |coords|
      invariant owning == Filter(coords[..i], owns)
    {
      FilterStep(coords, i, owns);
      if coords[i].path == m {
        owning := owning + [coords[i]];
      }
    }
    FilterAll(coords, owns);
    FilterCongruent(coords, owns, (c: Coordinate) => c.path == m);
    owning := Sort(owning, VersionLess);
  }

  method Gather(st: Store, q: Query, pr: PartialRoot, owning: seq<Coordinate>) returns (r: Option<Inputs>)
    ensures var recs := RecordsAt(st, owning, q.toolchain);
            r == if recs.None? then None else Some(Gathered(q, pr, recs.value, |owning|))
  {
    var inp := Start(q.symbol, q.callers, pr.failedPkg, pr.detail, q.excludeTests);
    ghost var start := inp;
    ghost var recs: seq<Record> := [];
    var belowFull := UnknownLevel;
    for i := 0 to |owning|
      invariant RecordsAt(st, owning[..i], q.toolchain) == Some(recs)
      invariant inp == Folded(start, recs, q.symbol) && belowFull == FoldedLevel(recs)
    {
      assert owning[..i + 1][..i] == owning[..i];
      match ReadAt(st, owning[i], q.toolchain) {
        case Missing =>
        case Served(rec) =>
          inp, belowFull := MergeNegativeInputs(inp, belowFull, rec, q.symbol);
          assert (recs + [rec])[..|recs|] == recs;
          recs := recs + [rec];
        case _ =>
          StaysUnread(st, owning, i + 1, q.toolchain);
          return None;
      }
    }
    assert owning[..|owning|] == owning;
    if inp.queriedNode.None? {
      inp := inp.(moduleLevel := belowFull);
    }
    if |owning| == 0 {
      inp := inp.(testScope := Unmeasured, referenceScope := Unmeasured);
    }
    r := Some(inp);
  }

  lemma {:induction false} StaysUnread(st: Store, coords: seq<Coordinate>, i: nat, toolchain: string)
    requires i <= |coords| && RecordsAt(st, coords[..i], toolchain).None?
    ensures RecordsAt(st, coords, toolchain).None?
    decreases |coords| - i
  {
    if i < |coords| {
      assert coords[..i + 1][..i] == coords[..i];
      StaysUnread(st, coords, i + 1, toolchain);
    } else {
      assert coords[..i] == coords;
    }
  }

  // ---- the two commands ----

  datatype Outcome =
    | Refused(why: Refusal)
    | Json(refs: seq<Edge>)
    | Rows(refs: seq<Edge>)
    | Answered(partialRoot: PartialRoot, answer: Answer)

  /** What each stage of a command finds. */
  datatype Stages = Stages(scoped: Option<Refusal>, status: Result<PartialRoot>, classified: Option<Refusal>,
                           gapsRead: bool, caveatReads: bool, worktreeRead: bool, verdict: Result<Answer>)

  function StagesOf(st: Store, q: Query): Stages {
    var status := RootPartial(st, q, true);
    Stages(SymbolInScope(st, q), status, Classification(st, q), st.gapsRead, RootCaveat(st, q, true).Success?,
           st.worktreeRead, if status.Success? then Verdict(st, q, status.value) else Failure("no status"))
  }

  /** Which of them decides. */
  function Decided(s: Stages, edges: Option<seq<Edge>>, json: bool): Outcome {
    if s.scoped.Some? then Refused(s.scoped.value)
    else if s.status.Failure? then Refused(ReadFailed)
    else if edges.None? then Refused(QueryFailed)
    else
      var refs := edges.value;
      if refs == [] && s.status.value.failedPkg == "" && s.classified.Some? then Refused(s.classified.value)
      else if !s.gapsRead then Refused(ReadFailed)
      else if json then Json(refs)
      else if !s.caveatReads || !s.worktreeRead then Refused(ReadFailed)
      else if refs != [] then Rows(refs)
      else if s.verdict.Failure? then Refused(ReadFailed)
      else Answered(s.status.value, s.verdict.value)
  }

  function Flow(st: Store, q: Query, edges: Option<seq<Edge>>): Outcome {
    Decided(StagesOf(st, q), edges, q.json)
  }

  /** runCallers and runCallees, which differ in the end of the edge they ask
      for and in whether dispatch sites are scanned; edges is what the edge
      query itself returns, None when it fails. */
  method RunEdgeQuery(st: Store, q: Query, edges: Option<seq<Edge>>) returns (r: Outcome)
    ensures r == Flow(st, q, edges)
  {
    var scoped := CheckSymbolInScope(st, q);
    if scoped.Some? {
      return Refused(scoped.value);
    }
    var status := RootPartialStatus(st, q);
    if status.Failure? {
      return Refused(ReadFailed);
    }
    var pr := status.value;
    if edges.None? {
      return Refused(QueryFailed);
    }
    var refs := edges.value;
    if refs == [] && pr.failedPkg == "" {
      var why := ClassifyEmptyEdgeResult(st, q);
      if why.Some? {
        return Refused(why.value);
      }
    }
    if !st.gapsRead {
      return Refused(ReadFailed);
    }
    if q.json {
      return Json(refs);
    }
    var caveat := RootCompletenessCaveat(st, q);
    if caveat.Failure? {
      return Refused(ReadFailed);
    }
    if !st.worktreeRead {
      return Refused(ReadFailed);
    }
    if refs != [] {
      return Rows(refs);
    }
    var v := NegativeCallAnswer(st, q, pr);
    if v.Failure? {
      return Refused(ReadFailed);
    }
    r := Answered(pr, v.value);
  }

  // ---- what a printed verdict rests on ----

  /** The module a command resolves its symbol to, under a scope and a filter. */
  function Owner(st: Store, q: Query, scope: ModuleSet, f: PipelineFilter): string {
    var r := Resolved(st, q, scope, f);
    if r.None? then "" else r.value.1
  }

  function ServedOwner(st: Store, q: Query): string {
    Owner(st, q, q.scope, Current(q))
  }

  lemma OwnerSurvives(coords: seq<Coordinate>, q: Query, wide: ModuleSet, wideFilter: PipelineFilter,
                      narrow: ModuleSet, narrowFilter: PipelineFilter)
    requires forall c :: Contains(narrow, c) ==> Contains(wide, c)
    requires forall c :: Admits(narrowFilter, c) ==> Admits(wideFilter, c)
    ensures var w := LongestOwner(Paths(Listed(coords, wide, wideFilter)), q.symbol);
            var n := LongestOwner(Paths(Listed(coords, narrow, narrowFilter)), q.symbol);
            && (w != "" && w in Paths(Listed(coords, narrow, narrowFilter)) ==> n == w)
            && (n == w && w != "" ==> w in Paths(Listed(coords, narrow, narrowFilter)))
            && (w == "" ==> n == "")
  {
    var W, N := Listed(coords, wide, wideFilter), Listed(coords, narrow, narrowFilter);
    forall m | m in Paths(N)
      ensures m in Paths(W)
    {
      InPaths(N, m);
      var c :| c in N && c.path == m;
      InListed(coords, narrow, narrowFilter, c);
      InListed(coords, wide, wideFilter, c);
      InPaths(W, m);
    }
    if LongestOwner(Paths(W), q.symbol) in Paths(N) && LongestOwner(Paths(W), q.symbol) != "" {
      NarrowingKeepsTheOwner(Paths(W), Paths(N), q.symbol);
    }
  }

  lemma {:induction false} KnownMeansANode(st: Store, coords: seq<Coordinate>, m: string, q: Query, served: bool)
    requires KnownNode(st, coords, m, q, served) == Known
    ensures exists c :: c in coords && HoldsSymbol(st, c, m, q)
    decreases |coords|
  {
    if HoldsSymbol(st, coords[0], m, q) {
      assert coords[0] in coords;
    } else {
      KnownMeansANode(st, coords[1..], m, q, if coords[0].path == m && ReadAt(st, coords[0], q.toolchain).Served? then true else served);
      var c :| c in coords[1..] && HoldsSymbol(st, c, m, q);
      assert c in coords;
    }
  }

  /** The coordinate's served record has the symbol as a node. */
  predicate HoldsSymbol(st: Store, c: Coordinate, m: string, q: Query) {
    c.path == m && ReadAt(st, c, q.toolchain).Served? &&
    NodeNamed(ReadAt(st, c, q.toolchain).rec.nodes, q.symbol).Some?
  }

  /** The coordinate's served record is partial and dropped the symbol's package,
      and all that is told of the drop is what that record says. */
  predicate Dropped(st: Store, c: Coordinate, m: string, q: Query, pr: PartialRoot) {
    c.path == m && ReadAt(st, c, q.toolchain).Served? &&
    var rec := ReadAt(st, c, q.toolchain).rec;
    rec.partial && pr.failedPkg != "" && FailedPackageOf(q.symbol, rec.failedPackages) == pr.failedPkg
    && pr.dropper == Some(c) && pr.cause == rec.failureCause && pr.detail == rec.failureDetail
    && pr.analysisRoot == rec.analysisRoot
  }

  lemma {:induction false} DroppedMeansARecord(st: Store, coords: seq<Coordinate>, m: string, q: Query, out: PartialRoot)
    requires out.failedPkg == ""
    requires NotePartials(st, coords, m, q, true, out).Success? && NotePartials(st, coords, m, q, true, out).value.failedPkg != ""
    ensures exists c :: c in coords && Dropped(st, c, m, q, NotePartials(st, coords, m, q, true, out).value)
    decreases |coords|
  {
    var c, rest := coords[0], coords[1..];
    var pr := NotePartials(st, coords, m, q, true, out).value;
    var read := ReadAt(st, c, q.toolchain);
    var noted := if c.path == m && c.anyPartial && read.Served? && read.rec.partial
                 then NotePartialRecord(out, read.rec, c, q.symbol) else out;
    if noted.failedPkg == "" {
      DroppedMeansARecord(st, rest, m, q, noted);
      var d :| d in rest && Dropped(st, d, m, q, pr);
      assert d in coords;
    } else {
      FirstDropStays(st, rest, m, q, noted);
      assert Dropped(st, c, m, q, pr) && c in coords;
    }
  }

  /** Two accounts of the same drop. */
  predicate SameDrop(a: PartialRoot, b: PartialRoot) {
    a.failedPkg == b.failedPkg && a.dropper == b.dropper && a.cause == b.cause && a.detail == b.detail
    && a.analysisRoot == b.analysisRoot
  }

  lemma {:induction false} FirstDropStays(st: Store, coords: seq<Coordinate>, m: string, q: Query, out: PartialRoot)
    requires out.failedPkg != "" && NotePartials(st, coords, m, q, true, out).Success?
    ensures SameDrop(NotePartials(st, coords, m, q, true, out).value, out)
    decreases |coords|
  {
    if coords != [] {
      var c, rest := coords[0], coords[1..];
      var read := ReadAt(st, c, q.toolchain);
      FirstDropStays(st, rest, m, q,
        if c.path == m && c.anyPartial && read.Served? && read.rec.partial then NotePartialRecord(out, read.rec, c, q.symbol) else out);
    }
  }

  /** What a command went through before its verdict. */
  lemma Passed(st: Store, q: Query, edges: Option<seq<Edge>>)
    requires Flow(st, q, edges).Answered?
    ensures var out := Flow(st, q, edges);
            && st.listing.Some? && SymbolInScope(st, q).None?
            && RootPartial(st, q, true) == Success(out.partialRoot)
            && (out.partialRoot.failedPkg == "" ==> Classification(st, q).None?)
            && Verdict(st, q, out.partialRoot) == Success(out.answer)
  {
  }

  /** A symbol that passed the classification is a node of a served record of the
      one module it resolves to. */
  lemma ClassifiedIsKnown(st: Store, q: Query)
    requires st.listing.Some? && Classification(st, q).None?
    ensures ServedOwner(st, q) != "" && Owner(st, q, q.scope, AnyPipeline) == ServedOwner(st, q)
    ensures exists c :: c in Listed(st.listing.value, q.scope, Current(q)) && HoldsSymbol(st, c, ServedOwner(st, q), q)
  {
    OwnerSurvives(st.listing.value, q, q.scope, AnyPipeline, q.scope, Current(q));
    KnownMeansANode(st, Listed(st.listing.value, q.scope, Current(q)), ServedOwner(st, q), q, false);
  }

  lemma DroppedIsServed(st: Store, q: Query, pr: PartialRoot)
    requires st.listing.Some? && RootPartial(st, q, true) == Success(pr) && pr.failedPkg != ""
    ensures ServedOwner(st, q) != ""
    ensures exists c :: c in Listed(st.listing.value, q.scope, Current(q)) && Dropped(st, c, ServedOwner(st, q), q, pr)
  {
    DroppedMeansARecord(st, Listed(st.listing.value, q.scope, Current(q)), ServedOwner(st, q), q, WHOLE);
  }

  /** No unmeasured absence. A verdict is printed only over a module that
      resolves among the served coordinates, so the answer for a module that does
      not is never given; and it rests on a served record that either has the
      symbol as a node or is the one that dropped its package, as told. */
  lemma VerdictRestsOnARecord(st: Store, q: Query, edges: Option<seq<Edge>>)
    requires Flow(st, q, edges).Answered?
    ensures st.listing.Some? && ServedOwner(st, q) != ""
    ensures var pr, served := Flow(st, q, edges).partialRoot, Listed(st.listing.value, q.scope, Current(q));
            if pr.failedPkg == ""
            then exists c :: c in served && HoldsSymbol(st, c, ServedOwner(st, q), q)
            else exists c :: c in served && Dropped(st, c, ServedOwner(st, q), q, pr)
  {
    Passed(st, q, edges);
    var pr := Flow(st, q, edges).partialRoot;
    if pr.failedPkg == "" {
      ClassifiedIsKnown(st, q);
    } else {
      DroppedIsServed(st, q, pr);
    }
  }

  /** A module the scope check let through is the one the build resolves to. */
  lemma ScopedOwnerStays(st: Store, q: Query)
    requires st.listing.Some? && SymbolInScope(st, q).None? && Owner(st, q, q.scope, AnyPipeline) != ""
    ensures Owner(st, q, Everything, AnyPipeline) == Owner(st, q, q.scope, AnyPipeline)
  {
    var coords := st.listing.value;
    var all, inBuild := Listed(coords, Everything, AnyPipeline), Listed(coords, q.scope, AnyPipeline);
    var m := LongestOwner(Paths(all), q.symbol);
    OwnerSurvives(coords, q, Everything, AnyPipeline, q.scope, AnyPipeline);
    if q.scope.Only? {
      var c :| c in all && c.path == m && Contains(q.scope, c);
      InListed(coords, Everything, AnyPipeline, c);
      InListed(coords, q.scope, AnyPipeline, c);
      InPaths(inBuild, m);
    }
  }

  /** When the symbol's own package was not dropped, every stage of the command
      resolved the symbol to one and the same module: over everything stored,
      over the build, and over what is served. */
  lemma StagesAgree(st: Store, q: Query, edges: Option<seq<Edge>>)
    requires Flow(st, q, edges).Answered? && Flow(st, q, edges).partialRoot.failedPkg == ""
    ensures Owner(st, q, q.scope, AnyPipeline) == ServedOwner(st, q)
    ensures Owner(st, q, Everything, AnyPipeline) == ServedOwner(st, q)
  {
    Passed(st, q, edges);
    ClassifiedIsKnown(st, q);
    ScopedOwnerStays(st, q);
  }

  /** When it was dropped the classification is passed over, and the stages agree
      exactly when the module everything stored resolves to is served at all: a
      module nested in another, analysed only under superseded logic, leaves the
      verdict to the one around it. */
  lemma DroppedStagesAgreeIff(st: Store, q: Query, edges: Option<seq<Edge>>)
    requires Flow(st, q, edges).Answered? && Flow(st, q, edges).partialRoot.failedPkg != ""
    ensures st.listing.Some?
    ensures Owner(st, q, q.scope, AnyPipeline) == ServedOwner(st, q)
       <==> Owner(st, q, q.scope, AnyPipeline) in Paths(Listed(st.listing.value, q.scope, Current(q)))
  {
    Passed(st, q, edges);
    DroppedIsServed(st, q, Flow(st, q, edges).partialRoot);
    OwnerSurvives(st.listing.value, q, q.scope, AnyPipeline, q.scope, Current(q));
  }

  lemma {:induction false} ReadableRecords(st: Store, coords: seq<Coordinate>, toolchain: string)
    requires forall c :: c in coords ==> ReadAt(st, c, toolchain).Served? || ReadAt(st, c, toolchain).Missing?
    ensures RecordsAt(st, coords, toolchain).Some?
  {
    if coords != [] {
      ReadableRecords(st, coords[..|coords| - 1], toolchain);
    }
  }

  lemma FirstOfTwo<T>(a: T, b: T, p: T -> bool)
    requires p(a) && !p(b)
    ensures Filter([a, b], p) == [a]
  {
    assert [a, b][..1] == [a] && [a][..0] == [];
    assert Filter([a], p) == [a];
  }

  lemma TwoListed(a: Coordinate, b: Coordinate, q: Query)
    requires a.pipeline == q.pipeline && b.pipeline != q.pipeline
    ensures Listed([a, b], Everything, AnyPipeline) == [a, b]
    ensures Listed([a, b], Everything, Current(q)) == [a]
  {
    KeepsAll([a, b], c => Admits(AnyPipeline, c));
    KeepsAll([a, b], c => Contains(Everything, c));
    FirstOfTwo(a, b, c => Admits(Current(q), c));
    KeepsAll([a], c => Contains(Everything, c));
  }

  lemma TwoOwners(a: Coordinate, b: Coordinate, symbol: string)
    requires Owns(a.path, symbol) && Owns(b.path, symbol) && |a.path| < |b.path|
    ensures LongestOwner(Paths([a, b]), symbol) == b.path && LongestOwner(Paths([a]), symbol) == a.path
  {
    assert Paths([a, b]) == [a.path, b.path] && Paths([a]) == [a.path];
    OwnerIsUnique(Paths([a, b]), symbol, b.path);
    OwnerIsUnique(Paths([a]), symbol, a.path);
  }

  /** Module a is served, and partial because it dropped the package the symbol is
      in; module b, nested in a, owns the symbol but was analysed only under
      superseded logic. */
  predicate NestedIsSuperseded(st: Store, q: Query, a: Coordinate, b: Coordinate, rec: Record) {
    && st.listing == Some([a, b]) && a.pipeline == q.pipeline && b.pipeline != q.pipeline
    && Owns(a.path, q.symbol) && Owns(b.path, q.symbol) && |a.path| < |b.path|
    && a.anyPartial && !a.anyBelowFull && ReadAt(st, a, q.toolchain) == Served(rec)
    && rec.partial && FailedPackageOf(q.symbol, rec.failedPackages) != ""
    && q.scope.Everything? && !q.json && st.gapsRead && st.worktreeRead
  }

  lemma NestedOwners(st: Store, q: Query, a: Coordinate, b: Coordinate, rec: Record)
    requires NestedIsSuperseded(st, q, a, b, rec)
    ensures Resolved(st, q, Everything, AnyPipeline) == Some(([a, b], b.path))
    ensures Resolved(st, q, q.scope, Current(q)) == Some(([a], a.path))
    ensures SymbolInScope(st, q).None?
  {
    TwoListed(a, b, q);
    TwoOwners(a, b, q.symbol);
  }

  /** The stages can disagree: the verdict is then printed over a, although
      everything stored resolves the symbol to b. */
  lemma StagesCanDisagree(st: Store, q: Query, a: Coordinate, b: Coordinate, rec: Record)
    requires NestedIsSuperseded(st, q, a, b, rec)
    ensures Flow(st, q, Some([])).Answered?
    ensures Owner(st, q, Everything, AnyPipeline) == b.path && ServedOwner(st, q) == a.path
  {
    NestedOwners(st, q, a, b, rec);
    OneDropped(st, q, a, rec);
    OneVerdict(st, q, a);
    OneAnswered(st, q, a, NotePartialRecord(WHOLE, rec, a, q.symbol));
  }

  /** There is such a store: F of package m/n, which m dropped. */
  lemma SomeNestedIsSuperseded()
    ensures exists st, q, a, b, rec :: NestedIsSuperseded(st, q, a, b, rec)
  {
    var a, b := Coordinate("m", "1", "new", true, false), Coordinate("m/n", "1", "old", false, false);
    var rec := Record(true, ["m/n"], "", "", false, "", BuiltWithBodies, Analysed, "", Analysed, [], []);
    var st := Store(Some([a, b]), map[Key("m", "1", "new", "go1") := Served(rec)], {}, false, true, true);
    var q := Query("m/n.F", true, Everything, "go1", false, false, "new");
    assert FailedPackageOf(q.symbol, rec.failedPackages) == "m/n";
    assert NestedIsSuperseded(st, q, a, b, rec);
  }

  /** A flow whose every stage goes through. */
  lemma OneAnswered(st: Store, q: Query, a: Coordinate, pr: PartialRoot)
    requires SymbolInScope(st, q).None? && Resolved(st, q, q.scope, Current(q)) == Some(([a], a.path)) && a.path != ""
    requires NotePartials(st, [a], a.path, q, true, WHOLE) == Success(pr) && pr.failedPkg != "" && !q.json
    requires st.gapsRead && st.worktreeRead
    requires FirstCaveat(st, [a], a.path, true) == Success(None)
    requires RecordsAt(st, Owning([a], a.path), q.toolchain).Some?
    ensures Flow(st, q, Some([])).Answered?
  {
    assert RootPartial(st, q, true) == Success(pr);
    assert RootCaveat(st, q, true) == Success(None);
    assert Verdict(st, q, pr).Success?;
    DecidedAnswer(StagesOf(st, q));
  }

  lemma OneDropped(st: Store, q: Query, a: Coordinate, rec: Record)
    requires a.anyPartial && !a.anyBelowFull && ReadAt(st, a, q.toolchain) == Served(rec)
    requires rec.partial && FailedPackageOf(q.symbol, rec.failedPackages) != ""
    ensures NotePartials(st, [a], a.path, q, true, WHOLE) == Success(NotePartialRecord(WHOLE, rec, a, q.symbol))
    ensures NotePartialRecord(WHOLE, rec, a, q.symbol).failedPkg != ""
    ensures FirstCaveat(st, [a], a.path, true) == Success(None)
  {
    assert [a][1..] == [];
  }

  lemma OneVerdict(st: Store, q: Query, a: Coordinate)
    requires ReadAt(st, a, q.toolchain).Served?
    ensures RecordsAt(st, Owning([a], a.path), q.toolchain).Some?
  {
    forall c | c in Owning([a], a.path)
      ensures ReadAt(st, c, q.toolchain).Served?
    {
      InOwning([a], a.path, c);
    }
    ReadableRecords(st, Owning([a], a.path), q.toolchain);
  }

  /** The records the verdict was gathered from, in version order. */
  function Consulted(st: Store, q: Query): seq<Record> {
    var r := Resolved(st, q, q.scope, Current(q));
    if r.None? then []
    else
      var recs := RecordsAt(st, Owning(r.value.0, r.value.1), q.toolchain);
      if recs.None? then [] else recs.value
  }

  lemma {:induction false} InRecordsAt(st: Store, coords: seq<Coordinate>, toolchain: string, c: Coordinate)
    requires RecordsAt(st, coords, toolchain).Some? && c in coords && ReadAt(st, c, toolchain).Served?
    ensures ReadAt(st, c, toolchain).rec in RecordsAt(st, coords, toolchain).value
  {
    var n := |coords| - 1;
    assert coords == coords[..n] + [coords[n]];
    if c != coords[n] {
      InRecordsAt(st, coords[..n], toolchain, c);
    }
  }

  lemma InOwning(coords: seq<Coordinate>, m: string, c: Coordinate)
    ensures c in Owning(coords, m) <==> c in coords && c.path == m
  {
    SameElements(Owning(coords, m), OwnVersions(coords, m), c);
    InFilter(coords, (c: Coordinate) => c.path == m, c);
  }

  function FoldedOf(q: Query, pr: PartialRoot, recs: seq<Record>): Inputs {
    Folded(Start(q.symbol, q.callers, pr.failedPkg, pr.detail, q.excludeTests), recs, q.symbol)
  }

  /** The consulted records prove the absence of an edge. */
  predicate Proves(q: Query, recs: seq<Record>, folded: Inputs) {
    var h := LastHolder(recs, q.symbol);
    && (forall r :: r in recs ==> r.referenceScope == Analysed)
    && (q.excludeTests || forall r :: r in recs ==> r.testScope == Analysed)
    && h >= 0 && !BelowFull(recs[h].completeness)
    && Transparent(NodeNamed(recs[h].nodes, q.symbol).value)
    && (q.callers && MethodName(q.symbol) != "" ==>
          forall e :: e in folded.edges ==> !DispatchesOn(MethodName(q.symbol), e, folded.nodesById))
  }

  lemma GatheredProves(q: Query, pr: PartialRoot, recs: seq<Record>, owning: nat)
    requires owning > 0 && (pr.failedPkg == "" ==> exists r :: r in recs && NodeNamed(r.nodes, q.symbol).Some?)
    ensures NothingAgainst(Gathered(q, pr, recs, owning))
       <==> pr.failedPkg == "" && Proves(q, recs, FoldedOf(q, pr, recs))
  {
    var start := Start(q.symbol, q.callers, pr.failedPkg, pr.detail, q.excludeTests);
    var h := LastHolder(recs, q.symbol);
    FoldIsWeakest(start, recs, q.symbol);
    FoldMeasures(start, recs, q.symbol);
    var inp := Gathered(q, pr, recs, owning);
    assert inp.droppedPackage == pr.failedPkg && inp.methodName == MethodName(q.symbol) && inp.scanDispatch == q.callers;
    assert h >= 0 ==> inp.moduleLevel == recs[h].completeness && inp.queriedNode == NodeNamed(recs[h].nodes, q.symbol);
    assert pr.failedPkg == "" ==> h >= 0;
  }

  lemma HolderIsConsulted(st: Store, q: Query, pr: PartialRoot, c: Coordinate)
    requires st.listing.Some? && ServedOwner(st, q) != "" && Verdict(st, q, pr).Success?
    requires c in Listed(st.listing.value, q.scope, Current(q)) && c.path == ServedOwner(st, q)
    requires ReadAt(st, c, q.toolchain).Served?
    ensures ReadAt(st, c, q.toolchain).rec in Consulted(st, q)
    ensures var owning := Owning(Listed(st.listing.value, q.scope, Current(q)), ServedOwner(st, q));
            owning != [] && Verdict(st, q, pr) == Success(Classified(Gathered(q, pr, Consulted(st, q), |owning|)))
  {
    var served := Listed(st.listing.value, q.scope, Current(q));
    InOwning(served, ServedOwner(st, q), c);
    InRecordsAt(st, Owning(served, ServedOwner(st, q)), q.toolchain, c);
  }

  /** RESOLVED-ABSENT is printed exactly when the symbol's package was not
      dropped, every consulted record measured references, every one measured
      tests or the caller excluded them, the last record holding the symbol was
      built with bodies (or states no level) and shows a node that hides nothing,
      and, for callers, no consulted edge is an interface call that may have
      missed it. */
  lemma PrintedAbsentIff(st: Store, q: Query, edges: Option<seq<Edge>>)
    requires Flow(st, q, edges).Answered?
    ensures var out, recs := Flow(st, q, edges), Consulted(st, q);
            out.answer.outcome == ResolvedAbsent <==>
              out.partialRoot.failedPkg == "" && Proves(q, recs, FoldedOf(q, out.partialRoot, recs))
  {
    Passed(st, q, edges);
    VerdictRestsOnARecord(st, q, edges);
    var pr, m := Flow(st, q, edges).partialRoot, ServedOwner(st, q);
    var served := Listed(st.listing.value, q.scope, Current(q));
    var c :| c in served && if pr.failedPkg == "" then HoldsSymbol(st, c, m, q) else Dropped(st, c, m, q, pr);
    HolderIsConsulted(st, q, pr, c);
    GatheredProves(q, pr, Consulted(st, q), |Owning(served, m)|);
    AbsentIff(Gathered(q, pr, Consulted(st, q), |Owning(served, m)|));
  }

  // ---- when a verdict is reached ----

  /** The coordinate's record, where there is one, reads; what its columns say must be
      looked at reads too, and did not drop the symbol's package. */
  predicate ReadsThrough(st: Store, q: Query, c: Coordinate) {
    var r := ReadAt(st, c, q.toolchain);
    && (r.Missing? || r.Served?)
    && (c.anyPartial && r.Served? && r.rec.partial ==> FailedPackageOf(q.symbol, r.rec.failedPackages) == "")
    && (c.anyBelowFull ==> !ReadAt(st, c, "").Unreadable?)
  }

  ghost predicate AllReadThrough(st: Store, coords: seq<Coordinate>, m: string, q: Query) {
    forall c :: c in coords && c.path == m ==> ReadsThrough(st, q, c)
  }

  lemma {:induction false} NothingDropped(st: Store, coords: seq<Coordinate>, m: string, q: Query, out: PartialRoot)
    requires AllReadThrough(st, coords, m, q) && out.failedPkg == ""
    ensures var r := NotePartials(st, coords, m, q, true, out); r.Success? && r.value.failedPkg == ""
    decreases |coords|
  {
    if coords != [] {
      var c, rest := coords[0], coords[1..];
      var read := ReadAt(st, c, q.toolchain);
      assert c in coords;
      NothingDropped(st, rest, m, q,
        if c.path == m && c.anyPartial && read.Served? && read.rec.partial then NotePartialRecord(out, read.rec, c, q.symbol) else out);
    }
  }

  lemma {:induction false} CaveatReads(st: Store, coords: seq<Coordinate>, m: string, q: Query)
    requires AllReadThrough(st, coords, m, q)
    ensures FirstCaveat(st, coords, m, true).Success?
    decreases |coords|
  {
    if coords != [] {
      assert coords[0] in coords;
      CaveatReads(st, coords[1..], m, q);
    }
  }

  lemma {:induction false} KnownWhenHeld(st: Store, coords: seq<Coordinate>, m: string, q: Query, served: bool)
    requires AllReadThrough(st, coords, m, q) && exists c :: c in coords && HoldsSymbol(st, c, m, q)
    ensures KnownNode(st, coords, m, q, served) == Known
    decreases |coords|
  {
    var c := coords[0];
    assert c in coords;
    if !HoldsSymbol(st, c, m, q) {
      var d :| d in coords && HoldsSymbol(st, d, m, q);
      assert d in coords[1..];
      KnownWhenHeld(st, coords[1..], m, q, if c.path == m && ReadAt(st, c, q.toolchain).Served? then true else served);
    }
  }

  /** The symbol passes the scope check and resolves, over what is stored and over what
      is served, to one module whose records read through, one of them holding the
      symbol; and the reads behind the notices succeed. */
  ghost predicate ReachesVerdict(st: Store, q: Query) {
    && st.listing.Some? && SymbolInScope(st, q).None? && !q.json && st.gapsRead && st.worktreeRead
    && ServedOwner(st, q) != "" && Owner(st, q, q.scope, AnyPipeline) == ServedOwner(st, q)
    && AllReadThrough(st, InService(st, q), ServedOwner(st, q), q)
    && exists c :: c in InService(st, q) && HoldsSymbol(st, c, ServedOwner(st, q), q)
  }

  /** What is served in the build asked about. */
  function InService(st: Store, q: Query): seq<Coordinate> {
    if st.listing.None? then [] else Listed(st.listing.value, q.scope, Current(q))
  }

  lemma Classifies(st: Store, q: Query)
    requires ReachesVerdict(st, q)
    ensures Classification(st, q).None?
  {
    var m := ServedOwner(st, q);
    KnownWhenHeld(st, InService(st, q), m, q, false);
    var c :| c in InService(st, q) && HoldsSymbol(st, c, m, q);
    InPaths(InService(st, q), m);
  }

  lemma GivesVerdict(st: Store, q: Query, pr: PartialRoot)
    requires ReachesVerdict(st, q)
    ensures Verdict(st, q, pr).Success?
  {
    var m := ServedOwner(st, q);
    var owning := Owning(InService(st, q), m);
    forall c | c in owning
      ensures ReadAt(st, c, q.toolchain).Served? || ReadAt(st, c, q.toolchain).Missing?
    {
      InOwning(InService(st, q), m, c);
    }
    ReadableRecords(st, owning, q.toolchain);
  }

  lemma StatusReads(st: Store, q: Query)
    requires ReachesVerdict(st, q)
    ensures RootPartial(st, q, true).Success? && RootPartial(st, q, true).value.failedPkg == ""
    ensures RootCaveat(st, q, true).Success?
  {
    NothingDropped(st, InService(st, q), ServedOwner(st, q), q, WHOLE);
    CaveatReads(st, InService(st, q), ServedOwner(st, q), q);
  }

  lemma DecidedAnswer(s: Stages)
    requires s.scoped.None? && s.status.Success? && (s.status.value.failedPkg == "" ==> s.classified.None?)
    requires s.gapsRead && s.caveatReads && s.worktreeRead && s.verdict.Success?
    ensures Decided(s, Some([]), false) == Answered(s.status.value, s.verdict.value)
  {
  }

  /** Then an empty result is answered. */
  lemma VerdictIsReached(st: Store, q: Query)
    requires ReachesVerdict(st, q)
    ensures Flow(st, q, Some([])).Answered? && Flow(st, q, Some([])).partialRoot.failedPkg == ""
  {
    StatusReads(st, q);
    Classifies(st, q);
    GivesVerdict(st, q, RootPartial(st, q, true).value);
    DecidedAnswer(StagesOf(st, q));
  }

  // ---- a measured absence is printed ----

  /** A record not built below full, references measured, tests too unless they were
      excluded, and the symbol, if it is a node, one that hides nothing. */
  predicate MeasuresWhole(rec: Record, q: Query) {
    && !BelowFull(rec.completeness) && Sees(rec, q)
    && (NodeNamed(rec.nodes, q.symbol).Some? ==> Transparent(NodeNamed(rec.nodes, q.symbol).value))
  }

  predicate Sees(rec: Record, q: Query) {
    rec.referenceScope == Analysed && (q.excludeTests || rec.testScope == Analysed)
  }

  /** A call of the one record, not narrowed to one callee, is of a node the other
      holds by the name. */
  ghost predicate MayMiss(rec: Record, other: Record, name: string) {
    exists e, n :: e in rec.edges && n in other.nodes && Unnarrowed(e) && n.id == e.toId && n.symbol == name
  }

  /** Where callers are asked for, no call in these records may have missed the
      symbol's name. */
  ghost predicate NoneMisses(q: Query, recs: seq<Record>) {
    q.callers && MethodName(q.symbol) != "" ==>
      forall r, s :: r in recs && s in recs ==> !MayMiss(r, s, MethodName(q.symbol))
  }

  lemma NoDispatch(q: Query, pr: PartialRoot, recs: seq<Record>, e: Edge)
    requires q.callers && MethodName(q.symbol) != "" && NoneMisses(q, recs) && e in FoldedOf(q, pr, recs).edges
    ensures !DispatchesOn(MethodName(q.symbol), e, FoldedOf(q, pr, recs).nodesById)
  {
    var start := Start(q.symbol, q.callers, pr.failedPkg, pr.detail, q.excludeTests);
    FoldedGraph(start, recs, q.symbol, e);
    var r :| r in recs && e in r.edges;
    var folded := FoldedOf(q, pr, recs);
    if Unnarrowed(e) && e.toId in folded.nodesById {
      FoldedNodes(start, recs, q.symbol, e.toId);
      var n := folded.nodesById[e.toId];
      var s :| s in recs && n in s.nodes;
      assert !MayMiss(r, s, MethodName(q.symbol));
    }
  }

  lemma SeenWhole(q: Query, pr: PartialRoot, recs: seq<Record>)
    requires (forall r :: r in recs ==> Sees(r, q)) && NoneMisses(q, recs)
    requires var h := LastHolder(recs, q.symbol);
             && h >= 0 && !BelowFull(recs[h].completeness)
             && Transparent(NodeNamed(recs[h].nodes, q.symbol).value)
    ensures Proves(q, recs, FoldedOf(q, pr, recs))
  {
    var folded := FoldedOf(q, pr, recs);
    forall e | q.callers && MethodName(q.symbol) != "" && e in folded.edges
      ensures !DispatchesOn(MethodName(q.symbol), e, folded.nodesById)
    {
      NoDispatch(q, pr, recs, e);
    }
  }

  lemma {:induction false} FromRecordsAt(st: Store, coords: seq<Coordinate>, toolchain: string, rec: Record)
    requires RecordsAt(st, coords, toolchain).Some? && rec in RecordsAt(st, coords, toolchain).value
    ensures exists c :: c in coords && ReadAt(st, c, toolchain) == Served(rec)
  {
    var n := |coords| - 1;
    assert coords[n] in coords;
    if ReadAt(st, coords[n], toolchain) != Served(rec) {
      FromRecordsAt(st, coords[..n], toolchain, rec);
      var c :| c in coords[..n] && ReadAt(st, c, toolchain) == Served(rec);
      assert c in coords;
    }
  }

  /** A record of the module in service. */
  ghost predicate IsServed(st: Store, q: Query, rec: Record) {
    exists c :: c in InService(st, q) && c.path == ServedOwner(st, q) && ReadAt(st, c, q.toolchain) == Served(rec)
  }

  /** Every served record of the module measures it whole, and no call in one may have
      missed the symbol. */
  ghost predicate ServedWhole(st: Store, q: Query) {
    && (forall r :: IsServed(st, q, r) ==> MeasuresWhole(r, q))
    && (q.callers && MethodName(q.symbol) != "" ==>
          forall r, s :: IsServed(st, q, r) && IsServed(st, q, s) ==> !MayMiss(r, s, MethodName(q.symbol)))
  }

  lemma ConsultedIsServed(st: Store, q: Query, rec: Record)
    requires ReachesVerdict(st, q) && rec in Consulted(st, q)
    ensures IsServed(st, q, rec)
  {
    var m := ServedOwner(st, q);
    GivesVerdict(st, q, WHOLE);
    FromRecordsAt(st, Owning(InService(st, q), m), q.toolchain, rec);
    var c :| c in Owning(InService(st, q), m) && ReadAt(st, c, q.toolchain) == Served(rec);
    InOwning(InService(st, q), m, c);
  }

  lemma HolderIsFound(st: Store, q: Query)
    requires ReachesVerdict(st, q)
    ensures LastHolder(Consulted(st, q), q.symbol) >= 0
  {
    var c :| c in InService(st, q) && HoldsSymbol(st, c, ServedOwner(st, q), q);
    GivesVerdict(st, q, WHOLE);
    HolderIsConsulted(st, q, WHOLE, c);
  }

  lemma ServedWholeProves(st: Store, q: Query, pr: PartialRoot)
    requires ReachesVerdict(st, q) && ServedWhole(st, q)
    ensures Proves(q, Consulted(st, q), FoldedOf(q, pr, Consulted(st, q)))
  {
    var recs := Consulted(st, q);
    forall r | r in recs
      ensures IsServed(st, q, r)
    {
      ConsultedIsServed(st, q, r);
    }
    HolderIsFound(st, q);
    assert recs[LastHolder(recs, q.symbol)] in recs;
    SeenWhole(q, pr, recs);
  }

  /** A measured absence is printed as one: where a verdict is reached over a module
      whose every served record measures it whole, an empty result is
      RESOLVED-ABSENT, whatever else is stored and whichever build is asked about. */
  lemma MeasuredAbsenceIsPrinted(st: Store, q: Query)
    requires ReachesVerdict(st, q) && ServedWhole(st, q)
    ensures Flow(st, q, Some([])).Answered? && Flow(st, q, Some([])).answer.outcome == ResolvedAbsent
  {
    VerdictIsReached(st, q);
    ServedWholeProves(st, q, Flow(st, q, Some([])).partialRoot);
    PrintedAbsentIff(st, q, Some([]));
  }

  // ---- the level is one holder's ----

  /** Two versions of a module, both served and holding the symbol: the earlier below
      full fidelity, the later whole. */
  ghost predicate WeakerHeldEarlier(st: Store, q: Query, a: Coordinate, b: Coordinate, ra: Record, rb: Record) {
    && st.listing == Some([a, b]) && a.path == b.path && Owns(a.path, q.symbol) && VersionLess(a, b)
    && a.pipeline == b.pipeline == q.pipeline && !a.anyPartial && !b.anyPartial
    && ReadAt(st, a, q.toolchain) == Served(ra) && ReadAt(st, b, q.toolchain) == Served(rb)
    && !ReadAt(st, a, "").Unreadable? && !ReadAt(st, b, "").Unreadable?
    && Sees(ra, q) && BelowFull(ra.completeness) && NodeNamed(ra.nodes, q.symbol).Some?
    && MeasuresWhole(rb, q) && NodeNamed(rb.nodes, q.symbol).Some? && NoneMisses(q, [ra, rb])
    && q.scope.Everything? && !q.json && st.gapsRead && st.worktreeRead
  }

  /** There is such a store: F of m, its first version built without bodies. */
  lemma SomeWeakerHeldEarlier()
    ensures exists st, q, a, b, ra, rb :: WeakerHeldEarlier(st, q, a, b, ra, rb)
  {
    var a, b := Coordinate("m", "1", "new", false, true), Coordinate("m", "2", "new", false, false);
    var f := Node("m.F", "F", "", false, false, false, false);
    var rb := Record(false, [], "", "", false, "", BuiltWithBodies, Analysed, "", Analysed, [f], []);
    var ra := rb.(completeness := TypeOnly);
    var st := Store(Some([a, b]), map[Key("m", "1", "new", "go1") := Served(ra), Key("m", "2", "new", "go1") := Served(rb)],
                    {}, false, true, true);
    var q := Query("m.F", true, Everything, "go1", false, false, "new");
    assert f in rb.nodes && NodeNamed(rb.nodes, "m.F") == Some(f);
    assert WeakerHeldEarlier(st, q, a, b, ra, rb);
  }

  lemma BothOfTwo<T>(a: T, b: T, p: T -> bool)
    requires p(a) && p(b)
    ensures Filter([a, b], p) == [a, b]
  {
    assert [a, b][..1] == [a] && [a][..0] == [];
    assert Filter([a], p) == [a];
  }

  lemma BothListed(a: Coordinate, b: Coordinate, q: Query, f: PipelineFilter)
    requires a.pipeline == b.pipeline == q.pipeline && (f == AnyPipeline || f == Current(q))
    ensures Listed([a, b], Everything, f) == [a, b]
  {
    BothOfTwo(a, b, c => Admits(f, c));
    BothOfTwo(a, b, c => Contains(Everything, c));
  }

  lemma BothOwn(a: Coordinate, b: Coordinate, symbol: string)
    requires a.path == b.path && Owns(a.path, symbol)
    ensures LongestOwner(Paths([a, b]), symbol) == a.path
  {
    assert Paths([a, b]) == [a.path, b.path];
    OwnerIsUnique([a.path, b.path], symbol, a.path);
  }

  lemma BothOwning(a: Coordinate, b: Coordinate)
    requires a.path == b.path && VersionLess(a, b)
    ensures Owning([a, b], a.path) == [a, b]
  {
    BothOfTwo(a, b, (c: Coordinate) => c.path == a.path);
    StrConnected(a.version, b.version);
    assert [a, b][1..] == [b] && [b][1..] == [];
    assert Sort([b], VersionLess) == [b];
    assert Sort([a, b], VersionLess) == Insert(a, [b], VersionLess) == [a] + [b];
  }

  lemma BothRead(st: Store, a: Coordinate, b: Coordinate, ra: Record, rb: Record, toolchain: string)
    requires ReadAt(st, a, toolchain) == Served(ra) && ReadAt(st, b, toolchain) == Served(rb)
    ensures RecordsAt(st, [a, b], toolchain) == Some([ra, rb])
  {
    assert [a, b][..1] == [a] && [a][..0] == [];
    assert RecordsAt(st, [a][..0], toolchain) == Some([]);
    assert RecordsAt(st, [a], toolchain) == Some([] + [ra]);
    assert [] + [ra] + [rb] == [ra, rb];
  }

  lemma BothResolve(st: Store, q: Query, a: Coordinate, b: Coordinate, f: PipelineFilter)
    requires st.listing == Some([a, b]) && q.scope.Everything? && (f == AnyPipeline || f == Current(q))
    requires a.path == b.path && Owns(a.path, q.symbol) && a.pipeline == b.pipeline == q.pipeline
    ensures Resolved(st, q, q.scope, f) == Some(([a, b], a.path))
  {
    BothListed(a, b, q, f);
    BothOwn(a, b, q.symbol);
  }

  lemma BothInService(st: Store, q: Query, a: Coordinate, b: Coordinate)
    requires st.listing.Some? && Resolved(st, q, q.scope, AnyPipeline) == Some(([a, b], a.path))
    requires Resolved(st, q, q.scope, Current(q)) == Some(([a, b], a.path))
    ensures InService(st, q) == [a, b] && ServedOwner(st, q) == a.path && Owner(st, q, q.scope, AnyPipeline) == a.path
  {
  }

  lemma BothConsulted(st: Store, q: Query, a: Coordinate, b: Coordinate, recs: seq<Record>)
    requires Resolved(st, q, q.scope, Current(q)) == Some(([a, b], a.path))
    requires Owning([a, b], a.path) == [a, b] && RecordsAt(st, [a, b], q.toolchain) == Some(recs)
    ensures Consulted(st, q) == recs
  {
  }

  lemma BothReachVerdict(st: Store, q: Query, a: Coordinate, b: Coordinate)
    requires st.listing.Some? && q.scope.Everything? && !q.json && st.gapsRead && st.worktreeRead && a.path != ""
    requires InService(st, q) == [a, b] && ServedOwner(st, q) == a.path && Owner(st, q, q.scope, AnyPipeline) == a.path
    requires ReadsThrough(st, q, a) && ReadsThrough(st, q, b) && HoldsSymbol(st, a, a.path, q)
    ensures ReachesVerdict(st, q)
  {
    assert SymbolInScope(st, q).None?;
    assert a in InService(st, q);
  }

  lemma LastOfTwo(q: Query, pr: PartialRoot, ra: Record, rb: Record)
    requires Sees(ra, q) && MeasuresWhole(rb, q) && NodeNamed(rb.nodes, q.symbol).Some? && NoneMisses(q, [ra, rb])
    ensures Proves(q, [ra, rb], FoldedOf(q, pr, [ra, rb]))
  {
    assert LastHolder([ra, rb], q.symbol) == 1;
    SeenWhole(q, pr, [ra, rb]);
  }

  /** The verdict keeps the level of the later holder: RESOLVED-ABSENT is printed though
      a record it consulted, which holds the symbol too, was built below full. */
  lemma WeakerHolderIsPassedOver(st: Store, q: Query, a: Coordinate, b: Coordinate, ra: Record, rb: Record)
    requires WeakerHeldEarlier(st, q, a, b, ra, rb)
    ensures Flow(st, q, Some([])).Answered? && Flow(st, q, Some([])).answer.outcome == ResolvedAbsent
    ensures ra in Consulted(st, q) && BelowFull(ra.completeness) && NodeNamed(ra.nodes, q.symbol).Some?
  {
    BothResolve(st, q, a, b, AnyPipeline);
    BothResolve(st, q, a, b, Current(q));
    BothInService(st, q, a, b);
    BothReachVerdict(st, q, a, b);
    BothOwning(a, b);
    BothRead(st, a, b, ra, rb, q.toolchain);
    BothConsulted(st, q, a, b, [ra, rb]);
    VerdictIsReached(st, q);
    LastOfTwo(q, Flow(st, q, Some([])).partialRoot, ra, rb);
    PrintedAbsentIff(st, q, Some([]));
  }
}
