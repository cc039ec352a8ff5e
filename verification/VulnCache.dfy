/** The per-batch vulnerability caches: frames, graphs and affected sets read once
    per walk, each answer the one a fresh read would give. */
module VulnCache {
  import opened Wrappers
  import opened Order
  import opened Coordinates

  /** The frame a walk's scans were rooted at; a walk whose record cannot be read
      still pins its own id. */
  datatype Anchor = Anchor(walkId: string, rooting: Option<Coord>)

  /** A dependency graph, by what it reaches from each module. */
  datatype Graph = Graph(closure: map<Coord, set<Coord>>)

  datatype WalkRecord = WalkRecord(target: Coord, graph: Graph)

  /** A per-module read in a walk's frame, and the generations set aside by it. */
  datatype Reading = Reading(found: bool, affected: bool, fault: bool, aside: set<string>)

  datatype ScanRun = ScanRun(walkId: string, affected: bool, modules: set<Coord>)

  /** The stores a batch reads, unchanging while it does. */
  datatype Store = Store(walks: map<string, WalkRecord>, readings: map<(Coord, Anchor), Reading>)

  // ---- fresh reads ----

  function FrameOf(st: Store, walkId: string): Anchor {
    Anchor(walkId, if walkId in st.walks then Some(st.walks[walkId].target) else None)
  }

  function GraphOf(st: Store, walkId: string): Option<Graph> {
    if walkId in st.walks then Some(st.walks[walkId].graph) else None
  }

  function ReachableFrom(g: Graph, c: Coord): set<Coord> {
    if c in g.closure then g.closure[c] else {}
  }

  function ReadingOf(st: Store, c: Coord, at: Anchor): Reading {
    if (c, at) in st.readings then st.readings[(c, at)] else Reading(false, false, false, {})
  }

  /** The affected modules of a run, or the fault that kept them from being read. */
  datatype Affected = Modules(coords: set<Coord>, aside: set<string>) | Fault

  predicate CountsAsAffected(st: Store, c: Coord, at: Anchor) {
    ReadingOf(st, c, at).found && ReadingOf(st, c, at).affected
  }

  function AsideOf(st: Store, modules: set<Coord>, at: Anchor): set<string> {
    set c, row | c in modules && row in ReadingOf(st, c, at).aside :: row
  }

  function AffectedAmong(st: Store, modules: set<Coord>, at: Anchor): Affected {
    if exists c :: c in modules && ReadingOf(st, c, at).fault then Fault
    else Modules((set c | c in modules && CountsAsAffected(st, c, at)), AsideOf(st, modules, at))
  }

  function AffectedOf(st: Store, runs: seq<ScanRun>): Affected {
    if runs == [] then Modules({}, {}) else AffectedAmong(st, runs[0].modules, FrameOf(st, runs[0].walkId))
  }

  /** The affected set of one run, read module by module in whatever order the
      run's map yields them. */
  method AffectedSetForRun(st: Store, run: ScanRun, at: Anchor) returns (r: Affected)
    ensures r == AffectedAmong(st, run.modules, at)
  {
    var todo := run.modules;
    var coords, aside := {}, {};
    while todo != {}
      invariant todo <= run.modules
      invariant forall c :: c in run.modules - todo ==> !ReadingOf(st, c, at).fault
      invariant coords == set c | c in run.modules - todo && CountsAsAffected(st, c, at)
      invariant aside == AsideOf(st, run.modules - todo, at)
    {
      var c :| c in todo;
      var reading := ReadingOf(st, c, at);
      if reading.fault {
        return Fault;
      }
      AsideOfOneMore(st, run.modules - todo, c, at);
      assert run.modules - (todo - {c}) == (run.modules - todo) + {c};
      todo := todo - {c};
      aside := aside + reading.aside;
      if !reading.found {
        continue;
      }
      if reading.affected {
        coords := coords + {c};
      }
    }
    assert run.modules - todo == run.modules;
    r := Modules(coords, aside);
  }

  lemma AsideOfOneMore(st: Store, done: set<Coord>, c: Coord, at: Anchor)
    ensures AsideOf(st, done + {c}, at) == AsideOf(st, done, at) + ReadingOf(st, c, at).aside
  {
  }

  /** A module's annotation: none, a fault to show, or the affected peers in its
      closure. */
  datatype Annotation = Unannotated | Uncertain | Peers(labels: seq<string>)

  /** The peers named beside a module: affected in the walk, in its closure, not
      itself. */
  function PeersOf(self: Coord, affected: set<Coord>, reachable: set<Coord>): set<Coord> {
    set c | c in affected && c != self && c in reachable
  }

  function Named(coords: set<Coord>, name: string): nat {
    |set c | c in coords && Label(c) == name|
  }

  /** In order, each label as often as a peer bears it. */
  ghost predicate LabelsOf(labels: seq<string>, peers: set<Coord>) {
    InOrder(labels, StrLess) && Bear(labels, peers)
  }

  ghost predicate Bear(labels: seq<string>, peers: set<Coord>) {
    forall l :: multiset(labels)[l] == Named(peers, l)
  }

  /** What annotating a module of a run must give. The peers are those of the
      newest run of the run's walk, which need not be the run itself. */
  ghost predicate Annotates(st: Store, runs: seq<ScanRun>, run: ScanRun, self: Coord, a: Annotation) {
    if !run.affected || GraphOf(st, run.walkId).None? then a == Unannotated
    else if AffectedOf(st, runs).Fault? then a == Uncertain
    else
      var reachable := ReachableFrom(GraphOf(st, run.walkId).value, self);
      a.Peers? && LabelsOf(a.labels, PeersOf(self, AffectedOf(st, runs).coords, reachable))
  }

  // ---- the batch ----

  class VulnBatch {
    const store: Store
    const runs: map<string, seq<ScanRun>>
    var graphCache: map<string, Option<Graph>>
    var affectedCache: map<string, set<Coord>>
    var affectedAside: map<string, set<string>>
    var frameCache: map<string, Anchor>

    constructor (store: Store, runs: map<string, seq<ScanRun>>)
      ensures Valid() && this.store == store && this.runs == runs
      ensures affectedCache == map[] && graphCache == map[] && frameCache == map[]
    {
      this.store, this.runs := store, runs;
      graphCache, affectedCache, affectedAside, frameCache := map[], map[], map[], map[];
    }

    function RunsOf(walkId: string): seq<ScanRun> {
      if walkId in runs then runs[walkId] else []
    }

    /** Every entry of every cache is what a fresh read gives. */
    ghost predicate Valid()
      reads this
    {
      && (forall w :: w in frameCache ==> frameCache[w] == FrameOf(store, w))
      && (forall w :: w in graphCache ==> graphCache[w] == GraphOf(store, w))
      && affectedAside.Keys == affectedCache.Keys
      && (forall w :: w in affectedCache ==> AffectedOf(store, RunsOf(w)) == Modules(affectedCache[w], affectedAside[w]))
    }

    method FrameFor(walkId: string) returns (a: Anchor)
      requires Valid()
      modifies this`frameCache
      ensures Valid() && a == FrameOf(store, walkId)
      ensures frameCache == old(frameCache)[walkId := a]
    {
      if walkId in frameCache {
        a := frameCache[walkId];
        assert frameCache[walkId := a] == frameCache;
        return;
      }
      a := Anchor(walkId, None);
      if walkId in store.walks {
        a := Anchor(walkId, Some(store.walks[walkId].target));
      }
      frameCache := frameCache[walkId := a];
    }

    method GraphFor(walkId: string) returns (g: Option<Graph>)
      requires Valid()
      modifies this`graphCache
      ensures Valid() && g == GraphOf(store, walkId)
      ensures graphCache == old(graphCache)[walkId := g]
    {
      if walkId in graphCache {
        g := graphCache[walkId];
        assert graphCache[walkId := g] == graphCache;
        return;
      }
      g := if walkId in store.walks then Some(store.walks[walkId].graph) else None;
      graphCache := graphCache[walkId := g];
    }

    /** The loop of AffectedFor, module by module in whatever order the run's map
        yields them. */
    method WalkPeers(modules: set<Coord>, at: Anchor) returns (r: Affected)
      ensures r == AffectedAmong(store, modules, at)
    {
      var todo := modules;
      var coords, aside := {}, {};
      while todo != {}
        invariant todo <= modules
        invariant forall c :: c in modules - todo ==> !ReadingOf(store, c, at).fault
        invariant coords == set c | c in modules - todo && CountsAsAffected(store, c, at)
        invariant aside == AsideOf(store, modules - todo, at)
      {
        var c :| c in todo;
        var reading := ReadingOf(store, c, at);
        if reading.fault {
          return Fault;
        }
        AsideOfOneMore(store, modules - todo, c, at);
        assert modules - (todo - {c}) == (modules - todo) + {c};
        todo := todo - {c};
        aside := aside + reading.aside;
        if reading.found && reading.affected {
          coords := coords + {c};
        }
      }
      assert modules - todo == modules;
      r := Modules(coords, aside);
    }

    /** A failed read is not cached: a later one may still succeed. */
    method AffectedFor(walkId: string) returns (r: Affected)
      requires Valid()
      modifies this`affectedCache, this`affectedAside, this`frameCache
      ensures Valid() && r == AffectedOf(store, RunsOf(walkId))
      ensures affectedCache == if r.Fault? then old(affectedCache) else old(affectedCache)[walkId := r.coords]
      ensures r.Fault? ==> affectedAside == old(affectedAside)
    {
      if walkId in affectedCache {
        r := Modules(affectedCache[walkId], affectedAside[walkId]);
        assert affectedCache[walkId := r.coords] == affectedCache;
        return;
      }
      var coords, aside := {}, {};
      if RunsOf(walkId) != [] {
        var run := RunsOf(walkId)[0];
        var at := FrameFor(run.walkId);
        r := WalkPeers(run.modules, at);
        if r.Fault? {
          return;
        }
        coords, aside := r.coords, r.aside;
      }
      affectedCache := affectedCache[walkId := coords];
      affectedAside := affectedAside[walkId := aside];
      r := Modules(coords, aside);
    }

    /** The walk's affected set as the node filter reads it, without the cache:
        for a walk whose runs the batch holds, the very set the cache serves. */
    method BuildAffectedSetForWalk(walkId: string, listed: seq<ScanRun>) returns (r: Affected)
      requires Valid()
      modifies this`frameCache
      ensures Valid()
      ensures RunsOf(walkId) != [] ==> r == AffectedAmong(store, RunsOf(walkId)[0].modules, FrameOf(store, walkId))
      ensures RunsOf(walkId) != [] && RunsOf(walkId)[0].walkId == walkId ==> r == AffectedOf(store, RunsOf(walkId))
      ensures RunsOf(walkId) == [] && listed != [] ==> r == AffectedAmong(store, listed[0].modules, FrameOf(store, walkId))
      ensures RunsOf(walkId) == [] && listed == [] ==> r == Modules({}, {})
    {
      var scans := RunsOf(walkId);
      if scans == [] {
        scans := listed;
      }
      if scans == [] {
        return Modules({}, {});
      }
      var at := FrameFor(walkId);
      r := AffectedSetForRun(store, scans[0], at);
    }

    /** Names the affected peers in self's own closure. */
    method FilterWalkAnnotation(self: Coord, run: ScanRun) returns (a: Annotation)
      requires Valid()
      modifies this
      ensures Valid()
      ensures Annotates(store, RunsOf(run.walkId), run, self, a)
    {
      if !run.affected {
        return Unannotated;
      }
      var graph := GraphFor(run.walkId);
      if graph.None? {
        return Unannotated;
      }
      var reachable := ReachableFrom(graph.value, self);
      var affected := AffectedFor(run.walkId);
      if affected.Fault? {
        return Uncertain;
      }
      var labels := PeerLabels(self, affected.coords, reachable);
      a := Peers(labels);
    }
  }

  /** The labels of the affected modules in reach, self apart, however the set is
      walked. */
  method PeerLabels(self: Coord, affected: set<Coord>, reachable: set<Coord>) returns (labels: seq<string>)
    ensures LabelsOf(labels, PeersOf(self, affected, reachable))
  {
    var todo := affected;
    var peers: seq<string> := [];
    while todo != {}
      invariant todo <= affected
      invariant Bear(peers, PeersOf(self, affected - todo, reachable))
    {
      var c :| c in todo;
      ghost var done := affected - todo;
      todo := todo - {c};
      assert affected - todo == done + {c};
      PeersStep(self, done, c, reachable);
      if c == self {
        continue;
      }
      if c in reachable {
        BearStep(peers, PeersOf(self, done, reachable), c);
        peers := peers + [Label(c)];
      }
    }
    assert affected - todo == affected;
    labels := Sort(peers, StrLess);
    StrLessIsStrict();
    StrictIsWeak(StrLess);
    SortInOrder(peers, StrLess);
  }

  lemma PeersStep(self: Coord, done: set<Coord>, c: Coord, reachable: set<Coord>)
    ensures c != self && c in reachable ==> PeersOf(self, done + {c}, reachable) == PeersOf(self, done, reachable) + {c}
    ensures c == self || c !in reachable ==> PeersOf(self, done + {c}, reachable) == PeersOf(self, done, reachable)
  {
  }

  lemma BearStep(labels: seq<string>, peers: set<Coord>, c: Coord)
    requires Bear(labels, peers) && c !in peers
    ensures Bear(labels + [Label(c)], peers + {c})
  {
    forall l
      ensures multiset(labels + [Label(c)])[l] == Named(peers + {c}, l)
    {
      NamedStep(peers, c, l);
      assert multiset(labels)[l] == Named(peers, l);
    }
  }

  lemma NamedStep(peers: set<Coord>, c: Coord, l: string)
    requires c !in peers
    ensures Named(peers + {c}, l) == Named(peers, l) + if Label(c) == l then 1 else 0
  {
    var before := set d | d in peers && Label(d) == l;
    var after := set d | d in peers + {c} && Label(d) == l;
    assert after == before + if Label(c) == l then {c} else {};
  }

  /** One module's annotation is one value, whatever order the maps iterate in. */
  lemma AnnotationIsUnique(st: Store, runs: seq<ScanRun>, run: ScanRun, self: Coord, a: Annotation, b: Annotation)
    requires Annotates(st, runs, run, self, a) && Annotates(st, runs, run, self, b)
    ensures a == b
  {
    if a.Peers? {
      StrLessIsStrict();
      var peers := PeersOf(self, AffectedOf(st, runs).coords, ReachableFrom(GraphOf(st, run.walkId).value, self));
      assert Bear(a.labels, peers) && Bear(b.labels, peers);
      assert multiset(a.labels) == multiset(b.labels);
      InOrderIsUnique(a.labels, b.labels, StrLess);
    }
  }

  // ---- what an annotation says ----

  /** The frame of a walk: its id, and what it was rooted at where its record reads. */
  function Rooted(st: Store, walkId: string): Anchor {
    if walkId in st.walks then Anchor(walkId, Some(st.walks[walkId].target)) else Anchor(walkId, None)
  }

  /** A module of the newest run was read and found affected, in the frame of that run's
      walk. */
  predicate FoundAffected(st: Store, runs: seq<ScanRun>, peer: Coord) {
    runs != [] && peer in runs[0].modules &&
    var key := (peer, Rooted(st, runs[0].walkId));
    key in st.readings && st.readings[key].found && st.readings[key].affected
  }

  predicate FoundFaulty(st: Store, runs: seq<ScanRun>, peer: Coord) {
    runs != [] && peer in runs[0].modules &&
    var key := (peer, Rooted(st, runs[0].walkId));
    key in st.readings && st.readings[key].fault
  }

  /** Reading a module of the newest run set a generation aside. */
  predicate SetsAside(st: Store, runs: seq<ScanRun>, peer: Coord, row: string) {
    runs != [] && peer in runs[0].modules &&
    var key := (peer, Rooted(st, runs[0].walkId));
    key in st.readings && row in st.readings[key].aside
  }

  /** The walk's graph reaches the peer from the module. */
  predicate Reaches(st: Store, walkId: string, self: Coord, peer: Coord) {
    walkId in st.walks && self in st.walks[walkId].graph.closure && peer in st.walks[walkId].graph.closure[self]
  }

  ghost predicate IsNamedPeer(st: Store, runs: seq<ScanRun>, run: ScanRun, self: Coord, peer: Coord, label_: string) {
    peer != self && FoundAffected(st, runs, peer) && Reaches(st, run.walkId, self, peer) && label_ == peer.path + "@" + peer.version
  }

  /** Beside a module stand, in order, the labels of the other modules found affected
      that its walk's graph reaches from it; or that this is uncertain, where one of them
      could not be read; or nothing, for a run not affected or without a graph. */
  lemma AnnotationSays(st: Store, runs: seq<ScanRun>, run: ScanRun, self: Coord, a: Annotation)
    requires Annotates(st, runs, run, self, a)
    ensures a.Unannotated? <==> !run.affected || run.walkId !in st.walks
    ensures a.Uncertain? <==> run.affected && run.walkId in st.walks && exists peer :: FoundFaulty(st, runs, peer)
    ensures a.Peers? ==> forall l :: l in a.labels <==> exists peer :: IsNamedPeer(st, runs, run, self, peer, l)
    ensures a.Peers? ==> forall i, j :: 0 <= i < j < |a.labels| ==> !StrLess(a.labels[j], a.labels[i])
  {
    AffectedSays(st, runs);
    if a.Peers? {
      var reachable := ReachableFrom(GraphOf(st, run.walkId).value, self);
      var peers := PeersOf(self, AffectedOf(st, runs).coords, reachable);
      forall l
        ensures l in a.labels <==> exists peer :: IsNamedPeer(st, runs, run, self, peer, l)
      {
        BearsIff(a.labels, peers, l);
        forall peer
          ensures peer in peers && Label(peer) == l <==> IsNamedPeer(st, runs, run, self, peer, l)
        {
        }
      }
    }
  }

  lemma AffectedSays(st: Store, runs: seq<ScanRun>)
    ensures var r := AffectedOf(st, runs);
            && (r.Fault? <==> exists peer :: FoundFaulty(st, runs, peer))
            && (r.Modules? ==> forall peer :: peer in r.coords <==> FoundAffected(st, runs, peer))
            && (r.Modules? ==> forall row :: row in r.aside <==> exists peer :: SetsAside(st, runs, peer, row))
  {
    if runs != [] {
      assert FrameOf(st, runs[0].walkId) == Rooted(st, runs[0].walkId);
      forall peer
        ensures FoundFaulty(st, runs, peer) <==> peer in runs[0].modules && ReadingOf(st, peer, FrameOf(st, runs[0].walkId)).fault
        ensures forall row :: SetsAside(st, runs, peer, row) <==>
                  peer in runs[0].modules && row in ReadingOf(st, peer, FrameOf(st, runs[0].walkId)).aside
      {
      }
    }
  }

  lemma BearsIff(labels: seq<string>, peers: set<Coord>, l: string)
    requires Bear(labels, peers)
    ensures l in labels <==> exists peer :: peer in peers && Label(peer) == l
  {
    assert l in labels <==> multiset(labels)[l] > 0;
    var bearing := set c | c in peers && Label(c) == l;
    assert multiset(labels)[l] == |bearing|;
    if peer :| peer in peers && Label(peer) == l {
      assert peer in bearing;
    }
    if |bearing| > 0 {
      var peer :| peer in bearing;
    }
  }

  // ---- any sequence of calls ----

  datatype Call = Frame(walkId: string) | Dependencies(walkId: string) | AffectedModules(walkId: string)

  datatype Served = FrameServed(a: Anchor) | GraphServed(g: Option<Graph>) | AffectedServed(r: Affected)

  /** What a call is answered with when nothing is cached. */
  function Uncached(st: Store, runs: map<string, seq<ScanRun>>, call: Call): Served {
    match call
    case Frame(w) => FrameServed(FrameOf(st, w))
    case Dependencies(w) => GraphServed(GraphOf(st, w))
    case AffectedModules(w) => AffectedServed(AffectedOf(st, if w in runs then runs[w] else []))
  }

  /** Every answer of every sequence of calls on one batch is the uncached one. */
  method Serve(batch: VulnBatch, calls: seq<Call>) returns (served: seq<Served>)
    requires batch.Valid()
    modifies batch
    ensures batch.Valid() && |served| == |calls|
    ensures forall i :: 0 <= i < |calls| ==> served[i] == Uncached(batch.store, batch.runs, calls[i])
  {
    served := [];
    for i := 0 to |calls|
      invariant batch.Valid() && |served| == i
      invariant forall j :: 0 <= j < i ==> served[j] == Uncached(batch.store, batch.runs, calls[j])
    {
      match calls[i] {
        case Frame(w) =>
          var a := batch.FrameFor(w);
          served := served + [FrameServed(a)];
        case Dependencies(w) =>
          var g := batch.GraphFor(w);
          served := served + [GraphServed(g)];
        case AffectedModules(w) =>
          var r := batch.AffectedFor(w);
          served := served + [AffectedServed(r)];
      }
    }
  }
}
