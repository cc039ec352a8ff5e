/** Narrowing a call graph to the nodes a pattern selects and what touches them. */
module NodeFilter {
  import opened Seqs

  datatype CallNode = CallNode(id: string, detail: string)

  datatype CallEdge = CallEdge(src: string, dst: string, kind: string)

  datatype Record = Record(nodes: seq<CallNode>, edges: seq<CallEdge>, nodeCount: nat, edgeCount: nat, contentHash: string)

  /** What the pattern was compared against, and how many ids it selected. */
  datatype Outcome = Outcome(pattern: string, candidates: nat, matched: nat)

  // ---- the pattern ----

  /** Lower-casing, one character at a time. */
  function Lower(s: string, fold: char -> char): string {
    Map(s, fold)
  }

  predicate Contains(s: string, part: string) {
    exists i :: 0 <= i <= |s| && At(s, part, i)
  }

  predicate At(s: string, part: string, i: nat)
    requires i <= |s|
  {
    part <= s[i..]
  }

  /** The pattern is compared with the whole node id, in lower case. */
  predicate Selects(sym: string, n: CallNode, fold: char -> char) {
    Contains(Lower(n.id, fold), Lower(sym, fold))
  }

  lemma ContainsTransitive(s: string, middle: string, part: string)
    requires Contains(s, middle) && Contains(middle, part)
    ensures Contains(s, part)
  {
    var i :| 0 <= i <= |s| && At(s, middle, i);
    var j :| 0 <= j <= |middle| && At(middle, part, j);
    assert s[i..][j..] == s[i + j..];
    assert At(s, part, i + j);
  }

  lemma LowerContains(s: string, part: string, fold: char -> char)
    requires Contains(s, part)
    ensures Contains(Lower(s, fold), Lower(part, fold))
  {
    var i :| 0 <= i <= |s| && At(s, part, i);
    forall k | 0 <= k < |part|
      ensures Lower(s, fold)[i..][k] == Lower(part, fold)[k]
    {
      assert part[k] == s[i..][k];
    }
    assert At(Lower(s, fold), Lower(part, fold), i);
  }

  // ---- the filter ----

  function Wanted(nodes: seq<CallNode>, sym: string, fold: char -> char): set<string> {
    set n | n in nodes && Selects(sym, n, fold) :: n.id
  }

  predicate Touches(e: CallEdge, want: set<string>) {
    e.src in want || e.dst in want
  }

  function EdgesTouching(edges: seq<CallEdge>, want: set<string>): seq<CallEdge> {
    Filter(edges, e => Touches(e, want))
  }

  function Ends(edges: seq<CallEdge>): set<string> {
    (set e | e in edges :: e.src) + (set e | e in edges :: e.dst)
  }

  function NodesIn(nodes: seq<CallNode>, ids: set<string>): seq<CallNode> {
    Filter(nodes, (n: CallNode) => n.id in ids)
  }

  function Narrowed(r: Record, sym: string, fold: char -> char): Record {
    var want := Wanted(r.nodes, sym, fold);
    var edges := EdgesTouching(r.edges, want);
    var nodes := NodesIn(r.nodes, want + Ends(edges));
    r.(nodes := nodes, edges := edges, nodeCount := |nodes|, edgeCount := |edges|, contentHash := "")
  }

  method FilterCallGraphRecord(r: Record, sym: string, fold: char -> char) returns (out: Record, outcome: Outcome)
    ensures out == Narrowed(r, sym, fold)
    ensures outcome == Outcome(sym, |r.nodes|, |Wanted(r.nodes, sym, fold)|)
  {
    var symLower := Lower(sym, fold);
    var want: set<string> := {};
    for i := 0 to |r.nodes|
      invariant want == Wanted(r.nodes[..i], sym, fold)
    {
      assert r.nodes[..i + 1] == r.nodes[..i] + [r.nodes[i]];
      if Contains(Lower(r.nodes[i].id, fold), symLower) {
        want := want + {r.nodes[i].id};
      }
    }
    assert r.nodes[..|r.nodes|] == r.nodes;
    var edges, ends := TouchingEdges(r.edges, want);
    var nodes: seq<CallNode> := [];
    for i := 0 to |r.nodes|
      invariant nodes == NodesIn(r.nodes[..i], want + ends)
    {
      FilterStep(r.nodes, i, (n: CallNode) => n.id in want + ends);
      if r.nodes[i].id in want || r.nodes[i].id in ends {
        nodes := nodes + [r.nodes[i]];
      }
    }
    FilterAll(r.nodes, (n: CallNode) => n.id in want + ends);
    out := r.(nodes := nodes, edges := edges, nodeCount := |nodes|, edgeCount := |edges|, contentHash := "");
    outcome := Outcome(sym, |r.nodes|, |want|);
  }

  /** The edge loop of FilterCallGraphRecord. */
  method TouchingEdges(all: seq<CallEdge>, want: set<string>) returns (edges: seq<CallEdge>, ends: set<string>)
    ensures edges == EdgesTouching(all, want) && ends == Ends(edges)
  {
    edges, ends := [], {};
    for i := 0 to |all|
      invariant edges == EdgesTouching(all[..i], want)
      invariant ends == Ends(edges)
    {
      FilterStep(all, i, e => Touches(e, want));
      if all[i].src in want || all[i].dst in want {
        EndsStep(edges, all[i]);
        edges := edges + [all[i]];
        ends := ends + {all[i].src, all[i].dst};
      }
    }
    FilterAll(all, e => Touches(e, want));
  }

  lemma EndsStep(edges: seq<CallEdge>, e: CallEdge)
    ensures Ends(edges + [e]) == Ends(edges) + {e.src, e.dst}
  {
    assert forall x :: x in edges + [e] <==> x in edges || x == e;
    assert e in edges + [e];
  }

  // ---- what the narrowed graph is ----

  ghost predicate Selected(r: Record, sym: string, fold: char -> char, id: string) {
    exists n :: n in r.nodes && n.id == id && Selects(sym, n, fold)
  }

  ghost predicate IsEnd(edges: seq<CallEdge>, id: string) {
    exists e :: e in edges && (e.src == id || e.dst == id)
  }

  /** An edge is kept when it touches a selected node; a node, when its id is
      selected or ends a kept edge. */
  lemma NarrowedHolds(r: Record, sym: string, fold: char -> char)
    ensures var out := Narrowed(r, sym, fold);
            && (forall e :: e in out.edges <==>
                 e in r.edges && (Selected(r, sym, fold, e.src) || Selected(r, sym, fold, e.dst)))
            && (forall n :: n in out.nodes <==>
                 n in r.nodes && (Selected(r, sym, fold, n.id) || IsEnd(out.edges, n.id)))
  {
    var out := Narrowed(r, sym, fold);
    var want := Wanted(r.nodes, sym, fold);
    forall e
      ensures e in out.edges <==> e in r.edges && (Selected(r, sym, fold, e.src) || Selected(r, sym, fold, e.dst))
    {
      InFilter(r.edges, e => Touches(e, want), e);
    }
    forall n
      ensures n in out.nodes <==> n in r.nodes && (Selected(r, sym, fold, n.id) || IsEnd(out.edges, n.id))
    {
      InFilter(r.nodes, (n: CallNode) => n.id in want + Ends(out.edges), n);
    }
  }

  /** What was kept stands in its order, as often as it stood; the counts are of what
      was kept, and the narrowed record no longer carries the hash of the whole. */
  lemma NarrowedStands(r: Record, sym: string, fold: char -> char)
    ensures var out := Narrowed(r, sym, fold);
            && out.nodeCount == |out.nodes| && out.edgeCount == |out.edges| && out.contentHash == ""
            && out.edges == Filter(r.edges, (e: CallEdge) => Selected(r, sym, fold, e.src) || Selected(r, sym, fold, e.dst))
            && out.nodes == Filter(r.nodes, (n: CallNode) => Selected(r, sym, fold, n.id) || IsEnd(out.edges, n.id))
    ensures forall id :: id in Wanted(r.nodes, sym, fold) <==> Selected(r, sym, fold, id)
  {
    var out, want := Narrowed(r, sym, fold), Wanted(r.nodes, sym, fold);
    FilterCongruent(r.edges, e => Touches(e, want), (e: CallEdge) => Selected(r, sym, fold, e.src) || Selected(r, sym, fold, e.dst));
    FilterCongruent(r.nodes, (n: CallNode) => n.id in want + Ends(out.edges),
                    (n: CallNode) => Selected(r, sym, fold, n.id) || IsEnd(out.edges, n.id));
  }

  /** The pattern stands in the id at i, character by character, whatever the case of
      either. */
  predicate StandsAt(id: string, sym: string, fold: char -> char, i: int) {
    0 <= i && i + |sym| <= |id| && forall k :: 0 <= k < |sym| ==> fold(id[i + k]) == fold(sym[k])
  }

  lemma AtIff(id: string, sym: string, fold: char -> char, i: nat)
    requires i <= |id|
    ensures At(Lower(id, fold), Lower(sym, fold), i) <==> StandsAt(id, sym, fold, i)
  {
    var s, part := Lower(id, fold)[i..], Lower(sym, fold);
    assert forall k :: 0 <= k < |s| ==> s[k] == fold(id[i + k]);
    if StandsAt(id, sym, fold, i) {
      assert s[..|part|] == part;
    }
    if part <= s {
      assert forall k :: 0 <= k < |part| ==> part[k] == s[k];
    }
  }

  /** A node is selected when the pattern stands somewhere in its id. */
  lemma SelectsIff(sym: string, n: CallNode, fold: char -> char)
    ensures Selects(sym, n, fold) <==> exists i :: StandsAt(n.id, sym, fold, i)
  {
    forall i | 0 <= i <= |n.id|
      ensures At(Lower(n.id, fold), Lower(sym, fold), i) <==> StandsAt(n.id, sym, fold, i)
    {
      AtIff(n.id, sym, fold, i);
    }
  }

  /** A graph whose edges all end at nodes. */
  ghost predicate Closed(r: Record) {
    forall id :: IsEnd(r.edges, id) ==> exists n :: n in r.nodes && n.id == id
  }

  lemma NarrowedIsClosed(r: Record, sym: string, fold: char -> char)
    requires Closed(r)
    ensures Closed(Narrowed(r, sym, fold))
  {
    NarrowedHolds(r, sym, fold);
    var out := Narrowed(r, sym, fold);
    forall id | IsEnd(out.edges, id)
      ensures exists n :: n in out.nodes && n.id == id
    {
      var e :| e in out.edges && (e.src == id || e.dst == id);
      assert IsEnd(r.edges, id);
      var n :| n in r.nodes && n.id == id;
      assert n in out.nodes;
    }
  }

  /** The pattern matched nothing exactly when nothing is left. */
  lemma NothingMatchedIff(r: Record, sym: string, fold: char -> char)
    ensures Wanted(r.nodes, sym, fold) == {} <==> Narrowed(r, sym, fold).nodes == []
    ensures Wanted(r.nodes, sym, fold) == {} ==> Narrowed(r, sym, fold).edges == []
  {
    var want := Wanted(r.nodes, sym, fold);
    NarrowedHolds(r, sym, fold);
    var out := Narrowed(r, sym, fold);
    if want == {} {
      FilterKeepsNone(r.edges, e => Touches(e, want));
      FilterKeepsNone(r.nodes, (n: CallNode) => n.id in want + Ends(out.edges));
    } else {
      var n :| n in r.nodes && Selects(sym, n, fold);
      assert n in out.nodes;
    }
  }

  /** The empty pattern keeps a closed graph whole. */
  lemma EmptyPatternKeepsAll(r: Record, fold: char -> char)
    requires Closed(r)
    ensures Narrowed(r, "", fold).nodes == r.nodes && Narrowed(r, "", fold).edges == r.edges
  {
    var want := Wanted(r.nodes, "", fold);
    forall n | n in r.nodes
      ensures n.id in want
    {
      assert At(Lower(n.id, fold), Lower("", fold), 0);
      assert Selects("", n, fold);
    }
    forall e | e in r.edges
      ensures Touches(e, want)
    {
      assert IsEnd(r.edges, e.src);
    }
    FilterKeepsAll(r.edges, e => Touches(e, want));
    FilterKeepsAll(r.nodes, (n: CallNode) => n.id in want + Ends(Narrowed(r, "", fold).edges));
  }

  lemma {:induction false} FilterKeepsAll<T>(s: seq<T>, p: T -> bool)
    requires forall x :: x in s ==> p(x)
    ensures Filter(s, p) == s
  {
    if s != [] {
      FilterKeepsAll(s[..|s| - 1], p);
      assert s == s[..|s| - 1] + [s[|s| - 1]];
    }
  }

  lemma {:induction false} FilterKeepsNone<T>(s: seq<T>, p: T -> bool)
    requires forall x :: x in s ==> !p(x)
    ensures Filter(s, p) == []
  {
    if s != [] {
      FilterKeepsNone(s[..|s| - 1], p);
    }
  }

  /** Narrowing by a pattern and then by one that contains it is narrowing by the
      second alone. */
  lemma Absorption(r: Record, p: string, q: string, fold: char -> char)
    requires Contains(Lower(q, fold), Lower(p, fold))
    ensures Narrowed(Narrowed(r, p, fold), q, fold) == Narrowed(r, q, fold)
  {
    var once := Narrowed(r, p, fold);
    var first, want := Wanted(r.nodes, p, fold), Wanted(r.nodes, q, fold);
    SameWanted(r, p, q, fold);
    FilterAbsorbs(r.edges, e => Touches(e, first), e => Touches(e, want));
    var edges := EdgesTouching(r.edges, want);
    forall e | e in edges
      ensures e in once.edges
    {
      InFilter(r.edges, e => Touches(e, want), e);
      InFilter(r.edges, e => Touches(e, first), e);
    }
    FilterAbsorbs(r.nodes, (n: CallNode) => n.id in first + Ends(once.edges), (n: CallNode) => n.id in want + Ends(edges));
  }

  lemma SameWanted(r: Record, p: string, q: string, fold: char -> char)
    requires Contains(Lower(q, fold), Lower(p, fold))
    ensures Wanted(r.nodes, q, fold) <= Wanted(r.nodes, p, fold)
    ensures Wanted(Narrowed(r, p, fold).nodes, q, fold) == Wanted(r.nodes, q, fold)
  {
    forall n | n in r.nodes && Selects(q, n, fold)
      ensures Selects(p, n, fold)
    {
      ContainsTransitive(Lower(n.id, fold), Lower(q, fold), Lower(p, fold));
    }
    NarrowedHolds(r, p, fold);
  }

  /** One node, named as the pattern is spelt. */
  function Lone(q: string): Record {
    Record([CallNode(q, "")], [], 1, 0, "")
  }

  /** Absorption holds of every graph exactly when the second pattern contains the
      first; a single node named q tells the two apart otherwise. */
  lemma AbsorptionIff(p: string, q: string, fold: char -> char)
    ensures Contains(Lower(q, fold), Lower(p, fold)) <==>
              forall r :: Narrowed(Narrowed(r, p, fold), q, fold) == Narrowed(r, q, fold)
  {
    if Contains(Lower(q, fold), Lower(p, fold)) {
      forall r
        ensures Narrowed(Narrowed(r, p, fold), q, fold) == Narrowed(r, q, fold)
      {
        Absorption(r, p, q, fold);
      }
    } else {
      var r := Lone(q);
      var once := Narrowed(r, p, fold);
      NothingMatchedIff(r, p, fold);
      assert Wanted(r.nodes, p, fold) == {};
      NothingMatchedIff(once, q, fold);
      assert Narrowed(once, q, fold).nodes == [];
      assert At(Lower(q, fold), Lower(q, fold), 0);
      assert CallNode(q, "") in r.nodes;
      NothingMatchedIff(r, q, fold);
      assert q in Wanted(r.nodes, q, fold);
    }
  }

  /** Absorption as a reader types it: the second pattern spells the first out
      further. The same pattern twice is the pattern once. */
  lemma LongerPatternAbsorbs(r: Record, before: string, p: string, after: string, fold: char -> char)
    ensures Narrowed(Narrowed(r, p, fold), before + p + after, fold) == Narrowed(r, before + p + after, fold)
  {
    var q := before + p + after;
    assert q[|before|..] == p + after;
    assert At(q, p, |before|);
    LowerContains(q, p, fold);
    Absorption(r, p, q, fold);
  }
}
