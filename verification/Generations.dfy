/** Which two generations of one module's call graph are compared: grouping by
    what they state, naming one by a prefix of its hash, and pairing. */
module Generations {
  import opened Wrappers
  import opened Seqs
  import opened Order

  /** A recorded generation; the ledger may hold one measurement many times. */
  datatype Generation = Generation(hash: string, measurement: string, graph: string)

  type Digest = Generation -> string

  // ---- grouping ----

  /** The digests of recs, each where it first appears. */
  function Keys(recs: seq<Generation>, digest: Digest): seq<string> {
    if recs == [] then []
    else
      var n := |recs| - 1;
      var keys := Keys(recs[..n], digest);
      if digest(recs[n]) in keys then keys else keys + [digest(recs[n])]
  }

  /** The generations of one digest, in append order. */
  function Of(recs: seq<Generation>, digest: Digest, d: string): seq<Generation> {
    Filter(recs, r => digest(r) == d)
  }

  /** The generations of each of these digests. */
  function GroupsOf(keys: seq<string>, recs: seq<Generation>, digest: Digest): (groups: seq<seq<Generation>>)
    ensures |groups| == |keys| && forall i :: 0 <= i < |keys| ==> groups[i] == Of(recs, digest, keys[i])
  {
    if keys == [] then []
    else
      var n := |keys| - 1;
      GroupsOf(keys[..n], recs, digest) + [Of(recs, digest, keys[n])]
  }

  function Groups(recs: seq<Generation>, digest: Digest): seq<seq<Generation>> {
    GroupsOf(Keys(recs, digest), recs, digest)
  }

  method GroupBy(recs: seq<Generation>, digest: Digest) returns (out: seq<seq<Generation>>)
    ensures out == Groups(recs, digest)
  {
    var order: seq<string> := [];
    var byDigest: map<string, seq<Generation>> := map[];
    for i := 0 to |recs|
      invariant order == Keys(recs[..i], digest)
      invariant Indexed(byDigest, recs[..i], digest)
    {
      var r := recs[i];
      var d := digest(r);
      KeysStep(recs, i, digest);
      IndexedStep(byDigest, recs, i, digest);
      if d !in byDigest {
        order := order + [d];
      }
      byDigest := byDigest[d := (if d in byDigest then byDigest[d] else []) + [r]];
    }
    assert recs[..|recs|] == recs;
    out := GroupsInOrder(order, byDigest);
  }

  /** The second loop of GroupBy. */
  method GroupsInOrder(order: seq<string>, byDigest: map<string, seq<Generation>>) returns (out: seq<seq<Generation>>)
    requires forall i :: 0 <= i < |order| ==> order[i] in byDigest
    ensures |out| == |order| && forall i :: 0 <= i < |order| ==> out[i] == byDigest[order[i]]
  {
    out := [];
    for i := 0 to |order|
      invariant |out| == i && forall j :: 0 <= j < i ==> out[j] == byDigest[order[j]]
    {
      out := out + [byDigest[order[i]]];
    }
  }

  ghost predicate Indexed(byDigest: map<string, seq<Generation>>, recs: seq<Generation>, digest: Digest) {
    && (forall d :: d in byDigest <==> d in Keys(recs, digest))
    && (forall d :: d in byDigest ==> byDigest[d] == Of(recs, digest, d))
  }

  lemma IndexedStep(byDigest: map<string, seq<Generation>>, recs: seq<Generation>, i: nat, digest: Digest)
    requires i < |recs| && Indexed(byDigest, recs[..i], digest)
    ensures var d := digest(recs[i]);
            Indexed(byDigest[d := (if d in byDigest then byDigest[d] else []) + [recs[i]]], recs[..i + 1], digest)
  {
    var before, after, x := recs[..i], recs[..i + 1], digest(recs[i]);
    var more := byDigest[x := (if x in byDigest then byDigest[x] else []) + [recs[i]]];
    KeysStep(recs, i, digest);
    forall d
      ensures d in more <==> d in Keys(after, digest)
    {
    }
    OfStep(recs, i, digest);
    if x !in byDigest {
      OfAbsent(before, digest, x);
    }
    forall d | d in more
      ensures more[d] == Of(after, digest, d)
    {
      assert d != x ==> Of(before, digest, d) + [] == Of(before, digest, d);
    }
  }

  lemma KeysStep(recs: seq<Generation>, i: nat, digest: Digest)
    requires i < |recs|
    ensures var keys := Keys(recs[..i], digest);
            Keys(recs[..i + 1], digest) == if digest(recs[i]) in keys then keys else keys + [digest(recs[i])]
  {
    assert recs[..i + 1][..i] == recs[..i];
  }

  lemma OfStep(recs: seq<Generation>, i: nat, digest: Digest)
    requires i < |recs|
    ensures forall d :: Of(recs[..i + 1], digest, d)
                     == Of(recs[..i], digest, d) + if digest(recs[i]) == d then [recs[i]] else []
  {
    forall d
      ensures Of(recs[..i + 1], digest, d) == Of(recs[..i], digest, d) + if digest(recs[i]) == d then [recs[i]] else []
    {
      FilterStep(recs, i, r => digest(r) == d);
    }
  }

  lemma InOf(recs: seq<Generation>, digest: Digest, d: string, r: Generation)
    ensures r in Of(recs, digest, d) <==> r in recs && digest(r) == d
  {
    InFilter(recs, r => digest(r) == d, r);
  }

  lemma {:induction false} InKeys(recs: seq<Generation>, digest: Digest, d: string)
    ensures d in Keys(recs, digest) <==> exists r :: r in recs && digest(r) == d
  {
    if recs != [] {
      var n := |recs| - 1;
      InKeys(recs[..n], digest, d);
      assert recs == recs[..n] + [recs[n]];
    }
  }

  lemma OfAbsent(recs: seq<Generation>, digest: Digest, d: string)
    requires d !in Keys(recs, digest)
    ensures Of(recs, digest, d) == []
  {
    InKeys(recs, digest, d);
    var of := Of(recs, digest, d);
    if of != [] {
      InOf(recs, digest, d, of[0]);
    }
  }

  lemma {:induction false} KeysAreDistinct(recs: seq<Generation>, digest: Digest)
    ensures Distinct(Keys(recs, digest))
  {
    if recs != [] {
      KeysAreDistinct(recs[..|recs| - 1], digest);
    }
  }

  function Flatten(groups: seq<seq<Generation>>): seq<Generation> {
    if groups == [] then [] else Flatten(groups[..|groups| - 1]) + groups[|groups| - 1]
  }

  /** Where a digest first appears; the length when it does not. */
  function FirstAt(recs: seq<Generation>, digest: Digest, d: string): (i: nat)
    ensures i <= |recs|
    ensures i < |recs| ==> digest(recs[i]) == d
    ensures forall j :: 0 <= j < i ==> digest(recs[j]) != d
  {
    if recs == [] || digest(recs[0]) == d then 0 else 1 + FirstAt(recs[1..], digest, d)
  }

  /** Grouping is a stable partition: every group is all the generations of one
      digest, none is empty, no digest has two, the groups stand where their
      digests first appear, and together they hold what was given. */
  ghost predicate StablePartition(groups: seq<seq<Generation>>, recs: seq<Generation>, digest: Digest) {
    && (forall i :: 0 <= i < |groups| ==> groups[i] != [] && groups[i] == Of(recs, digest, digest(groups[i][0])))
    && (forall i, j :: 0 <= i < j < |groups| ==>
          FirstAt(recs, digest, digest(groups[i][0])) < FirstAt(recs, digest, digest(groups[j][0])) < |recs|)
    && multiset(Flatten(groups)) == multiset(recs)
  }

  lemma GroupsPartition(recs: seq<Generation>, digest: Digest)
    ensures StablePartition(Groups(recs, digest), recs, digest)
  {
    var keys, groups := Keys(recs, digest), Groups(recs, digest);
    forall i | 0 <= i < |groups|
      ensures groups[i] == Of(recs, digest, keys[i]) && groups[i] != [] && digest(groups[i][0]) == keys[i]
    {
      GroupHeadedBy(recs, digest, keys[i]);
    }
    KeysAppearInOrder(recs, digest);
    FlattenHolds(recs, digest);
  }

  lemma GroupsAreHeaded(recs: seq<Generation>, digest: Digest)
    ensures forall i :: 0 <= i < |Groups(recs, digest)| ==> Groups(recs, digest)[i] != []
  {
    forall i | 0 <= i < |Groups(recs, digest)|
      ensures Groups(recs, digest)[i] != []
    {
      GroupHeadedBy(recs, digest, Keys(recs, digest)[i]);
    }
  }

  lemma GroupHeadedBy(recs: seq<Generation>, digest: Digest, d: string)
    requires d in Keys(recs, digest)
    ensures Of(recs, digest, d) != [] && digest(Of(recs, digest, d)[0]) == d
  {
    InKeys(recs, digest, d);
    var r :| r in recs && digest(r) == d;
    InOf(recs, digest, d, r);
    InOf(recs, digest, d, Of(recs, digest, d)[0]);
  }

  ghost predicate AppearInOrder(keys: seq<string>, recs: seq<Generation>, digest: Digest) {
    && (forall i :: 0 <= i < |keys| ==> FirstAt(recs, digest, keys[i]) < |recs|)
    && (forall i, j :: 0 <= i < j < |keys| ==> FirstAt(recs, digest, keys[i]) < FirstAt(recs, digest, keys[j]))
  }

  lemma {:induction false} KeysAppearInOrder(recs: seq<Generation>, digest: Digest)
    ensures AppearInOrder(Keys(recs, digest), recs, digest)
  {
    if recs != [] {
      var n := |recs| - 1;
      KeysAppearInOrder(recs[..n], digest);
      var early, keys := Keys(recs[..n], digest), Keys(recs, digest);
      forall i | 0 <= i < |early|
        ensures FirstAt(recs, digest, early[i]) == FirstAt(recs[..n], digest, early[i])
      {
        FirstAtPrefix(recs, n, digest, early[i]);
      }
      if digest(recs[n]) !in early {
        forall j | 0 <= j < n
          ensures digest(recs[j]) != digest(recs[n])
        {
          assert recs[j] == recs[..n][j];
          InKeys(recs[..n], digest, digest(recs[n]));
        }
        FirstAtIs(recs, digest, digest(recs[n]), n);
      }
    }
  }

  lemma FirstAtPrefix(recs: seq<Generation>, n: nat, digest: Digest, d: string)
    requires n <= |recs| && FirstAt(recs[..n], digest, d) < n
    ensures FirstAt(recs, digest, d) == FirstAt(recs[..n], digest, d)
  {
    var i := FirstAt(recs[..n], digest, d);
    assert recs[..n][i] == recs[i];
    forall j | 0 <= j < i
      ensures digest(recs[j]) != d
    {
      assert recs[..n][j] == recs[j];
    }
    FirstAtIs(recs, digest, d, i);
  }

  lemma FirstAtIs(recs: seq<Generation>, digest: Digest, d: string, i: nat)
    requires i < |recs| && digest(recs[i]) == d
    requires forall j :: 0 <= j < i ==> digest(recs[j]) != d
    ensures FirstAt(recs, digest, d) == i
  {
    assert !(FirstAt(recs, digest, d) < i);
  }

  lemma {:induction false} FilterCount<T>(s: seq<T>, p: T -> bool, x: T)
    ensures multiset(Filter(s, p))[x] == if p(x) then multiset(s)[x] else 0
  {
    if s != [] {
      var n := |s| - 1;
      FilterCount(s[..n], p, x);
      assert s == s[..n] + [s[n]];
    }
  }

  function Count(s: seq<Generation>, r: Generation): nat {
    multiset(s)[r]
  }

  lemma CountConcat(s: seq<Generation>, t: seq<Generation>, r: Generation)
    ensures Count(s + t, r) == Count(s, r) + Count(t, r)
  {
  }

  lemma OfCount(recs: seq<Generation>, digest: Digest, d: string, r: Generation)
    ensures Count(Of(recs, digest, d), r) == if digest(r) == d then Count(recs, r) else 0
  {
    FilterCount(recs, x => digest(x) == d, r);
  }

  lemma LastKey(keys: seq<string>)
    requires Distinct(keys) && keys != []
    ensures var n := |keys| - 1;
            && Distinct(keys[..n]) && keys[n] !in keys[..n]
            && forall k :: k in keys <==> k in keys[..n] || k == keys[n]
  {
    var n := |keys| - 1;
    assert keys == keys[..n] + [keys[n]];
  }

  /** The groups of distinct digests hold each generation as often as recs does,
      when its digest is among them. */
  lemma {:induction false} FlattenCount(recs: seq<Generation>, digest: Digest, keys: seq<string>, r: Generation)
    requires Distinct(keys)
    ensures Count(Flatten(GroupsOf(keys, recs, digest)), r) == if digest(r) in keys then Count(recs, r) else 0
  {
    if keys != [] {
      var n := |keys| - 1;
      var before, last := GroupsOf(keys[..n], recs, digest), Of(recs, digest, keys[n]);
      LastKey(keys);
      FlattenCount(recs, digest, keys[..n], r);
      OfCount(recs, digest, keys[n], r);
      FlattenAppend(before, last);
      CountConcat(Flatten(before), last, r);
    }
  }

  lemma FlattenAppend(groups: seq<seq<Generation>>, last: seq<Generation>)
    ensures Flatten(groups + [last]) == Flatten(groups) + last
  {
    assert (groups + [last])[..|groups|] == groups;
  }

  lemma FlattenHolds(recs: seq<Generation>, digest: Digest)
    ensures multiset(Flatten(Groups(recs, digest))) == multiset(recs)
  {
    forall r: Generation
      ensures multiset(Flatten(Groups(recs, digest)))[r] == multiset(recs)[r]
    {
      GroupsCount(recs, digest, r);
    }
  }

  lemma GroupsCount(recs: seq<Generation>, digest: Digest, r: Generation)
    ensures Count(Flatten(Groups(recs, digest)), r) == Count(recs, r)
  {
    KeysAreDistinct(recs, digest);
    FlattenCount(recs, digest, Keys(recs, digest), r);
    if r in recs {
      InKeys(recs, digest, digest(r));
    }
  }

  // ---- one generation per measurement ----

  /** The first generation of each group. */
  method Representatives(groups: seq<seq<Generation>>) returns (out: seq<Generation>)
    requires forall i :: 0 <= i < |groups| ==> groups[i] != []
    ensures |out| == |groups| && forall i :: 0 <= i < |groups| ==> out[i] == groups[i][0]
  {
    out := [];
    for i := 0 to |groups|
      invariant |out| == i && forall j :: 0 <= j < i ==> out[j] == groups[j][0]
    {
      out := out + [groups[i][0]];
    }
  }

  /** The generations whose digest no earlier one has. */
  function Firsts(recs: seq<Generation>, digest: Digest): seq<Generation> {
    if recs == [] then []
    else
      var n := |recs| - 1;
      Firsts(recs[..n], digest) + if digest(recs[n]) in Keys(recs[..n], digest) then [] else [recs[n]]
  }

  lemma {:induction false} FirstsHeadTheGroups(recs: seq<Generation>, digest: Digest)
    ensures |Firsts(recs, digest)| == |Keys(recs, digest)|
    ensures forall i :: 0 <= i < |Firsts(recs, digest)| ==>
              Of(recs, digest, Keys(recs, digest)[i]) != [] && Firsts(recs, digest)[i] == Of(recs, digest, Keys(recs, digest)[i])[0]
  {
    if recs != [] {
      var n := |recs| - 1;
      FirstsHeadTheGroups(recs[..n], digest);
      OfStep(recs, n, digest);
      assert recs[..n + 1] == recs;
      if digest(recs[n]) !in Keys(recs[..n], digest) {
        OfAbsent(recs[..n], digest, digest(recs[n]));
      }
    }
  }

  /** Equal digests of one kind imply equal digests of another. */
  ghost predicate Determines(recs: seq<Generation>, finer: Digest, coarser: Digest) {
    forall r, s :: r in recs && s in recs && finer(r) == finer(s) ==> coarser(r) == coarser(s)
  }

  lemma {:induction false} FirstsKeepTheKeys(recs: seq<Generation>, finer: Digest, coarser: Digest)
    requires Determines(recs, finer, coarser)
    ensures Keys(Firsts(recs, finer), coarser) == Keys(recs, coarser)
  {
    if recs != [] {
      var n := |recs| - 1;
      FirstsKeepTheKeys(recs[..n], finer, coarser);
      var firsts := Firsts(recs[..n], finer);
      if finer(recs[n]) in Keys(recs[..n], finer) {
        InKeys(recs[..n], finer, finer(recs[n]));
        InKeys(recs[..n], coarser, coarser(recs[n]));
        assert firsts + [] == firsts;
      } else {
        assert (firsts + [recs[n]])[..|firsts|] == firsts;
      }
    }
  }

  /** Grouping one generation per measurement by graph finds the distinct graphs
      that grouping every generation finds, in the same order. */
  lemma SameDistinctGraphs(recs: seq<Generation>, reps: seq<Generation>, finer: Digest, coarser: Digest)
    requires Determines(recs, finer, coarser)
    requires |reps| == |Groups(recs, finer)|
    requires forall i :: 0 <= i < |reps| ==> Groups(recs, finer)[i] != [] && reps[i] == Groups(recs, finer)[i][0]
    ensures Keys(reps, coarser) == Keys(recs, coarser)
    ensures |Groups(reps, coarser)| == |Groups(recs, coarser)|
  {
    FirstsHeadTheGroups(recs, finer);
    assert reps == Firsts(recs, finer);
    FirstsKeepTheKeys(recs, finer, coarser);
  }

  // ---- naming a generation ----

  /** A generation and the index of its measurement. */
  type Rung = (Generation, nat)

  /** What a value names; a refusal carries the generations it could have meant. */
  datatype Naming = Named(rung: Rung) | Refused(candidates: seq<Rung>)

  function Tag(group: seq<Generation>, g: nat): (t: seq<Rung>)
    ensures |t| == |group| && forall k :: 0 <= k < |group| ==> t[k] == (group[k], g)
  {
    seq(|group|, k requires 0 <= k < |group| => (group[k], g))
  }

  /** Every generation, measurement by measurement. */
  function Ladder(measurements: seq<seq<Generation>>): seq<Rung> {
    if measurements == [] then []
    else
      var n := |measurements| - 1;
      Ladder(measurements[..n]) + Tag(measurements[n], n)
  }

  function FirstWith(l: seq<Rung>, hash: string): Option<Rung> {
    if l == [] then None
    else
      var n := |l| - 1;
      var earlier := FirstWith(l[..n], hash);
      if earlier.None? && l[n].0.hash == hash then Some(l[n]) else earlier
  }

  predicate Holds(l: seq<Rung>, hash: string) {
    exists i :: 0 <= i < |l| && l[i].0.hash == hash
  }

  /** The first generation of each distinct hash that value begins. */
  function Matches(l: seq<Rung>, value: string): seq<Rung> {
    if l == [] then []
    else
      var n := |l| - 1;
      var m := Matches(l[..n], value);
      if value <= l[n].0.hash && !Holds(m, l[n].0.hash) then m + [l[n]] else m
  }

  function Resolve(l: seq<Rung>, value: string): Naming {
    if FirstWith(l, value).Some? then Named(FirstWith(l, value).value)
    else if |Matches(l, value)| == 1 then Named(Matches(l, value)[0])
    else Refused(Matches(l, value))
  }

  method ResolveGeneration(measurements: seq<seq<Generation>>, value: string) returns (r: Naming)
    ensures r == Resolve(Ladder(measurements), value)
  {
    var matched: seq<Rung> := [];
    var seen: set<string> := {};
    for g := 0 to |measurements|
      invariant Scanned(Ladder(measurements[..g]), value, matched, seen)
    {
      LadderStep(measurements, g);
      var hit;
      hit, matched, seen := ScanGroup(measurements[g], g, value, matched, seen, Ladder(measurements[..g]));
      if hit.Some? {
        FirstWithStays(Ladder(measurements[..g + 1]), Ladder(measurements), value);
        return Named(hit.value);
      }
    }
    assert measurements[..|measurements|] == measurements;
    r := if |matched| == 1 then Named(matched[0]) else Refused(matched);
  }

  /** What the scan knows once it has passed done without meeting the value whole. */
  ghost predicate Scanned(done: seq<Rung>, value: string, matched: seq<Rung>, seen: set<string>) {
    && FirstWith(done, value).None?
    && matched == Matches(done, value)
    && forall h :: h in seen <==> Holds(matched, h)
  }

  /** The inner loop of ResolveGeneration, over one measurement's generations. */
  method ScanGroup(group: seq<Generation>, g: nat, value: string, m: seq<Rung>, s: set<string>, ghost before: seq<Rung>)
    returns (hit: Option<Rung>, matched: seq<Rung>, seen: set<string>)
    requires Scanned(before, value, m, s)
    ensures FirstWith(before + Tag(group, g), value) == hit
    ensures hit.None? ==> Scanned(before + Tag(group, g), value, matched, seen)
  {
    matched, seen := m, s;
    ghost var tagged := Tag(group, g);
    assert before + tagged[..0] == before;
    for k := 0 to |group|
      invariant Scanned(before + tagged[..k], value, matched, seen)
    {
      var rung := (group[k], g);
      ghost var done := before + tagged[..k];
      assert before + tagged[..k + 1] == done + [rung];
      ScanStep(done, rung, value, matched, seen);
      if group[k].hash == value {
        FirstWithStays(done + [rung], before + tagged, value);
        return Some(rung), matched, seen;
      }
      if value <= group[k].hash && group[k].hash !in seen {
        seen := seen + {group[k].hash};
        matched := matched + [rung];
      }
    }
    assert tagged[..|group|] == tagged;
    hit := None;
  }

  lemma ScanStep(done: seq<Rung>, rung: Rung, value: string, matched: seq<Rung>, seen: set<string>)
    requires Scanned(done, value, matched, seen)
    ensures rung.0.hash == value ==> FirstWith(done + [rung], value) == Some(rung)
    ensures rung.0.hash != value ==>
              if value <= rung.0.hash && rung.0.hash !in seen
              then Scanned(done + [rung], value, matched + [rung], seen + {rung.0.hash})
              else Scanned(done + [rung], value, matched, seen)
  {
    assert (done + [rung])[..|done|] == done;
    HoldsStep(matched, rung);
  }

  lemma {:induction false} LadderGrows(measurements: seq<seq<Generation>>, g: nat)
    requires g <= |measurements|
    ensures Ladder(measurements[..g]) <= Ladder(measurements)
  {
    if g < |measurements| {
      var n := |measurements| - 1;
      LadderGrows(measurements[..n], g);
      assert measurements[..n][..g] == measurements[..g];
    } else {
      assert measurements[..g] == measurements;
    }
  }

  lemma LadderStep(measurements: seq<seq<Generation>>, g: nat)
    requires g < |measurements|
    ensures Ladder(measurements[..g + 1]) == Ladder(measurements[..g]) + Tag(measurements[g], g)
    ensures Ladder(measurements[..g + 1]) <= Ladder(measurements)
  {
    assert measurements[..g + 1][..g] == measurements[..g];
    LadderGrows(measurements, g + 1);
  }

  lemma HoldsStep(l: seq<Rung>, rung: Rung)
    ensures forall h :: Holds(l + [rung], h) <==> Holds(l, h) || h == rung.0.hash
  {
    forall h
      ensures Holds(l + [rung], h) <==> Holds(l, h) || h == rung.0.hash
    {
      if h == rung.0.hash {
        assert (l + [rung])[|l|].0.hash == h;
      } else if Holds(l, h) {
        var i :| 0 <= i < |l| && l[i].0.hash == h;
        assert (l + [rung])[i].0.hash == h;
      }
    }
  }

  lemma {:induction false} FirstWithStays(l: seq<Rung>, longer: seq<Rung>, hash: string)
    requires l <= longer && FirstWith(l, hash).Some?
    ensures FirstWith(longer, hash) == FirstWith(l, hash)
  {
    if |l| < |longer| {
      FirstWithStays(l, longer[..|longer| - 1], hash);
    } else {
      assert longer == l;
    }
  }

  lemma {:induction false} FirstWithHolds(l: seq<Rung>, hash: string)
    ensures FirstWith(l, hash).Some? <==> Holds(l, hash)
    ensures FirstWith(l, hash).Some? ==> FirstWith(l, hash).value in l && FirstWith(l, hash).value.0.hash == hash
  {
    if l != [] {
      var n := |l| - 1;
      FirstWithHolds(l[..n], hash);
      HoldsStep(l[..n], l[n]);
      assert l == l[..n] + [l[n]];
    }
  }

  /** The matches are the hashes that value begins, each once, each by the first
      generation that bears it. */
  lemma {:induction false} MatchesAre(l: seq<Rung>, value: string)
    ensures forall h :: Holds(Matches(l, value), h) <==> value <= h && Holds(l, h)
    ensures forall i :: 0 <= i < |Matches(l, value)| ==>
              Some(Matches(l, value)[i]) == FirstWith(l, Matches(l, value)[i].0.hash)
    ensures forall i, j :: 0 <= i < j < |Matches(l, value)| ==> Matches(l, value)[i].0.hash != Matches(l, value)[j].0.hash
  {
    if l != [] {
      var n := |l| - 1;
      MatchesAre(l[..n], value);
      assert l == l[..n] + [l[n]];
      HoldsStep(l[..n], l[n]);
      HoldsStep(Matches(l[..n], value), l[n]);
      FirstWithHolds(l[..n], l[n].0.hash);
    }
  }

  /** h is the one recorded hash that value begins. */
  ghost predicate OnlyExtension(l: seq<Rung>, value: string, h: string) {
    Holds(l, h) && value <= h && forall k :: Holds(l, k) && value <= k ==> k == h
  }

  /** A value names a generation just when it is a whole hash, however many it
      begins, or begins exactly one. */
  lemma ResolvesIff(l: seq<Rung>, value: string)
    ensures Resolve(l, value).Named? <==>
              Holds(l, value) || exists h :: OnlyExtension(l, value, h)
    ensures Resolve(l, value).Named? ==>
              && value <= Resolve(l, value).rung.0.hash
              && Some(Resolve(l, value).rung) == FirstWith(l, Resolve(l, value).rung.0.hash)
              && (Holds(l, value) ==> Resolve(l, value).rung.0.hash == value)
  {
    FirstWithHolds(l, value);
    MatchesAre(l, value);
    var m := Matches(l, value);
    if |m| == 1 {
      assert Holds(m, m[0].0.hash);
      assert OnlyExtension(l, value, m[0].0.hash);
    }
    forall h | OnlyExtension(l, value, h)
      ensures |m| == 1
    {
      assert Holds(m, h);
      if |m| > 1 {
        assert Holds(m, m[0].0.hash) && Holds(m, m[1].0.hash);
      }
    }
  }

  /** Of the generations of one hash the first of the ladder is named. */
  lemma {:induction false} FirstWithIs(l: seq<Rung>, i: nat)
    requires i < |l| && forall j :: 0 <= j < i ==> l[j].0.hash != l[i].0.hash
    ensures FirstWith(l, l[i].0.hash) == Some(l[i])
  {
    var n := |l| - 1;
    if i < n {
      FirstWithIs(l[..n], i);
    } else {
      FirstWithHolds(l[..n], l[n].0.hash);
    }
  }

  /** A refusal offers each hash the value begins, once. */
  lemma RefusalOffers(l: seq<Rung>, value: string)
    requires Resolve(l, value).Refused?
    ensures var offered := Resolve(l, value).candidates;
            && (forall h :: Holds(offered, h) <==> Holds(l, h) && value <= h)
            && (forall i, j :: 0 <= i < j < |offered| ==> offered[i].0.hash != offered[j].0.hash)
            && |offered| != 1 && !Holds(l, value)
  {
    FirstWithHolds(l, value);
    MatchesAre(l, value);
  }

  lemma {:induction false} LadderRungs(measurements: seq<seq<Generation>>, rung: Rung)
    ensures rung in Ladder(measurements) <==> rung.1 < |measurements| && rung.0 in measurements[rung.1]
  {
    if measurements != [] {
      var n := |measurements| - 1;
      LadderRungs(measurements[..n], rung);
      var t := Tag(measurements[n], n);
      assert rung in t <==> rung.1 == n && rung.0 in measurements[n] by {
        if rung.1 == n && rung.0 in measurements[n] {
          var k :| 0 <= k < |measurements[n]| && measurements[n][k] == rung.0;
          assert t[k] == rung;
        }
      }
    }
  }

  /** The measurement named is the one that holds the generation named. */
  lemma NamedGroupHolds(measurements: seq<seq<Generation>>, value: string)
    requires Resolve(Ladder(measurements), value).Named?
    ensures var rung := Resolve(Ladder(measurements), value).rung;
            rung.1 < |measurements| && rung.0 in measurements[rung.1]
  {
    var l := Ladder(measurements);
    ResolvesIff(l, value);
    FirstWithHolds(l, Resolve(l, value).rung.0.hash);
    LadderRungs(measurements, Resolve(l, value).rung);
  }

  /** Once a prefix names a generation, every longer prefix of its hash names it. */
  lemma LongerPrefixesAgree(l: seq<Rung>, value: string, longer: string)
    requires Resolve(l, value).Named?
    requires value <= longer <= Resolve(l, value).rung.0.hash
    ensures Resolve(l, longer) == Resolve(l, value)
  {
    var hash := Resolve(l, value).rung.0.hash;
    ResolvesIff(l, value);
    ResolvesIff(l, longer);
    FirstWithHolds(l, hash);
    if Holds(l, value) {
      assert longer == value;
    } else {
      var h :| OnlyExtension(l, value, h);
      assert h == hash;
      assert OnlyExtension(l, longer, hash);
      FirstWithHolds(l, Resolve(l, longer).rung.0.hash);
    }
  }

  // ---- the pair compared ----

  datatype Basis = Unstated | MostRecent | NamedByFlag | NeighbourOlder | NeighbourNewer

  datatype Side = Side(rec: Generation, basis: Basis)

  /** The pair; no pair where the ladder holds fewer than two measurements, and the
      refusal of a missing record where the ledger holds none. */
  datatype Selection = Pair(left: Side, right: Side) | NothingToCompare | BadHash(candidates: seq<Rung>) | Missing

  /** The first generation of the measurement beside the one named: on the side
      asked for, or on the other where the ladder ends there. */
  function NeighbourOf(ms: seq<seq<Generation>>, named: nat, newer: bool): Side
    requires named < |ms| && |ms| >= 2 && forall i :: 0 <= i < |ms| ==> ms[i] != []
  {
    var step := if newer then 1 else -1;
    var basis := if newer then NeighbourNewer else NeighbourOlder;
    var reversed := if newer then NeighbourOlder else NeighbourNewer;
    if 0 <= named + step < |ms| then Side(ms[named + step][0], basis) else Side(ms[named - step][0], reversed)
  }

  function DefaultDiffPair(ms: seq<seq<Generation>>): Selection
    requires |ms| >= 2 && forall i :: 0 <= i < |ms| ==> ms[i] != []
  {
    var basis := if |ms| == 2 then Unstated else MostRecent;
    Pair(Side(ms[|ms| - 2][0], basis), Side(ms[|ms| - 1][0], basis))
  }

  /** An empty argument leaves a side unnamed. A hash that names nothing is
      refused before the ladder's length is judged. */
  function SelectDiffPair(ms: seq<seq<Generation>>, fromArg: string, toArg: string): Selection
    requires forall i :: 0 <= i < |ms| ==> ms[i] != []
  {
    var from, to := Resolve(Ladder(ms), fromArg), Resolve(Ladder(ms), toArg);
    if fromArg != "" && from.Refused? then BadHash(from.candidates)
    else if toArg != "" && to.Refused? then BadHash(to.candidates)
    else if |ms| < 2 then NothingToCompare
    else if fromArg != "" && toArg != "" then Pair(Side(from.rung.0, NamedByFlag), Side(to.rung.0, NamedByFlag))
    else if fromArg != "" then
      NamedGroupHolds(ms, fromArg);
      Pair(Side(from.rung.0, NamedByFlag), NeighbourOf(ms, from.rung.1, true))
    else if toArg != "" then
      NamedGroupHolds(ms, toArg);
      Pair(NeighbourOf(ms, to.rung.1, false), Side(to.rung.0, NamedByFlag))
    else DefaultDiffPair(ms)
  }

  function Measurement(g: Generation): string {
    g.measurement
  }

  /** What the diff command compares, from the recorded generations; an empty ledger
      is refused before any argument is looked at. */
  function Compared(recs: seq<Generation>, fromArg: string, toArg: string): Selection {
    if recs == [] then Missing
    else
      GroupsAreHeaded(recs, Measurement);
      SelectDiffPair(Groups(recs, Measurement), fromArg, toArg)
  }

  /** b is the measurement first seen next after a. */
  ghost predicate NextSeen(recs: seq<Generation>, a: string, b: string) {
    exists i :: 0 <= i && IsNext(Keys(recs, Measurement), i, a, b)
  }

  predicate IsNext(keys: seq<string>, i: nat, a: string, b: string) {
    i + 1 < |keys| && keys[i] == a && keys[i + 1] == b
  }

  lemma RungMeasurement(recs: seq<Generation>, g: nat, r: Generation)
    requires g < |Groups(recs, Measurement)| && r in Groups(recs, Measurement)[g]
    ensures r in recs && r.measurement == Keys(recs, Measurement)[g]
  {
    InOf(recs, Measurement, Keys(recs, Measurement)[g], r);
  }

  /** A generation is the first of its measurement. */
  predicate Opens(recs: seq<Generation>, rec: Generation) {
    && rec in recs && Of(recs, Measurement, rec.measurement) != []
    && rec == Of(recs, Measurement, rec.measurement)[0]
  }

  /** The first generation of the i-th measurement opens it. */
  lemma HeadOf(recs: seq<Generation>, i: nat)
    requires i < |Groups(recs, Measurement)|
    ensures var group := Groups(recs, Measurement)[i];
            group != [] && Opens(recs, group[0]) && group[0].measurement == Keys(recs, Measurement)[i]
  {
    GroupHeadedBy(recs, Measurement, Keys(recs, Measurement)[i]);
    RungMeasurement(recs, i, Groups(recs, Measurement)[i][0]);
  }

  /** The groups stand in the order of these measurements, each opened by its first
      generation. */
  ghost predicate IsLadderOf(recs: seq<Generation>, ms: seq<seq<Generation>>, keys: seq<string>) {
    && |ms| == |keys|
    && forall i :: 0 <= i < |ms| ==> ms[i] != [] && ms[i][0].measurement == keys[i] && Opens(recs, ms[i][0])
  }

  lemma LadderOf(recs: seq<Generation>)
    ensures IsLadderOf(recs, Groups(recs, Measurement), Keys(recs, Measurement))
  {
    forall i | 0 <= i < |Groups(recs, Measurement)|
      ensures var group := Groups(recs, Measurement)[i];
              group != [] && group[0].measurement == Keys(recs, Measurement)[i] && Opens(recs, group[0])
    {
      HeadOf(recs, i);
    }
  }

  ghost predicate Nameable(recs: seq<Generation>, arg: string) {
    || (exists r :: r in recs && r.hash == arg)
    || (exists r :: r in recs && IsOnlyNamed(recs, arg, r.hash))
  }

  ghost predicate IsOnlyNamed(recs: seq<Generation>, arg: string, hash: string) {
    arg <= hash && forall s :: s in recs && arg <= s.hash ==> s.hash == hash
  }

  lemma LadderHolds(recs: seq<Generation>, hash: string)
    ensures Holds(Ladder(Groups(recs, Measurement)), hash) <==> exists r :: r in recs && r.hash == hash
  {
    var ms := Groups(recs, Measurement);
    var l := Ladder(ms);
    if Holds(l, hash) {
      var i :| 0 <= i < |l| && l[i].0.hash == hash;
      LadderRungs(ms, l[i]);
      RungMeasurement(recs, l[i].1, l[i].0);
    }
    forall r | r in recs && r.hash == hash
      ensures Holds(l, hash)
    {
      InKeys(recs, Measurement, r.measurement);
      var g :| 0 <= g < |ms| && Keys(recs, Measurement)[g] == r.measurement;
      InOf(recs, Measurement, r.measurement, r);
      LadderRungs(ms, (r, g));
      var i :| 0 <= i < |l| && l[i] == (r, g);
    }
  }

  lemma NamesWhenNameable(recs: seq<Generation>, arg: string)
    ensures Resolve(Ladder(Groups(recs, Measurement)), arg).Named? <==> Nameable(recs, arg)
  {
    var l := Ladder(Groups(recs, Measurement));
    ResolvesIff(l, arg);
    LadderHolds(recs, arg);
    forall h
      ensures Holds(l, h) <==> exists r :: r in recs && r.hash == h
    {
      LadderHolds(recs, h);
    }
    forall h | OnlyExtension(l, arg, h)
      ensures Nameable(recs, arg)
    {
      var r :| r in recs && r.hash == h;
      forall s | s in recs && arg <= s.hash
        ensures s.hash == h
      {
        assert Holds(l, s.hash);
      }
      assert IsOnlyNamed(recs, arg, r.hash);
    }
    forall r | r in recs && IsOnlyNamed(recs, arg, r.hash)
      ensures OnlyExtension(l, arg, r.hash)
    {
    }
  }

  predicate BadArgument(ms: seq<seq<Generation>>, arg: string) {
    arg != "" && Resolve(Ladder(ms), arg).Refused?
  }

  lemma BadArgumentIff(recs: seq<Generation>, arg: string)
    ensures BadArgument(Groups(recs, Measurement), arg) <==> arg != "" && !Nameable(recs, arg)
  {
    NamesWhenNameable(recs, arg);
  }

  lemma SelectionIs(ms: seq<seq<Generation>>, fromArg: string, toArg: string)
    requires forall i :: 0 <= i < |ms| ==> ms[i] != []
    ensures var c, bad := SelectDiffPair(ms, fromArg, toArg), BadArgument(ms, fromArg) || BadArgument(ms, toArg);
            && !c.Missing?
            && (c.BadHash? <==> bad)
            && (c.NothingToCompare? <==> !bad && |ms| < 2)
  {
  }

  /** The command refuses an empty ledger as holding no record; then exactly an
      argument that names no one generation; and compares exactly when there are two
      measurements to compare. */
  lemma RefusedIff(recs: seq<Generation>, fromArg: string, toArg: string)
    ensures var c := Compared(recs, fromArg, toArg);
            var bad := (fromArg != "" && !Nameable(recs, fromArg)) || (toArg != "" && !Nameable(recs, toArg));
            && (c.Missing? <==> recs == [])
            && (c.BadHash? <==> recs != [] && bad)
            && (c.NothingToCompare? <==> !bad && |Keys(recs, Measurement)| == 1)
            && (c.Pair? <==> !bad && |Keys(recs, Measurement)| >= 2)
  {
    GroupsAreHeaded(recs, Measurement);
    SelectionIs(Groups(recs, Measurement), fromArg, toArg);
    BadArgumentIff(recs, fromArg);
    BadArgumentIff(recs, toArg);
    if recs != [] {
      InKeys(recs, Measurement, recs[0].measurement);
      assert recs[0] in recs;
    }
  }

  /** A side that was named is a recorded generation of that hash. */
  predicate IsNamed(recs: seq<Generation>, arg: string, side: Side) {
    side.rec in recs && arg <= side.rec.hash && ((exists r :: r in recs && r.hash == arg) ==> side.rec.hash == arg)
  }

  lemma NamedSideIsNamed(recs: seq<Generation>, arg: string)
    requires Resolve(Ladder(Groups(recs, Measurement)), arg).Named?
    ensures var rung := Resolve(Ladder(Groups(recs, Measurement)), arg).rung;
            && IsNamed(recs, arg, Side(rung.0, NamedByFlag))
            && rung.1 < |Keys(recs, Measurement)| && rung.0.measurement == Keys(recs, Measurement)[rung.1]
  {
    var ms := Groups(recs, Measurement);
    var rung := Resolve(Ladder(ms), arg).rung;
    ResolvesIff(Ladder(ms), arg);
    LadderHolds(recs, arg);
    NamedGroupHolds(ms, arg);
    RungMeasurement(recs, rung.1, rung.0);
  }

  lemma PairNames(ms: seq<seq<Generation>>, fromArg: string, toArg: string)
    requires forall i :: 0 <= i < |ms| ==> ms[i] != []
    requires SelectDiffPair(ms, fromArg, toArg).Pair?
    ensures var pair, from, to := SelectDiffPair(ms, fromArg, toArg), Resolve(Ladder(ms), fromArg), Resolve(Ladder(ms), toArg);
            && (fromArg != "" ==> from.Named? && pair.left == Side(from.rung.0, NamedByFlag))
            && (toArg != "" ==> to.Named? && pair.right == Side(to.rung.0, NamedByFlag))
  {
  }

  lemma NamedSides(recs: seq<Generation>, fromArg: string, toArg: string)
    requires Compared(recs, fromArg, toArg).Pair?
    ensures var pair := Compared(recs, fromArg, toArg);
            && (fromArg != "" ==> pair.left.basis.NamedByFlag? && IsNamed(recs, fromArg, pair.left))
            && (toArg != "" ==> pair.right.basis.NamedByFlag? && IsNamed(recs, toArg, pair.right))
  {
    GroupsAreHeaded(recs, Measurement);
    PairNames(Groups(recs, Measurement), fromArg, toArg);
    if fromArg != "" {
      NamedSideIsNamed(recs, fromArg);
    }
    if toArg != "" {
      NamedSideIsNamed(recs, toArg);
    }
  }

  lemma SeenNext(recs: seq<Generation>, i: nat)
    requires i + 1 < |Keys(recs, Measurement)|
    ensures NextSeen(recs, Keys(recs, Measurement)[i], Keys(recs, Measurement)[i + 1])
  {
    assert IsNext(Keys(recs, Measurement), i, Keys(recs, Measurement)[i], Keys(recs, Measurement)[i + 1]);
  }

  /** The neighbour of the measurement at g: the one seen next after it, or next
      before it, as its basis says, opened. */
  ghost predicate IsBeside(recs: seq<Generation>, g: nat, side: Side)
    requires g < |Keys(recs, Measurement)|
  {
    && Opens(recs, side.rec)
    && var own := Keys(recs, Measurement)[g];
       (side.basis == NeighbourNewer && NextSeen(recs, own, side.rec.measurement))
       || (side.basis == NeighbourOlder && NextSeen(recs, side.rec.measurement, own))
  }

  lemma NeighbourIsBeside(recs: seq<Generation>, g: nat, newer: bool)
    requires g < |Groups(recs, Measurement)| && |Groups(recs, Measurement)| >= 2
    requires forall i :: 0 <= i < |Groups(recs, Measurement)| ==> Groups(recs, Measurement)[i] != []
    ensures IsBeside(recs, g, NeighbourOf(Groups(recs, Measurement), g, newer))
  {
    if (newer && g + 1 < |Groups(recs, Measurement)|) || (!newer && g == 0) {
      HeadOf(recs, g + 1);
      SeenNext(recs, g);
    } else {
      HeadOf(recs, g - 1);
      SeenNext(recs, g - 1);
    }
  }

  lemma PairIs(ms: seq<seq<Generation>>, fromArg: string, toArg: string)
    requires forall i :: 0 <= i < |ms| ==> ms[i] != []
    requires SelectDiffPair(ms, fromArg, toArg).Pair?
    ensures var pair, from, to := SelectDiffPair(ms, fromArg, toArg), Resolve(Ladder(ms), fromArg), Resolve(Ladder(ms), toArg);
            && |ms| >= 2
            && (fromArg == "" && toArg == "" ==> pair == DefaultDiffPair(ms))
            && (fromArg != "" && toArg == "" ==>
                  && from.Named? && from.rung.1 < |ms|
                  && pair == Pair(Side(from.rung.0, NamedByFlag), NeighbourOf(ms, from.rung.1, true)))
            && (fromArg == "" && toArg != "" ==>
                  && to.Named? && to.rung.1 < |ms|
                  && pair == Pair(NeighbourOf(ms, to.rung.1, false), Side(to.rung.0, NamedByFlag)))
  {
    if fromArg != "" {
      NamedGroupHolds(ms, fromArg);
    } else if toArg != "" {
      NamedGroupHolds(ms, toArg);
    }
  }

  /** The two stand in measurements seen one after the other, the older on the left
      save where the basis says the ladder ended. */
  ghost predicate StandsBeside(recs: seq<Generation>, left: Side, right: Side) {
    if right.basis.NeighbourOlder? || left.basis.NeighbourNewer?
    then NextSeen(recs, right.rec.measurement, left.rec.measurement)
    else NextSeen(recs, left.rec.measurement, right.rec.measurement)
  }

  /** Unless both sides are named, they stand so; and a side that was not named opens
      its measurement. */
  lemma UnnamedSideIsBeside(recs: seq<Generation>, fromArg: string, toArg: string)
    requires Compared(recs, fromArg, toArg).Pair? && (fromArg == "" || toArg == "")
    ensures var pair := Compared(recs, fromArg, toArg);
            && StandsBeside(recs, pair.left, pair.right)
            && (fromArg == "" ==> Opens(recs, pair.left.rec)) && (toArg == "" ==> Opens(recs, pair.right.rec))
  {
    GroupsAreHeaded(recs, Measurement);
    var ms := Groups(recs, Measurement);
    PairIs(ms, fromArg, toArg);
    if fromArg != "" {
      NamedSideIsNamed(recs, fromArg);
      NeighbourIsBeside(recs, Resolve(Ladder(ms), fromArg).rung.1, true);
    } else if toArg != "" {
      NamedSideIsNamed(recs, toArg);
      NeighbourIsBeside(recs, Resolve(Ladder(ms), toArg).rung.1, false);
    } else {
      DefaultIsBeside(recs, DefaultDiffPair(ms));
    }
  }

  /** Beside a named left side stands the measurement first seen next after it, and only
      where there is none the one before; beside a named right side the one before, and
      only where there is none the one after. The basis says which. */
  lemma NeighbourIs(recs: seq<Generation>, arg: string, k: nat)
    requires arg != "" && k < |Keys(recs, Measurement)|
    ensures var pair, keys := Compared(recs, arg, ""), Keys(recs, Measurement);
            pair.Pair? && pair.left.rec.measurement == keys[k] ==> IsNewerNeighbour(recs, keys, k, pair.right)
    ensures var pair, keys := Compared(recs, "", arg), Keys(recs, Measurement);
            pair.Pair? && pair.right.rec.measurement == keys[k] ==> IsOlderNeighbour(recs, keys, k, pair.left)
  {
    LadderOf(recs);
    GroupsAreHeaded(recs, Measurement);
    KeysAreDistinct(recs, Measurement);
    var ms, keys := Groups(recs, Measurement), Keys(recs, Measurement);
    if Resolve(Ladder(ms), arg).Named? {
      NamedSideIsNamed(recs, arg);
      NeighbourOfNamed(recs, ms, keys, arg, k);
    } else {
      UnnamedArgument(ms, arg);
    }
  }

  lemma UnnamedArgument(ms: seq<seq<Generation>>, arg: string)
    requires arg != "" && Resolve(Ladder(ms), arg).Refused? && forall i :: 0 <= i < |ms| ==> ms[i] != []
    ensures !SelectDiffPair(ms, arg, "").Pair? && !SelectDiffPair(ms, "", arg).Pair?
  {
  }

  lemma NeighbourOfNamed(recs: seq<Generation>, ms: seq<seq<Generation>>, keys: seq<string>, arg: string, k: nat)
    requires IsLadderOf(recs, ms, keys) && Distinct(keys) && arg != "" && k < |keys| && Resolve(Ladder(ms), arg).Named?
    requires var rung := Resolve(Ladder(ms), arg).rung; rung.1 < |keys| && rung.0.measurement == keys[rung.1]
    ensures var pair := SelectDiffPair(ms, arg, "");
            pair.Pair? && pair.left.rec.measurement == keys[k] ==> IsNewerNeighbour(recs, keys, k, pair.right)
    ensures var pair := SelectDiffPair(ms, "", arg);
            pair.Pair? && pair.right.rec.measurement == keys[k] ==> IsOlderNeighbour(recs, keys, k, pair.left)
  {
    if SelectDiffPair(ms, arg, "").Pair? {
      PairIs(ms, arg, "");
    }
    if SelectDiffPair(ms, "", arg).Pair? {
      PairIs(ms, "", arg);
    }
    if |ms| >= 2 {
      NeighbourStands(recs, ms, keys, Resolve(Ladder(ms), arg).rung.1);
    }
  }

  predicate IsNewerNeighbour(recs: seq<Generation>, keys: seq<string>, k: nat, side: Side) {
    if k + 1 < |keys| then SideIs(recs, keys, side, k + 1, NeighbourNewer)
    else k > 0 && SideIs(recs, keys, side, k - 1, NeighbourOlder)
  }

  predicate IsOlderNeighbour(recs: seq<Generation>, keys: seq<string>, k: nat, side: Side) {
    if k > 0 then SideIs(recs, keys, side, k - 1, NeighbourOlder) else SideIs(recs, keys, side, k + 1, NeighbourNewer)
  }

  /** The side holds the k-th measurement, by the first generation of it. */
  predicate SideIs(recs: seq<Generation>, keys: seq<string>, side: Side, k: nat, basis: Basis) {
    k < |keys| && side.basis == basis && side.rec.measurement == keys[k] && Opens(recs, side.rec)
  }

  lemma NeighbourStands(recs: seq<Generation>, ms: seq<seq<Generation>>, keys: seq<string>, k: nat)
    requires IsLadderOf(recs, ms, keys) && k < |ms| && |ms| >= 2
    ensures IsNewerNeighbour(recs, keys, k, NeighbourOf(ms, k, true))
    ensures IsOlderNeighbour(recs, keys, k, NeighbourOf(ms, k, false))
  {
  }

  /** With nothing named, a ladder of two offers its one pair and says nothing of it; a
      longer one says the two are the most recent. */
  lemma DefaultBasis(recs: seq<Generation>)
    requires Compared(recs, "", "").Pair?
    ensures var pair := Compared(recs, "", "");
            pair.left.basis == pair.right.basis == if |Keys(recs, Measurement)| == 2 then Unstated else MostRecent
  {
    GroupsAreHeaded(recs, Measurement);
    PairIs(Groups(recs, Measurement), "", "");
  }

  /** A refused argument, the left one first, is answered with the recorded hashes it
      begins. */
  lemma BadHashOffers(recs: seq<Generation>, fromArg: string, toArg: string)
    requires Compared(recs, fromArg, toArg).BadHash?
    ensures var arg := if fromArg != "" && !Nameable(recs, fromArg) then fromArg else toArg;
            forall h :: Holds(Compared(recs, fromArg, toArg).candidates, h) <==> arg <= h && exists r :: r in recs && r.hash == h
  {
    GroupsAreHeaded(recs, Measurement);
    BadArgumentIff(recs, fromArg);
    BadHashIs(Groups(recs, Measurement), fromArg, toArg);
    OfferedAreRecorded(recs, Ladder(Groups(recs, Measurement)), if fromArg != "" && !Nameable(recs, fromArg) then fromArg else toArg);
  }

  lemma OfferedAreRecorded(recs: seq<Generation>, l: seq<Rung>, arg: string)
    requires l == Ladder(Groups(recs, Measurement)) && Resolve(l, arg).Refused?
    ensures forall h :: Holds(Resolve(l, arg).candidates, h) <==> arg <= h && exists r :: r in recs && r.hash == h
  {
    RefusalOffers(l, arg);
    forall h
      ensures Holds(l, h) <==> exists r :: r in recs && r.hash == h
    {
      LadderHolds(recs, h);
    }
  }

  lemma BadHashIs(ms: seq<seq<Generation>>, fromArg: string, toArg: string)
    requires forall i :: 0 <= i < |ms| ==> ms[i] != []
    requires SelectDiffPair(ms, fromArg, toArg).BadHash?
    ensures var r := Resolve(Ladder(ms), if BadArgument(ms, fromArg) then fromArg else toArg);
            r.Refused? && SelectDiffPair(ms, fromArg, toArg).candidates == r.candidates
  {
  }

  lemma DefaultIsBeside(recs: seq<Generation>, pair: Selection)
    requires |Groups(recs, Measurement)| >= 2
    requires forall i :: 0 <= i < |Groups(recs, Measurement)| ==> Groups(recs, Measurement)[i] != []
    requires pair == DefaultDiffPair(Groups(recs, Measurement))
    ensures StandsBeside(recs, pair.left, pair.right) && Opens(recs, pair.left.rec) && Opens(recs, pair.right.rec)
  {
    var n := |Groups(recs, Measurement)|;
    HeadOf(recs, n - 2);
    HeadOf(recs, n - 1);
    SeenNext(recs, n - 2);
  }

  /** With nothing named, the sides open the two measurements first seen last. */
  lemma DefaultEndsTheLadder(recs: seq<Generation>)
    requires Compared(recs, "", "").Pair?
    ensures |Keys(recs, Measurement)| >= 2
    ensures Compared(recs, "", "").right.rec.measurement == Keys(recs, Measurement)[|Keys(recs, Measurement)| - 1]
    ensures Compared(recs, "", "").left.rec.measurement == Keys(recs, Measurement)[|Keys(recs, Measurement)| - 2]
  {
    GroupsAreHeaded(recs, Measurement);
    LadderOf(recs);
    DefaultMeasures(recs, Groups(recs, Measurement), Keys(recs, Measurement));
  }

  lemma DefaultMeasures(recs: seq<Generation>, ms: seq<seq<Generation>>, keys: seq<string>)
    requires IsLadderOf(recs, ms, keys) && SelectDiffPair(ms, "", "").Pair?
    ensures var pair := SelectDiffPair(ms, "", "");
            |keys| >= 2 && pair.left.rec.measurement == keys[|keys| - 2] && pair.right.rec.measurement == keys[|keys| - 1]
  {
    PairIs(ms, "", "");
  }

  /** Where the measurement of the i-th generation was first seen. */
  function FirstSeen(recs: seq<Generation>, i: nat): nat
    requires i < |recs|
  {
    FirstAt(recs, Measurement, recs[i].measurement)
  }

  predicate Increasing(at: seq<nat>) {
    forall i, j :: 0 <= i < j < |at| ==> at[i] < at[j]
  }

  ghost predicate SameMembers(at: seq<nat>, seen: seq<nat>) {
    forall v :: v in at <==> v in seen
  }

  /** Nothing seen lies above v; two things seen do, one above the other. */
  predicate Highest(seen: seq<nat>, v: nat) {
    forall i :: 0 <= i < |seen| ==> seen[i] <= v
  }

  ghost predicate TwoAbove(seen: seq<nat>, v: nat) {
    exists i, j :: 0 <= i < |seen| && 0 <= j < |seen| && v < seen[i] < seen[j]
  }

  lemma LastTwoIff(at: seq<nat>, seen: seq<nat>, v: nat)
    requires Increasing(at) && SameMembers(at, seen) && v in seen && |at| >= 2
    ensures at[|at| - 1] == v <==> Highest(seen, v)
    ensures at[|at| - 2] != v && at[|at| - 1] != v <==> TwoAbove(seen, v)
  {
    var n := |at|;
    var k :| 0 <= k < n && at[k] == v;
    forall i | 0 <= i < |seen|
      ensures exists l :: 0 <= l < n && at[l] == seen[i]
    {
      assert seen[i] in at;
    }
    assert at[n - 1] in seen && at[n - 2] in seen;
    var i :| 0 <= i < |seen| && seen[i] == at[n - 2];
    var j :| 0 <= j < |seen| && seen[j] == at[n - 1];
    if k < n - 2 {
      assert v < seen[i] < seen[j];
    }
  }

  /** Where each generation's measurement was first seen. */
  function AllSeen(recs: seq<Generation>): (seen: seq<nat>) {
    seq(|recs|, i requires 0 <= i < |recs| => FirstSeen(recs, i))
  }

  function Places(recs: seq<Generation>, keys: seq<string>): (at: seq<nat>) {
    seq(|keys|, k requires 0 <= k < |keys| => FirstAt(recs, Measurement, keys[k]))
  }

  lemma PlacesAreSeen(recs: seq<Generation>, keys: seq<string>)
    requires keys == Keys(recs, Measurement)
    ensures Increasing(Places(recs, keys)) && SameMembers(Places(recs, keys), AllSeen(recs))
  {
    var at, seen := Places(recs, keys), AllSeen(recs);
    KeysAppearInOrder(recs, Measurement);
    forall k | 0 <= k < |keys|
      ensures at[k] in seen
    {
      var i := FirstAt(recs, Measurement, keys[k]);
      assert seen[i] == at[k];
    }
    forall i | 0 <= i < |recs|
      ensures seen[i] in at
    {
      InKeys(recs, Measurement, recs[i].measurement);
      assert recs[i] in recs;
      var k :| 0 <= k < |keys| && keys[k] == recs[i].measurement;
      assert at[k] == seen[i];
    }
  }

  lemma SamePlace(recs: seq<Generation>, keys: seq<string>, k: nat, i: nat)
    requires k < |keys| && i < |recs|
    ensures Places(recs, keys)[k] == FirstSeen(recs, i) <==> keys[k] == recs[i].measurement
  {
    assert FirstSeen(recs, i) <= i;
  }

  /** No measurement was first seen after that of the i-th generation; two were, one
      after the other. */
  predicate NoneSeenAfter(recs: seq<Generation>, i: nat)
    requires i < |recs|
  {
    Highest(AllSeen(recs), FirstSeen(recs, i))
  }

  ghost predicate TwoSeenAfter(recs: seq<Generation>, i: nat)
    requires i < |recs|
  {
    TwoAbove(AllSeen(recs), FirstSeen(recs, i))
  }

  lemma PlaceAmongTheLastTwo(recs: seq<Generation>, at: seq<nat>, seen: seq<nat>, i: nat)
    requires i < |recs| && |at| >= 2 && Increasing(at) && SameMembers(at, seen) && seen == AllSeen(recs)
    ensures at[|at| - 1] == FirstSeen(recs, i) <==> NoneSeenAfter(recs, i)
    ensures at[|at| - 2] != FirstSeen(recs, i) && at[|at| - 1] != FirstSeen(recs, i) <==> TwoSeenAfter(recs, i)
  {
    assert seen[i] == FirstSeen(recs, i);
    LastTwoIff(at, seen, FirstSeen(recs, i));
  }

  /** Where the newest generation's measurement stands among those first seen. */
  lemma NewestAmongTheLastTwoIff(recs: seq<Generation>, keys: seq<string>, newest: nat)
    requires Increasing(Places(recs, keys)) && SameMembers(Places(recs, keys), AllSeen(recs)) && |keys| >= 2 && newest < |recs|
    ensures keys[|keys| - 1] == recs[newest].measurement <==> NoneSeenAfter(recs, newest)
    ensures keys[|keys| - 2] != recs[newest].measurement && keys[|keys| - 1] != recs[newest].measurement <==>
              TwoSeenAfter(recs, newest)
  {
    PlaceAmongTheLastTwo(recs, Places(recs, keys), AllSeen(recs), newest);
    SamePlace(recs, keys, |keys| - 1, newest);
    SamePlace(recs, keys, |keys| - 2, newest);
  }

  /** The right side is the newest generation's measurement exactly when none was
      first seen after it: a measurement taken again keeps its old place. */
  lemma DefaultIsNewestIff(recs: seq<Generation>)
    requires Compared(recs, "", "").Pair?
    ensures recs != []
    ensures Compared(recs, "", "").right.rec.measurement == recs[|recs| - 1].measurement <==>
              NoneSeenAfter(recs, |recs| - 1)
  {
    DefaultEndsTheLadder(recs);
    PlacesAreSeen(recs, Keys(recs, Measurement));
    NewestAmongTheLastTwoIff(recs, Keys(recs, Measurement), |recs| - 1);
  }

  /** The newest generation's measurement is on neither side exactly when two
      measurements were first seen after it, one after the other. */
  lemma NewestIsLeftOutIff(recs: seq<Generation>)
    requires Compared(recs, "", "").Pair?
    ensures recs != []
    ensures Compared(recs, "", "").left.rec.measurement != recs[|recs| - 1].measurement
            && Compared(recs, "", "").right.rec.measurement != recs[|recs| - 1].measurement <==>
              TwoSeenAfter(recs, |recs| - 1)
  {
    DefaultEndsTheLadder(recs);
    PlacesAreSeen(recs, Keys(recs, Measurement));
    NewestAmongTheLastTwoIff(recs, Keys(recs, Measurement), |recs| - 1);
  }

  /** A measurement taken again after two others were first seen is not in the
      default comparison at all, though the newest generation states it. */
  lemma NewestCanBeLeftOut(a: Generation, b: Generation, c: Generation, again: Generation)
    requires a.measurement != b.measurement && b.measurement != c.measurement && a.measurement != c.measurement
    requires again.measurement == a.measurement
    ensures var pair := Compared([a, b, c, again], "", "");
            pair.Pair? && pair.left.rec.measurement == b.measurement && pair.right.rec.measurement == c.measurement
  {
    var recs := [a, b, c, again];
    assert recs[..3] == [a, b, c] && [a, b, c][..2] == [a, b] && [a, b][..1] == [a] && [a][..0] == [];
    assert Keys([a], Measurement) == [a.measurement];
    assert Keys([a, b], Measurement) == [a.measurement, b.measurement];
    assert Keys([a, b, c], Measurement) == [a.measurement, b.measurement, c.measurement];
    assert Keys(recs, Measurement) == [a.measurement, b.measurement, c.measurement];
    GroupsAreHeaded(recs, Measurement);
    DefaultEndsTheLadder(recs);
  }
}
