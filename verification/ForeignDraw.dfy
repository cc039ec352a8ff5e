/** How much of an edge answer was drawn from modules the answering record is not
    about: a per-query coordinate cache and a per-node edge index, against a scan
    of every edge for every node with nothing cached. */
module ForeignDraw {
  import opened Wrappers
  import opened Seqs
  import opened Order
  import opened Coordinates

  /** A module path and the version resolution gave it, which may be none. */
  type ForeignModule = (string, string)

  datatype EdgeRef = EdgeRef(fromID: string, toID: string, module_: string, version: string, pipeline: string)

  /** A read, or the coordinate it could not be made for. */
  datatype Attempt<T> = Done(value: T) | Refused(at: Coord, named: bool)

  /** The store's column, and the reads of it that fail; unchanging in one query. */
  datatype Store = Store(
    isVersion: string -> bool,
    built: map<(Coord, string), seq<ForeignModule>>,
    faults: set<(Coord, string)>)

  predicate NamesAModule(st: Store, c: Coord) {
    c.path != "" && c.version != "" && st.isVersion(c.version)
  }

  /** The foreign modules a record built, read afresh. */
  function ReadOf(st: Store, c: Coord, pipeline: string): Attempt<seq<ForeignModule>> {
    if !NamesAModule(st, c) then Refused(c, false)
    else if (c, pipeline) in st.faults then Refused(c, true)
    else Done(if (c, pipeline) in st.built then st.built[(c, pipeline)] else [])
  }

  /** A coordinate is refused unread for an empty path, or a version that is empty or
      none; otherwise the read fails, or answers what is built there, or nothing. */
  lemma ReadSays(st: Store, c: Coord, pipeline: string)
    ensures var named := c.path != "" && c.version != "" && st.isVersion(c.version);
            && (!named ==> ReadOf(st, c, pipeline) == Refused(c, false))
            && (named && (c, pipeline) in st.faults ==> ReadOf(st, c, pipeline) == Refused(c, true))
            && (named && (c, pipeline) !in st.faults && (c, pipeline) in st.built ==>
                  ReadOf(st, c, pipeline) == Done(st.built[(c, pipeline)]))
            && (named && (c, pipeline) !in st.faults && (c, pipeline) !in st.built ==> ReadOf(st, c, pipeline) == Done([]))
  {
  }

  function RecordOf(ref: EdgeRef): Coord {
    Coord(ref.module_, ref.version)
  }

  // ---- the coordinate cache ----

  function Key(c: Coord, pipeline: string): string {
    Label(c) + "\0" + pipeline
  }

  /** The version holds neither '@' nor NUL, and the pipeline version no NUL. A path
      may hold anything. */
  predicate Keyed(c: Coord, pipeline: string) {
    '@' !in c.version && '\0' !in c.version && '\0' !in pipeline
  }

  /** The key tells coordinates and pipelines apart. */
  lemma KeyIsInjective(c: Coord, p: string, d: Coord, q: string)
    requires Keyed(c, p) && Keyed(d, q) && Key(c, p) == Key(d, q)
    ensures c == d && p == q
  {
    assert Key(c, p) == Label(c) + ['\0'] + p && Key(d, q) == Label(d) + ['\0'] + q;
    SplitAtLastMark(Label(c), Label(d), '\0', p, q);
    assert Label(c) == c.path + ['@'] + c.version && Label(d) == d.path + ['@'] + d.version;
    SplitAtLastMark(c.path, d.path, '@', c.version, d.version);
  }

  /** It does so too for paths without '@' and versions without NUL, whatever else
      the versions and pipelines hold. */
  lemma PlainKeyIsInjective(c: Coord, p: string, d: Coord, q: string)
    requires Plain(c.path) && Plain(d.path) && '\0' !in c.version && '\0' !in d.version && Key(c, p) == Key(d, q)
    ensures c == d && p == q
  {
    var rest, other := c.version + ['\0'] + p, d.version + ['\0'] + q;
    assert Key(c, p) == c.path + ['@'] + rest;
    assert Key(d, q) == d.path + ['@'] + other;
    SplitAtMark(c.path, d.path, '@', rest, other);
    SplitAtMark(c.version, d.version, '\0', p, q);
  }

  /** A version that holds an '@' can share its key with another module's. */
  lemma KeysCanMeet(a: string, b: string, v: string, pipeline: string)
    requires b != []
    ensures Key(Coord(a + "@" + b, v), pipeline) == Key(Coord(a, b + "@" + v), pipeline)
    ensures Coord(a + "@" + b, v) != Coord(a, b + "@" + v)
  {
    assert |a + "@" + b| > |a|;
  }

  /** For each key cached, the record it was first asked for under. */
  type Origins = map<string, (Coord, string)>

  /** What an index holds: under each key the answer for the record it was first
      asked for under that key. */
  ghost predicate CacheOf(st: Store, byKey: map<string, seq<ForeignModule>>, origin: Origins) {
    && byKey.Keys == origin.Keys
    && forall k :: k in byKey ==>
         Key(origin[k].0, origin[k].1) == k && ReadOf(st, origin[k].0, origin[k].1) == Done(byKey[k])
  }

  function CachedRead(st: Store, byKey: map<string, seq<ForeignModule>>, c: Coord, pipeline: string): Attempt<seq<ForeignModule>> {
    if Key(c, pipeline) in byKey then Done(byKey[Key(c, pipeline)]) else ReadOf(st, c, pipeline)
  }

  class ForeignModuleIndex {
    const store: Store
    var byKey: map<string, seq<ForeignModule>>
    ghost var origin: Origins

    constructor (store: Store)
      ensures this.store == store && byKey == map[] && origin == map[] && Valid()
    {
      this.store, byKey, origin := store, map[], map[];
    }

    ghost predicate Valid()
      reads this
    {
      CacheOf(store, byKey, origin)
    }

    /** Looked up before it is asked whether the coordinate names a module. A refusal
        is not cached. */
    method ForRecord(c: Coord, pipeline: string) returns (mods: Attempt<seq<ForeignModule>>)
      requires Valid()
      modifies this
      ensures Valid() && mods == CachedRead(store, old(byKey), c, pipeline)
      ensures byKey == if mods.Done? then old(byKey)[Key(c, pipeline) := mods.value] else old(byKey)
      ensures origin == if Key(c, pipeline) in old(byKey) || mods.Refused? then old(origin)
                        else old(origin)[Key(c, pipeline) := (c, pipeline)]
    {
      var key := Key(c, pipeline);
      if key in byKey {
        mods := Done(byKey[key]);
        assert byKey[key := mods.value] == byKey;
        return;
      }
      if !NamesAModule(store, c) {
        return Refused(c, false);
      }
      if (c, pipeline) in store.faults {
        return Refused(c, true);
      }
      var read := if (c, pipeline) in store.built then store.built[(c, pipeline)] else [];
      byKey, origin := byKey[key := read], origin[key := (c, pipeline)];
      mods := Done(read);
    }
  }

  // ---- when the cached read is the fresh one ----

  /** What makes a version name a module keeps '@' and NUL out of it. */
  ghost predicate PlainVersions(st: Store) {
    forall v :: st.isVersion(v) ==> '@' !in v && '\0' !in v
  }

  /** Where versions are plain and no pipeline holds a NUL, a cached read is not the
      fresh one exactly when the key is cached and the coordinate names no module: it
      is then served another record's answer instead of being refused. */
  lemma CachedReadDiffersIff(st: Store, byKey: map<string, seq<ForeignModule>>, origin: Origins, c: Coord, p: string)
    requires CacheOf(st, byKey, origin) && PlainVersions(st) && '\0' !in p
    requires forall k :: k in origin ==> '\0' !in origin[k].1
    ensures CachedRead(st, byKey, c, p) != ReadOf(st, c, p) <==> Key(c, p) in byKey && !NamesAModule(st, c)
  {
    var k := Key(c, p);
    if k in byKey && NamesAModule(st, c) {
      KeyIsInjective(c, p, origin[k].0, origin[k].1);
    }
  }

  /** A coordinate that names no module is served the answer of one that does. */
  lemma MeetingKeyIsServed(st: Store, a: string, b: string, v: string, p: string)
    requires b != [] && ReadOf(st, Coord(a + "@" + b, v), p).Done? && !st.isVersion(b + "@" + v)
    ensures var first, meets := Coord(a + "@" + b, v), Coord(a, b + "@" + v);
            var byKey := map[Key(first, p) := ReadOf(st, first, p).value];
            && CacheOf(st, byKey, map[Key(first, p) := (first, p)])
            && CachedRead(st, byKey, meets, p) == ReadOf(st, first, p) && ReadOf(st, meets, p) == Refused(meets, false)
  {
    KeysCanMeet(a, b, v, p);
  }

  function AskedFor(ref: EdgeRef): (Coord, string) {
    (RecordOf(ref), ref.pipeline)
  }

  function KeyOf(ref: EdgeRef): string {
    Key(RecordOf(ref), ref.pipeline)
  }

  /** No two of the edges ask for different records under one key. */
  ghost predicate KeysApart(refs: seq<EdgeRef>) {
    forall r, s :: r in refs && s in refs && KeyOf(r) == KeyOf(s) ==> AskedFor(r) == AskedFor(s)
  }

  /** Nor does one meet a key cached for another record. */
  ghost predicate Fits(origin: Origins, refs: seq<EdgeRef>) {
    KeysApart(refs) && forall r :: r in refs && KeyOf(r) in origin ==> origin[KeyOf(r)] == AskedFor(r)
  }

  /** More keys cached, and none for another record than before. */
  ghost predicate Extends(more: Origins, origin: Origins) {
    forall k :: k in origin ==> k in more && more[k] == origin[k]
  }

  /** An answer got through the cache is what that cache, however it grows, answers. */
  lemma ReadStands(st: Store, byKey: map<string, seq<ForeignModule>>, origin: Origins, ref: EdgeRef, more: Origins)
    requires CacheOf(st, byKey, origin)
    requires var mods := CachedRead(st, byKey, RecordOf(ref), ref.pipeline);
             && mods.Done?
             && Extends(more, if KeyOf(ref) in byKey then origin else origin[KeyOf(ref) := AskedFor(ref)])
    ensures Extends(more, origin) && Through(st, more)(ref) == CachedRead(st, byKey, RecordOf(ref), ref.pipeline)
  {
    assert KeyOf(ref) in more;
    assert forall k :: k in origin ==> k in byKey;
  }

  lemma ExtendsOn(more: Origins, origin: Origins, before: Origins)
    requires Extends(more, origin) && Extends(origin, before)
    ensures Extends(more, before)
  {
  }

  /** Only keys of these edges were added, each for the record it was asked for. */
  ghost predicate AskedOnly(before: Origins, after: Origins, refs: seq<EdgeRef>) {
    && Extends(after, before)
    && forall k :: k in after ==> k in before || exists r :: r in refs && KeyOf(r) == k && AskedFor(r) == after[k]
  }

  lemma AskedOne(before: Origins, origin: Origins, refs: seq<EdgeRef>, ref: EdgeRef)
    requires AskedOnly(before, origin, refs) && ref in refs && KeyOf(ref) !in origin
    ensures AskedOnly(before, origin[KeyOf(ref) := AskedFor(ref)], refs)
  {
  }

  /** Where no two records share a key, reading through the cache is reading afresh. */
  lemma FreshWhereItFits(st: Store, before: Origins, after: Origins, refs: seq<EdgeRef>)
    requires Fits(before, refs) && AskedOnly(before, after, refs)
    ensures Agree(Through(st, after), Fresh(st), refs)
  {
    forall r | r in refs && KeyOf(r) in after
      ensures after[KeyOf(r)] == AskedFor(r)
    {
      if KeyOf(r) !in before {
        var s :| s in refs && KeyOf(s) == KeyOf(r) && AskedFor(s) == after[KeyOf(r)];
      }
    }
  }

  ghost predicate Agree(one: Reader, other: Reader, refs: seq<EdgeRef>) {
    forall r :: r in refs ==> one(r) == other(r)
  }

  /** Keys are apart where the edges' versions hold neither '@' nor NUL and their
      pipelines no NUL; or where their paths hold no '@' and their versions no NUL. */
  lemma KeyedAreApart(refs: seq<EdgeRef>)
    requires (forall r :: r in refs ==> Keyed(RecordOf(r), r.pipeline))
          || (forall r :: r in refs ==> Plain(r.module_) && '\0' !in r.version)
    ensures KeysApart(refs) && Fits(map[], refs)
  {
    forall r, s | r in refs && s in refs && KeyOf(r) == KeyOf(s)
      ensures AskedFor(r) == AskedFor(s)
    {
      if Keyed(RecordOf(r), r.pipeline) && Keyed(RecordOf(s), s.pipeline) {
        KeyIsInjective(RecordOf(r), r.pipeline, RecordOf(s), s.pipeline);
      } else {
        PlainKeyIsInjective(RecordOf(r), r.pipeline, RecordOf(s), s.pipeline);
      }
    }
  }

  // ---- which module a node belongs to ----

  predicate Owns(m: ForeignModule, id: string) {
    m.0 != "" && m.0 <= id && |id| > |m.0| && (id[|m.0|] == '.' || id[|m.0|] == '/')
  }

  /** The first of the modules whose path the node id continues. */
  function ForeignModuleOwning(mods: seq<ForeignModule>, id: string): (r: Option<ForeignModule>)
    ensures r.None? <==> forall m :: m in mods ==> !Owns(m, id)
    ensures r.Some? ==> r.value in mods && Owns(r.value, id)
  {
    if mods == [] then None
    else if Owns(mods[0], id) then Some(mods[0])
    else
      assert mods == [mods[0]] + mods[1..];
      ForeignModuleOwning(mods[1..], id)
  }

  lemma PrefixIsLess(a: string, b: string)
    requires a <= b && a != b
    ensures StrLess(a, b)
  {
    if a != [] {
      PrefixIsLess(a[1..], b[1..]);
    }
  }

  /** Of two owners of one id, the one with the shorter path comes first. */
  lemma ShorterIsLess(a: ForeignModule, b: ForeignModule, id: string)
    requires Owns(a, id) && Owns(b, id) && |a.0| < |b.0|
    ensures PairLess(a, b) && !PairLess(b, a)
  {
    assert a.0 == id[..|a.0|] && b.0 == id[..|b.0|];
    PrefixIsLess(a.0, b.0);
    StrConnected(a.0, b.0);
  }

  /** The column is kept in order, so of nested modules the outer one is named: no
      owner has a shorter path. */
  lemma {:induction false} ShortestOwnerIsNamed(mods: seq<ForeignModule>, id: string, m: ForeignModule)
    requires Ascending(mods, PairLess) && m in mods && Owns(m, id)
    ensures ForeignModuleOwning(mods, id).Some? && |ForeignModuleOwning(mods, id).value.0| <= |m.0|
  {
    var i :| 0 <= i < |mods| && mods[i] == m;
    if Owns(mods[0], id) {
      assert i == 0 || PairLess(mods[0], m);
      if |m.0| < |mods[0].0| {
        ShorterIsLess(m, mods[0], id);
      }
    } else {
      assert mods[1..][i - 1] == m;
      ShortestOwnerIsNamed(mods[1..], id, m);
    }
  }

  /** So the module named is the innermost owner exactly when no owner is nested in
      another: when all that own the id share one path. */
  lemma InnermostIsNamedIff(mods: seq<ForeignModule>, id: string)
    requires Ascending(mods, PairLess) && exists m :: m in mods && Owns(m, id)
    ensures (forall m :: m in mods && Owns(m, id) ==> |m.0| <= |ForeignModuleOwning(mods, id).value.0|) <==>
              forall m, k :: m in mods && k in mods && Owns(m, id) && Owns(k, id) ==> m.0 == k.0
  {
    var named := ForeignModuleOwning(mods, id).value;
    forall m | m in mods && Owns(m, id)
      ensures |named.0| <= |m.0| && m.0 == id[..|m.0|]
    {
      ShortestOwnerIsNamed(mods, id, m);
    }
  }

  /** A package of a module nested in another foreign module is put down to the outer
      one. */
  lemma NestedModuleIsPassedOver(outer: string, rest: string, name: string, v: string, w: string)
    requires outer != ""
    ensures var inner := outer + "/" + rest;
            var mods, id := [(outer, v), (inner, w)], inner + "." + name;
            && Ascending(mods, PairLess) && Owns((inner, w), id)
            && ForeignModuleOwning(mods, id) == Some((outer, v))
  {
    var inner := outer + "/" + rest;
    var id := inner + "." + name;
    assert id[|outer|] == '/' && id[|inner|] == '.';
    assert outer <= inner && inner <= id && outer <= id;
    PrefixIsLess(outer, inner);
  }

  // ---- the draw ----

  /** The end of an edge the answer is a list of. */
  function Answered(ref: EdgeRef, callerSide: bool): string {
    if callerSide then ref.fromID else ref.toID
  }

  /** A row's foreign module and the record that holds it. */
  type Holding = (ForeignModule, string)

  /** What a read of an edge's record answers. */
  type Reader = EdgeRef -> Attempt<seq<ForeignModule>>

  /** Every record read afresh. */
  function Fresh(st: Store): Reader {
    ref => ReadOf(st, RecordOf(ref), ref.pipeline)
  }

  /** Every record read as the one its key was first asked for under. */
  ghost function Through(st: Store, origin: Origins): Reader {
    ref => if KeyOf(ref) in origin then ReadOf(st, origin[KeyOf(ref)].0, origin[KeyOf(ref)].1)
           else ReadOf(st, RecordOf(ref), ref.pipeline)
  }

  function HoldingIn(mods: seq<ForeignModule>, ref: EdgeRef, id: string): Option<Holding> {
    match ForeignModuleOwning(mods, id)
    case None => None
    case Some(m) => Some((m, Label(RecordOf(ref))))
  }

  function HoldingOf(read: Reader, ref: EdgeRef, id: string): Attempt<Option<Holding>> {
    match read(ref)
    case Refused(c, named) => Refused(c, named)
    case Done(mods) => Done(HoldingIn(mods, ref, id))
  }

  datatype Tally = Tally(rows: nat, modules: set<ForeignModule>, holders: set<string>)

  function Count(t: Tally, h: Option<Holding>): Tally {
    if h.None? then t else Tally(t.rows + 1, t.modules + {h.value.0}, t.holders + {h.value.1})
  }

  /** Every edge in turn, each record read afresh; the first refusal answers. */
  function EdgeTally(read: Reader, refs: seq<EdgeRef>, callerSide: bool): Attempt<Tally> {
    if refs == [] then Done(Tally(0, {}, {}))
    else
      var n := |refs| - 1;
      match EdgeTally(read, refs[..n], callerSide)
      case Refused(c, named) => Refused(c, named)
      case Done(t) =>
        match HoldingOf(read, refs[n], Answered(refs[n], callerSide))
        case Refused(c, named) => Refused(c, named)
        case Done(h) => Done(Count(t, h))
  }

  /** The first edge answering with id whose record says id is foreign, scanning
      every edge; a refusal met before it answers instead. */
  function FirstHolding(read: Reader, edges: seq<EdgeRef>, id: string, callerSide: bool): Attempt<Option<Holding>> {
    if edges == [] then Done(None)
    else
      var n := |edges| - 1;
      var before := FirstHolding(read, edges[..n], id, callerSide);
      if before != Done(None) || Answered(edges[n], callerSide) != id then before else HoldingOf(read, edges[n], id)
  }

  function NodeTally(read: Reader, edges: seq<EdgeRef>, nodes: seq<string>, callerSide: bool): Attempt<Tally> {
    if nodes == [] then Done(Tally(0, {}, {}))
    else
      var n := |nodes| - 1;
      match NodeTally(read, edges, nodes[..n], callerSide)
      case Refused(c, named) => Refused(c, named)
      case Done(t) =>
        match FirstHolding(read, edges, nodes[n], callerSide)
        case Refused(c, named) => Refused(c, named)
        case Done(h) => Done(Count(t, h))
  }

  datatype Draw = Draw(rows: nat, total: nat, modules: seq<ForeignModule>, holders: seq<string>)

  /** A draw states a tally, each set once in order. */
  ghost predicate States(d: Draw, t: Tally, total: nat) {
    && d.rows == t.rows && d.total == total
    && Ascending(d.modules, PairLess) && (forall m :: m in d.modules <==> m in t.modules)
    && Ascending(d.holders, StrLess) && (forall h :: h in d.holders <==> h in t.holders)
  }

  ghost predicate Answers(d: Attempt<Draw>, t: Attempt<Tally>, total: nat) {
    match t
    case Refused(c, named) => d == Refused(c, named)
    case Done(tally) => d.Done? && States(d.value, tally, total)
  }

  /** The distinct elements of a set in order, however the set is walked. */
  method Sorted<T(==, !new)>(s: set<T>, less: (T, T) -> bool) returns (out: seq<T>)
    requires StrictOrder(less)
    ensures Ascending(out, less) && forall x :: x in out <==> x in s
  {
    var todo, listed := s, [];
    while todo != {}
      invariant todo <= s && Distinct(listed)
      invariant forall x :: x in listed <==> x in s - todo
    {
      var x :| x in todo;
      assert x !in listed;
      listed, todo := listed + [x], todo - {x};
    }
    SortAscends(listed, less);
    out := Sort(listed, less);
  }

  method Render(t: Tally, total: nat) returns (d: Draw)
    ensures States(d, t, total)
  {
    PairLessIsStrict();
    StrLessIsStrict();
    var modules := Sorted(t.modules, PairLess);
    var holders := Sorted(t.holders, StrLess);
    d := Draw(t.rows, total, modules, holders);
  }

  /** The tally of the first n edges, however the cache grows. */
  ghost predicate EdgesSettle(st: Store, origin: Origins, refs: seq<EdgeRef>, n: nat, callerSide: bool, t: Tally)
    requires n <= |refs|
  {
    forall more :: Extends(more, origin) ==> EdgeTally(Through(st, more), refs[..n], callerSide) == Done(t)
  }

  lemma EdgesSettleStep(ix: ForeignModuleIndex, byKey: map<string, seq<ForeignModule>>, origin: Origins,
                        refs: seq<EdgeRef>, i: nat, callerSide: bool, t: Tally, mods: seq<ForeignModule>)
    requires CacheOf(ix.store, byKey, origin) && i < |refs| && EdgesSettle(ix.store, origin, refs, i, callerSide, t)
    requires CachedRead(ix.store, byKey, RecordOf(refs[i]), refs[i].pipeline) == Done(mods)
    requires ix.origin == if KeyOf(refs[i]) in byKey then origin else origin[KeyOf(refs[i]) := AskedFor(refs[i])]
    ensures EdgesSettle(ix.store, ix.origin, refs, i + 1, callerSide, Count(t, HoldingIn(mods, refs[i], Answered(refs[i], callerSide))))
  {
    forall more | Extends(more, ix.origin)
      ensures EdgeTally(Through(ix.store, more), refs[..i + 1], callerSide)
           == Done(Count(t, HoldingIn(mods, refs[i], Answered(refs[i], callerSide))))
    {
      ReadStands(ix.store, byKey, origin, refs[i], more);
      EdgeTallyStep(Through(ix.store, more), refs, i, callerSide);
    }
  }

  lemma {:induction false} EdgesAgree(one: Reader, other: Reader, refs: seq<EdgeRef>, callerSide: bool)
    requires Agree(one, other, refs)
    ensures EdgeTally(one, refs, callerSide) == EdgeTally(other, refs, callerSide)
  {
    if refs != [] {
      var n := |refs| - 1;
      assert refs[n] in refs;
      EdgesAgree(one, other, refs[..n], callerSide);
    }
  }

  /** Every record is read as the one its key was first asked for under: afresh, where
      no two of them share a key. */
  method ForeignDrawOfEdges(ix: ForeignModuleIndex, refs: seq<EdgeRef>, callerSide: bool) returns (d: Attempt<Draw>)
    requires ix.Valid()
    modifies ix
    ensures ix.Valid() && AskedOnly(old(ix.origin), ix.origin, refs)
    ensures Answers(d, EdgeTally(Through(ix.store, ix.origin), refs, callerSide), |refs|)
    ensures Fits(old(ix.origin), refs) ==> Answers(d, EdgeTally(Fresh(ix.store), refs, callerSide), |refs|)
  {
    var t := Tally(0, {}, {});
    for i := 0 to |refs|
      invariant ix.Valid() && AskedOnly(old(ix.origin), ix.origin, refs)
      invariant EdgesSettle(ix.store, ix.origin, refs, i, callerSide, t)
    {
      var ref := refs[i];
      ghost var byKey, origin := ix.byKey, ix.origin;
      var mods := ix.ForRecord(RecordOf(ref), ref.pipeline);
      if mods.Refused? {
        EdgeTallyStep(Through(ix.store, origin), refs, i, callerSide);
        EdgesFresh(ix.store, old(ix.origin), origin, refs, callerSide);
        return Refused(mods.at, mods.named);
      }
      if KeyOf(ref) !in origin {
        AskedOne(old(ix.origin), origin, refs, ref);
      }
      EdgesSettleStep(ix, byKey, origin, refs, i, callerSide, t, mods.value);
      if mods.value == [] {
        continue;
      }
      var fm := ForeignModuleOwning(mods.value, Answered(ref, callerSide));
      if fm.None? {
        continue;
      }
      t := Tally(t.rows + 1, t.modules + {fm.value}, t.holders + {Label(RecordOf(ref))});
    }
    assert refs[..|refs|] == refs;
    EdgesFresh(ix.store, old(ix.origin), ix.origin, refs, callerSide);
    var draw := Render(t, |refs|);
    d := Done(draw);
  }

  lemma EdgesFresh(st: Store, before: Origins, after: Origins, refs: seq<EdgeRef>, callerSide: bool)
    requires AskedOnly(before, after, refs)
    ensures Fits(before, refs) ==>
              EdgeTally(Through(st, after), refs, callerSide) == EdgeTally(Fresh(st), refs, callerSide)
  {
    if Fits(before, refs) {
      FreshWhereItFits(st, before, after, refs);
      EdgesAgree(Through(st, after), Fresh(st), refs, callerSide);
    }
  }

  lemma EdgeTallyStep(read: Reader, refs: seq<EdgeRef>, i: nat, callerSide: bool)
    requires i < |refs| && EdgeTally(read, refs[..i], callerSide).Done?
    ensures var h := HoldingOf(read, refs[i], Answered(refs[i], callerSide));
            && (h.Done? ==> EdgeTally(read, refs[..i + 1], callerSide) ==
                              Done(Count(EdgeTally(read, refs[..i], callerSide).value, h.value)))
            && (h.Refused? ==> EdgeTally(read, refs, callerSide) == Refused(h.at, h.named))
  {
    assert refs[..i + 1][..i] == refs[..i];
    if EdgeTally(read, refs[..i + 1], callerSide).Refused? {
      EdgeRefusalStays(read, refs, i + 1, callerSide);
    }
  }

  lemma {:induction false} EdgeRefusalStays(read: Reader, refs: seq<EdgeRef>, i: nat, callerSide: bool)
    requires i <= |refs| && EdgeTally(read, refs[..i], callerSide).Refused?
    ensures EdgeTally(read, refs, callerSide) == EdgeTally(read, refs[..i], callerSide)
  {
    if i < |refs| {
      var n := |refs| - 1;
      assert refs[..n][..i] == refs[..i];
      EdgeRefusalStays(read, refs[..n], i, callerSide);
    } else {
      assert refs[..i] == refs;
    }
  }

  function EdgesOf(edges: seq<EdgeRef>, id: string, callerSide: bool): seq<EdgeRef> {
    Filter(edges, (ref: EdgeRef) => Answered(ref, callerSide) == id)
  }

  ghost predicate Indexes(byNode: map<string, seq<EdgeRef>>, edges: seq<EdgeRef>, callerSide: bool) {
    forall id :: EdgesOf(edges, id, callerSide) == if id in byNode then byNode[id] else []
  }

  /** The edges that answer with each node, in the order the answer lists them. */
  method ByNode(edges: seq<EdgeRef>, callerSide: bool) returns (byNode: map<string, seq<EdgeRef>>)
    ensures Indexes(byNode, edges, callerSide)
  {
    byNode := map[];
    for i := 0 to |edges|
      invariant Indexes(byNode, edges[..i], callerSide)
    {
      var id := Answered(edges[i], callerSide);
      IndexesStep(byNode, edges, i, callerSide);
      byNode := byNode[id := (if id in byNode then byNode[id] else []) + [edges[i]]];
    }
    assert edges[..|edges|] == edges;
  }

  lemma IndexesStep(byNode: map<string, seq<EdgeRef>>, edges: seq<EdgeRef>, i: nat, callerSide: bool)
    requires i < |edges| && Indexes(byNode, edges[..i], callerSide)
    ensures var id := Answered(edges[i], callerSide);
            Indexes(byNode[id := (if id in byNode then byNode[id] else []) + [edges[i]]], edges[..i + 1], callerSide)
  {
    EdgesOfStep(edges, i, callerSide);
  }

  lemma EdgesOfStep(edges: seq<EdgeRef>, i: nat, callerSide: bool)
    requires i < |edges|
    ensures forall id :: EdgesOf(edges[..i + 1], id, callerSide) ==
                           EdgesOf(edges[..i], id, callerSide) + if Answered(edges[i], callerSide) == id then [edges[i]] else []
  {
    forall id
      ensures EdgesOf(edges[..i + 1], id, callerSide) ==
                EdgesOf(edges[..i], id, callerSide) + if Answered(edges[i], callerSide) == id then [edges[i]] else []
    {
      FilterStep(edges, i, (ref: EdgeRef) => Answered(ref, callerSide) == id);
    }
  }

  /** Scanning a node's own edges finds what scanning every edge finds. */
  lemma {:induction false} OwnEdgesSuffice(read: Reader, edges: seq<EdgeRef>, id: string, callerSide: bool)
    ensures FirstHolding(read, EdgesOf(edges, id, callerSide), id, callerSide) == FirstHolding(read, edges, id, callerSide)
  {
    if edges != [] {
      var n := |edges| - 1;
      OwnEdgesSuffice(read, edges[..n], id, callerSide);
      var own := EdgesOf(edges[..n], id, callerSide);
      if Answered(edges[n], callerSide) == id {
        assert EdgesOf(edges, id, callerSide) == own + [edges[n]];
        assert (own + [edges[n]])[..|own|] == own;
      } else {
        assert EdgesOf(edges, id, callerSide) == own;
      }
    }
  }

  /** What n of a node's own edges say, however the cache grows. */
  ghost predicate OwnSettles(st: Store, origin: Origins, own: seq<EdgeRef>, n: nat, id: string, callerSide: bool, h: Option<Holding>)
    requires n <= |own|
  {
    forall more :: Extends(more, origin) ==> FirstHolding(Through(st, more), own[..n], id, callerSide) == Done(h)
  }

  lemma OwnSettlesStep(ix: ForeignModuleIndex, byKey: map<string, seq<ForeignModule>>, origin: Origins,
                       own: seq<EdgeRef>, i: nat, id: string, callerSide: bool, mods: seq<ForeignModule>)
    requires CacheOf(ix.store, byKey, origin) && i < |own| && OwnSettles(ix.store, origin, own, i, id, callerSide, None)
    requires CachedRead(ix.store, byKey, RecordOf(own[i]), own[i].pipeline) == Done(mods) && Answered(own[i], callerSide) == id
    requires ix.origin == if KeyOf(own[i]) in byKey then origin else origin[KeyOf(own[i]) := AskedFor(own[i])]
    ensures var h := HoldingIn(mods, own[i], id);
            && OwnSettles(ix.store, ix.origin, own, i + 1, id, callerSide, h)
            && (h.Some? ==> OwnSettles(ix.store, ix.origin, own, |own|, id, callerSide, h))
  {
    assert own[..i + 1][..i] == own[..i] && own[..|own|] == own;
    forall more | Extends(more, ix.origin)
      ensures var h := HoldingIn(mods, own[i], id);
              && FirstHolding(Through(ix.store, more), own[..i + 1], id, callerSide) == Done(h)
              && (h.Some? ==> FirstHolding(Through(ix.store, more), own[..|own|], id, callerSide) == Done(h))
    {
      ReadStands(ix.store, byKey, origin, own[i], more);
      if HoldingIn(mods, own[i], id).Some? {
        FirstHoldingStays(Through(ix.store, more), own, i + 1, id, callerSide);
      }
    }
  }

  lemma OwnRefuses(st: Store, origin: Origins, own: seq<EdgeRef>, i: nat, id: string, callerSide: bool, at: Coord, named: bool)
    requires i < |own| && OwnSettles(st, origin, own, i, id, callerSide, None) && Answered(own[i], callerSide) == id
    requires Through(st, origin)(own[i]) == Refused(at, named)
    ensures FirstHolding(Through(st, origin), own, id, callerSide) == Refused(at, named)
  {
    assert own[..i + 1][..i] == own[..i];
    assert Extends(origin, origin);
    FirstHoldingStays(Through(st, origin), own, i + 1, id, callerSide);
  }

  /** The inner loop of ForeignDrawOfNodes, which stops at the first edge that
      says the node is foreign. */
  method FirstOf(ix: ForeignModuleIndex, own: seq<EdgeRef>, id: string, callerSide: bool, ghost edges: seq<EdgeRef>)
    returns (h: Attempt<Option<Holding>>)
    requires ix.Valid() && forall i :: 0 <= i < |own| ==> own[i] in edges && Answered(own[i], callerSide) == id
    modifies ix
    ensures ix.Valid() && AskedOnly(old(ix.origin), ix.origin, edges)
    ensures h.Done? ==> OwnSettles(ix.store, ix.origin, own, |own|, id, callerSide, h.value)
    ensures h.Refused? ==> h == FirstHolding(Through(ix.store, ix.origin), own, id, callerSide)
  {
    for i := 0 to |own|
      invariant ix.Valid() && AskedOnly(old(ix.origin), ix.origin, edges)
      invariant OwnSettles(ix.store, ix.origin, own, i, id, callerSide, None)
    {
      var ref := own[i];
      ghost var byKey, origin := ix.byKey, ix.origin;
      var mods := ix.ForRecord(RecordOf(ref), ref.pipeline);
      if mods.Refused? {
        OwnRefuses(ix.store, origin, own, i, id, callerSide, mods.at, mods.named);
        return Refused(mods.at, mods.named);
      }
      if KeyOf(ref) !in origin {
        AskedOne(old(ix.origin), origin, edges, ref);
      }
      OwnSettlesStep(ix, byKey, origin, own, i, id, callerSide, mods.value);
      var fm := ForeignModuleOwning(mods.value, id);
      if fm.Some? {
        return Done(Some((fm.value, Label(RecordOf(ref)))));
      }
    }
    h := Done(None);
  }

  lemma {:induction false} FirstHoldingStays(read: Reader, edges: seq<EdgeRef>, i: nat, id: string, callerSide: bool)
    requires i <= |edges| && FirstHolding(read, edges[..i], id, callerSide) != Done(None)
    ensures FirstHolding(read, edges, id, callerSide) == FirstHolding(read, edges[..i], id, callerSide)
  {
    if i < |edges| {
      var n := |edges| - 1;
      assert edges[..n][..i] == edges[..i];
      FirstHoldingStays(read, edges[..n], i, id, callerSide);
    } else {
      assert edges[..i] == edges;
    }
  }

  ghost predicate NodesSettle(st: Store, origin: Origins, edges: seq<EdgeRef>, nodes: seq<string>, n: nat, callerSide: bool, t: Tally)
    requires n <= |nodes|
  {
    forall more :: Extends(more, origin) ==> NodeTally(Through(st, more), edges, nodes[..n], callerSide) == Done(t)
  }

  lemma NodesSettleStep(st: Store, origin: Origins, after: Origins,
                        edges: seq<EdgeRef>, nodes: seq<string>, i: nat, callerSide: bool, t: Tally, h: Option<Holding>)
    requires i < |nodes| && NodesSettle(st, origin, edges, nodes, i, callerSide, t) && Extends(after, origin)
    requires var own := EdgesOf(edges, nodes[i], callerSide);
             OwnSettles(st, after, own, |own|, nodes[i], callerSide, h)
    ensures NodesSettle(st, after, edges, nodes, i + 1, callerSide, Count(t, h))
  {
    var own := EdgesOf(edges, nodes[i], callerSide);
    assert own[..|own|] == own;
    forall more | Extends(more, after)
      ensures NodeTally(Through(st, more), edges, nodes[..i + 1], callerSide) == Done(Count(t, h))
    {
      ExtendsOn(more, after, origin);
      OwnEdgesSuffice(Through(st, more), edges, nodes[i], callerSide);
      NodeTallyStep(Through(st, more), edges, nodes, i, callerSide);
    }
  }

  lemma {:induction false} HoldingsAgree(one: Reader, other: Reader, edges: seq<EdgeRef>, id: string, callerSide: bool)
    requires Agree(one, other, edges)
    ensures FirstHolding(one, edges, id, callerSide) == FirstHolding(other, edges, id, callerSide)
  {
    if edges != [] {
      var n := |edges| - 1;
      assert edges[n] in edges;
      HoldingsAgree(one, other, edges[..n], id, callerSide);
    }
  }

  lemma {:induction false} NodesAgree(one: Reader, other: Reader, edges: seq<EdgeRef>, nodes: seq<string>, callerSide: bool)
    requires Agree(one, other, edges)
    ensures NodeTally(one, edges, nodes, callerSide) == NodeTally(other, edges, nodes, callerSide)
  {
    if nodes != [] {
      var n := |nodes| - 1;
      HoldingsAgree(one, other, edges, nodes[n], callerSide);
      NodesAgree(one, other, edges, nodes[..n], callerSide);
    }
  }

  lemma NodesFresh(st: Store, before: Origins, after: Origins,
                   edges: seq<EdgeRef>, nodes: seq<string>, callerSide: bool)
    requires AskedOnly(before, after, edges)
    ensures Fits(before, edges) ==>
              NodeTally(Through(st, after), edges, nodes, callerSide) == NodeTally(Fresh(st), edges, nodes, callerSide)
  {
    if Fits(before, edges) {
      FreshWhereItFits(st, before, after, edges);
      NodesAgree(Through(st, after), Fresh(st), edges, nodes, callerSide);
    }
  }

  /** As for edges: read afresh, where no two records share a key. */
  method ForeignDrawOfNodes(ix: ForeignModuleIndex, edges: seq<EdgeRef>, nodes: seq<string>, callerSide: bool)
    returns (d: Attempt<Draw>)
    requires ix.Valid()
    modifies ix
    ensures ix.Valid() && AskedOnly(old(ix.origin), ix.origin, edges)
    ensures Answers(d, NodeTally(Through(ix.store, ix.origin), edges, nodes, callerSide), |nodes|)
    ensures Fits(old(ix.origin), edges) ==> Answers(d, NodeTally(Fresh(ix.store), edges, nodes, callerSide), |nodes|)
  {
    var byNode := ByNode(edges, callerSide);
    var t := Tally(0, {}, {});
    for i := 0 to |nodes|
      invariant ix.Valid() && AskedOnly(old(ix.origin), ix.origin, edges)
      invariant NodesSettle(ix.store, ix.origin, edges, nodes, i, callerSide, t)
    {
      var id := nodes[i];
      var own := if id in byNode then byNode[id] else [];
      assert own == EdgesOf(edges, id, callerSide);
      OwnEdges(edges, id, callerSide);
      ghost var origin := ix.origin;
      var h := FirstOf(ix, own, id, callerSide, edges);
      AskedOnwards(old(ix.origin), origin, ix.origin, edges);
      if h.Refused? {
        OwnEdgesSuffice(Through(ix.store, ix.origin), edges, id, callerSide);
        NodeTallyStep(Through(ix.store, ix.origin), edges, nodes, i, callerSide);
        NodesFresh(ix.store, old(ix.origin), ix.origin, edges, nodes, callerSide);
        return Refused(h.at, h.named);
      }
      NodesSettleStep(ix.store, origin, ix.origin, edges, nodes, i, callerSide, t, h.value);
      t := Count(t, h.value);
    }
    assert nodes[..|nodes|] == nodes;
    NodesFresh(ix.store, old(ix.origin), ix.origin, edges, nodes, callerSide);
    var draw := Render(t, |nodes|);
    d := Done(draw);
  }

  lemma AskedOnwards(before: Origins, origin: Origins, after: Origins, refs: seq<EdgeRef>)
    requires AskedOnly(before, origin, refs) && AskedOnly(origin, after, refs)
    ensures AskedOnly(before, after, refs)
  {
  }

  lemma OwnEdges(edges: seq<EdgeRef>, id: string, callerSide: bool)
    ensures var own := EdgesOf(edges, id, callerSide);
            forall i :: 0 <= i < |own| ==> own[i] in edges && Answered(own[i], callerSide) == id
  {
    var own := EdgesOf(edges, id, callerSide);
    forall i | 0 <= i < |own|
      ensures own[i] in edges && Answered(own[i], callerSide) == id
    {
      InFilter(edges, (ref: EdgeRef) => Answered(ref, callerSide) == id, own[i]);
    }
  }

  lemma NodeTallyStep(read: Reader, edges: seq<EdgeRef>, nodes: seq<string>, i: nat, callerSide: bool)
    requires i < |nodes| && NodeTally(read, edges, nodes[..i], callerSide).Done?
    ensures var h := FirstHolding(read, edges, nodes[i], callerSide);
            && (h.Done? ==> NodeTally(read, edges, nodes[..i + 1], callerSide) ==
                              Done(Count(NodeTally(read, edges, nodes[..i], callerSide).value, h.value)))
            && (h.Refused? ==> NodeTally(read, edges, nodes, callerSide) == Refused(h.at, h.named))
  {
    assert nodes[..i + 1][..i] == nodes[..i];
    if NodeTally(read, edges, nodes[..i + 1], callerSide).Refused? {
      NodeRefusalStays(read, edges, nodes, i + 1, callerSide);
    }
  }

  lemma {:induction false} NodeRefusalStays(read: Reader, edges: seq<EdgeRef>, nodes: seq<string>, i: nat, callerSide: bool)
    requires i <= |nodes| && NodeTally(read, edges, nodes[..i], callerSide).Refused?
    ensures NodeTally(read, edges, nodes, callerSide) == NodeTally(read, edges, nodes[..i], callerSide)
  {
    if i < |nodes| {
      var n := |nodes| - 1;
      assert nodes[..n][..i] == nodes[..i];
      NodeRefusalStays(read, edges, nodes[..n], i, callerSide);
    } else {
      assert nodes[..i] == nodes;
    }
  }

  // ---- which rows a draw counts ----

  /** The id is a name of the module at this path, or lies in one of its packages. */
  ghost predicate Continues(path: string, id: string) {
    path != "" && exists rest: string :: id == path + "." + rest || id == path + "/" + rest
  }

  lemma OwnsIff(m: ForeignModule, id: string)
    ensures Owns(m, id) <==> Continues(m.0, id)
  {
    if Owns(m, id) {
      assert id == m.0 + [id[|m.0|]] + id[|m.0| + 1..];
    }
    if rest: string :| id == m.0 + "." + rest || id == m.0 + "/" + rest {
      assert id[|m.0|] == '.' || id[|m.0|] == '/';
    }
  }

  /** The end of the edge that a callers answer lists is its caller, a callees answer's
      its callee; the row is foreign when a foreign module of its record owns that. */
  ghost predicate RowIsForeign(read: Reader, ref: EdgeRef, callerSide: bool) {
    read(ref).Done? && exists m :: m in read(ref).value && Continues(m.0, if callerSide then ref.fromID else ref.toID)
  }

  /** The first of the record's foreign modules that owns it. */
  ghost predicate RowNames(read: Reader, ref: EdgeRef, callerSide: bool, m: ForeignModule) {
    var id := if callerSide then ref.fromID else ref.toID;
    read(ref).Done? && exists k :: 0 <= k < |read(ref).value| && FirstOwner(read(ref).value, id, k) && read(ref).value[k] == m
  }

  ghost predicate FirstOwner(mods: seq<ForeignModule>, id: string, k: nat)
    requires k < |mods|
  {
    Continues(mods[k].0, id) && forall j :: 0 <= j < k ==> !Continues(mods[j].0, id)
  }

  lemma {:induction false} OwningIsFirst(mods: seq<ForeignModule>, id: string, k: nat)
    requires k < |mods| && FirstOwner(mods, id, k)
    ensures ForeignModuleOwning(mods, id) == Some(mods[k])
  {
    OwnsIff(mods[0], id);
    if k > 0 {
      assert FirstOwner(mods[1..], id, k - 1);
      OwningIsFirst(mods[1..], id, k - 1);
    }
  }

  lemma {:induction false} OwnerIsSome(mods: seq<ForeignModule>, id: string) returns (k: nat)
    requires exists m :: m in mods && Continues(m.0, id)
    ensures k < |mods| && FirstOwner(mods, id, k)
  {
    if Continues(mods[0].0, id) {
      k := 0;
    } else {
      assert mods == [mods[0]] + mods[1..];
      k := OwnerIsSome(mods[1..], id);
      k := k + 1;
    }
  }

  /** A row is counted exactly when it is foreign, under the module it names. */
  lemma HoldingSays(read: Reader, ref: EdgeRef, callerSide: bool)
    requires read(ref).Done?
    ensures var h := HoldingOf(read, ref, Answered(ref, callerSide));
            && h.Done? && (h.value.Some? <==> RowIsForeign(read, ref, callerSide))
            && (h.value.Some? ==> h.value.value.1 == ref.module_ + "@" + ref.version)
            && (forall m :: RowNames(read, ref, callerSide, m) <==> h.value.Some? && h.value.value.0 == m)
  {
    var mods, id := read(ref).value, if callerSide then ref.fromID else ref.toID;
    assert Answered(ref, callerSide) == id;
    if RowIsForeign(read, ref, callerSide) {
      var k := OwnerIsSome(mods, id);
      OwningIsFirst(mods, id, k);
      forall m | RowNames(read, ref, callerSide, m)
        ensures m == mods[k]
      {
        var l :| 0 <= l < |mods| && FirstOwner(mods, id, l) && mods[l] == m;
        OwningIsFirst(mods, id, l);
      }
    } else {
      forall m | m in mods
        ensures !Owns(m, id)
      {
        OwnsIff(m, id);
      }
    }
  }

  ghost function ForeignRows(read: Reader, refs: seq<EdgeRef>, callerSide: bool): nat {
    if refs == [] then 0
    else ForeignRows(read, refs[..|refs| - 1], callerSide) + if RowIsForeign(read, refs[|refs| - 1], callerSide) then 1 else 0
  }

  /** A tally of an edge answer over its fields: the foreign rows, the modules they name
      and the records that hold them. */
  ghost predicate CountsRows(read: Reader, refs: seq<EdgeRef>, callerSide: bool, t: Tally) {
    && t.rows == ForeignRows(read, refs, callerSide)
    && (forall m :: m in t.modules <==> exists ref :: ref in refs && RowNames(read, ref, callerSide, m))
    && (forall h :: h in t.holders <==> exists ref :: ref in refs && RowIsHeld(read, ref, callerSide, h))
  }

  /** A foreign row, held by the record of this name. */
  ghost predicate RowIsHeld(read: Reader, ref: EdgeRef, callerSide: bool, holder: string) {
    RowIsForeign(read, ref, callerSide) && holder == ref.module_ + "@" + ref.version
  }

  lemma {:induction false} EdgeTallyCounts(read: Reader, refs: seq<EdgeRef>, callerSide: bool)
    requires forall ref :: ref in refs ==> read(ref).Done?
    ensures EdgeTally(read, refs, callerSide).Done? && CountsRows(read, refs, callerSide, EdgeTally(read, refs, callerSide).value)
  {
    if refs != [] {
      var n := |refs| - 1;
      EdgeTallyCounts(read, refs[..n], callerSide);
      HoldingSays(read, refs[n], callerSide);
      assert forall ref :: ref in refs <==> ref in refs[..n] || ref == refs[n];
      CountsOneMore(read, refs, callerSide, EdgeTally(read, refs[..n], callerSide).value,
                    HoldingOf(read, refs[n], Answered(refs[n], callerSide)).value);
    }
  }

  lemma CountsOneMore(read: Reader, refs: seq<EdgeRef>, callerSide: bool, t: Tally, h: Option<Holding>)
    requires refs != [] && CountsRows(read, refs[..|refs| - 1], callerSide, t)
    requires var ref := refs[|refs| - 1];
             && (h.Some? <==> RowIsForeign(read, ref, callerSide)) && (h.Some? ==> h.value.1 == ref.module_ + "@" + ref.version)
             && (forall m :: RowNames(read, ref, callerSide, m) <==> h.Some? && h.value.0 == m)
    ensures CountsRows(read, refs, callerSide, Count(t, h))
  {
    var n := |refs| - 1;
    assert forall ref :: ref in refs <==> ref in refs[..n] || ref == refs[n];
    forall m
      ensures m in Count(t, h).modules <==> exists ref :: ref in refs && RowNames(read, ref, callerSide, m)
    {
      assert m in t.modules <==> exists ref :: ref in refs[..n] && RowNames(read, ref, callerSide, m);
      assert RowNames(read, refs[n], callerSide, m) <==> h.Some? && h.value.0 == m;
    }
    forall holder
      ensures holder in Count(t, h).holders <==> exists ref :: ref in refs && RowIsHeld(read, ref, callerSide, holder)
    {
      assert holder in t.holders <==> exists ref :: ref in refs[..n] && RowIsHeld(read, ref, callerSide, holder);
      assert RowIsHeld(read, refs[n], callerSide, holder) <==> h.Some? && h.value.1 == holder;
    }
  }

  /** A refusal is the first one met. */
  lemma {:induction false} EdgeTallyRefuses(read: Reader, refs: seq<EdgeRef>, callerSide: bool, i: nat)
    requires i < |refs| && read(refs[i]).Refused? && forall j :: 0 <= j < i ==> read(refs[j]).Done?
    ensures EdgeTally(read, refs, callerSide) == Refused(read(refs[i]).at, read(refs[i]).named)
  {
    var n := |refs| - 1;
    if i < n {
      EdgeTallyRefuses(read, refs[..n], callerSide, i);
    } else {
      EdgeTallyCounts(read, refs[..n], callerSide);
    }
  }

  /** The i-th edge is the first foreign one that answers with the node. */
  ghost predicate FirstForeign(read: Reader, edges: seq<EdgeRef>, id: string, callerSide: bool, i: int) {
    && 0 <= i < |edges| && AnswersForeign(read, edges[i], id, callerSide)
    && forall j :: 0 <= j < i ==> !AnswersForeign(read, edges[j], id, callerSide)
  }

  ghost predicate AnswersForeign(read: Reader, ref: EdgeRef, id: string, callerSide: bool) {
    (if callerSide then ref.fromID else ref.toID) == id && RowIsForeign(read, ref, callerSide)
  }

  /** What is found for a node: the module and the record its i-th edge says. */
  ghost predicate FoundAt(read: Reader, edges: seq<EdgeRef>, id: string, callerSide: bool, i: int, h: Holding) {
    && FirstForeign(read, edges, id, callerSide, i)
    && RowNames(read, edges[i], callerSide, h.0) && h.1 == edges[i].module_ + "@" + edges[i].version
  }

  ghost predicate FoundFor(read: Reader, edges: seq<EdgeRef>, id: string, callerSide: bool, i: int, h: Option<Holding>) {
    && (h.Some? <==> NodeIsForeign(read, edges, id, callerSide))
    && (h.Some? ==> FoundAt(read, edges, id, callerSide, i, h.value))
  }

  lemma {:induction false} FirstHoldingSays(read: Reader, edges: seq<EdgeRef>, id: string, callerSide: bool) returns (i: int)
    requires forall ref :: ref in edges ==> read(ref).Done?
    ensures var h := FirstHolding(read, edges, id, callerSide);
            h.Done? && FoundFor(read, edges, id, callerSide, i, h.value)
  {
    i := -1;
    if edges != [] {
      var n := |edges| - 1;
      i := FirstHoldingSays(read, edges[..n], id, callerSide);
      assert edges[n] in edges;
      FirstHoldingStep(read, edges, id, callerSide);
      i := FoundOneMore(read, edges, id, callerSide, i, FirstHolding(read, edges[..n], id, callerSide).value,
                        FirstHolding(read, edges, id, callerSide).value);
    }
  }

  lemma FoundOneMore(read: Reader, edges: seq<EdgeRef>, id: string, callerSide: bool, i: int, before: Option<Holding>, h: Option<Holding>) returns (k: int)
    requires edges != [] && FoundFor(read, edges[..|edges| - 1], id, callerSide, i, before)
    requires before.Some? ==> h == before
    requires var n := |edges| - 1;
             before.None? ==>
               && (h.Some? <==> AnswersForeign(read, edges[n], id, callerSide))
               && (h.Some? ==> RowNames(read, edges[n], callerSide, h.value.0) && h.value.1 == edges[n].module_ + "@" + edges[n].version)
    ensures FoundFor(read, edges, id, callerSide, k, h)
  {
    var n := |edges| - 1;
    assert forall ref :: ref in edges <==> ref in edges[..n] || ref == edges[n];
    if before.None? {
      NewlyFound(read, edges, id, callerSide);
      k := n;
    } else {
      assert edges[i] == edges[..n][i];
      k := i;
    }
  }

  lemma FirstHoldingStep(read: Reader, edges: seq<EdgeRef>, id: string, callerSide: bool)
    requires edges != [] && read(edges[|edges| - 1]).Done? && FirstHolding(read, edges[..|edges| - 1], id, callerSide).Done?
    ensures var n := |edges| - 1;
            var before, h := FirstHolding(read, edges[..n], id, callerSide), FirstHolding(read, edges, id, callerSide);
            if before.value.Some? then h == before
            else
              && h.Done? && (h.value.Some? <==> AnswersForeign(read, edges[n], id, callerSide))
              && (h.value.Some? ==> RowNames(read, edges[n], callerSide, h.value.value.0)
                                    && h.value.value.1 == edges[n].module_ + "@" + edges[n].version)
  {
    HoldingSays(read, edges[|edges| - 1], callerSide);
  }

  lemma NewlyFound(read: Reader, edges: seq<EdgeRef>, id: string, callerSide: bool)
    requires edges != [] && !NodeIsForeign(read, edges[..|edges| - 1], id, callerSide)
    ensures var n := |edges| - 1;
            FirstForeign(read, edges, id, callerSide, n) <==> AnswersForeign(read, edges[n], id, callerSide)
  {
    var n := |edges| - 1;
    forall j | 0 <= j < n
      ensures !AnswersForeign(read, edges[j], id, callerSide)
    {
      assert edges[..n][j] == edges[j] && edges[j] in edges[..n];
    }
  }

  ghost predicate NodeIsForeign(read: Reader, edges: seq<EdgeRef>, id: string, callerSide: bool) {
    exists ref :: ref in edges && AnswersForeign(read, ref, id, callerSide)
  }

  ghost function ForeignNodes(read: Reader, edges: seq<EdgeRef>, nodes: seq<string>, callerSide: bool): nat {
    if nodes == [] then 0
    else
      ForeignNodes(read, edges, nodes[..|nodes| - 1], callerSide)
      + if NodeIsForeign(read, edges, nodes[|nodes| - 1], callerSide) then 1 else 0
  }

  /** A tally of a node answer: a node counts when some edge that answers with it is
      foreign, under what the first such edge says. */
  ghost predicate CountsNodes(read: Reader, edges: seq<EdgeRef>, nodes: seq<string>, callerSide: bool, t: Tally) {
    && t.rows == ForeignNodes(read, edges, nodes, callerSide)
    && (forall m :: m in t.modules <==>
          exists id, i :: id in nodes && FirstForeign(read, edges, id, callerSide, i) && RowNames(read, edges[i], callerSide, m))
    && (forall h :: h in t.holders <==>
          exists id, i :: id in nodes && FirstForeign(read, edges, id, callerSide, i)
                          && h == edges[i].module_ + "@" + edges[i].version)
  }

  lemma {:induction false} NodeTallyCounts(read: Reader, edges: seq<EdgeRef>, nodes: seq<string>, callerSide: bool)
    requires forall ref :: ref in edges ==> read(ref).Done?
    ensures var t := NodeTally(read, edges, nodes, callerSide);
            t.Done? && CountsNodes(read, edges, nodes, callerSide, t.value)
  {
    if nodes != [] {
      var n := |nodes| - 1;
      NodeTallyCounts(read, edges, nodes[..n], callerSide);
      var i := FirstHoldingSays(read, edges, nodes[n], callerSide);
      OneMoreNode(read, edges, nodes, callerSide, NodeTally(read, edges, nodes[..n], callerSide).value,
                  FirstHolding(read, edges, nodes[n], callerSide).value, i);
    }
  }

  lemma OneMoreNode(read: Reader, edges: seq<EdgeRef>, nodes: seq<string>, callerSide: bool, t: Tally, h: Option<Holding>, i: int)
    requires nodes != [] && CountsNodes(read, edges, nodes[..|nodes| - 1], callerSide, t)
    requires forall ref :: ref in edges ==> read(ref).Done?
    requires h.Some? <==> NodeIsForeign(read, edges, nodes[|nodes| - 1], callerSide)
    requires h.Some? ==> FoundAt(read, edges, nodes[|nodes| - 1], callerSide, i, h.value)
    ensures CountsNodes(read, edges, nodes, callerSide, Count(t, h))
  {
    var n := |nodes| - 1;
    assert forall id :: id in nodes <==> id in nodes[..n] || id == nodes[n];
    OnlyFirst(read, edges, nodes[n], callerSide, h, i);
  }

  lemma OnlyFirst(read: Reader, edges: seq<EdgeRef>, id: string, callerSide: bool, h: Option<Holding>, i: int)
    requires forall ref :: ref in edges ==> read(ref).Done?
    requires h.Some? <==> NodeIsForeign(read, edges, id, callerSide)
    requires h.Some? ==> FoundAt(read, edges, id, callerSide, i, h.value)
    ensures forall k :: FirstForeign(read, edges, id, callerSide, k) ==> h.Some? && k == i
    ensures h.Some? ==> forall m :: RowNames(read, edges[i], callerSide, m) ==> m == h.value.0
  {
    forall k | FirstForeign(read, edges, id, callerSide, k)
      ensures h.Some? && k == i
    {
      assert edges[k] in edges;
    }
    if h.Some? {
      HoldingSays(read, edges[i], callerSide);
    }
  }

  // ---- what a draw says ----

  /** A tally says foreign in all of its fields or in none. */
  predicate Consistent(t: Tally, total: nat) {
    t.rows <= total && (t.rows > 0 <==> t.modules != {}) && (t.rows > 0 <==> t.holders != {})
  }

  lemma {:induction false} EdgeTallyIsConsistent(read: Reader, refs: seq<EdgeRef>, callerSide: bool)
    ensures EdgeTally(read, refs, callerSide).Done? ==> Consistent(EdgeTally(read, refs, callerSide).value, |refs|)
  {
    if refs != [] {
      EdgeTallyIsConsistent(read, refs[..|refs| - 1], callerSide);
    }
  }

  lemma {:induction false} NodeTallyIsConsistent(read: Reader, edges: seq<EdgeRef>, nodes: seq<string>, callerSide: bool)
    ensures NodeTally(read, edges, nodes, callerSide).Done? ==> Consistent(NodeTally(read, edges, nodes, callerSide).value, |nodes|)
  {
    if nodes != [] {
      NodeTallyIsConsistent(read, edges, nodes[..|nodes| - 1], callerSide);
    }
  }

  /** What an edge or a node list is drawn from is one draw, in which rows are
      counted just when modules and holders are named. */
  lemma DrawIsUnique(d: Draw, e: Draw, t: Tally, total: nat)
    requires States(d, t, total) && States(e, t, total) && Consistent(t, total)
    ensures d == e
    ensures d.rows <= d.total && (d.rows > 0 <==> d.modules != []) && (d.rows > 0 <==> d.holders != [])
  {
    PairLessIsStrict();
    StrLessIsStrict();
    AscendingIsUnique(d.modules, e.modules, PairLess);
    AscendingIsUnique(d.holders, e.holders, StrLess);
    if t.modules != {} {
      var m :| m in t.modules;
      assert m in d.modules;
    } else {
      AscendingIsUnique(d.modules, [], PairLess);
    }
    if t.holders != {} {
      var h :| h in t.holders;
      assert h in d.holders;
    } else {
      AscendingIsUnique(d.holders, [], StrLess);
    }
  }

  /** Where every record reads, a node counts when any edge that answers with it
      says it is foreign. */
  lemma {:induction false} AnyEdgeIsEnough(read: Reader, edges: seq<EdgeRef>, id: string, callerSide: bool)
    requires forall i :: 0 <= i < |edges| ==> HoldingOf(read, edges[i], id).Done?
    ensures var h := FirstHolding(read, edges, id, callerSide);
            && h.Done?
            && (h.value.Some? <==> exists ref :: ref in edges && SaysForeign(read, ref, id, callerSide))
  {
    if edges != [] {
      var n := |edges| - 1;
      AnyEdgeIsEnough(read, edges[..n], id, callerSide);
      assert forall ref :: ref in edges <==> ref in edges[..n] || ref == edges[n];
      assert HoldingOf(read, edges[n], id).Done?;
      assert SaysForeign(read, edges[n], id, callerSide) <==>
             Answered(edges[n], callerSide) == id && HoldingOf(read, edges[n], id).value.Some?;
    }
  }

  predicate SaysForeign(read: Reader, ref: EdgeRef, id: string, callerSide: bool) {
    Answered(ref, callerSide) == id && HoldingOf(read, ref, id).Done? && HoldingOf(read, ref, id).value.Some?
  }
}
