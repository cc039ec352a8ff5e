/** A YAML document as a tree of values: what `config set` writes and what its
    readers see, with the laws that make the pair a lens. */
module YamlTree {
  import opened Wrappers

  datatype Kind = Document | Sequence | Mapping | Scalar | Alias | Zero

  /** A mapping's content alternates keys and values. */
  datatype Yaml = Yaml(kind: Kind, tag: string, value: string, headComment: string, content: seq<Yaml>)

  type Path = seq<string>

  /** Position of the first pair with this key, at or after i, or -1. */
  function FindFrom(content: seq<Yaml>, key: string, i: nat): (r: int)
    ensures r == -1 || (i <= r && r + 1 < |content| && (r - i) % 2 == 0 && content[r].value == key)
    decreases |content| - i
  {
    if i + 1 >= |content| then -1
    else if content[i].value == key then i
    else FindFrom(content, key, i + 2)
  }

  function Find(content: seq<Yaml>, key: string): (r: int)
    ensures r == -1 || (0 <= r && r + 1 < |content| && r % 2 == 0 && content[r].value == key)
  {
    FindFrom(content, key, 0)
  }

  /** The value a mapping holds under a key. */
  function Get(t: Yaml, key: string): Option<Yaml> {
    var i := Find(t.content, key);
    if i < 0 then None else Some(t.content[i + 1])
  }

  function KeyNode(key: string): Yaml {
    Yaml(Scalar, "!!str", key, "", [])
  }

  function EmptyMapping(headComment: string): Yaml {
    Yaml(Mapping, "!!map", "", headComment, [])
  }

  /** A mapping with one entry replaced where its key stands, or appended. */
  function SetEntry(t: Yaml, key: string, v: Yaml): Yaml {
    var i := Find(t.content, key);
    t.(content := if i < 0 then t.content + [KeyNode(key), v] else t.content[i + 1 := v])
  }

  /** The node itself when it is a mapping, else a fresh one under its comment. */
  function AsMapping(t: Yaml): Yaml {
    if t.kind.Mapping? then t else EmptyMapping(t.headComment)
  }

  /** The mapping a write descends into: the one that is there, or a fresh one
      in place of nothing or of a node that is not a mapping. */
  function Descend(t: Yaml, key: string): Yaml {
    var c := Get(t, key);
    if c.None? then EmptyMapping("") else AsMapping(c.value)
  }

  function SetIn(t: Yaml, path: Path, v: Yaml): Yaml
    decreases |path|
  {
    if !t.kind.Mapping? || path == [] then t
    else if |path| == 1 then SetEntry(t, path[0], v)
    else SetEntry(t, path[0], SetIn(Descend(t, path[0]), path[1..], v))
  }

  /** The node at a path below a root. */
  function Lookup(t: Yaml, path: Path): Option<Yaml>
    decreases |path|
  {
    if path == [] then Some(t)
    else if !t.kind.Mapping? || Get(t, path[0]).None? then None
    else Lookup(Get(t, path[0]).value, path[1..])
  }

  /** What a YAML parser yields: mappings hold whole pairs, throughout. */
  predicate Parsed(t: Yaml) {
    && (t.kind.Mapping? ==> |t.content| % 2 == 0)
    && forall c :: c in t.content ==> Parsed(c)
  }

  // ---- one mapping ----

  /** Where a key is found depends only on the keys. */
  lemma {:induction false} FindSameKeys(a: seq<Yaml>, b: seq<Yaml>, key: string, i: nat)
    requires |a| == |b| && i % 2 == 0
    requires forall j :: 0 <= j < |a| && j % 2 == 0 ==> a[j].value == b[j].value
    ensures FindFrom(a, key, i) == FindFrom(b, key, i)
    decreases |a| - i
  {
    if i + 1 < |a| {
      FindSameKeys(a, b, key, i + 2);
    }
  }

  lemma {:induction false} FindAppended(a: seq<Yaml>, k: Yaml, v: Yaml, key: string, i: nat)
    requires |a| % 2 == 0 && i % 2 == 0 && i <= |a|
    ensures FindFrom(a + [k, v], key, i)
         == if FindFrom(a, key, i) >= 0 then FindFrom(a, key, i) else if k.value == key then |a| else -1
    decreases |a| - i
  {
    var b := a + [k, v];
    if i < |a| {
      assert b[i] == a[i];
      FindAppended(a, k, v, key, i + 2);
    } else {
      assert b[i] == k;
      assert FindFrom(b, key, i + 2) == -1;
    }
  }

  /** A write to one key is read back there and nowhere else. */
  lemma GetSetEntry(t: Yaml, key: string, v: Yaml, other: string)
    requires |t.content| % 2 == 0
    ensures Get(SetEntry(t, key, v), other) == if other == key then Some(v) else Get(t, other)
  {
    var i := Find(t.content, key);
    if i < 0 {
      FindAppended(t.content, KeyNode(key), v, other, 0);
    } else {
      FindSameKeys(t.content, t.content[i + 1 := v], other, 0);
      FindSameKeys(t.content, t.content[i + 1 := v], key, 0);
      var j := Find(t.content, other);
      assert j >= 0 && j == i ==> other == key;
    }
  }

  lemma SetEntryTwice(t: Yaml, key: string, v: Yaml, w: Yaml)
    requires |t.content| % 2 == 0
    ensures SetEntry(SetEntry(t, key, v), key, w) == SetEntry(t, key, w)
  {
    var i := Find(t.content, key);
    if i < 0 {
      FindAppended(t.content, KeyNode(key), v, key, 0);
      assert (t.content + [KeyNode(key), v])[|t.content| + 1 := w] == t.content + [KeyNode(key), w];
    } else {
      FindSameKeys(t.content, t.content[i + 1 := v], key, 0);
      assert t.content[i + 1 := v][i + 1 := w] == t.content[i + 1 := w];
    }
  }

  lemma SetEntryParsed(t: Yaml, key: string, v: Yaml)
    requires Parsed(t) && Parsed(v)
    ensures Parsed(SetEntry(t, key, v))
  {
    var u := SetEntry(t, key, v);
    assert Parsed(KeyNode(key));
    forall c | c in u.content
      ensures Parsed(c)
    {
      assert c in t.content || c == v || c == KeyNode(key);
    }
  }

  lemma DescendParsed(t: Yaml, key: string)
    requires Parsed(t)
    ensures Parsed(Descend(t, key)) && Descend(t, key).kind.Mapping?
  {
    var i := Find(t.content, key);
    if i >= 0 {
      assert t.content[i + 1] in t.content;
    }
  }

  // ---- the lens ----

  /** A write keeps the tree one a parser could have produced. */
  lemma {:induction false} SetInParsed(t: Yaml, path: Path, v: Yaml)
    requires Parsed(t) && Parsed(v)
    ensures Parsed(SetIn(t, path, v))
    decreases |path|
  {
    if t.kind.Mapping? && path != [] {
      DescendParsed(t, path[0]);
      if |path| == 1 {
        SetEntryParsed(t, path[0], v);
      } else {
        SetInParsed(Descend(t, path[0]), path[1..], v);
        SetEntryParsed(t, path[0], SetIn(Descend(t, path[0]), path[1..], v));
      }
    }
  }

  predicate IsPrefix(p: Path, q: Path) {
    |p| <= |q| && q[..|p|] == p
  }

  /** The node a write along path p leaves at a proper prefix of it: the one that
      was there with the rest of the write made below it. */
  function Rewritten(t: Yaml, p: Path, n: nat, v: Yaml): Yaml
    requires n < |p|
    decreases n
  {
    if n == 0 then SetIn(t, p, v) else Rewritten(Descend(t, p[0]), p[1..], n - 1, v)
  }

  /** Read after write, at every path: at or below the written one the new value
      answers; above it the rewritten node; everywhere else, what answered
      before - also where the write turned a scalar on its way into a mapping. */
  lemma {:induction false} LookupSetIn(t: Yaml, p: Path, v: Yaml, q: Path)
    requires Parsed(t) && t.kind.Mapping? && p != []
    ensures Lookup(SetIn(t, p, v), q)
         == if IsPrefix(p, q) then Lookup(v, q[|p|..])
            else if IsPrefix(q, p) then Some(Rewritten(t, p, |q|, v))
            else Lookup(t, q)
    decreases |p|
  {
    if q != [] {
      var c := Descend(t, p[0]);
      DescendParsed(t, p[0]);
      var child := if |p| == 1 then v else SetIn(c, p[1..], v);
      GetSetEntry(t, p[0], child, q[0]);
      if q[0] == p[0] {
        PrefixTails(p, q);
        PrefixTails(q, p);
        if |p| == 1 {
          assert q[1..] == q[|p|..];
        } else {
          LookupSetIn(c, p[1..], v, q[1..]);
          assert IsPrefix(p, q) ==> q[1..][|p| - 1..] == q[|p|..];
          if !IsPrefix(p, q) && !IsPrefix(q, p) {
            FreshMappingsAreEmpty(t, p[0], q[1..]);
          }
        }
      }
    }
  }

  lemma PrefixTails(p: Path, q: Path)
    requires p != [] && q != [] && p[0] == q[0]
    ensures IsPrefix(p, q) <==> IsPrefix(p[1..], q[1..])
  {
    if IsPrefix(p[1..], q[1..]) {
      assert q[..|p|] == [q[0]] + q[1..][..|p| - 1];
      assert p == [p[0]] + p[1..];
    }
    if IsPrefix(p, q) {
      assert q[1..][..|p| - 1] == q[..|p|][1..];
    }
  }

  /** Descending through a node that is no mapping finds nothing, before and
      after it is replaced by a fresh one. */
  lemma FreshMappingsAreEmpty(t: Yaml, key: string, rest: Path)
    requires rest != []
    ensures Lookup(Descend(t, key), rest)
         == if Get(t, key).None? then None else Lookup(Get(t, key).value, rest)
  {
  }

  /** The written value is read back exactly when the root is a mapping: over any
      other root the write changes nothing and reports no error. */
  lemma ReadBack(t: Yaml, p: Path, v: Yaml)
    requires Parsed(t) && p != []
    ensures Lookup(SetIn(t, p, v), p) == Some(v) <==> t.kind.Mapping?
    ensures !t.kind.Mapping? ==> SetIn(t, p, v) == t
  {
    if t.kind.Mapping? {
      LookupSetIn(t, p, v, p);
      assert p[..|p|] == p && p[|p|..] == [];
    }
  }

  /** The last write at a path is the only one that counts. */
  lemma {:induction false} LastWriteWins(t: Yaml, p: Path, v: Yaml, w: Yaml)
    requires Parsed(t)
    ensures SetIn(SetIn(t, p, v), p, w) == SetIn(t, p, w)
    decreases |p|
  {
    if t.kind.Mapping? && p != [] {
      if |p| == 1 {
        SetEntryTwice(t, p[0], v, w);
      } else {
        var c := Descend(t, p[0]);
        DescendParsed(t, p[0]);
        var x := SetIn(c, p[1..], v);
        GetSetEntry(t, p[0], x, p[0]);
        assert Descend(SetEntry(t, p[0], x), p[0]) == x;
        LastWriteWins(c, p[1..], v, w);
        SetEntryTwice(t, p[0], x, SetIn(x, p[1..], w));
      }
    }
  }

  /** Writing back what was just read changes nothing at all. */
  lemma {:induction false} WriteBack(t: Yaml, p: Path, v: Yaml)
    requires p != [] && Lookup(t, p) == Some(v)
    ensures SetIn(t, p, v) == t
    decreases |p|
  {
    var i := Find(t.content, p[0]);
    assert p[1..] == [] ==> Lookup(t.content[i + 1], p[1..]) == Some(t.content[i + 1]);
    if |p| > 1 {
      WriteBack(t.content[i + 1], p[1..], v);
    }
    assert t.content[i + 1 := t.content[i + 1]] == t.content;
  }

  // ---- what a write leaves as it stood ----

  /** The other pairs stay where they are and the mapping itself as it was. A key not
      there yet goes last, under a plain string node. */
  lemma SetEntryLeaves(t: Yaml, key: string, v: Yaml)
    ensures var u := SetEntry(t, key, v);
            && u.kind == t.kind && u.tag == t.tag && u.value == t.value && u.headComment == t.headComment
            && (Get(t, key).None? ==> u.content == t.content + [Yaml(Scalar, "!!str", key, "", []), v])
            && (Get(t, key).Some? ==>
                  exists i :: 0 <= i && i + 1 < |t.content| && FirstUnder(t.content, key, i) && u.content == t.content[i + 1 := v])
  {
    FindIsFirst(t.content, key, 0);
  }

  /** The first pair of the content under this key. */
  predicate FirstUnder(content: seq<Yaml>, key: string, i: int) {
    0 <= i < |content| && i % 2 == 0 && content[i].value == key
    && forall j :: 0 <= j < i && j % 2 == 0 ==> content[j].value != key
  }

  lemma {:induction false} FindIsFirst(content: seq<Yaml>, key: string, i: nat)
    requires i % 2 == 0 && forall j :: 0 <= j < i && j < |content| && j % 2 == 0 ==> content[j].value != key
    ensures FindFrom(content, key, i) >= 0 ==> FirstUnder(content, key, FindFrom(content, key, i))
    decreases |content| - i
  {
    if i + 1 < |content| && content[i].value != key {
      FindIsFirst(content, key, i + 2);
    }
  }

  /** A section that is missing, or no mapping, is left a mapping of the one entry
      written: under the comment that stood over it, with no other trace of what it was. */
  lemma SectionIsUpgraded(t: Yaml, key: string, entry: string, v: Yaml)
    requires Parsed(t) && t.kind.Mapping? && (Get(t, key).None? || !Get(t, key).value.kind.Mapping?)
    ensures Get(SetIn(t, [key, entry], v), key) ==
              Some(Yaml(Mapping, "!!map", "", if Get(t, key).Some? then Get(t, key).value.headComment else "",
                        [Yaml(Scalar, "!!str", entry, "", []), v]))
  {
    var below := Descend(t, key);
    assert [key, entry][1..] == [entry];
    assert below.content == [] && [] + [KeyNode(entry), v] == [KeyNode(entry), v];
    GetSetEntry(t, key, SetEntry(below, entry, v), key);
  }
}
