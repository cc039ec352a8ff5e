/** The same document as the editor holds it: nodes that point at their
    children, written in place. */
module YamlNodes {
  import opened Wrappers
  import opened YamlTree

  class YamlNode {
    var kind: Kind
    var tag: string
    var value: string
    var headComment: string
    var content: seq<YamlNode>

    /** The nodes of this document, and the value they stand for. */
    ghost var Repr: set<YamlNode>
    ghost var Tree: Yaml

    /** No node is its own descendant, none has two parents, and Tree is what
        the fields say. */
    ghost predicate Valid()
      reads this, Repr
      ensures Valid() ==> this in Repr
      decreases Repr
    {
      && this in Repr
      && (forall i :: 0 <= i < |content| ==>
            content[i] in Repr && content[i].Repr <= Repr && this !in content[i].Repr)
      && (forall i, j :: 0 <= i < j < |content| ==> content[i].Repr !! content[j].Repr)
      && (forall i :: 0 <= i < |content| ==> content[i].Valid())
      && Tree == Yaml(kind, tag, value, headComment, Tree.content)
      && |Tree.content| == |content|
      && (forall i :: 0 <= i < |content| ==> content[i].Tree == Tree.content[i])
    }

    constructor (kind: Kind, tag: string, value: string, headComment: string)
      ensures Valid() && fresh(Repr) && Tree == Yaml(kind, tag, value, headComment, [])
    {
      this.kind, this.tag, this.value, this.headComment := kind, tag, value, headComment;
      content := [];
      Repr := {this};
      Tree := Yaml(kind, tag, value, headComment, []);
    }

    /** Puts node in the place of the child at i. */
    method SetChild(i: nat, node: YamlNode)
      requires Valid() && i < |content|
      requires node.Valid() && node.Repr !! Repr
      modifies this
      ensures Valid() && content == old(content)[i := node]
      ensures Tree == old(Tree).(content := old(Tree).content[i := node.Tree])
      ensures Repr == old(Repr) + node.Repr
    {
      content := content[i := node];
      Repr := Repr + node.Repr;
      Tree := Tree.(content := Tree.content[i := node.Tree]);
    }

    /** Appends one key and its value. */
    method AppendPair(key: YamlNode, node: YamlNode)
      requires Valid() && key.Valid() && node.Valid()
      requires key.Repr !! Repr && node.Repr !! Repr && key.Repr !! node.Repr
      modifies this
      ensures Valid() && content == old(content) + [key, node]
      ensures Tree == old(Tree).(content := old(Tree).content + [key.Tree, node.Tree])
      ensures Repr == old(Repr) + key.Repr + node.Repr
    {
      content := content + [key, node];
      Repr := Repr + key.Repr + node.Repr;
      Tree := Tree.(content := Tree.content + [key.Tree, node.Tree]);
    }

    /** Writes valueNode at path below this node, creating the mappings that are
        missing on the way and replacing by one whatever else stands there. */
    method SetInMapping(path: Path, valueNode: YamlNode)
      requires Valid() && valueNode.Valid() && valueNode.Repr !! Repr
      modifies Repr
      ensures Valid() && Tree == SetIn(old(Tree), path, valueNode.Tree)
      ensures old(Repr) <= Repr && fresh(Repr - old(Repr) - valueNode.Repr)
      decreases |path|, 0
    {
      if kind != Mapping || path == [] {
        return;
      }
      var i := 0;
      while i + 1 < |content|
        invariant i % 2 == 0
        invariant FindFrom(Tree.content, path[0], i) == Find(Tree.content, path[0])
      {
        if content[i].value == path[0] {
          SetFound(i, path, valueNode);
          return;
        }
        i := i + 2;
      }
      SetMissing(path, valueNode);
    }

    /** The key stands at i: its value is replaced, or descended into, upgraded
        first when it is no mapping. */
    method SetFound(i: nat, path: Path, valueNode: YamlNode)
      requires Valid() && valueNode.Valid() && valueNode.Repr !! Repr
      requires kind == Mapping && path != [] && i == Find(Tree.content, path[0])
      modifies Repr
      ensures Valid() && Tree == SetIn(old(Tree), path, valueNode.Tree)
      ensures old(Repr) <= Repr && fresh(Repr - old(Repr) - valueNode.Repr)
      decreases |path| - 1, 3
    {
      if |path| == 1 {
        SetChild(i + 1, valueNode);
        return;
      }
      SetInFound(Tree, path, i, valueNode.Tree);
      UpgradeChild(i + 1);
      WriteBelow(i + 1, path[1..], valueNode);
    }

    /** Replaces the child at i by an empty mapping unless it already is one. */
    method UpgradeChild(i: nat)
      requires Valid() && i < |content|
      modifies this
      ensures Valid() && old(Repr) <= Repr && fresh(Repr - old(Repr)) && kind == old(kind) && |content| == old(|content|)
      ensures Tree == old(Tree).(content := old(Tree).content[i := AsMapping(old(Tree).content[i])])
    {
      if content[i].kind != Mapping {
        var upgraded := new YamlNode(Mapping, "!!map", "", content[i].headComment);
        SetChild(i, upgraded);
      } else {
        assert Tree.content[i := Tree.content[i]] == Tree.content;
      }
    }

    /** No pair has the key: one is appended, and a fresh mapping descended into. */
    method SetMissing(path: Path, valueNode: YamlNode)
      requires Valid() && valueNode.Valid() && valueNode.Repr !! Repr
      requires kind == Mapping && path != [] && Find(Tree.content, path[0]) < 0
      modifies Repr
      ensures Valid() && Tree == SetIn(old(Tree), path, valueNode.Tree)
      ensures old(Repr) <= Repr && fresh(Repr - old(Repr) - valueNode.Repr)
      decreases |path| - 1, 3
    {
      if |path| == 1 {
        AppendKey(path[0], valueNode);
        return;
      }
      SetInMissing(Tree, path, valueNode.Tree);
      AppendMapping(path[0]);
      WriteBelow(|content| - 1, path[1..], valueNode);
    }

    method AppendMapping(key: string)
      requires Valid()
      modifies this
      ensures Valid() && old(Repr) <= Repr && fresh(Repr - old(Repr)) && |content| == old(|content|) + 2
      ensures Tree == old(Tree).(content := old(Tree).content + [KeyNode(key), EmptyMapping("")])
    {
      var childMap := new YamlNode(Mapping, "!!map", "", "");
      AppendKey(key, childMap);
    }

    method AppendKey(key: string, node: YamlNode)
      requires Valid() && node.Valid() && node.Repr !! Repr
      modifies this
      ensures Valid() && |content| == old(|content|) + 2
      ensures Tree == old(Tree).(content := old(Tree).content + [KeyNode(key), node.Tree])
      ensures old(Repr) + node.Repr <= Repr && fresh(Repr - old(Repr) - node.Repr)
    {
      var keyNode := new YamlNode(Scalar, "!!str", key, "");
      AppendPair(keyNode, node);
    }

    /** The write below the child at i, the rest of the tree standing still. */
    method WriteBelow(i: nat, rest: Path, valueNode: YamlNode)
      requires Valid() && i < |content|
      requires valueNode.Valid() && valueNode.Repr !! Repr
      modifies Repr
      ensures Valid() && content == old(content)
      ensures Tree == WrittenBelow(old(Tree), i, rest, valueNode.Tree)
      ensures old(Repr) <= Repr && fresh(Repr - old(Repr) - valueNode.Repr)
      decreases |rest|, 1
    {
      var child := content[i];
      ghost var grown := Repr + valueNode.Repr;
      child.SetInMapping(rest, valueNode);
      assert this !in child.Repr;
      forall j | 0 <= j < |content| && j != i
        ensures content[j].Repr !! child.Repr && content[j].Valid() && content[j].Tree == Tree.content[j]
      {
        assert content[j].Repr <= grown;
      }
      Adopt(i);
    }

    /** Takes the child at i as it now stands, its siblings being as they were. */
    ghost method Adopt(i: nat)
      requires i < |content| && this in Repr && |Tree.content| == |content|
      requires Tree == Yaml(kind, tag, value, headComment, Tree.content)
      requires content[i].Valid() && this !in content[i].Repr
      requires forall j :: 0 <= j < |content| && j != i ==>
                 && content[j] in Repr && content[j].Repr <= Repr && this !in content[j].Repr
                 && content[j].Valid() && content[j].Repr !! content[i].Repr && content[j].Tree == Tree.content[j]
      requires forall j, k :: 0 <= j < k < |content| ==> j == i || k == i || content[j].Repr !! content[k].Repr
      modifies this`Repr, this`Tree
      ensures Valid() && Repr == old(Repr) + content[i].Repr
      ensures Tree == old(Tree).(content := old(Tree).content[i := content[i].Tree])
    {
      Repr := Repr + content[i].Repr;
      Tree := Tree.(content := Tree.content[i := content[i].Tree]);
    }

    /** Walks down path from the document's root. */
    method LookupYamlNode(path: Path) returns (node: YamlNode?)
      requires Valid()
      ensures node == null <==> kind != Document || content == [] || Lookup(Tree.content[0], path).None?
      ensures node != null ==> node in Repr && node.Valid() && Lookup(Tree.content[0], path) == Some(node.Tree)
    {
      if kind != Document || content == [] {
        return null;
      }
      var at := content[0];
      for s := 0 to |path|
        invariant at in Repr && at.Repr <= Repr && at.Valid()
        invariant Lookup(at.Tree, path[s..]) == Lookup(Tree.content[0], path)
      {
        if at.kind != Mapping {
          return null;
        }
        var i := 0;
        while i + 1 < |at.content| && at.content[i].value != path[s]
          invariant FindFrom(at.Tree.content, path[s], i) == Find(at.Tree.content, path[s])
        {
          i := i + 2;
        }
        if i + 1 >= |at.content| {
          return null;
        }
        assert path[s..][1..] == path[s + 1..];
        at := at.content[i + 1];
      }
      node := at;
    }

    /** Replaces the node at path in a document; a document without a root is
        refused and left alone. */
    method SetYamlNode(path: Path, valueNode: YamlNode) returns (ok: bool)
      requires Valid() && valueNode.Valid() && valueNode.Repr !! Repr
      modifies Repr
      ensures Valid()
      ensures ok <==> old(Tree.kind.Document? && Tree.content != [])
      ensures Tree == if ok then WithRoot(old(Tree), SetIn(old(Tree).content[0], path, valueNode.Tree)) else old(Tree)
    {
      if kind != Document || content == [] {
        return false;
      }
      WriteBelow(0, path, valueNode);
      ok := true;
    }
  }

  function WithRoot(doc: Yaml, root: Yaml): Yaml
    requires doc.content != []
  {
    doc.(content := doc.content[0 := root])
  }

  /** A tree after a write below one of its children. */
  function WrittenBelow(t: Yaml, i: nat, rest: Path, v: Yaml): Yaml
    requires i < |t.content|
  {
    t.(content := t.content[i := SetIn(t.content[i], rest, v)])
  }

  lemma UpdateTwice<T>(s: seq<T>, i: nat, x: T, y: T)
    requires i < |s|
    ensures s[i := x][i := y] == s[i := y]
  {
  }

  lemma UpdateAppended<T>(s: seq<T>, k: T, x: T, y: T)
    ensures (s + [k, x])[|s| + 1 := y] == s + [k, y]
  {
  }

  lemma SetInFound(t: Yaml, path: Path, i: nat, v: Yaml)
    requires t.kind.Mapping? && |path| > 1 && i == Find(t.content, path[0])
    ensures var c := AsMapping(t.content[i + 1]);
            SetIn(t, path, v) == WrittenBelow(t.(content := t.content[i + 1 := c]), i + 1, path[1..], v)
  {
    var c := AsMapping(t.content[i + 1]);
    UpdateTwice(t.content, i + 1, c, SetIn(c, path[1..], v));
  }

  lemma SetInMissing(t: Yaml, path: Path, v: Yaml)
    requires t.kind.Mapping? && |path| > 1 && Find(t.content, path[0]) < 0
    ensures var grown := t.content + [KeyNode(path[0]), EmptyMapping("")];
            SetIn(t, path, v) == WrittenBelow(t.(content := grown), |grown| - 1, path[1..], v)
  {
    UpdateAppended(t.content, KeyNode(path[0]), EmptyMapping(""), SetIn(EmptyMapping(""), path[1..], v));
  }
}
