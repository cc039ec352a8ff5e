/** `config set` as a whole: which path a key names, which writes are refused,
    and what no accepted write can do to the rest of the file. */
module ConfigSet {
  import opened Wrappers
  import opened YamlTree
  import opened YamlNodes
  import Coordinates

  const CATEGORIES := "license_policy.categories."
  const OVERRIDES := "license_overrides."

  predicate HasPrefix(s: string, prefix: string) {
    prefix <= s
  }

  function TrimPrefix(s: string, prefix: string): string
    requires HasPrefix(s, prefix)
  {
    s[|prefix|..]
  }

  /** The settable keys with a fixed name, as section and name. */
  const FIXED: seq<(string, string)> := [
    ("preferences", "json"), ("preferences", "log_level"), ("preferences", "progress"),
    ("callgraph", "exclude"), ("callgraph", "toolchain"),
    ("staleness", "ttl"), ("staleness", "probe_concurrency"),
    ("fetch_policy", "allowed_vcs_hosts"),
    ("storage", "backend"), ("storage", "sumdb_cache"), ("vulndb", "url")]

  function FixedPath(key: string, i: nat := 0): (r: Option<Path>)
    requires i <= |FIXED|
    ensures r.Some? ==> |r.value| == 2 && key == r.value[0] + "." + r.value[1]
    ensures r.Some? ==> exists j :: i <= j < |FIXED| && FIXED[j].0 == r.value[0]
    decreases |FIXED| - i
  {
    if i == |FIXED| then None
    else if key == FIXED[i].0 + "." + FIXED[i].1 then Some([FIXED[i].0, FIXED[i].1])
    else FixedPath(key, i + 1)
  }

  /** The YAML path of a key `config set` may write: a fixed one, a licence
      category by name, or a licence override by module. */
  function ConfigSetPath(key: string): Option<Path> {
    if FixedPath(key).Some? then FixedPath(key)
    else if HasPrefix(key, CATEGORIES) then
      var name := TrimPrefix(key, CATEGORIES);
      if name == "" then None else Some(["license_policy", "categories", name])
    else if HasPrefix(key, OVERRIDES) then
      var mod := TrimPrefix(key, OVERRIDES);
      if mod == "" then None else Some(["license_overrides", mod])
    else None
  }

  /** The write a licence-override key makes would drop an attributed entry. */
  predicate LosesProvenance(root: Yaml, path: Path, key: string) {
    HasPrefix(key, OVERRIDES) && Lookup(root, path).Some? && Lookup(root, path).value.kind.Mapping?
  }

  datatype Refusal = UnknownKey | BadValue | ProvenanceLoss | NotADocument

  datatype SetResult = Written(doc: Yaml) | Refused(why: Refusal)

  /** The checks `config set` makes, in order, and the document it writes. value
      is what the command line parsed to, None when it did not parse or the
      setting's own rules refused it. */
  function SetConfig(doc: Yaml, key: string, value: Option<Yaml>): SetResult {
    var path := ConfigSetPath(key);
    if path.None? then Refused(UnknownKey)
    else if value.None? then Refused(BadValue)
    else if !doc.kind.Document? || doc.content == [] then Refused(NotADocument)
    else if LosesProvenance(doc.content[0], path.value, key) then Refused(ProvenanceLoss)
    else Written(WithRoot(doc, SetIn(doc.content[0], path.value, value.value)))
  }

  /** The same, on the document in place. */
  method RunConfigSet(doc: YamlNode, key: string, value: YamlNode?) returns (why: Option<Refusal>)
    requires doc.Valid()
    requires value != null ==> value.Valid() && value.Repr !! doc.Repr
    modifies doc.Repr
    ensures doc.Valid()
    ensures var r := SetConfig(old(doc.Tree), key, if value == null then None else Some(old(value.Tree)));
            why == (if r.Written? then None else Some(r.why)) &&
            doc.Tree == (if r.Written? then r.doc else old(doc.Tree))
  {
    var path := ConfigSetPath(key);
    if path.None? {
      return Some(UnknownKey);
    }
    if value == null {
      return Some(BadValue);
    }
    if HasPrefix(key, OVERRIDES) {
      var node := doc.LookupYamlNode(path.value);
      if node != null && node.kind == Mapping {
        return Some(ProvenanceLoss);
      }
    }
    var ok := doc.SetYamlNode(path.value, value);
    why := if ok then None else Some(NotADocument);
  }

  // ---- what a key names ----

  /** No fixed key lives in a licence section. */
  lemma FixedSections(j: nat)
    requires j < |FIXED|
    ensures FIXED[j].0 != [] && FIXED[j].0[0] != 'l'
  {
  }

  lemma FixedKeysAreNotLicenceKeys(key: string)
    requires FixedPath(key).Some?
    ensures var p := FixedPath(key).value;
            && p[0] != "license_policy" && p[0] != "license_overrides"
            && !HasPrefix(key, CATEGORIES) && !HasPrefix(key, OVERRIDES)
  {
    var p := FixedPath(key).value;
    var j :| 0 <= j < |FIXED| && FIXED[j].0 == p[0];
    FixedSections(j);
    assert key[0] == p[0][0] != 'l';
    assert CATEGORIES[0] == 'l' && OVERRIDES[0] == 'l';
    assert "license_policy"[0] == 'l' && "license_overrides"[0] == 'l';
  }

  /** Only a licence-override key names an override, and it names its module. */
  lemma OverrideKeys(key: string, m: string)
    requires ConfigSetPath(key) == Some(["license_overrides", m])
    ensures HasPrefix(key, OVERRIDES) && key == OVERRIDES + m
  {
    if FixedPath(key).Some? {
      FixedKeysAreNotLicenceKeys(key);
    }
  }

  /** The keys with a fixed name as they are typed, and where each is kept. */
  const TYPED: seq<(string, Path)> := [
    ("preferences.json", ["preferences", "json"]),
    ("preferences.log_level", ["preferences", "log_level"]),
    ("preferences.progress", ["preferences", "progress"]),
    ("callgraph.exclude", ["callgraph", "exclude"]),
    ("callgraph.toolchain", ["callgraph", "toolchain"]),
    ("staleness.ttl", ["staleness", "ttl"]),
    ("staleness.probe_concurrency", ["staleness", "probe_concurrency"]),
    ("fetch_policy.allowed_vcs_hosts", ["fetch_policy", "allowed_vcs_hosts"]),
    ("storage.backend", ["storage", "backend"]),
    ("storage.sumdb_cache", ["storage", "sumdb_cache"]),
    ("vulndb.url", ["vulndb", "url"])]

  lemma Joined()
    ensures "preferences" + "." + "json" == "preferences.json"
    ensures "preferences" + "." + "log_level" == "preferences.log_level"
    ensures "preferences" + "." + "progress" == "preferences.progress"
    ensures "callgraph" + "." + "exclude" == "callgraph.exclude"
    ensures "callgraph" + "." + "toolchain" == "callgraph.toolchain"
    ensures "staleness" + "." + "ttl" == "staleness.ttl"
  {
  }

  lemma JoinedOn()
    ensures "staleness" + "." + "probe_concurrency" == "staleness.probe_concurrency"
    ensures "fetch_policy" + "." + "allowed_vcs_hosts" == "fetch_policy.allowed_vcs_hosts"
    ensures "storage" + "." + "backend" == "storage.backend"
    ensures "storage" + "." + "sumdb_cache" == "storage.sumdb_cache"
    ensures "vulndb" + "." + "url" == "vulndb.url"
  {
  }

  lemma TypedIs(j: nat)
    requires j < |FIXED|
    ensures |TYPED| == |FIXED|
    ensures TYPED[j].0 == FIXED[j].0 + "." + FIXED[j].1 && TYPED[j].1 == [FIXED[j].0, FIXED[j].1]
  {
    Joined();
    JoinedOn();
  }

  ghost predicate IsTyped(key: string) {
    exists j :: 0 <= j < |TYPED| && key == TYPED[j].0
  }

  lemma FixedKeysAreTyped(key: string)
    ensures FixedPath(key).Some? <==> IsTyped(key)
    ensures forall j :: 0 <= j < |TYPED| && key == TYPED[j].0 ==> FixedPath(key) == Some(TYPED[j].1)
  {
    FixedFrom(key, 0);
    TypedIs(0);
    forall j | 0 <= j < |FIXED|
      ensures key == TYPED[j].0 <==> key == FIXED[j].0 + "." + FIXED[j].1
      ensures key == TYPED[j].0 ==> FixedPath(key) == Some(TYPED[j].1)
    {
      TypedIs(j);
      if key == TYPED[j].0 {
        var k :| 0 <= k < |FIXED| && key == FIXED[k].0 + "." + FIXED[k].1 && FixedPath(key).value == [FIXED[k].0, FIXED[k].1];
        SectionsHaveNoDot(j);
        SectionsHaveNoDot(k);
        assert key == FIXED[j].0 + ['.'] + FIXED[j].1 && key == FIXED[k].0 + ['.'] + FIXED[k].1;
        Coordinates.SplitAtMark(FIXED[j].0, FIXED[k].0, '.', FIXED[j].1, FIXED[k].1);
      }
    }
  }

  /** Which of the listed keys, if any, is this one. */
  lemma {:induction false} FixedFrom(key: string, i: nat)
    requires i <= |FIXED|
    ensures FixedPath(key, i).None? <==> forall j :: i <= j < |FIXED| ==> key != FIXED[j].0 + "." + FIXED[j].1
    ensures FixedPath(key, i).Some? ==>
              exists j :: i <= j < |FIXED| && key == FIXED[j].0 + "." + FIXED[j].1 && FixedPath(key, i).value == [FIXED[j].0, FIXED[j].1]
    decreases |FIXED| - i
  {
    if i < |FIXED| && key != FIXED[i].0 + "." + FIXED[i].1 {
      FixedFrom(key, i + 1);
    }
  }

  /** What can be set: the keys listed, a licence category of any name and the override
      of any module; and where each is kept. */
  lemma SettableKeys(key: string, name: string)
    ensures name != "" ==> ConfigSetPath("license_policy.categories." + name) == Some(["license_policy", "categories", name])
    ensures name != "" ==> ConfigSetPath("license_overrides." + name) == Some(["license_overrides", name])
    ensures forall j :: 0 <= j < |TYPED| && key == TYPED[j].0 ==> ConfigSetPath(key) == Some(TYPED[j].1)
    ensures ConfigSetPath(key).Some? ==>
              || IsTyped(key)
              || ("license_policy.categories." <= key && key != "license_policy.categories.")
              || ("license_overrides." <= key && key != "license_overrides.")
  {
    FixedKeysAreTyped(key);
    if name != "" {
      CategoryPath(name);
      OverridePath(name);
    }
  }

  lemma CategoryPath(name: string)
    requires name != ""
    ensures ConfigSetPath(CATEGORIES + name) == Some(["license_policy", "categories", name])
  {
    var key := CATEGORIES + name;
    assert HasPrefix(key, CATEGORIES) && TrimPrefix(key, CATEGORIES) == name;
    if FixedPath(key).Some? {
      FixedKeysAreNotLicenceKeys(key);
    }
  }

  /** The path a key names determines the key. */
  lemma PathsAreKeys(key: string)
    requires ConfigSetPath(key).Some?
    ensures var p := ConfigSetPath(key).value;
            || (|p| == 3 && key == CATEGORIES + p[2] && p[..2] == ["license_policy", "categories"])
            || (|p| == 2 && key == p[0] + "." + p[1])
  {
    if FixedPath(key).None? && !HasPrefix(key, CATEGORIES) {
      assert OVERRIDES == "license_overrides" + ".";
    }
  }

  /** Two settable keys name nodes neither of which is above the other. */
  lemma KeysAreApart(k1: string, k2: string)
    requires ConfigSetPath(k1).Some? && ConfigSetPath(k2).Some? && k1 != k2
    ensures !IsPrefix(ConfigSetPath(k1).value, ConfigSetPath(k2).value)
  {
    var p, q := ConfigSetPath(k1).value, ConfigSetPath(k2).value;
    if IsPrefix(p, q) {
      PathsAreKeys(k1);
      PathsAreKeys(k2);
      if |p| < |q| && FixedPath(k1).Some? {
        FixedKeysAreNotLicenceKeys(k1);
      }
      assert false;
    }
  }

  /** The checks, in their order, and which refusal each gives. */
  lemma RefusalIs(doc: Yaml, key: string, value: Option<Yaml>)
    ensures var r := SetConfig(doc, key, value);
            var known := ConfigSetPath(key).Some?;
            var open_ := doc.kind.Document? && doc.content != [];
            var entry := if known && open_ then Lookup(doc.content[0], ConfigSetPath(key).value) else None;
            var loses := "license_overrides." <= key && entry.Some? && entry.value.kind.Mapping?;
            && (r == Refused(UnknownKey) <==> !known)
            && (r == Refused(BadValue) <==> known && value.None?)
            && (r == Refused(NotADocument) <==> known && value.Some? && !open_)
            && (r == Refused(ProvenanceLoss) <==> known && value.Some? && open_ && loses)
            && (r.Written? <==> known && value.Some? && open_ && !loses)
            && (r.Written? ==> r.doc.content != [] && r.doc.content[0] == SetIn(doc.content[0], ConfigSetPath(key).value, value.value)
                               && r.doc.content[1..] == doc.content[1..] && r.doc.kind == doc.kind)
  {
  }

  // ---- what a write does to the file ----

  /** An accepted write is read back at its key, whenever the file's root is a
      mapping, and setting one key changes the node of no other. */
  lemma AcceptedWrite(doc: Yaml, key: string, value: Yaml, other: string)
    requires SetConfig(doc, key, Some(value)).Written? && Parsed(doc) && doc.content[0].kind.Mapping?
    requires ConfigSetPath(other).Some? && other != key
    ensures var root, root' := doc.content[0], SetConfig(doc, key, Some(value)).doc.content[0];
            && Lookup(root', ConfigSetPath(key).value) == Some(value)
            && Lookup(root', ConfigSetPath(other).value) == Lookup(root, ConfigSetPath(other).value)
  {
    var root, p := doc.content[0], ConfigSetPath(key).value;
    assert Parsed(root) by { assert root in doc.content; }
    PathsAreKeys(key);
    ReadBack(root, p, value);
    LookupSetIn(root, p, value, ConfigSetPath(other).value);
    KeysAreApart(key, other);
    KeysAreApart(other, key);
  }

  /** No accepted write, whatever key it names, removes or alters an attributed
      licence override of any module. */
  lemma AttributedOverridesSurvive(doc: Yaml, key: string, value: Yaml, m: string, entry: Yaml)
    requires SetConfig(doc, key, Some(value)).Written? && Parsed(doc)
    requires entry.kind.Mapping? && Lookup(doc.content[0], ["license_overrides", m]) == Some(entry)
    ensures Lookup(SetConfig(doc, key, Some(value)).doc.content[0], ["license_overrides", m]) == Some(entry)
  {
    var root, p, q := doc.content[0], ConfigSetPath(key).value, ["license_overrides", m];
    assert Parsed(root) by { assert root in doc.content; }
    PathsAreKeys(key);
    LookupSetIn(root, p, value, q);
    if IsPrefix(p, q) || IsPrefix(q, p) {
      NothingAboveOrBelowAnOverride(key, m);
      OverrideKeys(key, m);
      assert false;
    }
  }

  lemma NothingAboveOrBelowAnOverride(key: string, m: string)
    requires ConfigSetPath(key).Some?
    requires IsPrefix(ConfigSetPath(key).value, ["license_overrides", m])
          || IsPrefix(["license_overrides", m], ConfigSetPath(key).value)
    ensures ConfigSetPath(key).value == ["license_overrides", m]
  {
    var p, q := ConfigSetPath(key).value, ["license_overrides", m];
    PathsAreKeys(key);
    if |p| == 2 {
      assert p[..2] == p && q[..2] == q;
    }
  }

  lemma OverridePath(m: string)
    requires m != ""
    ensures ConfigSetPath(OVERRIDES + m) == Some(["license_overrides", m])
  {
    var key := OVERRIDES + m;
    assert HasPrefix(key, OVERRIDES) && TrimPrefix(key, OVERRIDES) == m;
    if FixedPath(key).Some? {
      FixedKeysAreNotLicenceKeys(key);
    }
    assert key[8] == 'o' && CATEGORIES[8] == 'p';
  }

  /** The guard refuses a licence override exactly when the module's entry is an
      attributed one, and no other key at all. */
  lemma GuardIsExact(doc: Yaml, key: string, m: string, value: Yaml)
    requires doc.kind.Document? && doc.content != [] && m != ""
    ensures var entry := Lookup(doc.content[0], ["license_overrides", m]);
            (SetConfig(doc, OVERRIDES + m, Some(value)) == Refused(ProvenanceLoss)) <==>
            (entry.Some? && entry.value.kind.Mapping?)
    ensures !HasPrefix(key, OVERRIDES) ==> SetConfig(doc, key, Some(value)) != Refused(ProvenanceLoss)
  {
    OverridePath(m);
    assert HasPrefix(OVERRIDES + m, OVERRIDES);
  }

  // ---- an override held through an alias ----

  /** What the anchors of a document stand for. */
  type Anchors = map<string, Yaml>

  function Followed(t: Yaml, anchors: Anchors): Yaml {
    if t.kind.Alias? && t.value in anchors then anchors[t.value] else t
  }

  /** What the loader finds at a path: unlike the editor, it follows aliases. */
  function Seen(t: Yaml, path: Path, anchors: Anchors): Option<Yaml>
    decreases |path|
  {
    var u := Followed(t, anchors);
    if path == [] then Some(u)
    else if !u.kind.Mapping? || Get(u, path[0]).None? then None
    else Seen(Get(u, path[0]).value, path[1..], anchors)
  }

  lemma SeenEntry(t: Yaml, m: string, anchors: Anchors)
    ensures Seen(t, ["license_overrides", m], anchors)
         == (var u := Followed(t, anchors);
             if !u.kind.Mapping? || Get(u, "license_overrides").None? then None
             else SeenIn(Get(u, "license_overrides").value, m, anchors))
  {
    assert ["license_overrides", m][1..] == [m];
    var u := Followed(t, anchors);
    if u.kind.Mapping? && Get(u, "license_overrides").Some? {
      SeenInSection(Get(u, "license_overrides").value, m, anchors);
    }
  }

  lemma SeenInSection(section: Yaml, m: string, anchors: Anchors)
    ensures Seen(section, [m], anchors) == SeenIn(section, m, anchors)
  {
    var u := Followed(section, anchors);
    assert [m][1..] == [];
    if u.kind.Mapping? && Get(u, m).Some? {
      assert Seen(Get(u, m).value, [], anchors) == Some(Followed(Get(u, m).value, anchors));
    }
  }

  /** The entry the loader finds in the overrides section. */
  function SeenIn(section: Yaml, m: string, anchors: Anchors): Option<Yaml> {
    var u := Followed(section, anchors);
    if !u.kind.Mapping? || Get(u, m).None? then None else Some(Followed(Get(u, m).value, anchors))
  }

  /** The entry at m is held through an alias: its section's, or its own. */
  predicate HeldThrough(root: Yaml, key: string, m: string)
    requires Get(root, "license_overrides").Some?
  {
    var section := Get(root, "license_overrides").value;
    section.kind.Alias? || (key == OVERRIDES + m && Get(section, m).Some? && Get(section, m).value.kind.Alias?)
  }

  /** An attributed override the loader sees, through aliases or not, survives an
      accepted write exactly unless the key is an override's and the section is held
      through an alias, or the entry written over is. */
  lemma SeenOverrideSurvivesIff(doc: Yaml, key: string, value: Yaml, m: string, entry: Yaml, anchors: Anchors)
    requires SetConfig(doc, key, Some(value)).Written? && Parsed(doc) && doc.content[0].kind.Mapping?
    requires HasPrefix(key, OVERRIDES) ==> value.kind.Scalar?
    requires entry.kind.Mapping? && Seen(doc.content[0], ["license_overrides", m], anchors) == Some(entry)
    ensures Get(doc.content[0], "license_overrides").Some?
    ensures Seen(SetConfig(doc, key, Some(value)).doc.content[0], ["license_overrides", m], anchors) == Some(entry) <==>
              !(HasPrefix(key, OVERRIDES) && HeldThrough(doc.content[0], key, m))
  {
    var root, p := doc.content[0], ConfigSetPath(key).value;
    var root' := SetIn(root, p, value);
    assert Parsed(root) by { assert root in doc.content; }
    SeenEntry(root, m, anchors);
    SeenEntry(root', m, anchors);
    if HasPrefix(key, OVERRIDES) {
      OverrideKeyPath(key);
      OverrideWritten(root, value, p[1], m, entry, anchors);
    } else {
      OtherSection(root, key, value);
    }
  }

  lemma OverrideKeyPath(key: string)
    requires HasPrefix(key, OVERRIDES) && ConfigSetPath(key).Some?
    ensures ConfigSetPath(key) == Some(["license_overrides", TrimPrefix(key, OVERRIDES)])
    ensures key == OVERRIDES + TrimPrefix(key, OVERRIDES)
  {
    var m := TrimPrefix(key, OVERRIDES);
    assert key == OVERRIDES + m;
    if m != "" {
      OverridePath(m);
    }
  }

  lemma OtherSection(root: Yaml, key: string, value: Yaml)
    requires ConfigSetPath(key).Some? && !HasPrefix(key, OVERRIDES) && Parsed(root) && root.kind.Mapping?
    ensures var root' := SetIn(root, ConfigSetPath(key).value, value);
            root'.kind.Mapping? && Get(root', "license_overrides") == Get(root, "license_overrides")
  {
    var p := ConfigSetPath(key).value;
    if FixedPath(key).Some? {
      FixedKeysAreNotLicenceKeys(key);
    } else {
      assert "license_policy" != "license_overrides" by { assert |"license_policy"| != |"license_overrides"|; }
    }
    var child := if |p| == 1 then value else SetIn(Descend(root, p[0]), p[1..], value);
    GetSetEntry(root, p[0], child, "license_overrides");
  }

  lemma OverrideWritten(root: Yaml, value: Yaml, k: string, m: string, entry: Yaml, anchors: Anchors)
    requires Parsed(root) && root.kind.Mapping? && value.kind.Scalar? && entry.kind.Mapping?
    requires Get(root, "license_overrides").Some?
    requires SeenIn(Get(root, "license_overrides").value, m, anchors) == Some(entry)
    requires !LosesProvenance(root, ["license_overrides", k], OVERRIDES + k)
    ensures var root', section := SetIn(root, ["license_overrides", k], value), Get(root, "license_overrides").value;
            && root'.kind.Mapping? && Get(root', "license_overrides").Some?
            && (SeenIn(Get(root', "license_overrides").value, m, anchors) == Some(entry) <==>
                  !(section.kind.Alias? || (k == m && Get(section, m).Some? && Get(section, m).value.kind.Alias?)))
  {
    var section, below := Get(root, "license_overrides").value, Descend(root, "license_overrides");
    assert ["license_overrides", k][1..] == [k];
    GetSetEntry(root, "license_overrides", SetEntry(below, k, value), "license_overrides");
    DescendParsed(root, "license_overrides");
    GetSetEntry(below, k, value, m);
    if section.kind.Mapping? {
      LookupEntry(root, k);
      assert HasPrefix(OVERRIDES + k, OVERRIDES);
    }
  }

  lemma LookupEntry(root: Yaml, m: string)
    requires root.kind.Mapping? && Get(root, "license_overrides").Some? && Get(root, "license_overrides").value.kind.Mapping?
    ensures Lookup(root, ["license_overrides", m]) == Get(Get(root, "license_overrides").value, m)
  {
    var section := Get(root, "license_overrides").value;
    assert ["license_overrides", m][1..] == [m] && [m][1..] == [];
    assert Lookup(section, [m]) == if Get(section, m).None? then None else Lookup(Get(section, m).value, []);
  }

  // ---- where a key is read ----

  const PREFERENCES := "preferences"
  const STALENESS := "staleness"
  const COPYRIGHT := "copyright_declarations"

  predicate InSection(key: string, section: string) {
    HasPrefix(key, section + ".")
  }

  function Tail(key: string, section: string): string
    requires InSection(key, section)
  {
    TrimPrefix(key, section + ".")
  }

  function LicenceKeyPath(key: string): Option<Path> {
    if key == "license_policy.categories" then Some(["license_policy", "categories"])
    else if HasPrefix(key, CATEGORIES) then Some(["license_policy", "categories", TrimPrefix(key, CATEGORIES)])
    else if key == "license_policy.rules" then Some(["license_policy", "rules"])
    else if key == "license_overrides" then Some(["license_overrides"])
    else if HasPrefix(key, OVERRIDES) then Some(["license_overrides", TrimPrefix(key, OVERRIDES)])
    else None
  }

  /** The YAML path of a key that can be read: a settable one, a whole section, or
      a copyright declaration. */
  function ConfigKeyPath(key: string): Option<Path> {
    if key == "version" then Some(["version"])
    else if InSection(key, PREFERENCES) then Some([PREFERENCES, Tail(key, PREFERENCES)])
    else if LicenceKeyPath(key).Some? then LicenceKeyPath(key)
    else if key == COPYRIGHT then Some([COPYRIGHT])
    else if InSection(key, COPYRIGHT) then Some([COPYRIGHT, Tail(key, COPYRIGHT)])
    else if InSection(key, STALENESS) then Some([STALENESS, Tail(key, STALENESS)])
    else FixedPath(key)
  }

  /** What can be read and not set: the version, two whole sections, the rules, and the
      copyright declarations, whole or one. */
  lemma ReadableKeys(name: string)
    ensures ConfigKeyPath("version") == Some(["version"])
    ensures ConfigKeyPath("license_policy.categories") == Some(["license_policy", "categories"])
    ensures ConfigKeyPath("license_policy.rules") == Some(["license_policy", "rules"])
    ensures ConfigKeyPath("license_overrides") == Some(["license_overrides"])
    ensures ConfigKeyPath("copyright_declarations") == Some(["copyright_declarations"])
    ensures ConfigKeyPath("copyright_declarations." + name) == Some(["copyright_declarations", name])
    ensures ConfigKeyPath("preferences." + name) == Some(["preferences", name])
    ensures ConfigKeyPath("staleness." + name) == Some(["staleness", name])
  {
    StartsApart("license_policy.categories", name);
    StartsApart("license_policy.rules", name);
    StartsApart("license_overrides", name);
    var declaration, preference, staleness := "copyright_declarations." + name, "preferences." + name, "staleness." + name;
    assert declaration[0] == 'c' && preference[0] == 'p' && staleness[0] == 's' && "version"[0] == 'v' && "copyright_declarations"[0] == 'c';
    assert PREFERENCES[0] == 'p' && STALENESS[0] == 's' && COPYRIGHT[0] == 'c';
    assert |declaration| > |COPYRIGHT|;
    assert Tail(declaration, COPYRIGHT) == name && Tail(preference, PREFERENCES) == name && Tail(staleness, STALENESS) == name;
    NotALicenceKey(declaration);
    NotALicenceKey(staleness);
    NotALicenceKey("copyright_declarations");
  }

  lemma StartsApart(key: string, name: string)
    requires key in {"license_policy.categories", "license_policy.rules", "license_overrides"}
    ensures key != "version" && !InSection(key, PREFERENCES) && !HasPrefix(key, CATEGORIES)
    ensures key == "license_policy.categories" ==> LicenceKeyPath(key) == Some(["license_policy", "categories"])
    ensures key == "license_policy.rules" ==> LicenceKeyPath(key) == Some(["license_policy", "rules"])
    ensures key == "license_overrides" ==> LicenceKeyPath(key) == Some(["license_overrides"])
  {
    assert key[0] == 'l' && "version"[0] == 'v' && PREFERENCES[0] == 'p';
    assert |key| <= 25 && |CATEGORIES| == 26;
    assert |"license_policy.categories"| == 25 && |"license_policy.rules"| == 20 && |"license_overrides"| == 17;
  }

  lemma NotALicenceKey(key: string)
    requires key != "" && key[0] != 'l'
    ensures LicenceKeyPath(key).None?
  {
    if LicenceKeyPath(key).Some? {
      LicenceKeyStart(key);
    }
  }

  /** A fixed key has one section, up to its dot. */
  lemma SectionIsUnique(s: string, n: string, section: string)
    requires '.' !in s && '.' !in section && InSection(s + "." + n, section)
    ensures s == section && n == Tail(s + "." + n, section)
  {
    var rest := Tail(s + "." + n, section);
    assert section + ['.'] + rest == s + "." + n;
    Coordinates.SplitAtMark(s, section, '.', n, rest);
  }

  lemma SectionsHaveNoDot(j: nat)
    requires j < |FIXED|
    ensures '.' !in FIXED[j].0 && FIXED[j].0 != COPYRIGHT
  {
    assert |COPYRIGHT| == 22;
  }

  lemma DottedKey(s: string, n: string)
    ensures var key := s + "." + n; key != "version" && key != COPYRIGHT
  {
    assert (s + "." + n)[|s|] == '.';
    assert '.' !in "version" && '.' !in COPYRIGHT;
  }

  lemma LicenceKeyStart(key: string)
    requires LicenceKeyPath(key).Some?
    ensures key != "" && key[0] == 'l'
  {
    assert "license_policy.categories"[0] == "license_policy.rules"[0] == "license_overrides"[0] == 'l';
    assert CATEGORIES[0] == OVERRIDES[0] == 'l';
  }

  lemma CategoryKey(key: string)
    requires HasPrefix(key, CATEGORIES)
    ensures key[0] == 'l' && LicenceKeyPath(key) == Some(["license_policy", "categories", TrimPrefix(key, CATEGORIES)])
  {
    assert |key| >= |CATEGORIES| == 26 && |"license_policy.categories"| == 25;
    assert CATEGORIES[0] == 'l';
  }

  lemma OverrideKey(key: string)
    requires HasPrefix(key, OVERRIDES)
    ensures key[0] == 'l' && LicenceKeyPath(key) == Some(["license_overrides", TrimPrefix(key, OVERRIDES)])
  {
    assert |key| >= |OVERRIDES| == 18 && |"license_overrides"| == 17;
    assert OVERRIDES[0] == 'l';
    assert key[8] == OVERRIDES[8] == 'o';
    assert CATEGORIES[8] == "license_policy.rules"[8] == "license_policy.categories"[8] == 'p';
  }

  lemma FixedKeyStandsApart(key: string)
    requires FixedPath(key).Some?
    ensures var p := FixedPath(key).value;
            && '.' !in p[0] && p[0] != COPYRIGHT && key == p[0] + "." + p[1]
            && key != "" && key[0] != 'l' && key != "version" && key != COPYRIGHT
  {
    var p := FixedPath(key).value;
    var j :| 0 <= j < |FIXED| && FIXED[j].0 == p[0];
    FixedSections(j);
    SectionsHaveNoDot(j);
    DottedKey(p[0], p[1]);
    assert key[0] == p[0][0];
  }

  lemma FixedKeyInSection(key: string, section: string)
    requires FixedPath(key).Some? && '.' !in section && InSection(key, section)
    ensures FixedPath(key) == Some([section, Tail(key, section)]) && section != COPYRIGHT
  {
    var p := FixedPath(key).value;
    FixedKeyStandsApart(key);
    SectionIsUnique(p[0], p[1], section);
    assert p == [p[0], p[1]];
  }

  lemma NeitherVersionNorPreference(key: string)
    requires key != "" && key[0] == 'l'
    ensures key != "version" && !InSection(key, PREFERENCES)
  {
    assert PREFERENCES[0] == 'p' && "version"[0] == 'v';
  }

  lemma FixedIsReadable(key: string)
    requires FixedPath(key).Some?
    ensures ConfigKeyPath(key) == FixedPath(key)
  {
    FixedKeyStandsApart(key);
    assert '.' !in PREFERENCES && '.' !in COPYRIGHT && '.' !in STALENESS;
    if LicenceKeyPath(key).Some? {
      LicenceKeyStart(key);
    }
    if InSection(key, PREFERENCES) {
      FixedKeyInSection(key, PREFERENCES);
    } else if InSection(key, COPYRIGHT) {
      FixedKeyInSection(key, COPYRIGHT);
    } else if InSection(key, STALENESS) {
      FixedKeyInSection(key, STALENESS);
    }
  }

  /** Every key `config set` can write is read where it was written. */
  lemma SettableIsReadable(key: string)
    requires ConfigSetPath(key).Some?
    ensures ConfigKeyPath(key) == ConfigSetPath(key)
  {
    if FixedPath(key).Some? {
      FixedIsReadable(key);
    } else if HasPrefix(key, CATEGORIES) {
      CategoryKey(key);
      NeitherVersionNorPreference(key);
    } else {
      OverrideKey(key);
      NeitherVersionNorPreference(key);
    }
  }
}
