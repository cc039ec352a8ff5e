/** The build frame an invocation declares, and the open containers that must read
    and analyse in it. */
module BuildFrame {
  import opened Wrappers

  /** A platform pair; both halves empty when none was declared. */
  datatype Target = Target(goos: string, goarch: string)

  datatype TinyGo = NoTinyGo | TinyGo(name: string, goos: string, goarch: string)

  datatype Declaration = Declaration(target: Target, tinygo: TinyGo)

  /** The frame call-graph reads select. */
  datatype Frame = Frame(goos: string, goarch: string, tinygo: string)

  function NoTarget(): Target {
    Target("", "")
  }

  function NoDeclaration(): Declaration {
    Declaration(NoTarget(), NoTinyGo)
  }

  predicate NamesBothHalves(t: Target) {
    t.goos != "" && t.goarch != ""
  }

  function InvocationFrame(d: Declaration, host: Target): Frame {
    if d.tinygo.TinyGo? then Frame(d.tinygo.goos, d.tinygo.goarch, d.tinygo.name)
    else if NamesBothHalves(d.target) then Frame(d.target.goos, d.target.goarch, "")
    else Frame(host.goos, host.goarch, "")
  }

  /** The frame a declaration selects: a TinyGo target's own platform and name, else
      the pair declared, else, with no pair declared, the host's. */
  predicate Selects(d: Declaration, host: Target, f: Frame) {
    && (d.tinygo.TinyGo? ==> f.goos == d.tinygo.goos && f.goarch == d.tinygo.goarch && f.tinygo == d.tinygo.name)
    && (d.tinygo.NoTinyGo? && d.target.goos != "" && d.target.goarch != "" ==>
          f.goos == d.target.goos && f.goarch == d.target.goarch && f.tinygo == "")
    && (d.tinygo.NoTinyGo? && (d.target.goos == "" || d.target.goarch == "") ==>
          f.goos == host.goos && f.goarch == host.goarch && f.tinygo == "")
  }

  // ---- the flags ----

  datatype Flags = Flags(goos: string, goarch: string, target: string, tinygo: string)

  predicate Declared(f: Flags) {
    f.target != "" || f.goos != "" || f.goarch != "" || f.tinygo != ""
  }

  /** What the commands in hand answer: the pairs the toolchain builds for, or no
      answer, and the frames the tinygo command knows by name. */
  datatype Environment = Environment(
    space: char -> bool,
    pairs: Option<set<Target>>,
    tinygo: map<string, Declaration>)

  function TrimLeft(s: string, space: char -> bool): string {
    if s != "" && space(s[0]) then TrimLeft(s[1..], space) else s
  }

  function TrimRight(s: string, space: char -> bool): string {
    if s != "" && space(s[|s| - 1]) then TrimRight(s[..|s| - 1], space) else s
  }

  function Trim(s: string, space: char -> bool): string {
    TrimRight(TrimLeft(s, space), space)
  }

  function SlashAt(s: string): (i: nat)
    ensures i <= |s| && (i < |s| ==> s[i] == '/') && '/' !in s[..i]
  {
    if s == "" || s[0] == '/' then 0
    else
      var i := 1 + SlashAt(s[1..]);
      assert s[..i] == [s[0]] + s[1..][..i - 1];
      i
  }

  function NewTarget(goos: string, goarch: string): Option<Target> {
    if goos == "" || goarch == "" then None else Some(Target(goos, goarch))
  }

  function ParseTarget(pair: string, space: char -> bool): Option<Target> {
    var s := Trim(pair, space);
    var i := SlashAt(s);
    if i == |s| then None else NewTarget(Trim(s[..i], space), Trim(s[i + 1..], space))
  }

  /** The pair the flags declare; none when they state the platform twice, or half
      of it. */
  function Parse(f: Flags, space: char -> bool): Option<Target> {
    if f.tinygo != "" then
      if f.target != "" || f.goos != "" || f.goarch != "" then None else Some(NoTarget())
    else if f.target != "" then
      if f.goos != "" || f.goarch != "" then None else ParseTarget(f.target, space)
    else if !Declared(f) then Some(NoTarget())
    else NewTarget(f.goos, f.goarch)
  }

  lemma {:induction false} TrimKeeps(s: string, space: char -> bool)
    requires forall i :: 0 <= i < |s| ==> !space(s[i])
    ensures Trim(s, space) == s
  {
  }

  lemma {:induction false} FirstSlash(before: string, after: string)
    requires '/' !in before
    ensures SlashAt(before + "/" + after) == |before|
  {
    var s := before + "/" + after;
    if before != "" {
      assert s[1..] == before[1..] + "/" + after;
      assert s[0] == before[0];
      FirstSlash(before[1..], after);
    }
  }

  predicate AllSpace(s: string, space: char -> bool) {
    forall i :: 0 <= i < |s| ==> space(s[i])
  }

  predicate Trimmed(s: string, space: char -> bool) {
    s != "" ==> !space(s[0]) && !space(s[|s| - 1])
  }

  lemma {:induction false} TrimLeftOf(left: string, s: string, space: char -> bool)
    requires AllSpace(left, space) && (s == "" || !space(s[0]))
    ensures TrimLeft(left + s, space) == s
  {
    if left != "" {
      assert (left + s)[1..] == left[1..] + s;
      TrimLeftOf(left[1..], s, space);
    } else {
      assert left + s == s;
    }
  }

  lemma {:induction false} TrimRightOf(s: string, right: string, space: char -> bool)
    requires AllSpace(right, space) && (s == "" || !space(s[|s| - 1]))
    ensures TrimRight(s + right, space) == s
  {
    if right != "" {
      var n := |right| - 1;
      assert (s + right)[..|s| + n] == s + right[..n] && (s + right)[|s| + n] == right[n];
      TrimRightOf(s, right[..n], space);
    } else {
      assert s + right == s;
    }
  }

  /** What is trimmed off is the space around. */
  lemma TrimOf(left: string, s: string, right: string, space: char -> bool)
    requires AllSpace(left, space) && AllSpace(right, space) && Trimmed(s, space)
    ensures Trim(left + s + right, space) == s
  {
    if s == "" {
      assert left + s + right == (left + right) + "";
      TrimLeftOf(left + right, "", space);
      assert (left + right) + "" == left + right;
    } else {
      assert left + s + right == left + (s + right);
      TrimLeftOf(left, s + right, space);
      TrimRightOf(s, right, space);
    }
  }

  /** The pair as a caller may write it: the operating system, a slash, the
      architecture, and space around each. */
  lemma PairIsParsed(a: string, goos: string, b: string, c: string, goarch: string, d: string, space: char -> bool)
    requires AllSpace(a, space) && AllSpace(b, space) && AllSpace(c, space) && AllSpace(d, space) && !space('/')
    requires Trimmed(goos, space) && Trimmed(goarch, space) && '/' !in goos && goos != "" && goarch != ""
    ensures ParseTarget(a + goos + b + "/" + c + goarch + d, space) == Some(Target(goos, goarch))
  {
    var inner := goos + b + "/" + c + goarch;
    assert a + goos + b + "/" + c + goarch + d == a + inner + d;
    assert inner[0] == goos[0] && inner[|inner| - 1] == goarch[|goarch| - 1];
    TrimOf(a, inner, d, space);
    assert '/' !in goos + b by {
      assert forall i :: 0 <= i < |b| ==> b[i] != '/';
    }
    assert inner == (goos + b) + "/" + (c + goarch);
    FirstSlash(goos + b, c + goarch);
    assert inner[..|goos + b|] == "" + goos + b && inner[|goos + b| + 1..] == c + goarch + "";
    TrimOf("", goos, b, space);
    TrimOf(c, goarch, "", space);
  }

  /** What the flags declare: the halves as they stand, in their order; and what is
      refused: two spellings at once, half a pair, and a pair with no slash. */
  lemma FlagsDeclare(f: Flags, space: char -> bool)
    ensures f.tinygo == "" && f.target == "" && f.goos != "" && f.goarch != "" ==>
              Parse(f, space) == Some(Target(f.goos, f.goarch))
    ensures f.tinygo == "" && f.target == "" && (f.goos == "" <==> f.goarch != "") ==> Parse(f, space).None?
    ensures f.tinygo != "" && (f.target != "" || f.goos != "" || f.goarch != "") ==> Parse(f, space).None?
    ensures f.target != "" && (f.goos != "" || f.goarch != "") ==> Parse(f, space).None?
    ensures f.target != "" && '/' !in f.target ==> Parse(f, space).None?
  {
    if f.target != "" && '/' !in f.target {
      TrimHolds(f.target, space, '/');
    }
  }

  lemma {:induction false} TrimLeftHolds(s: string, space: char -> bool, x: char)
    requires x !in s
    ensures x !in TrimLeft(s, space)
  {
    if s != "" && space(s[0]) {
      TrimLeftHolds(s[1..], space, x);
    }
  }

  lemma {:induction false} TrimRightHolds(s: string, space: char -> bool, x: char)
    requires x !in s
    ensures x !in TrimRight(s, space)
  {
    if s != "" && space(s[|s| - 1]) {
      TrimRightHolds(s[..|s| - 1], space, x);
    }
  }

  lemma TrimHolds(s: string, space: char -> bool, x: char)
    requires x !in s
    ensures x !in Trim(s, space)
  {
    TrimLeftHolds(s, space, x);
    TrimRightHolds(TrimLeft(s, space), space, x);
  }

  /** The pair and its halves are two spellings of one declaration. */
  lemma TwoSpellings(goos: string, goarch: string, space: char -> bool)
    requires '/' !in goos && !space('/')
    requires forall i :: 0 <= i < |goos| ==> !space(goos[i])
    requires forall i :: 0 <= i < |goarch| ==> !space(goarch[i])
    ensures goos != "" || goarch != "" ==>
              Parse(Flags("", "", goos + "/" + goarch, ""), space) == Parse(Flags(goos, goarch, "", ""), space)
  {
    var pair := goos + "/" + goarch;
    TrimKeeps(pair, space);
    assert pair[|goos|] == '/';
    FirstSlash(goos, goarch);
    assert pair[..|goos|] == goos && pair[|goos| + 1..] == goarch;
    TrimKeeps(goos, space);
    TrimKeeps(goarch, space);
  }

  /** A declaration the commands in hand stand behind. */
  predicate Validated(f: Flags, env: Environment, d: Declaration) {
    && Parse(f, env.space).Some?
    && (if f.tinygo != "" then f.tinygo in env.tinygo && d == env.tinygo[f.tinygo]
        else env.pairs.Some? && d.target in env.pairs.value && d == Declaration(Parse(f, env.space).value, NoTinyGo))
  }

  // ---- the open containers ----

  class Container {
    var analyser: Option<Declaration>
    var frames: Option<Frame>
    /** The build-list resolver and the scanner take the declaration once. */
    const resolver: Declaration

    constructor (hasAnalyser: bool, hasFrames: bool, now: Declaration)
      ensures analyser.Some? == hasAnalyser && frames.Some? == hasFrames && resolver == now
    {
      analyser := if hasAnalyser then Some(NoDeclaration()) else None;
      frames := if hasFrames then Some(Frame("", "", "")) else None;
      resolver := now;
    }

    ghost predicate Agrees(d: Declaration, host: Target)
      reads this
    {
      && (analyser.Some? ==> analyser.value == d)
      && (frames.Some? ==> frames.value == InvocationFrame(d, host))
    }

    method AdoptDeclaredFrame(d: Declaration, host: Target)
      modifies this
      ensures Agrees(d, host)
      ensures frames.Some? ==> Selects(d, host, frames.value)
      ensures analyser.Some? == old(analyser.Some?) && frames.Some? == old(frames.Some?)
    {
      if analyser.Some? {
        analyser := Some(d);
      }
      if frames.Some? {
        frames := Some(InvocationFrame(d, host));
      }
    }
  }

  class Invocation {
    const host: Target
    var declaration: Declaration
    var live: set<Container>

    constructor (host: Target)
      ensures this.host == host && declaration == NoDeclaration() && live == {} && Agrees()
    {
      this.host, declaration, live := host, NoDeclaration(), {};
    }

    /** Every open container analyses and reads in the declared frame. */
    ghost predicate Agrees()
      reads this, live
    {
      forall c :: c in live ==> c.Agrees(declaration, host)
    }

    /** Every open container with a read frame reads in this one. */
    ghost predicate AllRead(goos: string, goarch: string, tinygo: string)
      reads this, live
    {
      forall c :: c in live && c.frames.Some? ==> c.frames.value == Frame(goos, goarch, tinygo)
    }

    method Declare(d: Declaration)
      modifies this`declaration, live
      ensures declaration == d && Agrees()
      ensures forall c :: c in live ==>
                c.analyser.Some? == old(c.analyser.Some?) && c.frames.Some? == old(c.frames.Some?)
    {
      declaration := d;
      var todo := live;
      while todo != {}
        invariant todo <= live && declaration == d
        invariant forall c :: c in live - todo ==> c.Agrees(d, host)
        invariant forall c :: c in live ==>
                    c.analyser.Some? == old(c.analyser.Some?) && c.frames.Some? == old(c.frames.Some?)
      {
        var c :| c in todo;
        c.AdoptDeclaredFrame(d, host);
        todo := todo - {c};
      }
    }

    method OpenStore(hasAnalyser: bool, hasFrames: bool) returns (c: Container)
      requires Agrees()
      modifies this`live
      ensures fresh(c) && live == old(live) + {c} && Agrees()
      ensures c.resolver == declaration && c.analyser.Some? == hasAnalyser && c.frames.Some? == hasFrames
      ensures c.Agrees(declaration, host)
    {
      c := new Container(hasAnalyser, hasFrames, declaration);
      c.AdoptDeclaredFrame(declaration, host);
      live := live + {c};
    }

    method Release(c: Container)
      requires Agrees()
      modifies this`live
      ensures live == old(live) - {c} && Agrees()
    {
      live := live - {c};
    }

    /** Whatever it returns, no earlier declaration survives it. */
    method ResolveBuildTarget(f: Flags, env: Environment) returns (ok: bool)
      modifies this`declaration, live
      ensures Agrees()
      ensures ok <==> !Declared(f) || exists d :: Validated(f, env, d)
      ensures if ok && Declared(f) then Validated(f, env, declaration) else declaration == NoDeclaration()
      ensures forall c :: c in live ==>
                c.analyser.Some? == old(c.analyser.Some?) && c.frames.Some? == old(c.frames.Some?)
      ensures ok && f.tinygo == "" && f.goos != "" ==>
                env.pairs.Some? && Target(f.goos, f.goarch) in env.pairs.value && AllRead(f.goos, f.goarch, "")
      ensures ok && f.tinygo == "" && f.target != "" ==>
                && env.pairs.Some? && declaration.target in env.pairs.value
                && ParseTarget(f.target, env.space) == Some(declaration.target)
                && AllRead(declaration.target.goos, declaration.target.goarch, "")
      ensures ok && f.tinygo != "" ==>
                f.tinygo in env.tinygo && declaration == env.tinygo[f.tinygo] &&
                (declaration.tinygo.TinyGo? ==>
                   AllRead(declaration.tinygo.goos, declaration.tinygo.goarch, declaration.tinygo.name))
      ensures !ok || !Declared(f) ==> AllRead(host.goos, host.goarch, "")
    {
      Declare(NoDeclaration());
      if !Declared(f) {
        return true;
      }
      var t := Parse(f, env.space);
      if t.None? {
        return false;
      }
      if f.tinygo != "" {
        ok := ResolveTinyGoTarget(f.tinygo, env);
        assert ok ==> Validated(f, env, env.tinygo[f.tinygo]);
        return;
      }
      ParsedIsDeclared(f, env.space);
      if env.pairs.None? || t.value !in env.pairs.value {
        return false;
      }
      Declare(Declaration(t.value, NoTinyGo));
      assert Validated(f, env, declaration);
      ok := true;
    }

    method ResolveTinyGoTarget(name: string, env: Environment) returns (ok: bool)
      requires Agrees()
      modifies this`declaration, live
      ensures Agrees() && ok == (name in env.tinygo)
      ensures declaration == if ok then env.tinygo[name] else old(declaration)
      ensures forall c :: c in live ==>
                c.analyser.Some? == old(c.analyser.Some?) && c.frames.Some? == old(c.frames.Some?)
    {
      if name !in env.tinygo {
        return false;
      }
      Declare(env.tinygo[name]);
      ok := true;
    }

    /** A declaration beside a walk named by id is refused before it is resolved,
        so what was declared before is left standing. */
    method ResolveReadTarget(f: Flags, selectsByManifest: bool, env: Environment) returns (ok: bool)
      requires Agrees()
      modifies this`declaration, live
      ensures Agrees()
      ensures ok <==> !Declared(f) || (selectsByManifest && exists d :: Validated(f, env, d))
      ensures Declared(f) && !selectsByManifest ==> declaration == old(declaration)
      ensures !Declared(f) || selectsByManifest ==>
                if ok && Declared(f) then Validated(f, env, declaration) else declaration == NoDeclaration()
      ensures forall c :: c in live ==>
                c.analyser.Some? == old(c.analyser.Some?) && c.frames.Some? == old(c.frames.Some?)
    {
      if !Declared(f) {
        ok := ResolveBuildTarget(f, env);
        return;
      }
      if !selectsByManifest {
        return false;
      }
      ok := ResolveBuildTarget(f, env);
    }
  }

  lemma ParsedIsDeclared(f: Flags, space: char -> bool)
    requires Declared(f) && f.tinygo == "" && Parse(f, space).Some?
    ensures NamesBothHalves(Parse(f, space).value)
  {
  }

  // ---- whole runs ----

  datatype Step =
    | Opens(hasAnalyser: bool, hasFrames: bool)
    | Releases(which: nat)
    | Declares(d: Declaration)
    | Resolves(f: Flags, env: Environment)
    | ResolvesRead(f: Flags, selectsByManifest: bool, env: Environment)

  /** What a resolution leaves declared. */
  ghost function Settled(f: Flags, env: Environment): Declaration {
    if exists d :: Declared(f) && Validated(f, env, d) then
      var d :| Declared(f) && Validated(f, env, d);
      d
    else NoDeclaration()
  }

  ghost function After(d: Declaration, step: Step): Declaration {
    match step
    case Opens(_, _) => d
    case Releases(_) => d
    case Declares(e) => e
    case Resolves(f, env) => Settled(f, env)
    case ResolvesRead(f, selects, env) => if Declared(f) && !selects then d else Settled(f, env)
  }

  /** The declaration in force once the steps have run. */
  ghost function InForce(d: Declaration, steps: seq<Step>): Declaration {
    if steps == [] then d else After(InForce(d, steps[..|steps| - 1]), steps[|steps| - 1])
  }

  /** A container as it stands, and whether it is still open. */
  datatype Cell = Cell(analyser: Option<Declaration>, frames: Option<Frame>, resolver: Declaration, open: bool)

  /** The declaration in force, and every container opened, by the order they were
      opened in. */
  datatype Scene = Scene(declaration: Declaration, cells: seq<Cell>)

  function Wired(c: Cell, d: Declaration, host: Target): Cell {
    c.(analyser := if c.analyser.Some? then Some(d) else None,
       frames := if c.frames.Some? then Some(InvocationFrame(d, host)) else None)
  }

  function Rewired(c: Cell, d: Declaration, host: Target): Cell {
    if c.open then Wired(c, d, host) else c
  }

  function NewCell(hasAnalyser: bool, hasFrames: bool, d: Declaration, host: Target): Cell {
    Cell(if hasAnalyser then Some(d) else None, if hasFrames then Some(InvocationFrame(d, host)) else None, d, true)
  }

  function Redeclared(sc: Scene, d: Declaration, host: Target): Scene {
    Scene(d, seq(|sc.cells|, i requires 0 <= i < |sc.cells| => Rewired(sc.cells[i], d, host)))
  }

  ghost function SceneAfter(sc: Scene, step: Step, host: Target): Scene {
    match step
    case Opens(hasAnalyser, hasFrames) =>
      sc.(cells := sc.cells + [NewCell(hasAnalyser, hasFrames, sc.declaration, host)])
    case Releases(which) =>
      if which < |sc.cells| then sc.(cells := sc.cells[which := sc.cells[which].(open := false)]) else sc
    case _ => if Forgets(step) then Redeclared(sc, After(sc.declaration, step), host) else sc
  }

  ghost function Played(sc: Scene, steps: seq<Step>, host: Target): Scene {
    if steps == [] then sc else SceneAfter(Played(sc, steps[..|steps| - 1], host), steps[|steps| - 1], host)
  }

  ghost predicate Mirrors(c: Container, cell: Cell)
    reads c
  {
    c.analyser == cell.analyser && c.frames == cell.frames && c.resolver == cell.resolver
  }

  /** The objects are as the scene says. */
  ghost predicate Staged(inv: Invocation, containers: seq<Container>, sc: Scene)
    reads inv, containers
  {
    && inv.declaration == sc.declaration && |containers| == |sc.cells|
    && (forall i :: 0 <= i < |containers| ==> Mirrors(containers[i], sc.cells[i]))
    && (forall i :: 0 <= i < |containers| ==> (containers[i] in inv.live <==> sc.cells[i].open))
    && (forall i, j :: 0 <= i < j < |containers| ==> containers[i] != containers[j])
  }

  /** The steps, in order. Every container open agrees with the declaration, and every
      one opened, open or released, stands as the run leaves it. */
  method Run(inv: Invocation, steps: seq<Step>) returns (containers: seq<Container>)
    requires inv.Agrees()
    modifies inv`declaration, inv`live, inv.live
    ensures inv.Agrees() && inv.declaration == InForce(old(inv.declaration), steps)
    ensures Staged(inv, containers, Played(Scene(old(inv.declaration), []), steps, inv.host))
  {
    containers := [];
    ghost var start := Scene(inv.declaration, []);
    for i := 0 to |steps|
      invariant inv.Agrees() && fresh(inv.live - old(inv.live))
      invariant Staged(inv, containers, Played(start, steps[..i], inv.host))
    {
      assert steps[..i + 1][..i] == steps[..i];
      containers := TakeStep(inv, containers, steps[i], Played(start, steps[..i], inv.host));
    }
    assert steps[..|steps|] == steps;
    PlayedDeclares(start, steps, inv.host);
  }

  /** One step of a run. */
  method TakeStep(inv: Invocation, containers: seq<Container>, step: Step, ghost sc: Scene) returns (after: seq<Container>)
    requires inv.Agrees() && Staged(inv, containers, sc)
    modifies inv`declaration, inv`live, inv.live
    ensures inv.Agrees() && Staged(inv, after, SceneAfter(sc, step, inv.host))
    ensures fresh(inv.live - old(inv.live))
  {
    after := containers;
    match step {
      case Opens(hasAnalyser, hasFrames) =>
        var c := inv.OpenStore(hasAnalyser, hasFrames);
        assert Mirrors(c, NewCell(hasAnalyser, hasFrames, sc.declaration, inv.host));
        after := containers + [c];
      case Releases(which) =>
        if which < |containers| {
          inv.Release(containers[which]);
        }
      case _ =>
        TakeDeclaring(inv, step);
        forall i | 0 <= i < |containers|
          ensures Mirrors(containers[i], SceneAfter(sc, step, inv.host).cells[i])
        {
          if sc.cells[i].open {
            assert containers[i] in inv.live && containers[i].Agrees(inv.declaration, inv.host);
          }
        }
    }
  }

  /** A step that declares, resolves, or is refused. */
  method TakeDeclaring(inv: Invocation, step: Step)
    requires inv.Agrees() && !step.Opens? && !step.Releases?
    modifies inv`declaration, inv.live
    ensures inv.Agrees() && inv.declaration == After(old(inv.declaration), step)
    ensures forall c :: c in inv.live ==>
              c.analyser.Some? == old(c.analyser.Some?) && c.frames.Some? == old(c.frames.Some?)
  {
    match step {
      case Declares(d) =>
        inv.Declare(d);
      case Resolves(f, env) =>
        var ok := inv.ResolveBuildTarget(f, env);
        SettledIs(f, env, ok, inv.declaration);
      case ResolvesRead(f, selects, env) =>
        var ok := inv.ResolveReadTarget(f, selects, env);
        if !Declared(f) || selects {
          SettledIs(f, env, ok, inv.declaration);
        }
    }
  }

  lemma SettledIs(f: Flags, env: Environment, ok: bool, d: Declaration)
    requires ok <==> !Declared(f) || exists e :: Validated(f, env, e)
    requires if ok && Declared(f) then Validated(f, env, d) else d == NoDeclaration()
    ensures d == Settled(f, env)
  {
  }

  /** A step forgets what was declared before it exactly when it declares, resolves,
      or is a read that is not refused for naming its walk by id. */
  predicate Forgets(step: Step) {
    step.Declares? || step.Resolves? || (step.ResolvesRead? && (!Declared(step.f) || step.selectsByManifest))
  }

  lemma ForgetsIff(step: Step)
    ensures Forgets(step) <==> forall d, e :: After(d, step) == After(e, step)
  {
    if !Forgets(step) {
      var d, e := NoDeclaration(), Declaration(Target("js", "wasm"), NoTinyGo);
      assert After(d, step) != After(e, step);
    }
  }

  /** Once a step has forgotten, the run is the same whatever an earlier command in
      the process declared. */
  lemma {:induction false} NothingIsInherited(d: Declaration, e: Declaration, steps: seq<Step>, k: nat)
    requires k < |steps| && Forgets(steps[k])
    ensures InForce(d, steps) == InForce(e, steps)
  {
    if k < |steps| - 1 {
      NothingIsInherited(d, e, steps[..|steps| - 1], k);
    }
  }

  /** A run of refusals, openings and releases leaves the earlier declaration in
      force. */
  lemma {:induction false} EarlierDeclarationStands(d: Declaration, steps: seq<Step>)
    requires forall k :: 0 <= k < |steps| ==> !Forgets(steps[k])
    ensures InForce(d, steps) == d
  {
    if steps != [] {
      EarlierDeclarationStands(d, steps[..|steps| - 1]);
    }
  }

  lemma {:induction false} PlayedOn(sc: Scene, xs: seq<Step>, ys: seq<Step>, host: Target)
    ensures Played(sc, xs + ys, host) == Played(Played(sc, xs, host), ys, host)
  {
    if ys == [] {
      assert xs + ys == xs;
    } else {
      var n := |ys| - 1;
      assert (xs + ys)[..|xs| + n] == xs + ys[..n];
      PlayedOn(sc, xs, ys[..n], host);
    }
  }

  lemma PlayedTwo(sc: Scene, a: Step, b: Step, host: Target)
    ensures Played(sc, [a, b], host) == SceneAfter(SceneAfter(sc, a, host), b, host)
  {
    assert [a, b][..1] == [a] && [a][..0] == [];
    assert Played(sc, [a], host) == SceneAfter(sc, a, host);
  }

  lemma {:induction false} PlayedDeclares(sc: Scene, steps: seq<Step>, host: Target)
    ensures Played(sc, steps, host).declaration == InForce(sc.declaration, steps)
    ensures |Played(sc, steps, host).cells| >= |sc.cells|
  {
    if steps != [] {
      PlayedDeclares(sc, steps[..|steps| - 1], host);
    }
  }

  /** At the end of any run, every container still open analyses under the declaration
      then in force and reads in the frame it selects. */
  lemma {:induction false} OpenContainersReadAsDeclared(d: Declaration, steps: seq<Step>, host: Target)
    ensures var end := Played(Scene(d, []), steps, host);
            forall i :: 0 <= i < |end.cells| && end.cells[i].open ==>
              && (end.cells[i].analyser.Some? ==> end.cells[i].analyser.value == InForce(d, steps))
              && (end.cells[i].frames.Some? ==> Selects(InForce(d, steps), host, end.cells[i].frames.value))
  {
    if steps != [] {
      OpenContainersReadAsDeclared(d, steps[..|steps| - 1], host);
      PlayedDeclares(Scene(d, []), steps[..|steps| - 1], host);
    }
  }

  /** What a resolution leaves declared: the halves in their order, the pair as it is
      parsed, what the tinygo command says of a name, or nothing. */
  lemma SettledSays(f: Flags, env: Environment)
    ensures var d := Settled(f, env);
            var listed := env.pairs.Some? && Target(f.goos, f.goarch) in env.pairs.value;
            && (f.tinygo == "" && f.target == "" && f.goos != "" && f.goarch != "" ==>
                  d == if listed then Declaration(Target(f.goos, f.goarch), NoTinyGo) else NoDeclaration())
            && (f.tinygo != "" && f.target == "" && f.goos == "" && f.goarch == "" ==>
                  d == if f.tinygo in env.tinygo then env.tinygo[f.tinygo] else NoDeclaration())
            && (f == Flags("", "", "", "") ==> d == Declaration(Target("", ""), NoTinyGo))
  {
    FlagsDeclare(f, env.space);
    if f.tinygo == "" && f.target == "" && f.goos != "" && f.goarch != "" && env.pairs.Some? && Target(f.goos, f.goarch) in env.pairs.value {
      assert Validated(f, env, Declaration(Target(f.goos, f.goarch), NoTinyGo));
    }
    if f.tinygo != "" && f.target == "" && f.goos == "" && f.goarch == "" && f.tinygo in env.tinygo {
      assert Validated(f, env, env.tinygo[f.tinygo]);
    }
  }

  /** A container's resolver is what was declared when it was opened, whatever comes
      after. */
  lemma {:induction false} ResolverIsKept(d: Declaration, pre: seq<Step>, opening: Step, post: seq<Step>, host: Target)
    requires opening.Opens?
    ensures var k := |Played(Scene(d, []), pre, host).cells|;
            var end := Played(Scene(d, []), pre + [opening] + post, host);
            k < |end.cells| && end.cells[k].resolver == InForce(d, pre)
  {
    var start := Scene(d, []);
    if post == [] {
      assert pre + [opening] + post == pre + [opening];
      PlayedOn(start, pre, [opening], host);
      assert [opening][..0] == [];
      PlayedDeclares(start, pre, host);
    } else {
      var n := |post| - 1;
      ResolverIsKept(d, pre, opening, post[..n], host);
      assert (pre + [opening] + post)[..|pre| + 1 + n] == pre + [opening] + post[..n];
    }
  }

  /** Two scenes that differ at most in what the k-th container resolves under. */
  predicate Twins(a: Scene, b: Scene, k: nat, ra: Declaration, rb: Declaration) {
    && a.declaration == b.declaration && |a.cells| == |b.cells| && k < |a.cells|
    && (forall i :: 0 <= i < |a.cells| && i != k ==> a.cells[i] == b.cells[i])
    && a.cells[k].resolver == ra && b.cells[k].resolver == rb
    && a.cells[k] == b.cells[k].(resolver := ra)
  }

  lemma {:induction false} TwinsStay(a: Scene, b: Scene, k: nat, ra: Declaration, rb: Declaration, steps: seq<Step>, host: Target)
    requires Twins(a, b, k, ra, rb)
    ensures Twins(Played(a, steps, host), Played(b, steps, host), k, ra, rb)
  {
    if steps != [] {
      TwinsStay(a, b, k, ra, rb, steps[..|steps| - 1], host);
    }
  }

  /** Opening before a declaration or after it, anywhere in a run: every container
      ends with one analyser and one read frame either way, and is open either way.
      The one opened keeps in its resolver the declaration it was opened under, so
      the two runs end alike exactly when the step declared nothing new. */
  lemma OrderOfOpening(d: Declaration, pre: seq<Step>, opening: Step, settling: Step, post: seq<Step>, host: Target)
    requires opening.Opens? && !settling.Opens? && !settling.Releases?
    ensures var start := Scene(d, []);
            var first := Played(start, pre + [opening, settling] + post, host);
            var second := Played(start, pre + [settling, opening] + post, host);
            var before, after := InForce(d, pre), After(InForce(d, pre), settling);
            && Twins(first, second, |Played(start, pre, host).cells|, before, after)
            && (first == second <==> before == after)
  {
    var start := Scene(d, []);
    var at := Played(start, pre, host);
    PlayedDeclares(start, pre, host);
    PlayedOn(start, pre + [opening, settling], post, host);
    PlayedOn(start, pre, [opening, settling], host);
    PlayedTwo(at, opening, settling, host);
    PlayedOn(start, pre + [settling, opening], post, host);
    PlayedOn(start, pre, [settling, opening], host);
    PlayedTwo(at, settling, opening, host);
    SwappedTwins(at, opening, settling, host);
    var a := SceneAfter(SceneAfter(at, opening, host), settling, host);
    var b := SceneAfter(SceneAfter(at, settling, host), opening, host);
    TwinsStay(a, b, |at.cells|, at.declaration, After(at.declaration, settling), post, host);
    TwinsAreEqualIff(Played(a, post, host), Played(b, post, host), |at.cells|, at.declaration, After(at.declaration, settling));
  }

  lemma TwinsAreEqualIff(a: Scene, b: Scene, k: nat, ra: Declaration, rb: Declaration)
    requires Twins(a, b, k, ra, rb)
    ensures a == b <==> ra == rb
  {
    if ra == rb {
      assert a.cells == b.cells;
    }
  }

  lemma SwappedTwins(at: Scene, opening: Step, settling: Step, host: Target)
    requires opening.Opens? && !settling.Opens? && !settling.Releases?
    ensures var a := SceneAfter(SceneAfter(at, opening, host), settling, host);
            var b := SceneAfter(SceneAfter(at, settling, host), opening, host);
            Twins(a, b, |at.cells|, at.declaration, After(at.declaration, settling))
  {
  }
}
