/** Inputs on which the Rust and the Go port part, one for each condition under which they agree. */
module PortSplits {
  import opened Common
  import opened References
  import opened Expand
  import opened Values
  import opened GoPort
  import opened Ports
  import opened PortRuns
  import opened Sources
  import Collision
  import Numbers
  import Rerender

  /** A small grammar: a reference to `y`, a null, or the text itself. */
  function Read(src: string): Doc {
    if src == "@y" then Load(Text("y")) else if src == "null" then Lit(Leaf(Null)) else Lit(Leaf(Str(src)))
  }

  /** Both ports over the same sources and processors, with no implied extensions and no base. */
  function Both(files: map<string, string>, processors: map<string, Processor>, cap: Option<nat>,
                shown: Body -> string): Twins {
    Twins(MapResolver(files, [], ""),
          Setup(Read, map kind | kind in processors :: Call(processors[kind]), cap, true),
          GoEnv(files, [], "", Read, processors, true, Undefined, shown, (a, b) => Merge(a, b)))
  }

  const RAW: map<string, Processor> := map["" := RawText]

  function Nothingness(body: Body): string { "" }

  // ----- one load in each port -----

  lemma OnlyItself(full: string)
    ensures Potentials(full, []) == if full == "" then [] else [full]
  {
  }

  lemma RustFinding(m: MapResolver, from: string, reference: Option<string>, full: string)
    requires m.exts == [] && OrEmpty(ResolvePathSpec(reference, from).full) == full
    ensures m.ResolveFrom(from, reference).found <==> full != "" && full in m.files
    ensures full != "" && full in m.files ==> m.ResolveFrom(from, reference).spec.full == Some(full)
  {
    OnlyItself(full);
  }

  lemma GoFinding(files: map<string, string>, spec: GoSpec)
    ensures GoLookUp(files, [], spec).found <==> spec.full != "" && spec.full in files
    ensures spec.full != "" && spec.full in files ==> GoLookUp(files, [], spec).spec.full == spec.full
  {
    PotentialsAlike(spec.full, []);
    OnlyItself(spec.full);
  }

  /** A load that finds `key` is the run of its document below it, raised again. */
  lemma EnvLoads(env: Env, ctx: Context, body: Body, key: string)
    requires ValidEnv(env) && env.cap.None? && key !in ctx.Chain()
    requires var r := env.resolve(ctx.path, ReferenceOf(body)); r.found && r.spec.full == Some(key)
    ensures key in env.content
    ensures RunDoc(env, ctx, Load(body)).res ==
            Reraise(key, RunDoc(env, Context(ctx.Chain(), Some(key)), DocOf(env, key)).res)
  {
    assert RunDoc(env, ctx, Load(body)) == Directive(env, ctx, body);
  }

  lemma EnvMisses(env: Env, ctx: Context, body: Body)
    requires ValidEnv(env) && !env.resolve(ctx.path, ReferenceOf(body)).found
    ensures RunDoc(env, ctx, Load(body)).res.Err?
  {
    assert RunDoc(env, ctx, Load(body)) == Directive(env, ctx, body);
  }

  lemma RustLoads(t: Twins, ctx: Context, body: Body, key: string)
    requires t.setup.cap.None? && key in t.m.files && key !in ctx.Chain()
    requires var r := t.m.Resolve(ctx.path, ReferenceOf(body)); r.found && r.spec.full == Some(key)
    ensures RustRun(t, ctx, Load(body)).res ==
            Reraise(key, RustRun(t, Context(ctx.Chain(), Some(key)), DocOf(t.Rust(), key)).res)
  {
    MapEnvValid(t.m, t.setup);
    EnvLoads(t.Rust(), ctx, body, key);
  }

  lemma GoLoads(t: Twins, ctx: GoContext, body: Body, key: string)
    requires key in t.go.files && key !in ctx.Chain() && key != ""
    requires var g := GoResolve(t.go, ctx, GoReference(t.go.shown, body)); g.found && g.spec.full == key
    ensures var doc := GoProcessed(t.go, GoExtKind(key), t.go.files[key]);
            GoRunDoc(t.go, ctx, Load(body)).res ==
            GoReraise(GoReference(t.go.shown, body), GoRunDoc(t.go, GoContext(ctx.Chain(), key), doc).res)
  {
    assert GoRunDoc(t.go, ctx, Load(body)) == GoDirective(t.go, ctx, body);
  }

  // ----- names -----

  function OneText(name: string, shown: Body -> string): Twins { Both(map[name := "text"], RAW, None, shown) }

  lemma OneTextIsRaw(name: string, shown: Body -> string)
    ensures DocOf(OneText(name, shown).Rust(), name) == Lit(Leaf(Str("text")))
  {
  }

  lemma RustNamed(name: string, shown: Body -> string, body: Body)
    requires name != "" && OrEmpty(ReferenceOf(body)) == name
    ensures RustRun(OneText(name, shown), TOP_LEVEL, Load(body)).res == Ok(Leaf(Str("text")))
  {
    var t := OneText(name, shown);
    RustFinding(t.m, "", ReferenceOf(body), name);
    RustLoads(t, TOP_LEVEL, body, name);
    OneTextIsRaw(name, shown);
  }

  /** A source with a plain name is nothing to part on, whatever the reference. */
  lemma PlainNameKeepsStep(name: string)
    requires name != "" && '.' !in name && !IsSeparator(name[|name| - 1])
    ensures InStep(OneText(name, Nothingness))
  {
    var t := OneText(name, Nothingness);
    MapEnvValid(t.m, t.setup);
    NoKinds(name);
    OneTextIsRaw(name, Nothingness);
    assert ProcessedAlike(t, name);
    forall key | key in t.Rust().content ensures Portable(t.Rust(), t.go.shown, Some(key), DocOf(t.Rust(), key)) {
      assert key == name;
    }
  }

  /** The one source is found under its own name and under no other. */
  lemma RustNames(name: string, shown: Body -> string, body: Body)
    requires name != ""
    ensures RustRun(OneText(name, shown), TOP_LEVEL, Load(body)).res.Ok? <==> OrEmpty(ReferenceOf(body)) == name
  {
    var t := OneText(name, shown);
    if OrEmpty(ReferenceOf(body)) == name {
      RustNamed(name, shown, body);
    } else {
      MapEnvValid(t.m, t.setup);
      RustFinding(t.m, "", ReferenceOf(body), OrEmpty(ReferenceOf(body)));
      EnvMisses(t.Rust(), TOP_LEVEL, body);
    }
  }

  lemma GoNames(name: string, shown: Body -> string, body: Body)
    requires name != ""
    ensures GoRunDoc(OneText(name, shown).go, GO_TOP_LEVEL, Load(body)).res.Ok? <==> GoReference(shown, body) == name
  {
    var t := OneText(name, shown);
    GoFinding(t.go.files, GoPathSpec(GoReference(shown, body), ""));
    assert GoRunDoc(t.go, GO_TOP_LEVEL, Load(body)) == GoDirective(t.go, GO_TOP_LEVEL, body);
    if GoReference(shown, body) == name {
      GoLoads(t, GO_TOP_LEVEL, body, name);
      assert GoProcessed(t.go, GoExtKind(name), "text") == Lit(Leaf(Str("text")));
    }
  }

  /** A source that only one of the ports can name, whenever a body is not named alike. */
  lemma NameSplitsPorts(shown: Body -> string, body: Body) returns (name: string)
    requires BodyRendered(body) && !NamedAlike(shown, body)
    ensures var t := OneText(name, shown);
            !RunsMatch(RustRun(t, TOP_LEVEL, Load(body)), GoRunDoc(t.go, GO_TOP_LEVEL, Load(body)))
  {
    CoercionsAgree(shown, body);
    name := if OrEmpty(ReferenceOf(body)) != "" then OrEmpty(ReferenceOf(body)) else GoReference(shown, body);
    RustNames(name, shown, body);
    GoNames(name, shown, body);
  }

  /** Among them is a `path` that is a float: two to the power 863, however it is correctly rounded to its digits. */
  lemma NumberSplitsPorts(a: string, m: int) returns (name: string)
    requires Rerender.Rerendered(Collision.BIG as real, 16, a, m)
    ensures var t, body := OneText(name, Nothingness), Spec(Some(Numeric(Numbers.Finite(false, a, m))));
            !RunsMatch(RustRun(t, TOP_LEVEL, Load(body)), GoRunDoc(t.go, GO_TOP_LEVEL, Load(body)))
  {
    var number := Numbers.Finite(false, a, m);
    Collision.PortsNameBigApart(a, m);
    Numbers.PortsAgree(number);
    name := NameSplitsPorts(Nothingness, Spec(Some(Numeric(number))));
  }

  // ----- kinds -----

  const KIND_KEY: string := "x.y\\z"

  lemma TwoKinds()
    ensures ExtKind(Some(KIND_KEY)) == "" && GoExtKind(KIND_KEY) == "y\\z"
  {
    assert KIND_KEY[..4] == "x.y\\" && "x.y\\"[..3] == "x.y" && "x.y"[..2] == "x." && "x."[..1] == "x";
    assert GoExt("x") == "" by { assert "x"[..0] == ""; }
    assert GoExt("x.") == "." && GoExt("x.y") == ".y" && GoExt("x.y\\") == ".y\\" && GoExt(KIND_KEY) == ".y\\z";
    assert LastSegment(KIND_KEY) == "z" by {
      assert FolderLength("x.y\\") == 4;
    }
    assert "z"[..0] == "" && AfterLastDot("z") == None;
  }

  /** A dot before the last backslash: raw text in one port, and parsed in the other. */
  lemma KindSplitsPorts()
    ensures var t := Both(map[KIND_KEY := "null"], map["" := RawText, "y\\z" := Reparse], None, Nothingness);
            && RustRun(t, TOP_LEVEL, Load(Text(KIND_KEY))).res == Ok(Leaf(Str("null")))
            && GoRunDoc(t.go, GO_TOP_LEVEL, Load(Text(KIND_KEY))).res == Ok(Leaf(Null))
  {
    var t := Both(map[KIND_KEY := "null"], map["" := RawText, "y\\z" := Reparse], None, Nothingness);
    TwoKinds();
    RustFinding(t.m, "", Some(KIND_KEY), KIND_KEY);
    GoFinding(t.go.files, GoPathSpec(KIND_KEY, ""));
    RustLoads(t, TOP_LEVEL, Text(KIND_KEY), KIND_KEY);
    GoLoads(t, GO_TOP_LEVEL, Text(KIND_KEY), KIND_KEY);
    assert DocOf(t.Rust(), KIND_KEY) == Lit(Leaf(Str("null")));
    assert GoProcessed(t.go, "y\\z", "null") == Lit(Leaf(Null));
  }

  // ----- folders -----

  const FOLDER_FILES: map<string, string> := map["x/" := "@y", "x/y" := "inside", "y" := "beside"]

  function FolderTwins(): Twins { Both(FOLDER_FILES, map["" := Reparse], None, Nothingness) }

  lemma Folders()
    ensures SourceDir("x/") == "" && GoSourceDir("x/") == "x"
  {
    assert "x/"[..1] == "x" && IsSeparator("x/"[1]);
    assert TrimSeparators("x/") == TrimSeparators("x") == "x";
    assert FolderLength("x") == FolderLength("") == 0;
  }

  lemma NoKinds(path: string)
    requires '.' !in path
    ensures ExtKind(Some(path)) == "" && GoExtKind(path) == ""
  {
    AfterDotSome(LastSegment(path));
    TailParts(path);
    KindsAgree(path);
    assert forall c :: c in LastSegment(path) ==> c in path;
    TailInPath(path);
  }

  lemma {:induction false} TailInPath(path: string)
    ensures forall c :: c in SlashTail(path) ==> c in path
  {
    if path != "" {
      TailInPath(path[..|path| - 1]);
    }
  }

  lemma RustBeside()
    ensures RustRun(FolderTwins(), Context([], Some("x/")), Load(Text("y"))).res == Ok(Leaf(Str("beside")))
  {
    var t := FolderTwins();
    NoKinds("y");
    Folders();
    RustFinding(t.m, "", Some("y"), "y");
    RustLoads(t, Context([], Some("x/")), Text("y"), "y");
    assert DocOf(t.Rust(), "y") == Lit(Leaf(Str("beside")));
  }

  lemma GoInside()
    ensures GoRunDoc(FolderTwins().go, GoContext([], "x/"), Load(Text("y"))).res == Ok(Leaf(Str("inside")))
  {
    var t := FolderTwins();
    NoKinds("x/y");
    Folders();
    assert "x" + "/" + "y" == "x/y";
    GoFinding(t.go.files, GoPathSpec("y", "x"));
    GoLoads(t, GoContext([], "x/"), Text("y"), "x/y");
    assert GoProcessed(t.go, "", "inside") == Lit(Leaf(Str("inside")));
  }

  lemma FromFolder()
    ensures RustRun(FolderTwins(), TOP_LEVEL, Load(Text("x/"))).res ==
            Reraise("x/", RustRun(FolderTwins(), Context([], Some("x/")), Load(Text("y"))).res)
    ensures GoRunDoc(FolderTwins().go, GO_TOP_LEVEL, Load(Text("x/"))).res ==
            GoReraise("x/", GoRunDoc(FolderTwins().go, GoContext([], "x/"), Load(Text("y"))).res)
  {
    var t := FolderTwins();
    NoKinds("x/");
    RustFinding(t.m, "", Some("x/"), "x/");
    RustLoads(t, TOP_LEVEL, Text("x/"), "x/");
    GoFinding(t.go.files, GoPathSpec("x/", ""));
    GoLoads(t, GO_TOP_LEVEL, Text("x/"), "x/");
    assert DocOf(t.Rust(), "x/") == Load(Text("y")) && GoProcessed(t.go, "", "@y") == Load(Text("y"));
  }

  /** A key that ends in a separator: what it includes is looked for beside it, or inside it. */
  lemma FolderKeySplitsPorts()
    ensures RustRun(FolderTwins(), TOP_LEVEL, Load(Text("x/"))).res == Ok(Leaf(Str("beside")))
    ensures GoRunDoc(FolderTwins().go, GO_TOP_LEVEL, Load(Text("x/"))).res == Ok(Leaf(Str("inside")))
  {
    FromFolder();
    RustBeside();
    GoInside();
  }

  // ----- the cap -----

  /** A cap without room, which the Go port does not have. */
  lemma CapSplitsPorts()
    ensures var t := Both(map["x" := "text"], RAW, Some(0), Nothingness);
            && RustRun(t, TOP_LEVEL, Load(Text("x"))).res == Err(Depth("x", 0))
            && GoRunDoc(t.go, GO_TOP_LEVEL, Load(Text("x"))).res == Ok(Leaf(Str("text")))
  {
    var t := Both(map["x" := "text"], RAW, Some(0), Nothingness);
    MapEnvValid(t.m, t.setup);
    RustFinding(t.m, "", Some("x"), "x");
    assert RunDoc(t.Rust(), TOP_LEVEL, Load(Text("x"))) == Directive(t.Rust(), TOP_LEVEL, Text("x"));
    GoFinding(t.go.files, GoPathSpec("x", ""));
    GoLoads(t, GO_TOP_LEVEL, Text("x"), "x");
  }

  // ----- the splice -----

  const SPLICE: Doc := Members([Spliced(Text("x"))])

  lemma RustSplices(env: Env)
    requires ValidEnv(env) && RunDoc(env, TOP_LEVEL, Load(Text("x"))).res.Ok?
    ensures RunDoc(env, TOP_LEVEL, SPLICE).res ==
            Ok(Splice(env.extend, EMPTY, RunDoc(env, TOP_LEVEL, Load(Text("x"))).res.value))
  {
    var members := [Spliced(Text("x"))];
    assert members[1..] == [] && RunMember(env, TOP_LEVEL, members[0]) == RunDoc(env, TOP_LEVEL, Load(Text("x")));
    var node := Splice(env.extend, EMPTY, RunDoc(env, TOP_LEVEL, Load(Text("x"))).res.value);
    assert RunMembers(env, TOP_LEVEL, node, []) == Run(Ok(node), {});
    assert RunDoc(env, TOP_LEVEL, SPLICE) == RunMembers(env, TOP_LEVEL, EMPTY, members);
  }

  lemma GoSplices(env: GoEnv)
    requires GoRunDoc(env, GO_TOP_LEVEL, Load(Text("x"))).res.Ok?
    ensures GoRunDoc(env, GO_TOP_LEVEL, SPLICE).res ==
            Ok(GoSplice(env.deep, env.extend, EMPTY, GoRunDoc(env, GO_TOP_LEVEL, Load(Text("x"))).res.value))
  {
    var members := [Spliced(Text("x"))];
    assert members[1..] == [];
    assert GoRunMember(env, GO_TOP_LEVEL, members[0]) == GoRunDoc(env, GO_TOP_LEVEL, Load(Text("x")));
    var node := GoSplice(env.deep, env.extend, EMPTY, GoRunDoc(env, GO_TOP_LEVEL, Load(Text("x"))).res.value);
    assert GoRunMembers(env, GO_TOP_LEVEL, node, []) == Run(Ok(node), {});
    assert GoRunDoc(env, GO_TOP_LEVEL, SPLICE) == GoRunMembers(env, GO_TOP_LEVEL, EMPTY, members);
  }

  /** A text spliced into a map: it takes the place of the map, or is left out. */
  lemma SpliceSplitsPorts()
    ensures var t := Both(map["x" := "text"], RAW, None, Nothingness);
            && RustRun(t, TOP_LEVEL, SPLICE).res == Ok(Leaf(Str("text")))
            && GoRunDoc(t.go, GO_TOP_LEVEL, SPLICE).res == Ok(EMPTY)
  {
    var t := Both(map["x" := "text"], RAW, None, Nothingness);
    RustFinding(t.m, "", Some("x"), "x");
    RustLoads(t, TOP_LEVEL, Text("x"), "x");
    GoFinding(t.go.files, GoPathSpec("x", ""));
    GoLoads(t, GO_TOP_LEVEL, Text("x"), "x");
    assert DocOf(t.Rust(), "x") == Lit(Leaf(Str("text")));
    MapEnvValid(t.m, t.setup);
    RustSplices(t.Rust());
    GoSplices(t.go);
  }
}
