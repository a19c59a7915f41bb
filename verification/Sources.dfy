/** The built-in resolvers as environments of an expansion. */
module Sources {
  import opened Common
  import opened References
  import opened Expand
  import Values
  import Dependencies
  import ExpandGraph
  import Emptied
  import MapFs
  import Vfs

  /** What is left of an environment once its sources are fixed. */
  datatype Setup = Setup(parse: string -> Doc, processors: map<string, Entry>, cap: Option<nat>, extend: bool)

  function MapEnv(resolver: MapResolver, setup: Setup): Env {
    Env(resolver.files, (current, reference) => resolver.Resolve(current, reference),
        setup.parse, setup.processors, setup.cap, setup.extend)
  }

  lemma MapEnvValid(resolver: MapResolver, setup: Setup)
    ensures ValidEnv(MapEnv(resolver, setup))
  {
  }

  /**
   * The graph theorem with a cap no smaller than the set of sources, or with none: a document expands
   * exactly when all that it reaches is sound and no reference goes round; the depth error is never raised.
   */
  ghost predicate ExpandsByGraph(env: Env, doc: Doc)
    requires ValidEnv(env)
  {
    && (RunDoc(env, TOP_LEVEL, doc).res.Ok? <==> ExpandGraph.AllSound(env, doc) && ExpandGraph.Acyclic(env, doc))
    && (RunDoc(env, TOP_LEVEL, doc).res.Err? ==> !RunDoc(env, TOP_LEVEL, doc).res.report.Depth?)
  }

  lemma GraphExpansion(env: Env, doc: Doc)
    requires ValidEnv(env) && (env.cap.Some? ==> |env.content| <= env.cap.value)
    ensures ExpandsByGraph(env, doc)
  {
    ExpandGraph.SuccessIffAcyclic(env, doc);
    ExpandGraph.DepthNeverRaised(env, TOP_LEVEL, doc);
  }

  /** Over any finite set of sources in a map. */
  lemma MapExpansion(resolver: MapResolver, setup: Setup, doc: Doc)
    requires setup.cap.Some? ==> |resolver.files| <= setup.cap.value
    ensures ValidEnv(MapEnv(resolver, setup)) && ExpandsByGraph(MapEnv(resolver, setup), doc)
  {
    MapEnvValid(resolver, setup);
    GraphExpansion(MapEnv(resolver, setup), doc);
  }

  lemma NoDotNoKind(name: string)
    requires '.' !in name && Emptied.Separatorless(name)
    ensures ExtKind(Some(name)) == ""
  {
    Emptied.NoFolder(name);
    NoDot(name);
  }

  lemma {:induction false} NoDot(name: string)
    requires '.' !in name
    ensures AfterLastDot(name) == None
  {
    if name != "" {
      assert name[|name| - 1] in name;
      NoDot(name[..|name| - 1]);
    }
  }

  lemma TopResolves() returns (r: Resolution)
    ensures r == MapResolver(map[TOP := ""], [], "").Resolve(None, Some(TOP))
    ensures r.found && r.FullPath() == TOP && r.spec.full == Some(TOP) && r.src == Some("") && r.spec.kind == ""
  {
    var resolver := MapResolver(map[TOP := ""], [], "");
    NoDotNoKind(TOP);
    assert Potentials(TOP, [])[0] == TOP;
    r := resolver.Resolve(None, Some(TOP));
  }

  /** A map may serve a source named like the marker of the document itself; its record then goes round. */
  lemma TopCanBeASource()
    ensures var env := MapEnv(MapResolver(map[TOP := ""], [], ""), PLAIN);
            var run := RunDoc(env, TOP_LEVEL, Load(Text(TOP)));
            && ValidEnv(env) && run.res.Ok? && run.edges == {Edge(TOP, TOP)}
            && Dependencies.EdgePath(run.edges, [TOP, TOP]) && !Dependencies.TopUnreached(env, Load(Text(TOP)))
  {
    var env := MapEnv(MapResolver(map[TOP := ""], [], ""), PLAIN);
    MapEnvValid(MapResolver(map[TOP := ""], [], ""), PLAIN);
    var r := TopResolves();
    assert env.resolve(None, ReferenceOf(Text(TOP))) == r;
    TopLoads(env, r);
    assert RunDoc(env, TOP_LEVEL, Load(Text(TOP))) == Directive(env, TOP_LEVEL, Text(TOP));
    Dependencies.DependenciesAcyclic(env, Load(Text(TOP)));
    assert !NoDup([TOP, TOP]) by { assert [TOP, TOP][0] == [TOP, TOP][1]; }
  }

  lemma TopLoads(env: Env, r: Resolution)
    requires ValidEnv(env) && env.processors == DEFAULT_PROCESSORS && env.cap.None?
    requires env.resolve(None, Some(TOP)) == r && r.found && r.FullPath() == TOP && r.spec.full == Some(TOP)
    requires r.src == Some("") && r.spec.kind == ""
    ensures Directive(env, TOP_LEVEL, Text(TOP)) == Run(Ok(Values.Leaf(Values.Str(""))), {Edge(TOP, TOP)})
  {
    assert ReferenceOf(Text(TOP)) == Some(TOP);
    assert Processed(env, "", "") == Lit(Values.Leaf(Values.Str("")));
    assert RunDoc(env, Context([], Some(TOP)), Processed(env, "", "")) == Run(Ok(Values.Leaf(Values.Str(""))), {});
  }

  /** No grammar, the built-in processors, no cap, maps extended. */
  const PLAIN: Setup := Setup(src => Lit(Values.Undefined), DEFAULT_PROCESSORS, None, true)

  // ----- one environment for another -----

  /** The same but for the folder the reference was resolved against, which no expansion looks at. */
  ghost predicate Alike(a: Resolution, b: Resolution) {
    b == a.(spec := a.spec.(base := b.spec.base))
  }

  /** The two differ in what they hold and how they resolve, and resolve alike wherever the first can ask. */
  ghost predicate Interchangeable(a: Env, b: Env) {
    && ValidEnv(a) && ValidEnv(b) && b == a.(content := b.content, resolve := b.resolve)
    && forall current: Option<string>, reference: Option<string> :: (current.Some? ==> current.value in a.content) ==>
         Alike(a.resolve(current, reference), b.resolve(current, reference))
  }

  lemma {:induction false} SameDirective(a: Env, b: Env, ctx: Context, body: Body)
    requires Interchangeable(a, b) && (ctx.path.Some? ==> ctx.path.value in a.content)
    ensures Directive(a, ctx, body) == Directive(b, ctx, body)
    decreases Room(a, ctx), 0, 0
  {
    var r := a.resolve(ctx.path, ReferenceOf(body));
    assert Alike(r, b.resolve(ctx.path, ReferenceOf(body)));
    if r.found && r.FullPath() !in ctx.Chain() && (a.cap.Some? ==> |ctx.Chain()| < a.cap.value) {
      ExpandGraph.ChildRoom(a, ctx, r.FullPath());
      SameRun(a, b, ExpandGraph.Child(ctx, r.FullPath()), Processed(a, r.spec.kind, r.src.value));
    }
  }

  lemma {:induction false} SameRun(a: Env, b: Env, ctx: Context, doc: Doc)
    requires Interchangeable(a, b) && (ctx.path.Some? ==> ctx.path.value in a.content)
    ensures RunDoc(a, ctx, doc) == RunDoc(b, ctx, doc)
    decreases Room(a, ctx), Size(doc), 0
  {
    match doc
    case Lit(_) =>
    case Load(body) => SameDirective(a, b, ctx, body);
    case Items(items) => SameItems(a, b, ctx, [], items);
    case Members(members) => SameMembers(a, b, ctx, Values.EMPTY, members);
    case Fault(_, _) =>
  }

  lemma {:induction false} SameItems(a: Env, b: Env, ctx: Context, done: seq<Values.Value>, items: seq<Doc>)
    requires Interchangeable(a, b) && (ctx.path.Some? ==> ctx.path.value in a.content)
    ensures RunItems(a, ctx, done, items) == RunItems(b, ctx, done, items)
    decreases Room(a, ctx), ItemsSize(items), 0
  {
    if items != [] {
      SameRun(a, b, ctx, items[0]);
      var first := RunDoc(a, ctx, items[0]);
      if first.res.Ok? {
        SameItems(a, b, ctx, done + [first.res.value], items[1..]);
      }
    }
  }

  lemma {:induction false} SameMembers(a: Env, b: Env, ctx: Context, node: Values.Value, members: seq<Member>)
    requires Interchangeable(a, b) && (ctx.path.Some? ==> ctx.path.value in a.content)
    ensures RunMembers(a, ctx, node, members) == RunMembers(b, ctx, node, members)
    decreases Room(a, ctx), MembersSize(members), 0
  {
    if members != [] {
      var m := members[0];
      if m.Pair? {
        assert MemberSize(m) == Size(m.doc) < MembersSize(members);
        SameRun(a, b, ctx, m.doc);
      } else {
        SameDirective(a, b, ctx, m.body);
      }
      var first := RunMember(a, ctx, m);
      if first.res.Ok? {
        SameMembers(a, b, ctx, Put(a.extend, node, m, first.res.value), members[1..]);
      }
    }
  }

  // ----- the file resolver, with its filesystem and without -----

  function DiskEnv(files: map<string, string>, root: Option<string>, exts: seq<string>, base: string,
                   setup: Setup): Env {
    Env(files, (current, reference) => Emptied.OnDisk(files, root, exts, base).Resolve(current, reference),
        setup.parse, setup.processors, setup.cap, setup.extend)
  }

  function MemoryEnv(files: map<string, string>, root: Option<string>, exts: seq<string>, base: string,
                     setup: Setup): Env {
    Env(files, (current, reference) => Emptied.InMemory(files, root, exts, base).Resolve(current, reference),
        setup.parse, setup.processors, setup.cap, setup.extend)
  }

  lemma DiskEnvValid(files: map<string, string>, root: Option<string>, exts: seq<string>, base: string, setup: Setup)
    requires forall i :: 0 <= i < |exts| ==> Emptied.Separatorless(exts[i])
    ensures ValidEnv(DiskEnv(files, root, exts, base, setup))
  {
    forall current, reference | Emptied.OnDisk(files, root, exts, base).Resolve(current, reference).found {
      Emptied.FoundIsAKey(files, root, exts, base, current, reference);
    }
  }

  lemma MemoryEnvValid(files: map<string, string>, root: Option<string>, exts: seq<string>, base: string, setup: Setup)
    ensures ValidEnv(MemoryEnv(files, root, exts, base, setup))
  {
    forall current, reference | Emptied.InMemory(files, root, exts, base).Resolve(current, reference).found {
      Emptied.FoundIsLoaded(Emptied.InMemory(files, root, exts, base), current, reference);
    }
  }

  /** Over any in-memory filesystem, through the file resolver, under any root and from any base. */
  lemma FileExpansion(files: map<string, string>, root: Option<string>, exts: seq<string>, base: string, setup: Setup,
                      doc: Doc)
    requires forall i :: 0 <= i < |exts| ==> Emptied.Separatorless(exts[i])
    requires setup.cap.Some? ==> |files| <= setup.cap.value
    ensures ValidEnv(DiskEnv(files, root, exts, base, setup)) &&
            ExpandsByGraph(DiskEnv(files, root, exts, base, setup), doc)
  {
    DiskEnvValid(files, root, exts, base, setup);
    GraphExpansion(DiskEnv(files, root, exts, base, setup), doc);
  }
}
