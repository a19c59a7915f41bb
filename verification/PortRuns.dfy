/**
 * Whole expansions in the Rust and the Go port: over the same sources they come to the same value and
 * the same edges, or fail with the same code, where each step of the way is one on which the ports agree.
 */
module PortRuns {
  import opened Common
  import opened References
  import opened Expand
  import opened Values
  import opened GoPort
  import opened Ports
  import opened Sources
  import opened ExpandGraph

  // ----- what may be compared -----

  /** One report in both; or, of a failure in a source, the Go port has its code and nothing more. */
  ghost predicate ReportsMatch(a: Report, b: Report) {
    || (b == a && (!a.Grammar? ==> a.Code() != ""))
    || (!a.Grammar? && b.Unprocessed? && b.code == a.Code() && b.code != "" && b.detail == "")
  }

  ghost predicate ResultsMatch(a: Result, b: Result) {
    if a.Ok? then b == a else b.Err? && ReportsMatch(a.report, b.report)
  }

  ghost predicate RunsMatch(a: Run, b: Run) { a.edges == b.edges && ResultsMatch(a.res, b.res) }

  ghost predicate PlainMap(v: Value) { v.Dict? && forall k :: k in v.vals ==> !Dangerous(k) }

  /** The document is a map, and names no prototype key. */
  ghost predicate MapDoc(doc: Doc) {
    match doc
    case Lit(value) => PlainMap(value)
    case Members(members) => forall i :: 0 <= i < |members| ==> MapMember(members[i])
    case _ => false
  }

  ghost predicate MapMember(m: Member) { m.Pair? ==> !Dangerous(m.key) }

  /** Every body in the document is named alike, and what is spliced into an extended map is a map. */
  ghost predicate Portable(env: Env, shown: Body -> string, current: Option<string>, doc: Doc)
    requires ValidEnv(env)
    decreases doc
  {
    match doc
    case Lit(value) => Valid(value)
    case Load(body) => BodyRendered(body) && NamedAlike(shown, body)
    case Items(items) => forall i :: 0 <= i < |items| ==> Portable(env, shown, current, items[i])
    case Members(members) => forall i :: 0 <= i < |members| ==> PortableMember(env, shown, current, members[i])
    case Fault(_, _) => true
  }

  ghost predicate PortableMember(env: Env, shown: Body -> string, current: Option<string>, m: Member)
    requires ValidEnv(env)
    decreases m
  {
    match m
    case Pair(_, doc) => Portable(env, shown, current, doc)
    case Spliced(body) =>
      && BodyRendered(body) && NamedAlike(shown, body)
      && (env.extend && Resolves(env, current, body) ==> MapDoc(DocOf(env, TargetOf(env, current, body))))
  }

  ghost predicate PortableEnv(env: Env, shown: Body -> string) {
    ValidEnv(env) && forall key :: key in env.content ==> Portable(env, shown, Some(key), DocOf(env, key))
  }

  // ----- what a run yields -----

  ghost predicate Yielded(env: Env, isMap: bool, v: Value) { Valid(v) && (env.extend && isMap ==> PlainMap(v)) }

  lemma PutYields(extend: bool, node: Value, m: Member, value: Value)
    requires Valid(node) && node.Dict? && Valid(value) && (extend && m.Spliced? ==> PlainMap(value))
    ensures Valid(Put(extend, node, m, value)) && Put(extend, node, m, value).Dict?
    ensures extend && PlainMap(node) && MapMember(m) ==> PlainMap(Put(extend, node, m, value))
  {
    match m
    case Pair(key, _) => PutUnderValid(extend, node, key, value);
    case Spliced(_) => SpliceValid(extend, node, value);
  }

  lemma {:induction false} DirectiveYields(env: Env, shown: Body -> string, ctx: Context, body: Body)
    requires PortableEnv(env, shown)
    ensures var res := Directive(env, ctx, body).res;
            res.Ok? ==> Resolves(env, ctx.path, body) &&
                        Yielded(env, MapDoc(DocOf(env, TargetOf(env, ctx.path, body))), res.value)
    decreases Room(env, ctx), 0, 0
  {
    var r := env.resolve(ctx.path, ReferenceOf(body));
    if r.found && r.FullPath() !in ctx.Chain() && (env.cap.Some? ==> |ctx.Chain()| < env.cap.value) {
      ChildRoom(env, ctx, r.FullPath());
      RunYields(env, shown, Child(ctx, r.FullPath()), DocOf(env, r.FullPath()));
    }
  }

  lemma {:induction false} RunYields(env: Env, shown: Body -> string, ctx: Context, doc: Doc)
    requires PortableEnv(env, shown) && Portable(env, shown, ctx.path, doc)
    ensures RunDoc(env, ctx, doc).res.Ok? ==> Yielded(env, MapDoc(doc), RunDoc(env, ctx, doc).res.value)
    decreases Room(env, ctx), Size(doc), 0
  {
    match doc
    case Lit(_) =>
    case Load(body) => DirectiveYields(env, shown, ctx, body);
    case Items(items) => ItemsYield(env, shown, ctx, [], items);
    case Members(members) => MembersYield(env, shown, ctx, EMPTY, members);
    case Fault(_, _) =>
  }

  lemma {:induction false} ItemsYield(env: Env, shown: Body -> string, ctx: Context, done: seq<Value>, items: seq<Doc>)
    requires PortableEnv(env, shown) && Valid(List(Plain, done))
    requires forall i :: 0 <= i < |items| ==> Portable(env, shown, ctx.path, items[i])
    ensures RunItems(env, ctx, done, items).res.Ok? ==> Valid(RunItems(env, ctx, done, items).res.value)
    decreases Room(env, ctx), ItemsSize(items), 0
  {
    if items != [] {
      RunYields(env, shown, ctx, items[0]);
      var first := RunDoc(env, ctx, items[0]);
      if first.res.Ok? {
        ItemsYield(env, shown, ctx, done + [first.res.value], items[1..]);
      }
    }
  }

  lemma {:induction false} MembersYield(env: Env, shown: Body -> string, ctx: Context, node: Value,
                                        members: seq<Member>)
    requires PortableEnv(env, shown) && Valid(node) && node.Dict?
    requires forall i :: 0 <= i < |members| ==> PortableMember(env, shown, ctx.path, members[i])
    ensures var res := RunMembers(env, ctx, node, members).res;
            res.Ok? ==>
              && Valid(res.value) && res.value.Dict?
              && (env.extend && PlainMap(node) && MapDoc(Members(members)) ==> PlainMap(res.value))
    decreases Room(env, ctx), MembersSize(members), 0
  {
    if members != [] {
      MemberYields(env, shown, ctx, members[0]);
      var first := RunMember(env, ctx, members[0]);
      if first.res.Ok? {
        PutYields(env.extend, node, members[0], first.res.value);
        MembersYield(env, shown, ctx, Put(env.extend, node, members[0], first.res.value), members[1..]);
      }
    }
  }

  lemma {:induction false} MemberYields(env: Env, shown: Body -> string, ctx: Context, m: Member)
    requires PortableEnv(env, shown) && PortableMember(env, shown, ctx.path, m)
    ensures RunMember(env, ctx, m).res.Ok? ==> Yielded(env, m.Spliced?, RunMember(env, ctx, m).res.value)
    decreases Room(env, ctx), MemberSize(m), 1
  {
    match m
    case Pair(_, doc) => RunYields(env, shown, ctx, doc);
    case Spliced(body) => DirectiveYields(env, shown, ctx, body);
  }

  // ----- the two side by side -----

  /** The map resolver of the Rust port with its settings, and an environment of the Go port. */
  datatype Twins = Twins(m: MapResolver, setup: Setup, go: GoEnv) {
    function Rust(): Env { MapEnv(m, setup) }
  }

  /** The run of the Rust port, whose map resolver always makes a valid environment. */
  ghost function RustRun(t: Twins, ctx: Context, doc: Doc): Run {
    MapEnvValid(t.m, t.setup);
    RunDoc(t.Rust(), ctx, doc)
  }

  /** The text of the source becomes one document in both, by the processor that each finds for it. */
  ghost predicate ProcessedAlike(t: Twins, key: string)
    requires key in t.m.files
  {
    Processed(t.Rust(), ExtKind(Some(key)), t.m.files[key]) == GoProcessed(t.go, GoExtKind(key), t.m.files[key])
  }

  /**
   * The same sources and settings; no key that ends in a separator, and no base that is a key; each
   * source processed alike; room under the Rust port's cap; and portable documents.
   */
  ghost predicate InStep(t: Twins) {
    && t.go.files == t.m.files && t.go.exts == t.m.exts && t.go.base == t.m.base
    && t.go.parse == t.setup.parse && t.go.extend == t.setup.extend
    && FoldersAlike(t.m, None) && (forall key :: key in t.m.files ==> FoldersAlike(t.m, Some(key)))
    && (forall key :: key in t.m.files ==> ProcessedAlike(t, key))
    && (t.setup.cap.Some? ==> |t.m.files| <= t.setup.cap.value)
    && MergesDeep(t.go.deep)
    && PortableEnv(t.Rust(), t.go.shown)
  }

  ghost predicate SameContext(t: Twins, ctx: Context, goCtx: GoContext) {
    && ctx.parents == goCtx.parents && ctx.path == (if goCtx.path == "" then None else Some(goCtx.path))
    && (goCtx.path == "" ==> goCtx.parents == [])
    && NoDup(ctx.Chain()) && forall k :: k in ctx.Chain() ==> k in t.m.files && k != ""
  }

  lemma SameChain(t: Twins, ctx: Context, goCtx: GoContext)
    requires SameContext(t, ctx, goCtx)
    ensures ctx.Chain() == goCtx.Chain() && Current(t.m, ctx.path)
    ensures ctx.Target() == if goCtx.path != "" then goCtx.path else TOP
  {
    if goCtx.path != "" {
      assert ctx.Chain()[|ctx.Chain()| - 1] == goCtx.path;
    }
  }

  /** There is room for a source that is not yet in the chain. */
  lemma RoomLeft(t: Twins, ctx: Context, goCtx: GoContext, full: string)
    requires SameContext(t, ctx, goCtx) && full in t.m.files && full !in ctx.Chain() && full != ""
    ensures |ctx.Chain()| < |t.m.files| && NoDup(ctx.Chain() + [full])
    ensures SameContext(t, Child(ctx, full), GoContext(goCtx.Chain(), full))
  {
    SameChain(t, ctx, goCtx);
    ElemsAppend(ctx.Chain(), full);
    NoDupBounded(ctx.Chain() + [full], t.m.files.Keys);
    NoDupCardinality(ctx.Chain() + [full]);
  }

  /** What the two resolvers find for a body. */
  ghost predicate FoundAlike(t: Twins, r: Resolution, g: GoResolution) {
    && r.found == g.found
    && (r.found ==>
          && g.spec.full in t.m.files && g.spec.full != "" && r.spec.full == Some(g.spec.full)
          && r.src == Some(t.m.files[g.spec.full]) && g.src == t.m.files[g.spec.full]
          && r.spec.kind == ExtKind(Some(g.spec.full)) && g.spec.kind == GoExtKind(g.spec.full))
  }

  /** A miss has the same path, the same full path and the same search list. */
  ghost predicate MissedAlike(r: Resolution, reference: Option<string>, g: GoResolution) {
    !r.found ==>
    && r.spec.path == reference && g.spec.path == OrEmpty(reference) && g.spec.full == OrEmpty(r.spec.full)
    && r.search == g.search && r.spec.full != Some("")
  }

  lemma MissTold(r: Resolution, reference: Option<string>, g: GoResolution)
    requires !r.found && MissedAlike(r, reference, g)
    ensures GoMissing(g, OrEmpty(reference)) == MissingReport(r, reference)
  {
  }

  lemma RustMisses(m: MapResolver, from: string, reference: Option<string>)
    ensures var r := m.ResolveFrom(from, reference); !r.found ==> r.spec.path == reference && r.spec.full != Some("")
  {
  }

  lemma RustFinds(m: MapResolver, from: string, reference: Option<string>)
    ensures var r := m.ResolveFrom(from, reference);
            r.found ==>
              && r.spec.full.Some? && r.spec.full.value in m.files && r.src == Some(m.files[r.spec.full.value])
              && r.spec.kind == ExtKind(r.spec.full)
  {
  }

  lemma OutcomesFoundAlike(t: Twins, r: Resolution, g: GoResolution)
    requires RustOutcome(r) == GoOutcome(g)
    requires r.found ==> r.spec.full.Some? && r.spec.full.value in t.m.files
    requires r.found ==> r.src == Some(t.m.files[r.spec.full.value]) && r.spec.kind == ExtKind(r.spec.full)
    requires g.found ==> g.spec.full != "" && g.spec.kind == GoExtKind(g.spec.full)
    ensures FoundAlike(t, r, g)
  {
  }

  lemma OutcomesMissedAlike(r: Resolution, reference: Option<string>, g: GoResolution)
    requires RustOutcome(r) == GoOutcome(g)
    requires !r.found ==> r.spec.path == reference && r.spec.full != Some("")
    ensures MissedAlike(r, reference, g)
  {
  }

  lemma BodiesFoundAlike(t: Twins, ctx: Context, goCtx: GoContext, body: Body)
    requires InStep(t) && SameContext(t, ctx, goCtx) && BodyRendered(body) && NamedAlike(t.go.shown, body)
    ensures GoReference(t.go.shown, body) == OrEmpty(ReferenceOf(body))
    ensures FoundAlike(t, t.m.Resolve(ctx.path, ReferenceOf(body)),
                       GoResolve(t.go, goCtx, GoReference(t.go.shown, body)))
    ensures MissedAlike(t.m.Resolve(ctx.path, ReferenceOf(body)), ReferenceOf(body),
                        GoResolve(t.go, goCtx, GoReference(t.go.shown, body)))
  {
    var reference, path := ReferenceOf(body), GoReference(t.go.shown, body);
    SameChain(t, ctx, goCtx);
    CoercionsAgree(t.go.shown, body);
    assert FoldersAlike(t.m, ctx.path);
    ResolvesAlike(t, ctx.path, reference);
    GoResolvesIn(t, ctx, goCtx, path);
  }

  lemma GoResolvesIn(t: Twins, ctx: Context, goCtx: GoContext, path: string)
    requires InStep(t) && SameContext(t, ctx, goCtx)
    ensures GoResolve(t.go, goCtx, path) == GoResolveIn(t.m, ctx.path, path)
  {
  }

  lemma ResolvesAlike(t: Twins, current: Option<string>, reference: Option<string>)
    requires Current(t.m, current) && FoldersAlike(t.m, current)
    ensures FoundAlike(t, t.m.Resolve(current, reference), GoResolveIn(t.m, current, OrEmpty(reference)))
    ensures MissedAlike(t.m.Resolve(current, reference), reference, GoResolveIn(t.m, current, OrEmpty(reference)))
  {
    var r, g := t.m.Resolve(current, reference), GoResolveIn(t.m, current, OrEmpty(reference));
    PortsResolveAlike(t.m, current, reference);
    RustFinds(t.m, RustFolder(t.m, current), reference);
    FoundIsNamed(t.m.files, t.m.exts, GoPathSpec(OrEmpty(reference), GoFolder(t.m, current)));
    OutcomesFoundAlike(t, r, g);
    RustMisses(t.m, RustFolder(t.m, current), reference);
    OutcomesMissedAlike(r, reference, g);
  }

  lemma ReraisedMatch(full: string, a: Result, path: string, b: Result)
    requires ResultsMatch(a, b)
    ensures ResultsMatch(Reraise(full, a), GoReraise(path, b))
  {
  }

  lemma {:induction false} DirectivesMatch(t: Twins, ctx: Context, goCtx: GoContext, body: Body)
    requires InStep(t) && SameContext(t, ctx, goCtx) && BodyRendered(body) && NamedAlike(t.go.shown, body)
    ensures RunsMatch(Directive(t.Rust(), ctx, body), GoDirective(t.go, goCtx, body))
    decreases Room(t.Rust(), ctx), 0, 0
  {
    var r := t.m.Resolve(ctx.path, ReferenceOf(body));
    var g := GoResolve(t.go, goCtx, GoReference(t.go.shown, body));
    BodiesFoundAlike(t, ctx, goCtx, body);
    if r.found && g.spec.full !in ctx.Chain() {
      var full := g.spec.full;
      RoomLeft(t, ctx, goCtx, full);
      ChildRoom(t.Rust(), ctx, full);
      RunsAlike(t, Child(ctx, full), GoContext(goCtx.Chain(), full), DocOf(t.Rust(), full));
      DirectiveGoesOn(t, ctx, goCtx, body, r, g);
    } else if r.found {
      SameChain(t, ctx, goCtx);
      CyclesMatch(t, ctx, goCtx, body, r, g);
    } else {
      MissesMatch(t, ctx, goCtx, body, r, g);
    }
  }

  lemma MissesMatch(t: Twins, ctx: Context, goCtx: GoContext, body: Body, r: Resolution, g: GoResolution)
    requires InStep(t) && FoundAlike(t, r, g) && !r.found && MissedAlike(r, ReferenceOf(body), g)
    requires GoReference(t.go.shown, body) == OrEmpty(ReferenceOf(body))
    requires r == t.m.Resolve(ctx.path, ReferenceOf(body)) && g == GoResolve(t.go, goCtx, GoReference(t.go.shown, body))
    ensures RunsMatch(Directive(t.Rust(), ctx, body), GoDirective(t.go, goCtx, body))
  {
    assert r == t.Rust().resolve(ctx.path, ReferenceOf(body));
    assert Directive(t.Rust(), ctx, body) == Run(Err(MissingReport(r, ReferenceOf(body))), {});
    MissTold(r, ReferenceOf(body), g);
  }

  lemma CyclesMatch(t: Twins, ctx: Context, goCtx: GoContext, body: Body, r: Resolution, g: GoResolution)
    requires InStep(t) && FoundAlike(t, r, g) && r.found && g.spec.full in ctx.Chain() && ctx.Chain() == goCtx.Chain()
    requires r == t.m.Resolve(ctx.path, ReferenceOf(body)) && g == GoResolve(t.go, goCtx, GoReference(t.go.shown, body))
    ensures RunsMatch(Directive(t.Rust(), ctx, body), GoDirective(t.go, goCtx, body))
  {
    RustCycles(t.Rust(), ctx, body, r, g.spec.full);
    GoCycles(t.go, goCtx, body, g);
  }

  lemma RustCycles(env: Env, ctx: Context, body: Body, r: Resolution, full: string)
    requires ValidEnv(env) && r == env.resolve(ctx.path, ReferenceOf(body)) && r.found
    requires r.spec.full == Some(full) && full in ctx.Chain()
    ensures Directive(env, ctx, body) == Run(Err(Cycle(full, LoopOf(ctx.Chain(), full))), {})
  {
  }

  lemma GoCycles(env: GoEnv, ctx: GoContext, body: Body, g: GoResolution)
    requires g == GoResolve(env, ctx, GoReference(env.shown, body)) && g.found
    requires g.spec.full != "" && g.spec.full in ctx.Chain()
    ensures GoDirective(env, ctx, body) == Run(Err(Cycle(g.spec.full, LoopOf(ctx.Chain(), g.spec.full))), {})
  {
  }

  /** Past the checks, each directive is its nested run, raised again. */
  lemma DirectiveGoesOn(t: Twins, ctx: Context, goCtx: GoContext, body: Body, r: Resolution, g: GoResolution)
    requires InStep(t) && SameContext(t, ctx, goCtx) && r.found && FoundAlike(t, r, g) && g.spec.full !in ctx.Chain()
    requires r == t.m.Resolve(ctx.path, ReferenceOf(body)) && g == GoResolve(t.go, goCtx, GoReference(t.go.shown, body))
    requires |ctx.Chain()| < |t.m.files|
    requires RunsMatch(RunDoc(t.Rust(), Child(ctx, g.spec.full), DocOf(t.Rust(), g.spec.full)),
                       GoRunDoc(t.go, GoContext(goCtx.Chain(), g.spec.full), DocOf(t.Rust(), g.spec.full)))
    ensures RunsMatch(Directive(t.Rust(), ctx, body), GoDirective(t.go, goCtx, body))
  {
    var full := g.spec.full;
    SameChain(t, ctx, goCtx);
    assert ProcessedAlike(t, full);
    var nested := RunDoc(t.Rust(), Child(ctx, full), DocOf(t.Rust(), full));
    var goNested := GoRunDoc(t.go, GoContext(goCtx.Chain(), full), DocOf(t.Rust(), full));
    ReraisedMatch(full, nested.res, GoReference(t.go.shown, body), goNested.res);
    assert Directive(t.Rust(), ctx, body) == Run(Reraise(full, nested.res), {Edge(ctx.Target(), full)} + nested.edges);
  }

  lemma {:induction false} RunsAlike(t: Twins, ctx: Context, goCtx: GoContext, doc: Doc)
    requires InStep(t) && SameContext(t, ctx, goCtx) && Portable(t.Rust(), t.go.shown, ctx.path, doc)
    ensures RunsMatch(RunDoc(t.Rust(), ctx, doc), GoRunDoc(t.go, goCtx, doc))
    decreases Room(t.Rust(), ctx), Size(doc), 0
  {
    match doc
    case Lit(_) =>
    case Load(body) => DirectivesMatch(t, ctx, goCtx, body);
    case Items(items) => ItemsAlike(t, ctx, goCtx, [], items);
    case Members(members) => MembersAlike(t, ctx, goCtx, EMPTY, members);
    case Fault(_, _) =>
  }

  lemma {:induction false} ItemsAlike(t: Twins, ctx: Context, goCtx: GoContext, done: seq<Value>, items: seq<Doc>)
    requires InStep(t) && SameContext(t, ctx, goCtx)
    requires forall i :: 0 <= i < |items| ==> Portable(t.Rust(), t.go.shown, ctx.path, items[i])
    ensures RunsMatch(RunItems(t.Rust(), ctx, done, items), GoRunItems(t.go, goCtx, done, items))
    decreases Room(t.Rust(), ctx), ItemsSize(items), 0
  {
    if items != [] {
      RunsAlike(t, ctx, goCtx, items[0]);
      var first := RunDoc(t.Rust(), ctx, items[0]);
      if first.res.Ok? {
        ItemsAlike(t, ctx, goCtx, done + [first.res.value], items[1..]);
      }
    }
  }

  lemma {:induction false} MembersAlike(t: Twins, ctx: Context, goCtx: GoContext, node: Value, members: seq<Member>)
    requires InStep(t) && SameContext(t, ctx, goCtx) && Valid(node) && node.Dict?
    requires forall i :: 0 <= i < |members| ==> PortableMember(t.Rust(), t.go.shown, ctx.path, members[i])
    ensures RunsMatch(RunMembers(t.Rust(), ctx, node, members), GoRunMembers(t.go, goCtx, node, members))
    decreases Room(t.Rust(), ctx), MembersSize(members), 0
  {
    if members != [] {
      var m := members[0];
      MemberAlike(t, ctx, goCtx, m);
      MemberYields(t.Rust(), t.go.shown, ctx, m);
      var first := RunMember(t.Rust(), ctx, m);
      if first.res.Ok? {
        PutAlike(t, node, m, first.res.value);
        PutYields(t.setup.extend, node, m, first.res.value);
        MembersAlike(t, ctx, goCtx, Put(t.setup.extend, node, m, first.res.value), members[1..]);
      }
    }
  }

  lemma {:induction false} MemberAlike(t: Twins, ctx: Context, goCtx: GoContext, m: Member)
    requires InStep(t) && SameContext(t, ctx, goCtx) && PortableMember(t.Rust(), t.go.shown, ctx.path, m)
    ensures RunsMatch(RunMember(t.Rust(), ctx, m), GoRunMember(t.go, goCtx, m))
    decreases Room(t.Rust(), ctx), MemberSize(m), 1
  {
    match m
    case Pair(_, doc) => RunsAlike(t, ctx, goCtx, doc);
    case Spliced(body) => DirectivesMatch(t, ctx, goCtx, body);
  }

  lemma PutAlike(t: Twins, node: Value, m: Member, value: Value)
    requires InStep(t) && Valid(node) && node.Dict? && Valid(value)
    requires t.setup.extend && m.Spliced? ==> PlainMap(value)
    ensures Put(t.setup.extend, node, m, value) == GoPut(t.go, node, m, value)
  {
    if m.Spliced? {
      SplicesAgree(t.go.deep, t.setup.extend, node, value);
    }
  }

  /** Every document that is itself portable expands alike: one value and one record, or failures with one code. */
  lemma PortsExpandAlike(t: Twins, doc: Doc)
    requires InStep(t) && Portable(t.Rust(), t.go.shown, None, doc)
    ensures RunsMatch(RustRun(t, TOP_LEVEL, doc), GoRunDoc(t.go, GO_TOP_LEVEL, doc))
  {
    RunsAlike(t, TOP_LEVEL, GO_TOP_LEVEL, doc);
  }

  // ----- what the Go port says of a failure in a source -----

  /** The step names a source that is found, is not in the chain, and fails. */
  ghost predicate StepBlamed(env: GoEnv, ctx: GoContext, step: Step, path: string) {
    && step.Include? && path == GoReference(env.shown, step.body)
    && var r := GoResolve(env, ctx, path);
       r.found && r.spec.full !in ctx.Chain() &&
       GoRunDoc(env, GoContext(ctx.Chain(), r.spec.full), GoProcessed(env, r.spec.kind, r.src)).res.Err?
  }

  ghost predicate Blames(env: GoEnv, ctx: GoContext, steps: seq<Step>, res: Result) {
    res.Err? && res.report.Unprocessed? ==>
      exists i :: 0 <= i < |steps| && StepBlamed(env, ctx, steps[i], res.report.path)
  }

  lemma BlamesWithin(env: GoEnv, ctx: GoContext, a: seq<Step>, b: seq<Step>, res: Result)
    requires Blames(env, ctx, a, res) || Blames(env, ctx, b, res)
    ensures Blames(env, ctx, a + b, res)
  {
    if res.Err? && res.report.Unprocessed? {
      if i :| 0 <= i < |a| && StepBlamed(env, ctx, a[i], res.report.path) {
        assert (a + b)[i] == a[i];
      } else {
        var i :| 0 <= i < |b| && StepBlamed(env, ctx, b[i], res.report.path);
        assert (a + b)[|a| + i] == b[i];
      }
    }
  }

  lemma DirectiveBlames(env: GoEnv, ctx: GoContext, body: Body)
    ensures Blames(env, ctx, [Include(body)], GoDirective(env, ctx, body).res)
  {
    var r := GoResolve(env, ctx, GoReference(env.shown, body));
    FoundIsNamed(env.files, env.exts, GoPathSpec(GoReference(env.shown, body), GoBase(env, ctx)));
    if r.found && r.spec.full !in ctx.Chain() && GoDirective(env, ctx, body).res.Err? {
      assert StepBlamed(env, ctx, [Include(body)][0], GoReference(env.shown, body));
    }
  }

  /** A failure in a source is put to a body of the document at hand that names a failing source. */
  lemma {:induction false} FailureIsBlamed(env: GoEnv, ctx: GoContext, doc: Doc)
    ensures Blames(env, ctx, Steps(doc), GoRunDoc(env, ctx, doc).res)
    decreases doc
  {
    match doc
    case Lit(_) =>
    case Load(body) => DirectiveBlames(env, ctx, body);
    case Items(items) => ItemsBlame(env, ctx, [], items);
    case Members(members) => MembersBlame(env, ctx, EMPTY, members);
    case Fault(_, _) =>
  }

  lemma {:induction false} ItemsBlame(env: GoEnv, ctx: GoContext, done: seq<Value>, items: seq<Doc>)
    ensures Blames(env, ctx, ItemsSteps(items), GoRunItems(env, ctx, done, items).res)
    decreases items
  {
    if items != [] {
      var first, res := GoRunDoc(env, ctx, items[0]).res, GoRunItems(env, ctx, done, items).res;
      FailureIsBlamed(env, ctx, items[0]);
      if first.Ok? {
        ItemsBlame(env, ctx, done + [first.value], items[1..]);
      }
      BlamesWithin(env, ctx, Steps(items[0]), ItemsSteps(items[1..]), res);
    }
  }

  lemma {:induction false} MembersBlame(env: GoEnv, ctx: GoContext, node: Value, members: seq<Member>)
    ensures Blames(env, ctx, MembersSteps(members), GoRunMembers(env, ctx, node, members).res)
    decreases members
  {
    if members != [] {
      var m := members[0];
      var first, res := GoRunMember(env, ctx, m).res, GoRunMembers(env, ctx, node, members).res;
      MemberBlames(env, ctx, m);
      if first.Ok? {
        MembersBlame(env, ctx, GoPut(env, node, m, first.value), members[1..]);
      }
      BlamesWithin(env, ctx, MemberSteps(m), MembersSteps(members[1..]), res);
    }
  }

  lemma {:induction false} MemberBlames(env: GoEnv, ctx: GoContext, m: Member)
    ensures Blames(env, ctx, MemberSteps(m), GoRunMember(env, ctx, m).res)
    decreases m
  {
    match m
    case Pair(_, doc) => FailureIsBlamed(env, ctx, doc);
    case Spliced(body) => DirectiveBlames(env, ctx, body);
  }

  // ----- when sources are processed alike -----

  /** The built-in tables agree on every kind. */
  lemma TablesAlike(kind: string)
    ensures ProcessorFor(DEFAULT_PROCESSORS, kind) == Some(GoProcessorFor(GO_PROCESSORS, kind))
  {
  }

  /**
   * Tables without aliases agree on every kind if there is a processor for the empty one; without it, a
   * kind that is not in them has no processor in the Rust port, and is text in the Go port.
   */
  lemma CallTablesAlike(table: map<string, Entry>, goTable: map<string, Processor>, kind: string)
    requires table.Keys == goTable.Keys && forall k :: k in table ==> table[k] == Call(goTable[k])
    ensures kind in table || "" in table ==> ProcessorFor(table, kind) == Some(GoProcessorFor(goTable, kind))
    ensures kind !in table && "" !in table ==>
              ProcessorFor(table, kind) == None && GoProcessorFor(goTable, kind) == RawText
  {
  }

  /**
   * With the built-in tables, a source whose kinds agree is processed alike if and only if it is not an
   * empty one to be parsed, or the parser makes of an empty text what the Go port takes for it.
   */
  lemma BuiltInsProcessAlike(t: Twins, key: string)
    requires key in t.m.files && t.setup.processors == DEFAULT_PROCESSORS && t.go.processors == GO_PROCESSORS
    requires t.go.parse == t.setup.parse && ('.' in LastSegment(key) || '.' !in SlashTail(key))
    ensures var kind := ExtKind(Some(key));
            ProcessedAlike(t, key) <==>
            ((kind == "jsonic" || kind == "jsc") && t.m.files[key] == "" ==> t.setup.parse("") == Lit(t.go.blank))
  {
    KindsAgree(key);
    TablesAlike(ExtKind(Some(key)));
    assert GoExtKind(key) == ExtKind(Some(key));
  }
}
