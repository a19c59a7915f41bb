/** Every diagnostic of an expansion is true of the sources that the document reaches. */
module Diagnostics {
  import opened Common
  import opened References
  import opened Expand
  import opened ExpandGraph

  /** `walk` ends at a document in which `body` names nothing, as `report` says. */
  ghost predicate ShowsMissing(env: Env, doc: Doc, report: Report, walk: seq<string>, body: Body)
    requires ValidEnv(env)
  {
    && Walk(env, None, doc, walk)
    && Include(body) in Steps(EndDoc(env, doc, walk))
    && !Resolves(env, EndName(None, walk), body)
    && Tells(report, env.resolve(EndName(None, walk), ReferenceOf(body)), ReferenceOf(body))
  }

  /**
   * The report names the reference, the path it came to and every path that was searched: if the
   * resolver lists none, the one that it came to.
   */
  ghost predicate Tells(report: Report, r: Resolution, reference: Option<string>) {
    && report.Missing?
    && (r.spec.full.Some? ==> report.full == r.spec.full.value) && (r.spec.full.None? ==> report.full == "")
    && (r.spec.path.Some? ==> report.path == r.spec.path.value)
    && (r.spec.path.None? ==> report.path == match reference case Some(text) => text case None => "")
    && (r.search != [] ==> report.search == r.search)
    && (r.search == [] ==> report.search == match r.spec.full case Some(full) => [full] case None => [])
  }

  /** `walk` ends by going round `loop`, which starts and ends at the same source. */
  ghost predicate ShowsCycle(env: Env, doc: Doc, loop: seq<string>, walk: seq<string>)
    requires ValidEnv(env)
  {
    && Walk(env, None, doc, walk)
    && 2 <= |loop| <= |walk|
    && walk[|walk| - |loop|..] == loop
    && loop[0] == loop[|loop| - 1]
    && NoDup(loop[1..])
  }

  /** `walk` ends at a document where the parser gives up, as `code` and `detail` say. */
  ghost predicate ShowsFault(env: Env, doc: Doc, code: string, detail: string, walk: seq<string>)
    requires ValidEnv(env)
  {
    && Walk(env, None, doc, walk)
    && exists c :: Stop(c, detail) in Steps(EndDoc(env, doc, walk)) && code == if c == "" then "unexpected" else c
  }

  ghost predicate TrueOf(env: Env, doc: Doc, report: Report)
    requires ValidEnv(env)
  {
    match report
    case Missing(_, _, _) => exists walk, body :: ShowsMissing(env, doc, report, walk, body)
    case Cycle(path, loop) => loop != [] && loop[0] == path && exists walk :: ShowsCycle(env, doc, loop, walk)
    case Depth(path, max) =>
      env.cap == Some(max) && exists walk :: Walk(env, None, doc, walk) && |walk| == max + 1 && walk[max] == path
    case Grammar(code, detail) => Stop(code, detail) in Steps(doc)
    case Unprocessed(code, path, detail) =>
      exists walk :: walk != [] && walk[|walk| - 1] == path && ShowsFault(env, doc, code, detail, walk)
  }

  /** The context of a nested parse: its ancestor chain is a walk without repetition, inside the cap. */
  ghost predicate Trail(env: Env, doc: Doc, ctx: Context)
    requires ValidEnv(env)
  {
    && Walk(env, None, doc, ctx.Chain())
    && NoDup(ctx.Chain())
    && ctx.path == EndName(None, ctx.Chain())
    && (env.cap.Some? ==> |ctx.Chain()| <= env.cap.value)
  }

  lemma {:induction false} LoopCloses(chain: seq<string>, path: string)
    requires path in chain && NoDup(chain)
    ensures var loop := LoopOf(chain, path);
            && 2 <= |loop| <= |chain| + 1
            && (chain + [path])[|chain| + 1 - |loop|..] == loop
            && loop[0] == path == loop[|loop| - 1]
            && NoDup(loop[1..])
  {
    if chain[0] == path {
      WholeLoop(chain);
    } else {
      LoopCloses(chain[1..], path);
      DropShift(chain, path, |chain| - |LoopOf(chain, path)|);
    }
  }

  lemma WholeLoop(chain: seq<string>)
    requires chain != [] && NoDup(chain)
    ensures NoDup((chain + [chain[0]])[1..])
  {
    assert (chain + [chain[0]])[1..] == chain[1..] + [chain[0]];
  }

  lemma DropShift(chain: seq<string>, path: string, n: int)
    requires chain != [] && 0 <= n <= |chain|
    ensures (chain + [path])[n + 1..] == (chain[1..] + [path])[n..]
  {
  }

  lemma TrailStep(env: Env, doc: Doc, ctx: Context, body: Body)
    requires ValidEnv(env) && Trail(env, doc, ctx)
    requires Include(body) in Steps(EndDoc(env, doc, ctx.Chain())) && Resolves(env, ctx.path, body)
    ensures var key := TargetOf(env, ctx.path, body);
            && Walk(env, None, doc, ctx.Chain() + [key])
            && EndDoc(env, doc, ctx.Chain() + [key]) == DocOf(env, key)
            && (Allowed(env, ctx, key) ==> Trail(env, doc, Child(ctx, key)))
  {
    var key := TargetOf(env, ctx.path, body);
    var step := [key];
    assert step[1..] == [] && Links(env, ctx.path, EndDoc(env, doc, ctx.Chain()), key);
    WalkAppend(env, None, doc, ctx.Chain(), step);
    assert Child(ctx, key).Chain() == ctx.Chain() + step;
  }

  lemma MissingIsTrue(env: Env, doc: Doc, ctx: Context, body: Body)
    requires ValidEnv(env) && Trail(env, doc, ctx)
    requires Include(body) in Steps(EndDoc(env, doc, ctx.Chain())) && !Resolves(env, ctx.path, body)
    ensures TrueOf(env, doc, MissingReport(env.resolve(ctx.path, ReferenceOf(body)), ReferenceOf(body)))
  {
    var report := MissingReport(env.resolve(ctx.path, ReferenceOf(body)), ReferenceOf(body));
    assert ShowsMissing(env, doc, report, ctx.Chain(), body);
  }

  lemma CycleIsTrue(env: Env, doc: Doc, chain: seq<string>, key: string)
    requires ValidEnv(env) && key in chain && NoDup(chain) && Walk(env, None, doc, chain + [key])
    ensures TrueOf(env, doc, Cycle(key, LoopOf(chain, key)))
  {
    LoopCloses(chain, key);
    assert ShowsCycle(env, doc, LoopOf(chain, key), chain + [key]);
  }

  lemma DepthIsTrue(env: Env, doc: Doc, chain: seq<string>, key: string)
    requires ValidEnv(env) && env.cap == Some(|chain|) && Walk(env, None, doc, chain + [key])
    ensures TrueOf(env, doc, Depth(key, |chain|))
  {
    var walk := chain + [key];
    assert walk[|chain|] == key;
  }

  /** The directive fails, and what it reports is true of the document. */
  ghost predicate RefusedTruly(env: Env, doc: Doc, ctx: Context, body: Body)
    requires ValidEnv(env)
  {
    ReportedTruly(env, doc, Directive(env, ctx, body).res)
  }

  ghost predicate ReportedTruly(env: Env, doc: Doc, res: Result)
    requires ValidEnv(env)
  {
    res.Err? && TrueOf(env, doc, res.report)
  }

  /** What is reported of a reference that names nothing. */
  lemma MissingRefused(env: Env, doc: Doc, ctx: Context, body: Body)
    requires ValidEnv(env) && Trail(env, doc, ctx)
    requires Include(body) in Steps(EndDoc(env, doc, ctx.Chain())) && !Resolves(env, ctx.path, body)
    ensures RefusedTruly(env, doc, ctx, body)
  {
    MissingIsTrue(env, doc, ctx, body);
    assert Directive(env, ctx, body).res ==
           Err(MissingReport(env.resolve(ctx.path, ReferenceOf(body)), ReferenceOf(body)));
  }

  /** What is reported of a reference to an ancestor. */
  lemma CycleRefused(env: Env, doc: Doc, ctx: Context, body: Body)
    requires ValidEnv(env) && Trail(env, doc, ctx)
    requires Include(body) in Steps(EndDoc(env, doc, ctx.Chain())) && Resolves(env, ctx.path, body)
    requires TargetOf(env, ctx.path, body) in ctx.Chain()
    ensures RefusedTruly(env, doc, ctx, body)
  {
    var key := TargetOf(env, ctx.path, body);
    TrailStep(env, doc, ctx, body);
    CycleIsTrue(env, doc, ctx.Chain(), key);
    assert Directive(env, ctx, body).res == Err(Cycle(key, LoopOf(ctx.Chain(), key)));
  }

  /** What is reported of a reference past the cap. */
  lemma DepthRefused(env: Env, doc: Doc, ctx: Context, body: Body)
    requires ValidEnv(env) && Trail(env, doc, ctx)
    requires Include(body) in Steps(EndDoc(env, doc, ctx.Chain())) && Resolves(env, ctx.path, body)
    requires TargetOf(env, ctx.path, body) !in ctx.Chain() && env.cap == Some(|ctx.Chain()|)
    ensures RefusedTruly(env, doc, ctx, body)
  {
    var key := TargetOf(env, ctx.path, body);
    TrailStep(env, doc, ctx, body);
    DepthIsTrue(env, doc, ctx.Chain(), key);
    assert Directive(env, ctx, body).res == Err(Depth(key, |ctx.Chain()|));
  }

  /** What one directive reports, when it does not get as far as the nested parse. */
  lemma RefusalIsTrue(env: Env, doc: Doc, ctx: Context, body: Body)
    requires ValidEnv(env) && Trail(env, doc, ctx)
    requires Include(body) in Steps(EndDoc(env, doc, ctx.Chain()))
    requires Resolves(env, ctx.path, body) ==> !Allowed(env, ctx, TargetOf(env, ctx.path, body))
    ensures RefusedTruly(env, doc, ctx, body)
  {
    if !Resolves(env, ctx.path, body) {
      MissingRefused(env, doc, ctx, body);
    } else if TargetOf(env, ctx.path, body) in ctx.Chain() {
      CycleRefused(env, doc, ctx, body);
    } else {
      CapIsReached(env, doc, ctx, TargetOf(env, ctx.path, body));
      DepthRefused(env, doc, ctx, body);
    }
  }

  lemma CapIsReached(env: Env, doc: Doc, ctx: Context, key: string)
    requires ValidEnv(env) && Trail(env, doc, ctx) && key !in ctx.Chain() && !Allowed(env, ctx, key)
    ensures env.cap == Some(|ctx.Chain()|)
  {
  }

  /** What a run at `here` reports: a fault of that document, or something true of `doc`. */
  ghost predicate TrueHere(env: Env, doc: Doc, here: Doc, report: Report)
    requires ValidEnv(env)
  {
    if report.Grammar? then Stop(report.code, report.detail) in Steps(here) else TrueOf(env, doc, report)
  }

  lemma {:induction false} ReportIsTrue(env: Env, doc: Doc, ctx: Context, here: Doc)
    requires ValidEnv(env) && Trail(env, doc, ctx) && here == EndDoc(env, doc, ctx.Chain())
    ensures RunDoc(env, ctx, here).res.Err? ==> TrueHere(env, doc, here, RunDoc(env, ctx, here).res.report)
    decreases Room(env, ctx), 2
  {
    RunIsSteps(env, ctx, here);
    StepsDecide(env, ctx, Steps(here));
    forall s | s in Steps(here) && RunStep(env, ctx, s).stop.Some?
      ensures TrueHere(env, doc, here, RunStep(env, ctx, s).stop.value)
    {
      StepIsTrue(env, doc, ctx, here, s);
    }
  }

  lemma {:induction false} StepIsTrue(env: Env, doc: Doc, ctx: Context, here: Doc, s: Step)
    requires ValidEnv(env) && Trail(env, doc, ctx) && here == EndDoc(env, doc, ctx.Chain())
    requires s in Steps(here) && RunStep(env, ctx, s).stop.Some?
    ensures TrueHere(env, doc, here, RunStep(env, ctx, s).stop.value)
    decreases Room(env, ctx), 1
  {
    if s.Include? {
      if Resolves(env, ctx.path, s.body) && Allowed(env, ctx, TargetOf(env, ctx.path, s.body)) {
        NestedIsTrue(env, doc, ctx, s.body);
      } else {
        RefusalIsTrue(env, doc, ctx, s.body);
        assert !Directive(env, ctx, s.body).res.report.Grammar?;
      }
    }
  }

  lemma {:induction false} NestedIsTrue(env: Env, doc: Doc, ctx: Context, body: Body)
    requires ValidEnv(env) && Trail(env, doc, ctx)
    requires Include(body) in Steps(EndDoc(env, doc, ctx.Chain()))
    requires Resolves(env, ctx.path, body) && Allowed(env, ctx, TargetOf(env, ctx.path, body))
    ensures var res := Directive(env, ctx, body).res;
            res.Err? ==> !res.report.Grammar? && TrueOf(env, doc, res.report)
    decreases Room(env, ctx), 0
  {
    var key := TargetOf(env, ctx.path, body);
    var child := Child(ctx, key);
    TrailStep(env, doc, ctx, body);
    ChildRoom(env, ctx, key);
    ReportIsTrue(env, doc, child, DocOf(env, key));
    var walk := child.Chain();
    assert walk[|walk| - 1] == key;
    var nested := RunDoc(env, child, DocOf(env, key)).res;
    assert Directive(env, ctx, body).res == Reraise(key, nested);
    if nested.Err? && nested.report.Grammar? {
      var code, detail := nested.report.code, nested.report.detail;
      assert ShowsFault(env, doc, if code == "" then "unexpected" else code, detail, walk);
    }
  }

  /** The code that a report is known by. */
  ghost predicate Coded(report: Report) {
    && (report.Missing? ==> report.Code() == "multisource_not_found")
    && (report.Cycle? ==> report.Code() == "multisource_cycle")
    && (report.Depth? ==> report.Code() == "multisource_depth")
  }

  /** What a failed expansion reports to its caller is true of the document it was given. */
  lemma DiagnosticsAreTrue(env: Env, doc: Doc)
    requires ValidEnv(env)
    ensures var res := RunDoc(env, TOP_LEVEL, doc).res;
            res.Err? ==> TrueOf(env, doc, res.report) && Coded(res.report)
  {
    ReportIsTrue(env, doc, TOP_LEVEL, doc);
  }
}
