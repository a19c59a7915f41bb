/** The loads that a run performs, in order and up to the first failure, and the chains they have. */
module Loads {
  import opened Common
  import opened References
  import opened Expand
  import opened ExpandGraph
  import opened Diagnostics

  /** Step `i` is come to: every step before it succeeds. */
  ghost predicate Happens(env: Env, ctx: Context, steps: seq<Step>, i: nat)
    requires ValidEnv(env) && i < |steps|
  {
    forall j :: 0 <= j < i ==> RunStep(env, ctx, steps[j]).stop.None?
  }

  /** The step loads source `key` and parses it. */
  ghost predicate Nests(env: Env, ctx: Context, step: Step, key: string)
    requires ValidEnv(env)
  {
    && step.Include? && Resolves(env, ctx.path, step.body)
    && TargetOf(env, ctx.path, step.body) == key && Allowed(env, ctx, key)
  }

  ghost predicate LoadsOne(env: Env, ctx: Context, doc: Doc, key: string)
    requires ValidEnv(env)
  {
    exists i :: 0 <= i < |Steps(doc)| && Happens(env, ctx, Steps(doc), i) && Nests(env, ctx, Steps(doc)[i], key)
  }

  /** A run of `doc` below `ctx` loads the sources of `way`, each inside the one before. */
  ghost predicate Loads(env: Env, ctx: Context, doc: Doc, way: seq<string>)
    requires ValidEnv(env)
    decreases |way|
  {
    way == [] ||
    (way[0] in env.content && LoadsOne(env, ctx, doc, way[0]) &&
     Loads(env, Child(ctx, way[0]), DocOf(env, way[0]), way[1..]))
  }

  /** The context of the innermost of these loads. */
  ghost function Along(ctx: Context, way: seq<string>): Context
    decreases |way|
  {
    if way == [] then ctx else Along(Child(ctx, way[0]), way[1..])
  }

  // ----- the chain of every load -----

  lemma OneLoadOn(env: Env, top: Doc, ctx: Context, here: Doc, key: string)
    requires ValidEnv(env) && Trail(env, top, ctx) && here == EndDoc(env, top, ctx.Chain())
    requires key in env.content && LoadsOne(env, ctx, here, key)
    ensures Child(ctx, key).Chain() == ctx.Chain() + [key] && Trail(env, top, Child(ctx, key))
    ensures DocOf(env, key) == EndDoc(env, top, Child(ctx, key).Chain())
  {
    var i :| 0 <= i < |Steps(here)| && Happens(env, ctx, Steps(here), i) && Nests(env, ctx, Steps(here)[i], key);
    assert Steps(here)[i] in Steps(here);
    TrailStep(env, top, ctx, Steps(here)[i].body);
  }

  lemma {:induction false} LoadsAreTrails(env: Env, top: Doc, ctx: Context, here: Doc, way: seq<string>)
    requires ValidEnv(env) && Trail(env, top, ctx) && here == EndDoc(env, top, ctx.Chain())
    requires Loads(env, ctx, here, way)
    ensures Trail(env, top, Along(ctx, way))
    decreases |way|
  {
    if way != [] {
      OneLoadOn(env, top, ctx, here, way[0]);
      LoadsAreTrails(env, top, Child(ctx, way[0]), DocOf(env, way[0]), way[1..]);
    }
  }

  lemma {:induction false} AlongChain(ctx: Context, way: seq<string>)
    ensures Along(ctx, way).Chain() == ctx.Chain() + way
    decreases |way|
  {
    if way != [] {
      AlongChain(Child(ctx, way[0]), way[1..]);
      MoveFirst(ctx.Chain(), way);
    }
  }

  /**
   * Whatever a top-level run loads, successful or not, the ancestor chain of that load is a walk of
   * the reference graph, without repetition and within the cap.
   */
  lemma EveryLoadIsATrail(env: Env, doc: Doc, way: seq<string>)
    requires ValidEnv(env) && Loads(env, TOP_LEVEL, doc, way)
    ensures Trail(env, doc, Along(TOP_LEVEL, way)) && Along(TOP_LEVEL, way).Chain() == way
  {
    LoadsAreTrails(env, doc, TOP_LEVEL, doc, way);
    AlongChain(TOP_LEVEL, way);
    assert TOP_LEVEL.Chain() + way == way;
  }

  // ----- these are the loads of the run -----

  lemma {:induction false} StepsEdges(env: Env, ctx: Context, steps: seq<Step>, e: Edge)
    requires ValidEnv(env)
    ensures e in RunSteps(env, ctx, steps).edges <==>
            exists i :: 0 <= i < |steps| && Happens(env, ctx, steps, i) && e in RunStep(env, ctx, steps[i]).edges
    decreases |steps|
  {
    if steps != [] {
      var first, rest := RunStep(env, ctx, steps[0]), steps[1..];
      StepsEdges(env, ctx, rest, e);
      if e in first.edges {
        assert Happens(env, ctx, steps, 0);
      }
      if first.stop.None? && e in RunSteps(env, ctx, rest).edges {
        var i :| 0 <= i < |rest| && Happens(env, ctx, rest, i) && e in RunStep(env, ctx, rest[i]).edges;
        LaterHappens(env, ctx, steps, i);
      }
      forall i | 0 < i < |steps| && Happens(env, ctx, steps, i) && e in RunStep(env, ctx, steps[i]).edges
        ensures e in RunSteps(env, ctx, steps).edges
      {
        LaterHappens(env, ctx, steps, i - 1);
      }
    }
  }

  lemma LaterHappens(env: Env, ctx: Context, steps: seq<Step>, i: nat)
    requires ValidEnv(env) && i + 1 < |steps|
    ensures Happens(env, ctx, steps, i + 1) <==>
              RunStep(env, ctx, steps[0]).stop.None? && Happens(env, ctx, steps[1..], i)
  {
    if Happens(env, ctx, steps, i + 1) {
      forall j | 0 <= j < i ensures RunStep(env, ctx, steps[1..][j]).stop.None? {
        assert steps[1..][j] == steps[j + 1];
      }
    } else if RunStep(env, ctx, steps[0]).stop.None? && Happens(env, ctx, steps[1..], i) {
      forall j | 0 <= j < i + 1 ensures RunStep(env, ctx, steps[j]).stop.None? {
        assert j > 0 ==> steps[j] == steps[1..][j - 1];
      }
    }
  }

  /** Whether a run succeeds or fails, the edges it records are exactly those of the loads it performs. */
  lemma {:induction false} EdgesAreLoads(env: Env, ctx: Context, doc: Doc, e: Edge)
    requires ValidEnv(env)
    ensures e in RunDoc(env, ctx, doc).edges <==>
            exists way :: way != [] && Loads(env, ctx, doc, way) && LastEdge(ctx, way) == e
    decreases Room(env, ctx)
  {
    RunIsSteps(env, ctx, doc);
    StepsEdges(env, ctx, Steps(doc), e);
    if e in RunDoc(env, ctx, doc).edges {
      var i :| 0 <= i < |Steps(doc)| && Happens(env, ctx, Steps(doc), i) && e in RunStep(env, ctx, Steps(doc)[i]).edges;
      EdgeIsLoaded(env, ctx, doc, e, i);
    }
    if exists way :: way != [] && Loads(env, ctx, doc, way) && LastEdge(ctx, way) == e {
      var way :| way != [] && Loads(env, ctx, doc, way) && LastEdge(ctx, way) == e;
      LoadIsRecorded(env, ctx, doc, e, way);
    }
  }

  lemma {:induction false} EdgeIsLoaded(env: Env, ctx: Context, doc: Doc, e: Edge, i: nat)
    requires ValidEnv(env) && i < |Steps(doc)| && Happens(env, ctx, Steps(doc), i)
    requires e in RunStep(env, ctx, Steps(doc)[i]).edges
    ensures exists way :: way != [] && Loads(env, ctx, doc, way) && LastEdge(ctx, way) == e
    decreases Room(env, ctx), 0
  {
    var body := Steps(doc)[i].body;
    DirectiveEdges(env, ctx, body);
    var key := TargetOf(env, ctx.path, body);
    assert Nests(env, ctx, Steps(doc)[i], key);
    if e == Edge(ctx.Target(), key) {
      LoadFrom(env, ctx, doc, key, []);
    } else {
      ChildRoom(env, ctx, key);
      EdgesAreLoads(env, Child(ctx, key), DocOf(env, key), e);
      var more :|
        more != [] && Loads(env, Child(ctx, key), DocOf(env, key), more) && LastEdge(Child(ctx, key), more) == e;
      LoadFrom(env, ctx, doc, key, more);
    }
  }

  lemma LoadFrom(env: Env, ctx: Context, doc: Doc, key: string, more: seq<string>)
    requires ValidEnv(env) && key in env.content && LoadsOne(env, ctx, doc, key)
    requires Loads(env, Child(ctx, key), DocOf(env, key), more)
    ensures Loads(env, ctx, doc, [key] + more)
    ensures LastEdge(ctx, [key] + more) ==
            if more == [] then Edge(ctx.Target(), key) else LastEdge(Child(ctx, key), more)
  {
    assert ([key] + more)[1..] == more;
  }

  lemma LastEdgeInside(ctx: Context, way: seq<string>)
    requires |way| > 1
    ensures LastEdge(ctx, way) == LastEdge(Child(ctx, way[0]), way[1..])
  {
  }

  /** What a step that happens records, the run records. */
  lemma StepIsRecorded(env: Env, ctx: Context, doc: Doc, key: string, i: nat, e: Edge)
    requires ValidEnv(env) && key in env.content && i < |Steps(doc)|
    requires Happens(env, ctx, Steps(doc), i) && Nests(env, ctx, Steps(doc)[i], key) && Records(env, ctx, key, e)
    ensures e in RunDoc(env, ctx, doc).edges
  {
    RunIsSteps(env, ctx, doc);
    StepsEdges(env, ctx, Steps(doc), e);
    DirectiveEdges(env, ctx, Steps(doc)[i].body);
    assert e in RunStep(env, ctx, Steps(doc)[i]).edges;
  }

  lemma {:induction false} LoadIsRecorded(env: Env, ctx: Context, doc: Doc, e: Edge, way: seq<string>)
    requires ValidEnv(env) && way != [] && Loads(env, ctx, doc, way) && LastEdge(ctx, way) == e
    ensures e in RunDoc(env, ctx, doc).edges
    decreases Room(env, ctx), 0
  {
    var key := way[0];
    var i :| 0 <= i < |Steps(doc)| && Happens(env, ctx, Steps(doc), i) && Nests(env, ctx, Steps(doc)[i], key);
    if |way| > 1 {
      ChildRoom(env, ctx, key);
      LastEdgeInside(ctx, way);
      EdgesAreLoads(env, Child(ctx, key), DocOf(env, key), e);
    }
    StepIsRecorded(env, ctx, doc, key, i, e);
  }
}
