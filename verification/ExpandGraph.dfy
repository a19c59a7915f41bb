/** What include expansion says about the reference graph, and the graph about it. */
module ExpandGraph {
  import opened Common
  import opened Values
  import opened References
  import opened Expand

  // ----- a document's run is the run of its steps, in order -----

  datatype Trace = Trace(stop: Option<Report>, edges: set<Edge>)

  ghost function RunStep(env: Env, ctx: Context, step: Step): Trace
    requires ValidEnv(env)
  {
    match step
    case Include(body) => TraceOf(Directive(env, ctx, body))
    case Stop(code, detail) => Trace(Some(Grammar(code, detail)), {})
  }

  ghost function TraceOf(run: Run): Trace {
    Trace(if run.res.Err? then Some(run.res.report) else None, run.edges)
  }

  ghost function Then(first: Trace, rest: Trace): Trace {
    if first.stop.Some? then first else Trace(rest.stop, first.edges + rest.edges)
  }

  ghost function RunSteps(env: Env, ctx: Context, steps: seq<Step>): Trace
    requires ValidEnv(env)
  {
    if steps == [] then Trace(None, {})
    else Then(RunStep(env, ctx, steps[0]), RunSteps(env, ctx, steps[1..]))
  }

  lemma {:induction false} RunStepsAppend(env: Env, ctx: Context, a: seq<Step>, b: seq<Step>)
    requires ValidEnv(env)
    ensures RunSteps(env, ctx, a + b) == Then(RunSteps(env, ctx, a), RunSteps(env, ctx, b))
  {
    if a == [] {
      assert a + b == b;
    } else {
      assert (a + b)[1..] == a[1..] + b;
      RunStepsAppend(env, ctx, a[1..], b);
    }
  }

  lemma {:induction false} RunIsSteps(env: Env, ctx: Context, doc: Doc)
    requires ValidEnv(env)
    ensures TraceOf(RunDoc(env, ctx, doc)) == RunSteps(env, ctx, Steps(doc))
    decreases Size(doc), 0
  {
    match doc
    case Items(items) => ItemsAreSteps(env, ctx, [], items);
    case Members(members) => MembersAreSteps(env, ctx, EMPTY, members);
    case Lit(_) =>
    case Load(body) => assert Steps(doc)[1..] == [];
    case Fault(_, _) => assert Steps(doc)[1..] == [];
  }

  lemma {:induction false} ItemsAreSteps(env: Env, ctx: Context, done: seq<Value>, items: seq<Doc>)
    requires ValidEnv(env)
    ensures TraceOf(RunItems(env, ctx, done, items)) == RunSteps(env, ctx, ItemsSteps(items))
    decreases ItemsSize(items), 0
  {
    if items != [] {
      var first := RunDoc(env, ctx, items[0]);
      RunIsSteps(env, ctx, items[0]);
      RunStepsAppend(env, ctx, Steps(items[0]), ItemsSteps(items[1..]));
      if first.res.Ok? {
        ItemsAreSteps(env, ctx, done + [first.res.value], items[1..]);
      }
    }
  }

  lemma {:induction false} MembersAreSteps(env: Env, ctx: Context, node: Value, members: seq<Member>)
    requires ValidEnv(env)
    ensures TraceOf(RunMembers(env, ctx, node, members)) == RunSteps(env, ctx, MembersSteps(members))
    decreases MembersSize(members), 0
  {
    if members != [] {
      var first := RunMember(env, ctx, members[0]);
      if members[0].Pair? {
        assert MemberSize(members[0]) == Size(members[0].doc) < MembersSize(members);
        RunIsSteps(env, ctx, members[0].doc);
      } else {
        assert MemberSteps(members[0])[1..] == [];
      }
      RunStepsAppend(env, ctx, MemberSteps(members[0]), MembersSteps(members[1..]));
      if first.res.Ok? {
        MembersAreSteps(env, ctx, Put(env.extend, node, members[0], first.res.value), members[1..]);
      }
    }
  }

  /** A run of steps succeeds when each does; its edges are theirs; its error is one of theirs. */
  lemma {:induction false} StepsDecide(env: Env, ctx: Context, steps: seq<Step>)
    requires ValidEnv(env)
    ensures var t := RunSteps(env, ctx, steps);
            && (t.stop.None? <==> forall s :: s in steps ==> RunStep(env, ctx, s).stop.None?)
            && (t.stop.Some? ==> exists s :: s in steps && RunStep(env, ctx, s).stop == t.stop)
            && (forall e :: e in t.edges ==> exists s :: s in steps && e in RunStep(env, ctx, s).edges)
            && (t.stop.None? ==> forall s, e :: s in steps && e in RunStep(env, ctx, s).edges ==> e in t.edges)
  {
    if steps != [] {
      StepsDecide(env, ctx, steps[1..]);
      assert steps == [steps[0]] + steps[1..];
      assert forall s :: s in steps <==> s == steps[0] || s in steps[1..];
    }
  }

  // ----- the reference graph -----

  ghost predicate Resolves(env: Env, current: Option<string>, body: Body) {
    env.resolve(current, ReferenceOf(body)).found
  }

  ghost function TargetOf(env: Env, current: Option<string>, body: Body): string
    requires ValidEnv(env) && Resolves(env, current, body)
    ensures TargetOf(env, current, body) in env.content
  {
    env.resolve(current, ReferenceOf(body)).FullPath()
  }

  /** `doc`, found in source `current`, includes source `key`. */
  ghost predicate Links(env: Env, current: Option<string>, doc: Doc, key: string)
    requires ValidEnv(env)
    ensures Links(env, current, doc, key) ==> key in env.content
  {
    exists body :: Include(body) in Steps(doc) && Resolves(env, current, body) && TargetOf(env, current, body) == key
  }

  /** `walk` follows references, starting from those of `doc`. */
  ghost predicate Walk(env: Env, current: Option<string>, doc: Doc, walk: seq<string>)
    requires ValidEnv(env)
    decreases |walk|
  {
    walk == [] ||
    (Links(env, current, doc, walk[0]) && Walk(env, Some(walk[0]), DocOf(env, walk[0]), walk[1..]))
  }

  ghost function EndName(current: Option<string>, walk: seq<string>): Option<string> {
    if walk == [] then current else Some(walk[|walk| - 1])
  }

  ghost function EndDoc(env: Env, doc: Doc, walk: seq<string>): Doc {
    if walk == [] then doc
    else if walk[|walk| - 1] in env.content then DocOf(env, walk[|walk| - 1])
    else doc
  }

  /** Nothing wrong in the document itself: the parser reaches its end and every reference is found. */
  ghost predicate Sound(env: Env, current: Option<string>, doc: Doc) {
    forall s :: s in Steps(doc) ==> s.Include? && Resolves(env, current, s.body)
  }

  lemma {:induction false} WalkAppend(env: Env, current: Option<string>, doc: Doc, walk: seq<string>, more: seq<string>)
    requires ValidEnv(env)
    ensures Walk(env, current, doc, walk + more) <==>
            Walk(env, current, doc, walk) && Walk(env, EndName(current, walk), EndDoc(env, doc, walk), more)
    decreases |walk|
  {
    if walk == [] {
      assert walk + more == more;
    } else {
      assert (walk + more)[1..] == walk[1..] + more;
      if walk[0] in env.content {
        WalkAppend(env, Some(walk[0]), DocOf(env, walk[0]), walk[1..], more);
      }
      if Walk(env, current, doc, walk) {
        WalkEnds(env, current, doc, walk);
      }
    }
  }

  lemma {:induction false} WalkEnds(env: Env, current: Option<string>, doc: Doc, walk: seq<string>)
    requires ValidEnv(env) && Walk(env, current, doc, walk)
    ensures forall k :: k in walk ==> k in env.content
    decreases |walk|
  {
    if walk != [] {
      WalkEnds(env, Some(walk[0]), DocOf(env, walk[0]), walk[1..]);
    }
  }

  // ----- success is a property of the graph -----

  /** Following `walk` below `ctx` meets no ancestor, no source twice, no cap and no unsound document. */
  ghost predicate Clear(env: Env, ctx: Context, doc: Doc, walk: seq<string>) {
    && NoDup(walk)
    && (forall k :: k in walk ==> k !in ctx.Chain())
    && (env.cap.Some? ==> walk == [] || |ctx.Chain()| + |walk| <= env.cap.value)
    && Sound(env, EndName(ctx.path, walk), EndDoc(env, doc, walk))
  }

  ghost function Child(ctx: Context, key: string): Context {
    Context(ctx.Chain(), Some(key))
  }

  /** Source `key` may be loaded below `ctx`, and its own expansion there succeeds. */
  ghost predicate Enters(env: Env, ctx: Context, key: string)
    requires ValidEnv(env) && key in env.content
  {
    && key !in ctx.Chain()
    && (env.cap.Some? ==> |ctx.Chain()| < env.cap.value)
    && RunDoc(env, Child(ctx, key), DocOf(env, key)).res.Ok?
  }

  lemma DirectiveSucceeds(env: Env, ctx: Context, body: Body)
    requires ValidEnv(env)
    ensures Directive(env, ctx, body).res.Ok? <==>
            Resolves(env, ctx.path, body) && Enters(env, ctx, TargetOf(env, ctx.path, body))
  {
  }

  lemma RunSucceeds(env: Env, ctx: Context, doc: Doc)
    requires ValidEnv(env)
    ensures RunDoc(env, ctx, doc).res.Ok? <==>
            Sound(env, ctx.path, doc) && forall key :: Links(env, ctx.path, doc, key) ==> Enters(env, ctx, key)
  {
    RunIsSteps(env, ctx, doc);
    StepsDecide(env, ctx, Steps(doc));
    forall s | s in Steps(doc)
      ensures RunStep(env, ctx, s).stop.None? <==>
              s.Include? && Resolves(env, ctx.path, s.body) && Enters(env, ctx, TargetOf(env, ctx.path, s.body))
    {
      if s.Include? { DirectiveSucceeds(env, ctx, s.body); }
    }
  }

  lemma ChildRoom(env: Env, ctx: Context, key: string)
    requires key in env.content && key !in ctx.Chain()
    ensures Child(ctx, key).Chain() == ctx.Chain() + [key]
    ensures Room(env, Child(ctx, key)) < Room(env, ctx)
  {
    ElemsAppend(ctx.Chain(), key);
  }

  lemma {:induction false} SuccessIsClear(env: Env, ctx: Context, doc: Doc, walk: seq<string>)
    requires ValidEnv(env) && RunDoc(env, ctx, doc).res.Ok? && Walk(env, ctx.path, doc, walk)
    ensures Clear(env, ctx, doc, walk)
    decreases |walk|
  {
    RunSucceeds(env, ctx, doc);
    if walk != [] {
      var key := walk[0];
      assert Enters(env, ctx, key);
      ChildRoom(env, ctx, key);
      SuccessIsClear(env, Child(ctx, key), DocOf(env, key), walk[1..]);
      ClearAbove(env, ctx, doc, walk);
    }
  }

  lemma ClearAbove(env: Env, ctx: Context, doc: Doc, walk: seq<string>)
    requires ValidEnv(env) && walk != [] && walk[0] in env.content && walk[0] !in ctx.Chain()
    requires env.cap.Some? ==> |ctx.Chain()| < env.cap.value
    requires Walk(env, Some(walk[0]), DocOf(env, walk[0]), walk[1..])
    requires Clear(env, Child(ctx, walk[0]), DocOf(env, walk[0]), walk[1..])
    ensures Clear(env, ctx, doc, walk)
  {
    var key, more := walk[0], walk[1..];
    assert Child(ctx, key).Chain() == ctx.Chain() + [key];
    assert key in Child(ctx, key).Chain();
    assert forall k :: k in ctx.Chain() ==> k in Child(ctx, key).Chain();
    assert forall k :: k in walk ==> k == key || k in more;
    WalkEnds(env, Some(key), DocOf(env, key), more);
  }

  lemma {:induction false} ClearIsSuccess(env: Env, ctx: Context, doc: Doc)
    requires ValidEnv(env)
    requires forall walk :: Walk(env, ctx.path, doc, walk) ==> Clear(env, ctx, doc, walk)
    ensures RunDoc(env, ctx, doc).res.Ok?
    decreases Room(env, ctx)
  {
    assert Walk(env, ctx.path, doc, []) && Clear(env, ctx, doc, []);
    forall key | Links(env, ctx.path, doc, key) ensures Enters(env, ctx, key) {
      var child, below := Child(ctx, key), DocOf(env, key);
      var step := [key];
      assert step[1..] == [] && Walk(env, ctx.path, doc, step);
      assert Clear(env, ctx, doc, step);
      assert key in step;
      ChildRoom(env, ctx, key);
      forall more | Walk(env, child.path, below, more) ensures Clear(env, child, below, more) {
        ClearBelow(env, ctx, doc, key, more);
      }
      ClearIsSuccess(env, child, below);
    }
    RunSucceeds(env, ctx, doc);
  }

  lemma ClearBelow(env: Env, ctx: Context, doc: Doc, key: string, more: seq<string>)
    requires ValidEnv(env) && Links(env, ctx.path, doc, key) && key !in ctx.Chain()
    requires Walk(env, Some(key), DocOf(env, key), more)
    requires forall walk :: Walk(env, ctx.path, doc, walk) ==> Clear(env, ctx, doc, walk)
    ensures Clear(env, Child(ctx, key), DocOf(env, key), more)
  {
    var walk := [key] + more;
    assert walk[1..] == more;
    assert Clear(env, ctx, doc, walk);
    NoDupRest(key, more);
    WalkEnds(env, Some(key), DocOf(env, key), more);
    assert forall k :: k in more ==> k in walk;
    EndsBelow(env, ctx, doc, key, more);
  }

  lemma EndsBelow(env: Env, ctx: Context, doc: Doc, key: string, more: seq<string>)
    requires key in env.content && forall k :: k in more ==> k in env.content
    ensures EndName(ctx.path, [key] + more) == EndName(Some(key), more)
    ensures EndDoc(env, doc, [key] + more) == EndDoc(env, DocOf(env, key), more)
  {
    if more != [] {
      assert ([key] + more)[|more|] == more[|more| - 1] && more[|more| - 1] in more;
    }
  }

  lemma NoDupRest(key: string, more: seq<string>)
    requires NoDup([key] + more)
    ensures NoDup(more) && key !in more
  {
    var all := [key] + more;
    forall i, j | 0 <= i < j < |more| ensures more[i] != more[j] {
      assert all[i + 1] != all[j + 1];
    }
    forall i | 0 <= i < |more| ensures more[i] != key {
      assert all[0] != all[i + 1];
    }
  }

  /**
   * Expansion succeeds exactly when every walk along references is clear: every document met is
   * sound, and no walk returns to a source it has met, or to an ancestor, or outgrows the cap.
   */
  lemma SuccessIffClear(env: Env, ctx: Context, doc: Doc)
    requires ValidEnv(env)
    ensures RunDoc(env, ctx, doc).res.Ok? <==>
            forall walk :: Walk(env, ctx.path, doc, walk) ==> Clear(env, ctx, doc, walk)
  {
    if RunDoc(env, ctx, doc).res.Ok? {
      forall walk | Walk(env, ctx.path, doc, walk) { SuccessIsClear(env, ctx, doc, walk); }
    } else if forall walk :: Walk(env, ctx.path, doc, walk) ==> Clear(env, ctx, doc, walk) {
      ClearIsSuccess(env, ctx, doc);
    }
  }

  // ----- the whole document, with a cap no smaller than the set of sources -----

  ghost predicate Roomy(env: Env) {
    env.cap.Some? ==> |env.content| <= env.cap.value
  }

  ghost predicate Reaches(env: Env, current: Option<string>, doc: Doc, walk: seq<string>, key: string)
    requires ValidEnv(env)
  {
    walk != [] && walk[|walk| - 1] == key && Walk(env, current, doc, walk)
  }

  /** No source that the document reaches can reach itself. */
  ghost predicate Acyclic(env: Env, doc: Doc)
    requires ValidEnv(env)
  {
    forall walk, loop, key :: key in env.content && Reaches(env, None, doc, walk, key) ==>
      !Reaches(env, Some(key), DocOf(env, key), loop, key)
  }

  ghost predicate AllSound(env: Env, doc: Doc)
    requires ValidEnv(env)
  {
    forall walk :: Walk(env, None, doc, walk) ==> Sound(env, EndName(None, walk), EndDoc(env, doc, walk))
  }

  lemma SuccessIsAcyclic(env: Env, doc: Doc)
    requires ValidEnv(env) && RunDoc(env, TOP_LEVEL, doc).res.Ok?
    ensures AllSound(env, doc) && Acyclic(env, doc)
  {
    forall walk | Walk(env, None, doc, walk) { SuccessIsClear(env, TOP_LEVEL, doc, walk); }
    forall walk, loop, key | key in env.content && Reaches(env, None, doc, walk, key)
      ensures !Reaches(env, Some(key), DocOf(env, key), loop, key)
    {
      NoReturn(env, doc, walk, loop, key);
    }
  }

  lemma NoReturn(env: Env, doc: Doc, walk: seq<string>, loop: seq<string>, key: string)
    requires ValidEnv(env) && RunDoc(env, TOP_LEVEL, doc).res.Ok?
    requires key in env.content && Reaches(env, None, doc, walk, key)
    ensures !Reaches(env, Some(key), DocOf(env, key), loop, key)
  {
    if Reaches(env, Some(key), DocOf(env, key), loop, key) {
      var round := walk + loop;
      assert round[|walk| - 1] == round[|round| - 1];
      WalkAppend(env, None, doc, walk, loop);
      SuccessIsClear(env, TOP_LEVEL, doc, round);
      assert false;
    }
  }

  lemma AcyclicIsSuccess(env: Env, doc: Doc)
    requires ValidEnv(env) && Roomy(env) && AllSound(env, doc) && Acyclic(env, doc)
    ensures RunDoc(env, TOP_LEVEL, doc).res.Ok?
  {
    forall walk | Walk(env, None, doc, walk) ensures Clear(env, TOP_LEVEL, doc, walk) {
      AcyclicWalk(env, doc, walk);
      WalkEnds(env, None, doc, walk);
      NoDupBounded(walk, env.content.Keys);
    }
    ClearIsSuccess(env, TOP_LEVEL, doc);
  }

  /**
   * A document expands exactly when every document it reaches is sound and the reference graph
   * it reaches has no cycle; a source reached on two branches is no cycle.
   */
  lemma SuccessIffAcyclic(env: Env, doc: Doc)
    requires ValidEnv(env) && Roomy(env)
    ensures RunDoc(env, TOP_LEVEL, doc).res.Ok? <==> AllSound(env, doc) && Acyclic(env, doc)
  {
    if RunDoc(env, TOP_LEVEL, doc).res.Ok? {
      SuccessIsAcyclic(env, doc);
    } else if AllSound(env, doc) && Acyclic(env, doc) {
      AcyclicIsSuccess(env, doc);
    }
  }

  lemma AcyclicWalk(env: Env, doc: Doc, walk: seq<string>)
    requires ValidEnv(env) && Acyclic(env, doc) && Walk(env, None, doc, walk)
    ensures NoDup(walk)
  {
    forall i, j | 0 <= i < j < |walk| ensures walk[i] != walk[j] {
      WalkSplit(env, doc, walk, i, j);
      NoWayBack(env, doc, walk[..i + 1], walk[i], walk[i + 1..j + 1]);
    }
  }

  lemma NoWayBack(env: Env, doc: Doc, walk: seq<string>, key: string, loop: seq<string>)
    requires ValidEnv(env) && Acyclic(env, doc) && key in env.content && Reaches(env, None, doc, walk, key)
    ensures !Reaches(env, Some(key), DocOf(env, key), loop, key)
  {
  }

  /** A walk that passes `walk[i]` and later `walk[j]` has a walk from the one to the other. */
  lemma WalkSplit(env: Env, doc: Doc, walk: seq<string>, i: nat, j: nat)
    requires ValidEnv(env) && Walk(env, None, doc, walk) && i < j < |walk|
    ensures walk[i] in env.content
    ensures Reaches(env, None, doc, walk[..i + 1], walk[i])
    ensures Reaches(env, Some(walk[i]), DocOf(env, walk[i]), walk[i + 1..j + 1], walk[j])
  {
    var upTo, loop, rest := walk[..i + 1], walk[i + 1..j + 1], walk[j + 1..];
    WalkEnds(env, None, doc, walk);
    assert walk == upTo + (loop + rest);
    WalkAppend(env, None, doc, upTo, loop + rest);
    assert upTo[i] == walk[i];
    LoopReaches(env, walk[i], loop, rest);
  }

  lemma LoopReaches(env: Env, key: string, loop: seq<string>, rest: seq<string>)
    requires ValidEnv(env) && key in env.content && Walk(env, Some(key), DocOf(env, key), loop + rest) && loop != []
    ensures Reaches(env, Some(key), DocOf(env, key), loop, loop[|loop| - 1])
  {
    WalkAppend(env, Some(key), DocOf(env, key), loop, rest);
  }

  // ----- the dependency record -----

  ghost function LastEdge(ctx: Context, walk: seq<string>): Edge
    requires walk != []
  {
    Edge(if |walk| == 1 then ctx.Target() else walk[|walk| - 2], walk[|walk| - 1])
  }

  /** `e` is an edge of the reference graph that `doc` reaches. */
  ghost predicate InGraph(env: Env, ctx: Context, doc: Doc, e: Edge)
    requires ValidEnv(env)
  {
    exists walk :: walk != [] && Walk(env, ctx.path, doc, walk) && LastEdge(ctx, walk) == e
  }

  ghost predicate Allowed(env: Env, ctx: Context, key: string) {
    key !in ctx.Chain() && (env.cap.Some? ==> |ctx.Chain()| < env.cap.value)
  }

  lemma DirectiveEdges(env: Env, ctx: Context, body: Body)
    requires ValidEnv(env)
    ensures Directive(env, ctx, body).edges ==
            if Resolves(env, ctx.path, body) && Allowed(env, ctx, TargetOf(env, ctx.path, body)) then
              var key := TargetOf(env, ctx.path, body);
              {Edge(ctx.Target(), key)} + RunDoc(env, Child(ctx, key), DocOf(env, key)).edges
            else {}
  {
  }

  /** Including `key` below `ctx` records `e`, for itself or on behalf of what `key` includes. */
  ghost predicate Records(env: Env, ctx: Context, key: string, e: Edge)
    requires ValidEnv(env) && key in env.content
  {
    e == Edge(ctx.Target(), key) || e in RunDoc(env, Child(ctx, key), DocOf(env, key)).edges
  }

  lemma RunEdges(env: Env, ctx: Context, doc: Doc, e: Edge)
    requires ValidEnv(env)
    ensures e in RunDoc(env, ctx, doc).edges ==>
            exists key :: Links(env, ctx.path, doc, key) && Allowed(env, ctx, key) && Records(env, ctx, key, e)
    ensures RunDoc(env, ctx, doc).res.Ok? ==>
            forall key :: Links(env, ctx.path, doc, key) && Records(env, ctx, key, e) ==>
              e in RunDoc(env, ctx, doc).edges
  {
    RunIsSteps(env, ctx, doc);
    StepsDecide(env, ctx, Steps(doc));
    if e in RunDoc(env, ctx, doc).edges {
      var s :| s in Steps(doc) && e in RunStep(env, ctx, s).edges;
      DirectiveEdges(env, ctx, s.body);
      assert Links(env, ctx.path, doc, TargetOf(env, ctx.path, s.body));
    }
    if RunDoc(env, ctx, doc).res.Ok? {
      forall key | Links(env, ctx.path, doc, key) && Records(env, ctx, key, e)
        ensures e in RunDoc(env, ctx, doc).edges
      {
        var body :|
          Include(body) in Steps(doc) && Resolves(env, ctx.path, body) && TargetOf(env, ctx.path, body) == key;
        DirectiveEdges(env, ctx, body);
        DirectiveSucceeds(env, ctx, body);
        assert RunStep(env, ctx, Include(body)).stop.None?;
        assert e in RunStep(env, ctx, Include(body)).edges;
      }
    }
  }

  lemma WalkFrom(env: Env, ctx: Context, doc: Doc, key: string, more: seq<string>)
    requires ValidEnv(env) && Links(env, ctx.path, doc, key)
    requires Walk(env, Some(key), DocOf(env, key), more)
    ensures Walk(env, ctx.path, doc, [key] + more)
    ensures LastEdge(ctx, [key] + more) ==
            if more == [] then Edge(ctx.Target(), key) else LastEdge(Child(ctx, key), more)
  {
    assert ([key] + more)[1..] == more;
  }

  lemma InGraphFrom(env: Env, ctx: Context, doc: Doc, key: string, e: Edge)
    requires ValidEnv(env) && Links(env, ctx.path, doc, key) && InGraph(env, Child(ctx, key), DocOf(env, key), e)
    ensures InGraph(env, ctx, doc, e)
  {
    var more :| more != [] && Walk(env, Some(key), DocOf(env, key), more) && LastEdge(Child(ctx, key), more) == e;
    WalkFrom(env, ctx, doc, key, more);
  }

  /** Whatever the outcome, only edges of the reference graph are recorded. */
  lemma {:induction false} EdgesAreReal(env: Env, ctx: Context, doc: Doc, e: Edge)
    requires ValidEnv(env) && e in RunDoc(env, ctx, doc).edges
    ensures InGraph(env, ctx, doc, e)
    decreases Room(env, ctx)
  {
    RunEdges(env, ctx, doc, e);
    var key :| Links(env, ctx.path, doc, key) && Allowed(env, ctx, key) && Records(env, ctx, key, e);
    if e == Edge(ctx.Target(), key) {
      WalkFrom(env, ctx, doc, key, []);
    } else {
      ChildRoom(env, ctx, key);
      EdgesAreReal(env, Child(ctx, key), DocOf(env, key), e);
      InGraphFrom(env, ctx, doc, key, e);
    }
  }

  /** On success every edge of the reference graph is recorded. */
  lemma {:induction false} EdgesAreAll(env: Env, ctx: Context, doc: Doc, walk: seq<string>)
    requires ValidEnv(env) && RunDoc(env, ctx, doc).res.Ok?
    requires walk != [] && Walk(env, ctx.path, doc, walk)
    ensures LastEdge(ctx, walk) in RunDoc(env, ctx, doc).edges
    decreases |walk|
  {
    var key := walk[0];
    RunEdges(env, ctx, doc, LastEdge(ctx, walk));
    if |walk| > 1 {
      RunSucceeds(env, ctx, doc);
      assert Enters(env, ctx, key);
      EdgesAreAll(env, Child(ctx, key), DocOf(env, key), walk[1..]);
      assert LastEdge(Child(ctx, key), walk[1..]) == LastEdge(ctx, walk);
    }
  }

  /** On success the edges recorded are exactly those of the reference graph. */
  lemma EdgesAreTheGraph(env: Env, ctx: Context, doc: Doc, e: Edge)
    requires ValidEnv(env)
    ensures e in RunDoc(env, ctx, doc).edges ==> InGraph(env, ctx, doc, e)
    ensures RunDoc(env, ctx, doc).res.Ok? ==> (e in RunDoc(env, ctx, doc).edges <==> InGraph(env, ctx, doc, e))
  {
    if e in RunDoc(env, ctx, doc).edges {
      EdgesAreReal(env, ctx, doc, e);
    } else if RunDoc(env, ctx, doc).res.Ok? && InGraph(env, ctx, doc, e) {
      var walk :| walk != [] && Walk(env, ctx.path, doc, walk) && LastEdge(ctx, walk) == e;
      EdgesAreAll(env, ctx, doc, walk);
    }
  }

  // ----- the depth error -----

  /** With room for every source, the depth error is never raised. */
  lemma {:induction false} DepthNeverRaised(env: Env, ctx: Context, doc: Doc)
    requires ValidEnv(env) && Roomy(env)
    requires NoDup(ctx.Chain()) && Elems(ctx.Chain()) <= env.content.Keys
    ensures RunDoc(env, ctx, doc).res.Err? ==> !RunDoc(env, ctx, doc).res.report.Depth?
    decreases Room(env, ctx)
  {
    RunIsSteps(env, ctx, doc);
    StepsDecide(env, ctx, Steps(doc));
    if RunDoc(env, ctx, doc).res.Err? {
      var s :| s in Steps(doc) && RunStep(env, ctx, s).stop == Some(RunDoc(env, ctx, doc).res.report);
      if s.Include? && Resolves(env, ctx.path, s.body) {
        var key := TargetOf(env, ctx.path, s.body);
        if key !in ctx.Chain() {
          ChildRoom(env, ctx, key);
          ElemsAppend(ctx.Chain(), key);
          NoDupBounded(ctx.Chain() + [key], env.content.Keys);
          DepthNeverRaised(env, Child(ctx, key), DocOf(env, key));
        }
      }
    }
  }
}
