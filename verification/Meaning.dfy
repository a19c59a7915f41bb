/** Expansion has an inlining meaning: every reference stands for its source's own value. */
module Meaning {
  import opened Common
  import opened Values
  import opened References
  import opened Expand
  import opened ExpandGraph

  // ----- a document under an assignment of values to its directives -----

  ghost function Interpret(extend: bool, doc: Doc, f: Body -> Value): Value
    decreases Size(doc)
  {
    match doc
    case Lit(value) => value
    case Load(body) => f(body)
    case Items(items) => List(Plain, InterpretItems(extend, items, f))
    case Members(members) => InterpretMembers(extend, EMPTY, members, f)
    case Fault(_, _) => Undefined
  }

  ghost function InterpretItems(extend: bool, items: seq<Doc>, f: Body -> Value): seq<Value>
    decreases ItemsSize(items)
  {
    if items == [] then [] else [Interpret(extend, items[0], f)] + InterpretItems(extend, items[1..], f)
  }

  ghost function InterpretMembers(extend: bool, node: Value, members: seq<Member>, f: Body -> Value): Value
    decreases MembersSize(members)
  {
    if members == [] then node
    else
      assert members[0].Pair? ==> MemberSize(members[0]) == Size(members[0].doc) < MembersSize(members);
      var value := if members[0].Pair? then Interpret(extend, members[0].doc, f) else f(members[0].body);
      InterpretMembers(extend, Put(extend, node, members[0], value), members[1..], f)
  }

  /** In `ctx`, every step of a run is a directive that yields what `f` says. */
  ghost predicate Yields(env: Env, ctx: Context, steps: seq<Step>, f: Body -> Value)
    requires ValidEnv(env)
  {
    forall s :: s in steps ==> s.Include? && Directive(env, ctx, s.body).res == Ok(f(s.body))
  }

  lemma YieldsParts(env: Env, ctx: Context, a: seq<Step>, b: seq<Step>, f: Body -> Value)
    requires ValidEnv(env) && Yields(env, ctx, a + b, f)
    ensures Yields(env, ctx, a, f) && Yields(env, ctx, b, f)
  {
    assert forall s :: s in a || s in b ==> s in a + b;
  }

  lemma FaultYieldsNothing(env: Env, ctx: Context, code: string, detail: string, f: Body -> Value)
    requires ValidEnv(env)
    ensures !Yields(env, ctx, [Stop(code, detail)], f)
  {
    assert Stop(code, detail) in [Stop(code, detail)];
  }

  lemma {:induction false} RunInterprets(env: Env, ctx: Context, doc: Doc, f: Body -> Value)
    requires ValidEnv(env) && Yields(env, ctx, Steps(doc), f)
    ensures RunDoc(env, ctx, doc).res == Ok(Interpret(env.extend, doc, f))
    decreases Size(doc)
  {
    match doc
    case Lit(_) =>
    case Load(body) => assert Include(body) in Steps(doc);
    case Items(items) =>
      ItemsInterpret(env, ctx, [], items, f);
      assert [] + InterpretItems(env.extend, items, f) == InterpretItems(env.extend, items, f);
    case Members(members) => MembersInterpret(env, ctx, EMPTY, members, f);
    case Fault(code, detail) => FaultYieldsNothing(env, ctx, code, detail, f);
  }

  lemma {:induction false} ItemsInterpret(env: Env, ctx: Context, done: seq<Value>, items: seq<Doc>, f: Body -> Value)
    requires ValidEnv(env) && Yields(env, ctx, ItemsSteps(items), f)
    ensures RunItems(env, ctx, done, items).res == Ok(List(Plain, done + InterpretItems(env.extend, items, f)))
    decreases ItemsSize(items)
  {
    if items == [] {
      assert done + [] == done;
    } else {
      YieldsParts(env, ctx, Steps(items[0]), ItemsSteps(items[1..]), f);
      RunInterprets(env, ctx, items[0], f);
      var first := Interpret(env.extend, items[0], f);
      ItemsInterpret(env, ctx, done + [first], items[1..], f);
      ConcatAssociative(done, [first], InterpretItems(env.extend, items[1..], f));
    }
  }

  lemma {:induction false} MembersInterpret(env: Env, ctx: Context, node: Value, members: seq<Member>, f: Body -> Value)
    requires ValidEnv(env) && Yields(env, ctx, MembersSteps(members), f)
    ensures RunMembers(env, ctx, node, members).res == Ok(InterpretMembers(env.extend, node, members, f))
    decreases MembersSize(members)
  {
    if members != [] {
      var m := members[0];
      YieldsParts(env, ctx, MemberSteps(m), MembersSteps(members[1..]), f);
      if m.Pair? {
        assert MemberSize(m) == Size(m.doc) < MembersSize(members);
        RunInterprets(env, ctx, m.doc, f);
      } else {
        assert Include(m.body) in MemberSteps(m);
      }
      var value := if m.Pair? then Interpret(env.extend, m.doc, f) else f(m.body);
      MembersInterpret(env, ctx, Put(env.extend, node, m, value), members[1..], f);
    }
  }

  // ----- the value of a source depends on its key alone -----

  /** Each directive's own result in `ctx`. */
  ghost function ResultsIn(env: Env, ctx: Context): Body -> Value
    requires ValidEnv(env)
  {
    body => if Directive(env, ctx, body).res.Ok? then Directive(env, ctx, body).res.value else Undefined
  }

  lemma SuccessYields(env: Env, ctx: Context, doc: Doc)
    requires ValidEnv(env) && RunDoc(env, ctx, doc).res.Ok?
    ensures Yields(env, ctx, Steps(doc), ResultsIn(env, ctx))
  {
    RunIsSteps(env, ctx, doc);
    StepsDecide(env, ctx, Steps(doc));
    assert forall s :: s in Steps(doc) ==> RunStep(env, ctx, s).stop.None?;
  }

  /** A success survives the loss of ancestors, with the same value. */
  lemma {:induction false} FewerAncestors(env: Env, ctx: Context, less: Context, doc: Doc)
    requires ValidEnv(env) && RunDoc(env, ctx, doc).res.Ok?
    requires less.path == ctx.path && Elems(less.Chain()) <= Elems(ctx.Chain()) && |less.Chain()| <= |ctx.Chain()|
    ensures RunDoc(env, less, doc).res == RunDoc(env, ctx, doc).res
    decreases Room(env, ctx), 1
  {
    SuccessYields(env, ctx, doc);
    var f := ResultsIn(env, ctx);
    forall s | s in Steps(doc) ensures Directive(env, less, s.body).res == Ok(f(s.body)) {
      FewerAncestorsStep(env, ctx, less, s.body);
    }
    RunInterprets(env, ctx, doc, f);
    RunInterprets(env, less, doc, f);
  }

  lemma {:induction false} FewerAncestorsStep(env: Env, ctx: Context, less: Context, body: Body)
    requires ValidEnv(env) && Directive(env, ctx, body).res.Ok?
    requires less.path == ctx.path && Elems(less.Chain()) <= Elems(ctx.Chain()) && |less.Chain()| <= |ctx.Chain()|
    ensures Directive(env, less, body).res == Directive(env, ctx, body).res
    decreases Room(env, ctx), 0
  {
    DirectiveSucceeds(env, ctx, body);
    var key := TargetOf(env, ctx.path, body);
    ChildRoom(env, ctx, key);
    assert key !in less.Chain() by { MembersAreElems(less.Chain()); MembersAreElems(ctx.Chain()); }
    ElemsAppend(ctx.Chain(), key);
    ElemsAppend(less.Chain(), key);
    FewerAncestors(env, Child(ctx, key), Child(less, key), DocOf(env, key));
  }

  /** A source expanded with no ancestors at all. */
  ghost function ClosedRun(env: Env, key: string): Result
    requires ValidEnv(env) && key in env.content
  {
    RunDoc(env, Context([], Some(key)), DocOf(env, key)).res
  }

  ghost function Closed(env: Env): string -> Value
    requires ValidEnv(env)
  {
    key => if key in env.content && ClosedRun(env, key).Ok? then ClosedRun(env, key).value else Undefined
  }

  /** Whatever ancestors a source is reached through, if it expands it has its closed value. */
  lemma ValueOfKeyAlone(env: Env, ctx: Context, key: string)
    requires ValidEnv(env) && key in env.content
    requires RunDoc(env, Child(ctx, key), DocOf(env, key)).res.Ok?
    ensures RunDoc(env, Child(ctx, key), DocOf(env, key)).res == Ok(Closed(env)(key))
  {
    var alone := Context([], Some(key));
    ElemsAppend(ctx.Chain(), key);
    assert alone.Chain() == [key];
    FewerAncestors(env, Child(ctx, key), alone, DocOf(env, key));
  }

  // ----- expansion is substitution -----

  /** The assignment that gives each directive the value `values` has for the source it names. */
  ghost function Substitute(env: Env, current: Option<string>, values: string -> Value): Body -> Value
    requires ValidEnv(env)
  {
    body => if Resolves(env, current, body) then values(TargetOf(env, current, body)) else Undefined
  }

  /** A successful expansion is its document with every reference replaced by its closed value. */
  lemma ExpansionIsSubstitution(env: Env, ctx: Context, doc: Doc)
    requires ValidEnv(env) && RunDoc(env, ctx, doc).res.Ok?
    ensures RunDoc(env, ctx, doc).res == Ok(Interpret(env.extend, doc, Substitute(env, ctx.path, Closed(env))))
  {
    SuccessYields(env, ctx, doc);
    var f := Substitute(env, ctx.path, Closed(env));
    forall s | s in Steps(doc) ensures Directive(env, ctx, s.body).res == Ok(f(s.body)) {
      DirectiveSucceeds(env, ctx, s.body);
      ValueOfKeyAlone(env, ctx, TargetOf(env, ctx.path, s.body));
    }
    RunInterprets(env, ctx, doc, f);
  }

  /** `values` solves the equation of `key`: it is its document, with references replaced by `values`. */
  ghost predicate Solves(env: Env, values: string -> Value, key: string)
    requires ValidEnv(env) && key in env.content
  {
    values(key) == Interpret(env.extend, DocOf(env, key), Substitute(env, Some(key), values))
  }

  /** The closed values solve the equations of every source a successful expansion reaches. */
  lemma ClosedValuesSolve(env: Env, doc: Doc, walk: seq<string>)
    requires ValidEnv(env) && RunDoc(env, TOP_LEVEL, doc).res.Ok?
    requires walk != [] && Walk(env, None, doc, walk)
    ensures walk[|walk| - 1] in env.content && Solves(env, Closed(env), walk[|walk| - 1])
  {
    var key := walk[|walk| - 1];
    WalkEnds(env, None, doc, walk);
    var alone := Context([], Some(key));
    WalkSucceeds(env, TOP_LEVEL, doc, walk);
    ExpansionIsSubstitution(env, alone, DocOf(env, key));
  }

  lemma {:induction false} WalkSucceeds(env: Env, ctx: Context, doc: Doc, walk: seq<string>)
    requires ValidEnv(env) && RunDoc(env, ctx, doc).res.Ok?
    requires walk != [] && Walk(env, ctx.path, doc, walk)
    ensures walk[|walk| - 1] in env.content && ClosedRun(env, walk[|walk| - 1]).Ok?
    decreases |walk|
  {
    RunSucceeds(env, ctx, doc);
    assert Enters(env, ctx, walk[0]);
    if |walk| == 1 {
      ValueOfKeyAlone(env, ctx, walk[0]);
      ElemsAppend(ctx.Chain(), walk[0]);
      FewerAncestors(env, Child(ctx, walk[0]), Context([], Some(walk[0])), DocOf(env, walk[0]));
    } else {
      WalkSucceeds(env, Child(ctx, walk[0]), DocOf(env, walk[0]), walk[1..]);
    }
  }

  /** The values solve the equation of every source that the document reaches. */
  ghost predicate SolvesReached(env: Env, current: Option<string>, doc: Doc, values: string -> Value)
    requires ValidEnv(env)
  {
    forall walk :: walk != [] && Walk(env, current, doc, walk) && walk[|walk| - 1] in env.content ==>
      Solves(env, values, walk[|walk| - 1])
  }

  lemma SolvesBelow(env: Env, ctx: Context, doc: Doc, key: string, values: string -> Value)
    requires ValidEnv(env) && SolvesReached(env, ctx.path, doc, values) && Links(env, ctx.path, doc, key)
    ensures Solves(env, values, key) && SolvesReached(env, Some(key), DocOf(env, key), values)
  {
    WalkFrom(env, ctx, doc, key, []);
    assert ([key] + [])[0] == key;
    forall more | more != [] && Walk(env, Some(key), DocOf(env, key), more) && more[|more| - 1] in env.content
      ensures Solves(env, values, more[|more| - 1])
    {
      WalkFrom(env, ctx, doc, key, more);
      assert ([key] + more)[|more|] == more[|more| - 1];
    }
  }

  /**
   * The equations have one solution: any values that solve them on every source reached give the
   * document the value its expansion computed.
   */
  lemma {:induction false} SolutionIsUnique(env: Env, ctx: Context, doc: Doc, values: string -> Value)
    requires ValidEnv(env) && RunDoc(env, ctx, doc).res.Ok?
    requires SolvesReached(env, ctx.path, doc, values)
    ensures RunDoc(env, ctx, doc).res == Ok(Interpret(env.extend, doc, Substitute(env, ctx.path, values)))
    decreases Room(env, ctx)
  {
    SuccessYields(env, ctx, doc);
    var f := Substitute(env, ctx.path, values);
    forall s | s in Steps(doc) ensures Directive(env, ctx, s.body).res == Ok(f(s.body)) {
      DirectiveSucceeds(env, ctx, s.body);
      var key := TargetOf(env, ctx.path, s.body);
      ChildRoom(env, ctx, key);
      assert Links(env, ctx.path, doc, key);
      SolvesBelow(env, ctx, doc, key, values);
      SolutionIsUnique(env, Child(ctx, key), DocOf(env, key), values);
    }
    RunInterprets(env, ctx, doc, f);
  }
}
