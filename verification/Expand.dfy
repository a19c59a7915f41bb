/** Include expansion: a recursive evaluator over a finite, possibly cyclic set of sources. */
module Expand {
  import opened Common
  import opened Values
  import opened References

  // ----- documents, as the host grammar hands them over -----

  /** A parsed document. A `Fault` is the place where the parser gives up. */
  datatype Doc =
    | Lit(value: Value)
    | Load(body: Body)
    | Items(items: seq<Doc>)
    | Members(members: seq<Member>)
    | Fault(code: string, detail: string)

  datatype Member = Pair(key: string, doc: Doc) | Spliced(body: Body)

  function Size(doc: Doc): nat {
    match doc
    case Items(items) => 1 + ItemsSize(items)
    case Members(members) => 1 + MembersSize(members)
    case _ => 1
  }

  function ItemsSize(items: seq<Doc>): nat {
    if items == [] then 0 else 1 + Size(items[0]) + ItemsSize(items[1..])
  }

  function MembersSize(members: seq<Member>): nat {
    if members == [] then 0 else 1 + MemberSize(members[0]) + MembersSize(members[1..])
  }

  function MemberSize(m: Member): nat { if m.Pair? then Size(m.doc) else 1 }

  /** What a parser meets on its way through a document: a directive, or the place it gives up. */
  datatype Step = Include(body: Body) | Stop(code: string, detail: string)

  ghost function Steps(doc: Doc): seq<Step> {
    match doc
    case Lit(_) => []
    case Load(body) => [Include(body)]
    case Items(items) => ItemsSteps(items)
    case Members(members) => MembersSteps(members)
    case Fault(code, detail) => [Stop(code, detail)]
  }

  ghost function ItemsSteps(items: seq<Doc>): seq<Step> {
    if items == [] then [] else Steps(items[0]) + ItemsSteps(items[1..])
  }

  ghost function MembersSteps(members: seq<Member>): seq<Step> {
    if members == [] then [] else MemberSteps(members[0]) + MembersSteps(members[1..])
  }

  ghost function MemberSteps(m: Member): seq<Step> {
    if m.Pair? then Steps(m.doc) else [Include(m.body)]
  }

  // ----- the environment of a parse -----

  datatype Processor = RawText | Reparse

  datatype Entry = Call(processor: Processor) | Alias(kind: string)

  const DEFAULT_PROCESSORS: map<string, Entry> :=
    map["" := Call(RawText), "jsonic" := Call(Reparse), "jsc" := Alias("jsonic")]

  /** One level of aliasing, and the empty kind as the fallback. */
  function ProcessorFor(table: map<string, Entry>, kind: string): Option<Processor> {
    var fallback := if "" in table && table[""].Call? then Some(table[""].processor) else None;
    if kind !in table then fallback
    else match table[kind]
      case Call(processor) => Some(processor)
      case Alias(target) =>
        if target in table && table[target].Call? then Some(table[target].processor) else fallback
  }

  /**
   * What a parse runs under: the texts a resolver can serve, the resolver itself (the source a
   * reference is found in, then the reference), the host grammar, the processor table, the
   * depth cap (the Go port has none) and whether a map is extended or overwritten.
   */
  datatype Env = Env(
    content: map<string, string>, resolve: (Option<string>, Option<string>) -> Resolution,
    parse: string -> Doc,
    processors: map<string, Entry>, cap: Option<nat>,
    extend: bool)

  /** Whatever the resolver finds is one of the texts, under its own name and kind. */
  ghost predicate ValidEnv(env: Env) {
    forall current, reference :: env.resolve(current, reference).found ==>
      var r := env.resolve(current, reference);
      && r.spec.full.Some?
      && r.spec.full.value in env.content
      && r.src == Some(env.content[r.spec.full.value])
      && r.spec.kind == ExtKind(r.spec.full)
  }

  /** Resolved text as the processor of its kind turns it into a document. */
  function Processed(env: Env, kind: string, src: string): Doc {
    match ProcessorFor(env.processors, kind)
    case None => Lit(Undefined)
    case Some(RawText) => Lit(Leaf(Str(src)))
    case Some(Reparse) => env.parse(src)
  }

  ghost function DocOf(env: Env, key: string): Doc
    requires key in env.content
  {
    Processed(env, ExtKind(Some(key)), env.content[key])
  }

  // ----- the evaluator -----

  const TOP: string := "\0TOP"

  /** Parse metadata: the enclosing sources, outermost first, and the source being parsed. */
  datatype Context = Context(parents: seq<string>, path: Option<string>) {
    function Chain(): seq<string> {
      if path.Some? then parents + [path.value] else parents
    }

    function Target(): string {
      var chain := Chain();
      if chain == [] then TOP else chain[|chain| - 1]
    }
  }

  const TOP_LEVEL: Context := Context([], None)

  /** One record that `tar` pulled in `src`. */
  datatype Edge = Edge(tar: string, src: string)

  datatype Report =
    | Missing(path: string, full: string, search: seq<string>)
    | Cycle(path: string, loop: seq<string>)
    | Depth(path: string, max: nat)
    | Grammar(code: string, detail: string)
    | Unprocessed(code: string, path: string, detail: string)
  {
    function Code(): string {
      match this
      case Missing(_, _, _) => "multisource_not_found"
      case Cycle(_, _) => "multisource_cycle"
      case Depth(_, _) => "multisource_depth"
      case Grammar(code, _) => code
      case Unprocessed(code, _, _) => code
    }
  }

  datatype Result = Ok(value: Value) | Err(report: Report)

  datatype Run = Run(res: Result, edges: set<Edge>)

  function MissingReport(r: Resolution, reference: Option<string>): Report {
    var full := if r.spec.full.Some? then r.spec.full.value else "";
    Missing(
      if r.spec.path.Some? then r.spec.path.value else if reference.Some? then reference.value else "",
      full,
      if r.search == [] && r.spec.full.Some? then [full] else r.search)
  }

  /** The ancestors from the first occurrence of `path`, closed by `path` itself. */
  function LoopOf(chain: seq<string>, path: string): seq<string> {
    if chain == [] || chain[0] == path then chain + [path] else LoopOf(chain[1..], path)
  }

  /** A nested parse error, raised again by the load that nested it. */
  function Reraise(path: string, res: Result): Result {
    match res
    case Err(Grammar(code, detail)) => Err(Unprocessed(if code == "" then "unexpected" else code, path, detail))
    case _ => res
  }

  ghost function Room(env: Env, ctx: Context): set<string> {
    env.content.Keys - Elems(ctx.Chain())
  }

  function Directive(env: Env, ctx: Context, body: Body): Run
    requires ValidEnv(env)
    decreases Room(env, ctx), 0, 0
  {
    var reference := ReferenceOf(body);
    var r := env.resolve(ctx.path, reference);
    if !r.found then Run(Err(MissingReport(r, reference)), {})
    else
      var full := r.FullPath();
      var chain := ctx.Chain();
      if full in chain then Run(Err(Cycle(full, LoopOf(chain, full))), {})
      else if env.cap.Some? && |chain| >= env.cap.value then Run(Err(Depth(full, env.cap.value)), {})
      else
        var child := Context(chain, r.spec.full);
        assert Room(env, child) < Room(env, ctx) by { ElemsAppend(chain, full); }
        var nested := RunDoc(env, child, Processed(env, r.spec.kind, r.src.value));
        Run(Reraise(full, nested.res), {Edge(ctx.Target(), full)} + nested.edges)
  }

  function RunDoc(env: Env, ctx: Context, doc: Doc): Run
    requires ValidEnv(env)
    decreases Room(env, ctx), Size(doc), 0
  {
    match doc
    case Lit(value) => Run(Ok(value), {})
    case Load(body) => Directive(env, ctx, body)
    case Items(items) => RunItems(env, ctx, [], items)
    case Members(members) => RunMembers(env, ctx, EMPTY, members)
    case Fault(code, detail) => Run(Err(Grammar(code, detail)), {})
  }

  function RunItems(env: Env, ctx: Context, done: seq<Value>, items: seq<Doc>): Run
    requires ValidEnv(env)
    decreases Room(env, ctx), ItemsSize(items), 0
  {
    if items == [] then Run(Ok(List(Plain, done)), {})
    else
      var first := RunDoc(env, ctx, items[0]);
      if first.res.Err? then first
      else
        var rest := RunItems(env, ctx, done + [first.res.value], items[1..]);
        Run(rest.res, first.edges + rest.edges)
  }

  function RunMembers(env: Env, ctx: Context, node: Value, members: seq<Member>): Run
    requires ValidEnv(env)
    decreases Room(env, ctx), MembersSize(members), 0
  {
    if members == [] then Run(Ok(node), {})
    else
      var first := RunMember(env, ctx, members[0]);
      if first.res.Err? then first
      else
        var rest := RunMembers(env, ctx, Put(env.extend, node, members[0], first.res.value), members[1..]);
        Run(rest.res, first.edges + rest.edges)
  }

  function RunMember(env: Env, ctx: Context, m: Member): Run
    requires ValidEnv(env)
    decreases Room(env, ctx), MemberSize(m), 1
  {
    match m
    case Pair(_, doc) => RunDoc(env, ctx, doc)
    case Spliced(body) => Directive(env, ctx, body)
  }

  function Put(extend: bool, node: Value, m: Member, value: Value): Value {
    match m
    case Pair(key, _) => PutUnder(extend, node, key, value)
    case Spliced(_) => Splice(extend, node, value)
  }
}
