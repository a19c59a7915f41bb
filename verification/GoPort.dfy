/**
 * The Go port: how it names, finds and expands sources through its map resolver. It has no depth cap,
 * no report slots and no processor aliases, and reads a kind off the path in its own way.
 */
module GoPort {
  import opened Common
  import opened References
  import opened Expand
  import opened Values
  import Numbers

  // ----- what a directive names -----

  /** An object's `path` is coerced, and so is nothing else; `shown` is what `%v` makes of a list or an object. */
  function GoReference(shown: Body -> string, body: Body): string {
    match body
    case Text(text) => text
    case Spec(Some(path)) => GoCoerce(shown, path)
    case _ => ""
  }

  function GoCoerce(shown: Body -> string, path: Body): string {
    match path
    case Text(text) => text
    case Numeric(number) => Numbers.JsNumberToString(number)
    case Flag(flag) => if flag then "true" else "false"
    case Nothing => ""
    case _ => shown(path)
  }

  // ----- paths -----

  /** The extension with its dot: looked for back to the last slash, through backslashes. */
  function GoExt(path: string): string {
    if path == "" || path[|path| - 1] == '/' then ""
    else if path[|path| - 1] == '.' then "."
    else
      var ext := GoExt(path[..|path| - 1]);
      if ext == "" then "" else ext + [path[|path| - 1]]
  }

  function GoExtKind(path: string): string {
    var ext := GoExt(path);
    if ext == "" then "" else ext[1..]
  }

  /** The folder of a source: the last separator is taken as it stands. */
  function GoSourceDir(path: string): string {
    var n := FolderLength(path);
    if n == 0 then "" else if n == 1 then path[..1] else path[..n - 1]
  }

  datatype GoSpec = GoSpec(kind: string, path: string, full: string, base: string, abs: bool)

  datatype GoResolution = GoResolution(spec: GoSpec, src: string, found: bool, search: seq<string>) {
    function FullPath(): string {
      if spec.full != "" then spec.full else if spec.path != "" then spec.path else "no-path"
    }
  }

  function GoPathSpec(path: string, base: string): GoSpec {
    var abs := path != "" && IsSeparator(path[0]);
    var full := if abs || path == "" || base == "" then path else base + "/" + path;
    GoSpec(GoExtKind(full), path, full, base, abs)
  }

  function GoPotentials(full: string, exts: seq<string>): seq<string> {
    var segment := LastSegment(full);
    if full == "" then []
    else if GoExt(segment) != "" then [full]
    else
      [full] + Suffixed(full, exts) + Suffixed(full + "/index", exts) +
      if segment == "" || segment == "." then [] else Suffixed(full + "/index." + segment, exts)
  }

  method GoBuildPotentials(full: string, exts: seq<string>) returns (potentials: seq<string>)
    ensures potentials == GoPotentials(full, exts)
  {
    potentials := [];
    if full == "" {
      return;
    }
    potentials := [full];
    var segment := LastSegment(full);
    if GoExt(segment) == "" {
      potentials := PushSuffixed(potentials, full, exts);
      potentials := PushSuffixed(potentials, full + "/index", exts);
      if segment != "" && segment != "." {
        potentials := PushSuffixed(potentials, full + "/index." + segment, exts);
      }
    }
  }

  // ----- the map resolver and the processors -----

  function GoLookUp(files: map<string, string>, exts: seq<string>, spec: GoSpec): (r: GoResolution)
    ensures r.found ==> r.spec.full in files && r.src == files[r.spec.full] && r.spec.kind == GoExtKind(r.spec.full)
  {
    var potentials := GoPotentials(spec.full, exts);
    match FirstLoaded(path => if path in files then Some(files[path]) else None, potentials)
    case Some(hit) => GoResolution(spec.(full := hit, kind := GoExtKind(hit)), files[hit], true, potentials)
    case None => GoResolution(spec, "", false, potentials)
  }

  method GoLookUpByLoop(files: map<string, string>, exts: seq<string>, spec: GoSpec) returns (r: GoResolution)
    ensures r == GoLookUp(files, exts, spec)
  {
    ghost var load := path => if path in files then Some(files[path]) else None;
    var potentials := GoBuildPotentials(spec.full, exts);
    for i := 0 to |potentials|
      invariant FirstLoaded(load, potentials) == FirstLoaded(load, potentials[i..])
    {
      var p := potentials[i];
      if p in files {
        return GoResolution(spec.(full := p, kind := GoExtKind(p)), files[p], true, potentials);
      }
    }
    return GoResolution(spec, "", false, potentials);
  }

  const GO_PROCESSORS: map<string, Processor> := map["" := RawText, "jsonic" := Reparse, "jsc" := Reparse]

  function GoProcessorFor(table: map<string, Processor>, kind: string): Processor {
    if kind in table then table[kind] else if "" in table then table[""] else RawText
  }

  // ----- the splice -----

  /** An ordered map keeps the place of a key that it has. */
  function GoSet(node: Value, key: string, held: Value): Value
    requires node.Dict?
  {
    Dict(node.wrap, if key in node.vals then node.keys else node.keys + [key], node.vals[key := held])
  }

  /** The loaded entries put into the node, one after the other; no key is passed over. */
  function GoMerged(deep: (Value, Value) -> Value, extend: bool, node: Value, keys: seq<string>,
                    vals: map<string, Value>): (r: Value)
    requires node.Dict?
    ensures r.Dict?
  {
    if keys == [] then node
    else
      var before := GoMerged(deep, extend, node, keys[..|keys| - 1], vals);
      var key := keys[|keys| - 1];
      var held := Get(vals, key);
      GoSet(before, key, if extend then deep(Get(before.vals, key), held) else held)
  }

  /** Unless both are maps, nothing is done. */
  function GoSplice(deep: (Value, Value) -> Value, extend: bool, node: Value, value: Value): Value {
    if node.Dict? && value.Dict? then GoMerged(deep, extend, node, value.keys, value.vals) else node
  }

  method MergeIntoParent(cell: Cell, value: Value, extend: bool, deep: (Value, Value) -> Value)
    modifies cell
    ensures cell.node == GoSplice(deep, extend, old(cell.node), value)
  {
    if !cell.node.Dict? || !value.Dict? {
      return;
    }
    ghost var node := cell.node;
    for i := 0 to |value.keys|
      invariant cell.node == GoMerged(deep, extend, node, value.keys[..i], value.vals)
    {
      var key := value.keys[i];
      assert value.keys[..i + 1][..i] == value.keys[..i];
      var held := Get(value.vals, key);
      if extend {
        held := deep(Get(cell.node.vals, key), held);
      }
      cell.node := GoSet(cell.node, key, held);
    }
    assert value.keys[..|value.keys|] == value.keys;
  }

  // ----- the evaluator -----

  /**
   * What a parse runs under. `blank` is what a re-parse of an empty text gives, `deep` the deep merge of
   * the engine, which is not part of this port.
   */
  datatype GoEnv = GoEnv(
    files: map<string, string>,
    exts: seq<string>,
    base: string,
    parse: string -> Doc,
    processors: map<string, Processor>,
    extend: bool,
    blank: Value,
    shown: Body -> string,
    deep: (Value, Value) -> Value)

  function GoProcessed(env: GoEnv, kind: string, src: string): Doc {
    match GoProcessorFor(env.processors, kind)
    case RawText => Lit(Leaf(Str(src)))
    case Reparse => if src == "" then Lit(env.blank) else env.parse(src)
  }

  /** Parse metadata: the path is empty in the document itself. */
  datatype GoContext = GoContext(parents: seq<string>, path: string) {
    function Chain(): seq<string> {
      if path != "" then parents + [path] else parents
    }
  }

  const GO_TOP_LEVEL: GoContext := GoContext([], "")

  function GoBase(env: GoEnv, ctx: GoContext): string {
    if ctx.path != "" then GoSourceDir(ctx.path) else env.base
  }

  function GoResolve(env: GoEnv, ctx: GoContext, path: string): GoResolution {
    GoLookUp(env.files, env.exts, GoPathSpec(path, GoBase(env, ctx)))
  }

  function GoMissing(r: GoResolution, path: string): Report {
    Missing(if r.spec.path != "" then r.spec.path else path, r.spec.full,
            if r.search == [] && r.spec.full != "" then [r.spec.full] else r.search)
  }

  /** A failed nested parse is raised again by its code alone, under the reference that named it. */
  function GoReraise(path: string, res: Result): Result {
    match res
    case Err(report) => Err(Unprocessed(if report.Code() == "" then "unexpected" else report.Code(), path, ""))
    case Ok(_) => res
  }

  ghost function GoRoom(env: GoEnv, ctx: GoContext): set<string> {
    env.files.Keys - Elems(ctx.Chain())
  }

  lemma FoundIsNamed(files: map<string, string>, exts: seq<string>, spec: GoSpec)
    ensures GoLookUp(files, exts, spec).found ==> GoLookUp(files, exts, spec).spec.full != ""
  {
    forall c | c in GoPotentials(spec.full, exts) ensures c != "" {
    }
  }

  function GoDirective(env: GoEnv, ctx: GoContext, body: Body): Run
    decreases GoRoom(env, ctx), 0, 0
  {
    var path := GoReference(env.shown, body);
    var r := GoResolve(env, ctx, path);
    if !r.found then Run(Err(GoMissing(r, path)), {})
    else
      var full := r.FullPath();
      var chain := ctx.Chain();
      if full in chain then Run(Err(Cycle(full, LoopOf(chain, full))), {})
      else
        FoundIsNamed(env.files, env.exts, GoPathSpec(path, GoBase(env, ctx)));
        assert GoRoom(env, GoContext(chain, r.spec.full)) < GoRoom(env, ctx) by { ElemsAppend(chain, full); }
        var nested := GoRunDoc(env, GoContext(chain, r.spec.full), GoProcessed(env, r.spec.kind, r.src));
        Run(GoReraise(path, nested.res), {Edge(if ctx.path != "" then ctx.path else TOP, full)} + nested.edges)
  }

  function GoRunDoc(env: GoEnv, ctx: GoContext, doc: Doc): Run
    decreases GoRoom(env, ctx), Size(doc), 0
  {
    match doc
    case Lit(value) => Run(Ok(value), {})
    case Load(body) => GoDirective(env, ctx, body)
    case Items(items) => GoRunItems(env, ctx, [], items)
    case Members(members) => GoRunMembers(env, ctx, EMPTY, members)
    case Fault(code, detail) => Run(Err(Grammar(code, detail)), {})
  }

  function GoRunItems(env: GoEnv, ctx: GoContext, done: seq<Value>, items: seq<Doc>): Run
    decreases GoRoom(env, ctx), ItemsSize(items), 0
  {
    if items == [] then Run(Ok(List(Plain, done)), {})
    else
      var first := GoRunDoc(env, ctx, items[0]);
      if first.res.Err? then first
      else
        var rest := GoRunItems(env, ctx, done + [first.res.value], items[1..]);
        Run(rest.res, first.edges + rest.edges)
  }

  function GoRunMembers(env: GoEnv, ctx: GoContext, node: Value, members: seq<Member>): Run
    decreases GoRoom(env, ctx), MembersSize(members), 0
  {
    if members == [] then Run(Ok(node), {})
    else
      var first := GoRunMember(env, ctx, members[0]);
      if first.res.Err? then first
      else
        var rest := GoRunMembers(env, ctx, GoPut(env, node, members[0], first.res.value), members[1..]);
        Run(rest.res, first.edges + rest.edges)
  }

  function GoRunMember(env: GoEnv, ctx: GoContext, m: Member): Run
    decreases GoRoom(env, ctx), MemberSize(m), 1
  {
    match m
    case Pair(_, doc) => GoRunDoc(env, ctx, doc)
    case Spliced(body) => GoDirective(env, ctx, body)
  }

  /** A pair is written by the host grammar, which the ports have in common. */
  function GoPut(env: GoEnv, node: Value, m: Member, value: Value): Value {
    match m
    case Pair(key, _) => PutUnder(env.extend, node, key, value)
    case Spliced(_) => GoSplice(env.deep, env.extend, node, value)
  }
}
