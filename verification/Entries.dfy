/**
 * What a map under construction holds, entry by entry: pairs, splices and the kinds that decide how
 * a source is read.
 */
module Entries {
  import opened Common
  import opened Values
  import opened Expand
  import opened ExpandGraph
  import opened References

  // ----- one pair, one splice -----

  /** A pair is written under its own key: onto what was there if maps extend, over it if not. */
  lemma PairEntry(extend: bool, node: Value, key: string, value: Value, k: string)
    requires node.Dict? && Valid(node)
    ensures var put := PutUnder(extend, node, key, value);
            && put.Dict? && Get(put.vals, k) ==
               (if k != key then Get(node.vals, k) else if extend then Merge(Get(node.vals, key), value) else value)
            && put.keys == (if key in node.keys then node.keys else node.keys + [key])
  {
    MembersAreElems(node.keys);
  }

  /** A spliced map meets the enclosing one key by key, and three keys never cross when maps extend. */
  lemma SpliceEntry(extend: bool, node: Value, value: Value, k: string)
    requires node.Dict? && value.Dict?
    ensures var spliced := Splice(extend, node, value);
            && spliced.Dict? && Get(spliced.vals, k) ==
               if k !in value.vals then Get(node.vals, k)
               else if !extend then value.vals[k]
               else if k == "__proto__" || k == "constructor" || k == "prototype" then Get(node.vals, k)
               else Merge(Get(node.vals, k), value.vals[k])
  {
    if extend {
      MergedVals(node, value, k);
    }
  }

  /** Anything but a map takes the place of the map it is spliced into when maps extend, and is left out when not. */
  lemma SpliceOther(node: Value, value: Value)
    requires node.Dict? && !value.Dict? && value != Undefined
    ensures Splice(true, node, value) == value && Splice(false, node, value) == node
  {
  }

  // ----- whole maps of literals -----

  /** Only pairs with literal values. */
  ghost predicate Literal(members: seq<Member>) {
    forall i :: 0 <= i < |members| ==> members[i].Pair? && members[i].doc.Lit?
  }

  /** What the pairs with this key make of what was there. */
  ghost function Written(extend: bool, held: Value, members: seq<Member>, k: string): Value
    requires Literal(members)
    decreases |members|
  {
    if members == [] then held
    else
      var m := members[0];
      var next := if m.key != k then held else if extend then Merge(held, m.doc.value) else m.doc.value;
      Written(extend, next, members[1..], k)
  }

  lemma {:induction false} PairsWrite(env: Env, ctx: Context, node: Value, members: seq<Member>, k: string)
    requires ValidEnv(env) && node.Dict? && Literal(members)
    ensures var res := RunMembers(env, ctx, node, members).res;
            res.Ok? && res.value.Dict? && Get(res.value.vals, k) == Written(env.extend, Get(node.vals, k), members, k)
    decreases |members|
  {
    if members != [] {
      var m := members[0];
      var put := Put(env.extend, node, m, m.doc.value);
      assert RunMember(env, ctx, m) == Run(Ok(m.doc.value), {});
      assert Get(put.vals, k) ==
             if m.key != k then Get(node.vals, k)
             else if env.extend then Merge(Get(node.vals, k), m.doc.value) else m.doc.value;
      PairsWrite(env, ctx, put, members[1..], k);
    }
  }

  lemma {:induction false} LastIsWritten(held: Value, members: seq<Member>, k: string, n: nat)
    requires Literal(members) && n < |members| && members[n].key == k
    requires forall i :: n < i < |members| ==> members[i].key != k
    ensures Written(false, held, members, k) == members[n].doc.value
    decreases |members|
  {
    var m := members[0];
    if n > 0 {
      LastIsWritten(if m.key != k then held else m.doc.value, members[1..], k, n - 1);
    } else {
      NoneWritten(m.doc.value, members[1..], k);
    }
  }

  lemma {:induction false} NoneWritten(held: Value, members: seq<Member>, k: string)
    requires Literal(members) && forall i :: 0 <= i < |members| ==> members[i].key != k
    ensures Written(false, held, members, k) == held
    decreases |members|
  {
    if members != [] {
      NoneWritten(held, members[1..], k);
    }
  }

  /** Of equal keys in a map the last wins when maps are overwritten. */
  lemma LastPairWins(env: Env, ctx: Context, members: seq<Member>, n: nat)
    requires ValidEnv(env) && !env.extend && Literal(members) && n < |members|
    requires forall i :: n < i < |members| ==> members[i].key != members[n].key
    ensures var res := RunDoc(env, ctx, Members(members)).res;
            res.Ok? && res.value.Dict? && Get(res.value.vals, members[n].key) == members[n].doc.value
  {
    PairsWrite(env, ctx, EMPTY, members, members[n].key);
    LastIsWritten(Undefined, members, members[n].key, n);
  }

  /** And two are merged in their order when maps extend. */
  lemma EqualKeysMerge(env: Env, ctx: Context, key: string, first: Value, second: Value)
    requires ValidEnv(env) && env.extend
    ensures var res := RunDoc(env, ctx, Members([Pair(key, Lit(first)), Pair(key, Lit(second))])).res;
            res.Ok? && res.value.Dict? && Get(res.value.vals, key) == Merge(first, second)
  {
    var members := [Pair(key, Lit(first)), Pair(key, Lit(second))];
    PairsWrite(env, ctx, EMPTY, members, key);
    var rest := members[1..];
    assert rest == [members[1]] && rest[1..] == [];
    assert Merge(Undefined, first) == first;
    assert Written(true, Undefined, members, key) == Written(true, first, rest, key);
    assert Written(true, first, rest, key) == Written(true, Merge(first, second), [], key);
  }

  // ----- the processor of a kind -----

  /** What is registered for a kind serves it, directly or by one alias. */
  lemma RegisteredServes(table: map<string, Entry>, kind: string, target: string, processor: Processor)
    requires kind in table && (table[kind] == Call(processor) ||
               (table[kind] == Alias(target) && target in table && table[target] == Call(processor)))
    ensures ProcessorFor(table, kind) == Some(processor)
  {
  }

  /**
   * An alias of an alias, or of nothing, or no entry at all, comes to what serves the empty kind,
   * if that is a processor.
   */
  lemma RestFallsBack(table: map<string, Entry>, kind: string)
    requires kind in table ==> table[kind].Alias? && (table[kind].kind in table ==> table[table[kind].kind].Alias?)
    ensures "" in table && table[""].Call? ==> ProcessorFor(table, kind) == Some(table[""].processor)
    ensures "" !in table || table[""].Alias? ==> ProcessorFor(table, kind) == None
  {
  }

  /** With the built-in table two kinds are parsed and all others are text. */
  lemma BuiltInKinds(kind: string)
    ensures ProcessorFor(DEFAULT_PROCESSORS, kind) ==
            Some(if kind == "jsonic" || kind == "jsc" then Reparse else RawText)
  {
  }

  /** What a source that may be loaded comes to, by the processor that serves its kind. */
  lemma LoadsByKind(env: Env, ctx: Context, body: Body, key: string)
    requires ValidEnv(env) && Resolves(env, ctx.path, body) && key == TargetOf(env, ctx.path, body)
    requires key !in ctx.Chain() && (env.cap.Some? ==> |ctx.Chain()| < env.cap.value)
    ensures var res, served := Directive(env, ctx, body).res, ProcessorFor(env.processors, ExtKind(Some(key)));
            && (served == None ==> res == Ok(Undefined))
            && (served == Some(RawText) ==> res == Ok(Leaf(Str(env.content[key]))))
            && (served == Some(Reparse) ==>
                  var nested := RunDoc(env, Child(ctx, key), env.parse(env.content[key])).res;
                  if nested.Ok? then res == nested
                  else res.Err? && (nested.report.Code() != "" ==> res.report.Code() == nested.report.Code()))
  {
  }
}
