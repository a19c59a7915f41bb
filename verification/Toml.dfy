/**
 * The table machine of the manifest reader: tables shared by reference, a current table, and
 * statements that set entries in them. Lexing is left out: a statement is its key parts and its value.
 */
module Toml {
  import opened Common

  /** A table, an array of tables, an array value, or a scalar. References are indices into a store. */
  datatype Node =
    | Table(entries: map<string, nat>, defined: bool, inline: bool)
    | Tables(items: seq<nat>)
    | Array(items: seq<nat>)
    | Scalar(text: string)

  type Store = seq<Node>
  type Key = parts: seq<string> | |parts| > 0 witness [""]

  datatype Value = Text(text: string) | List(items: seq<Value>) | Inline(pairs: seq<Pair>)
  datatype Pair = Pair(key: Key, value: Value)
  datatype Statement = Set(key: Key, value: Value) | Header(key: Key, doubled: bool)

  /** A store, and the node that a statement or a value left behind in it. */
  datatype Made = Made(store: Store, id: nat)

  // ----- paths -----

  datatype Step = Name(key: string) | Item(index: nat)
  type Path = seq<Step>

  function Next(s: Store, id: nat, step: Step): Option<nat> {
    if id >= |s| then None
    else if s[id].Table? && step.Name? then
      (if step.key in s[id].entries then Some(s[id].entries[step.key]) else None)
    else if (s[id].Tables? || s[id].Array?) && step.Item? then
      (if step.index < |s[id].items| then Some(s[id].items[step.index]) else None)
    else None
  }

  function Find(s: Store, id: nat, path: Path): Option<nat> {
    if path == [] then Some(id)
    else
      match Find(s, id, path[..|path| - 1])
      case Some(node) => Next(s, node, path[|path| - 1])
      case None => None
  }

  /** References stay inside the store, none leads to the root, and an array of tables has an item. */
  ghost predicate Closed(s: Store) {
    && (forall id: nat, step :: Next(s, id, step).Some? ==> 0 < Next(s, id, step).value < |s|)
    && (forall id :: 0 <= id < |s| && s[id].Tables? ==> s[id].items != [])
  }

  /** What may become of a node: entries and items are added, never changed or removed. */
  predicate Kept(before: Node, after: Node) {
    match before
    case Scalar(_) => after == before
    case Array(_) => after == before
    case Tables(items) => after.Tables? && items <= after.items
    case Table(entries, defined, inline) =>
      && after.Table? && after.inline == inline && (defined ==> after.defined)
      && forall k :: k in entries ==> k in after.entries && after.entries[k] == entries[k]
  }

  ghost predicate Grown(s: Store, s': Store) {
    |s| <= |s'| && forall id :: 0 <= id < |s| ==> Kept(s[id], s'[id])
  }

  lemma GrownTransitive(a: Store, b: Store, c: Store)
    requires Grown(a, b) && Grown(b, c)
    ensures Grown(a, c)
  {
    forall id | 0 <= id < |a| ensures Kept(a[id], c[id]) {
      assert Kept(a[id], b[id]) && Kept(b[id], c[id]);
    }
  }

  // ----- the machine -----

  function Link(s: Store, at: nat, name: string, id: nat): Store
    requires at < |s| && s[at].Table?
  {
    s[at := s[at].(entries := s[at].entries[name := id])]
  }

  function Push(s: Store, at: nat, id: nat): Store
    requires at < |s| && s[at].Tables?
  {
    s[at := Tables(s[at].items + [id])]
  }

  /** Walks `key[i..]` down from `at`, makes tables on the way, and sets the last part to `node`. */
  function Assigned(s: Store, at: nat, key: Key, i: nat, node: nat): (r: Option<Store>)
    requires Closed(s) && at < |s| && s[at].Table? && 0 < node < |s| && i < |key|
    ensures r.Some? ==> Closed(r.value) && Grown(s, r.value)
    decreases |key| - i
  {
    var entries := s[at].entries;
    if i == |key| - 1 then
      if key[i] in entries then None else LinkGrows(s, at, key[i], node); Some(Link(s, at, key[i], node))
    else if key[i] !in entries then
      var wider := s + [Table(map[], true, false)];
      var made := Link(wider, at, key[i], |s|);
      AllocGrows(s, Table(map[], true, false));
      LinkGrows(wider, at, key[i], |s|);
      GrownTransitive(s, wider, made);
      match Assigned(made, |s|, key, i + 1, node)
      case None => None
      case Some(result) => GrownTransitive(s, made, result); Some(result)
    else
      var next := entries[key[i]];
      assert Next(s, at, Name(key[i])) == Some(next);
      if s[next].Table? && !s[next].inline then Assigned(s, next, key, i + 1, node) else None
  }

  /** Reads a value: its nodes are new, and nothing refers to the outermost one yet. */
  function Built(s: Store, value: Value): (r: Option<Made>)
    requires Closed(s) && |s| > 0
    ensures r.Some? ==> Closed(r.value.store) && Grown(s, r.value.store) && |s| <= r.value.id < |r.value.store|
    decreases value
  {
    match value
    case Text(text) =>
      AllocGrows(s, Scalar(text));
      Some(Made(s + [Scalar(text)], |s|))
    case List(items) => (
      match BuiltItems(s, items, [])
      case None => None
      case Some(all) =>
        AllocGrows(all.0, Array(all.1));
        GrownTransitive(s, all.0, all.0 + [Array(all.1)]);
        Some(Made(all.0 + [Array(all.1)], |all.0|)))
    case Inline(pairs) =>
      var table := Table(map[], true, true);
      AllocGrows(s, table);
      match BuiltPairs(s + [table], |s|, pairs)
      case None => None
      case Some(store) => GrownTransitive(s, s + [table], store); Some(Made(store, |s|))
  }

  function BuiltItems(s: Store, items: seq<Value>, ids: seq<nat>): (r: Option<(Store, seq<nat>)>)
    requires Closed(s) && |s| > 0 && forall id :: id in ids ==> 0 < id < |s|
    ensures r.Some? ==> Closed(r.value.0) && Grown(s, r.value.0)
    ensures r.Some? ==> forall id :: id in r.value.1 ==> 0 < id < |r.value.0|
    decreases items
  {
    if items == [] then Some((s, ids))
    else
      match Built(s, items[0])
      case None => None
      case Some(made) =>
        match BuiltItems(made.store, items[1..], ids + [made.id])
        case None => None
        case Some(all) => GrownTransitive(s, made.store, all.0); Some(all)
  }

  function BuiltPairs(s: Store, table: nat, pairs: seq<Pair>): (r: Option<Store>)
    requires Closed(s) && table < |s| && s[table].Table?
    ensures r.Some? ==> Closed(r.value) && Grown(s, r.value)
    decreases pairs
  {
    if pairs == [] then GrownReflexive(s); Some(s)
    else
      match Built(s, pairs[0].value)
      case None => None
      case Some(made) =>
        assert Kept(s[table], made.store[table]);
        match Assigned(made.store, table, pairs[0].key, 0, made.id)
        case None => None
        case Some(filled) =>
          GrownTransitive(s, made.store, filled);
          assert Kept(s[table], filled[table]);
          match BuiltPairs(filled, table, pairs[1..])
          case None => None
          case Some(all) => GrownTransitive(s, filled, all); Some(all)
  }

  /** A header's walk to the table that its last part belongs to. */
  function Descended(s: Store, at: nat, key: Key, i: nat): (r: Option<Made>)
    requires Closed(s) && at < |s| && s[at].Table? && i < |key|
    ensures r.Some? ==> Closed(r.value.store) && Grown(s, r.value.store)
    ensures r.Some? ==> r.value.id < |r.value.store| && r.value.store[r.value.id].Table?
    decreases |key| - i
  {
    if i == |key| - 1 then GrownReflexive(s); Some(Made(s, at))
    else if key[i] !in s[at].entries then
      var wider := s + [Table(map[], false, false)];
      var made := Link(wider, at, key[i], |s|);
      AllocGrows(s, Table(map[], false, false));
      LinkGrows(wider, at, key[i], |s|);
      GrownTransitive(s, wider, made);
      match Descended(made, |s|, key, i + 1)
      case None => None
      case Some(result) => GrownTransitive(s, made, result.store); Some(result)
    else
      var seen := s[at].entries[key[i]];
      assert Next(s, at, Name(key[i])) == Some(seen);
      var next := LastItem(s, seen);
      if s[next].Table? && !s[next].inline then Descended(s, next, key, i + 1) else None
  }

  /** An array of tables stands for its last item. */
  function LastItem(s: Store, seen: nat): (next: nat)
    requires Closed(s) && 0 < seen < |s|
    ensures 0 < next < |s|
  {
    if s[seen].Tables? then
      assert Next(s, seen, Item(|s[seen].items| - 1)).Some?;
      s[seen].items[|s[seen].items| - 1]
    else seen
  }

  /** A whole header: the store after it, and the table that is current from then on. */
  function Headed(s: Store, key: Key, doubled: bool): (r: Option<Made>)
    requires Closed(s) && |s| > 0 && s[0].Table?
    ensures r.Some? ==> Closed(r.value.store) && Grown(s, r.value.store)
    ensures r.Some? ==> r.value.id < |r.value.store| && r.value.store[r.value.id].Table?
  {
    match Descended(s, 0, key, 0)
    case None => None
    case Some(Made(store, at)) =>
      match Opened(store, at, key[|key| - 1], doubled)
      case None => None
      case Some(made) => GrownTransitive(s, store, made.store); Some(made)
  }

  function Opened(s: Store, at: nat, name: string, doubled: bool): (r: Option<Made>)
    requires Closed(s) && at < |s| && s[at].Table?
    ensures r.Some? ==> Closed(r.value.store) && Grown(s, r.value.store)
    ensures r.Some? ==> r.value.id < |r.value.store| && r.value.store[r.value.id].Table?
  {
    var table := Table(map[], true, false);
    var wider := s + [table];
    AllocGrows(s, table);
    if name !in s[at].entries then
      if doubled then
        var widest := wider + [Tables([|s|])];
        AllocGrows(wider, Tables([|s|]));
        LinkGrows(widest, at, name, |wider|);
        GrownTransitive(s, wider, widest);
        GrownTransitive(s, widest, Link(widest, at, name, |wider|));
        Some(Made(Link(widest, at, name, |wider|), |s|))
      else
        LinkGrows(wider, at, name, |s|);
        GrownTransitive(s, wider, Link(wider, at, name, |s|));
        Some(Made(Link(wider, at, name, |s|), |s|))
    else
      var seen := s[at].entries[name];
      assert Next(s, at, Name(name)) == Some(seen);
      if doubled then
        if s[seen].Tables? then
          PushGrows(wider, seen, |s|);
          GrownTransitive(s, wider, Push(wider, seen, |s|));
          Some(Made(Push(wider, seen, |s|), |s|))
        else None
      else if s[seen].Table? && !s[seen].defined then
        DefineGrows(s, seen);
        Some(Made(s[seen := s[seen].(defined := true)], seen))
      else None
  }

  const START: Made := Made([Table(map[], true, false)], 0)

  /** The root and the current node are tables. */
  ghost predicate Ready(m: Made) {
    Closed(m.store) && m.id < |m.store| && m.store[m.id].Table? && m.store[0].Table?
  }

  /** One statement on a store and its current table. */
  function Stepped(m: Made, statement: Statement): (r: Option<Made>)
    requires Ready(m)
    ensures r.Some? ==> Ready(r.value) && Grown(m.store, r.value.store)
  {
    match statement
    case Header(key, doubled) => (
      match Headed(m.store, key, doubled)
      case None => None
      case Some(made) => assert Kept(m.store[0], made.store[0]); Some(made))
    case Set(key, value) =>
      match Built(m.store, value)
      case None => None
      case Some(made) =>
        assert Kept(m.store[m.id], made.store[m.id]) && Kept(m.store[0], made.store[0]);
        match Assigned(made.store, m.id, key, 0, made.id)
        case None => None
        case Some(store) =>
          GrownTransitive(m.store, made.store, store);
          assert Kept(made.store[m.id], store[m.id]) && Kept(made.store[0], store[0]);
          Some(Made(store, m.id))
  }

  /** Statement after statement; the first that is refused refuses the whole document. */
  function Followed(m: Made, statements: seq<Statement>): (r: Option<Made>)
    requires Ready(m)
    ensures r.Some? ==> Ready(r.value) && Grown(m.store, r.value.store)
    decreases statements
  {
    if statements == [] then GrownReflexive(m.store); Some(m)
    else
      match Stepped(m, statements[0])
      case None => None
      case Some(next) =>
        match Followed(next, statements[1..])
        case None => None
        case Some(last) => GrownTransitive(m.store, next.store, last.store); Some(last)
  }

  // ----- the four ways to write to a store -----

  lemma GrownReflexive(s: Store)
    ensures Grown(s, s)
  {
  }

  /** A node whose references are good may be added to the store. */
  lemma AllocGrows(s: Store, node: Node)
    requires Closed(s) && (node.Tables? || node.Array? ==> forall id :: id in node.items ==> 0 < id < |s|)
    requires (node.Table? ==> node.entries == map[]) && (node.Tables? ==> node.items != [])
    ensures Closed(s + [node]) && Grown(s, s + [node])
  {
    var s' := s + [node];
    forall id: nat, step | Next(s', id, step).Some? ensures 0 < Next(s', id, step).value < |s'| {
      if id < |s| {
        assert Next(s', id, step) == Next(s, id, step);
      } else {
        assert step.Item? && node.items[step.index] in node.items;
      }
    }
  }

  lemma LinkGrows(s: Store, at: nat, name: string, id: nat)
    requires Closed(s) && at < |s| && s[at].Table? && name !in s[at].entries && 0 < id < |s|
    ensures Closed(Link(s, at, name, id)) && Grown(s, Link(s, at, name, id))
    ensures forall u: nat, a :: Next(Link(s, at, name, id), u, a) ==
              if u == at && a == Name(name) then Some(id) else Next(s, u, a)
  {
    var s' := Link(s, at, name, id);
    forall u: nat, a | Next(s', u, a).Some? ensures 0 < Next(s', u, a).value < |s'| {
      assert Next(s', u, a) == if u == at && a == Name(name) then Some(id) else Next(s, u, a);
    }
  }

  lemma PushGrows(s: Store, at: nat, id: nat)
    requires Closed(s) && at < |s| && s[at].Tables? && 0 < id < |s|
    ensures Closed(Push(s, at, id)) && Grown(s, Push(s, at, id))
    ensures forall u: nat, a :: Next(Push(s, at, id), u, a) ==
              if u == at && a == Item(|s[at].items|) then Some(id) else Next(s, u, a)
  {
    var s' := Push(s, at, id);
    forall u: nat, a | Next(s', u, a).Some? ensures 0 < Next(s', u, a).value < |s'| {
      assert Next(s', u, a) == if u == at && a == Item(|s[at].items|) then Some(id) else Next(s, u, a);
    }
  }

  lemma DefineGrows(s: Store, at: nat)
    requires Closed(s) && at < |s| && s[at].Table?
    ensures Closed(s[at := s[at].(defined := true)]) && Grown(s, s[at := s[at].(defined := true)])
    ensures forall u: nat, a :: Next(s[at := s[at].(defined := true)], u, a) == Next(s, u, a)
  {
    var s' := s[at := s[at].(defined := true)];
    forall u: nat, a | Next(s', u, a).Some? ensures 0 < Next(s', u, a).value < |s'| {
      assert Next(s', u, a) == Next(s, u, a);
    }
  }
}
