/** The C library's check of a parse result: a walk over a value graph that may be cyclic. */
module UnsafeWalk {
  import opened Common

  // ----- the value graph -----

  /** A value as reflection sees it. A non-empty container is known by its key on the heap. */
  datatype Val =
    | Nil
    | Plain                            // booleans, machine numbers, empty slices, bytes
    | Raw(valid: bool)                 // a raw JSON fragment
    | Big                              // an arbitrary-precision number
    | Str(valid: bool)
    | Boxed(inner: Val)                // an interface
    | Array(items: seq<Val>)
    | Struct(fields: seq<Field>)
    | Ref(key: nat)                    // a pointer, map or slice

  datatype Field = Field(emitted: bool, value: Val)

  datatype Key = StringKey(valid: bool) | OtherKey

  datatype Pair = Pair(key: Key, value: Val)

  /** What a container holds: pairs in the order they are emitted, elements, or one value pointed at. */
  datatype Body =
    | Pairs(pairs: seq<Pair>)
    | Elements(items: seq<Val>)
    | Pointee(value: Val)

  type Graph = map<nat, Body>

  datatype Why = Fine | BadUtf8 | BigNumber | Cyclic

  // ----- what is emitted of a value, in order -----

  datatype Step = Visit(key: nat) | BadText | BadNumber

  function Size(v: Val): nat {
    match v
    case Boxed(inner) => 1 + Size(inner)
    case Array(items) => 1 + ItemsSize(items)
    case Struct(fields) => 1 + FieldsSize(fields)
    case _ => 1
  }

  function ItemsSize(items: seq<Val>): nat {
    if items == [] then 0 else 1 + Size(items[0]) + ItemsSize(items[1..])
  }

  function FieldsSize(fields: seq<Field>): nat {
    if fields == [] then 0 else 1 + FieldSize(fields[0]) + FieldsSize(fields[1..])
  }

  function FieldSize(field: Field): nat { Size(field.value) }

  function PairsSize(pairs: seq<Pair>): nat {
    if pairs == [] then 0 else 1 + Size(pairs[0].value) + PairsSize(pairs[1..])
  }

  ghost function Text(valid: bool): seq<Step> { if valid then [] else [BadText] }

  ghost function Steps(v: Val): seq<Step> {
    match v
    case Raw(valid) => Text(valid)
    case Big => [BadNumber]
    case Str(valid) => Text(valid)
    case Boxed(inner) => Steps(inner)
    case Array(items) => ItemsSteps(items)
    case Struct(fields) => FieldsSteps(fields)
    case Ref(key) => [Visit(key)]
    case _ => []
  }

  ghost function ItemsSteps(items: seq<Val>): seq<Step> {
    if items == [] then [] else Steps(items[0]) + ItemsSteps(items[1..])
  }

  ghost function FieldsSteps(fields: seq<Field>): seq<Step> {
    if fields == [] then []
    else FieldSteps(fields[0]) + FieldsSteps(fields[1..])
  }

  ghost function FieldSteps(field: Field): seq<Step> {
    if field.emitted then Steps(field.value) else []
  }

  ghost function PairsSteps(pairs: seq<Pair>): seq<Step> {
    if pairs == [] then []
    else KeySteps(pairs[0].key) + Steps(pairs[0].value) + PairsSteps(pairs[1..])
  }

  ghost function KeySteps(key: Key): seq<Step> {
    if key.StringKey? then Text(key.valid) else []
  }

  ghost function BodySteps(body: Body): seq<Step> {
    match body
    case Pairs(pairs) => PairsSteps(pairs)
    case Elements(items) => ItemsSteps(items)
    case Pointee(value) => Steps(value)
  }

  /** Every container referred to is on the heap. */
  ghost predicate Bound(graph: Graph, steps: seq<Step>) {
    forall s :: s in steps && s.Visit? ==> s.key in graph
  }

  ghost predicate Closed(graph: Graph) {
    forall k :: k in graph ==> Bound(graph, BodySteps(graph[k]))
  }

  // ----- the walk, as a function: the first thing wrong, in emission order -----

  ghost function Scan(graph: Graph, path: seq<nat>, steps: seq<Step>): Why
    requires Closed(graph) && Bound(graph, steps)
    decreases graph.Keys - Elems(path), |steps|
  {
    if steps == [] then Fine
    else match steps[0]
      case BadText => BadUtf8
      case BadNumber => BigNumber
      case Visit(key) =>
        if key in path then Cyclic
        else
          assert graph.Keys - Elems(path + [key]) < graph.Keys - Elems(path) by { ElemsAppend(path, key); }
          var inner := Scan(graph, path + [key], BodySteps(graph[key]));
          if inner.Fine? then Scan(graph, path, steps[1..]) else inner
  }

  lemma {:induction false} ScanAppend(graph: Graph, path: seq<nat>, a: seq<Step>, b: seq<Step>)
    requires Closed(graph) && Bound(graph, a + b)
    ensures Bound(graph, a) && Bound(graph, b)
    ensures Scan(graph, path, a + b) ==
            if Scan(graph, path, a).Fine? then Scan(graph, path, b) else Scan(graph, path, a)
    decreases a
  {
    assert forall s :: s in a || s in b ==> s in a + b;
    if a == [] {
      assert a + b == b;
    } else {
      assert (a + b)[0] == a[0] && (a + b)[1..] == a[1..] + b;
      ScanAppend(graph, path, a[1..], b);
    }
  }

  // ----- finite unfolding -----

  /** The tree of the containers met, child by child in emission order. */
  datatype Tree = Tree(children: seq<Tree>)

  /** The steps unfold to a finite tree in which nothing is bad. */
  ghost predicate Unfolds(graph: Graph, steps: seq<Step>, tree: Tree)
    decreases tree
  {
    && |tree.children| == |steps|
    && forall i :: 0 <= i < |steps| ==>
         steps[i].Visit? && steps[i].key in graph && Unfolds(graph, BodySteps(graph[steps[i].key]), tree.children[i])
  }

  ghost function Weight(tree: Tree): nat { 1 + Weights(tree.children) }

  ghost function Weights(trees: seq<Tree>): nat {
    if trees == [] then 0 else Weight(trees[0]) + Weights(trees[1..])
  }

  lemma {:induction false} ChildIsLighter(trees: seq<Tree>, i: nat)
    requires i < |trees|
    ensures Weight(trees[i]) <= Weights(trees)
  {
    if i > 0 {
      ChildIsLighter(trees[1..], i - 1);
    }
  }

  /** A value unfolds in one way at most. */
  lemma {:induction false} UnfoldingIsUnique(graph: Graph, steps: seq<Step>, a: Tree, b: Tree)
    requires Unfolds(graph, steps, a) && Unfolds(graph, steps, b)
    ensures a == b
    decreases a
  {
    forall i | 0 <= i < |steps| ensures a.children[i] == b.children[i] {
      UnfoldingIsUnique(graph, BodySteps(graph[steps[i].key]), a.children[i], b.children[i]);
    }
    assert a.children == b.children;
  }

  /** Every container on the path unfolds to a tree heavier than this weight. */
  ghost predicate Heavier(graph: Graph, path: seq<nat>, weight: nat) {
    forall k :: k in path ==> k in graph && exists t :: Unfolds(graph, BodySteps(graph[k]), t) && Weight(t) > weight
  }

  /** A container on the path cannot come up again inside itself. */
  lemma NotOnPath(graph: Graph, path: seq<nat>, key: nat, child: Tree)
    requires key in graph && Unfolds(graph, BodySteps(graph[key]), child) && Heavier(graph, path, Weight(child))
    ensures key !in path
  {
    if key in path {
      var t :| Unfolds(graph, BodySteps(graph[key]), t) && Weight(t) > Weight(child);
      UnfoldingIsUnique(graph, BodySteps(graph[key]), t, child);
    }
  }

  lemma HeavierInside(graph: Graph, path: seq<nat>, key: nat, child: Tree, i: nat)
    requires key in graph && Unfolds(graph, BodySteps(graph[key]), child) && Heavier(graph, path, Weight(child))
    requires i < |child.children|
    ensures Heavier(graph, path + [key], Weight(child.children[i]))
  {
    ChildIsLighter(child.children, i);
  }

  /** What unfolds is never found wanting. */
  lemma {:induction false} UnfoldsIsFine(graph: Graph, path: seq<nat>, steps: seq<Step>, tree: Tree)
    requires Closed(graph) && Bound(graph, steps) && Unfolds(graph, steps, tree)
    requires forall i :: 0 <= i < |steps| ==> Heavier(graph, path, Weight(tree.children[i]))
    ensures Scan(graph, path, steps) == Fine
    decreases Weight(tree)
  {
    if steps != [] {
      var key, child := steps[0].key, tree.children[0];
      assert Weights(tree.children) == Weight(child) + Weights(tree.children[1..]);
      NotOnPath(graph, path, key, child);
      forall i | 0 <= i < |child.children| ensures Heavier(graph, path + [key], Weight(child.children[i])) {
        HeavierInside(graph, path, key, child, i);
      }
      UnfoldsIsFine(graph, path + [key], BodySteps(graph[key]), child);
      UnfoldsIsFine(graph, path, steps[1..], Tree(tree.children[1..]));
    }
  }

  /** What is found fine unfolds to a finite tree with nothing bad in it. */
  lemma {:induction false} FineUnfolds(graph: Graph, path: seq<nat>, steps: seq<Step>) returns (tree: Tree)
    requires Closed(graph) && Bound(graph, steps) && Scan(graph, path, steps) == Fine
    ensures Unfolds(graph, steps, tree)
    decreases graph.Keys - Elems(path), |steps|
  {
    if steps == [] {
      tree := Tree([]);
    } else {
      var key := steps[0].key;
      ElemsAppend(path, key);
      var first := FineUnfolds(graph, path + [key], BodySteps(graph[key]));
      var rest := FineUnfolds(graph, path, steps[1..]);
      tree := Tree([first] + rest.children);
    }
  }

  // ----- what the walk's verdict means -----

  /** The value is passed exactly when it unfolds to a finite tree with nothing bad in it. */
  lemma FineIffUnfolds(graph: Graph, steps: seq<Step>)
    requires Closed(graph) && Bound(graph, steps)
    ensures Scan(graph, [], steps) == Fine <==> exists tree :: Unfolds(graph, steps, tree)
  {
    if Scan(graph, [], steps) == Fine {
      var tree := FineUnfolds(graph, [], steps);
      assert Unfolds(graph, steps, tree);
    } else if exists tree :: Unfolds(graph, steps, tree) {
      var tree :| Unfolds(graph, steps, tree);
      UnfoldsIsFine(graph, [], steps, tree);
    }
  }

  /** A way down from the root: each container refers to the next. */
  ghost predicate Descent(graph: Graph, root: seq<Step>, way: seq<nat>) {
    && (forall k :: k in way ==> k in graph)
    && (way != [] ==> Visit(way[0]) in root)
    && forall i :: 0 <= i < |way| - 1 ==> Visit(way[i + 1]) in BodySteps(graph[way[i]])
  }

  ghost function StepsAt(graph: Graph, root: seq<Step>, way: seq<nat>): seq<Step>
    requires Descent(graph, root, way)
  {
    if way == [] then root else BodySteps(graph[way[|way| - 1]])
  }

  ghost predicate GoesRound(graph: Graph, root: seq<Step>, way: seq<nat>) {
    Descent(graph, root, way) && exists i :: 0 <= i < |way| - 1 && way[i] == way[|way| - 1]
  }

  ghost predicate Holds(graph: Graph, root: seq<Step>, way: seq<nat>, step: Step) {
    Descent(graph, root, way) && step in StepsAt(graph, root, way)
  }

  lemma DescentStep(graph: Graph, root: seq<Step>, way: seq<nat>, key: nat)
    requires Descent(graph, root, way) && key in graph && Visit(key) in StepsAt(graph, root, way)
    ensures Descent(graph, root, way + [key])
  {
    var on := way + [key];
    forall i | 0 <= i < |on| - 1 ensures Visit(on[i + 1]) in BodySteps(graph[on[i]]) {
      if i < |way| - 1 {
        assert Visit(way[i + 1]) in BodySteps(graph[way[i]]);
      }
    }
  }

  /** The reason given is true: there is such a loop, or such a string, or such a number, on some way down. */
  lemma {:induction false} ReasonIsTrue(graph: Graph, root: seq<Step>, path: seq<nat>, steps: seq<Step>)
    requires Closed(graph) && Bound(graph, steps) && Descent(graph, root, path)
    requires forall s :: s in steps ==> s in StepsAt(graph, root, path)
    ensures match Scan(graph, path, steps)
            case Fine => true
            case Cyclic => exists way :: GoesRound(graph, root, way)
            case BadUtf8 => exists way :: Holds(graph, root, way, BadText)
            case BigNumber => exists way :: Holds(graph, root, way, BadNumber)
    decreases graph.Keys - Elems(path), |steps|
  {
    if steps != [] {
      assert steps[0] in steps;
      match steps[0] {
        case BadText => assert Holds(graph, root, path, BadText);
        case BadNumber => assert Holds(graph, root, path, BadNumber);
        case Visit(key) =>
          var way := path + [key];
          DescentStep(graph, root, path, key);
          ElemsAppend(path, key);
          if key in path {
            var i :| 0 <= i < |path| && path[i] == key;
            assert way[i] == way[|way| - 1] && GoesRound(graph, root, way);
          } else {
            ReasonIsTrue(graph, root, way, BodySteps(graph[key]));
            ReasonIsTrue(graph, root, path, steps[1..]);
          }
      }
    }
  }

  lemma VerdictIsTrue(graph: Graph, steps: seq<Step>)
    requires Closed(graph) && Bound(graph, steps)
    ensures match Scan(graph, [], steps)
            case Fine => true
            case Cyclic => exists way :: GoesRound(graph, steps, way)
            case BadUtf8 => exists way :: Holds(graph, steps, way, BadText)
            case BigNumber => exists way :: Holds(graph, steps, way, BadNumber)
  {
    ReasonIsTrue(graph, steps, [], steps);
  }

  // ----- the walk as it runs: one on-path set, added to and taken from -----

  class Walk {
    var onPath: set<nat>

    constructor ()
      ensures onPath == {}
    {
      onPath := {};
    }

    method Value(graph: Graph, v: Val, ghost path: seq<nat>) returns (why: Why)
      requires Closed(graph) && Bound(graph, Steps(v)) && onPath == Elems(path)
      modifies this
      ensures onPath == old(onPath)
      ensures why == Scan(graph, path, Steps(v))
      decreases graph.Keys - Elems(path), Size(v), 1
    {
      match v {
        case Raw(valid) => why := if valid then Fine else BadUtf8;
        case Big => why := BigNumber;
        case Str(valid) => why := if valid then Fine else BadUtf8;
        case Boxed(inner) => why := Value(graph, inner, path);
        case Ref(key) =>
          why := Container(graph, key, path);
          assert [Visit(key)][1..] == [];
        case Array(items) => why := Items(graph, items, path);
        case Struct(fields) => why := Fields(graph, fields, path);
        case _ => why := Fine;
      }
    }

    /** A container is walked unless it is already on the path, and is off the path again afterwards. */
    method Container(graph: Graph, key: nat, ghost path: seq<nat>) returns (why: Why)
      requires Closed(graph) && key in graph && onPath == Elems(path)
      modifies this
      ensures onPath == old(onPath)
      ensures why == Scan(graph, path, [Visit(key)])
      decreases graph.Keys - Elems(path), 0, 0
    {
      assert [Visit(key)][1..] == [];
      if key in onPath {
        return Cyclic;
      }
      ElemsAppend(path, key);
      onPath := onPath + {key};
      ghost var below := path + [key];
      match graph[key] {
        case Pairs(pairs) => why := Entries(graph, pairs, below);
        case Elements(items) => why := Items(graph, items, below);
        case Pointee(value) => why := Value(graph, value, below);
      }
      onPath := onPath - {key};
    }

    method Items(graph: Graph, items: seq<Val>, ghost path: seq<nat>) returns (why: Why)
      requires Closed(graph) && Bound(graph, ItemsSteps(items)) && onPath == Elems(path)
      modifies this
      ensures onPath == old(onPath)
      ensures why == Scan(graph, path, ItemsSteps(items))
      decreases graph.Keys - Elems(path), ItemsSize(items), 0
    {
      assert items[0..] == items;
      for i := 0 to |items|
        invariant onPath == old(onPath) && ItemsSize(items[i..]) <= ItemsSize(items)
        invariant Bound(graph, ItemsSteps(items[i..]))
        invariant Scan(graph, path, ItemsSteps(items)) == Scan(graph, path, ItemsSteps(items[i..]))
      {
        assert items[i..][0] == items[i] && items[i..][1..] == items[i + 1..];
        ScanAppend(graph, path, Steps(items[i]), ItemsSteps(items[i + 1..]));
        why := Value(graph, items[i], path);
        if why != Fine {
          return;
        }
      }
      why := Fine;
    }

    /** The fields that are emitted, in order. */
    method Fields(graph: Graph, fields: seq<Field>, ghost path: seq<nat>) returns (why: Why)
      requires Closed(graph) && Bound(graph, FieldsSteps(fields)) && onPath == Elems(path)
      modifies this
      ensures onPath == old(onPath)
      ensures why == Scan(graph, path, FieldsSteps(fields))
      decreases graph.Keys - Elems(path), FieldsSize(fields), 0
    {
      assert fields[0..] == fields;
      for i := 0 to |fields|
        invariant onPath == old(onPath) && FieldsSize(fields[i..]) <= FieldsSize(fields)
        invariant Bound(graph, FieldsSteps(fields[i..]))
        invariant Scan(graph, path, FieldsSteps(fields)) == Scan(graph, path, FieldsSteps(fields[i..]))
      {
        assert fields[i..][0] == fields[i] && fields[i..][1..] == fields[i + 1..];
        ScanAppend(graph, path, FieldSteps(fields[i]), FieldsSteps(fields[i + 1..]));
        if fields[i].emitted {
          assert FieldSize(fields[i]) == Size(fields[i].value);
          why := Value(graph, fields[i].value, path);
          if why != Fine {
            return;
          }
        }
      }
      why := Fine;
    }

    /** A map's string keys and its values, or the object node's, in the order they are emitted. */
    method Entries(graph: Graph, pairs: seq<Pair>, ghost path: seq<nat>) returns (why: Why)
      requires Closed(graph) && Bound(graph, PairsSteps(pairs)) && onPath == Elems(path)
      modifies this
      ensures onPath == old(onPath)
      ensures why == Scan(graph, path, PairsSteps(pairs))
      decreases graph.Keys - Elems(path), PairsSize(pairs), 0
    {
      assert pairs[0..] == pairs;
      for i := 0 to |pairs|
        invariant onPath == old(onPath) && PairsSize(pairs[i..]) <= PairsSize(pairs)
        invariant Bound(graph, PairsSteps(pairs[i..]))
        invariant Scan(graph, path, PairsSteps(pairs)) == Scan(graph, path, PairsSteps(pairs[i..]))
      {
        PairStep(graph, path, pairs, i);
        if pairs[i].key.StringKey? && !pairs[i].key.valid {
          return BadUtf8;
        }
        why := Value(graph, pairs[i].value, path);
        if why != Fine {
          return;
        }
      }
      why := Fine;
    }
  }

  lemma PairStep(graph: Graph, path: seq<nat>, pairs: seq<Pair>, i: nat)
    requires i < |pairs| && Closed(graph) && Bound(graph, PairsSteps(pairs[i..]))
    ensures PairsSize(pairs[i..]) == 1 + Size(pairs[i].value) + PairsSize(pairs[i + 1..])
    ensures Bound(graph, Steps(pairs[i].value)) && Bound(graph, PairsSteps(pairs[i + 1..]))
    ensures Scan(graph, path, PairsSteps(pairs[i..])) ==
            if pairs[i].key.StringKey? && !pairs[i].key.valid then BadUtf8
            else if Scan(graph, path, Steps(pairs[i].value)) != Fine then Scan(graph, path, Steps(pairs[i].value))
            else Scan(graph, path, PairsSteps(pairs[i + 1..]))
  {
    var key, value, rest := KeySteps(pairs[i].key), Steps(pairs[i].value), PairsSteps(pairs[i + 1..]);
    assert pairs[i..][0] == pairs[i] && pairs[i..][1..] == pairs[i + 1..];
    ScanAppend(graph, path, key + value, rest);
    ScanAppend(graph, path, key, value);
  }
}
