/**
 * What the check of a parse result means for the value itself: over chains of values, each directly held
 * by the one before, whatever the walk does to follow them.
 */
module UnsafeChains {
  import opened Common
  import opened UnsafeWalk

  // ----- what a value holds -----

  /** The value is directly inside the other: boxed, an item, an emitted field, or in the container it refers to. */
  ghost predicate Inside(graph: Graph, w: Val, v: Val) {
    match v
    case Boxed(inner) => w == inner
    case Array(items) => w in items
    case Struct(fields) => exists f :: f in fields && f.emitted && w == f.value
    case Ref(key) => key in graph && InBody(w, graph[key])
    case _ => false
  }

  /** A pair's value, an element, or what is pointed at. */
  ghost predicate InBody(w: Val, body: Body) {
    match body
    case Pairs(pairs) => exists p :: p in pairs && w == p.value
    case Elements(items) => w in items
    case Pointee(value) => w == value
  }

  ghost predicate BadKey(body: Body) {
    body.Pairs? && exists p :: p in body.pairs && p.key == StringKey(false)
  }

  /** Bytes that are no UTF-8: a string, a raw fragment, or a key of the map that is referred to. */
  ghost predicate HoldsBadText(graph: Graph, v: Val) {
    v == Str(false) || v == Raw(false) || (v.Ref? && v.key in graph && BadKey(graph[v.key]))
  }

  /** Each value of the chain is directly inside the one before. */
  ghost predicate Chain(graph: Graph, v: Val, chain: seq<Val>) {
    chain != [] && chain[0] == v && forall i :: 0 <= i < |chain| - 1 ==> Inside(graph, chain[i + 1], chain[i])
  }

  function Last(chain: seq<Val>): Val
    requires chain != []
  {
    chain[|chain| - 1]
  }

  /** The chain ends at a container that it has passed before. */
  ghost predicate ComesBack(chain: seq<Val>) {
    chain != [] && Last(chain).Ref? && exists i :: 0 <= i < |chain| - 1 && chain[i] == Last(chain)
  }

  /** Nothing goes round, and nothing reached is bad. */
  ghost predicate Safe(graph: Graph, v: Val) {
    forall chain :: Chain(graph, v, chain) ==>
      !ComesBack(chain) && !HoldsBadText(graph, Last(chain)) && Last(chain) != Big
  }

  /** The reason is one that some chain shows. */
  ghost predicate Shown(graph: Graph, v: Val, why: Why) {
    why != Fine && exists chain :: Chain(graph, v, chain) && Shows(graph, chain, why)
  }

  ghost predicate Shows(graph: Graph, chain: seq<Val>, why: Why)
    requires chain != []
  {
    match why
    case Fine => false
    case Cyclic => ComesBack(chain)
    case BadUtf8 => HoldsBadText(graph, Last(chain))
    case BigNumber => Last(chain) == Big
  }

  // ----- inside one value, as far as the next containers -----

  /** `w` is `v` or inside it, without going into a container. */
  ghost predicate Within(w: Val, v: Val)
    decreases v
  {
    w == v ||
    match v
    case Boxed(inner) => Within(w, inner)
    case Array(items) => exists i :: 0 <= i < |items| && Within(w, items[i])
    case Struct(fields) => exists i :: 0 <= i < |fields| && fields[i].emitted && Within(w, fields[i].value)
    case _ => false
  }

  /** What a value by itself contributes. */
  ghost predicate Gives(w: Val, s: Step) {
    match s
    case Visit(key) => w == Ref(key)
    case BadText => w == Str(false) || w == Raw(false)
    case BadNumber => w == Big
  }

  lemma {:induction false} StepsAreWithin(v: Val, s: Step)
    ensures s in Steps(v) <==> exists w :: Within(w, v) && Gives(w, s)
    decreases Size(v)
  {
    match v {
      case Boxed(inner) => StepsAreWithin(inner, s);
      case Array(items) => ItemsAreWithin(items, s);
      case Struct(fields) => FieldsAreWithin(fields, s);
      case _ => assert s in Steps(v) <==> Gives(v, s); assert Within(v, v);
    }
  }

  lemma {:induction false} ItemsAreWithin(items: seq<Val>, s: Step)
    ensures s in ItemsSteps(items) <==> exists i, w :: 0 <= i < |items| && Within(w, items[i]) && Gives(w, s)
    decreases ItemsSize(items)
  {
    if items != [] {
      StepsAreWithin(items[0], s);
      ItemsAreWithin(items[1..], s);
      if s in ItemsSteps(items[1..]) {
        var i, w :| 0 <= i < |items[1..]| && Within(w, items[1..][i]) && Gives(w, s);
        assert items[i + 1] == items[1..][i];
      }
      forall i, w | 0 <= i < |items| && Within(w, items[i]) && Gives(w, s) ensures s in ItemsSteps(items) {
        if i > 0 {
          assert items[1..][i - 1] == items[i];
        }
      }
    }
  }

  lemma {:induction false} FieldsAreWithin(fields: seq<Field>, s: Step)
    ensures s in FieldsSteps(fields) <==>
            exists i, w :: 0 <= i < |fields| && fields[i].emitted && Within(w, fields[i].value) && Gives(w, s)
    decreases FieldsSize(fields)
  {
    if fields != [] {
      assert FieldSize(fields[0]) == Size(fields[0].value);
      StepsAreWithin(fields[0].value, s);
      FieldsAreWithin(fields[1..], s);
      if s in FieldsSteps(fields[1..]) {
        var i, w :| 0 <= i < |fields[1..]| && fields[1..][i].emitted && Within(w, fields[1..][i].value) && Gives(w, s);
        assert fields[i + 1] == fields[1..][i];
      }
      forall i, w | 0 <= i < |fields| && fields[i].emitted && Within(w, fields[i].value) && Gives(w, s)
        ensures s in FieldsSteps(fields)
      {
        if i > 0 {
          assert fields[1..][i - 1] == fields[i];
        }
      }
    }
  }

  lemma {:induction false} PairsAreWithin(pairs: seq<Pair>, s: Step)
    ensures s in PairsSteps(pairs) <==>
            || (exists i, w :: 0 <= i < |pairs| && Within(w, pairs[i].value) && Gives(w, s))
            || (s == BadText && exists p :: p in pairs && p.key == StringKey(false))
    decreases PairsSize(pairs)
  {
    if pairs != [] {
      StepsAreWithin(pairs[0].value, s);
      PairsAreWithin(pairs[1..], s);
      if exists i, w :: 0 <= i < |pairs[1..]| && Within(w, pairs[1..][i].value) && Gives(w, s) {
        var i, w :| 0 <= i < |pairs[1..]| && Within(w, pairs[1..][i].value) && Gives(w, s);
        assert pairs[i + 1] == pairs[1..][i];
      }
      forall i, w | 0 <= i < |pairs| && Within(w, pairs[i].value) && Gives(w, s) ensures s in PairsSteps(pairs) {
        if i > 0 {
          assert pairs[1..][i - 1] == pairs[i];
        }
      }
      if p :| s == BadText && p in pairs && p.key == StringKey(false) {
        assert p in pairs[1..] || p == pairs[0];
      }
    }
  }

  /** Some value that the container holds gives the step, or its keys do. */
  ghost predicate BodyGives(body: Body, s: Step) {
    (exists v, w :: InBody(v, body) && Within(w, v) && Gives(w, s)) || (s == BadText && BadKey(body))
  }

  lemma PairsGive(pairs: seq<Pair>, s: Step)
    ensures s in PairsSteps(pairs) <==> BodyGives(Pairs(pairs), s)
  {
    PairsAreWithin(pairs, s);
    if i, w :| 0 <= i < |pairs| && Within(w, pairs[i].value) && Gives(w, s) {
      assert InBody(pairs[i].value, Pairs(pairs));
    }
    if v, w :| InBody(v, Pairs(pairs)) && Within(w, v) && Gives(w, s) {
      var p :| p in pairs && v == p.value;
      var i :| 0 <= i < |pairs| && pairs[i] == p;
      assert Within(w, pairs[i].value);
    }
  }

  lemma ElementsGive(items: seq<Val>, s: Step)
    ensures s in ItemsSteps(items) <==> BodyGives(Elements(items), s)
  {
    ItemsAreWithin(items, s);
    if i, w :| 0 <= i < |items| && Within(w, items[i]) && Gives(w, s) {
      assert InBody(items[i], Elements(items));
    }
    if v, w :| InBody(v, Elements(items)) && Within(w, v) && Gives(w, s) {
      var i :| 0 <= i < |items| && items[i] == v;
      assert Within(w, items[i]);
    }
  }

  lemma PointeeGives(value: Val, s: Step)
    ensures s in Steps(value) <==> BodyGives(Pointee(value), s)
  {
    StepsAreWithin(value, s);
    assert InBody(value, Pointee(value));
  }

  lemma BodyStepsAreWithin(body: Body, s: Step)
    ensures s in BodySteps(body) <==> BodyGives(body, s)
  {
    match body
    case Pairs(pairs) => PairsGive(pairs, s);
    case Elements(items) => ElementsGive(items, s);
    case Pointee(value) => PointeeGives(value, s);
  }

  // ----- chains and ways down -----

  /** The containers that the chain goes into, in order. */
  ghost function Keys(chain: seq<Val>): seq<nat> {
    if |chain| <= 1 then []
    else
      var before := chain[..|chain| - 1];
      Keys(before) + if Last(before).Ref? then [Last(before).key] else []
  }

  /** `w` is found where the way ends: in the value itself, or in what the last container holds. */
  ghost predicate FoundAt(graph: Graph, v: Val, way: seq<nat>, w: Val) {
    if way == [] then Within(w, v)
    else way[|way| - 1] in graph && exists u :: InBody(u, graph[way[|way| - 1]]) && Within(w, u)
  }

  lemma {:induction false} WithinOn(a: Val, b: Val, v: Val, graph: Graph)
    requires Within(b, v) && !b.Ref? && Inside(graph, a, b)
    ensures Within(a, v)
    decreases v
  {
    if b != v {
      match v {
        case Boxed(inner) => WithinOn(a, b, inner, graph);
        case Array(items) =>
          var i :| 0 <= i < |items| && Within(b, items[i]);
          WithinOn(a, b, items[i], graph);
        case Struct(fields) =>
          var i :| 0 <= i < |fields| && fields[i].emitted && Within(b, fields[i].value);
          WithinOn(a, b, fields[i].value, graph);
      }
    } else {
      assert Within(a, a);
      match b {
        case Boxed(inner) =>
        case Array(items) => var i :| 0 <= i < |items| && items[i] == a;
        case Struct(fields) =>
          var f :| f in fields && f.emitted && a == f.value;
          var i :| 0 <= i < |fields| && fields[i] == f;
      }
    }
  }

  /** What is found at the end of a way is a step of it. */
  lemma FoundIsStep(graph: Graph, v: Val, way: seq<nat>, w: Val, s: Step)
    requires Descent(graph, Steps(v), way) && FoundAt(graph, v, way, w) && Gives(w, s)
    ensures s in StepsAt(graph, Steps(v), way)
  {
    if way == [] {
      StepsAreWithin(v, s);
    } else {
      BodyStepsAreWithin(graph[way[|way| - 1]], s);
    }
  }

  /** A chain goes down the way of the containers that it goes into. */
  lemma {:induction false} ChainGoesDown(graph: Graph, v: Val, chain: seq<Val>)
    requires Closed(graph) && Bound(graph, Steps(v)) && Chain(graph, v, chain)
    ensures Descent(graph, Steps(v), Keys(chain)) && FoundAt(graph, v, Keys(chain), Last(chain))
    decreases |chain|
  {
    if |chain| > 1 {
      var before := chain[..|chain| - 1];
      ChainGoesDown(graph, v, before);
      var b := Last(before);
      assert Inside(graph, Last(chain), b) && b == chain[|chain| - 2] && Last(chain) == chain[|chain| - 2 + 1];
      if b.Ref? {
        FoundIsStep(graph, v, Keys(before), b, Visit(b.key));
        DescentStep(graph, Steps(v), Keys(before), b.key);
        assert Within(Last(chain), Last(chain));
      } else {
        FoundOn(graph, v, Keys(before), b, Last(chain));
      }
    }
  }

  lemma FoundOn(graph: Graph, v: Val, way: seq<nat>, b: Val, a: Val)
    requires FoundAt(graph, v, way, b) && !b.Ref? && Inside(graph, a, b)
    ensures FoundAt(graph, v, way, a)
  {
    if way == [] {
      WithinOn(a, b, v, graph);
    } else {
      var u :| InBody(u, graph[way[|way| - 1]]) && Within(b, u);
      WithinOn(a, b, u, graph);
    }
  }

  lemma ChainOn(graph: Graph, v: Val, chain: seq<Val>, w: Val)
    requires Chain(graph, v, chain) && Inside(graph, w, Last(chain))
    ensures Chain(graph, v, chain + [w]) && Last(chain + [w]) == w
    ensures Keys(chain + [w]) == Keys(chain) + if Last(chain).Ref? then [Last(chain).key] else []
  {
    assert (chain + [w])[..|chain + [w]| - 1] == chain;
  }

  /** A chain goes on to whatever is within its last value, into no further container. */
  lemma {:induction false} ChainWithin(graph: Graph, v: Val, chain: seq<Val>, w: Val) returns (longer: seq<Val>)
    requires Chain(graph, v, chain) && Within(w, Last(chain))
    ensures Chain(graph, v, longer) && Last(longer) == w && Keys(longer) == Keys(chain)
    decreases Last(chain)
  {
    longer := chain;
    if w != Last(chain) {
      var next: Val;
      match Last(chain) {
        case Boxed(inner) => next := inner;
        case Array(items) =>
          var i :| 0 <= i < |items| && Within(w, items[i]);
          next := items[i];
        case Struct(fields) =>
          var i :| 0 <= i < |fields| && fields[i].emitted && Within(w, fields[i].value);
          assert fields[i] in fields;
          next := fields[i].value;
      }
      ChainOn(graph, v, chain, next);
      longer := ChainWithin(graph, v, chain + [next], w);
    }
  }

  /** To every container on a way down there is a chain that goes into those before it. */
  lemma {:induction false} WayHasChain(graph: Graph, v: Val, way: seq<nat>) returns (chain: seq<Val>)
    requires Descent(graph, Steps(v), way) && way != []
    ensures Chain(graph, v, chain) && Last(chain) == Ref(way[|way| - 1]) && Keys(chain) == way[..|way| - 1]
    decreases |way|
  {
    var n := |way|;
    var s := Visit(way[n - 1]);
    if n == 1 {
      StepsAreWithin(v, s);
      var w :| Within(w, v) && Gives(w, s);
      chain := ChainWithin(graph, v, [v], w);
    } else {
      var before := way[..n - 1];
      assert Visit(way[n - 2 + 1]) in BodySteps(graph[way[n - 2]]);
      BeforeDescends(graph, Steps(v), way);
      var up := WayHasChain(graph, v, before);
      BodyStepsAreWithin(graph[way[n - 2]], s);
      var u, w :| InBody(u, graph[way[n - 2]]) && Within(w, u) && Gives(w, s);
      ChainOn(graph, v, up, u);
      chain := ChainWithin(graph, v, up + [u], w);
      assert before == before[..n - 2] + [way[n - 2]];
    }
  }

  lemma BeforeDescends(graph: Graph, root: seq<Step>, way: seq<nat>)
    requires Descent(graph, root, way) && way != []
    ensures Descent(graph, root, way[..|way| - 1])
  {
    var before := way[..|way| - 1];
    forall i | 0 <= i < |before| - 1 ensures Visit(before[i + 1]) in BodySteps(graph[before[i]]) {
      assert Visit(way[i + 1]) in BodySteps(graph[way[i]]);
    }
  }

  /** A container that the chain goes into is one of its keys, and each key is one of those. */
  lemma {:induction false} KeysAre(chain: seq<Val>, key: nat)
    ensures key in Keys(chain) <==> exists i :: 0 <= i < |chain| - 1 && chain[i] == Ref(key)
    decreases |chain|
  {
    if |chain| > 1 {
      var before := chain[..|chain| - 1];
      KeysAre(before, key);
      if i :| 0 <= i < |chain| - 1 && chain[i] == Ref(key) {
        assert i < |chain| - 2 ==> before[i] == Ref(key);
        assert i == |chain| - 2 ==> Last(before) == Ref(key);
      }
      if i :| 0 <= i < |before| - 1 && before[i] == Ref(key) {
        assert chain[i] == Ref(key);
      }
      if Last(before) == Ref(key) {
        assert chain[|chain| - 2] == Ref(key);
      }
    }
  }

  // ----- what is fine is safe -----

  lemma StepIsLighter(graph: Graph, root: seq<Step>, tree: Tree, key: nat) returns (below: Tree)
    requires Unfolds(graph, root, tree) && Visit(key) in root
    ensures key in graph && Unfolds(graph, BodySteps(graph[key]), below) && Weight(below) < Weight(tree)
  {
    var i :| 0 <= i < |root| && root[i] == Visit(key);
    below := tree.children[i];
    ChildIsLighter(tree.children, i);
  }

  /** Down a way everything unfolds to less and less. */
  lemma {:induction false} WayGetsLighter(graph: Graph, root: seq<Step>, tree: Tree, way: seq<nat>)
    returns (below: Tree)
    requires Unfolds(graph, root, tree) && Descent(graph, root, way) && way != []
    ensures Unfolds(graph, BodySteps(graph[way[|way| - 1]]), below) && Weight(below) < Weight(tree)
    decreases |way|
  {
    below := StepIsLighter(graph, root, tree, way[0]);
    if |way| > 1 {
      RestDescends(graph, root, way);
      below := WayGetsLighter(graph, BodySteps(graph[way[0]]), below, way[1..]);
    }
  }

  lemma RestDescends(graph: Graph, root: seq<Step>, way: seq<nat>)
    requires Descent(graph, root, way) && |way| > 1
    ensures Descent(graph, BodySteps(graph[way[0]]), way[1..])
  {
    var rest := way[1..];
    assert Visit(way[0 + 1]) in BodySteps(graph[way[0]]);
    forall i | 0 <= i < |rest| - 1 ensures Visit(rest[i + 1]) in BodySteps(graph[rest[i]]) {
      assert Visit(way[i + 1 + 1]) in BodySteps(graph[way[i + 1]]);
    }
  }

  lemma {:induction false} PartDescends(graph: Graph, root: seq<Step>, way: seq<nat>, i: nat)
    requires Descent(graph, root, way) && i < |way| - 1
    ensures Descent(graph, root, way[..i + 1]) && Descent(graph, BodySteps(graph[way[i]]), way[i + 1..])
    decreases i
  {
    var front := way[..i + 1];
    forall j | 0 <= j < |front| - 1 ensures Visit(front[j + 1]) in BodySteps(graph[front[j]]) {
      assert Visit(way[j + 1]) in BodySteps(graph[way[j]]);
    }
    RestDescends(graph, root, way);
    if i > 0 {
      PartDescends(graph, BodySteps(graph[way[0]]), way[1..], i - 1);
      assert way[1..][i - 1] == way[i] && way[1..][i..] == way[i + 1..];
    }
  }

  lemma NoWayBack(graph: Graph, root: seq<Step>, tree: Tree, front: seq<nat>, back: seq<nat>)
    requires Unfolds(graph, root, tree) && Descent(graph, root, front) && front != [] && back != []
    requires Descent(graph, BodySteps(graph[front[|front| - 1]]), back)
    ensures back[|back| - 1] != front[|front| - 1]
  {
    var here := WayGetsLighter(graph, root, tree, front);
    var below := WayGetsLighter(graph, BodySteps(graph[front[|front| - 1]]), here, back);
    if back[|back| - 1] == front[|front| - 1] {
      UnfoldingIsUnique(graph, BodySteps(graph[front[|front| - 1]]), here, below);
    }
  }

  lemma FineNeverGoesRound(graph: Graph, root: seq<Step>, tree: Tree, way: seq<nat>)
    requires Unfolds(graph, root, tree)
    ensures !GoesRound(graph, root, way)
  {
    if GoesRound(graph, root, way) {
      var i :| 0 <= i < |way| - 1 && way[i] == way[|way| - 1];
      PartDescends(graph, root, way, i);
      NoWayBack(graph, root, tree, way[..i + 1], way[i + 1..]);
    }
  }

  lemma FineHoldsNothingBad(graph: Graph, root: seq<Step>, tree: Tree, way: seq<nat>, s: Step)
    requires Unfolds(graph, root, tree) && Holds(graph, root, way, s)
    ensures s.Visit?
  {
    if way != [] {
      var below := WayGetsLighter(graph, root, tree, way);
    }
  }

  ghost predicate WayShows(graph: Graph, root: seq<Step>, way: seq<nat>) {
    GoesRound(graph, root, way) || Holds(graph, root, way, BadText) || Holds(graph, root, way, BadNumber)
  }

  /** A chain that shows a reason goes down a way that does. */
  lemma ShownOnWay(graph: Graph, v: Val, chain: seq<Val>, why: Why)
    requires Closed(graph) && Bound(graph, Steps(v)) && Chain(graph, v, chain) && Shows(graph, chain, why)
    ensures exists way ::
              WayShows(graph, Steps(v), way)
  {
    var w, way := Last(chain), Keys(chain);
    ChainGoesDown(graph, v, chain);
    if w.Ref? {
      FoundIsStep(graph, v, way, w, Visit(w.key));
      DescentStep(graph, Steps(v), way, w.key);
      var on := way + [w.key];
      if ComesBack(chain) {
        KeysAre(chain, w.key);
        var i :| 0 <= i < |way| && way[i] == w.key;
        assert on[i] == on[|on| - 1] && WayShows(graph, Steps(v), on);
      } else {
        BodyStepsAreWithin(graph[w.key], BadText);
        assert Holds(graph, Steps(v), on, BadText) && WayShows(graph, Steps(v), on);
      }
    } else if why == BigNumber {
      FoundIsStep(graph, v, way, w, BadNumber);
      assert Holds(graph, Steps(v), way, BadNumber) && WayShows(graph, Steps(v), way);
    } else {
      FoundIsStep(graph, v, way, w, BadText);
      assert Holds(graph, Steps(v), way, BadText) && WayShows(graph, Steps(v), way);
    }
  }

  /** Every way down that shows a reason is that of some chain. */
  lemma RoundHasChain(graph: Graph, v: Val, way: seq<nat>)
    requires GoesRound(graph, Steps(v), way)
    ensures Shown(graph, v, Cyclic)
  {
    var chain := WayHasChain(graph, v, way);
    var i :| 0 <= i < |way| - 1 && way[i] == way[|way| - 1];
    assert way[..|way| - 1][i] == way[|way| - 1];
    KeysAre(chain, way[|way| - 1]);
    assert ComesBack(chain);
  }

  lemma HeldHasChain(graph: Graph, v: Val, way: seq<nat>, s: Step, why: Why)
    requires Holds(graph, Steps(v), way, s) &&
             (if s == BadText then why == BadUtf8 else s == BadNumber && why == BigNumber)
    ensures Shown(graph, v, why)
  {
    if way == [] {
      StepsAreWithin(v, s);
      var w :| Within(w, v) && Gives(w, s);
      var chain := ChainWithin(graph, v, [v], w);
      assert Shows(graph, chain, why);
    } else {
      var up := WayHasChain(graph, v, way);
      var body := graph[way[|way| - 1]];
      BodyStepsAreWithin(body, s);
      if u, w :| InBody(u, body) && Within(w, u) && Gives(w, s) {
        ChainOn(graph, v, up, u);
        var chain := ChainWithin(graph, v, up + [u], w);
        assert Shows(graph, chain, why);
      } else {
        assert Shows(graph, up, why);
      }
    }
  }

  /** The check passes exactly what is safe, and the reason it gives otherwise is shown by a chain. */
  lemma FineIffSafe(graph: Graph, v: Val)
    requires Closed(graph) && Bound(graph, Steps(v))
    ensures var why := Scan(graph, [], Steps(v));
            (why == Fine <==> Safe(graph, v)) && (why != Fine ==> Shown(graph, v, why))
  {
    var why := Scan(graph, [], Steps(v));
    if why == Fine {
      var tree := FineUnfolds(graph, [], Steps(v));
      forall chain | Chain(graph, v, chain)
        ensures !ComesBack(chain) && !HoldsBadText(graph, Last(chain)) && Last(chain) != Big
      {
        FineChain(graph, v, tree, chain);
      }
    } else {
      VerdictIsTrue(graph, Steps(v));
      if why == Cyclic {
        var way :| GoesRound(graph, Steps(v), way);
        RoundHasChain(graph, v, way);
      } else {
        var s := if why == BadUtf8 then BadText else BadNumber;
        var way :| Holds(graph, Steps(v), way, s);
        HeldHasChain(graph, v, way, s, why);
      }
      ShownIsUnsafe(graph, v, why);
    }
  }

  lemma ShownIsUnsafe(graph: Graph, v: Val, why: Why)
    requires Shown(graph, v, why)
    ensures !Safe(graph, v)
  {
    var chain :| Chain(graph, v, chain) && Shows(graph, chain, why);
  }

  lemma FineChain(graph: Graph, v: Val, tree: Tree, chain: seq<Val>)
    requires Closed(graph) && Bound(graph, Steps(v)) && Unfolds(graph, Steps(v), tree) && Chain(graph, v, chain)
    ensures !ComesBack(chain) && !HoldsBadText(graph, Last(chain)) && Last(chain) != Big
  {
    forall why | Shows(graph, chain, why) ensures false {
      ShownOnWay(graph, v, chain, why);
      var way :| WayShows(graph, Steps(v), way);
      FineNeverGoesRound(graph, Steps(v), tree, way);
      forall s | Holds(graph, Steps(v), way, s) ensures s.Visit? {
        FineHoldsNothingBad(graph, Steps(v), tree, way, s);
      }
    }
    assert !Shows(graph, chain, Cyclic) && !Shows(graph, chain, BadUtf8) && !Shows(graph, chain, BigNumber);
  }

  // ----- the order in which things are found -----

  /** Of several parts, the verdict is that of the first that is not fine. */
  ghost predicate FirstVerdict(verdicts: seq<Why>, why: Why) {
    if why == Fine then forall i :: 0 <= i < |verdicts| ==> verdicts[i] == Fine
    else exists n: nat :: n < |verdicts| && verdicts[n] == why && forall i :: 0 <= i < n ==> verdicts[i] == Fine
  }

  lemma FirstVerdictOn(first: Why, rest: seq<Why>, why: Why)
    requires FirstVerdict(rest, why)
    ensures FirstVerdict([first] + rest, if first == Fine then why else first)
  {
    var all := [first] + rest;
    if first == Fine && why != Fine {
      var n: nat :| n < |rest| && rest[n] == why && forall i :: 0 <= i < n ==> rest[i] == Fine;
      assert all[n + 1] == why;
    } else if first != Fine {
      assert all[0] == first;
    }
  }

  ghost function ItemVerdicts(graph: Graph, path: seq<nat>, items: seq<Val>): seq<Why>
    requires Closed(graph) && forall i :: 0 <= i < |items| ==> Bound(graph, Steps(items[i]))
  {
    seq(|items|, i requires 0 <= i < |items| => Scan(graph, path, Steps(items[i])))
  }

  lemma {:induction false} ItemsAreBound(graph: Graph, items: seq<Val>)
    requires Bound(graph, ItemsSteps(items))
    ensures forall i :: 0 <= i < |items| ==> Bound(graph, Steps(items[i]))
  {
    if items != [] {
      assert Bound(graph, Steps(items[0])) && Bound(graph, ItemsSteps(items[1..]));
      ItemsAreBound(graph, items[1..]);
      forall i | 0 <= i < |items| ensures Bound(graph, Steps(items[i])) {
        assert i > 0 ==> items[i] == items[1..][i - 1];
      }
    }
  }

  lemma ItemVerdictsStep(graph: Graph, path: seq<nat>, items: seq<Val>)
    requires Closed(graph) && items != [] && forall i :: 0 <= i < |items| ==> Bound(graph, Steps(items[i]))
    ensures forall i :: 0 <= i < |items[1..]| ==> Bound(graph, Steps(items[1..][i]))
    ensures ItemVerdicts(graph, path, items) ==
            [Scan(graph, path, Steps(items[0]))] + ItemVerdicts(graph, path, items[1..])
  {
    forall i | 0 <= i < |items[1..]| ensures Bound(graph, Steps(items[1..][i])) {
      assert items[1..][i] == items[i + 1];
    }
  }

  /** Items are judged in their order. */
  lemma {:induction false} ItemsInOrder(graph: Graph, path: seq<nat>, items: seq<Val>)
    requires Closed(graph) && Bound(graph, ItemsSteps(items))
    ensures forall i :: 0 <= i < |items| ==> Bound(graph, Steps(items[i]))
    ensures FirstVerdict(ItemVerdicts(graph, path, items), Scan(graph, path, ItemsSteps(items)))
  {
    ItemsAreBound(graph, items);
    if items != [] {
      ScanAppend(graph, path, Steps(items[0]), ItemsSteps(items[1..]));
      ItemsInOrder(graph, path, items[1..]);
      ItemVerdictsStep(graph, path, items);
      FirstVerdictOn(Scan(graph, path, Steps(items[0])), ItemVerdicts(graph, path, items[1..]),
                     Scan(graph, path, ItemsSteps(items[1..])));
    }
  }

  /** A struct is judged as the values of its emitted fields, in the order of the fields. */
  ghost function Emitted(fields: seq<Field>): seq<Val> {
    if fields == [] then []
    else (if fields[0].emitted then [fields[0].value] else []) + Emitted(fields[1..])
  }

  lemma {:induction false} FieldsAreItems(fields: seq<Field>)
    ensures FieldsSteps(fields) == ItemsSteps(Emitted(fields))
  {
    if fields != [] {
      FieldsAreItems(fields[1..]);
      if fields[0].emitted {
        assert ([fields[0].value] + Emitted(fields[1..]))[1..] == Emitted(fields[1..]);
      } else {
        assert [] + Emitted(fields[1..]) == Emitted(fields[1..]);
      }
    }
  }

  /** A pair is judged by its key and then by its value. */
  ghost function PairVerdict(graph: Graph, path: seq<nat>, pair: Pair): Why
    requires Closed(graph) && Bound(graph, Steps(pair.value))
  {
    if pair.key == StringKey(false) then BadUtf8 else Scan(graph, path, Steps(pair.value))
  }

  ghost function PairVerdicts(graph: Graph, path: seq<nat>, pairs: seq<Pair>): seq<Why>
    requires Closed(graph) && forall i :: 0 <= i < |pairs| ==> Bound(graph, Steps(pairs[i].value))
  {
    seq(|pairs|, i requires 0 <= i < |pairs| => PairVerdict(graph, path, pairs[i]))
  }

  /** Pairs are judged in the order they are emitted. */
  lemma {:induction false} PairsInOrder(graph: Graph, path: seq<nat>, pairs: seq<Pair>)
    requires Closed(graph) && Bound(graph, PairsSteps(pairs))
    ensures forall i :: 0 <= i < |pairs| ==> Bound(graph, Steps(pairs[i].value))
    ensures FirstVerdict(PairVerdicts(graph, path, pairs), Scan(graph, path, PairsSteps(pairs)))
  {
    if pairs != [] {
      assert pairs[0..] == pairs;
      PairStep(graph, path, pairs, 0);
      PairsInOrder(graph, path, pairs[1..]);
      PairVerdictsStep(graph, path, pairs);
      FirstVerdictOn(PairVerdict(graph, path, pairs[0]), PairVerdicts(graph, path, pairs[1..]),
                     Scan(graph, path, PairsSteps(pairs[1..])));
    }
  }

  lemma PairVerdictsStep(graph: Graph, path: seq<nat>, pairs: seq<Pair>)
    requires Closed(graph) && pairs != [] && Bound(graph, Steps(pairs[0].value))
    requires forall i :: 0 <= i < |pairs[1..]| ==> Bound(graph, Steps(pairs[1..][i].value))
    ensures forall i :: 0 <= i < |pairs| ==> Bound(graph, Steps(pairs[i].value))
    ensures PairVerdicts(graph, path, pairs) ==
            [PairVerdict(graph, path, pairs[0])] + PairVerdicts(graph, path, pairs[1..])
  {
    forall i | 0 <= i < |pairs| ensures Bound(graph, Steps(pairs[i].value)) {
      assert i > 0 ==> pairs[i] == pairs[1..][i - 1];
    }
  }

  /** The check of one parse result, from an empty path. */
  method JsonUnsafe(graph: Graph, v: Val) returns (why: Why)
    requires Closed(graph) && Bound(graph, Steps(v))
    ensures why == Scan(graph, [], Steps(v)) && (why == Fine <==> Safe(graph, v))
    ensures why != Fine ==> Shown(graph, v, why)
    ensures why == Fine <==> exists tree :: Unfolds(graph, Steps(v), tree)
  {
    var walk := new Walk();
    why := walk.Value(graph, v, []);
    FineIffUnfolds(graph, Steps(v));
    FineIffSafe(graph, v);
  }
}
