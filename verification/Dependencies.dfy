/** The dependency record of a successful expansion, read as a graph of its own. */
module Dependencies {
  import opened Common
  import opened Expand
  import opened ExpandGraph

  /** `path` follows recorded edges. */
  ghost predicate EdgePath(edges: set<Edge>, path: seq<string>) {
    path != [] && forall i :: 0 <= i < |path| - 1 ==> Edge(path[i], path[i + 1]) in edges
  }

  /** No source that the document reaches bears the name kept for the document itself. */
  ghost predicate TopUnreached(env: Env, doc: Doc)
    requires ValidEnv(env)
  {
    forall walk :: Walk(env, None, doc, walk) ==> TOP !in walk
  }

  ghost predicate IsGraph(env: Env, doc: Doc, edges: set<Edge>)
    requires ValidEnv(env)
  {
    forall e :: e in edges <==> InGraph(env, TOP_LEVEL, doc, e)
  }

  lemma LastLink(env: Env, doc: Doc, walk: seq<string>)
    requires ValidEnv(env) && walk != [] && Walk(env, None, doc, walk)
    ensures var front := walk[..|walk| - 1];
            Links(env, EndName(None, front), EndDoc(env, doc, front), walk[|walk| - 1])
  {
    var front, last := walk[..|walk| - 1], [walk[|walk| - 1]];
    assert walk == front + last;
    WalkAppend(env, None, doc, front, last);
  }

  lemma ExtendWalk(env: Env, doc: Doc, walk: seq<string>, src: string)
    requires ValidEnv(env) && Walk(env, None, doc, walk)
    requires Links(env, EndName(None, walk), EndDoc(env, doc, walk), src)
    ensures Walk(env, None, doc, walk + [src])
  {
    var last := [src];
    assert last[1..] == [];
    WalkAppend(env, None, doc, walk, last);
  }

  ghost function PastTop(path: seq<string>): seq<string>
    requires path != []
  {
    if path[0] == TOP then path[1..] else path
  }

  /** `path`, without a leading `TOP`, is how the walk that starts with `before` goes on and ends. */
  ghost predicate EndsWalk(env: Env, doc: Doc, before: seq<string>, path: seq<string>)
    requires ValidEnv(env) && path != []
  {
    Walk(env, None, doc, before + PastTop(path))
  }

  lemma WalkOfEdge(env: Env, doc: Doc, edges: set<Edge>, e: Edge) returns (walk: seq<string>)
    requires ValidEnv(env) && IsGraph(env, doc, edges) && e in edges
    ensures walk != [] && Walk(env, None, doc, walk) && LastEdge(TOP_LEVEL, walk) == e
  {
    assert InGraph(env, TOP_LEVEL, doc, e);
    walk :| walk != [] && Walk(env, TOP_LEVEL.path, doc, walk) && LastEdge(TOP_LEVEL, walk) == e;
  }

  lemma EdgeIsWalk(env: Env, doc: Doc, path: seq<string>, walk: seq<string>) returns (before: seq<string>)
    requires ValidEnv(env) && TOP !in walk && |path| == 2
    requires walk != [] && Walk(env, None, doc, walk) && LastEdge(TOP_LEVEL, walk) == Edge(path[0], path[1])
    ensures before + PastTop(path) == walk
  {
    before := if |walk| == 1 then [] else walk[..|walk| - 2];
  }

  lemma PastTopStep(before: seq<string>, path: seq<string>)
    requires |path| >= 3
    ensures var front := path[..|path| - 1];
            && before + PastTop(path) == before + PastTop(front) + [path[|path| - 1]]
            && PastTop(front) != [] && PastTop(front)[|PastTop(front)| - 1] == path[|path| - 2]
  {
  }

  lemma FrontFollows(edges: set<Edge>, path: seq<string>)
    requires EdgePath(edges, path) && |path| >= 2
    ensures EdgePath(edges, path[..|path| - 1]) && Edge(path[|path| - 2], path[|path| - 1]) in edges
  {
    var n := |path|;
    assert Edge(path[n - 2], path[n - 2 + 1]) in edges;
    var front := path[..n - 1];
    forall i | 0 <= i < |front| - 1 ensures Edge(front[i], front[i + 1]) in edges {
      assert Edge(path[i], path[i + 1]) in edges;
    }
  }

  /** A walk to the last edge's start goes on along that edge. */
  lemma OneEdgeOn(env: Env, doc: Doc, before: seq<string>, path: seq<string>, last: seq<string>)
    requires ValidEnv(env) && TopUnreached(env, doc) && |path| >= 3
    requires EndsWalk(env, doc, before, path[..|path| - 1])
    requires last != [] && Walk(env, None, doc, last) &&
             LastEdge(TOP_LEVEL, last) == Edge(path[|path| - 2], path[|path| - 1])
    ensures EndsWalk(env, doc, before, path)
  {
    var walk := before + PastTop(path[..|path| - 1]);
    PastTopStep(before, path);
    assert TOP !in walk;
    JoinWalks(env, doc, walk, last);
  }

  lemma {:induction false} EdgePathIsWalk(env: Env, doc: Doc, edges: set<Edge>, path: seq<string>)
    returns (before: seq<string>)
    requires ValidEnv(env) && TopUnreached(env, doc) && IsGraph(env, doc, edges)
    requires EdgePath(edges, path) && |path| >= 2
    ensures EndsWalk(env, doc, before, path)
    decreases |path|
  {
    var n := |path|;
    FrontFollows(edges, path);
    var last := WalkOfEdge(env, doc, edges, Edge(path[n - 2], path[n - 1]));
    if n == 2 {
      before := EdgeIsWalk(env, doc, path, last);
    } else {
      before := EdgePathIsWalk(env, doc, edges, path[..n - 1]);
      OneEdgeOn(env, doc, before, path, last);
    }
  }

  lemma JoinWalks(env: Env, doc: Doc, walk: seq<string>, last: seq<string>)
    requires ValidEnv(env) && TOP !in walk
    requires walk != [] && Walk(env, None, doc, walk)
    requires last != [] && Walk(env, None, doc, last) && LastEdge(TOP_LEVEL, last).tar == walk[|walk| - 1]
    ensures Walk(env, None, doc, walk + [last[|last| - 1]])
  {
    LastLink(env, doc, last);
    ExtendWalk(env, doc, walk, last[|last| - 1]);
  }

  lemma SuccessRecordsGraph(env: Env, doc: Doc)
    requires ValidEnv(env) && RunDoc(env, TOP_LEVEL, doc).res.Ok?
    ensures IsGraph(env, doc, RunDoc(env, TOP_LEVEL, doc).edges)
  {
    forall e { EdgesAreTheGraph(env, TOP_LEVEL, doc, e); }
  }

  lemma WalkIsPlain(env: Env, doc: Doc, walk: seq<string>)
    requires ValidEnv(env) && RunDoc(env, TOP_LEVEL, doc).res.Ok? && Walk(env, None, doc, walk)
    ensures NoDup(walk)
  {
    SuccessIsClear(env, TOP_LEVEL, doc, walk);
  }

  lemma PlainPath(before: seq<string>, path: seq<string>)
    requires path != [] && NoDup(before + PastTop(path)) && TOP !in before + PastTop(path)
    ensures NoDup(path)
  {
    var rest := PastTop(path);
    forall i, j | 0 <= i < j < |rest| ensures rest[i] != rest[j] {
      assert (before + rest)[|before| + i] == rest[i] && (before + rest)[|before| + j] == rest[j];
    }
    assert forall x :: x in rest ==> x in before + rest;
    if path[0] == TOP {
      assert path == [TOP] + rest;
    }
  }

  lemma RecordIsAcyclic(env: Env, doc: Doc, path: seq<string>)
    requires ValidEnv(env) && RunDoc(env, TOP_LEVEL, doc).res.Ok? && TopUnreached(env, doc)
    requires EdgePath(RunDoc(env, TOP_LEVEL, doc).edges, path)
    ensures NoDup(path)
  {
    if |path| >= 2 {
      SuccessRecordsGraph(env, doc);
      var before := EdgePathIsWalk(env, doc, RunDoc(env, TOP_LEVEL, doc).edges, path);
      WalkIsPlain(env, doc, before + PastTop(path));
      PlainPath(before, path);
    }
  }

  /**
   * On success the dependency record is acyclic, exactly when no source reached is named `TOP`:
   * then no path along the record meets a name twice.
   */
  lemma DependenciesAcyclic(env: Env, doc: Doc)
    requires ValidEnv(env) && RunDoc(env, TOP_LEVEL, doc).res.Ok?
    ensures (forall path :: EdgePath(RunDoc(env, TOP_LEVEL, doc).edges, path) ==> NoDup(path)) <==>
            TopUnreached(env, doc)
  {
    var edges := RunDoc(env, TOP_LEVEL, doc).edges;
    if TopUnreached(env, doc) {
      forall path | EdgePath(edges, path) { RecordIsAcyclic(env, doc, path); }
    } else {
      var walk :| Walk(env, None, doc, walk) && TOP in walk;
      WalkIsRecorded(env, doc, walk);
      TopTwice(walk);
    }
  }

  lemma TopTwice(walk: seq<string>)
    requires TOP in walk
    ensures !NoDup([TOP] + walk)
  {
    var i :| 0 <= i < |walk| && walk[i] == TOP;
    assert ([TOP] + walk)[0] == ([TOP] + walk)[i + 1];
  }

  /** On success every recorded source is reached from `TOP` along recorded edges. */
  lemma DependenciesRooted(env: Env, doc: Doc, e: Edge) returns (path: seq<string>)
    requires ValidEnv(env) && RunDoc(env, TOP_LEVEL, doc).res.Ok?
    requires e in RunDoc(env, TOP_LEVEL, doc).edges
    ensures |path| >= 2 && path[0] == TOP && EdgePath(RunDoc(env, TOP_LEVEL, doc).edges, path)
    ensures e == Edge(path[|path| - 2], path[|path| - 1])
  {
    SuccessRecordsGraph(env, doc);
    var edges := RunDoc(env, TOP_LEVEL, doc).edges;
    var walk := WalkOfEdge(env, doc, edges, e);
    path := [TOP] + walk;
    WalkIsRecorded(env, doc, walk);
  }

  lemma WalkIsRecorded(env: Env, doc: Doc, walk: seq<string>)
    requires ValidEnv(env) && RunDoc(env, TOP_LEVEL, doc).res.Ok? && Walk(env, None, doc, walk)
    ensures EdgePath(RunDoc(env, TOP_LEVEL, doc).edges, [TOP] + walk)
  {
    var path := [TOP] + walk;
    forall i | 0 <= i < |path| - 1 ensures Edge(path[i], path[i + 1]) in RunDoc(env, TOP_LEVEL, doc).edges {
      StepRecorded(env, doc, walk, i);
    }
  }

  lemma StepRecorded(env: Env, doc: Doc, walk: seq<string>, i: nat)
    requires ValidEnv(env) && RunDoc(env, TOP_LEVEL, doc).res.Ok?
    requires i < |walk| && Walk(env, None, doc, walk)
    ensures Edge(([TOP] + walk)[i], walk[i]) in RunDoc(env, TOP_LEVEL, doc).edges
  {
    var upTo := walk[..i + 1];
    assert walk == upTo + walk[i + 1..];
    WalkAppend(env, None, doc, upTo, walk[i + 1..]);
    EdgesAreAll(env, TOP_LEVEL, doc, upTo);
  }
}
