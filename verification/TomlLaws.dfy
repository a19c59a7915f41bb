/** What a document accepted by the table machine holds, and what later statements leave alone. */
module TomlLaws {
  import opened Common
  import opened Toml

  // ----- the shape of a store: every node is referred to once -----

  ghost predicate OneParent(s: Store) {
    forall u: nat, a, v: nat, b :: Next(s, u, a).Some? && Next(s, u, a) == Next(s, v, b) ==> u == v && a == b
  }

  ghost predicate Orphan(s: Store, id: nat) {
    forall u: nat, a :: Next(s, u, a) != Some(id)
  }

  /** A table or an array of tables that a later statement may still add to. */
  predicate Open(s: Store, id: nat) {
    id < |s| && (s[id].Tables? || (s[id].Table? && !s[id].inline))
  }

  ghost predicate SameTree(s: Store, s': Store, id: nat) {
    forall r :: Find(s', id, r) == Find(s, id, r)
  }

  lemma {:induction false} FindGrows(s: Store, s': Store, id: nat, r: Path)
    requires Grown(s, s') && Find(s, id, r).Some?
    ensures Find(s', id, r) == Find(s, id, r)
  {
    if r != [] {
      var front := r[..|r| - 1];
      FindGrows(s, s', id, front);
      assert Kept(s[Find(s, id, front).value], s'[Find(s, id, front).value]);
    }
  }

  lemma {:induction false} FindOn(s: Store, id: nat, p: Path, r: Path)
    ensures Find(s, id, p + r) == if Find(s, id, p).Some? then Find(s, Find(s, id, p).value, r) else None
  {
    if r == [] {
      assert p + r == p;
    } else {
      var front := r[..|r| - 1];
      FindOn(s, id, p, front);
      assert (p + r)[..|p + r| - 1] == p + front;
    }
  }

  /** A path that goes past a missing step is missing. */
  lemma FindPast(s: Store, id: nat, p: Path, r: Path)
    requires p <= r && Find(s, id, r).Some?
    ensures Find(s, id, p).Some?
  {
    FindOn(s, id, p, r[|p|..]);
    assert p + r[|p|..] == r;
  }

  lemma {:induction false} NothingBelow(s: Store, id: nat, r: Path)
    requires r != [] && forall a :: Next(s, id, a).None?
    ensures Find(s, id, r).None?
  {
    if |r| > 1 {
      NothingBelow(s, id, r[..|r| - 1]);
    }
  }

  lemma {:induction false} FindSame(s: Store, s': Store, id: nat, r: Path)
    requires forall u: nat, a :: Next(s', u, a) == Next(s, u, a)
    ensures Find(s', id, r) == Find(s, id, r)
  {
    if r != [] {
      FindSame(s, s', id, r[..|r| - 1]);
    }
  }

  /** A node is below one orphan only, at one path. */
  lemma {:induction false} OnePath(s: Store, a: nat, p: Path, b: nat, q: Path)
    requires OneParent(s) && Orphan(s, a) && Orphan(s, b)
    requires Find(s, a, p).Some? && Find(s, a, p) == Find(s, b, q)
    ensures a == b && p == q
    decreases |p| + |q|
  {
    if p != [] && q != [] {
      OnePath(s, a, p[..|p| - 1], b, q[..|q| - 1]);
      assert p == p[..|p| - 1] + [p[|p| - 1]] && q == q[..|q| - 1] + [q[|q| - 1]];
    }
  }

  // ----- adding one reference -----

  ghost predicate Grafted(s: Store, s': Store, at: nat, a: Step, id: nat) {
    && Next(s, at, a).None? && Orphan(s, id)
    && forall u: nat, b :: Next(s', u, b) == if u == at && b == a then Some(id) else Next(s, u, b)
  }

  lemma GraftShape(s: Store, s': Store, at: nat, a: Step, id: nat)
    requires OneParent(s) && Grafted(s, s', at, a, id)
    ensures OneParent(s')
    ensures forall q: nat :: q != id && Orphan(s, q) ==> Orphan(s', q)
  {
  }

  lemma FindLast(s: Store, id: nat, front: Path, b: Step)
    ensures Find(s, id, front + [b]) == if Find(s, id, front).Some? then Next(s, Find(s, id, front).value, b) else None
  {
    assert (front + [b])[..|front + [b]| - 1] == front;
  }

  /** One more step inside the new tree, which the graft point is not in. */
  lemma GraftInside(s: Store, s': Store, root: nat, p: Path, at: nat, a: Step, id: nat, below: Path, b: Step)
    requires OneParent(s) && Orphan(s, root) && root != id && Find(s, root, p) == Some(at) && Grafted(s, s', at, a, id)
    requires Find(s, id, below).Some?
    ensures Next(s', Find(s, id, below).value, b) == Next(s, Find(s, id, below).value, b)
  {
    if Find(s, id, below) == Some(at) {
      OnePath(s, id, below, root, p);
    }
  }

  /** One more step anywhere but at the graft point. */
  lemma GraftOff(s: Store, s': Store, root: nat, p: Path, at: nat, a: Step, id: nat, front: Path, b: Step)
    requires OneParent(s) && Orphan(s, root) && Find(s, root, p) == Some(at) && Grafted(s, s', at, a, id)
    requires Find(s, root, front).Some? && !(front == p && b == a)
    ensures Next(s', Find(s, root, front).value, b) == Next(s, Find(s, root, front).value, b)
  {
    if Find(s, root, front) == Some(at) {
      OnePath(s, root, front, root, p);
    }
  }

  /** Below the orphan that the reference hangs under: what was there, and the new tree at its place. */
  lemma {:induction false} GraftFind(s: Store, s': Store, root: nat, p: Path, at: nat, a: Step, id: nat, r: Path)
    requires OneParent(s) && Orphan(s, root) && root != id && Find(s, root, p) == Some(at) && Grafted(s, s', at, a, id)
    ensures Find(s', root, r) == if p + [a] <= r then Find(s, id, r[|p| + 1..]) else Find(s, root, r)
    decreases |r|
  {
    if r != [] {
      var front, b := r[..|r| - 1], r[|r| - 1];
      assert r == front + [b];
      GraftFind(s, s', root, p, at, a, id, front);
      assert |p + [a]| == |p| + 1;
      GraftOn(s, s', root, p, at, a, id, front, b);
    }
  }

  /** What is to be found at a path once the reference is there. */
  ghost function Regrown(s: Store, root: nat, q: Path, id: nat, r: Path): Option<nat> {
    if q <= r then Find(s, id, r[|q|..]) else Find(s, root, r)
  }

  lemma GraftOn(s: Store, s': Store, root: nat, p: Path, at: nat, a: Step, id: nat, front: Path, b: Step)
    requires OneParent(s) && Orphan(s, root) && root != id && Find(s, root, p) == Some(at) && Grafted(s, s', at, a, id)
    requires Find(s', root, front) == Regrown(s, root, p + [a], id, front)
    ensures Find(s', root, front + [b]) == Regrown(s, root, p + [a], id, front + [b])
  {
    var q := p + [a];
    FindLast(s', root, front, b);
    if q <= front {
      RegrownInside(s, root, q, id, front, b);
      if Find(s, id, front[|q|..]).Some? {
        GraftInside(s, s', root, p, at, a, id, front[|q|..], b);
      }
    } else if front == p && b == a {
      RegrownAt(s, root, q, id);
    } else {
      RegrownOff(s, root, p, a, id, front, b);
      if Find(s, root, front).Some? {
        GraftOff(s, s', root, p, at, a, id, front, b);
      }
    }
  }

  lemma RegrownInside(s: Store, root: nat, q: Path, id: nat, front: Path, b: Step)
    requires q <= front
    ensures Regrown(s, root, q, id, front) == Find(s, id, front[|q|..])
    ensures Regrown(s, root, q, id, front + [b]) ==
            if Find(s, id, front[|q|..]).Some? then Next(s, Find(s, id, front[|q|..]).value, b) else None
  {
    FindLast(s, id, front[|q|..], b);
    assert (front + [b])[|q|..] == front[|q|..] + [b];
  }

  lemma RegrownAt(s: Store, root: nat, q: Path, id: nat)
    ensures Regrown(s, root, q, id, q) == Some(id)
  {
    assert q[|q|..] == [];
  }

  lemma RegrownOff(s: Store, root: nat, p: Path, a: Step, id: nat, front: Path, b: Step)
    requires !(p + [a] <= front) && !(front == p && b == a)
    ensures Regrown(s, root, p + [a], id, front) == Find(s, root, front)
    ensures Regrown(s, root, p + [a], id, front + [b]) ==
            if Find(s, root, front).Some? then Next(s, Find(s, root, front).value, b) else None
  {
    NotYet(p, a, front, b);
    FindLast(s, root, front, b);
  }

  lemma NotYet(p: Path, a: Step, front: Path, b: Step)
    requires !(p + [a] <= front) && !(front == p && b == a)
    ensures !(p + [a] <= front + [b])
  {
    if |p| + 1 <= |front| {
      assert (front + [b])[..|p| + 1] == front[..|p| + 1];
    } else if |p| == |front| {
      assert (p + [a])[|p|] == a && (front + [b])[|p|] == b;
      assert forall i :: 0 <= i < |p| ==> (p + [a])[i] == p[i] && (front + [b])[i] == front[i];
    }
  }

  /** Below every other orphan: what was there. */
  lemma {:induction false} GraftAside(s: Store, s': Store, root: nat, p: Path, at: nat, a: Step, id: nat, other: nat,
                                      r: Path)
    requires OneParent(s) && Orphan(s, root) && Find(s, root, p) == Some(at) && Grafted(s, s', at, a, id)
    requires Orphan(s, other) && other != root
    ensures Find(s', other, r) == Find(s, other, r)
  {
    if r != [] {
      var front := r[..|r| - 1];
      GraftAside(s, s', root, p, at, a, id, other, front);
      if Find(s, other, front) == Some(at) {
        OnePath(s, other, front, root, p);
      }
    }
  }

  lemma FreshIsOrphan(s: Store, id: nat)
    requires Closed(s) && id >= |s|
    ensures Orphan(s, id) && forall r :: r != [] ==> Find(s, id, r).None?
  {
    forall r: Path | r != [] ensures Find(s, id, r).None? {
      NothingBelow(s, id, r);
    }
  }

  // ----- what setting a key changes -----

  /** The path at which a key's parts are found. */
  function Names(key: seq<string>, i: nat): Path
    requires i <= |key|
    decreases |key| - i
  {
    if i == |key| then [] else [Name(key[i])] + Names(key, i + 1)
  }

  /**
   * Below `root`, nothing was at `target`; the way to it now exists and leads through open nodes
   * only; and off that way nothing is different.
   */
  ghost predicate Change(s: Store, s': Store, root: nat, target: Path, r: Path) {
    if target <= r then Find(s, root, r).None?
    else if r <= target then
      && Find(s', root, r).Some?
      && (r != [] ==> Open(s', Find(s', root, r).value))
      && (Find(s, root, r).Some? ==> Find(s', root, r) == Find(s, root, r))
    else Find(s', root, r) == Find(s, root, r)
  }

  ghost predicate Changed(s: Store, s': Store, root: nat, target: Path) {
    forall r :: Change(s, s', root, target, r)
  }

  /** The trees below other orphans are as they were. */
  ghost predicate Aside(s: Store, s': Store, but: set<nat>) {
    forall q :: 0 <= q < |s| && q !in but && Orphan(s, q) ==> Orphan(s', q) && SameTree(s, s', q)
  }

  /** Every step of the way is a node that may be added to. */
  ghost predicate OpenWay(s: Store, root: nat, p: Path) {
    forall r :: r <= p && r != [] ==> Find(s, root, r).Some? && Open(s, Find(s, root, r).value)
  }

  /** What hangs at `target` afterwards is the tree that was below `id`. */
  ghost predicate Hangs(s: Store, s': Store, root: nat, target: Path, id: nat) {
    forall r :: target <= r ==> Find(s', root, r) == Find(s, id, r[|target|..])
  }

  lemma OpenWayOn(s: Store, root: nat, p: Path, a: Step)
    requires OpenWay(s, root, p) && Find(s, root, p + [a]).Some? && Open(s, Find(s, root, p + [a]).value)
    ensures OpenWay(s, root, p + [a])
  {
    forall r: Path | r <= p + [a] && r != [] ensures Find(s, root, r).Some? && Open(s, Find(s, root, r).value) {
      if |r| <= |p| {
        assert r <= p;
      } else {
        assert r == p + [a];
      }
    }
  }

  lemma OpenWayGrows(s: Store, s': Store, root: nat, p: Path)
    requires Grown(s, s') && OpenWay(s, root, p)
    ensures OpenWay(s', root, p)
  {
    forall r: Path | r <= p && r != [] ensures Find(s', root, r).Some? && Open(s', Find(s', root, r).value) {
      FindGrows(s, s', root, r);
      assert Kept(s[Find(s, root, r).value], s'[Find(s, root, r).value]);
    }
  }

  lemma GraftChanges(s: Store, s': Store, root: nat, p: Path, at: nat, a: Step, id: nat)
    requires OneParent(s) && Orphan(s, root) && root != id && Find(s, root, p) == Some(at)
    requires Grafted(s, s', at, a, id) && Grown(s, s') && OpenWay(s, root, p)
    ensures Changed(s, s', root, p + [a]) && Hangs(s, s', root, p + [a], id) && Aside(s, s', {root, id})
  {
    var target := p + [a];
    FindOn(s, root, p, [a]);
    OpenWayGrows(s, s', root, p);
    forall r ensures Change(s, s', root, target, r) {
      GraftFind(s, s', root, p, at, a, id, r);
      if target <= r {
        if Find(s, root, r).Some? { FindPast(s, root, target, r); }
      } else if r <= target {
        assert r <= p;
        if r != [] { assert Find(s', root, r).Some?; }
      }
    }
    forall r | target <= r ensures Find(s', root, r) == Find(s, id, r[|target|..]) {
      GraftFind(s, s', root, p, at, a, id, r);
    }
    GraftShape(s, s', at, a, id);
    forall q | 0 <= q < |s| && q !in {root, id} && Orphan(s, q) ensures Orphan(s', q) && SameTree(s, s', q) {
      forall r ensures Find(s', q, r) == Find(s, q, r) {
        GraftAside(s, s', root, p, at, a, id, q, r);
      }
    }
  }

  /** A way that is made one step and then further is made in all. */
  lemma ChangeFurther(s: Store, mid: Store, s': Store, root: nat, first: Path, target: Path, id: nat)
    requires Changed(s, mid, root, first) && Hangs(s, mid, root, first, id) && Changed(mid, s', root, target)
    requires first < target && forall r :: r != [] ==> Find(s, id, r).None?
    ensures Changed(s, s', root, target)
  {
    forall r ensures Change(s, s', root, target, r) {
      assert Change(s, mid, root, first, r) && Change(mid, s', root, target, r);
      if first <= r && !(r <= target) {
        assert r[|first|..] != [];
      }
    }
  }

  lemma AsideFurther(s: Store, mid: Store, s': Store, but: set<nat>, butMid: set<nat>, butLast: set<nat>)
    requires Aside(s, mid, butMid) && Aside(mid, s', butLast) && |s| <= |mid|
    requires forall q :: q in butMid + butLast && q < |s| ==> q in but
    ensures Aside(s, s', but)
  {
    forall q | 0 <= q < |s| && q !in but && Orphan(s, q) ensures Orphan(s', q) && SameTree(s, s', q) {
      assert Orphan(mid, q) && SameTree(s, mid, q) && SameTree(mid, s', q);
      forall r ensures Find(s', q, r) == Find(s, q, r) {
        assert Find(mid, q, r) == Find(s, q, r);
      }
    }
  }

  /** A fresh empty table, linked at once. */
  lemma LinkFresh(s: Store, at: nat, name: string, table: Node)
    requires Closed(s) && at < |s| && s[at].Table? && name !in s[at].entries && table.Table? && table.entries == map[]
    ensures var s' := Link(s + [table], at, name, |s|);
            Closed(s') && Grown(s, s') && Grafted(s, s', at, Name(name), |s|) && s'[|s|] == table
  {
    AllocGrows(s, table);
    LinkGrows(s + [table], at, name, |s|);
    GrownTransitive(s, s + [table], Link(s + [table], at, name, |s|));
    FreshIsOrphan(s, |s|);
  }

  lemma {:induction false} AssignChanges(s: Store, root: nat, p: Path, at: nat, key: Key, i: nat, node: nat)
    requires Closed(s) && OneParent(s) && root < |s| && Orphan(s, root) && 0 < node < |s| && Orphan(s, node) &&
             root != node
    requires Find(s, root, p) == Some(at) && at < |s| && s[at].Table? && OpenWay(s, root, p)
    requires i < |key| && Assigned(s, at, key, i, node).Some?
    ensures var s' := Assigned(s, at, key, i, node).value;
            var target := p + Names(key, i);
            && OneParent(s') && Orphan(s', root) && Aside(s, s', {root, node})
            && Changed(s, s', root, target) && Hangs(s, s', root, target, node)
    decreases |key| - i
  {
    var a := Name(key[i]);
    var s' := Assigned(s, at, key, i, node).value;
    ConcatAssociative(p, [a], Names(key, i + 1));
    FindOn(s, root, p, [a]);
    if i == |key| - 1 {
      assert Names(key, i) == [a] && p + [a] + [] == p + [a];
      LinkGrows(s, at, key[i], node);
      GraftChanges(s, s', root, p, at, a, node);
      GraftShape(s, s', at, a, node);
    } else if key[i] !in s[at].entries {
      var mid := Link(s + [Table(map[], true, false)], at, key[i], |s|);
      LinkFresh(s, at, key[i], Table(map[], true, false));
      FreshIsOrphan(s, |s|);
      GraftChanges(s, mid, root, p, at, a, |s|);
      GraftShape(s, mid, at, a, |s|);
      OpenWayGrows(s, mid, root, p);
      assert Find(mid, root, p + [a]) == Some(|s|);
      OpenWayOn(mid, root, p, a);
      AssignChanges(mid, root, p + [a], |s|, key, i + 1, node);
      ChangeFurther(s, mid, s', root, p + [a], p + Names(key, i), |s|);
      AsideFurther(s, mid, s', {root, node}, {root, |s|}, {root, node});
      assert SameTree(s, mid, node);
      forall r | p + Names(key, i) <= r ensures Find(s', root, r) == Find(s, node, r[|p + Names(key, i)|..]) {
        assert Find(mid, node, r[|p + Names(key, i)|..]) == Find(s, node, r[|p + Names(key, i)|..]);
      }
    } else {
      OpenWayOn(s, root, p, a);
      AssignChanges(s, root, p + [a], s[at].entries[key[i]], key, i + 1, node);
    }
  }

  // ----- values and inline tables are closed once written -----

  lemma PrefixOn(target: Path, p: Path, r: Path)
    ensures target <= p + r ==> target <= p || p <= target
    ensures p + r <= target ==> p <= target
  {
    if target <= p + r && |p| <= |target| {
      assert p == (p + r)[..|p|];
    }
  }

  /** Nothing below a node that is not open changes, when a way to `target` is made. */
  lemma Sealed(s: Store, s': Store, root: nat, target: Path, p: Path, id: nat)
    requires Grown(s, s') && Changed(s, s', root, target)
    requires p != [] && Find(s, root, p) == Some(id) && id < |s| && !Open(s, id)
    ensures SameTree(s, s', id) && Find(s', root, p) == Some(id) && !(target <= p) && !(p <= target)
  {
    assert Change(s, s', root, target, p) && Kept(s[id], s'[id]);
    forall r ensures Find(s', id, r) == Find(s, id, r) {
      FindOn(s, root, p, r);
      FindOn(s', root, p, r);
      assert Change(s, s', root, target, p + r);
      PrefixOn(target, p, r);
    }
  }

  // ----- what a written value is -----

  ghost predicate Comparable(p: Path, q: Path) { p <= q || q <= p }

  /** The node holds the value as it was written, and nothing else. */
  ghost predicate Holds(s: Store, id: nat, value: Value)
    decreases value
  {
    && id < |s|
    && match value
       case Text(text) => s[id] == Scalar(text)
       case List(items) =>
         && s[id].Array? && |s[id].items| == |items|
         && forall i :: 0 <= i < |items| ==> Holds(s, s[id].items[i], items[i])
       case Inline(pairs) =>
         && s[id].Table? && s[id].inline
         && (forall k :: 0 <= k < |pairs| ==>
               && Find(s, id, Names(pairs[k].key, 0)).Some?
               && Holds(s, Find(s, id, Names(pairs[k].key, 0)).value, pairs[k].value))
         && forall r :: Find(s, id, r).Some? ==> Written(pairs, r)
  }

  /** The path leads to, or on from, a pair of the inline table. */
  ghost predicate Written(pairs: seq<Pair>, r: Path) {
    r == [] || exists k :: 0 <= k < |pairs| && Comparable(r, Names(pairs[k].key, 0))
  }

  lemma HeldIsClosed(s: Store, id: nat, value: Value)
    requires Holds(s, id, value)
    ensures id < |s| && !Open(s, id)
  {
  }

  lemma SameBelow(s: Store, s': Store, id: nat, p: Path)
    requires SameTree(s, s', id) && Find(s, id, p).Some?
    ensures SameTree(s, s', Find(s, id, p).value)
  {
    var below := Find(s, id, p).value;
    assert Find(s', id, p) == Find(s, id, p);
    forall r ensures Find(s', below, r) == Find(s, below, r) {
      FindOn(s, id, p, r);
      FindOn(s', id, p, r);
      assert Find(s', id, p + r) == Find(s, id, p + r);
    }
  }

  lemma {:induction false} HoldsKept(s: Store, s': Store, id: nat, value: Value)
    requires Grown(s, s') && SameTree(s, s', id) && Holds(s, id, value)
    ensures Holds(s', id, value)
    decreases value
  {
    assert Kept(s[id], s'[id]);
    match value {
      case Text(_) =>
      case List(items) =>
        forall i | 0 <= i < |items| ensures Holds(s', s'[id].items[i], items[i]) {
          assert Find(s, id, []) == Some(id) && [Item(i)][..0] == [];
          assert Find(s, id, [Item(i)]) == Some(s[id].items[i]);
          SameBelow(s, s', id, [Item(i)]);
          HoldsKept(s, s', s[id].items[i], items[i]);
        }
      case Inline(pairs) =>
        forall k | 0 <= k < |pairs|
          ensures Find(s', id, Names(pairs[k].key, 0)).Some?
          ensures Holds(s', Find(s', id, Names(pairs[k].key, 0)).value, pairs[k].value)
        {
          var q := Names(pairs[k].key, 0);
          SameBelow(s, s', id, q);
          assert Find(s', id, q) == Find(s, id, q);
          HoldsKept(s, s', Find(s, id, q).value, pairs[k].value);
        }
        forall r | Find(s', id, r).Some? ensures Written(pairs, r) {
          assert Find(s, id, r).Some?;
        }
    }
  }

  // ----- reading a value -----

  ghost predicate Sane(s: Store) {
    forall id :: 0 <= id < |s| && s[id].Table? && s[id].inline ==> s[id].defined
  }

  lemma {:induction false} AssignSane(s: Store, at: nat, key: Key, i: nat, node: nat)
    requires Closed(s) && at < |s| && s[at].Table? && 0 < node < |s| && i < |key|
    requires Sane(s) && Assigned(s, at, key, i, node).Some?
    ensures Sane(Assigned(s, at, key, i, node).value)
    decreases |key| - i
  {
    if i == |key| - 1 {
    } else if key[i] !in s[at].entries {
      LinkFresh(s, at, key[i], Table(map[], true, false));
      AssignSane(Link(s + [Table(map[], true, false)], at, key[i], |s|), |s|, key, i + 1, node);
    } else {
      assert Next(s, at, Name(key[i])).Some?;
      AssignSane(s, s[at].entries[key[i]], key, i + 1, node);
    }
  }

  ghost predicate Good(s: Store) { Closed(s) && OneParent(s) && Sane(s) && |s| > 0 }

  /** Adding a node with nothing below it. */
  lemma AllocAside(s: Store, node: Node)
    requires Good(s) && (node.Scalar? || node == Table(map[], true, true))
    ensures Good(s + [node]) && Orphan(s + [node], |s|) && Aside(s, s + [node], {})
  {
    var s' := s + [node];
    AllocGrows(s, node);
    FreshIsOrphan(s, |s|);
    forall u: nat, a ensures Next(s', u, a) == Next(s, u, a) {
    }
    forall q | 0 <= q < |s| && Orphan(s, q) ensures Orphan(s', q) && SameTree(s, s', q) {
      forall r ensures Find(s', q, r) == Find(s, q, r) {
        FindSame(s, s', q, r);
      }
    }
  }

  ghost predicate Loose(s: Store, ids: seq<nat>, values: seq<Value>) {
    && |ids| == |values| && NoDup(ids)
    && forall i :: 0 <= i < |ids| ==> ids[i] < |s| && Orphan(s, ids[i]) && Holds(s, ids[i], values[i])
  }

  lemma LooseKept(s: Store, s': Store, ids: seq<nat>, values: seq<Value>)
    requires Loose(s, ids, values) && Grown(s, s') && Aside(s, s', {})
    ensures Loose(s', ids, values)
  {
    forall i | 0 <= i < |ids| ensures Orphan(s', ids[i]) && Holds(s', ids[i], values[i]) {
      HoldsKept(s, s', ids[i], values[i]);
    }
  }

  lemma ArrayHolds(s: Store, ids: seq<nat>, items: seq<Value>)
    requires Good(s) && Loose(s, ids, items) && forall id :: id in ids ==> id > 0
    ensures var s' := s + [Array(ids)];
            Good(s') && Grown(s, s') && Orphan(s', |s|) && Holds(s', |s|, List(items)) && Aside(s, s', Elems(ids))
  {
    var s' := s + [Array(ids)];
    AllocGrows(s, Array(ids));
    FreshIsOrphan(s, |s|);
    forall u: nat, a
      ensures Next(s', u, a) == if u == |s| && a.Item? && a.index < |ids| then Some(ids[a.index]) else Next(s, u, a)
    {
    }
    forall q | 0 <= q < |s| && Orphan(s, q) ensures SameTree(s, s', q) {
      forall r ensures Find(s', q, r) == Find(s, q, r) {
        FindUnreached(s, s', |s|, q, r);
      }
    }
    forall i | 0 <= i < |ids| ensures Holds(s', ids[i], items[i]) {
      HoldsKept(s, s', ids[i], items[i]);
    }
    forall q | 0 <= q < |s| && q !in Elems(ids) && Orphan(s, q) ensures Orphan(s', q) {
    }
  }

  /** Trees that do not reach the one node that differs are the same. */
  lemma {:induction false} FindUnreached(s: Store, s': Store, end: nat, q: nat, r: Path)
    requires Closed(s) && q < end == |s|
    requires forall u: nat, a :: u != end ==> Next(s', u, a) == Next(s, u, a)
    ensures Find(s', q, r) == Find(s, q, r) && Find(s, q, r) != Some(end)
  {
    if r != [] {
      FindUnreached(s, s', end, q, r[..|r| - 1]);
    }
  }

  ghost predicate Contents(s: Store, table: nat, pairs: seq<Pair>) { Holds(s, table, Inline(pairs)) }

  /** A value is read into a tree of its own that holds exactly what is written. */
  lemma {:induction false} BuildHolds(s: Store, value: Value)
    requires Good(s) && Built(s, value).Some?
    ensures var made := Built(s, value).value;
            && Good(made.store) && Orphan(made.store, made.id) && Holds(made.store, made.id, value) &&
               Aside(s, made.store, {})
    decreases value
  {
    match value {
      case Text(text) => AllocAside(s, Scalar(text));
      case List(items) =>
        BuildItems(s, items, [], []);
        var all := BuiltItems(s, items, []).value;
        assert [] + items == items;
        ArrayHolds(all.0, all.1, items);
        AsideFurther(s, all.0, all.0 + [Array(all.1)], {}, {}, Elems(all.1));
      case Inline(pairs) =>
        var table := Table(map[], true, true);
        AllocAside(s, table);
        forall r | Find(s + [table], |s|, r).Some? ensures Written([], r) {
          if r != [] { NothingBelow(s + [table], |s|, r); }
        }
        BuildPairs(s + [table], |s|, pairs, []);
        assert [] + pairs == pairs;
        AllocGrows(s, table);
        AsideFurther(s, s + [table], Built(s, value).value.store, {}, {}, {|s|});
    }
  }

  /** The ids read since there were `start` nodes, after those in `ids`. */
  ghost predicate ReadOn(ids: seq<nat>, all: seq<nat>, start: nat) {
    ids <= all && forall i :: |ids| <= i < |all| ==> all[i] >= start
  }

  lemma LooseOn(s: Store, made: Made, ids: seq<nat>, done: seq<Value>, value: Value)
    requires Loose(s, ids, done) && Grown(s, made.store) && Aside(s, made.store, {})
    requires |s| <= made.id < |made.store| && Orphan(made.store, made.id) && Holds(made.store, made.id, value)
    ensures Loose(made.store, ids + [made.id], done + [value])
  {
    LooseKept(s, made.store, ids, done);
  }

  lemma ReadFurther(ids: seq<nat>, id: nat, all: seq<nat>, start: nat, mid: nat)
    requires ReadOn(ids + [id], all, mid) && start <= id && start <= mid
    ensures ReadOn(ids, all, start)
  {
    assert all[|ids|] == (ids + [id])[|ids|];
  }

  lemma {:induction false} BuildItems(s: Store, items: seq<Value>, ids: seq<nat>, done: seq<Value>)
    requires Good(s) && Loose(s, ids, done) && (forall id :: id in ids ==> 0 < id < |s|)
    requires BuiltItems(s, items, ids).Some?
    ensures var all := BuiltItems(s, items, ids).value;
            Good(all.0) && Loose(all.0, all.1, done + items) && Aside(s, all.0, {}) && ReadOn(ids, all.1, |s|)
    decreases items
  {
    if items == [] {
      assert done + items == done;
    } else {
      var made := Built(s, items[0]).value;
      BuildHolds(s, items[0]);
      LooseOn(s, made, ids, done, items[0]);
      BuildItems(made.store, items[1..], ids + [made.id], done + [items[0]]);
      var all := BuiltItems(made.store, items[1..], ids + [made.id]).value;
      MoveFirst(done, items);
      AsideFurther(s, made.store, all.0, {}, {}, {});
      ReadFurther(ids, made.id, all.1, |s|, |made.store|);
    }
  }

  /** One more pair of an inline table. */
  lemma PairAdds(s: Store, table: nat, done: seq<Pair>, key: Key, value: Value, node: nat)
    requires Good(s) && 0 < table < |s| && Orphan(s, table) && Contents(s, table, done)
    requires 0 < node < |s| && node != table && Orphan(s, node) && Holds(s, node, value)
    requires Assigned(s, table, key, 0, node).Some?
    ensures var s' := Assigned(s, table, key, 0, node).value;
            && Good(s') && Orphan(s', table)
            && Contents(s', table, done + [Pair(key, value)]) && Aside(s, s', {table, node})
  {
    var s' := Assigned(s, table, key, 0, node).value;
    var target := Names(key, 0);
    assert [] + target == target;
    AssignSane(s, table, key, 0, node);
    AssignChanges(s, table, [], table, key, 0, node);
    var pairs := done + [Pair(key, value)];
    assert Kept(s[table], s'[table]);
    TargetHolds(s, s', table, target, node, value);
    forall k | 0 <= k < |pairs|
      ensures Find(s', table, Names(pairs[k].key, 0)).Some?
      ensures Holds(s', Find(s', table, Names(pairs[k].key, 0)).value, pairs[k].value)
    {
      if k < |done| {
        var q := Names(done[k].key, 0);
        var id := Find(s, table, q).value;
        HeldIsClosed(s, id, done[k].value);
        Sealed(s, s', table, target, q, id);
        HoldsKept(s, s', id, done[k].value);
      }
    }
    forall r | Find(s', table, r).Some? ensures Written(pairs, r) {
      assert Change(s, s', table, target, r);
      if Comparable(r, target) {
        assert pairs[|done|].key == key;
      } else {
        assert Written(done, r);
        if r != [] {
          var k :| 0 <= k < |done| && Comparable(r, Names(done[k].key, 0));
          assert pairs[k] == done[k];
        }
      }
    }
  }

  /** The value that hangs at the target is the one that was read. */
  lemma TargetHolds(s: Store, s': Store, root: nat, target: Path, node: nat, value: Value)
    requires Grown(s, s') && Hangs(s, s', root, target, node) && Holds(s, node, value)
    ensures Find(s', root, target) == Some(node) && Holds(s', node, value)
  {
    assert target[|target|..] == [];
    assert Find(s', root, target) == Find(s, node, []);
    forall r ensures Find(s', node, r) == Find(s, node, r) {
      FindOn(s', root, target, r);
      assert (target + r)[|target|..] == r;
    }
    HoldsKept(s, s', node, value);
  }

  /** Reading one pair: its value in a tree of its own, then set in the table. */
  lemma PairRead(s: Store, table: nat, done: seq<Pair>, pair: Pair, made: Made)
    requires Good(s) && 0 < table < |s| && Orphan(s, table) && Contents(s, table, done)
    requires Good(made.store) && Grown(s, made.store) && Aside(s, made.store, {}) && |s| <= made.id < |made.store|
    requires Orphan(made.store, made.id) && Holds(made.store, made.id, pair.value)
    requires made.store[table].Table? && Assigned(made.store, table, pair.key, 0, made.id).Some?
    ensures var s' := Assigned(made.store, table, pair.key, 0, made.id).value;
            Good(s') && Orphan(s', table) && Contents(s', table, done + [pair]) && Aside(s, s', {table})
  {
    HoldsKept(s, made.store, table, Inline(done));
    PairAdds(made.store, table, done, pair.key, pair.value, made.id);
    AsideFurther(s, made.store, Assigned(made.store, table, pair.key, 0, made.id).value, {table}, {}, {table, made.id});
  }

  lemma {:induction false} BuildPairs(s: Store, table: nat, pairs: seq<Pair>, done: seq<Pair>)
    requires Good(s) && 0 < table < |s| && Orphan(s, table) && Contents(s, table, done) &&
             BuiltPairs(s, table, pairs).Some?
    ensures var s' := BuiltPairs(s, table, pairs).value;
            Good(s') && Orphan(s', table) && Contents(s', table, done + pairs) && Aside(s, s', {table})
    decreases pairs
  {
    if pairs == [] {
      assert done + pairs == done;
    } else {
      var made := Built(s, pairs[0].value).value;
      BuildHolds(s, pairs[0].value);
      assert Kept(s[table], made.store[table]);
      PairRead(s, table, done, pairs[0], made);
      var filled := Assigned(made.store, table, pairs[0].key, 0, made.id).value;
      BuildPairs(filled, table, pairs[1..], done + [pairs[0]]);
      MoveFirst(done, pairs);
      AsideFurther(s, filled, BuiltPairs(filled, table, pairs[1..]).value, {table}, {table}, {table});
    }
  }
}
