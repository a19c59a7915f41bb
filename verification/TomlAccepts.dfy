/** When a value, and with it a key, is accepted: no two keys of one inline table, one leading on from the other. */
module TomlAccepts {
  import opened Common
  import opened Toml
  import opened TomlLaws

  /** Whatever is found on the way from `p` to the target is a table that no value closed. */
  ghost predicate Passable(s: Store, root: nat, p: Path, target: Path) {
    forall r :: p < r < target && Find(s, root, r).Some? ==> IsTable(s, Find(s, root, r).value)
  }

  /** Nothing is at the target yet, and nothing is in the way. */
  ghost predicate Free(s: Store, root: nat, p: Path, target: Path) {
    Find(s, root, target).None? && Passable(s, root, p, target)
  }

  ghost predicate IsTable(s: Store, id: nat) { id < |s| && s[id].Table? && !s[id].inline }

  lemma FreeFrom(s: Store, root: nat, p: Path, a: Step, target: Path, id: nat)
    requires p + [a] < target && Find(s, root, p + [a]) == Some(id)
    ensures Free(s, root, p, target) == (IsTable(s, id) && Free(s, root, p + [a], target))
  {
    forall r | p < r < target && r != p + [a] && Find(s, root, r).Some? ensures p + [a] < r {
      assert |r| > |p| && r[..|p| + 1] == p + [a];
    }
  }

  lemma TargetStep(p: Path, key: Key, i: nat, target: Path)
    requires i < |key| && target == p + Names(key, i)
    ensures var on := p + [Name(key[i])];
            target == on + Names(key, i + 1) && if i == |key| - 1 then on == target else on < target
  {
    ConcatAssociative(p, [Name(key[i])], Names(key, i + 1));
  }

  /** The walk of an assignment meets no value and ends at a name that is not there. */
  ghost predicate Walkable(s: Store, at: nat, key: Key, i: nat)
    requires Closed(s) && at < |s| && s[at].Table? && i < |key|
    decreases |key| - i
  {
    if key[i] !in s[at].entries then true
    else if i == |key| - 1 then false
    else
      var next := s[at].entries[key[i]];
      assert Next(s, at, Name(key[i])) == Some(next);
      IsTable(s, next) && Walkable(s, next, key, i + 1)
  }

  lemma {:induction false} AssignWalks(s: Store, at: nat, key: Key, i: nat, node: nat)
    requires Closed(s) && at < |s| && s[at].Table? && 0 < node < |s| && i < |key|
    ensures Assigned(s, at, key, i, node).Some? == Walkable(s, at, key, i)
    decreases |key| - i
  {
    if key[i] !in s[at].entries {
      if i < |key| - 1 {
        var mid := Link(s + [Table(map[], true, false)], at, key[i], |s|);
        LinkFresh(s, at, key[i], Table(map[], true, false));
        AssignWalks(mid, |s|, key, i + 1, node);
      }
    } else if i < |key| - 1 {
      var next := s[at].entries[key[i]];
      assert Next(s, at, Name(key[i])) == Some(next);
      if IsTable(s, next) {
        AssignWalks(s, next, key, i + 1, node);
      }
    }
  }

  lemma FindStep(s: Store, root: nat, p: Path, at: nat, a: Step)
    requires Find(s, root, p) == Some(at)
    ensures Find(s, root, p + [a]) == Next(s, at, a)
  {
    FindOn(s, root, p, [a]);
  }

  lemma {:induction false} WalkableIsFree(s: Store, root: nat, p: Path, at: nat, key: Key, i: nat, target: Path)
    requires Closed(s) && Find(s, root, p) == Some(at) && at < |s| && s[at].Table? && i < |key| &&
             target == p + Names(key, i)
    ensures Walkable(s, at, key, i) == Free(s, root, p, target)
    decreases |key| - i
  {
    var a := Name(key[i]);
    TargetStep(p, key, i, target);
    FindStep(s, root, p, at, a);
    if key[i] !in s[at].entries {
      NothingPast(s, root, p, a, target);
    } else if i == |key| - 1 {
      LastAccepted(s, root, p, a, target);
    } else {
      var next := s[at].entries[key[i]];
      var on := p + [a];
      assert Next(s, at, a) == Some(next);
      if IsTable(s, next) {
        WalkableIsFree(s, root, on, next, key, i + 1, target);
      }
      WalkableOn(s, root, p, at, key, i, target, next, on);
    }
  }

  lemma WalkableOn(s: Store, root: nat, p: Path, at: nat, key: Key, i: nat, target: Path, next: nat, on: Path)
    requires Closed(s) && at < |s| && s[at].Table? && i < |key| - 1 && key[i] in s[at].entries &&
             s[at].entries[key[i]] == next
    requires on == p + [Name(key[i])] && on < target && Find(s, root, on) == Some(next)
    requires IsTable(s, next) ==> Walkable(s, next, key, i + 1) == Free(s, root, on, target)
    ensures Walkable(s, at, key, i) == Free(s, root, p, target)
  {
    FreeFrom(s, root, p, Name(key[i]), target, next);
  }

  /** With one part to go there is nothing in between. */
  lemma LastAccepted(s: Store, root: nat, p: Path, a: Step, target: Path)
    requires target == p + [a]
    ensures Free(s, root, p, target) == Find(s, root, target).None?
  {
  }

  lemma NothingPast(s: Store, root: nat, p: Path, a: Step, target: Path)
    requires p + [a] <= target && Find(s, root, p + [a]).None?
    ensures Free(s, root, p, target)
  {
    forall r | p < r <= target && Find(s, root, r).Some? ensures false {
      assert r[..|p| + 1] == p + [a];
      FindPast(s, root, p + [a], r);
    }
  }

  lemma FreeSame(s: Store, s': Store, root: nat, p: Path, target: Path)
    requires Closed(s) && Grown(s, s') && SameTree(s, s', root) && root < |s|
    ensures Free(s, root, p, target) == Free(s', root, p, target)
  {
    forall r | Find(s, root, r).Some?
      ensures IsTable(s, Find(s, root, r).value) <==> IsTable(s', Find(s', root, r).value)
    {
      FoundIsInside(s, root, r);
      var id := Find(s, root, r).value;
      assert Find(s', root, r) == Some(id) && Kept(s[id], s'[id]);
    }
  }

  lemma FoundIsInside(s: Store, root: nat, r: Path)
    requires Closed(s) && root < |s| && Find(s, root, r).Some?
    ensures Find(s, root, r).value < |s|
  {
    if r != [] {
      assert Next(s, Find(s, root, r[..|r| - 1]).value, r[|r| - 1]).Some?;
    }
  }
  // ----- values -----

  /** No key is another's, nor leads on from it. */
  ghost predicate KeysApart(pairs: seq<Pair>) {
    forall j, k :: 0 <= j < k < |pairs| ==> !Comparable(Names(pairs[j].key, 0), Names(pairs[k].key, 0))
  }

  /** Every inline table in the value keeps its keys apart. */
  ghost predicate WellKeyed(value: Value)
    decreases value
  {
    match value
    case Text(_) => true
    case List(items) => forall item :: item in items ==> WellKeyed(item)
    case Inline(pairs) => KeysApart(pairs) && PairsWellKeyed(pairs)
  }

  ghost predicate PairsWellKeyed(pairs: seq<Pair>)
    decreases pairs
  {
    forall pair :: pair in pairs ==> WellKeyed(pair.value)
  }

  /** The tables on the way to each key may be added to. */
  ghost predicate WaysOpen(s: Store, table: nat, done: seq<Pair>) {
    forall k :: 0 <= k < |done| ==> WayOpen(s, table, Names(done[k].key, 0))
  }

  ghost predicate WayOpen(s: Store, table: nat, q: Path) {
    forall r :: r < q && r != [] ==> Find(s, table, r).Some? && Open(s, Find(s, table, r).value)
  }

  lemma WaysStayOpen(s: Store, s': Store, table: nat, done: seq<Pair>)
    requires Grown(s, s') && WaysOpen(s, table, done)
    ensures WaysOpen(s', table, done)
  {
    forall k, r: Path | 0 <= k < |done| && r < Names(done[k].key, 0) && r != []
      ensures Find(s', table, r).Some? && Open(s', Find(s', table, r).value)
    {
      assert WayOpen(s, table, Names(done[k].key, 0));
      FindGrows(s, s', table, r);
      assert Kept(s[Find(s, table, r).value], s'[Find(s, table, r).value]);
    }
  }

  lemma WaysOpenOn(s: Store, s': Store, table: nat, done: seq<Pair>, pair: Pair)
    requires Grown(s, s') && WaysOpen(s, table, done) && Changed(s, s', table, Names(pair.key, 0))
    ensures WaysOpen(s', table, done + [pair])
  {
    WaysStayOpen(s, s', table, done);
    forall r: Path | r < Names(pair.key, 0) && r != []
      ensures Find(s', table, r).Some? && Open(s', Find(s', table, r).value)
    {
      assert Change(s, s', table, Names(pair.key, 0), r);
    }
  }

  /** A way that leads on from a place found, through a name, finds a table there. */
  lemma NamedIsTable(s: Store, root: nat, key: Key, r: Path)
    requires r < Names(key, 0) && Find(s, root, Names(key, 0)).Some? && Find(s, root, r).Some?
    ensures Find(s, root, r).value < |s| && s[Find(s, root, r).value].Table?
  {
    var q := Names(key, 0);
    var a := q[|r|];
    assert q[..|r| + 1] == r + [a];
    FindPast(s, root, r + [a], q);
    FindStep(s, root, r, Find(s, root, r).value, a);
    NamesAreNames(key, 0, |r|);
  }

  lemma {:induction false} NamesAreNames(key: Key, i: nat, k: nat)
    requires i <= |key| && k < |Names(key, i)|
    ensures Names(key, i)[k].Name?
    decreases |key| - i
  {
    if k > 0 {
      NamesAreNames(key, i + 1, k - 1);
    }
  }

  /** A key may be added to an inline table exactly when it is apart from each that is there. */
  lemma FreeIsApart(s: Store, table: nat, done: seq<Pair>, key: Key)
    requires Contents(s, table, done) && WaysOpen(s, table, done)
    ensures Free(s, table, [], Names(key, 0)) <==>
              forall k :: 0 <= k < |done| ==> !Comparable(Names(done[k].key, 0), Names(key, 0))
  {
    var target := Names(key, 0);
    if k :| 0 <= k < |done| && Comparable(Names(done[k].key, 0), target) {
      NotFree(s, table, done, k, target);
    } else {
      assert Written(done, target) ==> target == [];
      forall r: Path | [] < r < target && Find(s, table, r).Some? ensures IsTable(s, Find(s, table, r).value) {
        assert Written(done, r);
        var k :| 0 <= k < |done| && Comparable(r, Names(done[k].key, 0));
        assert r < Names(done[k].key, 0);
        assert WayOpen(s, table, Names(done[k].key, 0));
        NamedIsTable(s, table, done[k].key, r);
      }
    }
  }

  lemma NotFree(s: Store, table: nat, done: seq<Pair>, k: nat, target: Path)
    requires Contents(s, table, done) && k < |done| && Comparable(Names(done[k].key, 0), target)
    ensures !Free(s, table, [], target)
  {
    var q := Names(done[k].key, 0);
    HeldIsClosed(s, Find(s, table, q).value, done[k].value);
    if target <= q {
      FindPast(s, table, target, q);
    } else {
      assert [] < q < target;
    }
  }

  lemma KeysApartOn(done: seq<Pair>, pair: Pair)
    ensures KeysApart(done + [pair]) <==>
              KeysApart(done) && forall k :: 0 <= k < |done| ==> !Comparable(Names(done[k].key, 0), Names(pair.key, 0))
  {
    var all := done + [pair];
    if KeysApart(all) {
      forall j, k | 0 <= j < k < |done| ensures !Comparable(Names(done[j].key, 0), Names(done[k].key, 0)) {
        assert all[j] == done[j] && all[k] == done[k];
      }
      forall k | 0 <= k < |done| ensures !Comparable(Names(done[k].key, 0), Names(pair.key, 0)) {
        assert all[k] == done[k] && all[|done|] == pair;
      }
    }
  }

  lemma KeysApartFront(done: seq<Pair>, rest: seq<Pair>)
    requires KeysApart(done + rest)
    ensures KeysApart(done)
  {
    forall j, k | 0 <= j < k < |done| ensures !Comparable(Names(done[j].key, 0), Names(done[k].key, 0)) {
      assert (done + rest)[j] == done[j] && (done + rest)[k] == done[k];
    }
  }

  /** A value is read exactly when every inline table in it, at any depth, keeps its keys apart. */
  lemma {:induction false} ReadIffWellKeyed(s: Store, value: Value)
    requires Good(s)
    ensures Built(s, value).Some? <==> WellKeyed(value)
    decreases value
  {
    match value {
      case Text(_) =>
      case List(items) => ItemsReadIff(s, items, []);
      case Inline(pairs) =>
        var table := Table(map[], true, true);
        AllocAside(s, table);
        AllocGrows(s, table);
        forall r | Find(s + [table], |s|, r).Some? ensures Written([], r) {
          if r != [] { NothingBelow(s + [table], |s|, r); }
        }
        PairsReadIff(s + [table], |s|, pairs, []);
        assert [] + pairs == pairs;
    }
  }

  lemma {:induction false} ItemsReadIff(s: Store, items: seq<Value>, ids: seq<nat>)
    requires Good(s) && forall id :: id in ids ==> 0 < id < |s|
    ensures BuiltItems(s, items, ids).Some? <==> forall item :: item in items ==> WellKeyed(item)
    decreases items
  {
    if items != [] {
      ReadIffWellKeyed(s, items[0]);
      if Built(s, items[0]).Some? {
        BuildHolds(s, items[0]);
        var made := Built(s, items[0]).value;
        ItemsReadIff(made.store, items[1..], ids + [made.id]);
        assert items == [items[0]] + items[1..];
      }
    }
  }

  lemma {:induction false} PairsReadIff(s: Store, table: nat, pairs: seq<Pair>, done: seq<Pair>)
    requires Good(s) && 0 < table < |s| && Orphan(s, table)
    requires Contents(s, table, done) && WaysOpen(s, table, done) && KeysApart(done)
    ensures BuiltPairs(s, table, pairs).Some? <==> PairsWellKeyed(pairs) && KeysApart(done + pairs)
    decreases pairs
  {
    if pairs == [] {
      assert done + pairs == done;
    } else {
      var pair := pairs[0];
      ReadIffWellKeyed(s, pair.value);
      MoveFirst(done, pairs);
      assert pairs == [pair] + pairs[1..];
      if Built(s, pair.value).Some? {
        var made := Built(s, pair.value).value;
        BuildHolds(s, pair.value);
        assert Kept(s[table], made.store[table]);
        PairReadIff(s, table, done, pair, made);
        KeysApartOn(done, pair);
        var filled := Assigned(made.store, table, pair.key, 0, made.id);
        if filled.Some? {
          PairRead(s, table, done, pair, made);
          PairsReadIff(filled.value, table, pairs[1..], done + [pair]);
        } else if KeysApart(done + pairs) {
          KeysApartFront(done + [pair], pairs[1..]);
        }
      }
    }
  }

  lemma PairReadIff(s: Store, table: nat, done: seq<Pair>, pair: Pair, made: Made)
    requires Good(s) && 0 < table < |s| && Orphan(s, table) && Contents(s, table, done) && WaysOpen(s, table, done)
    requires Good(made.store) && Grown(s, made.store) && Aside(s, made.store, {}) && |s| <= made.id < |made.store|
    requires Orphan(made.store, made.id) && made.store[table].Table?
    ensures var filled := Assigned(made.store, table, pair.key, 0, made.id);
            && (filled.Some? <==>
                forall k :: 0 <= k < |done| ==> !Comparable(Names(done[k].key, 0), Names(pair.key, 0)))
            && (filled.Some? ==> WaysOpen(filled.value, table, done + [pair]))
  {
    var mid, target := made.store, Names(pair.key, 0);
    assert [] + target == target;
    HoldsKept(s, mid, table, Inline(done));
    WaysStayOpen(s, mid, table, done);
    AssignWalks(mid, table, pair.key, 0, made.id);
    WalkableIsFree(mid, table, [], table, pair.key, 0, target);
    FreeIsApart(mid, table, done, pair.key);
    var filled := Assigned(mid, table, pair.key, 0, made.id);
    if filled.Some? {
      AssignChanges(mid, table, [], table, pair.key, 0, made.id);
      WaysOpenOn(mid, filled.value, table, done, pair);
    }
  }
}
