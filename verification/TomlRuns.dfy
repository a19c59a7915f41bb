/** Whole documents: nothing set is lost or set again, and nothing appears that no statement wrote. */
module TomlRuns {
  import opened Common
  import opened Toml
  import opened TomlLaws
  import opened TomlAccepts

  ghost predicate Wf(s: Store) {
    Good(s) && s[0].Table? && !s[0].inline
  }

  /** The current table is at the path `here`, and every step to it may be added to. */
  ghost predicate At(m: Made, here: Path) {
    && Wf(m.store) && m.id < |m.store| && m.store[m.id].Table?
    && Find(m.store, 0, here) == Some(m.id) && OpenWay(m.store, 0, here)
  }

  lemma StartIsAtRoot()
    ensures At(START, []) && forall r :: Find(START.store, 0, r).Some? ==> r == []
  {
    forall r: Path | r != [] ensures Find(START.store, 0, r).None? {
      NothingBelow(START.store, 0, r);
    }
  }

  lemma RootIsOrphan(s: Store)
    requires Closed(s)
    ensures Orphan(s, 0)
  {
    forall u: nat, a ensures Next(s, u, a) != Some(0) {
    }
  }

  // ----- one statement -----

  /** A key is set where nothing was, its value is there as written, and the rest is as it was. */
  lemma SetStep(m: Made, here: Path, key: Key, value: Value)
    requires At(m, here) && Stepped(m, Set(key, value)).Some?
    ensures var m' := Stepped(m, Set(key, value)).value;
            var target := here + Names(key, 0);
            && At(m', here) && Changed(m.store, m'.store, 0, target)
            && Find(m'.store, 0, target).Some? && Holds(m'.store, Find(m'.store, 0, target).value, value)
  {
    var made := Built(m.store, value).value;
    var s' := Stepped(m, Set(key, value)).value.store;
    var target := here + Names(key, 0);
    BuildHolds(m.store, value);
    RootIsOrphan(m.store);
    RootIsOrphan(made.store);
    assert SameTree(m.store, made.store, 0);
    assert Kept(m.store[m.id], made.store[m.id]) && Kept(m.store[0], made.store[0]);
    FindGrows(m.store, made.store, 0, here);
    OpenWayGrows(m.store, made.store, 0, here);
    AssignChanges(made.store, 0, here, m.id, key, 0, made.id);
    AssignSane(made.store, m.id, key, 0, made.id);
    TargetHolds(made.store, s', 0, target, made.id, value);
    forall r ensures Change(m.store, s', 0, target, r) {
      assert Change(made.store, s', 0, target, r) && Find(made.store, 0, r) == Find(m.store, 0, r);
    }
    FindGrows(made.store, s', 0, here);
    OpenWayGrows(made.store, s', 0, here);
    assert Kept(made.store[m.id], s'[m.id]) && Kept(made.store[0], s'[0]);
  }

  /**
   * A key is accepted exactly when no inline table in its value sets a key twice or sets one below
   * another, nothing is at its path yet, and whatever is on the way is a table: which statement made
   * that table, and in which form, plays no part.
   */
  lemma SetAccepted(m: Made, here: Path, key: Key, value: Value)
    requires At(m, here)
    ensures var target := here + Names(key, 0);
            Stepped(m, Set(key, value)).Some? <==> WellKeyed(value) && Free(m.store, 0, here, target)
  {
    ReadIffWellKeyed(m.store, value);
    if Built(m.store, value).Some? {
      var made := Built(m.store, value).value;
      var target := here + Names(key, 0);
      BuildHolds(m.store, value);
      RootIsOrphan(m.store);
      assert SameTree(m.store, made.store, 0);
      assert Kept(m.store[m.id], made.store[m.id]);
      FindGrows(m.store, made.store, 0, here);
      AssignWalks(made.store, m.id, key, 0, made.id);
      WalkableIsFree(made.store, 0, here, m.id, key, 0, target);
      FreeSame(m.store, made.store, 0, here, target);
    }
  }

  /** A document that adds by a dotted key to a table that a header made, which TOML refuses. */
  lemma DottedKeyIntoHeaderTable()
    ensures Followed(START, [Header(["a", "b"], false), Header(["a"], false), Set(["b", "x"], Text("1"))]).Some?
  {
    var statements := [Header(["a", "b"], false), Header(["a"], false), Set(["b", "x"], Text("1"))];
    var one := Stepped(START, statements[0]).value;
    var two := Stepped(one, statements[1]).value;
    assert statements[1..][1..] == [statements[2]] && [statements[2]][1..] == [];
    var made := Built(two.store, Text("1")).value;
  }

  /** Off the way, nothing is different. */
  ghost predicate Reached(s: Store, s': Store, way: Path) {
    forall r :: !(r <= way) ==> Find(s', 0, r) == Find(s, 0, r)
  }

  /** The way has the key's names in order, and goes through the last item of each array of tables. */
  ghost predicate Spells(s: Store, way: Path, key: seq<string>)
    decreases |way|
  {
    if way == [] then key == []
    else
      var front, last := way[..|way| - 1], way[|way| - 1];
      if last.Name? then key != [] && key[|key| - 1] == last.key && Spells(s, front, key[..|key| - 1])
      else
        var list := Find(s, 0, front);
        && list.Some? && list.value < |s| && s[list.value].Tables? && last.index == |s[list.value].items| - 1
        && Spells(s, front, key)
  }

  lemma SpellsOn(s: Store, way: Path, key: seq<string>, name: string)
    requires Spells(s, way, key)
    ensures Spells(s, way + [Name(name)], key + [name])
  {
    var on := way + [Name(name)];
    assert on[..|on| - 1] == way && (key + [name])[..|key + [name]| - 1] == key;
  }

  lemma SpellsItem(s: Store, way: Path, key: seq<string>, list: nat, k: nat)
    requires Spells(s, way, key) && Find(s, 0, way) == Some(list) && list < |s|
    requires s[list].Tables? && k == |s[list].items| - 1
    ensures Spells(s, way + [Item(k)], key)
  {
    var on := way + [Item(k)];
    assert on[..|on| - 1] == way;
  }

  /** A way still spells its key when no array of tables on it has gained an item. */
  lemma {:induction false} SpellsKept(s: Store, s': Store, way: Path, key: seq<string>, but: nat)
    requires Spells(s, way, key) && Grown(s, s')
    requires forall list :: 0 <= list < |s| && list != but && s[list].Tables? ==> s'[list] == s[list]
    requires but < |s| ==> forall r :: r < way ==> Find(s, 0, r) != Some(but)
    ensures Spells(s', way, key)
    decreases |way|
  {
    if way != [] {
      var front, last := way[..|way| - 1], way[|way| - 1];
      SpellsKept(s, s', front, if last.Name? then key[..|key| - 1] else key, but);
      if last.Item? {
        FindGrows(s, s', 0, front);
      }
    }
  }

  // ----- one header -----

  ghost predicate Placed(s: Store, at: nat, way: Path) {
    Wf(s) && at < |s| && s[at].Table? && Find(s, 0, way) == Some(at) && OpenWay(s, 0, way)
  }

  lemma ReachedByGraft(s: Store, s': Store, p: Path, a: Step, id: nat)
    requires Changed(s, s', 0, p + [a]) && Hangs(s, s', 0, p + [a], id) && forall r :: r != [] ==> Find(s, id, r).None?
    ensures Reached(s, s', p + [a])
  {
    forall r | !(r <= p + [a]) ensures Find(s', 0, r) == Find(s, 0, r) {
      assert Change(s, s', 0, p + [a], r);
      if p + [a] <= r {
        assert r[|p + [a]|..] != [];
      }
    }
  }

  lemma NewPlaced(s: Store, s': Store, p: Path, a: Step, id: nat)
    requires Changed(s, s', 0, p + [a]) && Hangs(s, s', 0, p + [a], id) && Grown(s, s') && OpenWay(s, 0, p)
    requires id < |s'| && Open(s', id) && forall r :: r != [] ==> Find(s, id, r).None?
    ensures Find(s', 0, p + [a]) == Some(id) && OpenWay(s', 0, p + [a]) && Reached(s, s', p + [a])
  {
    assert (p + [a])[|p + [a]|..] == [];
    assert Find(s', 0, p + [a]) == Find(s, id, []);
    OpenWayGrows(s, s', 0, p);
    OpenWayOn(s', 0, p, a);
    ReachedByGraft(s, s', p, a, id);
  }

  /** A new table under a name that had none. */
  lemma LinkPlaced(s: Store, p: Path, at: nat, name: string, table: Node)
    requires Placed(s, at, p) && name !in s[at].entries && table.Table? && table.entries == map[] && !table.inline
    ensures var s' := Link(s + [table], at, name, |s|);
            Closed(s') && Grown(s, s') && Placed(s', |s|, p + [Name(name)]) && Reached(s, s', p + [Name(name)])
  {
    var s' := Link(s + [table], at, name, |s|);
    var a := Name(name);
    LinkFresh(s, at, name, table);
    FreshIsOrphan(s, |s|);
    RootIsOrphan(s);
    GraftChanges(s, s', 0, p, at, a, |s|);
    GraftShape(s, s', at, a, |s|);
    NewPlaced(s, s', p, a, |s|);
  }

  lemma ReachedFurther(s: Store, mid: Store, s': Store, first: Path, way: Path)
    requires Reached(s, mid, first) && Reached(mid, s', way) && first <= way
    ensures Reached(s, s', way)
  {
    forall r | !(r <= way) ensures Find(s', 0, r) == Find(s, 0, r) {
      assert !(r <= first);
    }
  }

  /** The step through a name that is there, and on to the last item if that is an array of tables. */
  lemma NameStep(s: Store, p: Path, at: nat, name: string, key: seq<string>) returns (way: Path)
    requires Placed(s, at, p) && Spells(s, p, key) && name in s[at].entries
    requires var next := LastItem(s, Next(s, at, Name(name)).value); s[next].Table? && !s[next].inline
    ensures Placed(s, LastItem(s, Next(s, at, Name(name)).value), way) && p < way && Spells(s, way, key + [name])
  {
    var a := Name(name);
    var seen := Next(s, at, a).value;
    FindOn(s, 0, p, [a]);
    OpenWayOn(s, 0, p, a);
    SpellsOn(s, p, key, name);
    way := p + [a];
    if s[seen].Tables? {
      var k: nat := |s[seen].items| - 1;
      assert Find(s, 0, way) == Some(seen);
      FindOn(s, 0, way, [Item(k)]);
      OpenWayOn(s, 0, way, Item(k));
      SpellsItem(s, way, key + [name], seen, k);
      way := way + [Item(k)];
    }
  }

  /** The step through a name that is not there, which makes its table. */
  lemma MadeStep(s: Store, p: Path, at: nat, name: string, key: seq<string>, mid: Store)
    requires Placed(s, at, p) && Spells(s, p, key) && name !in s[at].entries
    requires mid == Link(s + [Table(map[], false, false)], at, name, |s|)
    ensures Closed(mid) && Grown(s, mid) && Placed(mid, |s|, p + [Name(name)]) && Reached(s, mid, p + [Name(name)])
    ensures Spells(mid, p + [Name(name)], key + [name])
  {
    LinkPlaced(s, p, at, name, Table(map[], false, false));
    SpellsKept(s, mid, p, key, |s|);
    SpellsOn(mid, p, key, name);
  }

  lemma {:induction false} DescendStep(s: Store, p: Path, at: nat, key: Key, i: nat) returns (way: Path)
    requires Placed(s, at, p) && i < |key| && Spells(s, p, key[..i]) && Descended(s, at, key, i).Some?
    ensures var made := Descended(s, at, key, i).value;
            && Placed(made.store, made.id, way) && Reached(s, made.store, way)
            && Spells(made.store, way, key[..|key| - 1]) && p <= way
    decreases |key| - i
  {
    if i == |key| - 1 {
      way := p;
    } else {
      assert key[..i + 1] == key[..i] + [key[i]];
      if key[i] !in s[at].entries {
        var mid := Link(s + [Table(map[], false, false)], at, key[i], |s|);
        MadeStep(s, p, at, key[i], key[..i], mid);
        way := DescendStep(mid, p + [Name(key[i])], |s|, key, i + 1);
        ReachedFurther(s, mid, Descended(s, at, key, i).value.store, p + [Name(key[i])], way);
      } else {
        assert Next(s, at, Name(key[i])) == Some(s[at].entries[key[i]]);
        way := NameStep(s, p, at, key[i], key[..i]);
        way := DescendStep(s, way, LastItem(s, s[at].entries[key[i]]), key, i + 1);
      }
    }
  }

  /** What a header's last part leaves: a defined current table that no header had opened before. */
  ghost predicate OpenedAt(s: Store, made: Made, p: Path, way: Path, doubled: bool) {
    && Placed(made.store, made.id, way) && Reached(s, made.store, way) && p < way
    && made.store[made.id].defined && (made.id < |s| ==> s[made.id].Table? && !s[made.id].defined)
    && (doubled ==> made.id >= |s|)
    && (way[|way| - 1].Item? <==> doubled)
  }

  /** The array of tables has this one empty table in it. */
  ghost predicate HoldsOne(s: Store, list: nat, item: nat) {
    forall tail ::
      Find(s, list, tail) == if tail == [] then Some(list) else if tail == [Item(0)] then Some(item) else None
  }

  /** A new array with one new table in it, before anything refers to the array. */
  lemma ArrayAlone(s: Store, p: Path, at: nat)
    requires Placed(s, at, p)
    ensures var list := |s| + 1;
            var mid := s + [Table(map[], true, false)] + [Tables([|s|])];
            && Good(mid) && Grown(s, mid) && Orphan(mid, list) && Orphan(mid, 0) && SameTree(s, mid, 0)
            && Find(mid, 0, p) == Some(at) && OpenWay(mid, 0, p)
            && HoldsOne(mid, list, |s|)
  {
    var list := |s| + 1;
    var wider := s + [Table(map[], true, false)];
    var mid := wider + [Tables([|s|])];
    AllocGrows(s, Table(map[], true, false));
    AllocGrows(wider, Tables([|s|]));
    GrownTransitive(s, wider, mid);
    FreshIsOrphan(s, |s|);
    FreshIsOrphan(s, list);
    RootIsOrphan(s);
    assert Grafted(s, mid, list, Item(0), |s|);
    GraftShape(s, mid, list, Item(0), |s|);
    forall r ensures Find(mid, 0, r) == Find(s, 0, r) {
      GraftAside(s, mid, list, [], list, Item(0), |s|, 0, r);
    }
    forall tail
      ensures Find(mid, list, tail) == if tail == [] then Some(list) else if tail == [Item(0)] then Some(|s|) else None
    {
      GraftFind(s, mid, list, [], list, Item(0), |s|, tail);
      assert [] + [Item(0)] == [Item(0)] && (|tail| > 1 ==> tail[1..] != []);
    }
    OpenWayGrows(s, mid, 0, p);
  }

  lemma FirstOfArray(s: Store, p: Path, at: nat, name: string, key: seq<string>, mid: Store, s': Store)
    requires Placed(s, at, p) && Spells(s, p, key) && name !in s[at].entries
    requires mid == s + [Table(map[], true, false)] + [Tables([|s|])] && s' == Link(mid, at, name, |s| + 1)
    ensures var way := p + [Name(name)] + [Item(0)];
            OpenedAt(s, Made(s', |s|), p, way, true) && Spells(s', way, key + [name])
  {
    var a, list := Name(name), |s| + 1;
    ArrayAlone(s, p, at);
    LinkGrows(mid, at, name, list);
    GraftChanges(mid, s', 0, p, at, a, list);
    GraftShape(mid, s', at, a, list);
    FirstPlaced(s, mid, s', p, a, list);
    FirstSpells(s, s', p, name, key, list);
  }

  lemma FirstSpells(s: Store, s': Store, p: Path, name: string, key: seq<string>, list: nat)
    requires Spells(s, p, key) && Grown(s, s')
    requires forall n :: 0 <= n < |s| && s[n].Tables? ==> s'[n] == s[n]
    requires Find(s', 0, p + [Name(name)]) == Some(list) && list < |s'| && s'[list].Tables? && |s'[list].items| == 1
    ensures Spells(s', p + [Name(name)] + [Item(0)], key + [name])
  {
    SpellsKept(s, s', p, key, |s|);
    SpellsOn(s', p, key, name);
    SpellsItem(s', p + [Name(name)], key + [name], list, 0);
  }

  lemma FirstPlaced(s: Store, mid: Store, s': Store, p: Path, a: Step, list: nat)
    requires Changed(mid, s', 0, p + [a]) && Hangs(mid, s', 0, p + [a], list) && SameTree(s, mid, 0)
    requires list == |s| + 1 < |s'| && s'[list].Tables? && Open(s', |s|) && Grown(mid, s') && OpenWay(mid, 0, p)
    requires HoldsOne(mid, list, |s|)
    ensures Find(s', 0, p + [a]) == Some(list) && Find(s', 0, p + [a] + [Item(0)]) == Some(|s|)
    ensures Reached(s, s', p + [a] + [Item(0)]) && OpenWay(s', 0, p + [a] + [Item(0)])
  {
    var way := p + [a] + [Item(0)];
    assert (p + [a])[|p + [a]|..] == [] && way[|p + [a]|..] == [Item(0)];
    assert Find(s', 0, p + [a]) == Find(mid, list, []);
    assert Find(s', 0, way) == Find(mid, list, [Item(0)]);
    OpenWayGrows(mid, s', 0, p);
    OpenWayOn(s', 0, p, a);
    OpenWayOn(s', 0, p + [a], Item(0));
    forall r | !(r <= way) ensures Find(s', 0, r) == Find(s, 0, r) {
      FirstReached(s, mid, s', p + [a], list, r);
    }
  }

  lemma FirstReached(s: Store, mid: Store, s': Store, first: Path, list: nat, r: Path)
    requires Changed(mid, s', 0, first) && Hangs(mid, s', 0, first, list) && SameTree(s, mid, 0)
    requires HoldsOne(mid, list, |s|) && !(r <= first + [Item(0)])
    ensures Find(s', 0, r) == Find(s, 0, r)
  {
    assert Change(mid, s', 0, first, r) && Find(mid, 0, r) == Find(s, 0, r);
    if first <= r {
      var tail := r[|first|..];
      assert r == first + tail;
      assert tail != [] && tail != [Item(0)];
    }
  }

  lemma NextOfArray(s: Store, p: Path, at: nat, name: string, key: seq<string>, seen: nat, s': Store)
    requires Placed(s, at, p) && Spells(s, p, key)
    requires Next(s, at, Name(name)) == Some(seen) && seen < |s| && s[seen].Tables?
    requires s' == Push(s + [Table(map[], true, false)], seen, |s|)
    ensures var way := p + [Name(name)] + [Item(|s[seen].items|)];
            OpenedAt(s, Made(s', |s|), p, way, true) && Spells(s', way, key + [name])
  {
    var a, k := Name(name), |s[seen].items|;
    var named := p + [a];
    AllocGrows(s, Table(map[], true, false));
    PushGrows(s + [Table(map[], true, false)], seen, |s|);
    GrownTransitive(s, s + [Table(map[], true, false)], s');
    FreshIsOrphan(s, |s|);
    RootIsOrphan(s);
    FindOn(s, 0, p, [a]);
    OpenWayOn(s, 0, p, a);
    assert Grafted(s, s', seen, Item(k), |s|);
    GraftChanges(s, s', 0, named, seen, Item(k), |s|);
    GraftShape(s, s', seen, Item(k), |s|);
    NewPlaced(s, s', named, Item(k), |s|);
    SpellsOn(s, p, key, name);
    NextSpells(s, s', named, key + [name], seen, k);
  }

  lemma NextSpells(s: Store, s': Store, named: Path, key: seq<string>, seen: nat, k: nat)
    requires Closed(s) && OneParent(s) && Grown(s, s') && Spells(s, named, key) && Find(s, 0, named) == Some(seen) &&
             seen < |s|
    requires s'[seen].Tables? && |s'[seen].items| == k + 1
    requires forall list :: 0 <= list < |s| && list != seen && s[list].Tables? ==> s'[list] == s[list]
    ensures Spells(s', named + [Item(k)], key)
  {
    RootIsOrphan(s);
    forall r: Path | r < named ensures Find(s, 0, r) != Some(seen) {
      if Find(s, 0, r) == Some(seen) {
        OnePath(s, 0, r, 0, named);
      }
    }
    SpellsKept(s, s', named, key, seen);
    FindGrows(s, s', 0, named);
    SpellsItem(s', named, key, seen, k);
  }

  lemma OpenStep(s: Store, p: Path, at: nat, name: string, doubled: bool, key: seq<string>) returns (way: Path)
    requires Placed(s, at, p) && Spells(s, p, key) && Opened(s, at, name, doubled).Some?
    ensures var made := Opened(s, at, name, doubled).value;
            OpenedAt(s, made, p, way, doubled) && Spells(made.store, way, key + [name])
  {
    var a := Name(name);
    var s' := Opened(s, at, name, doubled).value.store;
    way := p + [a];
    if name !in s[at].entries {
      if doubled {
        FirstOfArray(s, p, at, name, key, s + [Table(map[], true, false)] + [Tables([|s|])], s');
        way := way + [Item(0)];
      } else {
        LinkPlaced(s, p, at, name, Table(map[], true, false));
        SpellsKept(s, s', p, key, |s|);
        SpellsOn(s', p, key, name);
      }
    } else {
      var seen := s[at].entries[name];
      assert Next(s, at, a) == Some(seen);
      if doubled {
        NextOfArray(s, p, at, name, key, seen, s');
        way := way + [Item(|s[seen].items|)];
      } else {
        DefinedPlaced(s, p, at, name, key);
      }
    }
  }

  lemma SameEdges(s: Store, s': Store)
    requires OneParent(s) && forall u: nat, a :: Next(s', u, a) == Next(s, u, a)
    ensures OneParent(s')
  {
  }

  lemma DefinedPlaced(s: Store, p: Path, at: nat, name: string, key: seq<string>)
    requires Placed(s, at, p) && Spells(s, p, key) && name in s[at].entries && Opened(s, at, name, false).Some?
    ensures var made := Opened(s, at, name, false).value;
            OpenedAt(s, made, p, p + [Name(name)], false) && Spells(made.store, p + [Name(name)], key + [name])
  {
    var a, seen := Name(name), s[at].entries[name];
    var s' := Opened(s, at, name, false).value.store;
    assert Next(s, at, a) == Some(seen);
    DefineGrows(s, seen);
    FindOn(s, 0, p, [a]);
    OpenWayOn(s, 0, p, a);
    OpenWayGrows(s, s', 0, p + [a]);
    SameEdges(s, s');
    forall r ensures Find(s', 0, r) == Find(s, 0, r) {
      FindSame(s, s', 0, r);
    }
    SpellsOn(s, p, key, name);
    SpellsKept(s, s', p + [a], key + [name], |s|);
  }

  /**
   * A header makes current the table that its parts spell. The table was not there or had no header
   * of its own yet, each `[[header]]` starts a new one, and off the way to it nothing is different.
   */
  lemma HeaderStep(m: Made, here: Path, key: Key, doubled: bool) returns (way: Path)
    requires At(m, here) && Stepped(m, Header(key, doubled)).Some?
    ensures var m' := Stepped(m, Header(key, doubled)).value;
            && At(m', way) && Spells(m'.store, way, key) && Reached(m.store, m'.store, way)
            && m'.store[m'.id].defined && (m'.id < |m.store| ==> m.store[m'.id].Table? && !m.store[m'.id].defined)
            && (doubled ==> m'.id >= |m.store|) && way != [] && (way[|way| - 1].Item? <==> doubled)
  {
    var mid := Descended(m.store, 0, key, 0).value;
    var m' := Stepped(m, Header(key, doubled)).value;
    var front, last := key[..|key| - 1], key[|key| - 1];
    assert front + [last] == key;
    var p := DescendStep(m.store, [], 0, key, 0);
    way := OpenStep(mid.store, p, mid.id, last, doubled, front);
    ReachedFurther(m.store, mid.store, m'.store, p, way);
    if m'.id < |m.store| {
      assert Kept(m.store[m'.id], mid.store[m'.id]);
    }
  }

  // ----- whole documents -----

  lemma StatementStep(m: Made, here: Path, statement: Statement) returns (way: Path)
    requires At(m, here) && Stepped(m, statement).Some?
    ensures At(Stepped(m, statement).value, way)
    ensures forall r :: Find(Stepped(m, statement).value.store, 0, r).Some? && Find(m.store, 0, r).None? ==>
              Comparable(r, if statement.Set? then here + Names(statement.key, 0) else way)
    ensures forall p, id: nat :: p != [] && Find(m.store, 0, p) == Some(id) && id < |m.store| && !Open(m.store, id) ==>
              SameTree(m.store, Stepped(m, statement).value.store, id)
  {
    var m' := Stepped(m, statement).value;
    match statement {
      case Set(key, value) =>
        way := here;
        SetStep(m, here, key, value);
        forall r | Find(m'.store, 0, r).Some? && Find(m.store, 0, r).None? ensures Comparable(r, here + Names(key, 0)) {
          assert Change(m.store, m'.store, 0, here + Names(key, 0), r);
        }
        forall p, id: nat | p != [] && Find(m.store, 0, p) == Some(id) && id < |m.store| && !Open(m.store, id)
          ensures SameTree(m.store, m'.store, id)
        {
          Sealed(m.store, m'.store, 0, here + Names(key, 0), p, id);
        }
      case Header(key, doubled) =>
        way := HeaderStep(m, here, key, doubled);
        forall p, id: nat | p != [] && Find(m.store, 0, p) == Some(id) && id < |m.store| && !Open(m.store, id)
          ensures SameTree(m.store, m'.store, id)
        {
          SealedByHeader(m.store, m'.store, way, p, id);
        }
    }
  }

  lemma SealedByHeader(s: Store, s': Store, way: Path, p: Path, id: nat)
    requires Grown(s, s') && Reached(s, s', way) && OpenWay(s', 0, way)
    requires p != [] && Find(s, 0, p) == Some(id) && id < |s| && !Open(s, id)
    ensures SameTree(s, s', id)
  {
    FindGrows(s, s', 0, p);
    assert Kept(s[id], s'[id]);
    assert !(p <= way);
    forall r ensures Find(s', id, r) == Find(s, id, r) {
      FindOn(s, 0, p, r);
      FindOn(s', 0, p, r);
      PrefixOn(way, p, r);
    }
  }

  /** The states that an accepted document goes through. */
  ghost predicate Run(trace: seq<Made>, statements: seq<Statement>) {
    && |trace| == |statements| + 1 && (forall i :: 0 <= i < |trace| ==> Ready(trace[i]))
    && forall i :: 0 <= i < |statements| ==> Stepped(trace[i], statements[i]) == Some(trace[i + 1])
  }

  ghost predicate Document(trace: seq<Made>, statements: seq<Statement>) {
    Run(trace, statements) && trace[0] == START
  }

  /** Statements are accepted exactly when there is such a run, and it ends where they leave off. */
  lemma {:induction false} FollowedIsRun(m: Made, statements: seq<Statement>) returns (trace: seq<Made>)
    requires Ready(m)
    ensures Followed(m, statements).Some? ==>
              Run(trace, statements) && trace[0] == m && trace[|statements|] == Followed(m, statements).value
    decreases statements
  {
    if statements == [] {
      trace := [m];
    } else if Stepped(m, statements[0]).None? {
      trace := [];
    } else {
      var next := Stepped(m, statements[0]).value;
      var rest := FollowedIsRun(next, statements[1..]);
      trace := [m] + rest;
      if Followed(next, statements[1..]).Some? {
        assert statements == [statements[0]] + statements[1..];
        RunOn(m, statements[0], rest, statements[1..]);
      }
    }
  }

  lemma RunOn(m: Made, first: Statement, trace: seq<Made>, statements: seq<Statement>)
    requires Ready(m) && Run(trace, statements) && Stepped(m, first) == Some(trace[0])
    ensures Run([m] + trace, [first] + statements)
  {
    var all, text := [m] + trace, [first] + statements;
    forall i | 0 <= i < |text| ensures Stepped(all[i], text[i]) == Some(all[i + 1]) {
      if i > 0 {
        assert all[i] == trace[i - 1] && all[i + 1] == trace[i] && text[i] == statements[i - 1];
      }
    }
  }

  lemma {:induction false} RunIsFollowed(trace: seq<Made>, statements: seq<Statement>)
    requires Run(trace, statements)
    ensures Followed(trace[0], statements) == Some(trace[|statements|])
    decreases statements
  {
    if statements != [] {
      assert Stepped(trace[0], statements[0]) == Some(trace[1]);
      forall i | 0 <= i < |statements[1..]|
        ensures Stepped(trace[1..][i], statements[1..][i]) == Some(trace[1..][i + 1])
      {
        assert Stepped(trace[i + 1], statements[i + 1]) == Some(trace[i + 2]);
      }
      RunIsFollowed(trace[1..], statements[1..]);
    }
  }

  /** A document is accepted with a given outcome exactly when it has a run that ends there. */
  lemma AcceptedIsDocument(statements: seq<Statement>, last: Made)
    ensures Followed(START, statements) == Some(last) <==>
            exists trace :: Document(trace, statements) && trace[|statements|] == last
  {
    if Followed(START, statements) == Some(last) {
      var trace := FollowedIsRun(START, statements);
      assert Document(trace, statements) && trace[|statements|] == last;
    } else if exists trace :: Document(trace, statements) && trace[|statements|] == last {
      var trace :| Document(trace, statements) && trace[|statements|] == last;
      RunIsFollowed(trace, statements);
    }
  }

  lemma DocumentIsAccepted(statements: seq<Statement>)
    ensures Followed(START, statements).Some? <==> exists trace :: Document(trace, statements)
    ensures Followed(START, statements).Some? ==>
              exists trace :: Document(trace, statements) && trace[|statements|] == Followed(START, statements).value
  {
    if Followed(START, statements).Some? {
      AcceptedIsDocument(statements, Followed(START, statements).value);
    } else if exists trace :: Document(trace, statements) {
      var trace :| Document(trace, statements);
      AcceptedIsDocument(statements, trace[|statements|]);
    }
  }

  lemma {:induction false} Standing(trace: seq<Made>, statements: seq<Statement>, i: nat) returns (here: Path)
    requires Document(trace, statements) && i < |trace|
    ensures At(trace[i], here)
  {
    if i == 0 {
      StartIsAtRoot();
      here := [];
    } else {
      here := Standing(trace, statements, i - 1);
      assert Stepped(trace[i - 1], statements[i - 1]) == Some(trace[i]);
      here := StatementStep(trace[i - 1], here, statements[i - 1]);
    }
  }

  /** The current table has exactly one path. */
  lemma WhereItStands(trace: seq<Made>, statements: seq<Statement>, i: nat) returns (here: Path)
    requires Document(trace, statements) && i < |trace|
    ensures At(trace[i], here) && forall p :: At(trace[i], p) ==> p == here
  {
    here := Standing(trace, statements, i);
    forall p | At(trace[i], p) ensures p == here {
      OnlyPlace(trace[i], here, p);
    }
  }

  lemma OnlyPlace(m: Made, here: Path, p: Path)
    requires At(m, here) && At(m, p)
    ensures p == here
  {
    RootIsOrphan(m.store);
    OnePath(m.store, 0, p, 0, here);
  }

  /** The node at the path is still there; if it is a value, nothing below it differs. */
  ghost predicate Stays(s: Store, s': Store, p: Path, id: nat) {
    && id < |s| && Grown(s, s') && Find(s, 0, p) == Some(id) && Find(s', 0, p) == Some(id) && Kept(s[id], s'[id])
    && (!Open(s, id) ==> SameTree(s, s', id))
  }

  lemma StepKeeps(m: Made, here: Path, statement: Statement, m': Made, p: Path, id: nat)
    requires At(m, here) && Stepped(m, statement) == Some(m') && Find(m.store, 0, p) == Some(id) && id < |m.store|
    ensures Stays(m.store, m'.store, p, id)
  {
    var _ := StatementStep(m, here, statement);
    FindGrows(m.store, m'.store, 0, p);
    assert !Open(m.store, id) ==> p != [];
  }

  lemma StaysPut(s: Store, p: Path, id: nat)
    requires Find(s, 0, p) == Some(id) && id < |s|
    ensures Stays(s, s, p, id)
  {
    GrownReflexive(s);
  }

  lemma StaysFurther(a: Store, b: Store, c: Store, p: Path, id: nat)
    requires Stays(a, b, p, id) && Stays(b, c, p, id)
    ensures Stays(a, c, p, id)
  {
    GrownTransitive(a, b, c);
    if !Open(a, id) {
      forall r ensures Find(c, id, r) == Find(a, id, r) {
        assert Find(b, id, r) == Find(a, id, r);
      }
    }
  }

  lemma NextStays(trace: seq<Made>, statements: seq<Statement>, i: nat, p: Path, id: nat)
    requires Document(trace, statements) && i < |statements|
    requires Find(trace[i].store, 0, p) == Some(id) && id < |trace[i].store|
    ensures Stays(trace[i].store, trace[i + 1].store, p, id)
  {
    var here := Standing(trace, statements, i);
    assert Stepped(trace[i], statements[i]) == Some(trace[i + 1]);
    StepKeeps(trace[i], here, statements[i], trace[i + 1], p, id);
  }

  lemma StaysOneMore(trace: seq<Made>, statements: seq<Statement>, i: nat, j: nat, p: Path, id: nat)
    requires Document(trace, statements) && i <= j < |statements|
    requires Stays(trace[i].store, trace[j].store, p, id)
    ensures Stays(trace[i].store, trace[j + 1].store, p, id)
  {
    NextStays(trace, statements, j, p, id);
    StaysFurther(trace[i].store, trace[j].store, trace[j + 1].store, p, id);
  }

  /**
   * What is there stays: the same node at the same path, with what it had; and a scalar, an array
   * value or an inline table gains nothing, at any depth.
   */
  lemma {:induction false} AppendOnly(trace: seq<Made>, statements: seq<Statement>, i: nat, j: nat, p: Path, id: nat)
    requires Document(trace, statements) && i <= j < |trace|
    requires Find(trace[i].store, 0, p) == Some(id) && id < |trace[i].store|
    ensures Stays(trace[i].store, trace[j].store, p, id)
    decreases j - i
  {
    if i < j {
      AppendOnly(trace, statements, i, j - 1, p, id);
      StaysOneMore(trace, statements, i, j - 1, p, id);
    } else {
      StaysPut(trace[i].store, p, id);
    }
  }

  /** Every value that is set is there from then on, at its own path, exactly as written. */
  lemma NothingIsLost(trace: seq<Made>, statements: seq<Statement>, i: nat, j: nat, here: Path)
    requires Document(trace, statements) && i < j < |trace| && statements[i].Set? && At(trace[i], here)
    ensures var target, last := here + Names(statements[i].key, 0), trace[j].store;
            && Find(trace[i].store, 0, target).None?
            && Find(last, 0, target).Some? && Holds(last, Find(last, 0, target).value, statements[i].value)
  {
    var target, value := here + Names(statements[i].key, 0), statements[i].value;
    assert Stepped(trace[i], statements[i]) == Some(trace[i + 1]);
    SetStep(trace[i], here, statements[i].key, value);
    assert Change(trace[i].store, trace[i + 1].store, 0, target, target);
    var id := Find(trace[i + 1].store, 0, target).value;
    HeldIsClosed(trace[i + 1].store, id, value);
    AppendOnly(trace, statements, i + 1, j, target, id);
    HoldsKept(trace[i + 1].store, trace[j].store, id, value);
  }

  /** No two values are set at one path, nor one at a path that leads on from the other's. */
  lemma SetOnce(trace: seq<Made>, statements: seq<Statement>, i: nat, j: nat, p: Path, q: Path)
    requires Document(trace, statements) && i < j < |statements| && statements[i].Set? && statements[j].Set?
    requires At(trace[i], p) && At(trace[j], q)
    ensures !Comparable(p + Names(statements[i].key, 0), q + Names(statements[j].key, 0))
  {
    NothingIsLost(trace, statements, i, j, p);
    assert Names(statements[i].key, 0) != [];
    assert Stepped(trace[j], statements[j]) == Some(trace[j + 1]);
    SetApart(trace[j], p + Names(statements[i].key, 0), statements[i].value, q, statements[j]);
  }

  lemma SetApart(m: Made, one: Path, value: Value, q: Path, second: Statement)
    requires At(m, q) && second.Set? && Stepped(m, second).Some?
    requires one != [] && Find(m.store, 0, one).Some? && Holds(m.store, Find(m.store, 0, one).value, value)
    ensures !Comparable(one, q + Names(second.key, 0))
  {
    var id := Find(m.store, 0, one).value;
    SetStep(m, q, second.key, second.value);
    HeldIsClosed(m.store, id, value);
    Sealed(m.store, Stepped(m, second).value.store, 0, q + Names(second.key, 0), one, id);
  }

  lemma HeaderOpens(m: Made, here: Path, statement: Statement, m': Made)
    requires At(m, here) && statement.Header? && Stepped(m, statement) == Some(m')
    ensures m'.id < |m'.store| && m'.store[m'.id].Table? && m'.store[m'.id].defined
    ensures m'.id < |m.store| ==> m.store[m'.id].Table? && !m.store[m'.id].defined
  {
    var _ := HeaderStep(m, here, statement.key, statement.doubled);
  }

  /** No table is opened by two headers. */
  lemma OpenedOnce(trace: seq<Made>, statements: seq<Statement>, i: nat, j: nat)
    requires Document(trace, statements) && i < j < |statements| && statements[i].Header? && statements[j].Header?
    ensures trace[i + 1].id != trace[j + 1].id
  {
    var here := Standing(trace, statements, i);
    assert Stepped(trace[i], statements[i]) == Some(trace[i + 1]) &&
           Stepped(trace[j], statements[j]) == Some(trace[j + 1]);
    HeaderOpens(trace[i], here, statements[i], trace[i + 1]);
    var way := Standing(trace, statements, i + 1);
    AppendOnly(trace, statements, i + 1, j, way, trace[i + 1].id);
    var there := Standing(trace, statements, j);
    HeaderOpens(trace[j], there, statements[j], trace[j + 1]);
  }

  /** The statement wrote at the path, on the way to it, or above it. */
  ghost predicate Writes(m: Made, statement: Statement, r: Path)
    requires Ready(m)
  {
    match statement
    case Set(key, _) => exists here :: At(m, here) && Comparable(r, here + Names(key, 0))
    case Header(_, _) =>
      Stepped(m, statement).Some? && exists here :: At(Stepped(m, statement).value, here) && Comparable(r, here)
  }

  lemma NewIsWritten(m: Made, here: Path, statement: Statement, r: Path)
    requires At(m, here) && Stepped(m, statement).Some?
    requires Find(m.store, 0, r).None? && Find(Stepped(m, statement).value.store, 0, r).Some?
    ensures Writes(m, statement, r)
  {
    var way := StatementStep(m, here, statement);
  }

  /** Nothing is in an accepted document that no statement wrote. */
  lemma {:induction false} OnlyWhatIsWritten(trace: seq<Made>, statements: seq<Statement>, j: nat, r: Path)
    requires Document(trace, statements) && j < |trace| && r != [] && Find(trace[j].store, 0, r).Some?
    ensures exists k :: 0 <= k < j && Writes(trace[k], statements[k], r)
  {
    if j == 0 {
      StartIsAtRoot();
    } else if Find(trace[j - 1].store, 0, r).Some? {
      OnlyWhatIsWritten(trace, statements, j - 1, r);
    } else {
      var here := Standing(trace, statements, j - 1);
      assert Stepped(trace[j - 1], statements[j - 1]) == Some(trace[j]);
      NewIsWritten(trace[j - 1], here, statements[j - 1], r);
    }
  }
}
