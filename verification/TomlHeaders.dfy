/** When a header is accepted, told by what is found at the ways that its parts spell. */
module TomlHeaders {
  import opened Common
  import opened Toml
  import opened TomlLaws
  import opened TomlAccepts
  import opened TomlRuns

  /** The node under the last name of the key, reached through the last item of each array of tables. */
  ghost predicate Named(s: Store, key: seq<string>, id: nat) {
    exists way :: NamedAt(s, key, id, way)
  }

  ghost predicate NamedAt(s: Store, key: seq<string>, id: nat, way: Path) {
    way != [] && way[|way| - 1].Name? && Spells(s, way, key) && Find(s, 0, way) == Some(id)
  }

  /** A header may go through: a table that no value closed, or an array of tables whose last item is one. */
  ghost predicate Through(s: Store, id: nat) {
    && id < |s|
    && if s[id].Tables? then s[id].items != [] && IsTable(s, s[id].items[|s[id].items| - 1]) else IsTable(s, id)
  }

  /** A header may end: `[[x]]` at an array of tables, `[x]` at a table that no header or key has made. */
  ghost predicate Opens(s: Store, id: nat, doubled: bool) {
    id < |s| && if doubled then s[id].Tables? else s[id].Table? && !s[id].defined
  }

  ghost predicate Clears(s: Store, key: Key, i: nat, doubled: bool) {
    && (forall j, id :: i < j < |key| && Named(s, key[..j], id) ==> Through(s, id))
    && (forall id :: Named(s, key, id) ==> Opens(s, id, doubled))
  }

  // ----- the walk as it decides -----

  ghost predicate Passes(s: Store, at: nat, key: Key, i: nat, doubled: bool)
    requires Closed(s) && at < |s| && s[at].Table? && i < |key|
    decreases |key| - i
  {
    if key[i] !in s[at].entries then true
    else
      var seen := s[at].entries[key[i]];
      assert Next(s, at, Name(key[i])) == Some(seen);
      if i == |key| - 1 then Opens(s, seen, doubled)
      else Through(s, seen) && Passes(s, LastItem(s, seen), key, i + 1, doubled)
  }

  ghost predicate Succeeds(s: Store, at: nat, key: Key, i: nat, doubled: bool)
    requires Closed(s) && at < |s| && s[at].Table? && i < |key|
  {
    match Descended(s, at, key, i)
    case None => false
    case Some(made) => Opened(made.store, made.id, key[|key| - 1], doubled).Some?
  }

  lemma OpenedDecides(s: Store, at: nat, name: string, doubled: bool)
    requires Closed(s) && at < |s| && s[at].Table?
    ensures Opened(s, at, name, doubled).Some? <==> name !in s[at].entries || Opens(s, s[at].entries[name], doubled)
  {
    if name in s[at].entries {
      assert Next(s, at, Name(name)) == Some(s[at].entries[name]);
    }
  }

  /** In a new table nothing is in the way. */
  lemma {:induction false} EmptySucceeds(s: Store, at: nat, key: Key, i: nat, doubled: bool)
    requires Closed(s) && at < |s| && s[at].Table? && s[at].entries == map[] && i < |key|
    ensures Succeeds(s, at, key, i, doubled)
    decreases |key| - i
  {
    if i == |key| - 1 {
      OpenedDecides(s, at, key[i], doubled);
    } else {
      LinkFresh(s, at, key[i], Table(map[], false, false));
      EmptySucceeds(Link(s + [Table(map[], false, false)], at, key[i], |s|), |s|, key, i + 1, doubled);
    }
  }

  lemma {:induction false} SucceedsIfPasses(s: Store, at: nat, key: Key, i: nat, doubled: bool)
    requires Closed(s) && at < |s| && s[at].Table? && i < |key|
    ensures Succeeds(s, at, key, i, doubled) == Passes(s, at, key, i, doubled)
    decreases |key| - i
  {
    if i == |key| - 1 {
      OpenedDecides(s, at, key[i], doubled);
    } else if key[i] !in s[at].entries {
      LinkFresh(s, at, key[i], Table(map[], false, false));
      EmptySucceeds(Link(s + [Table(map[], false, false)], at, key[i], |s|), |s|, key, i + 1, doubled);
    } else {
      var seen := s[at].entries[key[i]];
      assert Next(s, at, Name(key[i])) == Some(seen);
      var next := LastItem(s, seen);
      if s[next].Table? && !s[next].inline {
        SucceedsIfPasses(s, next, key, i + 1, doubled);
      }
    }
  }

  // ----- there is one way to where the walk stands -----

  /** Whatever the key spells and is there is `p`, or the array of tables that `p` is the last item of. */
  ghost predicate Sole(s: Store, key: seq<string>, p: Path) {
    forall way :: Spells(s, way, key) && Find(s, 0, way).Some? ==>
      way == p || (p != [] && p[|p| - 1].Item? && way == p[..|p| - 1])
  }

  lemma RootIsSole(s: Store)
    requires Wf(s)
    ensures Sole(s, [], [])
  {
    forall way | Spells(s, way, []) && Find(s, 0, way).Some? ensures way == [] {
      OnlyItems(s, way);
    }
  }

  lemma {:induction false} OnlyItems(s: Store, way: Path)
    requires Wf(s) && Spells(s, way, []) && Find(s, 0, way).Some?
    ensures way == []
    decreases |way|
  {
    if way != [] {
      OnlyItems(s, way[..|way| - 1]);
    }
  }

  /** Where the walk stands: at a table, by a way that the parts so far spell. */
  ghost predicate Standing(s: Store, p: Path, at: nat, key: seq<string>) {
    && Wf(s) && Spells(s, p, key) && Find(s, 0, p) == Some(at) && at < |s| && s[at].Table? && Sole(s, key, p)
  }

  /** The array of tables before its last item has no names in it. */
  lemma NotByArray(s: Store, p: Path, front: Path, last: Step, name: string)
    requires p == front + [last] && last.Item? && Find(s, 0, p).Some?
    ensures Find(s, 0, front + [Name(name)]).None?
  {
    FindLast(s, 0, front, last);
    FindLast(s, 0, front, Name(name));
  }

  /** What the next name spells and is there, is under that name in the table. */
  lemma NextNamed(s: Store, p: Path, at: nat, key: seq<string>, name: string, way: Path)
    requires Standing(s, p, at, key) && way != [] && way[|way| - 1].Name?
    requires Spells(s, way, key + [name]) && Find(s, 0, way).Some?
    ensures way == p + [Name(name)] && Find(s, 0, way) == Next(s, at, Name(name))
  {
    SpelledLast(s, way, key, name);
    var front := way[..|way| - 1];
    FindLast(s, 0, front, Name(name));
    FrontStands(s, p, at, key, front, name);
  }

  lemma SpelledLast(s: Store, way: Path, key: seq<string>, name: string)
    requires way != [] && way[|way| - 1].Name? && Spells(s, way, key + [name])
    ensures way == way[..|way| - 1] + [Name(name)] && Spells(s, way[..|way| - 1], key)
  {
    assert (key + [name])[..|key + [name]| - 1] == key;
  }

  /** Only where the walk stands is there a table with names. */
  lemma FrontStands(s: Store, p: Path, at: nat, key: seq<string>, front: Path, name: string)
    requires Standing(s, p, at, key) && Spells(s, front, key) && Find(s, 0, front + [Name(name)]).Some?
    ensures front == p
  {
    FindLast(s, 0, front, Name(name));
    if p != [] && p[|p| - 1].Item? {
      assert p == p[..|p| - 1] + [p[|p| - 1]];
      NotByArray(s, p, p[..|p| - 1], p[|p| - 1], name);
    }
  }

  lemma NamedIsNext(s: Store, p: Path, at: nat, key: seq<string>, name: string)
    requires Standing(s, p, at, key)
    ensures forall id: nat :: Named(s, key + [name], id) <==> Next(s, at, Name(name)) == Some(id)
  {
    forall id: nat ensures Named(s, key + [name], id) <==> Next(s, at, Name(name)) == Some(id) {
      if Named(s, key + [name], id) {
        var way :| NamedAt(s, key + [name], id, way);
        NextNamed(s, p, at, key, name, way);
      } else if Next(s, at, Name(name)) == Some(id) {
        SpellsOn(s, p, key, name);
        FindLast(s, 0, p, Name(name));
        assert NamedAt(s, key + [name], id, p + [Name(name)]);
      }
    }
  }

  /** The walk goes on to the table under the name, or to the last item of the array there. */
  lemma StandsOn(s: Store, p: Path, at: nat, key: seq<string>, name: string, seen: nat) returns (on: Path)
    requires Standing(s, p, at, key) && Next(s, at, Name(name)) == Some(seen) && Through(s, seen) && 0 < seen
    ensures Standing(s, on, LastItem(s, seen), key + [name])
  {
    var named := p + [Name(name)];
    on := if s[seen].Tables? then named + [Item(|s[seen].items| - 1)] else named;
    GoesOn(s, p, at, key, name, seen, on);
    SoleThere(s, p, at, key, name, seen, on);
  }

  /** By the name, and in an array of tables by its last item. */
  ghost predicate Onward(s: Store, named: Path, seen: nat, on: Path) {
    && seen < |s| && (s[seen].Tables? ==> s[seen].items != [])
    && on == if s[seen].Tables? then named + [Item(|s[seen].items| - 1)] else named
  }

  lemma GoesOn(s: Store, p: Path, at: nat, key: seq<string>, name: string, seen: nat, on: Path)
    requires Standing(s, p, at, key) && Next(s, at, Name(name)) == Some(seen) && Through(s, seen)
    requires Onward(s, p + [Name(name)], seen, on)
    ensures Spells(s, on, key + [name]) && Find(s, 0, on) == Some(LastItem(s, seen)) && IsTable(s, LastItem(s, seen))
  {
    var named := p + [Name(name)];
    SpellsOn(s, p, key, name);
    FindLast(s, 0, p, Name(name));
    if s[seen].Tables? {
      var k: nat := |s[seen].items| - 1;
      SpellsItem(s, named, key + [name], seen, k);
      FindLast(s, 0, named, Item(k));
    }
  }

  lemma SoleThere(s: Store, p: Path, at: nat, key: seq<string>, name: string, seen: nat, on: Path)
    requires Standing(s, p, at, key) && Next(s, at, Name(name)) == Some(seen) && Through(s, seen)
    requires Onward(s, p + [Name(name)], seen, on)
    ensures Sole(s, key + [name], on)
  {
    forall way | Spells(s, way, key + [name]) && Find(s, 0, way).Some?
      ensures way == on || (on != [] && on[|on| - 1].Item? && way == on[..|on| - 1])
    {
      SoleOn(s, p, at, key, name, seen, way);
    }
  }

  /** By the name itself, or from an array of tables to its last item: and no further. */
  lemma {:induction false} SoleOn(s: Store, p: Path, at: nat, key: seq<string>, name: string, seen: nat, way: Path)
    requires Standing(s, p, at, key) && Next(s, at, Name(name)) == Some(seen) && Through(s, seen)
    requires Spells(s, way, key + [name]) && Find(s, 0, way).Some?
    ensures var named := p + [Name(name)];
            way == named || (s[seen].Tables? && way == named + [Item(|s[seen].items| - 1)])
    decreases |way|
  {
    if way[|way| - 1].Name? {
      NextNamed(s, p, at, key, name, way);
    } else {
      var front := way[..|way| - 1];
      assert way == front + [way[|way| - 1]];
      SoleOn(s, p, at, key, name, seen, front);
      FindLast(s, 0, p, Name(name));
      LastStep(s, p + [Name(name)], seen, front, way[|way| - 1], key + [name]);
    }
  }

  /** An item step from where the name leads is to the last item of an array of tables. */
  lemma LastStep(s: Store, named: Path, seen: nat, front: Path, last: Step, key: seq<string>)
    requires last.Item? && Find(s, 0, named) == Some(seen) && Through(s, seen)
    requires front == named || (s[seen].Tables? && front == named + [Item(|s[seen].items| - 1)])
    requires Spells(s, front + [last], key) && Find(s, 0, front + [last]).Some?
    ensures s[seen].Tables? && front + [last] == named + [Item(|s[seen].items| - 1)]
  {
    FindLast(s, 0, front, last);
    if s[seen].Tables? {
      FindLast(s, 0, named, Item(|s[seen].items| - 1));
    }
  }

  /** There is one node under the last name of the key. */
  ghost predicate OnlyNamed(s: Store, key: seq<string>, seen: nat) {
    forall id: nat :: Named(s, key, id) <==> id == seen
  }

  lemma ClearsStep(s: Store, key: Key, i: nat, seen: nat, doubled: bool)
    requires i < |key| - 1 && OnlyNamed(s, key[..i + 1], seen)
    ensures Clears(s, key, i, doubled) <==> Through(s, seen) && Clears(s, key, i + 1, doubled)
  {
    assert Named(s, key[..i + 1], seen);
    forall j, id | i < j < |key| && Named(s, key[..j], id) && Through(s, seen) && Clears(s, key, i + 1, doubled)
      ensures Through(s, id)
    {
      if j == i + 1 {
        assert id == seen;
      }
    }
  }

  lemma ClearsLast(s: Store, key: Key, seen: nat, doubled: bool)
    requires OnlyNamed(s, key, seen)
    ensures Clears(s, key, |key| - 1, doubled) <==> Opens(s, seen, doubled)
  {
    assert Named(s, key, seen);
  }

  /** The walk passes exactly when nothing that the key names is in the way. */
  lemma {:induction false} PassesIfClear(s: Store, p: Path, at: nat, key: Key, i: nat, doubled: bool)
    requires i < |key| && Standing(s, p, at, key[..i])
    ensures Passes(s, at, key, i, doubled) == Clears(s, key, i, doubled)
    decreases |key| - i
  {
    if key[i] !in s[at].entries {
      NothingNamed(s, p, at, key, i);
    } else {
      var seen := s[at].entries[key[i]];
      SeenIsNamed(s, p, at, key, i, seen);
      if i == |key| - 1 {
        ClearsLast(s, key, seen, doubled);
      } else {
        ClearsStep(s, key, i, seen, doubled);
        if Through(s, seen) {
          var on := StandsOn(s, p, at, key[..i], key[i], seen);
          assert key[..i + 1] == key[..i] + [key[i]];
          PassesIfClear(s, on, LastItem(s, seen), key, i + 1, doubled);
        }
      }
    }
  }

  lemma SeenIsNamed(s: Store, p: Path, at: nat, key: Key, i: nat, seen: nat)
    requires i < |key| && Standing(s, p, at, key[..i]) && key[i] in s[at].entries && seen == s[at].entries[key[i]]
    ensures Next(s, at, Name(key[i])) == Some(seen) && OnlyNamed(s, key[..i + 1], seen)
    ensures i == |key| - 1 ==> key[..i + 1] == key
  {
    assert key[..i + 1] == key[..i] + [key[i]];
    NamedIsNext(s, p, at, key[..i], key[i]);
  }

  /** Past a name that is not there, nothing is named. */
  lemma NothingNamed(s: Store, p: Path, at: nat, key: Key, i: nat)
    requires i < |key| && Standing(s, p, at, key[..i]) && key[i] !in s[at].entries
    ensures forall j, id :: i < j <= |key| ==> !Named(s, key[..j], id)
    ensures forall id :: !Named(s, key, id)
  {
    forall j, id | i < j <= |key| ensures !Named(s, key[..j], id) {
      if way :| NamedAt(s, key[..j], id, way) {
        var shorter := NamedBefore(s, way, key[..j], i + 1);
        assert key[..j][..i + 1] == key[..i] + [key[i]];
        NextNamed(s, p, at, key[..i], key[i], shorter);
      }
    }
    assert key[..|key|] == key;
  }

  /** On the way to a name are the names before it. */
  lemma {:induction false} NamedBefore(s: Store, way: Path, key: seq<string>, n: nat) returns (shorter: Path)
    requires Spells(s, way, key) && Find(s, 0, way).Some? && 0 < n <= |key|
    ensures shorter <= way && shorter != [] && shorter[|shorter| - 1].Name?
    ensures Spells(s, shorter, key[..n]) && Find(s, 0, shorter).Some?
    decreases |way|
  {
    var front := way[..|way| - 1];
    if way[|way| - 1].Item? {
      shorter := NamedBefore(s, front, key, n);
    } else if n == |key| {
      assert key[..n] == key;
      shorter := way;
    } else {
      shorter := NamedBefore(s, front, key[..|key| - 1], n);
      assert key[..|key| - 1][..n] == key[..n];
    }
  }

  /**
   * A header is accepted exactly when each part of its name that is there already leads through a table,
   * or an array of tables, that may be added to; and what is at its whole name, if anything, is an array
   * of tables for `[[x]]`, and a table that nothing has defined for `[x]`.
   */
  lemma HeaderAccepted(m: Made, key: Key, doubled: bool)
    requires Ready(m) && Wf(m.store)
    ensures Stepped(m, Header(key, doubled)).Some? <==> Clears(m.store, key, 0, doubled)
  {
    var s := m.store;
    RootIsSole(s);
    assert key[..0] == [];
    assert Standing(s, [], 0, key[..0]);
    SucceedsIfPasses(s, 0, key, 0, doubled);
    PassesIfClear(s, [], 0, key, 0, doubled);
  }
}
