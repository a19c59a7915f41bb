/** The table machine as it runs: one store of shared nodes, written in place. */
module TomlReader {
  import opened Common
  import opened Toml
  import opened TomlRuns

  class Reader {
    var store: Store
    var current: nat

    constructor ()
      ensures Made(store, current) == START && Ready(START)
    {
      store, current := [Table(map[], true, false)], 0;
    }

    /** Links a new table under a name that has none. */
    method AddTable(at: nat, name: string, isDefined: bool) returns (made: nat)
      requires Closed(store) && at < |store| && store[at].Table? && name !in store[at].entries
      modifies this`store
      ensures made == |old(store)|
      ensures store == Link(old(store) + [Table(map[], isDefined, false)], at, name, made)
      ensures Closed(store) && Grown(old(store), store) && made < |store| && store[made].Table?
    {
      ghost var before := store;
      made := |store|;
      store := store + [Table(map[], isDefined, false)];
      AllocGrows(before, Table(map[], isDefined, false));
      LinkGrows(store, at, name, made);
      GrownTransitive(before, store, Link(store, at, name, made));
      store := Link(store, at, name, made);
    }

    method Assign(from: nat, key: Key, node: nat) returns (ok: bool)
      requires Closed(store) && from < |store| && store[from].Table? && 0 < node < |store|
      modifies this`store
      ensures ok == Assigned(old(store), from, key, 0, node).Some?
      ensures ok ==> store == Assigned(old(store), from, key, 0, node).value
    {
      var at: nat, i: nat := from, 0;
      while i < |key| - 1
        invariant 0 <= i < |key| && Closed(store) && |old(store)| <= |store| && at < |store| && store[at].Table?
        invariant Assigned(store, at, key, i, node) == Assigned(old(store), from, key, 0, node)
      {
        if key[i] !in store[at].entries {
          at := AddTable(at, key[i], true);
        } else {
          var next := store[at].entries[key[i]];
          assert Next(store, at, Name(key[i])) == Some(next);
          if !store[next].Table? || store[next].inline {
            return false;
          }
          at := next;
        }
        i := i + 1;
      }
      if key[i] in store[at].entries {
        return false;
      }
      store := Link(store, at, key[i], node);
      return true;
    }

    method ReadValue(value: Value) returns (ok: bool, id: nat)
      requires Closed(store) && |store| > 0
      modifies this`store
      ensures ok == Built(old(store), value).Some?
      ensures ok ==> Made(store, id) == Built(old(store), value).value
      decreases value
    {
      match value {
        case Text(text) =>
          id := |store|;
          store := store + [Scalar(text)];
          return true, id;
        case List(items) =>
          ok, id := ReadItems(items);
        case Inline(pairs) =>
          ok, id := ReadPairs(pairs);
      }
    }

    method ReadItems(items: seq<Value>) returns (ok: bool, id: nat)
      requires Closed(store) && |store| > 0
      modifies this`store
      ensures ok == Built(old(store), List(items)).Some?
      ensures ok ==> Made(store, id) == Built(old(store), List(items)).value
      decreases items
    {
      var ids: seq<nat> := [];
      for i := 0 to |items|
        invariant Closed(store) && |store| > 0 && forall id :: id in ids ==> 0 < id < |store|
        invariant BuiltItems(store, items[i..], ids) == BuiltItems(old(store), items, [])
      {
        assert items[i..][0] == items[i] && items[i..][1..] == items[i + 1..];
        var item;
        ok, item := ReadValue(items[i]);
        if !ok {
          return false, 0;
        }
        ids := ids + [item];
      }
      id := |store|;
      store := store + [Array(ids)];
      return true, id;
    }

    method ReadPairs(pairs: seq<Pair>) returns (ok: bool, id: nat)
      requires Closed(store) && |store| > 0
      modifies this`store
      ensures ok == Built(old(store), Inline(pairs)).Some?
      ensures ok ==> Made(store, id) == Built(old(store), Inline(pairs)).value
      decreases pairs
    {
      var table := Table(map[], true, true);
      id := |store|;
      AllocGrows(store, table);
      store := store + [table];
      for i := 0 to |pairs|
        invariant Closed(store) && id < |store| && store[id].Table?
        invariant BuiltPairs(store, id, pairs[i..]) == BuiltPairs(old(store) + [table], id, pairs)
      {
        assert pairs[i..][0] == pairs[i] && pairs[i..][1..] == pairs[i + 1..];
        ghost var before := store;
        var node;
        ok, node := ReadValue(pairs[i].value);
        if !ok {
          return false, 0;
        }
        assert Kept(before[id], store[id]);
        ghost var mid := store;
        ok := Assign(id, pairs[i].key, node);
        if !ok {
          return false, 0;
        }
        assert Kept(mid[id], store[id]);
      }
      return true, id;
    }

    method ReadHeader(key: Key, doubled: bool) returns (ok: bool)
      requires Ready(Made(store, current))
      modifies this
      ensures ok == Headed(old(store), key, doubled).Some?
      ensures ok ==> Made(store, current) == Headed(old(store), key, doubled).value
    {
      var at;
      ok, at := Descend(key);
      if ok {
        ok := OpenTable(at, key[|key| - 1], doubled);
      }
    }

    method Descend(key: Key) returns (ok: bool, at: nat)
      requires Closed(store) && |store| > 0 && store[0].Table?
      modifies this`store
      ensures ok == Descended(old(store), 0, key, 0).Some?
      ensures ok ==> Made(store, at) == Descended(old(store), 0, key, 0).value
    {
      at := 0;
      var i: nat := 0;
      while i < |key| - 1
        invariant 0 <= i < |key| && Closed(store) && at < |store| && store[at].Table?
        invariant Descended(store, at, key, i) == Descended(old(store), 0, key, 0)
      {
        if key[i] !in store[at].entries {
          at := AddTable(at, key[i], false);
        } else {
          assert Next(store, at, Name(key[i])) == Some(store[at].entries[key[i]]);
          var next := LastItem(store, store[at].entries[key[i]]);
          if !store[next].Table? || store[next].inline {
            return false, 0;
          }
          at := next;
        }
        i := i + 1;
      }
      return true, at;
    }

    /** The last part of a header: a new table, the next of an array, or one that has no header yet. */
    method OpenTable(at: nat, name: string, doubled: bool) returns (ok: bool)
      requires Closed(store) && at < |store| && store[at].Table?
      modifies this
      ensures ok == Opened(old(store), at, name, doubled).Some?
      ensures ok ==> Made(store, current) == Opened(old(store), at, name, doubled).value
    {
      var entries := store[at].entries;
      if doubled {
        var item := |store|;
        if name !in entries {
          store := store + [Table(map[], true, false)] + [Tables([item])];
          store := Link(store, at, name, item + 1);
        } else {
          assert Next(store, at, Name(name)) == Some(entries[name]);
          if !store[entries[name]].Tables? {
            return false;
          }
          store := Push(store + [Table(map[], true, false)], entries[name], item);
        }
        current := item;
      } else if name !in entries {
        current := AddTable(at, name, true);
      } else {
        var seen := entries[name];
        assert Next(store, at, Name(name)) == Some(seen);
        if !store[seen].Table? || store[seen].defined {
          return false;
        }
        store := store[seen := store[seen].(defined := true)];
        current := seen;
      }
      return true;
    }

    method ReadStatement(statement: Statement) returns (ok: bool)
      requires Ready(Made(store, current))
      modifies this
      ensures ok == Stepped(Made(old(store), old(current)), statement).Some?
      ensures ok ==> Made(store, current) == Stepped(Made(old(store), old(current)), statement).value
    {
      match statement {
        case Header(key, doubled) =>
          ok := ReadHeader(key, doubled);
        case Set(key, value) =>
          var node;
          ok, node := ReadValue(value);
          if ok {
            assert Kept(old(store)[current], store[current]);
            ok := Assign(current, key, node);
          }
      }
    }

    /** A whole document: accepted exactly when every statement is, and left as the last one leaves it. */
    method ReadDocument(statements: seq<Statement>) returns (ok: bool)
      requires Made(store, current) == START && Ready(START)
      modifies this
      ensures ok == Followed(START, statements).Some?
      ensures ok ==> Made(store, current) == Followed(START, statements).value
      ensures ok <==> exists trace :: Document(trace, statements)
      ensures ok ==> exists trace :: Document(trace, statements) && trace[|statements|] == Made(store, current)
    {
      DocumentIsAccepted(statements);
      for i := 0 to |statements|
        invariant Ready(Made(store, current))
        invariant Followed(Made(store, current), statements[i..]) == Followed(START, statements)
      {
        assert statements[i..][0] == statements[i] && statements[i..][1..] == statements[i + 1..];
        ok := ReadStatement(statements[i]);
        if !ok {
          return false;
        }
      }
      return true;
    }
  }
}
