/**
 * The C library's handle registry under concurrency: loads, parses and frees run at once, and
 * each step below is one critical section of one of them.
 */
module Registry {
  import opened Common

  /** Where one parse call is. */
  datatype Call =
    | Looking(handle: nat)
    | Refused(handle: nat)           // answered that no parser is loaded under the handle
    | Holding(handle: nat)           // has the instance, not yet its lock
    | Parsing(handle: nat)
    | Answered(handle: nat)

  /** The registry and its callers. An instance is named by the handle it was loaded under. */
  datatype State = State(loaded: set<nat>, nextId: nat, locked: set<nat>, calls: map<nat, Call>)

  datatype Action =
    | Load
    | Free(handle: nat)
    | Call(id: nat, handle: nat)
    | Lookup(id: nat)
    | Lock(id: nat)
    | Unlock(id: nat)

  const INITIAL: State := State({}, 0, {}, map[])

  predicate Enabled(s: State, a: Action) {
    match a
    case Load => true
    case Free(_) => true
    case Call(id, _) => id !in s.calls
    case Lookup(id) => id in s.calls && s.calls[id].Looking?
    case Lock(id) => id in s.calls && s.calls[id].Holding? && s.calls[id].handle !in s.locked
    case Unlock(id) => id in s.calls && s.calls[id].Parsing?
  }

  function Apply(s: State, a: Action): State
    requires Enabled(s, a)
  {
    match a
    case Load => s.(nextId := s.nextId + 1, loaded := s.loaded + {s.nextId + 1})
    case Free(handle) => s.(loaded := s.loaded - {handle})
    case Call(id, handle) => s.(calls := s.calls[id := Looking(handle)])
    case Lookup(id) =>
      var handle := s.calls[id].handle;
      s.(calls := s.calls[id := if handle in s.loaded then Holding(handle) else Refused(handle)])
    case Lock(id) =>
      var handle := s.calls[id].handle;
      s.(locked := s.locked + {handle}, calls := s.calls[id := Parsing(handle)])
    case Unlock(id) =>
      var handle := s.calls[id].handle;
      s.(locked := s.locked - {handle}, calls := s.calls[id := Answered(handle)])
  }

  /** The handle a load hands out. */
  function Issued(s: State): nat { s.nextId + 1 }

  /** The library's two variables; its three critical sections on them carry out the actions on the state. */
  class Table {
    var loaded: set<nat>
    var nextId: nat
    ghost var state: State

    ghost predicate Mirrors()
      reads this
    {
      loaded == state.loaded && nextId == state.nextId
    }

    constructor ()
      ensures Mirrors() && state == INITIAL
    {
      loaded, nextId, state := {}, 0, INITIAL;
    }

    method LoadGrammar() returns (handle: nat)
      requires Mirrors()
      modifies this
      ensures Mirrors() && state == Apply(old(state), Load) && handle == Issued(old(state)) && handle in loaded
    {
      nextId := nextId + 1;
      handle := nextId;
      loaded := loaded + {handle};
      state := Apply(state, Load);
    }

    /** The lookup of a parse call: an instance, or the answer that nothing is loaded under the handle. */
    method LookUp(handle: nat, ghost id: nat) returns (found: bool)
      requires Mirrors() && Enabled(state, Lookup(id)) && state.calls[id].handle == handle
      modifies this`state
      ensures Mirrors() && state == Apply(old(state), Lookup(id))
      ensures state.calls[id] == if found then Holding(handle) else Refused(handle)
    {
      found := handle in loaded;
      state := Apply(state, Lookup(id));
    }

    method FreeGrammar(handle: nat)
      requires Mirrors()
      modifies this`loaded, this`state
      ensures Mirrors() && state == Apply(old(state), Free(handle))
    {
      loaded := loaded - {handle};
      state := Apply(state, Free(handle));
    }
  }

  // ----- every interleaving -----

  ghost predicate IsRun(run: seq<State>, actions: seq<Action>) {
    && |run| == |actions| + 1
    && run[0] == INITIAL
    && forall i :: 0 <= i < |actions| ==> Enabled(run[i], actions[i]) && run[i + 1] == Apply(run[i], actions[i])
  }

  /** Handles in use were issued, and a lock is held by exactly one call, which is parsing. */
  ghost predicate Inv(s: State) {
    && (forall h :: h in s.loaded ==> 1 <= h <= s.nextId)
    && (forall h :: h in s.locked <==> exists id :: id in s.calls && s.calls[id] == Parsing(h))
    && (forall p, q :: p in s.calls && q in s.calls && s.calls[p].Parsing? && s.calls[p] == s.calls[q] ==> p == q)
  }

  lemma InvKept(s: State, a: Action)
    requires Inv(s) && Enabled(s, a)
    ensures Inv(Apply(s, a))
  {
    var s' := Apply(s, a);
    forall h ensures h in s'.locked <==> exists id :: id in s'.calls && s'.calls[id] == Parsing(h) {
      if h in s.locked {
        var id :| id in s.calls && s.calls[id] == Parsing(h);
        assert id in s'.calls && (a != Unlock(id) ==> s'.calls[id] == Parsing(h));
      }
      if a.Lock? {
        assert s'.calls[a.id] == Parsing(s.calls[a.id].handle);
      }
    }
  }

  lemma {:induction false} InvAlways(run: seq<State>, actions: seq<Action>, i: nat)
    requires IsRun(run, actions) && i < |run|
    ensures Inv(run[i])
  {
    if i > 0 {
      InvAlways(run, actions, i - 1);
      InvKept(run[i - 1], actions[i - 1]);
    }
  }

  /** At most one parse runs per instance at a time. */
  lemma OneParseAtATime(run: seq<State>, actions: seq<Action>, i: nat, p: nat, q: nat)
    requires IsRun(run, actions) && i < |run| && p in run[i].calls && q in run[i].calls
    requires run[i].calls[p].Parsing? && run[i].calls[q].Parsing? && run[i].calls[p].handle == run[i].calls[q].handle
    ensures p == q
  {
    InvAlways(run, actions, i);
  }

  lemma {:induction false} IdsGrow(run: seq<State>, actions: seq<Action>, i: nat, j: nat)
    requires IsRun(run, actions) && i <= j < |run|
    ensures run[i].nextId <= run[j].nextId
    decreases j - i
  {
    if i < j {
      IdsGrow(run, actions, i + 1, j);
    }
  }

  /** No two loads hand out the same handle, whatever is freed between them. */
  lemma HandlesAreFresh(run: seq<State>, actions: seq<Action>, i: nat, j: nat)
    requires IsRun(run, actions) && i < j < |actions| && actions[i].Load? && actions[j].Load?
    ensures Issued(run[i]) < Issued(run[j])
  {
    IdsGrow(run, actions, i + 1, j);
  }

  /** Before step `j`, a load handed out `handle` at step `i`, and no free of it has come since. */
  ghost predicate InUse(run: seq<State>, actions: seq<Action>, i: nat, j: nat, handle: nat)
    requires IsRun(run, actions) && j <= |actions|
  {
    && i < j && actions[i].Load? && Issued(run[i]) == handle
    && forall m :: i < m < j ==> actions[m] != Free(handle)
  }

  lemma {:induction false} LoadedMeansInUse(run: seq<State>, actions: seq<Action>, j: nat, handle: nat)
    requires IsRun(run, actions) && j <= |actions|
    ensures handle in run[j].loaded <==> exists i :: InUse(run, actions, i, j, handle)
  {
    if j > 0 {
      var last := j - 1;
      LoadedMeansInUse(run, actions, last, handle);
      if handle in run[j].loaded {
        if actions[last].Load? && Issued(run[last]) == handle {
          assert InUse(run, actions, last, j, handle);
        } else {
          var i :| InUse(run, actions, i, last, handle);
          assert InUse(run, actions, i, j, handle);
        }
      }
      if exists i: nat :: InUse(run, actions, i, j, handle) {
        var i: nat :| InUse(run, actions, i, j, handle);
        if i < last {
          assert InUse(run, actions, i, last, handle);
        }
      }
    }
  }

  /**
   * A call is refused at its lookup exactly when no load of its handle stands: none has come
   * before, or a free has come since. Freeing twice is freeing once.
   */
  lemma RefusedIffNotInUse(run: seq<State>, actions: seq<Action>, j: nat)
    requires IsRun(run, actions) && j < |actions| && actions[j].Lookup?
    ensures var id := actions[j].id;
            var handle := run[j].calls[id].handle;
            && run[j + 1].calls[id] ==
               (if exists i :: InUse(run, actions, i, j, handle) then Holding(handle) else Refused(handle))
  {
    LoadedMeansInUse(run, actions, j, run[j].calls[actions[j].id].handle);
  }

  /** Once a handle that was handed out has been freed, every later lookup of it is refused. */
  lemma FreedStaysRefused(run: seq<State>, actions: seq<Action>, load: nat, free: nat, j: nat)
    requires IsRun(run, actions) && load < free < j < |actions|
    requires actions[load].Load? && actions[free] == Free(Issued(run[load]))
    requires actions[j].Lookup? && run[j].calls[actions[j].id].handle == Issued(run[load])
    ensures run[j + 1].calls[actions[j].id] == Refused(Issued(run[load]))
  {
    var handle := Issued(run[load]);
    RefusedIffNotInUse(run, actions, j);
    forall i: nat | i < j ensures !InUse(run, actions, i, j, handle) {
      if i < load && actions[i].Load? {
        HandlesAreFresh(run, actions, i, load);
      } else if i > load && actions[i].Load? {
        HandlesAreFresh(run, actions, load, i);
      }
    }
  }
}
