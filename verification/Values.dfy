/** The deep merge behind the `{@foo}` splice, and the splice itself. */
module Values {
  import opened Common

  datatype Atom =
    | Null
    | Bool(flag: bool)
    | Number(digits: string)
    | Str(text: string)

  /** A bare container, or a `MapRef`/`ListRef` carrying its own metadata. */
  datatype Wrapper = Plain | Ref(info: string)

  /** An engine value. A `Dict` is insertion ordered: `keys` is the order, `vals` the content. */
  datatype Value =
    | Undefined
    | Leaf(atom: Atom)
    | Dict(wrap: Wrapper, keys: seq<string>, vals: map<string, Value>)
    | List(wrap: Wrapper, items: seq<Value>)

  const EMPTY: Value := Dict(Plain, [], map[])

  /** Every `Dict` lists each of its keys exactly once. */
  ghost predicate Valid(v: Value) {
    match v
    case Dict(_, keys, vals) =>
      && NoDup(keys)
      && Elems(keys) == vals.Keys
      && forall k :: k in vals ==> Valid(vals[k])
    case List(_, items) => forall i :: 0 <= i < |items| ==> Valid(items[i])
    case _ => true
  }

  /** The keys the merge never copies between two maps. */
  predicate Dangerous(key: string) {
    key == "__proto__" || key == "constructor" || key == "prototype"
  }

  function Get(vals: map<string, Value>, key: string): Value {
    if key in vals then vals[key] else Undefined
  }

  function At(items: seq<Value>, i: nat): Value {
    if i < |items| then items[i] else Undefined
  }

  // ----- the specification: what every key and index of a merge holds -----

  /** The overlay keys a merge appends: not in the base, not dangerous, in overlay order. */
  function Fresh(base: seq<string>, overlay: seq<string>): seq<string> {
    if overlay == [] then []
    else
      var last := overlay[|overlay| - 1];
      Fresh(base, overlay[..|overlay| - 1]) + if last in base || Dangerous(last) then [] else [last]
  }

  function Longer(a: nat, b: nat): nat { if a < b then b else a }

  function Merge(base: Value, overlay: Value): Value
    decreases overlay
  {
    match (base, overlay)
    case (_, Undefined) => base
    case (Dict(w, bk, bv), Dict(_, ok, ov)) =>
      Dict(w, bk + Fresh(bk, ok),
           map k | k in bv.Keys + ov.Keys && (k in bv || !Dangerous(k)) ::
             if k in ov && !Dangerous(k) then Merge(Get(bv, k), ov[k]) else bv[k])
    case (List(w, bi), List(_, oi)) =>
      List(w, seq(Longer(|bi|, |oi|), i requires 0 <= i < Longer(|bi|, |oi|) =>
        if i < |oi| then Merge(At(bi, i), oi[i]) else bi[i]))
    case (_, o) => o
  }

  // ----- the algorithm: in-place loops over the base's entries and items -----

  method DeepMerge(base: Value, overlay: Value) returns (merged: Value)
    requires Valid(base) && Valid(overlay)
    ensures merged == Merge(base, overlay)
    decreases overlay, 1
  {
    match (base, overlay) {
      case (_, Undefined) => merged := base;
      case (Dict(w, bk, bv), Dict(_, ok, ov)) =>
        var keys, vals := MergeEntries(bk, bv, overlay);
        MergedAll(bk, bv, ok, ov);
        merged := Dict(w, keys, vals);
      case (List(w, bi), List(_, oi)) =>
        var items := MergeItems(bi, overlay);
        merged := List(w, items);
      case (_, o) => merged := o;
    }
  }

  /** The base's entries once the overlay's keys `done` have been merged in. */
  ghost function MergedUpTo(bv: map<string, Value>, done: seq<string>, ov: map<string, Value>): map<string, Value>
    requires Elems(done) <= ov.Keys
  {
    map k | k in bv.Keys + ov.Keys && (k in bv || (k in done && !Dangerous(k))) ::
      if k in done && !Dangerous(k) then Merge(Get(bv, k), ov[k]) else bv[k]
  }

  /** One round of the merge loop: `key` joins the keys already merged. */
  lemma MergedStep(bv: map<string, Value>, done: seq<string>, key: string, ov: map<string, Value>)
    requires Elems(done) <= ov.Keys && key in ov && key !in done
    ensures Elems(done + [key]) <= ov.Keys
    ensures var before := MergedUpTo(bv, done, ov);
            && (!Dangerous(key) ==> (key in before <==> key in bv))
            && MergedUpTo(bv, done + [key], ov) ==
               if Dangerous(key) then before else before[key := Merge(Get(before, key), ov[key])]
  {
    ElemsAppend(done, key);
  }

  lemma FreshStep(bk: seq<string>, done: seq<string>, key: string)
    ensures bk + Fresh(bk, done + [key]) ==
            bk + Fresh(bk, done) + if key in bk || Dangerous(key) then [] else [key]
  {
    assert (done + [key])[..|done|] == done;
    ConcatAssociative(bk, Fresh(bk, done), if key in bk || Dangerous(key) then [] else [key]);
  }

  lemma MergedAll(bk: seq<string>, bv: map<string, Value>, ok: seq<string>, ov: map<string, Value>)
    requires Elems(ok) == ov.Keys
    ensures forall w, w' ::
              Merge(Dict(w, bk, bv), Dict(w', ok, ov)) == Dict(w, bk + Fresh(bk, ok), MergedUpTo(bv, ok, ov))
  {
    assert forall k :: k in ok <==> k in Elems(ok);
  }

  method MergeEntries(bk: seq<string>, bv: map<string, Value>, overlay: Value)
    returns (keys: seq<string>, vals: map<string, Value>)
    requires Valid(Dict(Plain, bk, bv)) && Valid(overlay) && overlay.Dict?
    ensures keys == bk + Fresh(bk, overlay.keys)
    ensures vals == MergedUpTo(bv, overlay.keys, overlay.vals)
    decreases overlay, 0
  {
    keys, vals := bk, bv;
    var ok, ov := overlay.keys, overlay.vals;
    for i := 0 to |ok|
      invariant Elems(ok[..i]) <= ov.Keys
      invariant keys == bk + Fresh(bk, ok[..i])
      invariant vals == MergedUpTo(bv, ok[..i], ov)
    {
      var key := ok[i];
      TakeStep(ok, i);
      MembersAreElems(bk);
      MergedStep(bv, ok[..i], key, ov);
      FreshStep(bk, ok[..i], key);
      if !Dangerous(key) {
        var previous := Get(vals, key);
        var value := DeepMerge(previous, ov[key]);
        if key !in vals {
          keys := keys + [key];
        }
        vals := vals[key := value];
      }
    }
    assert ok[..|ok|] == ok;
  }

  method MergeItems(bi: seq<Value>, overlay: Value) returns (items: seq<Value>)
    requires Valid(List(Plain, bi)) && Valid(overlay) && overlay.List?
    ensures items == Merge(List(Plain, bi), overlay).items
    decreases overlay, 0
  {
    items := bi;
    var oi := overlay.items;
    for i := 0 to |oi|
      invariant |items| == Longer(|bi|, i)
      invariant forall j :: 0 <= j < |items| ==>
        items[j] == if j < i then Merge(At(bi, j), oi[j]) else bi[j]
    {
      if i < |items| {
        var value := DeepMerge(items[i], oi[i]);
        items := items[i := value];
      } else {
        items := items + [oi[i]];
      }
    }
  }

  // ----- what the merge guarantees -----

  lemma {:induction false} FreshMembers(base: seq<string>, overlay: seq<string>, k: string)
    ensures k in Fresh(base, overlay) <==> k in overlay && k !in base && !Dangerous(k)
  {
    if overlay != [] {
      var front, last := overlay[..|overlay| - 1], overlay[|overlay| - 1];
      assert overlay == front + [last];
      FreshMembers(base, front, k);
    }
  }

  lemma {:induction false} FreshNoDup(base: seq<string>, overlay: seq<string>)
    requires NoDup(base) && NoDup(overlay)
    ensures NoDup(base + Fresh(base, overlay))
  {
    if overlay != [] {
      var front, last := overlay[..|overlay| - 1], overlay[|overlay| - 1];
      assert overlay == front + [last];
      FreshNoDup(base, front);
      FreshMembers(base, front, last);
      assert base + (Fresh(base, front) + [last]) == (base + Fresh(base, front)) + [last];
      assert base + (Fresh(base, front) + []) == base + Fresh(base, front);
    }
  }

  lemma MergedShape(a: Value, b: Value)
    requires a.Dict? && b.Dict?
    ensures Merge(a, b).Dict? && Merge(a, b).wrap == a.wrap
    ensures Merge(a, b).keys == a.keys + Fresh(a.keys, b.keys)
    ensures Merge(a, b).vals.Keys == a.vals.Keys + set k | k in b.vals && !Dangerous(k)
  {
  }

  lemma MergedVals(a: Value, b: Value, k: string)
    requires a.Dict? && b.Dict?
    ensures Merge(a, b).Dict?
    ensures k in Merge(a, b).vals <==> k in a.vals || (k in b.vals && !Dangerous(k))
    ensures Get(Merge(a, b).vals, k) ==
            if Dangerous(k) then Get(a.vals, k) else Merge(Get(a.vals, k), Get(b.vals, k))
  {
  }

  /** Merging well-formed values yields a well-formed value. */
  lemma {:induction false} MergeValid(a: Value, b: Value)
    requires Valid(a) && Valid(b)
    ensures Valid(Merge(a, b))
    decreases b
  {
    var m := Merge(a, b);
    if a.Dict? && b.Dict? {
      FreshNoDup(a.keys, b.keys);
      forall k ensures k in Elems(m.keys) <==> k in m.vals {
        FreshMembers(a.keys, b.keys, k);
        assert (k in a.keys <==> k in Elems(a.keys)) && (k in b.keys <==> k in Elems(b.keys));
      }
      forall k | k in m.vals ensures Valid(m.vals[k]) {
        if k in b.vals {
          MergeValid(Get(a.vals, k), b.vals[k]);
        }
      }
    } else if a.List? && b.List? {
      forall i | 0 <= i < |m.items| ensures Valid(m.items[i]) {
        if i < |b.items| {
          MergeValid(At(a.items, i), b.items[i]);
        }
      }
    }
  }

  lemma UndefinedIsIdentity(v: Value)
    ensures Merge(Undefined, v) == v && Merge(v, Undefined) == v
  {
  }

  // ----- exactly when a merge yields its overlay unchanged -----

  ghost predicate SameFamily(a: Value, b: Value) {
    (a.Dict? && b.Dict?) || (a.List? && b.List?)
  }

  /** `c` already holds everything of `a`, in `a`'s order and under `a`'s wrapper. */
  ghost predicate Covers(a: Value, c: Value)
    decreases c
  {
    match (a, c)
    case (_, Undefined) => a == Undefined
    case (Dict(wa, ka, va), Dict(wc, kc, vc)) =>
      && wa == wc
      && ka <= kc
      && (forall k :: k in kc[|ka|..] ==> !Dangerous(k))
      && (forall k :: k in va && k in vc ==> if Dangerous(k) then va[k] == vc[k] else Covers(va[k], vc[k]))
    case (List(wa, ia), List(wc, ic)) =>
      && wa == wc
      && |ia| <= |ic|
      && (forall i :: 0 <= i < |ia| && i < |ic| ==> Covers(ia[i], ic[i]))
    case _ => true
  }

  lemma {:induction false} FreshOfPrefix(base: seq<string>, overlay: seq<string>)
    requires NoDup(overlay)
    ensures base + Fresh(base, overlay) == overlay <==>
            base <= overlay && forall k :: k in overlay[|base|..] ==> !Dangerous(k)
  {
    if base + Fresh(base, overlay) == overlay {
      assert overlay[|base|..] == Fresh(base, overlay);
      forall k { FreshMembers(base, overlay, k); }
    }
    if base <= overlay && forall k :: k in overlay[|base|..] ==> !Dangerous(k) {
      FreshOfRest(base, overlay, |overlay|);
      assert overlay[..|overlay|] == overlay;
    }
  }

  /** One more overlay key, when base is a prefix of the overlay: an old key adds nothing, a new one itself. */
  lemma FreshOfNext(base: seq<string>, overlay: seq<string>, n: nat)
    requires NoDup(overlay) && base <= overlay && n < |overlay|
    requires forall k :: k in overlay[|base|..] ==> !Dangerous(k)
    ensures Fresh(base, overlay[..n + 1]) == Fresh(base, overlay[..n]) + if n < |base| then [] else [overlay[n]]
  {
    TakeStep(overlay, n);
    FreshStep(base, overlay[..n], overlay[n]);
    if n < |base| {
      OnPrefix(base, overlay, n);
    } else {
      NotInPrefix(base, overlay, n);
      InTail(overlay, |base|, n);
    }
  }

  lemma OnPrefix(base: seq<string>, overlay: seq<string>, n: nat)
    requires base <= overlay && n < |base|
    ensures overlay[n] in base
  {
    assert overlay[n] == base[n];
  }

  lemma InTail(overlay: seq<string>, start: nat, n: nat)
    requires start <= n < |overlay|
    ensures overlay[n] in overlay[start..]
  {
    assert overlay[start..][n - start] == overlay[n];
  }

  lemma NotInPrefix(base: seq<string>, overlay: seq<string>, n: nat)
    requires NoDup(overlay) && base <= overlay && |base| <= n < |overlay|
    ensures overlay[n] !in base
  {
    forall i | 0 <= i < |base| ensures base[i] != overlay[n] {
      assert base[i] == overlay[i];
    }
  }

  lemma {:induction false} FreshOfRest(base: seq<string>, overlay: seq<string>, n: nat)
    requires NoDup(overlay) && base <= overlay && n <= |overlay|
    requires forall k :: k in overlay[|base|..] ==> !Dangerous(k)
    ensures Fresh(base, overlay[..n]) == if n <= |base| then [] else overlay[|base|..n]
  {
    if n > 0 {
      var m := n - 1;
      FreshOfRest(base, overlay, m);
      FreshOfNext(base, overlay, m);
      if m >= |base| {
        SliceOn(overlay, |base|, m);
      }
    }
  }

  lemma {:induction false} MergeYieldsOverlay(a: Value, c: Value)
    requires Valid(a) && Valid(c)
    ensures Merge(a, c) == c <==> Covers(a, c)
    decreases c
  {
    if a.Dict? && c.Dict? {
      YieldsDict(a, c);
    } else if a.List? && c.List? {
      var m := Merge(a, c);
      forall i | 0 <= i < |a.items| && i < |c.items|
        ensures m.items[i] == c.items[i] <==> Covers(a.items[i], c.items[i])
      {
        MergeYieldsOverlay(a.items[i], c.items[i]);
      }
      forall i | |a.items| <= i < |c.items| ensures m.items[i] == c.items[i] {
        UndefinedIsIdentity(c.items[i]);
      }
      if Covers(a, c) {
        assert forall i :: 0 <= i < |c.items| ==> m.items[i] == c.items[i];
        assert m.items == c.items;
      }
    }
  }

  ghost predicate CoversAt(a: Value, c: Value, k: string)
    requires a.Dict? && c.Dict? && k in a.vals && k in c.vals
  {
    if Dangerous(k) then a.vals[k] == c.vals[k] else Covers(a.vals[k], c.vals[k])
  }

  lemma {:induction false} YieldsDict(a: Value, c: Value)
    requires a.Dict? && c.Dict? && Valid(a) && Valid(c)
    ensures Merge(a, c) == c <==> Covers(a, c)
    decreases c, 0
  {
    var m := Merge(a, c);
    FreshOfPrefix(a.keys, c.keys);
    MergedShape(a, c);
    MergeValid(a, c);
    forall k | k in a.vals && k in c.vals ensures k in m.vals && (m.vals[k] == c.vals[k] <==> CoversAt(a, c, k)) {
      MergedVals(a, c, k);
      MergeYieldsOverlay(a.vals[k], c.vals[k]);
    }
    if Covers(a, c) {
      CoveredVals(a, c, m);
    }
  }

  lemma CoveredVals(a: Value, c: Value, m: Value)
    requires a.Dict? && c.Dict? && m == Merge(a, c) && m.Dict? && m.vals.Keys == c.vals.Keys
    requires forall k :: k in a.vals && k in c.vals ==> m.vals[k] == c.vals[k]
    ensures m.vals == c.vals
  {
    forall k | k in c.vals ensures m.vals[k] == c.vals[k] {
      MergedVals(a, c, k);
    }
  }

  // ----- associativity, with its exact side condition -----

  /**
   * At no merged path do the outer two values share a container family while the middle one
   * is defined and outside it, except where `c` covers what `a` had there.
   */
  ghost predicate Regular(a: Value, b: Value, c: Value)
    decreases c
  {
    if !SameFamily(a, c) || b.Undefined? then true
    else if !SameFamily(a, b) then Covers(a, c)
    else if c.Dict? then
      forall k :: k in c.vals && !Dangerous(k) ==> Regular(Get(a.vals, k), Get(b.vals, k), c.vals[k])
    else
      forall i :: 0 <= i < |c.items| ==> Regular(At(a.items, i), At(b.items, i), c.items[i])
  }

  lemma {:induction false} FreshAppend(base: seq<string>, x: seq<string>, y: seq<string>)
    ensures Fresh(base, x + y) == Fresh(base, x) + Fresh(base, y)
  {
    if y == [] {
      assert x + y == x;
    } else {
      FreshAppend(base, x, y[..|y| - 1]);
      assert (x + y)[..|x + y| - 1] == x + y[..|y| - 1];
    }
  }

  lemma {:induction false} FreshTwice(a: seq<string>, b: seq<string>, c: seq<string>)
    ensures Fresh(a, Fresh(b, c)) == Fresh(a + Fresh(a, b), c)
  {
    if c != [] {
      var front, last := c[..|c| - 1], c[|c| - 1];
      FreshTwice(a, b, front);
      FreshMembers(a, b, last);
      if last in b || Dangerous(last) {
        assert Fresh(b, c) == Fresh(b, front);
      } else {
        FreshAppend(a, Fresh(b, front), [last]);
      }
    }
  }

  lemma FreshAssociative(a: seq<string>, b: seq<string>, c: seq<string>)
    ensures a + Fresh(a, b) + Fresh(a + Fresh(a, b), c) == a + Fresh(a, b + Fresh(b, c))
  {
    FreshAppend(a, b, Fresh(b, c));
    FreshTwice(a, b, c);
    ConcatAssociative(a, Fresh(a, b), Fresh(a, Fresh(b, c)));
  }

  lemma {:induction false} MergeAssociative(a: Value, b: Value, c: Value)
    requires Valid(a) && Valid(b) && Valid(c)
    ensures Merge(Merge(a, b), c) == Merge(a, Merge(b, c)) <==> Regular(a, b, c)
    decreases c
  {
    if SameFamily(a, c) && SameFamily(a, b) {
      if c.Dict? { AssociativeDict(a, b, c); } else { AssociativeList(a, b, c); }
    } else if SameFamily(a, c) && !b.Undefined? {
      MergeYieldsOverlay(a, c);
    }
  }

  lemma {:induction false} AssociativeDict(a: Value, b: Value, c: Value)
    requires a.Dict? && b.Dict? && c.Dict?
    requires Valid(a) && Valid(b) && Valid(c)
    ensures Merge(Merge(a, b), c) == Merge(a, Merge(b, c)) <==> Regular(a, b, c)
    decreases c, 0
  {
    var l, r := Merge(Merge(a, b), c), Merge(a, Merge(b, c));
    AssociativeKeys(a, b, c);
    forall k ensures Get(l.vals, k) == Get(r.vals, k) <==>
                     (k in c.vals && !Dangerous(k) ==> Regular(Get(a.vals, k), Get(b.vals, k), c.vals[k]))
    {
      AssociativeAt(a, b, c, k);
      if k in c.vals && !Dangerous(k) {
        MergeAssociative(Get(a.vals, k), Get(b.vals, k), c.vals[k]);
      }
    }
    SameEntries(l.vals, r.vals);
  }

  lemma SameEntries(x: map<string, Value>, y: map<string, Value>)
    requires x.Keys == y.Keys
    ensures x == y <==> forall k :: Get(x, k) == Get(y, k)
  {
    if forall k :: Get(x, k) == Get(y, k) {
      forall k | k in x ensures x[k] == y[k] { assert Get(x, k) == Get(y, k); }
    }
  }

  lemma AssociativeKeys(a: Value, b: Value, c: Value)
    requires a.Dict? && b.Dict? && c.Dict?
    ensures Merge(Merge(a, b), c).Dict? && Merge(a, Merge(b, c)).Dict?
    ensures Merge(Merge(a, b), c).wrap == Merge(a, Merge(b, c)).wrap
    ensures Merge(Merge(a, b), c).keys == Merge(a, Merge(b, c)).keys
    ensures Merge(Merge(a, b), c).vals.Keys == Merge(a, Merge(b, c)).vals.Keys
  {
    FreshAssociative(a.keys, b.keys, c.keys);
    var ab, bc := Merge(a, b), Merge(b, c);
    MergedShape(a, b);
    MergedShape(b, c);
    MergedShape(ab, c);
    MergedShape(a, bc);
  }

  lemma AssociativeAt(a: Value, b: Value, c: Value, k: string)
    requires a.Dict? && b.Dict? && c.Dict?
    ensures Merge(Merge(a, b), c).Dict? && Merge(a, Merge(b, c)).Dict?
    ensures Get(Merge(Merge(a, b), c).vals, k) ==
            if Dangerous(k) then Get(a.vals, k)
            else Merge(Merge(Get(a.vals, k), Get(b.vals, k)), Get(c.vals, k))
    ensures Get(Merge(a, Merge(b, c)).vals, k) ==
            if Dangerous(k) then Get(a.vals, k)
            else Merge(Get(a.vals, k), Merge(Get(b.vals, k), Get(c.vals, k)))
  {
    MergedVals(a, b, k);
    MergedVals(b, c, k);
    MergedVals(Merge(a, b), c, k);
    MergedVals(a, Merge(b, c), k);
  }

  lemma {:induction false} AssociativeList(a: Value, b: Value, c: Value)
    requires a.List? && b.List? && c.List?
    requires Valid(a) && Valid(b) && Valid(c)
    ensures Merge(Merge(a, b), c) == Merge(a, Merge(b, c)) <==> Regular(a, b, c)
    decreases c, 0
  {
    var l, r := Merge(Merge(a, b), c), Merge(a, Merge(b, c));
    assert |l.items| == |r.items|;
    forall i: nat | i < |l.items|
      ensures l.items[i] == r.items[i] <==>
              (i < |c.items| ==> Regular(At(a.items, i), At(b.items, i), c.items[i]))
    {
      if i < |c.items| {
        MergeAssociative(At(a.items, i), At(b.items, i), c.items[i]);
        assert l.items[i] == Merge(Merge(At(a.items, i), At(b.items, i)), c.items[i]);
        assert r.items[i] == Merge(At(a.items, i), Merge(At(b.items, i), c.items[i]));
      }
    }
    if Regular(a, b, c) {
      assert l.items == r.items;
    }
  }

  /** The plainest triple on which merging is not associative: a null between two maps. */
  lemma NullBetweenMaps()
    ensures var a, c := Dict(Plain, ["x"], map["x" := Leaf(Null)]), Dict(Plain, ["y"], map["y" := Leaf(Null)]);
            var b := Leaf(Null);
            && Valid(a) && Valid(b) && Valid(c) && !Regular(a, b, c)
            && Merge(Merge(a, b), c) != Merge(a, Merge(b, c))
  {
    var a, b, c := Dict(Plain, ["x"], map["x" := Leaf(Null)]), Leaf(Null), Dict(Plain, ["y"], map["y" := Leaf(Null)]);
    assert !(a.keys <= c.keys) by { assert a.keys[0] != c.keys[0]; }
    MergeAssociative(a, b, c);
  }

  /** Merging a value into itself changes nothing, at any nesting depth. */
  lemma {:induction false} MergeIdempotent(a: Value)
    requires Valid(a)
    ensures Merge(a, a) == a
  {
    CoversItself(a);
    MergeYieldsOverlay(a, a);
  }

  lemma {:induction false} CoversItself(a: Value)
    ensures Covers(a, a)
  {
    match a
    case Dict(_, keys, vals) =>
      forall k | k in vals ensures Covers(vals[k], vals[k]) { CoversItself(vals[k]); }
    case List(_, items) =>
      forall i | 0 <= i < |items| ensures Covers(items[i], items[i]) { CoversItself(items[i]); }
    case _ =>
  }

  /** Splicing the same source twice is splicing it once. */
  lemma {:induction false} MergeAbsorbs(a: Value, b: Value)
    requires Valid(a) && Valid(b)
    ensures Merge(Merge(a, b), b) == Merge(a, b)
  {
    MergeAssociative(a, b, b);
    RepeatedOverlayIsRegular(a, b);
    MergeIdempotent(b);
  }

  lemma {:induction false} RepeatedOverlayIsRegular(a: Value, b: Value)
    ensures Regular(a, b, b)
    decreases b
  {
    if SameFamily(a, b) {
      if b.Dict? {
        forall k | k in b.vals { RepeatedOverlayIsRegular(Get(a.vals, k), b.vals[k]); }
      } else {
        forall i: nat | i < |b.items| { RepeatedOverlayIsRegular(At(a.items, i), b.items[i]); }
      }
    }
  }

  // ----- the splice into the enclosing map -----

  /** The overlay keys a shallow overwrite appends: those the base lacks, in overlay order. */
  function Unseen(base: seq<string>, overlay: seq<string>): seq<string> {
    if overlay == [] then []
    else
      var last := overlay[|overlay| - 1];
      Unseen(base, overlay[..|overlay| - 1]) + if last in base then [] else [last]
  }

  /** A shallow per-key overwrite, as `Object.assign` does; anything but two maps is left alone. */
  function Assign(base: Value, overlay: Value): Value {
    if base.Dict? && overlay.Dict? then
      Dict(base.wrap, base.keys + Unseen(base.keys, overlay.keys), base.vals + overlay.vals)
    else base
  }

  function Splice(extend: bool, target: Value, value: Value): Value {
    if extend then Merge(target, value) else Assign(target, value)
  }

  lemma {:induction false} UnseenMembers(base: seq<string>, overlay: seq<string>, k: string)
    ensures k in Unseen(base, overlay) <==> k in overlay && k !in base
  {
    if overlay != [] {
      var front, last := overlay[..|overlay| - 1], overlay[|overlay| - 1];
      assert overlay == front + [last];
      UnseenMembers(base, front, k);
    }
  }

  lemma {:induction false} UnseenNoDup(base: seq<string>, overlay: seq<string>)
    requires NoDup(base) && NoDup(overlay)
    ensures NoDup(base + Unseen(base, overlay))
  {
    if overlay != [] {
      var front, last := overlay[..|overlay| - 1], overlay[|overlay| - 1];
      assert overlay == front + [last];
      UnseenNoDup(base, front);
      UnseenMembers(base, front, last);
      assert base + (Unseen(base, front) + [last]) == (base + Unseen(base, front)) + [last];
      assert base + (Unseen(base, front) + []) == base + Unseen(base, front);
    }
  }

  /** Whichever way a source is spliced, the enclosing node stays well formed. */
  lemma SpliceValid(extend: bool, target: Value, value: Value)
    requires Valid(target) && Valid(value)
    ensures Valid(Splice(extend, target, value))
  {
    if extend {
      MergeValid(target, value);
    } else if target.Dict? && value.Dict? {
      var s := Assign(target, value);
      UnseenNoDup(target.keys, value.keys);
      forall k ensures k in Elems(s.keys) <==> k in s.vals {
        UnseenMembers(target.keys, value.keys, k);
        assert (k in target.keys <==> k in Elems(target.keys)) && (k in value.keys <==> k in Elems(value.keys));
      }
    }
  }

  /** The base's entries once the overlay's keys `done` have been written over them. */
  ghost function AssignedUpTo(bv: map<string, Value>, done: seq<string>, ov: map<string, Value>): map<string, Value>
  {
    map k | k in bv.Keys + ov.Keys && (k in bv || k in done) :: if k in done && k in ov then ov[k] else bv[k]
  }

  lemma AssignedStep(bv: map<string, Value>, done: seq<string>, key: string, ov: map<string, Value>)
    requires key in ov && key !in done
    ensures AssignedUpTo(bv, done + [key], ov) == AssignedUpTo(bv, done, ov)[key := ov[key]]
    ensures key in AssignedUpTo(bv, done, ov) <==> key in bv
  {
  }

  lemma UnseenStep(bk: seq<string>, done: seq<string>, key: string)
    ensures bk + Unseen(bk, done + [key]) == bk + Unseen(bk, done) + if key in bk then [] else [key]
  {
    assert (done + [key])[..|done|] == done;
    ConcatAssociative(bk, Unseen(bk, done), if key in bk then [] else [key]);
  }

  lemma AssignedAll(bv: map<string, Value>, ok: seq<string>, ov: map<string, Value>)
    requires Elems(ok) == ov.Keys
    ensures AssignedUpTo(bv, ok, ov) == bv + ov
  {
    assert forall k :: k in ok <==> k in Elems(ok);
  }

  method AssignEntries(bk: seq<string>, bv: map<string, Value>, ok: seq<string>, ov: map<string, Value>)
    returns (keys: seq<string>, vals: map<string, Value>)
    requires Elems(bk) == bv.Keys && Elems(ok) == ov.Keys && NoDup(ok)
    ensures keys == bk + Unseen(bk, ok)
    ensures vals == bv + ov
  {
    keys, vals := bk, bv;
    for i := 0 to |ok|
      invariant keys == bk + Unseen(bk, ok[..i])
      invariant vals == AssignedUpTo(bv, ok[..i], ov)
    {
      var key := ok[i];
      TakeStep(ok, i);
      MembersAreElems(bk);
      AssignedStep(bv, ok[..i], key, ov);
      UnseenStep(bk, ok[..i], key);
      if key !in vals {
        keys := keys + [key];
      }
      vals := vals[key := ov[key]];
    }
    assert ok[..|ok|] == ok;
    AssignedAll(bv, ok, ov);
  }

  /** A pair's value merges onto what the key already held; on a node that is no map it is dropped. */
  function PutUnder(extend: bool, target: Value, key: string, value: Value): Value {
    if !target.Dict? then target
    else
      Dict(target.wrap,
           if key in target.vals then target.keys else target.keys + [key],
           target.vals[key := if extend then Merge(Get(target.vals, key), value) else value])
  }

  lemma PutUnderValid(extend: bool, target: Value, key: string, value: Value)
    requires Valid(target) && Valid(value)
    ensures Valid(PutUnder(extend, target, key, value))
  {
    if target.Dict? {
      MergeValid(Get(target.vals, key), value);
      HeldValid(target, key, if extend then Merge(Get(target.vals, key), value) else value);
    }
  }

  lemma HeldValid(target: Value, key: string, held: Value)
    requires target.Dict? && Valid(target) && Valid(held)
    ensures var keys := if key in target.vals then target.keys else target.keys + [key];
            Valid(Dict(target.wrap, keys, target.vals[key := held]))
  {
    MembersAreElems(target.keys);
    ElemsAppend(target.keys, key);
  }

  /** The shared node cell of a rule: the parser's map under construction. */
  class Cell {
    var node: Value

    constructor (node: Value)
      ensures this.node == node
    {
      this.node := node;
    }

    method SpliceInto(extend: bool, value: Value)
      requires Valid(node) && Valid(value)
      modifies this
      ensures node == Splice(extend, old(node), value)
      ensures Valid(node)
    {
      SpliceValid(extend, node, value);
      if extend {
        node := DeepMerge(node, value);
      } else if value.Dict? && node.Dict? {
        var keys, vals := AssignEntries(node.keys, node.vals, value.keys, value.vals);
        node := Dict(node.wrap, keys, vals);
      }
    }

    method PutPair(extend: bool, key: string, value: Value)
      requires Valid(node) && Valid(value)
      modifies this
      ensures node == PutUnder(extend, old(node), key, value)
      ensures Valid(node)
    {
      PutUnderValid(extend, node, key, value);
      if node.Dict? {
        var held := value;
        if extend {
          held := DeepMerge(Get(node.vals, key), value);
        }
        node := Dict(node.wrap, if key in node.vals then node.keys else node.keys + [key], node.vals[key := held]);
      }
    }
  }
}
