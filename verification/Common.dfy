/** Small vocabulary shared by every module of the model. */
module Common {

  datatype Option<+T> = None | Some(value: T)

  ghost predicate NoDup<T>(s: seq<T>) {
    forall i, j :: 0 <= i < j < |s| ==> s[i] != s[j]
  }

  ghost function Elems<T>(s: seq<T>): set<T> {
    set x | x in s
  }

  lemma ElemsAppend<T>(s: seq<T>, x: T)
    ensures Elems(s + [x]) == Elems(s) + {x}
  {
    assert forall y :: y in s + [x] <==> y in s || y == x;
  }

  /** A duplicate-free sequence is as long as its set of elements is large. */
  lemma {:induction false} NoDupCardinality<T>(s: seq<T>)
    requires NoDup(s)
    ensures |Elems(s)| == |s|
  {
    if s == [] {
    } else {
      var front, x := s[..|s| - 1], s[|s| - 1];
      assert s == front + [x];
      NoDupCardinality(front);
      ElemsAppend(front, x);
      assert x !in front;
    }
  }

  lemma SubsetCardinality<T>(a: set<T>, b: set<T>)
    requires a <= b
    ensures |a| <= |b|
    ensures |a| == |b| ==> a == b
  {
    assert b == a + (b - a);
    assert |b| == |a| + |b - a|;
  }

  /** The pigeonhole principle, for duplicate-free sequences over a finite universe. */
  lemma NoDupBounded<T>(s: seq<T>, universe: set<T>)
    requires NoDup(s) && Elems(s) <= universe
    ensures |s| <= |universe|
  {
    NoDupCardinality(s);
    SubsetCardinality(Elems(s), universe);
  }

  lemma ConcatAssociative<T>(a: seq<T>, b: seq<T>, c: seq<T>)
    ensures a + b + c == a + (b + c)
  {
  }

  lemma MoveFirst<T>(done: seq<T>, rest: seq<T>)
    requires rest != []
    ensures done + [rest[0]] + rest[1..] == done + rest
  {
  }

  lemma SliceOn<T>(s: seq<T>, start: nat, n: nat)
    requires start <= n < |s|
    ensures s[start..n + 1] == s[start..n] + [s[n]]
  {
  }

  /** Taking one more element of a duplicate-free sequence. */
  lemma TakeStep<T>(s: seq<T>, i: nat)
    requires i < |s| && NoDup(s)
    ensures s[..i + 1] == s[..i] + [s[i]]
    ensures s[i] !in s[..i] && s[i] in Elems(s)
    ensures Elems(s[..i]) <= Elems(s)
  {
  }

  lemma MembersAreElems<T>(s: seq<T>)
    ensures forall x :: x in s <==> x in Elems(s)
  {
  }
}
