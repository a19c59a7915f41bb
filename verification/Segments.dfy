/**
 * The threads that a chain of nested sources is parsed on. A nested parse runs inside the parse
 * that referenced it; at every other depth it is given a thread of its own, and joined.
 */
module Segments {
  const SEGMENT: nat := 2

  /** The nested parses that are under way, and the parse frames on each live thread, the caller's first. */
  datatype State = State(depth: nat, frames: seq<nat>)

  /** The caller's own document, on the caller's thread. */
  const START: State := State(0, [1])

  datatype Action = Enter | Leave

  /** A load is refused at the depth cap; a parse can return when it is nested. */
  predicate Enabled(s: State, a: Action, maxDepth: nat) {
    match a
    case Enter => s.depth < maxDepth && s.frames != []
    case Leave => s.depth > 0 && s.frames != [] && s.frames[|s.frames| - 1] > 0
  }

  function Apply(s: State, a: Action, maxDepth: nat): State
    requires Enabled(s, a, maxDepth)
  {
    var last := |s.frames| - 1;
    match a
    case Enter =>
      if s.depth % SEGMENT != 1 then State(s.depth + 1, s.frames[last := s.frames[last] + 1])
      else State(s.depth + 1, s.frames + [1])
    case Leave =>
      if s.frames[last] == 1 then State(s.depth - 1, s.frames[..last])
      else State(s.depth - 1, s.frames[last := s.frames[last] - 1])
  }

  ghost predicate IsRun(run: seq<State>, actions: seq<Action>, maxDepth: nat) {
    && |run| == |actions| + 1 && run[0] == START
    && forall i :: 0 <= i < |actions| ==>
         Enabled(run[i], actions[i], maxDepth) && run[i + 1] == Apply(run[i], actions[i], maxDepth)
  }

  /** The frames that a chain of this depth leaves: full threads, and what is on the innermost. */
  function Layout(depth: nat): seq<nat> {
    seq(1 + depth / 2, i => if i < depth / 2 then 2 else 1 + depth % 2)
  }

  function Sum(s: seq<nat>): nat {
    if s == [] then 0 else Sum(s[..|s| - 1]) + s[|s| - 1]
  }

  lemma LayoutStep(depth: nat)
    ensures Layout(depth + 1) ==
            if depth % 2 == 1 then Layout(depth) + [1] else Layout(depth)[depth / 2 := 2]
  {
    var one, next := Layout(depth), Layout(depth + 1);
    if depth % 2 == 1 {
      assert (depth + 1) / 2 == depth / 2 + 1 && (depth + 1) % 2 == 0;
      assert next == one + [1];
    } else {
      assert (depth + 1) / 2 == depth / 2 && (depth + 1) % 2 == 1;
      assert next == one[depth / 2 := 2];
    }
  }

  lemma {:induction false} LayoutSum(depth: nat)
    ensures Sum(Layout(depth)) == depth + 1
  {
    if depth == 0 {
      assert Layout(0) == [1];
    } else {
      LayoutSum(depth - 1);
      LayoutStep(depth - 1);
      var one, next := Layout(depth - 1), Layout(depth);
      if depth % 2 == 0 {
        assert next[..|next| - 1] == one;
      } else {
        assert next[..|next| - 1] == one[..|one| - 1];
      }
    }
  }

  lemma EnterLayout(s: State, maxDepth: nat)
    requires s.frames == Layout(s.depth) && Enabled(s, Enter, maxDepth)
    ensures Apply(s, Enter, maxDepth).frames == Layout(s.depth + 1)
  {
    LayoutStep(s.depth);
  }

  lemma LeaveLayout(s: State, maxDepth: nat)
    requires s.frames == Layout(s.depth) && Enabled(s, Leave, maxDepth)
    ensures Apply(s, Leave, maxDepth).frames == Layout(s.depth - 1)
  {
    LayoutStep(s.depth - 1);
    var last := |s.frames| - 1;
    if (s.depth - 1) % 2 == 1 {
      assert s.frames[..last] == Layout(s.depth - 1);
    } else {
      assert s.frames[last := 1] == Layout(s.depth - 1);
    }
  }

  /** However sources come and go, the threads and their frames are a function of the depth alone. */
  lemma {:induction false} DepthDecides(run: seq<State>, actions: seq<Action>, maxDepth: nat, i: nat)
    requires IsRun(run, actions, maxDepth) && i < |run|
    ensures run[i].frames == Layout(run[i].depth) && run[i].depth <= maxDepth
  {
    if i == 0 {
      assert Layout(0) == [1];
    } else {
      DepthDecides(run, actions, maxDepth, i - 1);
      if actions[i - 1].Enter? {
        EnterLayout(run[i - 1], maxDepth);
      } else {
        LeaveLayout(run[i - 1], maxDepth);
      }
    }
  }

  /**
   * No thread ever holds more than two parse frames; every frame is on some thread; a chain of n
   * nested sources has n / 2 threads beside the caller's, and the depth cap bounds those.
   */
  lemma StacksStayShallow(run: seq<State>, actions: seq<Action>, maxDepth: nat, i: nat)
    requires IsRun(run, actions, maxDepth) && i < |run|
    ensures forall t :: 0 <= t < |run[i].frames| ==> 1 <= run[i].frames[t] <= SEGMENT
    ensures Sum(run[i].frames) == run[i].depth + 1
    ensures |run[i].frames| - 1 == run[i].depth / 2 <= maxDepth / 2
  {
    DepthDecides(run, actions, maxDepth, i);
    LayoutSum(run[i].depth);
  }
}
