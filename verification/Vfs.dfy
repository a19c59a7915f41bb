/** Path normalisation and the sandbox comparison, on slash-separated paths. */
module Vfs {
  import opened Common

  // ----- splitting and joining -----

  function Split(s: string): (segments: seq<string>)
    ensures segments != [] && forall i :: 0 <= i < |segments| ==> '/' !in segments[i]
  {
    if s == "" then [""]
    else
      var rest := Split(s[1..]);
      if s[0] == '/' then [""] + rest else [[s[0]] + rest[0]] + rest[1..]
  }

  function Join(segments: seq<string>): string {
    if segments == [] then ""
    else if |segments| == 1 then segments[0]
    else segments[0] + "/" + Join(segments[1..])
  }

  lemma JoinTwo(a: string, b: string)
    ensures Join([a, b]) == a + "/" + b
  {
    assert [a, b][1..] == [b];
  }

  lemma JoinThree(a: string, b: string, c: string)
    ensures Join([a, b, c]) == a + "/" + (b + "/" + c) == (a + "/" + b) + "/" + c
  {
    assert [a, b, c][1..] == [b, c];
    JoinTwo(b, c);
  }

  /** Backslashes become slashes. */
  function Unify(path: string): string {
    seq(|path|, i requires 0 <= i < |path| => if path[i] == '\\' then '/' else path[i])
  }

  // ----- the normaliser -----

  function Push(stack: seq<string>, segment: string): seq<string> {
    if segment == "" || segment == "." then stack
    else if segment == ".." then (if stack == [] then [] else stack[..|stack| - 1])
    else stack + [segment]
  }

  function Normalize(stack: seq<string>, segments: seq<string>): seq<string>
    decreases segments
  {
    if segments == [] then stack else Normalize(Push(stack, segments[0]), segments[1..])
  }

  /** The segments that a path comes down to. */
  function Segments(path: string): seq<string> {
    Normalize([], Split(Unify(path)))
  }

  function Rendered(segments: seq<string>): string {
    if segments == [] then "." else Join(segments)
  }

  function Clean(path: string): string {
    Rendered(Segments(path))
  }

  method CleanByStack(path: string) returns (cleaned: string)
    ensures cleaned == Clean(path)
  {
    var segments := Split(Unify(path));
    var parts: seq<string> := [];
    for i := 0 to |segments|
      invariant Normalize(parts, segments[i..]) == Segments(path)
    {
      assert segments[i..][1..] == segments[i + 1..];
      if segments[i] == "" || segments[i] == "." {
      } else if segments[i] == ".." {
        if parts != [] {
          parts := parts[..|parts| - 1];
        }
      } else {
        parts := parts + [segments[i]];
      }
    }
    cleaned := if parts == [] then "." else Join(parts);
  }

  /** A segment that stands for itself: neither empty nor a dot form, and without separators. */
  ghost predicate Plain(segment: string) {
    segment != "" && segment != "." && segment != ".." && '/' !in segment && '\\' !in segment
  }

  ghost predicate AllPlain(segments: seq<string>) {
    forall i :: 0 <= i < |segments| ==> Plain(segments[i])
  }

  lemma {:induction false} SplitConcat(a: string, b: string)
    ensures Split(a + "/" + b) == Split(a) + Split(b)
  {
    if a == "" {
      assert (a + "/" + b)[1..] == b;
    } else {
      assert (a + "/" + b)[1..] == a[1..] + "/" + b;
      SplitConcat(a[1..], b);
    }
  }

  lemma {:induction false} SplitWhole(s: string)
    requires '/' !in s
    ensures Split(s) == [s]
  {
    if s != "" {
      assert s[0] in s && forall c :: c in s[1..] ==> c in s;
      SplitWhole(s[1..]);
      assert [s[0]] + s[1..] == s;
    }
  }

  lemma {:induction false} SplitJoin(segments: seq<string>)
    requires segments != [] && forall i :: 0 <= i < |segments| ==> '/' !in segments[i]
    ensures Split(Join(segments)) == segments
  {
    SplitWhole(segments[0]);
    if |segments| > 1 {
      SplitJoin(segments[1..]);
      SplitConcat(segments[0], Join(segments[1..]));
    }
  }

  lemma {:induction false} JoinConcat(a: seq<string>, b: seq<string>)
    requires a != [] && b != []
    ensures Join(a + b) == Join(a) + "/" + Join(b)
  {
    if |a| == 1 {
      assert (a + b)[1..] == b;
    } else {
      assert (a + b)[1..] == a[1..] + b;
      JoinConcat(a[1..], b);
    }
  }

  lemma {:induction false} SplitNoBackslash(s: string)
    requires '\\' !in s
    ensures forall i :: 0 <= i < |Split(s)| ==> '\\' !in Split(s)[i]
  {
    if s != "" {
      assert s[0] in s && forall c :: c in s[1..] ==> c in s;
      SplitNoBackslash(s[1..]);
    }
  }

  lemma {:induction false} JoinNoBackslash(segments: seq<string>)
    requires AllPlain(segments)
    ensures '\\' !in Join(segments)
  {
    if |segments| > 1 {
      JoinNoBackslash(segments[1..]);
    }
  }

  lemma UnifyIdentity(s: string)
    requires '\\' !in s
    ensures Unify(s) == s
  {
    assert forall i :: 0 <= i < |s| ==> s[i] in s;
  }

  lemma UnifyNoBackslash(s: string)
    ensures '\\' !in Unify(s)
  {
  }

  lemma {:induction false} NormalizePlain(stack: seq<string>, segments: seq<string>)
    requires AllPlain(stack)
    requires forall i :: 0 <= i < |segments| ==> '/' !in segments[i] && '\\' !in segments[i]
    ensures AllPlain(Normalize(stack, segments))
    decreases segments
  {
    if segments != [] {
      NormalizePlain(Push(stack, segments[0]), segments[1..]);
    }
  }

  lemma {:induction false} NormalizeAppends(stack: seq<string>, segments: seq<string>)
    requires AllPlain(segments)
    ensures Normalize(stack, segments) == stack + segments
    decreases segments
  {
    if segments == [] {
      assert stack + segments == stack;
    } else {
      assert Plain(segments[0]);
      NormalizeAppends(stack + [segments[0]], segments[1..]);
      MoveFirst(stack, segments);
    }
  }

  lemma {:induction false} NormalizeConcat(stack: seq<string>, a: seq<string>, b: seq<string>)
    ensures Normalize(stack, a + b) == Normalize(Normalize(stack, a), b)
    decreases a
  {
    if a == [] {
      assert a + b == b;
    } else {
      assert (a + b)[1..] == a[1..] + b;
      NormalizeConcat(Push(stack, a[0]), a[1..], b);
    }
  }

  /** No segment of a normalised path is empty or a dot form. */
  lemma SegmentsArePlain(path: string)
    ensures AllPlain(Segments(path))
  {
    UnifyNoBackslash(path);
    SplitNoBackslash(Unify(path));
    NormalizePlain([], Split(Unify(path)));
  }

  /** A path rendered from plain segments comes down to those segments. */
  lemma SegmentsOfRendered(segments: seq<string>)
    requires AllPlain(segments)
    ensures Segments(Rendered(segments)) == segments
  {
    if segments == [] {
      UnifyIdentity(".");
      SplitWhole(".");
      assert ["."][1..] == [];
    } else {
      JoinNoBackslash(segments);
      UnifyIdentity(Join(segments));
      SplitJoin(segments);
      NormalizeAppends([], segments);
      assert [] + segments == segments;
    }
  }

  lemma SegmentsOfClean(path: string)
    ensures Segments(Clean(path)) == Segments(path)
  {
    SegmentsArePlain(path);
    SegmentsOfRendered(Segments(path));
  }

  /** Normalising twice is normalising once. */
  lemma CleanIdempotent(path: string)
    ensures Clean(Clean(path)) == Clean(path)
  {
    SegmentsOfClean(path);
  }

  /** Two paths have one canonical form exactly when they come down to the same segments. */
  lemma CleanIsCanonical(p: string, q: string)
    ensures Clean(p) == Clean(q) <==> Segments(p) == Segments(q)
  {
    SegmentsOfClean(p);
    SegmentsOfClean(q);
  }

  lemma SegmentsOfConcat(a: string, b: string)
    ensures Segments(a + "/" + b) == Normalize(Segments(a), Split(Unify(b)))
  {
    assert Unify(a + "/" + b) == Unify(a) + "/" + Unify(b);
    SplitConcat(Unify(a), Unify(b));
    NormalizeConcat([], Split(Unify(a)), Split(Unify(b)));
  }

  /** A prefix may be normalised before the rest is appended. */
  lemma CleanPrefixFirst(a: string, b: string)
    ensures Clean(a + "/" + b) == Clean(Clean(a) + "/" + b)
  {
    SegmentsOfConcat(a, b);
    SegmentsOfConcat(Clean(a), b);
    SegmentsOfClean(a);
  }

  // ----- what becomes of each kind of segment -----

  lemma OneSegment(name: string)
    requires '/' !in name && '\\' !in name
    ensures Split(Unify(name)) == [name]
  {
    UnifyIdentity(name);
    SplitWhole(name);
  }

  lemma {:induction false} NormalizeOne(stack: seq<string>, segment: string)
    ensures Normalize(stack, [segment]) == Push(stack, segment)
  {
    assert [segment][1..] == [];
  }

  lemma SegmentsBelow(a: string, name: string)
    requires '/' !in name && '\\' !in name
    ensures Segments(a + "/" + name) == Push(Segments(a), name)
  {
    SegmentsOfConcat(a, name);
    OneSegment(name);
    NormalizeOne(Segments(a), name);
  }

  lemma SameBelow(a: string, a': string, b: string)
    requires Segments(a) == Segments(a')
    ensures Clean(a + "/" + b) == Clean(a' + "/" + b)
  {
    SegmentsOfConcat(a, b);
    SegmentsOfConcat(a', b);
  }

  /** Two dots take the segment before them away. */
  lemma DotDotGoesUp(a: string, name: string, b: string)
    requires Plain(name)
    ensures Clean(a + "/" + name + "/.." + "/" + b) == Clean(a + "/" + b)
  {
    SegmentsBelow(a, name);
    SegmentsBelow(a + "/" + name, "..");
    assert (a + "/" + name) + "/" + ".." == a + "/" + name + "/..";
    SameBelow(a + "/" + name + "/..", a, b);
  }

  /** At the top there is nothing to take away. */
  lemma DotDotStopsAtTop(b: string)
    ensures Clean(".." + "/" + b) == Clean(b)
  {
    OneSegment("..");
    NormalizeOne([], "..");
    SegmentsOfConcat("..", b);
  }

  /** A dot, or nothing between two slashes, stands for the place itself. */
  lemma DotStays(a: string, b: string)
    ensures Clean(a + "/." + "/" + b) == Clean(a + "/" + b)
    ensures Clean(a + "/" + "/" + b) == Clean(a + "/" + b)
  {
    SegmentsBelow(a, ".");
    SegmentsBelow(a, "");
    assert a + "/" + "." == a + "/." && a + "/" + "" == a + "/";
    SameBelow(a + "/.", a, b);
    SameBelow(a + "/", a, b);
  }

  /** So does a slash at either end. */
  lemma SlashesAtEnds(a: string)
    ensures Clean("/" + a) == Clean(a) && Clean(a + "/") == Clean(a) && Clean("") == "."
  {
    SegmentsBelow(a, "");
    SegmentsOfConcat("", a);
    OneSegment("");
    NormalizeOne([], "");
    assert "" + "/" + a == "/" + a && a + "/" + "" == a + "/";
  }

  /** Backslashes separate like slashes. */
  lemma BackslashSeparates(a: string, b: string)
    ensures Clean(a + "\\" + b) == Clean(a + "/" + b)
  {
    assert Unify(a + "\\" + b) == Unify(a + "/" + b);
  }

  /** Plain segments joined by slashes are a path that stays as it is. */
  lemma PlainStays(segments: seq<string>)
    requires AllPlain(segments) && segments != []
    ensures Clean(Join(segments)) == Join(segments)
  {
    SegmentsOfRendered(segments);
  }

  // ----- the sandbox -----

  predicate WithinRoot(candidate: string, root: string) {
    var c, r := Clean(candidate), Clean(root);
    r == "." || c == r || r + "/" <= c
  }

  lemma JoinPrefix(r: seq<string>, c: seq<string>)
    requires r != [] && AllPlain(r) && AllPlain(c)
    ensures Join(r) + "/" <= Join(c) <==> r < c
  {
    if r < c {
      assert c == r + c[|r|..];
      JoinConcat(r, c[|r|..]);
    }
    if Join(r) + "/" <= Join(c) {
      var rest := Join(c)[|Join(r)| + 1..];
      assert Join(c) == Join(r) + "/" + rest;
      SplitConcat(Join(r), rest);
      SplitJoin(r);
      assert c != [] by { assert Join([]) == ""; }
      SplitJoin(c);
    }
  }

  /**
   * The string comparison decides containment by whole segments: `..` cannot climb out, and a
   * sibling whose name merely starts like the root's is not inside.
   */
  lemma WithinRootBySegments(candidate: string, root: string)
    ensures WithinRoot(candidate, root) <==> Segments(root) <= Segments(candidate)
  {
    var c, r := Segments(candidate), Segments(root);
    SegmentsArePlain(candidate);
    SegmentsArePlain(root);
    CleanIsCanonical(candidate, root);
    if r == [] {
    } else {
      assert Clean(root) != "." by { RenderedIsDot(r); }
      if c == [] {
        assert |Join(r)| > 0 && r[0] != "" by { RenderedIsDot(r); }
      } else {
        JoinPrefix(r, c);
      }
    }
  }

  lemma RenderedIsDot(segments: seq<string>)
    requires AllPlain(segments) && segments != []
    ensures Join(segments) != "." && |Join(segments)| > 0
  {
    SplitJoin(segments);
    SplitWhole(".");
    assert segments[0] != "" && segments[0] != ".";
  }
}
