/** The in-memory filesystem: canonical keys to content, with folders implied by the keys. */
module MapFs {
  import opened Common
  import opened Vfs

  /** Every key is its own canonical form, as insertion makes it. */
  ghost predicate Canonical(files: map<string, string>) {
    forall k :: k in files ==> Clean(k) == k
  }

  function ReadFile(files: map<string, string>, path: string): Option<string> {
    var key := Clean(path);
    if key in files then Some(files[key]) else None
  }

  function JoinPaths(parts: seq<string>): string { Clean(Join(parts)) }

  /** The position of the last slash, or -1. */
  function LastSlash(s: string): (i: int)
    ensures -1 <= i < |s| && (i >= 0 ==> s[i] == '/') && '/' !in s[i + 1..]
  {
    if s == "" then -1 else if s[|s| - 1] == '/' then |s| - 1 else LastSlash(s[..|s| - 1])
  }

  function Dir(path: string): string {
    var cleaned := Clean(path);
    var i := LastSlash(cleaned);
    if i > 0 then cleaned[..i] else "."
  }

  lemma InsertedReads(files: map<string, string>, path: string, content: string, q: string)
    ensures ReadFile(files[Clean(path) := content], q) ==
            if Segments(q) == Segments(path) then Some(content) else ReadFile(files, q)
  {
    CleanIsCanonical(q, path);
  }

  class Store {
    var files: map<string, string>

    constructor ()
      ensures files == map[]
    {
      files := map[];
    }

    /** One file goes in, under every spelling of its path; every other path reads as before. */
    method Insert(path: string, content: string)
      requires Canonical(files)
      modifies this
      ensures Canonical(files)
      ensures forall q :: ReadFile(files, q) ==
                if Segments(q) == Segments(path) then Some(content) else ReadFile(old(files), q)
    {
      CleanIdempotent(path);
      files := files[Clean(path) := content];
      forall q
        ensures ReadFile(files, q) == if Segments(q) == Segments(path) then Some(content) else ReadFile(old(files), q)
      {
        InsertedReads(old(files), path, content, q);
      }
    }
  }

  lemma {:induction false} SplitLast(a: string, b: string)
    requires '/' !in b
    ensures LastSlash(a + "/" + b) == |a|
    decreases b
  {
    var whole := a + "/" + b;
    if b == "" {
    } else {
      var front := b[..|b| - 1];
      assert whole[..|whole| - 1] == a + "/" + front;
      assert whole[|whole| - 1] == b[|b| - 1] && b[|b| - 1] in b;
      assert forall c :: c in front ==> c in b;
      SplitLast(a, front);
    }
  }

  lemma {:induction false} NoSlash(s: string)
    requires '/' !in s
    ensures LastSlash(s) == -1
  {
    if s != "" {
      assert s[|s| - 1] in s && forall c :: c in s[..|s| - 1] ==> c in s;
      NoSlash(s[..|s| - 1]);
    }
  }

  /** The parent of a path is its segments but the last; the root is its own parent. */
  lemma DirDropsLast(path: string)
    ensures var segments := Segments(path);
            Dir(path) == Rendered(if segments == [] then [] else segments[..|segments| - 1])
  {
    SegmentsArePlain(path);
    DropsLast(Segments(path), Rendered(Segments(path)));
  }

  lemma DropsLast(segments: seq<string>, path: string)
    requires AllPlain(segments) && path == Rendered(segments)
    ensures (if LastSlash(path) > 0 then path[..LastSlash(path)] else ".") ==
            Rendered(if segments == [] then [] else segments[..|segments| - 1])
  {
    if segments == [] {
      NoSlash(".");
    } else if |segments| == 1 {
      assert Plain(segments[0]);
      NoSlash(segments[0]);
    } else {
      var front, last := segments[..|segments| - 1], segments[|segments| - 1];
      assert segments == front + [last] && Plain(last);
      JoinConcat(front, [last]);
      SplitLast(Join(front), last);
      RenderedIsDot(front);
    }
  }

  lemma DirOfRendered(segments: seq<string>)
    requires AllPlain(segments)
    ensures Dir(Rendered(segments)) == Rendered(if segments == [] then [] else segments[..|segments| - 1])
  {
    SegmentsOfRendered(segments);
    DirDropsLast(Rendered(segments));
  }

  lemma RenderedInjective(a: seq<string>, b: seq<string>)
    requires AllPlain(a) && AllPlain(b) && Rendered(a) == Rendered(b)
    ensures a == b
  {
    SegmentsOfRendered(a);
    SegmentsOfRendered(b);
  }

  // ----- keys as segments -----

  /** The segments of a canonical key; the root's own key is the single segment `.`. */
  ghost function Parts(key: string): seq<string> {
    if key == "." then ["."] else Segments(key)
  }

  lemma PartsOfKey(key: string)
    requires Clean(key) == key
    ensures Parts(key) != [] && Join(Parts(key)) == key
    ensures forall i :: 0 <= i < |Parts(key)| ==> Parts(key)[i] != "" && '/' !in Parts(key)[i]
    ensures key != "." ==> AllPlain(Parts(key))
  {
    SegmentsArePlain(key);
    assert Segments(key) == [] ==> Clean(key) == ".";
  }
}
