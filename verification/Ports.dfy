/**
 * The Rust and the Go port piece by piece: kinds, folders, resolutions, coercions and splices, each with
 * the exact condition under which they agree.
 */
module Ports {
  import opened Common
  import opened References
  import opened Expand
  import opened Values
  import opened GoPort
  import FileResolver
  import Numbers

  // ----- kinds -----

  /** What follows the last slash; backslashes are kept. */
  function SlashTail(path: string): string {
    if path == "" || path[|path| - 1] == '/' then "" else SlashTail(path[..|path| - 1]) + [path[|path| - 1]]
  }

  lemma {:induction false} SlashTailWhole(path: string)
    requires '/' !in path
    ensures SlashTail(path) == path
  {
    if path != "" {
      assert path[|path| - 1] in path && forall c :: c in path[..|path| - 1] ==> c in path;
      SlashTailWhole(path[..|path| - 1]);
    }
  }

  lemma AfterDotOn(s: string, c: char)
    ensures AfterLastDot(s + [c]) ==
            if c == '.' then Some("")
            else match AfterLastDot(s) case None => None case Some(ext) => Some(ext + [c])
  {
    assert (s + [c])[..|s|] == s;
  }

  lemma {:induction false} AfterDotSome(s: string)
    ensures AfterLastDot(s).Some? <==> '.' in s
  {
    if s != "" {
      assert s == s[..|s| - 1] + [s[|s| - 1]];
      AfterDotSome(s[..|s| - 1]);
    }
  }

  /** The Go port's extension is what follows the last dot after the last slash. */
  lemma {:induction false} GoExtIs(path: string)
    ensures GoExt(path) == match AfterLastDot(SlashTail(path)) case None => "" case Some(ext) => "." + ext
  {
    if path != "" && path[|path| - 1] != '/' {
      var front, c := path[..|path| - 1], path[|path| - 1];
      GoExtIs(front);
      AfterDotOn(SlashTail(front), c);
    }
  }

  lemma LastSegmentOn(front: string, c: char)
    ensures LastSegment(front + [c]) == if IsSeparator(c) then "" else LastSegment(front) + [c]
  {
    assert (front + [c])[..|front|] == front;
  }

  /** The last segment ends what follows the last slash; a dot that it lacks leaves a backslash in the kind. */
  lemma {:induction false} TailParts(path: string)
    ensures var tail, segment := SlashTail(path), LastSegment(path);
            && ('.' in segment ==> '.' in tail && AfterLastDot(tail) == AfterLastDot(segment))
            && ('.' !in segment && '.' in tail ==> AfterLastDot(tail).Some? && '\\' in AfterLastDot(tail).value)
  {
    if path != "" {
      var front, c := path[..|path| - 1], path[|path| - 1];
      assert path == front + [c];
      TailParts(front);
      LastSegmentOn(front, c);
      AfterDotOn(SlashTail(front), c);
      AfterDotOn(LastSegment(front), c);
      AfterDotSome(SlashTail(front));
    }
  }

  /**
   * The ports read one kind off a path exactly when its last segment has a dot, or nothing after its
   * last slash has: a dot that only a backslash follows is a kind in the Go port alone.
   */
  lemma KindsAgree(path: string)
    ensures GoExtKind(path) == ExtKind(Some(path)) <==> '.' in LastSegment(path) || '.' !in SlashTail(path)
  {
    GoExtIs(path);
    TailParts(path);
    AfterDotSome(SlashTail(path));
    AfterDotSome(LastSegment(path));
  }

  // ----- folders -----

  predicate EndsInSeparator(key: string) { key != "" && IsSeparator(key[|key| - 1]) }

  /** The ports agree on a source's folder exactly when its path does not end in a separator. */
  lemma SourceDirsAgree(path: string)
    ensures SourceDir(path) == GoSourceDir(path) <==> !EndsInSeparator(path)
  {
    TrimmedShape(path);
    if EndsInSeparator(path) {
      var trimmed := TrimSeparators(path);
      assert FolderLength(path) == |path|;
      assert trimmed != "" ==> FolderLength(trimmed) < |trimmed|;
      assert |SourceDir(path)| < |GoSourceDir(path)|;
    }
  }

  lemma FolderIsShorter(path: string)
    requires path != ""
    ensures |SourceDir(path)| < |path|
  {
    TrimmedShape(path);
    var trimmed := TrimSeparators(path);
    assert trimmed != "" ==> FolderLength(trimmed) < |trimmed|;
  }

  /** What a reference is resolved against, in a source of the map or in the document itself. */
  function RustFolder(m: MapResolver, current: Option<string>): string {
    BaseFor(path => path in m.files, SourceDir, current, m.base)
  }

  function GoFolder(m: MapResolver, current: Option<string>): string {
    if current.Some? && current.value != "" then GoSourceDir(current.value) else m.base
  }

  ghost predicate Current(m: MapResolver, current: Option<string>) {
    current.Some? ==> current.value in m.files && current.value != ""
  }

  /** A source's key does not end in a separator; for the document itself, the configured base is no key. */
  predicate FoldersAlike(m: MapResolver, current: Option<string>) {
    if current.Some? then !EndsInSeparator(current.value) else m.base == "" || m.base !in m.files
  }

  lemma FoldersAgree(m: MapResolver, current: Option<string>)
    requires Current(m, current)
    ensures RustFolder(m, current) == GoFolder(m, current) <==> FoldersAlike(m, current)
  {
    if current.Some? {
      SourceDirsAgree(current.value);
    } else if m.base != "" {
      FolderIsShorter(m.base);
    }
  }

  // ----- resolutions -----

  lemma PotentialsAlike(full: string, exts: seq<string>)
    ensures GoPotentials(full, exts) == Potentials(full, exts)
  {
    var segment := LastSegment(full);
    assert '/' !in segment;
    SlashTailWhole(segment);
    GoExtIs(segment);
    AfterDotSome(segment);
  }

  /** With a kind, the only candidate is the path itself. */
  lemma KindedIsAlone(full: string, exts: seq<string>)
    requires full != "" && ExtKind(Some(full)) != ""
    ensures Potentials(full, exts) == [full]
  {
    AfterDotSome(LastSegment(full));
  }

  /** What a resolution comes to, but for its kind: the fields that an absent path leaves open are empty in Go. */
  datatype Outcome = Outcome(found: bool, path: string, full: string, src: string, search: seq<string>)

  function OrEmpty(text: Option<string>): string { if text.Some? then text.value else "" }

  function RustOutcome(r: Resolution): Outcome {
    Outcome(r.found, OrEmpty(r.spec.path), OrEmpty(r.spec.full), OrEmpty(r.src), r.search)
  }

  function GoOutcome(r: GoResolution): Outcome {
    Outcome(r.found, r.spec.path, r.spec.full, r.src, r.search)
  }

  predicate Rooted(reference: string) { reference == "" || IsSeparator(reference[0]) }

  lemma PrefixDecides(a: string, b: string, name: string)
    requires (if a == "" then name else a + "/" + name) == (if b == "" then name else b + "/" + name)
    ensures a == b
  {
    if a != "" && b != "" {
      var whole := a + "/" + name;
      assert |a| == |b| && whole[..|a|] == a && whole[..|b|] == b;
    } else {
      assert |a + "/" + name| == |a| + 1 + |name| && |b + "/" + name| == |b| + 1 + |name|;
    }
  }

  lemma PlacedAlike(reference: Option<string>, a: string, b: string)
    ensures OrEmpty(ResolvePathSpec(reference, a).full) == GoPathSpec(OrEmpty(reference), b).full <==>
            Rooted(OrEmpty(reference)) || a == b
    ensures OrEmpty(ResolvePathSpec(reference, a).path) == GoPathSpec(OrEmpty(reference), b).path
    ensures ResolvePathSpec(reference, a).full != Some("")
  {
    var full, goFull := OrEmpty(ResolvePathSpec(reference, a).full), GoPathSpec(OrEmpty(reference), b).full;
    if !Rooted(OrEmpty(reference)) && full == goFull {
      PrefixDecides(a, b, OrEmpty(reference));
    }
  }

  /** What is looked for and what is found, from the full path on. */
  lemma SearchesAlike(m: MapResolver, from: string, reference: Option<string>, spec: GoSpec)
    requires OrEmpty(ResolvePathSpec(reference, from).full) == spec.full
    requires OrEmpty(ResolvePathSpec(reference, from).path) == spec.path
    ensures RustOutcome(m.ResolveFrom(from, reference)) == GoOutcome(GoLookUp(m.files, m.exts, spec))
  {
    PotentialsAlike(spec.full, m.exts);
    if spec.full != "" {
      if ExtKind(Some(spec.full)) != "" {
        KindedIsAlone(spec.full, m.exts);
      }
      FileResolver.SameFirst(m.Load(), path => if path in m.files then Some(m.files[path]) else None,
                             Potentials(spec.full, m.exts));
    }
  }

  /** Whatever is found or not, the full path heads the search. */
  lemma SearchHead(m: MapResolver, from: string, reference: Option<string>)
    ensures var full, search := ResolvePathSpec(reference, from).full, m.ResolveFrom(from, reference).search;
            if full.None? then search == [] else full.value != "" ==> search != [] && search[0] == full.value
  {
  }

  lemma GoSearchHead(m: MapResolver, spec: GoSpec)
    ensures var search := GoLookUp(m.files, m.exts, spec).search;
            if spec.full == "" then search == [] else search != [] && search[0] == spec.full
  {
  }

  function GoResolveIn(m: MapResolver, current: Option<string>, path: string): GoResolution {
    GoLookUp(m.files, m.exts, GoPathSpec(path, GoFolder(m, current)))
  }

  /**
   * The two resolvers come to the same, kind apart, exactly when the reference is empty or starts
   * with a separator, or what it is resolved against is the same folder in both.
   */
  lemma PortsResolveAlike(m: MapResolver, current: Option<string>, reference: Option<string>)
    requires Current(m, current)
    ensures RustOutcome(m.Resolve(current, reference)) == GoOutcome(GoResolveIn(m, current, OrEmpty(reference))) <==>
            Rooted(OrEmpty(reference)) || FoldersAlike(m, current)
  {
    var from, goFrom := RustFolder(m, current), GoFolder(m, current);
    var spec := GoPathSpec(OrEmpty(reference), goFrom);
    FoldersAgree(m, current);
    PlacedAlike(reference, from, goFrom);
    if Rooted(OrEmpty(reference)) || from == goFrom {
      SearchesAlike(m, from, reference, spec);
    } else {
      SearchHead(m, from, reference);
      GoSearchHead(m, spec);
    }
  }

  /** And they read the same kind off what they come to exactly when the kinds of that path agree. */
  lemma PortsKindAlike(m: MapResolver, current: Option<string>, reference: Option<string>)
    requires Current(m, current) && (Rooted(OrEmpty(reference)) || FoldersAlike(m, current))
    ensures var r, g := m.Resolve(current, reference), GoResolveIn(m, current, OrEmpty(reference));
            r.spec.kind == g.spec.kind <==> '.' in LastSegment(g.spec.full) || '.' !in SlashTail(g.spec.full)
  {
    PortsResolveAlike(m, current, reference);
    RustKind(m, RustFolder(m, current), reference);
    var g := GoResolveIn(m, current, OrEmpty(reference));
    GoKind(m, GoPathSpec(OrEmpty(reference), GoFolder(m, current)));
    KindsAgree(g.spec.full);
  }

  lemma RustKind(m: MapResolver, from: string, reference: Option<string>)
    ensures var spec := m.ResolveFrom(from, reference).spec; spec.kind == ExtKind(Some(OrEmpty(spec.full)))
  {
  }

  lemma GoKind(m: MapResolver, spec: GoSpec)
    requires spec.kind == GoExtKind(spec.full)
    ensures GoLookUp(m.files, m.exts, spec).spec.kind == GoExtKind(GoLookUp(m.files, m.exts, spec).spec.full)
  {
  }

  // ----- coercions -----

  /** Numbers come with the digits of a renderer. */
  ghost predicate BodyRendered(body: Body) {
    match body
    case Numeric(x) => Numbers.Rendered(x)
    case Spec(Some(Numeric(x))) => Numbers.Rendered(x)
    case _ => true
  }

  /**
   * No bare number or flag, no list or object as a path that the Go port writes out as anything, and no
   * number that the ports lay out differently.
   */
  ghost predicate NamedAlike(shown: Body -> string, body: Body)
    requires BodyRendered(body)
  {
    match body
    case Numeric(_) => false
    case Flag(_) => false
    case Spec(Some(Numeric(x))) => Numbers.LaidAlike(x)
    case Spec(Some(Other)) => shown(Other) == ""
    case Spec(Some(Spec(path))) => shown(Spec(path)) == ""
    case _ => true
  }

  lemma NameNotEmpty(x: Numbers.Number)
    requires Numbers.Rendered(x)
    ensures Numbers.FormatNumber(x) != ""
  {
    if x.Finite? {
      Numbers.TrimShape(x.digits);
      Numbers.LayoutStartsWithDigit(Numbers.TrimZeros(x.digits), x.n);
    }
  }

  /** The ports read one reference off a body exactly when it is named alike. */
  lemma CoercionsAgree(shown: Body -> string, body: Body)
    requires BodyRendered(body)
    ensures OrEmpty(ReferenceOf(body)) == GoReference(shown, body) <==> NamedAlike(shown, body)
  {
    match body
    case Numeric(x) => NameNotEmpty(x);
    case Spec(Some(Numeric(x))) => Numbers.PortsAgree(x);
    case _ =>
  }

  // ----- splices -----

  /** The node's entries once the loaded keys `done` have been put into it, none of them passed over. */
  ghost function PutUpTo(extend: bool, bv: map<string, Value>, done: seq<string>,
                         ov: map<string, Value>): map<string, Value>
    requires Elems(done) <= ov.Keys
  {
    map k | k in bv.Keys + Elems(done) ::
      if k !in done then bv[k] else if extend then Merge(Get(bv, k), ov[k]) else ov[k]
  }

  lemma PutStep(extend: bool, bv: map<string, Value>, done: seq<string>, key: string, ov: map<string, Value>)
    requires Elems(done) <= ov.Keys && key in ov && key !in done
    ensures Elems(done + [key]) <= ov.Keys
    ensures var before := PutUpTo(extend, bv, done, ov);
            && (key in before <==> key in bv)
            && PutUpTo(extend, bv, done + [key], ov) ==
               before[key := if extend then Merge(Get(before, key), ov[key]) else ov[key]]
  {
    ElemsAppend(done, key);
  }

  /** The engine's own deep merge is the one that the Rust port carries. */
  ghost predicate MergesDeep(deep: (Value, Value) -> Value) { forall a, b :: deep(a, b) == Merge(a, b) }

  lemma {:induction false} MergedIs(deep: (Value, Value) -> Value, extend: bool, node: Value, value: Value, n: nat)
    requires MergesDeep(deep) && node.Dict? && value.Dict? && Valid(node) && Valid(value) && n <= |value.keys|
    ensures Elems(value.keys[..n]) <= value.vals.Keys
    ensures GoMerged(deep, extend, node, value.keys[..n], value.vals) ==
            Dict(node.wrap, node.keys + Unseen(node.keys, value.keys[..n]),
                 PutUpTo(extend, node.vals, value.keys[..n], value.vals))
  {
    var done := value.keys[..n];
    if n == 0 {
      assert node.keys + [] == node.keys;
    } else {
      var before, key := value.keys[..n - 1], value.keys[n - 1];
      assert done[..n - 1] == before && done == before + [key];
      MergedIs(deep, extend, node, value, n - 1);
      TakeStep(value.keys, n - 1);
      PutStep(extend, node.vals, before, key, value.vals);
      UnseenStep(node.keys, before, key);
      MembersAreElems(node.keys);
    }
  }

  lemma SpliceIs(deep: (Value, Value) -> Value, extend: bool, node: Value, value: Value)
    requires MergesDeep(deep) && node.Dict? && value.Dict? && Valid(node) && Valid(value)
    ensures GoSplice(deep, extend, node, value) ==
            Dict(node.wrap, node.keys + Unseen(node.keys, value.keys),
                 PutUpTo(extend, node.vals, value.keys, value.vals))
  {
    assert value.keys[..|value.keys|] == value.keys;
    MergedIs(deep, extend, node, value, |value.keys|);
  }

  /** Nothing the merge passes over would have changed the node. */
  ghost predicate KeptAnyway(node: Value, value: Value)
    requires node.Dict? && value.Dict?
  {
    forall k :: k in value.vals && Dangerous(k) ==> k in node.vals && Merge(node.vals[k], value.vals[k]) == node.vals[k]
  }

  lemma {:induction false} FreshIsUnseen(base: seq<string>, overlay: seq<string>)
    requires forall k :: k in overlay && Dangerous(k) ==> k in base
    ensures Fresh(base, overlay) == Unseen(base, overlay)
  {
    if overlay != [] {
      var front := overlay[..|overlay| - 1];
      assert forall k :: k in front ==> k in overlay;
      assert overlay[|overlay| - 1] in overlay;
      FreshIsUnseen(base, front);
    }
  }

  lemma MergedMapsAlike(deep: (Value, Value) -> Value, node: Value, value: Value)
    requires MergesDeep(deep) && node.Dict? && value.Dict? && Valid(node) && Valid(value)
    ensures GoSplice(deep, true, node, value) == Merge(node, value) <==> KeptAnyway(node, value)
  {
    SpliceIs(deep, true, node, value);
    MembersAreElems(value.keys);
    MembersAreElems(node.keys);
    var go, rust := GoSplice(deep, true, node, value), Merge(node, value);
    if KeptAnyway(node, value) {
      FreshIsUnseen(node.keys, value.keys);
      assert go.vals == rust.vals;
    } else {
      var k :|
        k in value.vals && Dangerous(k) && !(k in node.vals && Merge(node.vals[k], value.vals[k]) == node.vals[k]);
      assert k in go.vals && (k in rust.vals <==> k in node.vals);
    }
  }

  /**
   * The two splices of a value into a map come to the same exactly when maps are overwritten and not
   * extended, or the value is undefined, or it is a map with no prototype key that would have shown.
   */
  lemma SplicesAgree(deep: (Value, Value) -> Value, extend: bool, node: Value, value: Value)
    requires MergesDeep(deep) && node.Dict? && Valid(node) && Valid(value)
    ensures GoSplice(deep, extend, node, value) == Splice(extend, node, value) <==>
            !extend || value == Undefined || (value.Dict? && KeptAnyway(node, value))
  {
    if value.Dict? {
      if extend {
        MergedMapsAlike(deep, node, value);
      } else {
        SpliceIs(deep, extend, node, value);
        MembersAreElems(value.keys);
        assert PutUpTo(false, node.vals, value.keys, value.vals) == node.vals + value.vals;
      }
    }
  }
}
