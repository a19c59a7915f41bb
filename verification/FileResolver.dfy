/** The file resolver over any source filesystem, with its preload and its sandbox root. */
module FileResolver {
  import opened Common
  import opened References
  import Vfs
  import MapFs

  /** The read-only view of a filesystem that the resolvers reach through. */
  datatype SourceFs = SourceFs(
    read: string -> Option<string>,
    join: seq<string> -> string,
    dir: string -> string,
    canon: string -> string,
    realPath: string -> Option<string>,
    within: (string, string) -> bool)

  /** The in-memory filesystem as such a view: there are no links, so a path's real form is its canonical one. */
  function MapSource(files: map<string, string>): SourceFs {
    SourceFs(
      path => MapFs.ReadFile(files, path),
      MapFs.JoinPaths,
      MapFs.Dir,
      Vfs.Clean,
      path => Some(Vfs.Clean(path)),
      Vfs.WithinRoot)
  }

  const NODE_MODULES_LEVELS: nat := 7

  /** The climb through the parents of `level`, until a parent repeats or the levels run out. */
  function Climb(dir: string -> string, level: string, last: Option<string>, levels: nat): seq<string>
    decreases levels
  {
    if levels == 0 then []
    else
      var parent := dir(level);
      [level] + if last == Some(parent) then [] else Climb(dir, parent, Some(parent), levels - 1)
  }

  /** The path that a linked package would have, seen from each folder of the climb. */
  function Linked(canon: string -> string, join: seq<string> -> string, folders: seq<string>,
                  path: string): seq<string> {
    seq(|folders|, i requires 0 <= i < |folders| => canon(join([folders[i], "node_modules", path])))
  }

  lemma ClimbStep(dir: string -> string, level: string, last: Option<string>, levels: nat, whole: seq<string>,
                  done: seq<string>)
    requires levels > 0 && whole == done + Climb(dir, level, last, levels)
    ensures whole == done + [level] +
            if last == Some(dir(level)) then [] else Climb(dir, dir(level), Some(dir(level)), levels - 1)
  {
    var rest := if last == Some(dir(level)) then [] else Climb(dir, dir(level), Some(dir(level)), levels - 1);
    ConcatAssociative(done, [level], rest);
  }

  lemma LinkedOn(canon: string -> string, join: seq<string> -> string, folders: seq<string>, path: string,
                 level: string)
    ensures Linked(canon, join, folders + [level], path) ==
            Linked(canon, join, folders, path) + [canon(join([level, "node_modules", path]))]
  {
  }

  method ClimbByLoop(fs: SourceFs, from: string, path: string, levels: nat) returns (tried: seq<string>)
    ensures tried == Linked(fs.canon, fs.join, Climb(fs.dir, from, None, levels), path)
  {
    var level, last := from, None;
    ghost var whole := Climb(fs.dir, from, None, levels);
    ghost var folders := [];
    tried := [];
    for i := 0 to levels
      invariant whole == folders + Climb(fs.dir, level, last, levels - i)
      invariant tried == Linked(fs.canon, fs.join, folders, path)
    {
      ClimbStep(fs.dir, level, last, levels - i, whole, folders);
      LinkedOn(fs.canon, fs.join, folders, path, level);
      tried := tried + [fs.canon(fs.join([level, "node_modules", path]))];
      folders := folders + [level];
      var parent := fs.dir(level);
      if last == Some(parent) {
        assert folders + [] == folders;
        return;
      }
      last, level := Some(parent), parent;
    }
    assert folders + [] == folders;
  }

  /** A sandbox root, resolved through the filesystem once; a candidate with no real path is refused. */
  function Allowed(fs: SourceFs, root: Option<string>, candidate: string): bool {
    match root
    case None => true
    case Some(r) =>
      var resolved := match fs.realPath(r) case Some(r0) => r0 case None => fs.canon(r);
      match fs.realPath(candidate) case Some(path) => fs.within(path, resolved) case None => false
  }

  datatype FileResolver = FileResolver(
    fs: SourceFs, preload: map<string, string>,
    root: Option<string>, exts: seq<string>,
    base: string)
  {
    /** The preload first, then the filesystem. */
    function Read(path: string): Option<string> {
      if path in preload then Some(preload[path]) else fs.read(path)
    }

    function Load(path: string): Option<string> {
      if Allowed(fs, root, path) then Read(path) else None
    }

    function IsFile(path: string): bool { path in preload || fs.read(path).Some? }

    function BaseOf(current: Option<string>): string {
      BaseFor(IsFile, fs.dir, current, base)
    }

    /** The canonical spec of a reference; its `full` is absent when the reference names nothing. */
    function SpecOf(current: Option<string>, reference: Option<string>): PathSpec {
      var spec := ResolvePathSpec(reference, BaseOf(current));
      if spec.full.None? then spec
      else
        var full := fs.canon(spec.full.value);
        spec.(full := Some(full), kind := ExtKind(Some(full)))
    }

    /** The implicit extensions and index files, which only a reference without a kind gets. */
    function Implied(kind: string, full: string): seq<string> {
      if kind != "" then [] else var named := Potentials(full, exts); if named == [] then [] else named[1..]
    }

    /** What is tried after the path itself. */
    function Fallbacks(current: Option<string>, spec: PathSpec): seq<string>
      requires spec.full.Some? && spec.path.Some?
    {
      Linked(fs.canon, fs.join, Climb(fs.dir, BaseOf(current), None, NODE_MODULES_LEVELS), spec.path.value) +
      Implied(spec.kind, spec.full.value)
    }

    function Resolve(current: Option<string>, reference: Option<string>): Resolution {
      var spec := SpecOf(current, reference);
      if spec.full.None? then NotFound(spec, [])
      else
        var full := spec.full.value;
        match Load(full)
        case Some(src) => FoundAt(spec, full, src, [full])
        case None =>
          var fallbacks := Fallbacks(current, spec);
          match FirstLoaded(Load, fallbacks)
          case Some(hit) => FoundAt(spec, hit, Load(hit).value, [full] + fallbacks)
          case None => NotFound(spec, [full] + fallbacks)
    }

    method ResolveByLoop(current: Option<string>, reference: Option<string>) returns (r: Resolution)
      ensures r == Resolve(current, reference)
    {
      var spec := SpecOf(current, reference);
      if spec.full.None? {
        return NotFound(spec, []);
      }
      var full := spec.full.value;
      var search := [full];
      var src := Load(full);
      if src.Some? {
        return FoundAt(spec, full, src.value, search);
      }
      var potentials := ClimbByLoop(fs, BaseOf(current), spec.path.value, NODE_MODULES_LEVELS);
      potentials := potentials + Implied(spec.kind, full);
      search := search + potentials;
      var hit := FirstByLoop(potentials);
      if hit.Some? {
        return FoundAt(spec, hit.value, Load(hit.value).value, search);
      }
      return NotFound(spec, search);
    }

    method FirstByLoop(candidates: seq<string>) returns (hit: Option<string>)
      ensures hit == FirstLoaded(Load, candidates)
    {
      for i := 0 to |candidates|
        invariant FirstLoaded(Load, candidates) == FirstLoaded(Load, candidates[i..])
      {
        if Load(candidates[i]).Some? {
          return Some(candidates[i]);
        }
      }
      return None;
    }
  }

  // ----- confinement -----

  /** Whatever is found under a root, preloaded or not, has passed the comparison with that root. */
  lemma FoundIsAllowed(resolver: FileResolver, current: Option<string>, reference: Option<string>)
    requires resolver.Resolve(current, reference).found
    ensures resolver.Resolve(current, reference).spec.full.Some?
    ensures Allowed(resolver.fs, resolver.root, resolver.Resolve(current, reference).spec.full.value)
  {
  }

  lemma AllowedIsBelow(files: map<string, string>, root: string, path: string)
    requires Allowed(MapSource(files), Some(root), path)
    ensures Vfs.Segments(root) <= Vfs.Segments(path)
  {
    Vfs.WithinRootBySegments(Vfs.Clean(path), Vfs.Clean(root));
    Vfs.SegmentsOfClean(path);
    Vfs.SegmentsOfClean(root);
  }

  /** Over an in-memory filesystem, whatever is found lies at or below the root, by whole segments. */
  lemma FoundIsConfined(resolver: FileResolver, files: map<string, string>, current: Option<string>,
                        reference: Option<string>)
    requires resolver.fs == MapSource(files) && resolver.root.Some?
    ensures var r := resolver.Resolve(current, reference);
            r.found ==> r.spec.full.Some? && Vfs.Segments(resolver.root.value) <= Vfs.Segments(r.spec.full.value)
  {
    var r := resolver.Resolve(current, reference);
    if r.found {
      FoundIsAllowed(resolver, current, reference);
      AllowedIsBelow(files, resolver.root.value, r.spec.full.value);
    }
  }

  // ----- the preload is transparent -----

  lemma {:induction false} SameFirst(f: string -> Option<string>, g: string -> Option<string>, candidates: seq<string>)
    requires forall c :: c in candidates ==> f(c) == g(c)
    ensures FirstLoaded(f, candidates) == FirstLoaded(g, candidates)
  {
    if candidates != [] {
      assert candidates[0] in candidates && forall c :: c in candidates[1..] ==> c in candidates;
      SameFirst(f, g, candidates[1..]);
    }
  }

  /** Two resolvers that place and read the same candidates resolve alike. */
  lemma SameResolution(a: FileResolver, b: FileResolver, current: Option<string>, reference: Option<string>)
    requires b.fs.(read := a.fs.read) == a.fs && a.root == b.root && a.exts == b.exts && a.base == b.base
    requires a.BaseOf(current) == b.BaseOf(current)
    requires var spec := a.SpecOf(current, reference);
             spec.full.Some? ==>
               && a.Load(spec.full.value) == b.Load(spec.full.value)
               && forall c :: c in a.Fallbacks(current, spec) ==> a.Load(c) == b.Load(c)
    ensures a.Resolve(current, reference) == b.Resolve(current, reference)
  {
    var spec := a.SpecOf(current, reference);
    assert spec == b.SpecOf(current, reference);
    if spec.full.Some? {
      SameFirst(a.Load, b.Load, a.Fallbacks(current, spec));
    }
  }

  /** The preloaded path is held to be a file that the filesystem does not have, and that shows. */
  predicate Phantom(fs: SourceFs, path: string) {
    path != "" && fs.read(path).None? && fs.dir(path) != path
  }

  /** Every entry the root lets through is what the filesystem holds; the others are at least files there. */
  ghost predicate Agrees(resolver: FileResolver) {
    forall p :: p in resolver.preload ==>
      && (Allowed(resolver.fs, resolver.root, p) ==> resolver.fs.read(p) == Some(resolver.preload[p]))
      && !Phantom(resolver.fs, p)
  }

  function WithoutPreload(resolver: FileResolver): FileResolver {
    resolver.(preload := map[])
  }

  lemma NotPhantomSameBase(resolver: FileResolver, current: Option<string>)
    requires forall p :: p in resolver.preload ==> !Phantom(resolver.fs, p)
    ensures resolver.BaseOf(current) == WithoutPreload(resolver).BaseOf(current)
  {
    var raw := if current.Some? then current.value else resolver.base;
    if raw in resolver.preload {
      assert !Phantom(resolver.fs, raw);
    }
  }

  /** A preload that agrees with its filesystem changes no resolution and no search list. */
  lemma AgreeingPreloadIsTransparent(resolver: FileResolver, current: Option<string>, reference: Option<string>)
    requires Agrees(resolver)
    ensures resolver.Resolve(current, reference) == WithoutPreload(resolver).Resolve(current, reference)
  {
    var bare := WithoutPreload(resolver);
    NotPhantomSameBase(resolver, current);
    SameResolution(resolver, bare, current, reference);
  }

  /** Every preloaded path the root lets through can be named: some reference comes down to it. */
  ghost predicate Nameable(resolver: FileResolver) {
    forall p :: p in resolver.preload && Allowed(resolver.fs, resolver.root, p) ==> resolver.fs.canon("/" + p) == p
  }

  /** A preload changes no resolution exactly when its entries agree with the filesystem, under any root or none. */
  lemma PreloadIsTransparent(resolver: FileResolver)
    requires Nameable(resolver)
    ensures Agrees(resolver) <==>
            forall current, reference ::
              resolver.Resolve(current, reference) == WithoutPreload(resolver).Resolve(current, reference)
  {
    if Agrees(resolver) {
      forall current, reference
        ensures resolver.Resolve(current, reference) == WithoutPreload(resolver).Resolve(current, reference)
      {
        AgreeingPreloadIsTransparent(resolver, current, reference);
      }
    } else {
      var p :| p in resolver.preload &&
               ((Allowed(resolver.fs, resolver.root, p) && resolver.fs.read(p) != Some(resolver.preload[p])) ||
                Phantom(resolver.fs, p));
      if Phantom(resolver.fs, p) {
        PhantomShows(resolver, p);
      } else {
        DisagreementShows(resolver, p);
      }
    }
  }

  lemma DisagreementShows(resolver: FileResolver, p: string)
    requires Allowed(resolver.fs, resolver.root, p) && p in resolver.preload && resolver.fs.canon("/" + p) == p
    requires resolver.fs.read(p) != Some(resolver.preload[p])
    ensures resolver.Resolve(None, Some("/" + p)) != WithoutPreload(resolver).Resolve(None, Some("/" + p))
  {
    var bare, reference := WithoutPreload(resolver), Some("/" + p);
    assert resolver.SpecOf(None, reference).full == bare.SpecOf(None, reference).full == Some(p);
    var spec := bare.SpecOf(None, reference);
    assert resolver.Resolve(None, reference).search == [p];
    if bare.Load(p).None? {
      assert |bare.Fallbacks(None, spec)| > 0;
      assert |bare.Resolve(None, reference).search| > 1;
    }
  }

  /** References inside a source that is preloaded but not in the filesystem resolve against another base. */
  lemma PhantomShows(resolver: FileResolver, p: string)
    requires p in resolver.preload && Phantom(resolver.fs, p)
    ensures resolver.Resolve(Some(p), None) != WithoutPreload(resolver).Resolve(Some(p), None)
  {
    assert resolver.Resolve(Some(p), None).spec.base == resolver.fs.dir(p);
    assert WithoutPreload(resolver).Resolve(Some(p), None).spec.base == p;
  }

  /** In an in-memory filesystem every canonical path can be named. */
  lemma CanonicalIsNameable(path: string)
    requires Vfs.Clean(path) == path
    ensures Vfs.Clean("/" + path) == path
  {
    assert "" + "/" + path == "/" + path;
    Vfs.SegmentsOfConcat("", path);
    assert Vfs.Split(Vfs.Unify("")) == [""] && [""][1..] == [];
    Vfs.SegmentsOfClean(path);
  }
}
