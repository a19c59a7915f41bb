/** A preload beside its filesystem, and in its place: exactly when nothing changes. */
module Standalone {
  import opened Common
  import opened References
  import opened Expand
  import opened FileResolver
  import opened Sources
  import opened Emptied
  import ExpandGraph
  import MapFs
  import Preload
  import Vfs

  // ----- beside the filesystem -----

  /**
   * Every entry under a canonical name that the root lets through is what the filesystem holds, and
   * every entry is a file there. Entries in another spelling are never loaded.
   */
  ghost predicate CanonicalAgrees(resolver: FileResolver) {
    forall p :: p in resolver.preload ==>
      && (Canonical(p) && Allowed(resolver.fs, resolver.root, p) ==> resolver.fs.read(p) == Some(resolver.preload[p]))
      && !Phantom(resolver.fs, p)
  }

  /** Over an in-memory filesystem, this is exactly when a preload changes no resolution. */
  lemma AnyPreloadIsTransparent(resolver: FileResolver, files: map<string, string>)
    requires resolver.fs == MapSource(files) && forall i :: 0 <= i < |resolver.exts| ==> Separatorless(resolver.exts[i])
    ensures CanonicalAgrees(resolver) <==>
            forall current, reference ::
              resolver.Resolve(current, reference) == WithoutPreload(resolver).Resolve(current, reference)
  {
    if CanonicalAgrees(resolver) {
      var bare, good := WithoutPreload(resolver), path => Canonical(path);
      CanonicalPaths(good, resolver, files);
      forall path | good(path) ensures resolver.Load(path) == bare.Load(path) {
        CanonicalLoads(resolver, path);
      }
      forall current, reference ensures resolver.Resolve(current, reference) == bare.Resolve(current, reference) {
        NotPhantomSameBase(resolver, current);
        SameWhereGood(good, resolver, bare, current, reference);
      }
    } else {
      var p :| p in resolver.preload && (Phantom(resolver.fs, p) ||
                 (Canonical(p) && Allowed(resolver.fs, resolver.root, p) &&
                  resolver.fs.read(p) != Some(resolver.preload[p])));
      if Phantom(resolver.fs, p) {
        PhantomShows(resolver, p);
      } else {
        CanonicalIsNameable(p);
        DisagreementShows(resolver, p);
      }
    }
  }

  lemma CanonicalLoads(resolver: FileResolver, path: string)
    requires CanonicalAgrees(resolver) && Canonical(path)
    ensures resolver.Load(path) == WithoutPreload(resolver).Load(path)
  {
  }

  // ----- a preload made from the filesystem -----

  /** Some of the files, as they are: what a scan makes. */
  ghost predicate Part(loaded: map<string, string>, files: map<string, string>) {
    forall k :: k in loaded ==> k in files && loaded[k] == files[k]
  }

  /** Beside the filesystem it was made from, a preload agrees with it, and so is never noticed. */
  lemma PartAgrees(files: map<string, string>, loaded: map<string, string>, root: Option<string>, exts: seq<string>,
                   base: string)
    requires MapFs.Canonical(files) && Part(loaded, files)
    ensures Agrees(FileResolver(MapSource(files), loaded, root, exts, base))
  {
  }

  // ----- in place of the filesystem -----

  /** Every file that the root lets through is preloaded. */
  ghost predicate Covers(loaded: map<string, string>, files: map<string, string>, root: Option<string>) {
    forall k :: k in files && Allowed(MapSource(files), root, k) ==> k in loaded
  }

  /** Both take the base for a file, or neither does; at the top of the tree it makes no difference. */
  ghost predicate PlacedAlike(loaded: map<string, string>, files: map<string, string>, base: string) {
    base == "" || Vfs.Segments(base) == [] || (Vfs.Clean(base) in files <==> base in loaded)
  }

  ghost predicate MadeFrom(files: map<string, string>, loaded: map<string, string>, exts: seq<string>) {
    && MapFs.Canonical(files) && Part(loaded, files)
    && forall i :: 0 <= i < |exts| ==> Separatorless(exts[i])
  }

  lemma CoveredLoads(files: map<string, string>, loaded: map<string, string>, root: Option<string>, exts: seq<string>,
                     base: string, path: string)
    requires Part(loaded, files) && Covers(loaded, files, root) && Canonical(path)
    ensures OnDisk(files, root, exts, base).Load(path) == InMemory(loaded, root, exts, base).Load(path)
  {
  }

  lemma {:induction false} NormalizeFromRoot(base: string, rest: string)
    requires Vfs.Segments(base) == []
    ensures Vfs.Clean(base + "/" + rest) == Vfs.Clean(rest)
  {
    Vfs.SegmentsOfConcat(base, rest);
  }

  lemma RootIsItsParent(base: string)
    requires Vfs.Segments(base) == []
    ensures MapFs.Dir(base) == "." && Vfs.Segments(".") == []
  {
    MapFs.DirDropsLast(base);
    Vfs.SegmentsOfRendered([]);
  }

  lemma ClimbToFixed(dir: string -> string, from: string, top: string, levels: nat)
    requires dir(from) == top && dir(top) == top && levels >= 2
    ensures Climb(dir, from, None, levels) == [from, top]
  {
    assert Climb(dir, top, Some(top), levels - 1) == [top];
  }

  lemma LinkedAt(canon: string -> string, join: seq<string> -> string, folders: seq<string>, path: string, i: nat)
    requires i < |folders|
    ensures Linked(canon, join, folders, path)[i] == canon(join([folders[i], "node_modules", path]))
  {
  }

  lemma LinkedTwo(canon: string -> string, join: seq<string> -> string, a: string, b: string, path: string)
    ensures Linked(canon, join, [a, b], path) ==
            [canon(join([a, "node_modules", path])), canon(join([b, "node_modules", path]))]
  {
  }

  /** The top of a tree: its own parent, and nothing is left of it in a canonical path. */
  ghost predicate IsTop(fs: SourceFs, base: string) {
    && base != "" && fs.dir(base) == "."
    && (forall rest :: fs.canon(base + "/" + rest) == fs.canon(rest))
    && forall path :: fs.canon(fs.join([base, "node_modules", path])) == TopModule(fs, path)
  }

  function TopModule(fs: SourceFs, path: string): string {
    fs.canon(fs.join([".", "node_modules", path]))
  }

  lemma RootModule(base: string, path: string)
    requires Vfs.Segments(base) == []
    ensures MapFs.JoinPaths([base, "node_modules", path]) == Vfs.Clean("node_modules" + "/" + path)
  {
    Vfs.JoinThree(base, "node_modules", path);
    NormalizeFromRoot(base, "node_modules" + "/" + path);
  }

  lemma RootCanon(fs: SourceFs, files: map<string, string>, base: string)
    requires fs == MapSource(files) && Vfs.Segments(base) == []
    ensures forall rest :: fs.canon(base + "/" + rest) == fs.canon(rest)
  {
    forall rest ensures fs.canon(base + "/" + rest) == fs.canon(rest) {
      NormalizeFromRoot(base, rest);
    }
  }

  lemma RootModules(fs: SourceFs, files: map<string, string>, base: string)
    requires fs == MapSource(files) && Vfs.Segments(base) == []
    ensures forall path :: fs.canon(fs.join([base, "node_modules", path])) == TopModule(fs, path)
  {
    RootIsItsParent(base);
    forall path ensures fs.canon(fs.join([base, "node_modules", path])) == TopModule(fs, path) {
      RootModule(base, path);
      RootModule(".", path);
    }
  }

  /** However the top is spelt. */
  lemma RootIsTop(fs: SourceFs, files: map<string, string>, base: string)
    requires fs == MapSource(files) && base != "" && Vfs.Segments(base) == []
    ensures IsTop(fs, base)
  {
    RootIsItsParent(base);
    RootCanon(fs, files, base);
    RootModules(fs, files, base);
  }

  lemma BaseIsEither(isFile: string -> bool, dir: string -> string, configured: string)
    requires configured != ""
    ensures BaseFor(isFile, dir, None, configured) == if isFile(configured) then dir(configured) else configured
  {
  }

  /** What is tried from the top of the tree depends on the reference alone. */
  lemma TopTried(resolver: FileResolver, reference: Option<string>)
    requires IsTop(resolver.fs, resolver.base) && IsTop(resolver.fs, ".")
    ensures var spec := resolver.SpecOf(None, reference);
            && spec == TopPlace(resolver.fs, reference).(base := spec.base)
            && (spec.full.Some? ==>
                  var linked := TopModule(resolver.fs, reference.value);
                  resolver.Fallbacks(None, spec) == [linked, linked] + resolver.Implied(spec.kind, spec.full.value))
  {
    var fs, base := resolver.fs, resolver.BaseOf(None);
    BaseIsEither(resolver.IsFile, fs.dir, resolver.base);
    assert IsTop(fs, base);
    ClimbToFixed(fs.dir, base, ".", NODE_MODULES_LEVELS);
    if reference.Some? {
      LinkedTwo(fs.canon, fs.join, base, ".", reference.value);
    }
  }

  function TopPlace(fs: SourceFs, reference: Option<string>): PathSpec {
    var full := if reference.None? || reference.value == "" then None else Some(fs.canon(reference.value));
    var abs := reference.Some? && reference.value != "" && IsSeparator(reference.value[0]);
    PathSpec(ExtKind(full), reference, full, "", abs)
  }

  /** Two resolvers that try and read the same resolve alike, whatever folder each started from. */
  lemma AlikeResolution(a: FileResolver, b: FileResolver, current: Option<string>, reference: Option<string>)
    requires b.SpecOf(current, reference) == a.SpecOf(current, reference).(base := b.SpecOf(current, reference).base)
    requires var spec, other := a.SpecOf(current, reference), b.SpecOf(current, reference);
             spec.full.Some? ==>
               && a.Fallbacks(current, spec) == b.Fallbacks(current, other)
               && a.Load(spec.full.value) == b.Load(spec.full.value)
               && forall c :: c in a.Fallbacks(current, spec) ==> a.Load(c) == b.Load(c)
    ensures Alike(a.Resolve(current, reference), b.Resolve(current, reference))
  {
    var spec := a.SpecOf(current, reference);
    if spec.full.Some? {
      SameFirst(a.Load, b.Load, a.Fallbacks(current, spec));
    }
  }

  lemma TopAlike(good: string -> bool, a: FileResolver, b: FileResolver, reference: Option<string>)
    requires IsTop(a.fs, a.base) && IsTop(a.fs, ".")
    requires b.fs.(read := a.fs.read) == a.fs && a.root == b.root && a.exts == b.exts && a.base == b.base
    requires GoodPaths(good, a) && forall path :: good(path) ==> a.Load(path) == b.Load(path)
    ensures Alike(a.Resolve(None, reference), b.Resolve(None, reference))
  {
    TopTried(a, reference);
    TopTried(b, reference);
    TriedIsGood(good, a, None, reference);
    AlikeResolution(a, b, None, reference);
  }

  lemma CoveredBase(files: map<string, string>, loaded: map<string, string>, root: Option<string>, exts: seq<string>,
                    base: string, current: Option<string>)
    requires MadeFrom(files, loaded, exts)
    requires if current.Some? then current.value in loaded
             else base == "" || (Vfs.Clean(base) in files <==> base in loaded)
    ensures OnDisk(files, root, exts, base).BaseOf(current) == InMemory(loaded, root, exts, base).BaseOf(current)
  {
    var disk, memory, raw := OnDisk(files, root, exts, base), InMemory(loaded, root, exts, base), Origin(current, base);
    SameFile(files, root, exts, base, raw);
    SameFile(loaded, root, exts, base, raw);
    SameBaseFor(disk.IsFile, memory.IsFile, MapFs.Dir, current, base);
  }

  /** Wherever an expansion from memory asks, the two resolve alike. */
  lemma CoveredAlike(files: map<string, string>, loaded: map<string, string>, root: Option<string>, exts: seq<string>,
                     base: string, current: Option<string>, reference: Option<string>)
    requires MadeFrom(files, loaded, exts) && Covers(loaded, files, root) && PlacedAlike(loaded, files, base)
    requires current.Some? ==> current.value in loaded
    ensures Alike(OnDisk(files, root, exts, base).Resolve(current, reference),
                  InMemory(loaded, root, exts, base).Resolve(current, reference))
  {
    var disk, memory := OnDisk(files, root, exts, base), InMemory(loaded, root, exts, base);
    var good := path => Canonical(path);
    CanonicalPaths(good, disk, files);
    forall path | good(path) ensures disk.Load(path) == memory.Load(path) {
      CoveredLoads(files, loaded, root, exts, base, path);
    }
    if current.None? && base != "" && Vfs.Segments(base) == [] {
      RootIsItsParent(base);
      RootIsTop(disk.fs, files, base);
      RootIsTop(disk.fs, files, ".");
      TopAlike(good, disk, memory, reference);
    } else {
      CoveredBase(files, loaded, root, exts, base, current);
      SameWhereGood(good, disk, memory, current, reference);
    }
  }

  lemma CoveredEnvs(files: map<string, string>, loaded: map<string, string>, root: Option<string>, exts: seq<string>,
                    base: string, setup: Setup)
    requires MadeFrom(files, loaded, exts) && Covers(loaded, files, root) && PlacedAlike(loaded, files, base)
    requires ValidEnv(DiskEnv(files, root, exts, base, setup)) && ValidEnv(MemoryEnv(loaded, root, exts, base, setup))
    ensures Interchangeable(MemoryEnv(loaded, root, exts, base, setup), DiskEnv(files, root, exts, base, setup))
  {
    var disk, memory := DiskEnv(files, root, exts, base, setup), MemoryEnv(loaded, root, exts, base, setup);
    forall current: Option<string>, reference: Option<string> | current.Some? ==> current.value in memory.content
      ensures Alike(memory.resolve(current, reference), disk.resolve(current, reference))
    {
      CoveredAlike(files, loaded, root, exts, base, current, reference);
    }
  }

  // ----- a file that is not preloaded shows -----

  lemma RecordedIsHeld(env: Env, doc: Doc, e: Edge)
    requires ValidEnv(env) && e in RunDoc(env, TOP_LEVEL, doc).edges
    ensures e.src in env.content
  {
    ExpandGraph.EdgesAreReal(env, TOP_LEVEL, doc, e);
    var walk :| walk != [] && ExpandGraph.Walk(env, None, doc, walk) && ExpandGraph.LastEdge(TOP_LEVEL, walk) == e;
    ExpandGraph.WalkEnds(env, None, doc, walk);
  }

  lemma FoundByName(resolver: FileResolver, reference: string, key: string)
    requires reference != "" && IsSeparator(reference[0]) && resolver.fs.canon(reference) == key
    requires resolver.Load(key).Some?
    ensures var r := resolver.Resolve(None, Some(reference)); r.found && r.FullPath() == key
  {
    assert resolver.SpecOf(None, Some(reference)).full == Some(key);
  }

  /** The key is loaded in one environment and not held in the other. */
  lemma LoadShows(here: Env, there: Env, reference: string, key: string)
    requires ValidEnv(here) && ValidEnv(there) && here.cap == there.cap && key !in there.content
    requires here.resolve(None, Some(reference)).found && here.resolve(None, Some(reference)).FullPath() == key
    ensures RunDoc(here, TOP_LEVEL, Load(Text(reference))) != RunDoc(there, TOP_LEVEL, Load(Text(reference)))
  {
    assert ReferenceOf(Text(reference)) == Some(reference);
    var r := there.resolve(None, Some(reference));
    assert r.found ==> r.FullPath() in there.content;
    if here.cap == Some(0) {
      DepthAtOnce(here, reference);
      DepthAtOnce(there, reference);
    } else {
      RecordsAtOnce(here, reference);
      if Edge(TOP, key) in RunDoc(there, TOP_LEVEL, Load(Text(reference))).edges {
        RecordedIsHeld(there, Load(Text(reference)), Edge(TOP, key));
      }
    }
  }

  lemma DepthAtOnce(env: Env, reference: string)
    requires ValidEnv(env) && env.cap == Some(0)
    ensures var r := env.resolve(None, Some(reference));
            RunDoc(env, TOP_LEVEL, Load(Text(reference))).res ==
            Err(if r.found then Depth(r.FullPath(), 0) else MissingReport(r, Some(reference)))
  {
    assert ReferenceOf(Text(reference)) == Some(reference);
  }

  lemma RecordsAtOnce(env: Env, reference: string)
    requires ValidEnv(env) && env.cap != Some(0) && env.resolve(None, Some(reference)).found
    ensures var full := env.resolve(None, Some(reference)).FullPath();
            Edge(TOP, full) in RunDoc(env, TOP_LEVEL, Load(Text(reference))).edges
  {
    assert ReferenceOf(Text(reference)) == Some(reference);
    ExpandGraph.DirectiveEdges(env, TOP_LEVEL, Text(reference));
  }

  // ----- a base that is taken for a file by one of them only shows -----

  lemma {:induction false} Longest(keys: set<string>) returns (n: nat)
    ensures forall k :: k in keys ==> |k| <= n
    decreases keys
  {
    n := 0;
    if keys != {} {
      var key :| key in keys;
      n := Longest(keys - {key});
      n := if |key| > n then |key| else n;
    }
  }

  /** A plain name longer than every key. */
  lemma LongName(files: map<string, string>) returns (name: string)
    ensures Vfs.Plain(name) && forall k :: k in files ==> |k| < |name|
  {
    var n := Longest(files.Keys);
    name := seq(n + 1, _ => 'x');
    assert name[0] == 'x';
  }

  lemma NamedBelow(folder: string, name: string)
    requires Vfs.Plain(name)
    ensures Vfs.Segments(folder + "/" + name) == Vfs.Segments(folder) + [name]
    ensures |Vfs.Clean(folder + "/" + name)| >= |name|
  {
    Vfs.SegmentsOfConcat(folder, name);
    Vfs.UnifyIdentity(name);
    Vfs.SplitWhole(name);
    assert [name][1..] == [];
    LastIsShorter(Vfs.Segments(folder), name);
  }

  lemma LastIsShorter(front: seq<string>, last: string)
    ensures |Vfs.Join(front + [last])| >= |last|
  {
    if front == [] {
      assert front + [last] == [last];
    } else {
      Vfs.JoinConcat(front, [last]);
    }
  }

  /** In whatever folder the name is looked for, the path is no shorter than the name. */
  ghost predicate Lengthens(fs: SourceFs, name: string) {
    && (forall folder :: |fs.canon(folder + "/" + name)| >= |name|)
    && forall folder :: |fs.canon(fs.join([folder, "node_modules", name]))| >= |name|
  }

  lemma PlainLengthens(files: map<string, string>, name: string)
    requires Vfs.Plain(name)
    ensures Lengthens(MapSource(files), name)
  {
    forall folder ensures |Vfs.Clean(folder + "/" + name)| >= |name| {
      NamedBelow(folder, name);
    }
    forall folder ensures |Vfs.Clean(MapFs.JoinPaths([folder, "node_modules", name]))| >= |name| {
      var folders := folder + "/" + "node_modules";
      Vfs.JoinThree(folder, "node_modules", name);
      NamedBelow(folders, name);
      Vfs.CleanIdempotent(folders + "/" + name);
    }
  }

  lemma PotentialsLong(full: string, exts: seq<string>)
    ensures forall c :: c in Potentials(full, exts) ==> |c| >= |full|
  {
  }

  lemma LinkedLong(fs: SourceFs, folders: seq<string>, name: string)
    requires Lengthens(fs, name)
    ensures forall c :: c in Linked(fs.canon, fs.join, folders, name) ==> |c| >= |name|
  {
    forall i | 0 <= i < |folders| ensures |Linked(fs.canon, fs.join, folders, name)[i]| >= |name| {
      LinkedAt(fs.canon, fs.join, folders, name, i);
    }
  }

  /** Only paths as long as the name are tried. */
  lemma LongTried(resolver: FileResolver, name: string)
    requires Lengthens(resolver.fs, name) && name != "" && !IsSeparator(name[0]) && resolver.BaseOf(None) != ""
    ensures var spec := resolver.SpecOf(None, Some(name));
            && spec.full == Some(resolver.fs.canon(resolver.BaseOf(None) + "/" + name)) && |spec.full.value| >= |name|
            && forall c :: c in resolver.Fallbacks(None, spec) ==> |c| >= |name|
  {
    var spec := resolver.SpecOf(None, Some(name));
    PotentialsLong(spec.full.value, resolver.exts);
    LinkedLong(resolver.fs, Climb(resolver.fs.dir, resolver.BaseOf(None), None, NODE_MODULES_LEVELS), name);
  }

  /** A name longer than all that can be loaded is missing from the folder it is looked for in. */
  lemma LongMissed(good: string -> bool, resolver: FileResolver, name: string)
    requires Lengthens(resolver.fs, name) && name != "" && !IsSeparator(name[0]) && resolver.BaseOf(None) != ""
    requires GoodPaths(good, resolver)
    requires forall path :: good(path) && resolver.Load(path).Some? ==> |path| < |name|
    ensures var r := resolver.Resolve(None, Some(name));
            !r.found && r.spec.full == Some(resolver.fs.canon(resolver.BaseOf(None) + "/" + name))
  {
    if resolver.Resolve(None, Some(name)).found {
      FoundIsLoaded(resolver, None, Some(name));
    }
    LongTried(resolver, name);
    FoundIsGood(good, resolver, None, Some(name));
  }

  lemma MissedFrom(resolver: FileResolver, files: map<string, string>, folder: string, name: string)
    requires resolver.fs == MapSource(files) && resolver.BaseOf(None) == folder != "" && Vfs.Plain(name)
    requires forall i :: 0 <= i < |resolver.exts| ==> Separatorless(resolver.exts[i])
    requires forall path :: Canonical(path) && resolver.Load(path).Some? ==> |path| < |name|
    ensures var r := resolver.Resolve(None, Some(name));
            !r.found && r.spec.full == Some(Vfs.Rendered(Vfs.Segments(folder) + [name]))
  {
    var good := path => Canonical(path);
    assert name[0] in name;
    CanonicalPaths(good, resolver, files);
    PlainLengthens(files, name);
    LongMissed(good, resolver, name);
    NamedBelow(folder, name);
  }

  lemma HeldIsLoaded(files: map<string, string>, root: Option<string>, exts: seq<string>, base: string, path: string)
    ensures InMemory(files, root, exts, base).Load(path).Some? ==> path in files
    ensures Canonical(path) && OnDisk(files, root, exts, base).Load(path).Some? ==> path in files
  {
  }

  /** A name that is missing from two environments, from two places. */
  lemma MissingShows(here: Env, there: Env, name: string)
    requires ValidEnv(here) && ValidEnv(there)
    requires var r, q := here.resolve(None, Some(name)), there.resolve(None, Some(name));
             !r.found && !q.found && r.spec.full.Some? && q.spec.full.Some? && r.spec.full != q.spec.full
    ensures RunDoc(here, TOP_LEVEL, Load(Text(name))) != RunDoc(there, TOP_LEVEL, Load(Text(name)))
  {
    assert ReferenceOf(Text(name)) == Some(name);
    var r, q := here.resolve(None, Some(name)), there.resolve(None, Some(name));
    assert MissingReport(r, Some(name)) != MissingReport(q, Some(name));
  }

  lemma ParentElsewhere(base: string, name: string)
    requires Vfs.Segments(base) != [] && Vfs.Plain(name)
    ensures Vfs.Rendered(Vfs.Segments(MapFs.Dir(base)) + [name]) != Vfs.Rendered(Vfs.Segments(base) + [name])
  {
    var segments := Vfs.Segments(base);
    Vfs.SegmentsArePlain(base);
    DirOfBase(base);
    FrontElsewhere(segments, name);
  }

  lemma DirOfBase(base: string)
    requires Vfs.Segments(base) != []
    ensures MapFs.Dir(base) == Vfs.Rendered(Vfs.Segments(base)[..|Vfs.Segments(base)| - 1])
  {
    MapFs.DirDropsLast(base);
  }

  lemma FrontElsewhere(segments: seq<string>, name: string)
    requires Vfs.AllPlain(segments) && segments != [] && Vfs.Plain(name)
    ensures var front := segments[..|segments| - 1];
            Vfs.Rendered(Vfs.Segments(Vfs.Rendered(front)) + [name]) != Vfs.Rendered(segments + [name])
  {
    var front := segments[..|segments| - 1];
    Vfs.SegmentsOfRendered(front);
    Vfs.SegmentsOfRendered(front + [name]);
    Vfs.SegmentsOfRendered(segments + [name]);
    assert |front + [name]| < |segments + [name]|;
  }

  lemma MisplacedShows(files: map<string, string>, loaded: map<string, string>, root: Option<string>, exts: seq<string>,
                       base: string, setup: Setup) returns (doc: Doc)
    requires MadeFrom(files, loaded, exts) && !PlacedAlike(loaded, files, base)
    requires ValidEnv(DiskEnv(files, root, exts, base, setup)) && ValidEnv(MemoryEnv(loaded, root, exts, base, setup))
    ensures RunDoc(DiskEnv(files, root, exts, base, setup), TOP_LEVEL, doc) !=
            RunDoc(MemoryEnv(loaded, root, exts, base, setup), TOP_LEVEL, doc)
  {
    var name := LongName(files);
    doc := Load(Text(name));
    assert Vfs.Clean(base) in files && base !in loaded;
    var disk, memory := OnDisk(files, root, exts, base), InMemory(loaded, root, exts, base);
    forall path ensures Canonical(path) && (disk.Load(path).Some? || memory.Load(path).Some?) ==> |path| < |name| {
      HeldIsLoaded(files, root, exts, base, path);
      HeldIsLoaded(loaded, root, exts, base, path);
    }
    BaseIsEither(disk.IsFile, MapFs.Dir, base);
    BaseIsEither(memory.IsFile, MapFs.Dir, base);
    MissedFrom(disk, files, MapFs.Dir(base), name);
    MissedFrom(memory, map[], base, name);
    ParentElsewhere(base, name);
    MissingShows(DiskEnv(files, root, exts, base, setup), MemoryEnv(loaded, root, exts, base, setup), name);
  }

  // ----- both ways -----

  /**
   * Some of the files in place of all of them: every expansion runs to the same end (value, error,
   * report and edges) exactly when every file that the root lets through is among them and the
   * configured base is taken for a file by both or by neither, or is the top of the tree.
   */
  lemma AloneIffCovers(files: map<string, string>, loaded: map<string, string>, root: Option<string>, exts: seq<string>,
                       base: string, setup: Setup)
    requires MadeFrom(files, loaded, exts)
    ensures var disk, memory := DiskEnv(files, root, exts, base, setup), MemoryEnv(loaded, root, exts, base, setup);
            && ValidEnv(disk) && ValidEnv(memory)
            && (Covers(loaded, files, root) && PlacedAlike(loaded, files, base) <==>
                forall doc :: RunDoc(disk, TOP_LEVEL, doc) == RunDoc(memory, TOP_LEVEL, doc))
  {
    DiskEnvValid(files, root, exts, base, setup);
    MemoryEnvValid(loaded, root, exts, base, setup);
    if !Covers(loaded, files, root) {
      var key :| key in files && Allowed(MapSource(files), root, key) && key !in loaded;
      CanonicalIsNameable(key);
      assert OnDisk(files, root, exts, base).Load(key) == Some(files[key]);
      FoundByName(OnDisk(files, root, exts, base), "/" + key, key);
      LoadShows(DiskEnv(files, root, exts, base, setup), MemoryEnv(loaded, root, exts, base, setup), "/" + key, key);
    } else if !PlacedAlike(loaded, files, base) {
      var _ := MisplacedShows(files, loaded, root, exts, base, setup);
    } else {
      CoveredEnvs(files, loaded, root, exts, base, setup);
      forall doc ensures RunDoc(DiskEnv(files, root, exts, base, setup), TOP_LEVEL, doc) ==
                         RunDoc(MemoryEnv(loaded, root, exts, base, setup), TOP_LEVEL, doc) {
        SameRun(MemoryEnv(loaded, root, exts, base, setup), DiskEnv(files, root, exts, base, setup), TOP_LEVEL, doc);
      }
    }
  }

  /**
   * With everything preloaded the filesystem may go, exactly when the base is spelt as its key,
   * names no file or is the top.
   */
  lemma FilesystemMayGo(files: map<string, string>, root: Option<string>, exts: seq<string>, base: string, setup: Setup)
    requires MadeFrom(files, files, exts)
    ensures var disk, memory := DiskEnv(files, root, exts, base, setup), MemoryEnv(files, root, exts, base, setup);
            && ValidEnv(disk) && ValidEnv(memory)
            && (SpelledOut(files, base) || Vfs.Segments(base) == [] <==>
                forall doc :: RunDoc(disk, TOP_LEVEL, doc) == RunDoc(memory, TOP_LEVEL, doc))
  {
    AloneIffCovers(files, files, root, exts, base, setup);
  }

  /** Some folder of the list selects every file that the root lets through. */
  ghost predicate ScanCovers(files: map<string, string>, folders: seq<string>, query: Preload.Query,
                             root: Option<string>) {
    forall k :: k in files && Allowed(MapSource(files), root, k) ==>
      SomeSelects(Preload.TreeOf(files), folders, query, k)
  }

  ghost predicate SomeSelects(tree: Preload.Tree, folders: seq<string>, query: Preload.Query, key: string) {
    exists i :: 0 <= i < |folders| && Preload.Selected(tree, Vfs.Segments(folders[i]), query, key)
  }

  lemma {:induction false} PreloadedIsSelected(tree: Preload.Tree, folders: seq<string>, query: Preload.Query,
                                               key: string)
    ensures key in Preload.Preloaded(tree, folders, query) <==> SomeSelects(tree, folders, query, key)
  {
    if folders != [] {
      var n := |folders| - 1;
      PreloadedIsSelected(tree, folders[..n], query, key);
      if i :| 0 <= i < n && Preload.Selected(tree, Vfs.Segments(folders[i]), query, key) {
        assert folders[..n][i] == folders[i];
      }
    }
  }

  /** The preload that a scan of `folders` makes: unnoticed beside the filesystem, and when it can stand in for it. */
  lemma ScanStandsIn(files: map<string, string>, folders: seq<string>, query: Preload.Query, root: Option<string>,
                     exts: seq<string>, base: string, setup: Setup)
    requires MadeFrom(files, files, exts)
    ensures var loaded := Preload.Restrict(files, Preload.Preloaded(Preload.TreeOf(files), folders, query));
            var disk, memory := DiskEnv(files, root, exts, base, setup), MemoryEnv(loaded, root, exts, base, setup);
            && (forall current, reference ::
                  FileResolver(MapSource(files), loaded, root, exts, base).Resolve(current, reference) ==
                  OnDisk(files, root, exts, base).Resolve(current, reference))
            && ValidEnv(disk) && ValidEnv(memory)
            && (ScanCovers(files, folders, query, root) && PlacedAlike(loaded, files, base) <==>
                forall doc :: RunDoc(disk, TOP_LEVEL, doc) == RunDoc(memory, TOP_LEVEL, doc))
  {
    var loaded := Preload.Restrict(files, Preload.Preloaded(Preload.TreeOf(files), folders, query));
    forall k ensures k in loaded <==> k in files && SomeSelects(Preload.TreeOf(files), folders, query, k) {
      PreloadedIsSelected(Preload.TreeOf(files), folders, query, k);
    }
    PartAgrees(files, loaded, root, exts, base);
    forall current, reference
      ensures FileResolver(MapSource(files), loaded, root, exts, base).Resolve(current, reference) ==
              OnDisk(files, root, exts, base).Resolve(current, reference)
    {
      AgreeingPreloadIsTransparent(FileResolver(MapSource(files), loaded, root, exts, base), current, reference);
    }
    AloneIffCovers(files, loaded, root, exts, base, setup);
  }
}
