/** The package resolver: `node_modules` folders, a package's declared main, and index files. */
module PkgResolver {
  import opened Common
  import opened References
  import opened FileResolver
  import Vfs
  import MapFs

  /** One path tried: a candidate source, or a manifest that is only read. */
  datatype Probe = Candidate(path: string) | Manifest(path: string)

  datatype Attempt = Attempt(hit: Option<string>, search: seq<string>)

  /** Probes are tried in order, up to the first candidate that loads; each is recorded. */
  function Try(load: string -> Option<string>, probes: seq<Probe>): Attempt {
    if probes == [] then Attempt(None, [])
    else if probes[0].Candidate? && load(probes[0].path).Some? then Attempt(Some(probes[0].path), [probes[0].path])
    else
      var rest := Try(load, probes[1..]);
      Attempt(rest.hit, [probes[0].path] + rest.search)
  }

  function Then(first: Attempt, rest: Attempt): Attempt {
    if first.hit.Some? then first else Attempt(rest.hit, first.search + rest.search)
  }

  lemma {:induction false} TryAppend(load: string -> Option<string>, a: seq<Probe>, b: seq<Probe>)
    ensures Try(load, a + b) == Then(Try(load, a), Try(load, b))
  {
    if a == [] {
      assert a + b == b;
    } else {
      assert (a + b)[1..] == a[1..] + b;
      TryAppend(load, a[1..], b);
    }
  }

  function Paths(probes: seq<Probe>): seq<string> {
    seq(|probes|, i requires 0 <= i < |probes| => probes[i].path)
  }

  /** The hit is the first candidate that loads, and the search list is exactly the paths tried. */
  lemma {:induction false} TryIsFirst(load: string -> Option<string>, probes: seq<Probe>) returns (n: nat)
    ensures n <= |probes|
    ensures forall i :: 0 <= i < n && probes[i].Candidate? ==> load(probes[i].path).None?
    ensures if n == |probes| then Try(load, probes) == Attempt(None, Paths(probes))
            else
              && probes[n].Candidate? && load(probes[n].path).Some?
              && Try(load, probes) == Attempt(Some(probes[n].path), Paths(probes[..n + 1]))
  {
    if probes == [] {
      n := 0;
    } else if probes[0].Candidate? && load(probes[0].path).Some? {
      n := 0;
      assert Paths(probes[..1]) == [probes[0].path];
    } else {
      var rest := TryIsFirst(load, probes[1..]);
      n := rest + 1;
      if n < |probes| {
        assert probes[..n + 1] == [probes[0]] + probes[1..][..n];
        assert Paths(probes[..n + 1]) == [probes[0].path] + Paths(probes[1..][..n]);
      } else {
        assert Paths(probes) == [probes[0].path] + Paths(probes[1..]);
      }
    }
  }

  // ----- one `node_modules` folder -----

  function Candidates(paths: seq<string>): seq<Probe> {
    seq(|paths|, i requires 0 <= i < |paths| => Candidate(paths[i]))
  }

  /** An index file inside the target folder, rather than the target under some extension. */
  predicate IsIndexOf(candidate: string, target: string) {
    target <= candidate &&
    var rest := candidate[|target|..];
    rest != "" && IsSeparator(rest[0]) && "index." <= rest[1..]
  }

  function Keep(paths: seq<string>, target: string, index: bool): seq<string> {
    if paths == [] then []
    else
      var last := paths[|paths| - 1];
      Keep(paths[..|paths| - 1], target, index) + if IsIndexOf(last, target) == index then [last] else []
  }

  method Partition(paths: seq<string>, target: string) returns (files: seq<string>, indexes: seq<string>)
    ensures files == Keep(paths, target, false) && indexes == Keep(paths, target, true)
  {
    files, indexes := [], [];
    for i := 0 to |paths|
      invariant files == Keep(paths[..i], target, false) && indexes == Keep(paths[..i], target, true)
    {
      assert paths[..i + 1][..i] == paths[..i];
      if IsIndexOf(paths[i], target) {
        indexes := indexes + [paths[i]];
      } else {
        files := files + [paths[i]];
      }
    }
    assert paths[..|paths|] == paths;
  }

  /** The paths a package's declared main could name; none without a manifest that declares one. */
  function MainPaths(fs: SourceFs, load: string -> Option<string>, main: string -> Option<string>, target: string,
                     exts: seq<string>): seq<string> {
    match load(fs.join([target, "package.json"]))
    case None => []
    case Some(text) =>
      match main(text)
      case None => []
      case Some(name) => if name == "" then [] else Potentials(fs.join([target, name]), exts)
  }

  /** Files first, then the declared main, then index files. */
  function ProbesIn(fs: SourceFs, load: string -> Option<string>, main: string -> Option<string>,
                    folder: string, reference: string, exts: seq<string>): seq<Probe> {
    var target := fs.join([folder, reference]);
    var named := Potentials(target, exts);
    Candidates(Keep(named, target, false)) + [Manifest(fs.join([target, "package.json"]))] +
    Candidates(MainPaths(fs, load, main, target, exts)) + Candidates(Keep(named, target, true))
  }

  lemma ThenAssociative(a: Attempt, b: Attempt, c: Attempt)
    ensures Then(Then(a, b), c) == Then(a, Then(b, c))
  {
    if a.hit.None? && b.hit.None? {
      ConcatAssociative(a.search, b.search, c.search);
    }
  }

  /** Candidates are tried and recorded one by one, unless something has been hit before. */
  method TryEach(load: string -> Option<string>, paths: seq<string>, before: Attempt) returns (tried: Attempt)
    ensures tried == Then(before, Try(load, Candidates(paths)))
  {
    tried := before;
    if before.hit.Some? {
      return;
    }
    for i := 0 to |paths|
      invariant tried.hit.None?
      invariant Then(before, Try(load, Candidates(paths))) == Then(tried, Try(load, Candidates(paths)[i..]))
    {
      assert Candidates(paths)[i] == Candidate(paths[i]);
      assert Candidates(paths)[i..][1..] == Candidates(paths)[i + 1..];
      tried := Attempt(None, tried.search + [paths[i]]);
      if load(paths[i]).Some? {
        return Attempt(Some(paths[i]), tried.search);
      }
    }
  }

  method ReadMain(fs: SourceFs, load: string -> Option<string>, main: string -> Option<string>, target: string,
                  exts: seq<string>)
    returns (candidates: seq<string>)
    ensures candidates == MainPaths(fs, load, main, target, exts)
  {
    candidates := [];
    var text := load(fs.join([target, "package.json"]));
    if text.Some? {
      var name := main(text.value);
      if name.Some? && name.value != "" {
        candidates := BuildPotentials(fs.join([target, name.value]), exts);
      }
    }
  }

  method ResolveInPkgDir(fs: SourceFs, load: string -> Option<string>, main: string -> Option<string>,
                         folder: string, reference: string, exts: seq<string>, before: Attempt) returns (tried: Attempt)
    requires before.hit.None?
    ensures tried == Then(before, Try(load, ProbesIn(fs, load, main, folder, reference, exts)))
  {
    var target := fs.join([folder, reference]);
    var named := BuildPotentials(target, exts);
    var files, indexes := Partition(named, target);
    var manifest := fs.join([target, "package.json"]);
    ghost var mains := MainPaths(fs, load, main, target, exts);
    ProbesInOrder(load, before, files, manifest, mains, indexes);
    tried := TryEach(load, files, before);
    if tried.hit.None? {
      tried := Attempt(None, tried.search + [manifest]);
      var candidates := ReadMain(fs, load, main, target, exts);
      tried := TryEach(load, candidates, tried);
      tried := TryEach(load, indexes, tried);
    }
  }

  lemma ProbesInOrder(load: string -> Option<string>, before: Attempt, files: seq<string>, manifest: string,
                      mains: seq<string>, indexes: seq<string>)
    ensures var all := Candidates(files) + [Manifest(manifest)] + Candidates(mains) + Candidates(indexes);
            Then(before, Try(load, all)) ==
            Then(Then(Then(Then(before, Try(load, Candidates(files))), Attempt(None, [manifest])),
                      Try(load, Candidates(mains))), Try(load, Candidates(indexes)))
  {
    var f, m, c, i := Candidates(files), [Manifest(manifest)], Candidates(mains), Candidates(indexes);
    TryAppend(load, f + m + c, i);
    TryAppend(load, f + m, c);
    TryAppend(load, f, m);
    assert m[1..] == [] && Try(load, m) == Attempt(None, [manifest]);
    ThenAssociative(before, Try(load, f + m + c), Try(load, i));
    ThenAssociative(before, Try(load, f + m), Try(load, c));
    ThenAssociative(before, Try(load, f), Try(load, m));
  }

  // ----- the folders searched -----

  const MAX_ANCESTORS: nat := 65

  /** A folder and its parents, up to the one that is its own parent, or as many as allowed. */
  function Ancestors(dir: string -> string, current: string, room: nat): seq<string>
    decreases room
  {
    if room == 0 then []
    else [current] + if dir(current) == current then [] else Ancestors(dir, dir(current), room - 1)
  }

  method AncestorsByLoop(dir: string -> string, start: string, room: nat) returns (dirs: seq<string>)
    requires room > 0
    ensures dirs == if start == "" then [] else Ancestors(dir, start, room)
  {
    if start == "" {
      return [];
    }
    dirs := [];
    var current := start;
    ghost var rest := Ancestors(dir, start, room);
    assert dirs + rest == rest;
    while true
      invariant |dirs| < room && rest == Ancestors(dir, current, room - |dirs|)
      invariant Ancestors(dir, start, room) == dirs + rest
      decreases room - |dirs|
    {
      ConcatAssociative(dirs, [current], rest[1..]);
      dirs, rest := dirs + [current], rest[1..];
      var parent := dir(current);
      if parent == current {
        assert dirs + [] == dirs;
        return;
      }
      current := parent;
      if |dirs| > room - 1 {
        assert dirs + [] == dirs;
        return;
      }
    }
  }

  /** The folders of `dirs` whose `node_modules` is not in `seen`, each once, in order. */
  function Unseen(seen: seq<string>, folders: seq<string>): seq<string>
    decreases folders
  {
    if folders == [] then []
    else if folders[0] in seen then Unseen(seen, folders[1..])
    else [folders[0]] + Unseen(seen + [folders[0]], folders[1..])
  }

  datatype PkgResolver = PkgResolver(
    fs: SourceFs, paths: seq<string>,
    root: Option<string>, exts: seq<string>,
    base: string, main: string -> Option<string>)
  {
    function Load(path: string): Option<string> {
      if Allowed(fs, root, path) then fs.read(path) else None
    }

    function SpecOf(current: Option<string>, reference: Option<string>): PathSpec {
      ResolvePathSpec(reference, BaseFor(path => fs.read(path).Some?, fs.dir, current, base))
    }

    function Starts(): seq<string> { if paths == [] then ["."] else paths }

    /** Every `node_modules` folder along the walk, repeats included. */
    function Walk(starts: seq<string>): seq<string> {
      if starts == [] then []
      else
        var start := fs.canon(starts[0]);
        Modules(if start == "" then [] else Ancestors(fs.dir, start, MAX_ANCESTORS)) + Walk(starts[1..])
    }

    function Modules(folders: seq<string>): seq<string> {
      seq(|folders|, i requires 0 <= i < |folders| => fs.join([folders[i], "node_modules"]))
    }

    function ProbesAlong(folders: seq<string>, reference: string): seq<Probe> {
      if folders == [] then []
      else ProbesIn(fs, Load, main, folders[0], reference, exts) + ProbesAlong(folders[1..], reference)
    }

    /** The probes of a package reference: folder by folder along the walk, each folder once. */
    function PackageProbes(reference: string): seq<Probe> {
      ProbesAlong(Unseen([], Walk(Starts())), reference)
    }

    function Relative(spec: PathSpec): Resolution
      requires spec.full.Some?
    {
      var full := fs.canon(spec.full.value);
      var potentials := if ExtKind(Some(full)) == "" then Potentials(full, exts) else [full];
      match FirstLoaded(Load, potentials)
      case Some(hit) => FoundAt(spec, hit, Load(hit).value, potentials)
      case None => NotFound(spec, potentials)
    }

    function Resolve(current: Option<string>, reference: Option<string>): Resolution {
      var spec := SpecOf(current, reference);
      if spec.full.None? then NotFound(spec, [])
      else if IsRelative(spec.path.value) then Relative(spec)
      else
        var attempt := Try(Load, PackageProbes(spec.path.value));
        match attempt.hit
        case Some(hit) => FoundAt(spec, hit, Found(hit), attempt.search)
        case None => NotFound(spec, attempt.search)
    }

    function Found(path: string): string { match Load(path) case Some(src) => src case None => "" }

    method ResolvePackage(reference: string) returns (tried: Attempt)
      ensures tried == Try(Load, PackageProbes(reference))
    {
      var starts, seen := Starts(), [];
      tried := Attempt(None, []);
      ghost var whole := Try(Load, PackageProbes(reference));
      for i := 0 to |starts|
        invariant tried.hit.None?
        invariant whole == Then(tried, Try(Load, ProbesAlong(Unseen(seen, Walk(starts[i..])), reference)))
      {
        assert starts[i..][1..] == starts[i + 1..];
        var folders := AncestorsByLoop(fs.dir, fs.canon(starts[i]), MAX_ANCESTORS);
        ghost var rest := Walk(starts[i + 1..]);
        tried, seen := ResolveAlong(folders, reference, seen, tried, rest);
        if tried.hit.Some? {
          return;
        }
      }
    }

    /** The folders of one start, in order, leaving out those seen before; `rest` is what comes after them. */
    method ResolveAlong(folders: seq<string>, reference: string, before: seq<string>, start: Attempt,
                        ghost rest: seq<string>)
      returns (tried: Attempt, seen: seq<string>)
      requires start.hit.None?
      ensures Then(start, Try(Load, ProbesAlong(Unseen(before, Modules(folders) + rest), reference))) ==
              Then(tried, Try(Load, ProbesAlong(Unseen(seen, rest), reference)))
    {
      tried, seen := start, before;
      ghost var ahead := Modules(folders) + rest;
      ghost var whole := Then(start, Try(Load, ProbesAlong(Unseen(before, ahead), reference)));
      for i := 0 to |folders|
        invariant tried.hit.None?
        invariant ahead == Modules(folders)[i..] + rest
        invariant whole == Then(tried, Try(Load, ProbesAlong(Unseen(seen, ahead), reference)))
      {
        var modules := fs.join([folders[i], "node_modules"]);
        ghost var later := Modules(folders)[i + 1..] + rest;
        ModulesStep(folders, rest, i);
        SkipFolder(modules, seen, later);
        ahead := later;
        if modules !in seen {
          TryFolder(modules, reference, seen, later, tried);
          seen := seen + [modules];
          tried := ResolveInPkgDir(fs, Load, main, modules, reference, exts, tried);
          if tried.hit.Some? {
            return;
          }
        }
      }
      assert ahead == rest;
    }

    lemma ModulesStep(folders: seq<string>, rest: seq<string>, i: nat)
      requires i < |folders|
      ensures Modules(folders)[i..] + rest ==
              [fs.join([folders[i], "node_modules"])] + (Modules(folders)[i + 1..] + rest)
    {
    }

    lemma SkipFolder(modules: string, seen: seq<string>, later: seq<string>)
      ensures modules in seen ==> Unseen(seen, [modules] + later) == Unseen(seen, later)
    {
      assert ([modules] + later)[1..] == later;
    }

    lemma TryFolder(modules: string, reference: string, seen: seq<string>, rest: seq<string>, tried: Attempt)
      requires modules !in seen
      ensures Then(tried, Try(Load, ProbesAlong(Unseen(seen, [modules] + rest), reference))) ==
              Then(Then(tried, Try(Load, ProbesIn(fs, Load, main, modules, reference, exts))),
                   Try(Load, ProbesAlong(Unseen(seen + [modules], rest), reference)))
    {
      var here := ProbesIn(fs, Load, main, modules, reference, exts);
      var later := ProbesAlong(Unseen(seen + [modules], rest), reference);
      assert ([modules] + rest)[1..] == rest;
      assert Unseen(seen, [modules] + rest) == [modules] + Unseen(seen + [modules], rest);
      assert ([modules] + Unseen(seen + [modules], rest))[1..] == Unseen(seen + [modules], rest);
      TryAppend(Load, here, later);
      ThenAssociative(tried, Try(Load, here), Try(Load, later));
    }

    method ResolveByLoop(current: Option<string>, reference: Option<string>) returns (r: Resolution)
      ensures r == Resolve(current, reference)
    {
      var spec := SpecOf(current, reference);
      if spec.full.None? {
        return NotFound(spec, []);
      }
      if IsRelative(spec.path.value) {
        return Relative(spec);
      }
      var tried := ResolvePackage(spec.path.value);
      if tried.hit.Some? {
        return FoundAt(spec, tried.hit.value, Found(tried.hit.value), tried.search);
      }
      return NotFound(spec, tried.search);
    }
  }

  predicate IsRelative(reference: string) {
    || reference == "." || reference == ".."
    || "./" <= reference || "../" <= reference || ".\\" <= reference || "..\\" <= reference
  }

  // ----- what a resolution returns -----

  /**
   * A package reference resolves to the first probe that loads, folder by folder; the search list
   * is exactly the paths tried, in order, whether something was found or not.
   */
  lemma PackageResolution(resolver: PkgResolver, current: Option<string>, reference: Option<string>) returns (n: nat)
    requires var spec := resolver.SpecOf(current, reference); spec.full.Some? && !IsRelative(spec.path.value)
    ensures var spec, r := resolver.SpecOf(current, reference), resolver.Resolve(current, reference);
            var probes := resolver.PackageProbes(spec.path.value);
            && n <= |probes|
            && (forall i :: 0 <= i < n && probes[i].Candidate? ==> resolver.Load(probes[i].path).None?)
            && (r.found <==> n < |probes|)
            && (n < |probes| ==> r.spec.full == Some(probes[n].path) && r.src == resolver.Load(probes[n].path))
            && r.search == Paths(if n < |probes| then probes[..n + 1] else probes)
  {
    var spec := resolver.SpecOf(current, reference);
    n := TryIsFirst(resolver.Load, resolver.PackageProbes(spec.path.value));
  }

  /** Whatever the package resolver finds over an in-memory filesystem lies at or below its root. */
  lemma PackageIsConfined(resolver: PkgResolver, files: map<string, string>, current: Option<string>,
                          reference: Option<string>)
    requires resolver.fs == MapSource(files) && resolver.root.Some?
    ensures var r := resolver.Resolve(current, reference);
            r.found ==> r.spec.full.Some? && Vfs.Segments(resolver.root.value) <= Vfs.Segments(r.spec.full.value)
  {
    var spec, r := resolver.SpecOf(current, reference), resolver.Resolve(current, reference);
    if r.found {
      if !IsRelative(spec.path.value) {
        var n := TryIsFirst(resolver.Load, resolver.PackageProbes(spec.path.value));
      }
      assert resolver.Load(r.spec.full.value).Some?;
      AllowedIsBelow(files, resolver.root.value, r.spec.full.value);
    }
  }

  // ----- where files end and index files begin -----

  lemma {:induction false} KeepConcat(a: seq<string>, b: seq<string>, target: string, index: bool)
    ensures Keep(a + b, target, index) == Keep(a, target, index) + Keep(b, target, index)
  {
    if b == [] {
      assert a + b == a;
    } else {
      assert (a + b)[..|a + b| - 1] == a + b[..|b| - 1];
      KeepConcat(a, b[..|b| - 1], target, index);
    }
  }

  lemma {:induction false} KeepUniform(paths: seq<string>, target: string, index: bool, all: bool)
    requires forall i :: 0 <= i < |paths| ==> IsIndexOf(paths[i], target) == all
    ensures Keep(paths, target, index) == if index == all then paths else []
  {
    if paths != [] {
      KeepUniform(paths[..|paths| - 1], target, index, all);
    }
  }

  lemma IndexForms(target: string, segment: string, ext: string)
    requires "." <= ext
    ensures !IsIndexOf(target + ext, target)
    ensures IsIndexOf(target + "/index" + ext, target)
    ensures IsIndexOf(target + "/index." + segment + ext, target)
  {
    assert (target + ext)[|target|..] == ext;
    assert (target + "/index" + ext)[|target|..] == "/index" + ext;
    assert ("/index" + ext)[1..] == "index" + ext && ext == "." + ext[1..];
    assert "index" + ext == "index." + ext[1..];
    assert (target + "/index." + segment + ext)[|target|..] == "/index." + segment + ext;
    assert ("/index." + segment + ext)[1..] == "index." + (segment + ext);
  }

  lemma IndexSuffixes(target: string, segment: string, exts: seq<string>)
    requires forall i :: 0 <= i < |exts| ==> "." <= exts[i]
    ensures forall i :: 0 <= i < |exts| ==> !IsIndexOf(Suffixed(target, exts)[i], target)
    ensures forall i :: 0 <= i < |exts| ==> IsIndexOf(Suffixed(target + "/index", exts)[i], target)
    ensures forall i :: 0 <= i < |exts| ==> IsIndexOf(Suffixed(target + "/index." + segment, exts)[i], target)
  {
    forall i | 0 <= i < |exts|
      ensures !IsIndexOf(target + exts[i], target) && IsIndexOf(target + "/index" + exts[i], target)
      ensures IsIndexOf(target + "/index." + segment + exts[i], target)
    {
      IndexForms(target, segment, exts[i]);
    }
  }

  lemma KeepSplit(files: seq<string>, indexes: seq<string>, target: string)
    requires forall i :: 0 <= i < |files| ==> !IsIndexOf(files[i], target)
    requires forall i :: 0 <= i < |indexes| ==> IsIndexOf(indexes[i], target)
    ensures Keep(files + indexes, target, false) == files && Keep(files + indexes, target, true) == indexes
  {
    KeepConcat(files, indexes, target, false);
    KeepConcat(files, indexes, target, true);
    KeepUniform(files, target, false, false);
    KeepUniform(files, target, true, false);
    KeepUniform(indexes, target, false, true);
    KeepUniform(indexes, target, true, true);
  }

  /** The candidates of a path whose last segment has no dot: those beside it, then those inside it. */
  lemma SplitCandidates(target: string, exts: seq<string>) returns (files: seq<string>, indexes: seq<string>)
    requires target != "" && forall i :: 0 <= i < |exts| ==> "." <= exts[i]
    ensures Potentials(target, exts) == files + indexes
    ensures files == if '.' in LastSegment(target) then [target] else [target] + Suffixed(target, exts)
    ensures forall i :: 0 <= i < |files| ==> !IsIndexOf(files[i], target)
    ensures forall i :: 0 <= i < |indexes| ==> IsIndexOf(indexes[i], target)
  {
    var segment := LastSegment(target);
    assert target[|target|..] == "";
    if '.' in segment {
      files, indexes := [target], [];
    } else {
      var plain, index := Suffixed(target, exts), Suffixed(target + "/index", exts);
      var named := if segment == "" then [] else Suffixed(target + "/index." + segment, exts);
      IndexSuffixes(target, segment, exts);
      files, indexes := [target] + plain, index + named;
      ConcatAssociative([target] + plain, index, named);
    }
  }

  /** When every extension starts with a dot, the partition splits the candidates where the index files begin. */
  lemma PartitionAtIndex(target: string, exts: seq<string>)
    requires target != "" && forall i :: 0 <= i < |exts| ==> "." <= exts[i]
    ensures var named, dotted := Potentials(target, exts), '.' in LastSegment(target);
            var files := if dotted then [target] else [target] + Suffixed(target, exts);
            && files <= named
            && Keep(named, target, false) == files
            && Keep(named, target, true) == named[|files|..]
  {
    var files, indexes := SplitCandidates(target, exts);
    KeepSplit(files, indexes, target);
  }

  // ----- the walk -----

  /** Each folder is searched once, at its first place in the walk. */
  lemma {:induction false} UnseenOnce(seen: seq<string>, folders: seq<string>)
    ensures NoDup(Unseen(seen, folders))
    ensures forall f :: f in Unseen(seen, folders) <==> f in folders && f !in seen
    decreases folders
  {
    if folders != [] {
      UnseenOnce(seen, folders[1..]);
      UnseenOnce(seen + [folders[0]], folders[1..]);
    }
  }

  /** Each folder of a chain has the next as its parent, and the last has itself. */
  ghost predicate IsChain(dir: string -> string, chain: seq<string>) {
    chain != [] && forall k :: 0 <= k < |chain| ==> HasParent(dir, chain, k)
  }

  ghost predicate HasParent(dir: string -> string, chain: seq<string>, k: nat)
    requires k < |chain|
  {
    if k < |chain| - 1 then dir(chain[k]) == chain[k + 1] != chain[k] else dir(chain[k]) == chain[k]
  }

  /** The ancestors of a chain's first folder are the chain, cut where the cap falls. */
  lemma {:induction false} AncestorsFollow(dir: string -> string, chain: seq<string>, room: nat)
    requires IsChain(dir, chain)
    ensures Ancestors(dir, chain[0], room) == chain[..if room <= |chain| then room else |chain|]
    decreases room
  {
    if room > 0 {
      assert HasParent(dir, chain, 0);
      if |chain| > 1 {
        forall k | 0 <= k < |chain| - 1 ensures HasParent(dir, chain[1..], k) {
          assert HasParent(dir, chain, k + 1);
        }
        AncestorsFollow(dir, chain[1..], room - 1);
      }
    }
  }

  /** A folder's prefixes, longest first, down to the root. */
  ghost function Prefixes(segments: seq<string>): (prefixes: seq<string>)
    ensures |prefixes| == |segments| + 1
  {
    seq(|segments| + 1, k requires 0 <= k <= |segments| => Vfs.Rendered(segments[..|segments| - k]))
  }

  /** The chain of prefixes is one for any function that drops the last segment of a path. */
  lemma PrefixParent(dir: string -> string, segments: seq<string>, k: nat)
    requires Vfs.AllPlain(segments) && k <= |segments|
    requires var here := segments[..|segments| - k];
             dir(Vfs.Rendered(here)) == Vfs.Rendered(if here == [] then [] else here[..|here| - 1])
    ensures HasParent(dir, Prefixes(segments), k)
  {
    var here := segments[..|segments| - k];
    if k < |segments| {
      var up := segments[..|segments| - (k + 1)];
      assert here[..|here| - 1] == up;
      if Vfs.Rendered(here) == Vfs.Rendered(up) {
        MapFs.RenderedInjective(here, up);
      }
    }
  }

  lemma PrefixesFollow(dir: string -> string, segments: seq<string>, room: nat)
    requires forall k :: 0 <= k <= |segments| ==> HasParent(dir, Prefixes(segments), k)
    ensures var prefixes := Prefixes(segments);
            Ancestors(dir, prefixes[0], room) == prefixes[..if room <= |prefixes| then room else |prefixes|]
  {
    AncestorsFollow(dir, Prefixes(segments), room);
  }

  lemma PrefixesStart(segments: seq<string>)
    ensures Prefixes(segments)[0] == Vfs.Rendered(segments)
  {
    assert segments[..|segments|] == segments;
  }

  /** In an in-memory filesystem the ancestors of a folder are its prefixes, longest first, up to the cap. */
  lemma AncestorsArePrefixes(segments: seq<string>, room: nat)
    requires Vfs.AllPlain(segments)
    ensures var prefixes := Prefixes(segments);
            Ancestors(MapFs.Dir, Vfs.Rendered(segments), room) ==
            prefixes[..if room <= |prefixes| then room else |prefixes|]
  {
    PrefixesStart(segments);
    forall k | 0 <= k <= |segments| ensures HasParent(MapFs.Dir, Prefixes(segments), k) {
      MapFs.DirOfRendered(segments[..|segments| - k]);
      PrefixParent(MapFs.Dir, segments, k);
    }
    PrefixesFollow(MapFs.Dir, segments, room);
  }
}
