/**
 * What a package reference finds, told by the files there are: inside one `node_modules` folder, and
 * among the folders along the walk.
 */
module Packages {
  import opened Common
  import opened References
  import opened FileResolver
  import opened PkgResolver
  import opened Lookups
  import MapFs
  import Vfs

  // ----- one folder -----

  /** Of the candidates that are index files, or of those that are not, the hit is the first that loads. */
  ghost predicate FirstSuch(load: string -> Option<string>, paths: seq<string>, target: string, index: bool,
                            hit: string) {
    exists k: nat :: SuchAt(load, paths, target, index, k) && hit == paths[k]
  }

  ghost predicate SuchAt(load: string -> Option<string>, paths: seq<string>, target: string, index: bool, k: nat) {
    && k < |paths| && IsIndexOf(paths[k], target) == index && load(paths[k]).Some?
    && forall j :: 0 <= j < k && IsIndexOf(paths[j], target) == index ==> load(paths[j]).None?
  }

  ghost predicate NoneSuch(load: string -> Option<string>, paths: seq<string>, target: string, index: bool) {
    forall j :: 0 <= j < |paths| && IsIndexOf(paths[j], target) == index ==> load(paths[j]).None?
  }

  lemma {:induction false} FirstAppend(load: string -> Option<string>, a: seq<string>, b: seq<string>)
    ensures FirstLoaded(load, a + b) ==
            if FirstLoaded(load, a).Some? then FirstLoaded(load, a) else FirstLoaded(load, b)
  {
    if a == [] {
      assert a + b == b;
    } else {
      assert (a + b)[1..] == a[1..] + b;
      FirstAppend(load, a[1..], b);
    }
  }

  /** What is first of one kind, if anything of it loads. */
  ghost predicate FirstOfKind(load: string -> Option<string>, paths: seq<string>, target: string, index: bool,
                              first: Option<string>) {
    && (first.None? <==> NoneSuch(load, paths, target, index))
    && (first.Some? ==> FirstSuch(load, paths, target, index, first.value))
  }

  lemma {:induction false} KeptFirst(load: string -> Option<string>, paths: seq<string>, target: string, index: bool)
    ensures FirstOfKind(load, paths, target, index, FirstLoaded(load, Keep(paths, target, index)))
    decreases paths
  {
    if paths != [] {
      var front, last := paths[..|paths| - 1], paths[|paths| - 1];
      assert paths == front + [last];
      KeptFirst(load, front, target, index);
      KindOn(load, front, last, target, index, FirstLoaded(load, Keep(front, target, index)));
      FirstAppend(load, Keep(front, target, index), if IsIndexOf(last, target) == index then [last] else []);
      OneLoads(load, last);
    }
  }

  lemma KindOn(load: string -> Option<string>, front: seq<string>, last: string, target: string, index: bool,
               first: Option<string>)
    requires FirstOfKind(load, front, target, index, first)
    ensures FirstOfKind(load, front + [last], target, index,
                        if first.Some? then first
                        else if IsIndexOf(last, target) == index && load(last).Some? then Some(last) else None)
  {
    SuchOn(load, front, last, target, index);
    if first.Some? {
      var k: nat :| SuchAt(load, front, target, index, k) && first.value == front[k];
      assert load(front[k]).Some?;
    }
  }

  lemma OneLoads(load: string -> Option<string>, path: string)
    ensures FirstLoaded(load, [path]) == if load(path).Some? then Some(path) else None
  {
  }

  /** One more candidate at the end. */
  lemma SuchOn(load: string -> Option<string>, front: seq<string>, last: string, target: string, index: bool)
    ensures NoneSuch(load, front + [last], target, index) <==>
            NoneSuch(load, front, target, index) && (IsIndexOf(last, target) == index ==> load(last).None?)
    ensures forall hit :: FirstSuch(load, front, target, index, hit) ==>
              FirstSuch(load, front + [last], target, index, hit)
    ensures NoneSuch(load, front, target, index) && IsIndexOf(last, target) == index && load(last).Some? ==>
              FirstSuch(load, front + [last], target, index, last)
  {
    var paths := front + [last];
    if NoneSuch(load, paths, target, index) {
      forall j | 0 <= j < |front| && IsIndexOf(front[j], target) == index ensures load(front[j]).None? {
        assert paths[j] == front[j];
      }
      assert paths[|front|] == last;
    }
    forall hit | FirstSuch(load, front, target, index, hit) ensures FirstSuch(load, paths, target, index, hit) {
      var k: nat :| SuchAt(load, front, target, index, k) && hit == front[k];
      assert SuchAt(load, paths, target, index, k) && paths[k] == hit;
    }
    if NoneSuch(load, front, target, index) && IsIndexOf(last, target) == index && load(last).Some? {
      assert SuchAt(load, paths, target, index, |front|) && paths[|front|] == last;
    }
  }

  /** At most one path is the first. */
  lemma OnlyFirst(load: string -> Option<string>, paths: seq<string>, target: string, index: bool, a: string, b: string)
    requires FirstSuch(load, paths, target, index, a) && FirstSuch(load, paths, target, index, b)
    ensures a == b
  {
    var i: nat :| SuchAt(load, paths, target, index, i) && a == paths[i];
    var j: nat :| SuchAt(load, paths, target, index, j) && b == paths[j];
    assert i == j;
  }

  lemma {:induction false} TryCandidates(load: string -> Option<string>, paths: seq<string>)
    ensures Try(load, Candidates(paths)).hit == FirstLoaded(load, paths)
  {
    if paths != [] {
      assert Candidates(paths)[0] == Candidate(paths[0]) && Candidates(paths)[1..] == Candidates(paths[1..]);
      TryCandidates(load, paths[1..]);
    }
  }

  /** The package declares a main: its manifest loads and names one. */
  ghost predicate Declares(fs: SourceFs, load: string -> Option<string>, main: string -> Option<string>,
                           target: string, name: string) {
    && name != "" && load(fs.join([target, "package.json"])).Some?
    && main(load(fs.join([target, "package.json"])).value) == Some(name)
  }

  /** The first candidate that the declared main implies and that loads. */
  ghost predicate MainWins(fs: SourceFs, load: string -> Option<string>, main: string -> Option<string>,
                           target: string, exts: seq<string>, hit: string) {
    exists name, k: nat ::
      Declares(fs, load, main, target, name) && WinsAt(load, Potentials(fs.join([target, name]), exts), k) &&
      hit == Potentials(fs.join([target, name]), exts)[k]
  }

  lemma MainsFirst(fs: SourceFs, load: string -> Option<string>, main: string -> Option<string>,
                   target: string, exts: seq<string>, hit: string)
    ensures FirstLoaded(load, MainPaths(fs, load, main, target, exts)) == Some(hit) <==>
            MainWins(fs, load, main, target, exts, hit)
  {
    var mains := MainPaths(fs, load, main, target, exts);
    if MainWins(fs, load, main, target, exts, hit) {
      var name, k: nat :| Declares(fs, load, main, target, name) &&
        WinsAt(load, Potentials(fs.join([target, name]), exts), k) &&
        hit == Potentials(fs.join([target, name]), exts)[k];
      WinnerIsFirst(load, mains, k);
    } else if FirstLoaded(load, mains) == Some(hit) {
      var n := FirstIsFirst(load, mains);
      var name := main(load(fs.join([target, "package.json"])).value).value;
      assert Declares(fs, load, main, target, name) && WinsAt(load, mains, n);
    }
  }

  /** An index file is one in the target folder whose name starts so. */
  lemma IndexInside(candidate: string, target: string)
    ensures IsIndexOf(candidate, target) <==>
            exists c, rest :: IsSeparator(c) && candidate == target + [c] + "index." + rest
  {
    if IsIndexOf(candidate, target) {
      var rest := candidate[|target|..];
      assert rest == [rest[0]] + "index." + rest[1..][6..];
      assert candidate == target + [rest[0]] + "index." + rest[1..][6..];
    } else if c, rest :| IsSeparator(c) && candidate == target + [c] + "index." + rest {
      IndexFollows(candidate, target, c, rest);
    }
  }

  lemma IndexFollows(candidate: string, target: string, c: char, rest: string)
    requires IsSeparator(c) && candidate == target + [c] + "index." + rest
    ensures IsIndexOf(candidate, target)
  {
    assert candidate[|target|..] == [c] + ("index." + rest);
  }

  /**
   * What a package folder offers: the first candidate of the target that loads and is no index file;
   * failing all those, the first that the declared main implies; failing those, the first index file.
   */
  ghost predicate FolderOffers(fs: SourceFs, load: string -> Option<string>, main: string -> Option<string>,
                               folder: string, reference: string, exts: seq<string>, hit: string) {
    var target := fs.join([folder, reference]);
    var named := Potentials(target, exts);
    || FirstSuch(load, named, target, false, hit)
    || (NoneSuch(load, named, target, false) && MainWins(fs, load, main, target, exts, hit))
    || (NoneSuch(load, named, target, false) && (forall other :: !MainWins(fs, load, main, target, exts, other)) &&
        FirstSuch(load, named, target, true, hit))
  }

  lemma HitInFolder(fs: SourceFs, load: string -> Option<string>, main: string -> Option<string>,
                    folder: string, reference: string, exts: seq<string>)
    ensures var target := fs.join([folder, reference]);
            var named := Potentials(target, exts);
            var files := FirstLoaded(load, Keep(named, target, false));
            var indexes := FirstLoaded(load, Keep(named, target, true));
            var mains := FirstLoaded(load, MainPaths(fs, load, main, target, exts));
            Try(load, ProbesIn(fs, load, main, folder, reference, exts)).hit ==
            if files.Some? then files else if mains.Some? then mains else indexes
  {
    var target := fs.join([folder, reference]);
    var named := Potentials(target, exts);
    var manifest, mains := fs.join([target, "package.json"]), MainPaths(fs, load, main, target, exts);
    ProbesInOrder(load, Attempt(None, []), Keep(named, target, false), manifest, mains, Keep(named, target, true));
    TryCandidates(load, Keep(named, target, false));
    TryCandidates(load, mains);
    TryCandidates(load, Keep(named, target, true));
  }

  /** A package folder yields exactly what it offers. */
  lemma FolderYields(fs: SourceFs, load: string -> Option<string>, main: string -> Option<string>,
                     folder: string, reference: string, exts: seq<string>, hit: string)
    ensures Try(load, ProbesIn(fs, load, main, folder, reference, exts)).hit == Some(hit) <==>
            FolderOffers(fs, load, main, folder, reference, exts, hit)
  {
    var target := fs.join([folder, reference]);
    var named := Potentials(target, exts);
    HitInFolder(fs, load, main, folder, reference, exts);
    KeptFirst(load, named, target, false);
    KeptFirst(load, named, target, true);
    MainsFirst(fs, load, main, target, exts, hit);
    var mains := FirstLoaded(load, MainPaths(fs, load, main, target, exts));
    if mains.Some? {
      MainsFirst(fs, load, main, target, exts, mains.value);
    } else {
      forall other ensures !MainWins(fs, load, main, target, exts, other) {
        MainsFirst(fs, load, main, target, exts, other);
      }
    }
    OnlyOneOffered(fs, load, main, folder, reference, exts, hit);
  }

  lemma OnlyOneOffered(fs: SourceFs, load: string -> Option<string>, main: string -> Option<string>,
                       folder: string, reference: string, exts: seq<string>, hit: string)
    ensures var target := fs.join([folder, reference]);
            var named := Potentials(target, exts);
            && (FirstSuch(load, named, target, false, hit) ==>
                  FirstLoaded(load, Keep(named, target, false)) == Some(hit))
            && (FirstSuch(load, named, target, true, hit) ==> FirstLoaded(load, Keep(named, target, true)) == Some(hit))
  {
    var target := fs.join([folder, reference]);
    var named := Potentials(target, exts);
    forall index | FirstSuch(load, named, target, index, hit)
      ensures FirstLoaded(load, Keep(named, target, index)) == Some(hit)
    {
      KeptFirst(load, named, target, index);
      var k: nat :| SuchAt(load, named, target, index, k) && hit == named[k];
      OnlyFirst(load, named, target, index, hit, FirstLoaded(load, Keep(named, target, index)).value);
    }
  }

  // ----- what is tried in a folder -----

  lemma PathsInTurn(files: seq<string>, manifest: string, mains: seq<string>, indexes: seq<string>)
    ensures Paths(Candidates(files) + [Manifest(manifest)] + Candidates(mains) + Candidates(indexes)) ==
            files + [manifest] + mains + indexes
  {
  }

  /** The candidates of the declared main, if there is one. */
  ghost predicate Mains(fs: SourceFs, load: string -> Option<string>, main: string -> Option<string>, target: string,
                        exts: seq<string>, mains: seq<string>) {
    && (forall name :: Declares(fs, load, main, target, name) ==> mains == Potentials(fs.join([target, name]), exts))
    && ((forall name :: !Declares(fs, load, main, target, name)) ==> mains == [])
  }

  lemma MainsAre(fs: SourceFs, load: string -> Option<string>, main: string -> Option<string>, target: string,
                 exts: seq<string>, mains: seq<string>)
    requires Mains(fs, load, main, target, exts, mains)
    ensures MainPaths(fs, load, main, target, exts) == mains
  {
    var text := load(fs.join([target, "package.json"]));
    if text.Some? && main(text.value).Some? && main(text.value).value != "" {
      assert Declares(fs, load, main, target, main(text.value).value);
    }
  }

  /**
   * A folder that yields nothing has been searched whole: the target and its extensions, the manifest,
   * the candidates of the declared main, and then the index files.
   */
  lemma FolderSearches(fs: SourceFs, load: string -> Option<string>, main: string -> Option<string>,
                       folder: string, reference: string, exts: seq<string>, mains: seq<string>)
    requires fs.join([folder, reference]) != "" && forall i :: 0 <= i < |exts| ==> "." <= exts[i]
    requires Mains(fs, load, main, fs.join([folder, reference]), exts, mains)
    requires forall hit :: !FolderOffers(fs, load, main, folder, reference, exts, hit)
    ensures var target := fs.join([folder, reference]);
            var named, files := Potentials(target, exts), if '.' in LastSegment(target) then 1 else 1 + |exts|;
            && files <= |named|
            && Try(load, ProbesIn(fs, load, main, folder, reference, exts)) ==
               Attempt(None, named[..files] + [fs.join([target, "package.json"])] + mains + named[files..])
  {
    NothingTried(fs, load, main, folder, reference, exts);
    ProbesAre(fs, load, main, folder, reference, exts, mains);
  }

  lemma NothingTried(fs: SourceFs, load: string -> Option<string>, main: string -> Option<string>,
                     folder: string, reference: string, exts: seq<string>)
    requires forall hit :: !FolderOffers(fs, load, main, folder, reference, exts, hit)
    ensures var probes := ProbesIn(fs, load, main, folder, reference, exts);
            Try(load, probes) == Attempt(None, Paths(probes))
  {
    var probes := ProbesIn(fs, load, main, folder, reference, exts);
    var attempt := Try(load, probes);
    if attempt.hit.Some? {
      FolderYields(fs, load, main, folder, reference, exts, attempt.hit.value);
    }
    var n := TryIsFirst(load, probes);
  }

  lemma CutAtIndex(target: string, exts: seq<string>)
    requires target != "" && forall i :: 0 <= i < |exts| ==> "." <= exts[i]
    ensures var named, files := Potentials(target, exts), if '.' in LastSegment(target) then 1 else 1 + |exts|;
            && files <= |named| && Keep(named, target, false) == named[..files]
            && Keep(named, target, true) == named[files..]
  {
    var files, indexes := SplitCandidates(target, exts);
    KeepSplit(files, indexes, target);
    AppendedCut(files, indexes);
  }

  lemma AppendedCut(a: seq<string>, b: seq<string>)
    ensures (a + b)[..|a|] == a && (a + b)[|a|..] == b
  {
  }

  lemma ProbesAre(fs: SourceFs, load: string -> Option<string>, main: string -> Option<string>,
                  folder: string, reference: string, exts: seq<string>, mains: seq<string>)
    requires fs.join([folder, reference]) != "" && forall i :: 0 <= i < |exts| ==> "." <= exts[i]
    requires Mains(fs, load, main, fs.join([folder, reference]), exts, mains)
    ensures var target := fs.join([folder, reference]);
            var named, files := Potentials(target, exts), if '.' in LastSegment(target) then 1 else 1 + |exts|;
            && files <= |named|
            && Paths(ProbesIn(fs, load, main, folder, reference, exts)) ==
               named[..files] + [fs.join([target, "package.json"])] + mains + named[files..]
  {
    var target := fs.join([folder, reference]);
    CutAtIndex(target, exts);
    MainsAre(fs, load, main, target, exts, mains);
    var named, files := Potentials(target, exts), if '.' in LastSegment(target) then 1 else 1 + |exts|;
    PathsInTurn(named[..files], fs.join([target, "package.json"]), mains, named[files..]);
  }

  // ----- the folders along the walk -----

  function HitIn(resolver: PkgResolver, folder: string, reference: string): Option<string> {
    Try(resolver.Load, ProbesIn(resolver.fs, resolver.Load, resolver.main, folder, reference, resolver.exts)).hit
  }

  function FirstHit(hits: string -> Option<string>, folders: seq<string>): Option<string> {
    if folders == [] then None else if hits(folders[0]).Some? then hits(folders[0]) else FirstHit(hits, folders[1..])
  }

  /** Passing over repeats changes nothing. */
  lemma {:induction false} UnseenHit(hits: string -> Option<string>, seen: seq<string>, folders: seq<string>, i: nat)
    requires forall f :: f in seen ==> hits(f).None?
    requires i < |folders| && hits(folders[i]).Some? && forall j :: 0 <= j < i ==> hits(folders[j]).None?
    ensures FirstHit(hits, Unseen(seen, folders)) == hits(folders[i])
    decreases folders
  {
    var first, rest := folders[0], folders[1..];
    if i > 0 {
      forall j | 0 <= j < i - 1 ensures hits(rest[j]).None? {
        assert rest[j] == folders[j + 1];
      }
      if first in seen {
        UnseenHit(hits, seen, rest, i - 1);
      } else {
        UnseenHit(hits, seen + [first], rest, i - 1);
        OneMore(hits, first, Unseen(seen + [first], rest));
      }
    } else {
      OneMore(hits, first, Unseen(seen + [first], rest));
    }
  }

  lemma OneMore(hits: string -> Option<string>, first: string, rest: seq<string>)
    ensures FirstHit(hits, [first] + rest) == if hits(first).Some? then hits(first) else FirstHit(hits, rest)
  {
    assert ([first] + rest)[1..] == rest;
  }

  lemma {:induction false} AlongIsFirst(resolver: PkgResolver, hits: string -> Option<string>, folders: seq<string>,
                                        reference: string)
    requires forall f :: hits(f) == HitIn(resolver, f, reference)
    ensures Try(resolver.Load, resolver.ProbesAlong(folders, reference)).hit == FirstHit(hits, folders)
    decreases folders
  {
    if folders != [] {
      AlongIsFirst(resolver, hits, folders[1..], reference);
      TryAppend(resolver.Load,
                ProbesIn(resolver.fs, resolver.Load, resolver.main, folders[0], reference, resolver.exts),
                resolver.ProbesAlong(folders[1..], reference));
    }
  }

  /** The first folder of the walk that has anything to offer decides. */
  lemma FirstFolder(resolver: PkgResolver, walk: seq<string>, reference: string, i: nat)
    requires i < |walk| && HitIn(resolver, walk[i], reference).Some?
    requires forall j :: 0 <= j < i ==> HitIn(resolver, walk[j], reference).None?
    ensures Try(resolver.Load, resolver.ProbesAlong(Unseen([], walk), reference)).hit ==
            HitIn(resolver, walk[i], reference)
  {
    var hits := f => HitIn(resolver, f, reference);
    AlongIsFirst(resolver, hits, Unseen([], walk), reference);
    UnseenHit(hits, [], walk, i);
  }

  lemma {:induction false} WalkAppends(resolver: PkgResolver, a: seq<string>, b: seq<string>)
    ensures resolver.Walk(a + b) == resolver.Walk(a) + resolver.Walk(b)
  {
    if a == [] {
      assert a + b == b;
    } else {
      assert (a + b)[1..] == a[1..] + b;
      WalkAppends(resolver, a[1..], b);
    }
  }

  /** The `node_modules` of a folder and of those above it, nearest first, to the top or for 65 folders. */
  ghost predicate GoesUp(walk: seq<string>, segments: seq<string>) {
    && |walk| == (if |segments| < 65 then |segments| + 1 else 65)
    && forall k :: 0 <= k < |walk| ==> walk[k] == ModulesOf(segments, k)
  }

  ghost function ModulesOf(segments: seq<string>, k: nat): string
    requires k <= |segments|
  {
    Vfs.Clean(Vfs.Rendered(segments[..|segments| - k]) + "/node_modules")
  }

  /** From one start the walk goes up. */
  lemma WalkGoesUp(resolver: PkgResolver, files: map<string, string>, start: string)
    requires resolver.fs == MapSource(files)
    ensures GoesUp(resolver.Walk([start]), Vfs.Segments(start))
  {
    WalkIsModules(resolver, files, start, Vfs.Segments(start));
    ModulesGoUp(resolver, Vfs.Segments(start), FoldersUp(Vfs.Segments(start)));
  }

  lemma ModulesGoUp(resolver: PkgResolver, segments: seq<string>, folders: seq<string>)
    requires resolver.fs.join == MapFs.JoinPaths && folders == FoldersUp(segments)
    ensures GoesUp(resolver.Modules(folders), segments)
  {
    var walk := resolver.Modules(folders);
    ModulesAt(resolver, folders, 0);
    forall k | 0 <= k < |walk| ensures walk[k] == ModulesOf(segments, k) {
      ModuleUp(resolver, segments, folders, k);
    }
  }

  lemma ModuleUp(resolver: PkgResolver, segments: seq<string>, folders: seq<string>, k: nat)
    requires resolver.fs.join == MapFs.JoinPaths && folders == FoldersUp(segments) && k < |folders|
    ensures k <= |segments| && |resolver.Modules(folders)| == |folders|
    ensures resolver.Modules(folders)[k] == ModulesOf(segments, k)
  {
    ModulesAt(resolver, folders, k);
    FolderUpAt(segments, k);
    JoinModules(folders[k]);
  }

  ghost function FoldersUp(segments: seq<string>): seq<string> {
    Prefixes(segments)[..if MAX_ANCESTORS <= |segments| + 1 then MAX_ANCESTORS else |segments| + 1]
  }

  lemma FolderUpAt(segments: seq<string>, k: nat)
    requires k < |FoldersUp(segments)|
    ensures k <= |segments| && FoldersUp(segments)[k] == Vfs.Rendered(segments[..|segments| - k])
  {
  }

  lemma WalkIsModules(resolver: PkgResolver, files: map<string, string>, start: string, segments: seq<string>)
    requires resolver.fs == MapSource(files) && segments == Vfs.Segments(start)
    ensures resolver.Walk([start]) == resolver.Modules(FoldersUp(segments))
  {
    Vfs.SegmentsArePlain(start);
    AncestorsArePrefixes(segments, MAX_ANCESTORS);
    StartNotEmpty(segments);
    WalkOfOne(resolver, start, Vfs.Rendered(segments), FoldersUp(segments));
  }

  lemma WalkOfOne(resolver: PkgResolver, start: string, from: string, folders: seq<string>)
    requires resolver.fs.canon(start) == from != "" && folders == Ancestors(resolver.fs.dir, from, MAX_ANCESTORS)
    ensures resolver.Walk([start]) == resolver.Modules(folders)
  {
    assert [start][1..] == [] && resolver.Walk([]) == [];
  }

  lemma ModulesAt(resolver: PkgResolver, folders: seq<string>, k: nat)
    requires k < |folders|
    ensures |resolver.Modules(folders)| == |folders|
    ensures resolver.Modules(folders)[k] == resolver.fs.join([folders[k], "node_modules"])
  {
  }

  lemma JoinModules(folder: string)
    ensures MapFs.JoinPaths([folder, "node_modules"]) == Vfs.Clean(folder + "/node_modules")
  {
    Vfs.JoinTwo(folder, "node_modules");
    assert folder + "/" + "node_modules" == folder + "/node_modules";
  }

  lemma StartNotEmpty(segments: seq<string>)
    requires Vfs.AllPlain(segments)
    ensures Vfs.Rendered(segments) != ""
  {
    if segments != [] {
      Vfs.RenderedIsDot(segments);
    }
  }

  /** From each folder listed, or from the top when none is. */
  ghost function WalkOf(resolver: PkgResolver): seq<string> {
    resolver.Walk(if resolver.paths == [] then ["."] else resolver.paths)
  }

  /** A package reference comes to what the first folder of the walk that offers anything offers. */
  lemma PackageFinds(resolver: PkgResolver, current: Option<string>, reference: string, i: nat, hit: string)
    requires reference != "" && !IsRelative(reference)
    requires var walk := WalkOf(resolver);
             && i < |walk| && (forall j :: 0 <= j < i ==> HitIn(resolver, walk[j], reference).None?)
             && FolderOffers(resolver.fs, resolver.Load, resolver.main, walk[i], reference, resolver.exts, hit)
    ensures var r := resolver.Resolve(current, Some(reference));
            r.found && r.spec.full == Some(hit) && r.src == resolver.Load(hit)
  {
    var walk := WalkOf(resolver);
    FolderYields(resolver.fs, resolver.Load, resolver.main, walk[i], reference, resolver.exts, hit);
    FirstFolder(resolver, walk, reference, i);
    var n := TryIsFirst(resolver.Load, resolver.PackageProbes(reference));
  }

  lemma {:induction false} NoHit(hits: string -> Option<string>, folders: seq<string>)
    requires forall f :: f in folders ==> hits(f).None?
    ensures FirstHit(hits, folders) == None
  {
    if folders != [] {
      NoHit(hits, folders[1..]);
    }
  }

  /** It is missed when none offers anything. */
  lemma PackageMisses(resolver: PkgResolver, current: Option<string>, reference: string)
    requires reference != "" && !IsRelative(reference)
    requires forall folder, hit :: folder in WalkOf(resolver) ==>
               !FolderOffers(resolver.fs, resolver.Load, resolver.main, folder, reference, resolver.exts, hit)
    ensures !resolver.Resolve(current, Some(reference)).found
  {
    var walk, hits := WalkOf(resolver), f => HitIn(resolver, f, reference);
    UnseenOnce([], walk);
    forall folder | folder in Unseen([], walk) ensures HitIn(resolver, folder, reference).None? {
      assert folder in walk;
      var found := HitIn(resolver, folder, reference);
      if found.Some? {
        FolderYields(resolver.fs, resolver.Load, resolver.main, folder, reference, resolver.exts, found.value);
      }
    }
    AlongIsFirst(resolver, hits, Unseen([], walk), reference);
    NoHit(hits, Unseen([], walk));
  }

  // ----- relative references -----

  /** A reference is relative exactly when its first segment is one dot or two. */
  lemma RelativeByFirstSegment(reference: string)
    ensures IsRelative(reference) <==>
            reference == "." || reference == ".." ||
            exists rest: string, c: char ::
              IsSeparator(c) && (reference == "." + [c] + rest || reference == ".." + [c] + rest)
  {
    if "./" <= reference || ".\\" <= reference {
      assert reference == "." + [reference[1]] + reference[2..];
    } else if "../" <= reference || "..\\" <= reference {
      assert reference == ".." + [reference[2]] + reference[3..];
    }
  }

  /** It is looked for beside the source, as in a map, with its path in canonical form. */
  lemma RelativeFinds(resolver: PkgResolver, current: Option<string>, reference: string, place: string,
                      folder: string, name: string, hit: string)
    requires IsRelative(reference)
    requires var base := BaseFor(path => resolver.fs.read(path).Some?, resolver.fs.dir, current, resolver.base);
             Placed(base, reference, place)
    requires resolver.fs.canon(place) == folder + name != "" && FolderPart(folder) && NameOnly(name)
    requires if '.' in name then hit == folder + name && resolver.Load(hit).Some?
             else Wins(resolver.Load, folder + name, name, resolver.exts, hit)
    ensures var r := resolver.Resolve(current, Some(reference));
            r.found && r.spec.full == Some(hit) && r.src == resolver.Load(hit)
  {
    var full := folder + name;
    PotentialsAre(folder, name, resolver.exts);
    var spec := resolver.SpecOf(current, Some(reference));
    assert spec.full == Some(place) && spec.path == Some(reference);
    var potentials := Potentials(full, resolver.exts);
    if '.' in name {
      WinnerIsFirst(resolver.Load, [full], 0);
      WinnerIsFirst(resolver.Load, potentials, 0);
    } else {
      NoDotNoKind(folder, name);
      ListedWins(resolver.Load, potentials, full, name, resolver.exts, hit);
    }
  }
}
