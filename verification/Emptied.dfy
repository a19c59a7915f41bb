/** A preload that holds the whole file map stands in for the filesystem. */
module Emptied {
  import opened Common
  import opened References
  import opened FileResolver
  import Vfs
  import MapFs

  ghost predicate Canonical(path: string) { Vfs.Clean(path) == path }

  /** An extension that adds to a name without adding a segment. */
  ghost predicate Separatorless(ext: string) { '/' !in ext && '\\' !in ext }

  // ----- implied candidates stay canonical -----

  lemma {:induction false} JoinAppendLast(segments: seq<string>, ext: string)
    requires segments != []
    ensures var n := |segments|;
            Vfs.Join(segments[..n - 1] + [segments[n - 1] + ext]) == Vfs.Join(segments) + ext
  {
    var n := |segments|;
    if n == 1 {
      assert segments[..0] + [segments[0] + ext] == [segments[0] + ext];
    } else {
      var front, last := segments[..n - 1], segments[n - 1];
      assert segments == front + [last];
      Vfs.JoinConcat(front, [last]);
      Vfs.JoinConcat(front, [last + ext]);
    }
  }

  lemma JoinIsCanonical(segments: seq<string>)
    requires Vfs.AllPlain(segments) && segments != []
    ensures Canonical(Vfs.Join(segments))
  {
    Vfs.SegmentsOfRendered(segments);
  }

  lemma {:induction false} FolderLengthOf(a: string, b: string)
    requires Separatorless(b)
    ensures FolderLength(a + "/" + b) == |a| + 1
    decreases b
  {
    var whole := a + "/" + b;
    if b != "" {
      var front := b[..|b| - 1];
      assert whole[..|whole| - 1] == a + "/" + front;
      assert whole[|whole| - 1] == b[|b| - 1] && b[|b| - 1] in b;
      assert forall c :: c in front ==> c in b;
      FolderLengthOf(a, front);
    }
  }

  lemma {:induction false} NoFolder(s: string)
    requires Separatorless(s)
    ensures FolderLength(s) == 0
  {
    if s != "" {
      assert s[|s| - 1] in s && forall c :: c in s[..|s| - 1] ==> c in s;
      NoFolder(s[..|s| - 1]);
    }
  }

  /** The last segment, as the string helpers find it, is the last of the path's segments. */
  lemma LastSegmentOf(segments: seq<string>)
    requires Vfs.AllPlain(segments) && segments != []
    ensures LastSegment(Vfs.Join(segments)) == segments[|segments| - 1]
  {
    var last := segments[|segments| - 1];
    assert Vfs.Plain(last);
    if |segments| == 1 {
      LastSegmentAlone(last);
    } else {
      var front := JoinFront(segments);
      LastSegmentAfter(front, last);
    }
  }

  lemma JoinFront(segments: seq<string>) returns (front: string)
    requires |segments| > 1
    ensures Vfs.Join(segments) == front + "/" + segments[|segments| - 1]
  {
    var n := |segments|;
    front := Vfs.Join(segments[..n - 1]);
    assert segments == segments[..n - 1] + [segments[n - 1]];
    Vfs.JoinConcat(segments[..n - 1], [segments[n - 1]]);
  }

  lemma LastSegmentAlone(s: string)
    requires Separatorless(s)
    ensures LastSegment(s) == s
  {
    NoFolder(s);
  }

  lemma LastSegmentAfter(a: string, b: string)
    requires Separatorless(b)
    ensures LastSegment(a + "/" + b) == b
  {
    FolderLengthOf(a, b);
  }

  lemma PlainExtension(name: string, ext: string)
    requires Vfs.Plain(name) && '.' !in name && Separatorless(ext)
    ensures Vfs.Plain(name + ext)
  {
    assert name[0] in name && (name + ext)[0] == name[0];
    assert forall c :: c in name + ext ==> c in name || c in ext;
  }

  lemma PlainIndex(segment: string, ext: string)
    requires Vfs.Plain(segment) && Separatorless(ext)
    ensures Vfs.Plain("index" + ext) && Vfs.Plain("index." + segment + ext)
  {
    assert ("index" + ext)[0] == 'i' && ("index." + segment + ext)[0] == 'i';
    assert forall c :: c in "index" + ext ==> c in "index" || c in ext;
    assert forall c :: c in "index." + segment + ext ==> c in "index." || c in segment || c in ext;
  }

  lemma BelowIsCanonical(segments: seq<string>, name: string)
    requires Vfs.AllPlain(segments) && segments != [] && Vfs.Plain(name)
    ensures Canonical(Vfs.Join(segments) + "/" + name)
  {
    Vfs.JoinConcat(segments, [name]);
    JoinIsCanonical(segments + [name]);
  }

  lemma ExtendedIsCanonical(segments: seq<string>, ext: string)
    requires Vfs.AllPlain(segments) && segments != [] && Separatorless(ext)
    requires '.' !in segments[|segments| - 1]
    ensures Canonical(Vfs.Join(segments) + ext)
  {
    var n := |segments|;
    PlainExtension(segments[n - 1], ext);
    JoinAppendLast(segments, ext);
    JoinIsCanonical(segments[..n - 1] + [segments[n - 1] + ext]);
  }

  lemma Regroup(full: string, last: string, ext: string)
    ensures full + "/" + ("index" + ext) == full + "/index" + ext
    ensures full + "/" + ("index." + last + ext) == full + "/index." + last + ext
  {
  }

  /** One extension's three candidates for a canonical path whose last segment has no dot. */
  lemma CandidatesCanonical(segments: seq<string>, ext: string)
    requires Vfs.AllPlain(segments) && segments != [] && Separatorless(ext)
    requires '.' !in segments[|segments| - 1]
    ensures var full, last := Vfs.Join(segments), segments[|segments| - 1];
            && Canonical(full + ext)
            && Canonical(full + "/index" + ext)
            && Canonical(full + "/index." + last + ext)
  {
    var full, last := Vfs.Join(segments), segments[|segments| - 1];
    ExtendedIsCanonical(segments, ext);
    PlainIndex(last, ext);
    BelowIsCanonical(segments, "index" + ext);
    BelowIsCanonical(segments, "index." + last + ext);
    Regroup(full, last, ext);
  }

  ghost predicate All(good: string -> bool, paths: seq<string>) {
    forall i :: 0 <= i < |paths| ==> good(paths[i])
  }

  lemma AllAppend(good: string -> bool, a: seq<string>, b: seq<string>)
    requires All(good, a) && All(good, b)
    ensures All(good, a + b)
  {
  }

  /** Every path that a canonical path implies is canonical. */
  lemma PotentialsCanonical(full: string, exts: seq<string>)
    requires Canonical(full) && forall i :: 0 <= i < |exts| ==> Separatorless(exts[i])
    ensures forall c :: c in Potentials(full, exts) ==> Canonical(c)
  {
    PotentialsAll(path => Canonical(path), full, exts);
  }

  lemma PotentialsAll(good: string -> bool, full: string, exts: seq<string>)
    requires Canonical(full) && forall i :: 0 <= i < |exts| ==> Separatorless(exts[i])
    requires forall path :: good(path) <==> Canonical(path)
    ensures All(good, Potentials(full, exts))
  {
    assert good(full);
    if full != "" && '.' !in LastSegment(full) {
      var segments := SegmentsOfCanonical(full);
      forall i | 0 <= i < |exts|
        ensures good(full + exts[i]) && good(full + "/index" + exts[i])
        ensures good(full + "/index." + LastSegment(full) + exts[i])
      {
        CandidatesCanonical(segments, exts[i]);
      }
      SuffixesAll(good, full, exts);
    }
  }

  lemma SegmentsOfCanonical(full: string) returns (segments: seq<string>)
    requires Canonical(full) && '.' !in LastSegment(full)
    ensures Vfs.AllPlain(segments) && segments != [] && full == Vfs.Join(segments)
    ensures LastSegment(full) == segments[|segments| - 1]
  {
    segments := Vfs.Segments(full);
    Vfs.SegmentsArePlain(full);
    LastSegmentAlone(".");
    LastSegmentOf(segments);
  }

  /** The three families of candidates, one after the other. */
  lemma SuffixesAll(good: string -> bool, full: string, exts: seq<string>)
    requires full != "" && good(full)
    requires forall i :: 0 <= i < |exts| ==>
               && good(full + exts[i]) && good(full + "/index" + exts[i])
               && good(full + "/index." + LastSegment(full) + exts[i])
    ensures All(good, Potentials(full, exts))
  {
    var named, nested := [full] + Suffixed(full, exts), Suffixed(full + "/index", exts);
    AllAppend(good, [full], Suffixed(full, exts));
    AllAppend(good, named, nested);
    if LastSegment(full) != "" {
      AllAppend(good, named + nested, Suffixed(full + "/index." + LastSegment(full), exts));
    }
  }

  // ----- the filesystem may go -----

  /** The resolver that reads the filesystem, and the one that has only the preload of it. */
  function OnDisk(files: map<string, string>, root: Option<string>, exts: seq<string>, base: string): FileResolver {
    FileResolver(MapSource(files), map[], root, exts, base)
  }

  function InMemory(files: map<string, string>, root: Option<string>, exts: seq<string>, base: string): FileResolver {
    FileResolver(MapSource(map[]), files, root, exts, base)
  }

  /** Where a reference is found: the source that holds it, or the configured base. */
  function Origin(current: Option<string>, base: string): string {
    if current.Some? then current.value else base
  }

  /** The path names a file in the spelling of its key, or names none. */
  ghost predicate SpelledOut(files: map<string, string>, path: string) {
    path == "" || (Vfs.Clean(path) in files <==> path in files)
  }

  /** What the file resolver falls back to has been put through the filesystem, or follows from what has. */
  lemma FallbacksAll(good: string -> bool, resolver: FileResolver, current: Option<string>, spec: PathSpec)
    requires spec.full.Some? && spec.path.Some? && forall path :: good(resolver.fs.canon(path))
    requires All(good, Potentials(spec.full.value, resolver.exts))
    ensures All(good, resolver.Fallbacks(current, spec))
  {
    var fs := resolver.fs;
    var folders := Climb(fs.dir, resolver.BaseOf(current), None, NODE_MODULES_LEVELS);
    LinkedAll(good, fs.canon, fs.join, folders, spec.path.value);
    AllAppend(good, Linked(fs.canon, fs.join, folders, spec.path.value), resolver.Implied(spec.kind, spec.full.value));
  }

  lemma LinkedAll(good: string -> bool, canon: string -> string, join: seq<string> -> string, folders: seq<string>,
                  path: string)
    requires forall p :: good(canon(p))
    ensures All(good, Linked(canon, join, folders, path))
  {
  }

  /** Whatever the filesystem puts in canonical form is good, and so is whatever a good path implies. */
  ghost predicate GoodPaths(good: string -> bool, resolver: FileResolver) {
    && (forall path :: good(resolver.fs.canon(path)))
    && forall full :: good(full) ==> All(good, Potentials(full, resolver.exts))
  }

  lemma CanonicalPaths(good: string -> bool, resolver: FileResolver, files: map<string, string>)
    requires resolver.fs == MapSource(files) && forall i :: 0 <= i < |resolver.exts| ==> Separatorless(resolver.exts[i])
    requires forall path :: good(path) <==> Canonical(path)
    ensures GoodPaths(good, resolver)
  {
    forall path ensures good(resolver.fs.canon(path)) {
      Vfs.CleanIdempotent(path);
    }
    forall full | good(full) ensures All(good, Potentials(full, resolver.exts)) {
      PotentialsAll(good, full, resolver.exts);
    }
  }

  /** Only good paths are tried. */
  lemma TriedIsGood(good: string -> bool, resolver: FileResolver, current: Option<string>, reference: Option<string>)
    requires GoodPaths(good, resolver)
    ensures var spec := resolver.SpecOf(current, reference);
            spec.full.Some? ==> good(spec.full.value) && All(good, resolver.Fallbacks(current, spec))
  {
    var spec := resolver.SpecOf(current, reference);
    if spec.full.Some? {
      FallbacksAll(good, resolver, current, spec);
    }
  }

  /** Two resolvers that start in one folder and load good paths alike resolve alike. */
  lemma SameWhereGood(good: string -> bool, a: FileResolver, b: FileResolver, current: Option<string>,
                      reference: Option<string>)
    requires GoodPaths(good, a) && forall path :: good(path) ==> a.Load(path) == b.Load(path)
    requires b.fs.(read := a.fs.read) == a.fs && a.root == b.root && a.exts == b.exts && a.base == b.base
    requires a.BaseOf(current) == b.BaseOf(current)
    ensures a.Resolve(current, reference) == b.Resolve(current, reference)
  {
    TriedIsGood(good, a, current, reference);
    SameResolution(a, b, current, reference);
  }

  lemma SameRead(files: map<string, string>, root: Option<string>, exts: seq<string>, base: string, path: string)
    requires Canonical(path)
    ensures OnDisk(files, root, exts, base).Load(path) == InMemory(files, root, exts, base).Load(path)
  {
  }

  lemma SameFile(files: map<string, string>, root: Option<string>, exts: seq<string>, base: string, path: string)
    ensures OnDisk(files, root, exts, base).IsFile(path) == (Vfs.Clean(path) in files)
    ensures InMemory(files, root, exts, base).IsFile(path) == (path in files)
  {
  }

  /**
   * With everything preloaded, emptying the filesystem changes no resolution and no search list,
   * exactly when the place a reference is found in names a file in its key's spelling or names none.
   */
  lemma EmptiedFilesystemResolves(files: map<string, string>, root: Option<string>, exts: seq<string>, base: string,
                                  current: Option<string>)
    requires forall i :: 0 <= i < |exts| ==> Separatorless(exts[i])
    ensures SpelledOut(files, Origin(current, base)) <==>
            forall reference :: OnDisk(files, root, exts, base).Resolve(current, reference) ==
                                InMemory(files, root, exts, base).Resolve(current, reference)
  {
    if SpelledOut(files, Origin(current, base)) {
      var disk, memory := OnDisk(files, root, exts, base), InMemory(files, root, exts, base);
      var good := path => Canonical(path);
      CanonicalPaths(good, disk, files);
      SameFile(files, root, exts, base, Origin(current, base));
      SameBaseFor(disk.IsFile, memory.IsFile, MapFs.Dir, current, base);
      forall path | good(path) ensures disk.Load(path) == memory.Load(path) {
        SameRead(files, root, exts, base, path);
      }
      forall reference ensures disk.Resolve(current, reference) == memory.Resolve(current, reference) {
        SameWhereGood(good, disk, memory, current, reference);
      }
    } else {
      // in another spelling the file is found on disk only, and the two resolve against different folders
      var origin := Origin(current, base);
      SameFile(files, root, exts, base, origin);
      DirIsCanonical(origin);
      OtherFolderShows(OnDisk(files, root, exts, base), InMemory(files, root, exts, base), current);
    }
  }

  lemma SameBaseFor(f: string -> bool, g: string -> bool, dir: string -> string, current: Option<string>,
                    configured: string)
    requires Origin(current, configured) == "" || f(Origin(current, configured)) == g(Origin(current, configured))
    ensures BaseFor(f, dir, current, configured) == BaseFor(g, dir, current, configured)
  {
  }

  lemma OtherFolderShows(a: FileResolver, b: FileResolver, current: Option<string>)
    requires a.BaseOf(current) != b.BaseOf(current)
    ensures a.Resolve(current, None) != b.Resolve(current, None)
  {
    assert a.Resolve(current, None).spec.base == a.BaseOf(current);
    assert b.Resolve(current, None).spec.base == b.BaseOf(current);
  }

  lemma DirIsCanonical(path: string)
    ensures Canonical(MapFs.Dir(path))
  {
    var segments := Vfs.Segments(path);
    MapFs.DirDropsLast(path);
    Vfs.SegmentsArePlain(path);
    Vfs.SegmentsOfRendered(if segments == [] then [] else segments[..|segments| - 1]);
  }

  lemma FoundIsLoaded(resolver: FileResolver, current: Option<string>, reference: Option<string>)
    requires resolver.Resolve(current, reference).found
    ensures var r, spec := resolver.Resolve(current, reference), resolver.SpecOf(current, reference);
            && spec.full.Some? && r.spec.full.Some? && r.spec.kind == ExtKind(r.spec.full)
            && r.src.Some? && r.src == resolver.Load(r.spec.full.value)
            && (r.spec.full == spec.full || r.spec.full.value in resolver.Fallbacks(current, spec))
  {
  }

  lemma FoundIsGood(good: string -> bool, resolver: FileResolver, current: Option<string>, reference: Option<string>)
    requires GoodPaths(good, resolver)
    ensures var r := resolver.Resolve(current, reference);
            r.found ==>
              && r.spec.full.Some? && good(r.spec.full.value) && r.spec.kind == ExtKind(r.spec.full)
              && r.src.Some? && r.src == resolver.Load(r.spec.full.value)
  {
    if resolver.Resolve(current, reference).found {
      FoundIsLoaded(resolver, current, reference);
      TriedIsGood(good, resolver, current, reference);
    }
  }

  lemma LoadedIsAKey(files: map<string, string>, root: Option<string>, exts: seq<string>, base: string, path: string)
    requires Canonical(path) && OnDisk(files, root, exts, base).Load(path).Some?
    ensures path in files && OnDisk(files, root, exts, base).Load(path) == Some(files[path])
  {
  }

  /** What is found over an in-memory filesystem is one of its keys, with that key's text. */
  lemma FoundIsAKey(files: map<string, string>, root: Option<string>, exts: seq<string>, base: string,
                    current: Option<string>, reference: Option<string>)
    requires forall i :: 0 <= i < |exts| ==> Separatorless(exts[i])
    ensures var r := OnDisk(files, root, exts, base).Resolve(current, reference);
            r.found ==>
            && r.spec.full.Some? && r.spec.full.value in files && r.src == Some(files[r.spec.full.value])
            && r.spec.kind == ExtKind(r.spec.full) && Canonical(r.spec.full.value)
  {
    var disk, good := OnDisk(files, root, exts, base), path => Canonical(path);
    CanonicalPaths(good, disk, files);
    FoundIsGood(good, disk, current, reference);
    if disk.Resolve(current, reference).found {
      LoadedIsAKey(files, root, exts, base, disk.Resolve(current, reference).spec.full.value);
    }
  }
}
