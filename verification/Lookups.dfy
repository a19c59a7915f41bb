/**
 * What a reference finds, told by the files there are: which candidate wins in the map resolvers, the
 * file resolver and a package folder, stated over plain paths and indices.
 */
module Lookups {
  import opened Common
  import opened References
  import opened FileResolver
  import opened PkgResolver
  import GoPort
  import Ports
  import MapFs
  import Vfs

  // ----- the candidates of a path, one by one -----

  /** A folder part: empty, or up to and including a separator. */
  predicate FolderPart(folder: string) { folder == "" || IsSeparator(folder[|folder| - 1]) }

  predicate NameOnly(name: string) { forall c :: c in name ==> !IsSeparator(c) }

  lemma LastIsName(folder: string, name: string)
    requires FolderPart(folder) && NameOnly(name)
    ensures LastSegment(folder + name) == name
  {
    var path := folder + name;
    assert forall i :: 0 <= i < |name| ==> path[|folder| + i] == name[i] && name[i] in name;
    assert folder != "" ==> path[|folder| - 1] == folder[|folder| - 1];
    assert FolderLength(path) == |folder| && path[|folder|..] == name;
  }

  /** A name without a dot: the path, each extension in order, then the index files in order, plain before named. */
  ghost predicate Lists(candidates: seq<string>, full: string, name: string, exts: seq<string>) {
    var n := |exts|;
    && |candidates| == 1 + 2 * n + (if name == "" then 0 else n)
    && candidates[0] == full
    && (forall i :: 0 <= i < n ==> candidates[1 + i] == full + exts[i])
    && (forall i :: 0 <= i < n ==> candidates[1 + n + i] == full + "/index" + exts[i])
    && (name != "" ==> forall i :: 0 <= i < n ==> candidates[1 + 2 * n + i] == full + "/index." + name + exts[i])
  }

  lemma PotentialsAre(folder: string, name: string, exts: seq<string>)
    requires FolderPart(folder) && NameOnly(name) && folder + name != ""
    ensures '.' in name ==> Potentials(folder + name, exts) == [folder + name]
    ensures '.' !in name ==> Lists(Potentials(folder + name, exts), folder + name, name, exts)
    ensures GoPort.GoPotentials(folder + name, exts) == Potentials(folder + name, exts)
  {
    var full := folder + name;
    LastIsName(folder, name);
    Ports.PotentialsAlike(full, exts);
    if '.' !in name {
      var named := if name == "" then [] else Suffixed(full + "/index." + name, exts);
      InTurn(Suffixed(full, exts), Suffixed(full + "/index", exts), named, full, name, exts);
    }
  }

  lemma InTurn(direct: seq<string>, index: seq<string>, named: seq<string>, full: string, name: string,
               exts: seq<string>)
    requires |direct| == |index| == |exts| && |named| == if name == "" then 0 else |exts|
    requires forall i :: 0 <= i < |exts| ==> direct[i] == full + exts[i] && index[i] == full + "/index" + exts[i]
    requires forall i :: 0 <= i < |named| ==> named[i] == full + "/index." + name + exts[i]
    ensures Lists([full] + direct + index + named, full, name, exts)
  {
  }

  // ----- the first that loads -----

  /** The first candidate that loads is at `k`. */
  ghost predicate WinsAt(load: string -> Option<string>, candidates: seq<string>, k: nat) {
    && k < |candidates| && load(candidates[k]).Some?
    && forall i :: 0 <= i < k ==> load(candidates[i]).None?
  }

  lemma WinnerIsFirst(load: string -> Option<string>, candidates: seq<string>, k: nat)
    requires WinsAt(load, candidates, k)
    ensures FirstLoaded(load, candidates) == Some(candidates[k])
  {
    var n := FirstIsFirst(load, candidates);
  }

  /** No path of one family loads before place `upTo`. */
  ghost predicate NoneOf(load: string -> Option<string>, stem: string, exts: seq<string>, upTo: nat)
    requires upTo <= |exts|
  {
    forall j :: 0 <= j < upTo ==> load(stem + exts[j]).None?
  }

  /**
   * What wins for a path whose last segment has no dot: the path itself, else the first extension, else
   * the first plain index file, else the first index file with the folder's name.
   */
  ghost predicate Wins(load: string -> Option<string>, full: string, name: string, exts: seq<string>, hit: string) {
    || (hit == full && load(full).Some?)
    || (load(full).None? && exists i: nat :: Extended(load, full, exts, i, hit))
    || (load(full).None? && NoneOf(load, full, exts, |exts|) &&
        exists i: nat :: Extended(load, full + "/index", exts, i, hit))
    || (load(full).None? && NoneOf(load, full, exts, |exts|) && NoneOf(load, full + "/index", exts, |exts|) &&
        name != "" &&
        exists i: nat :: Extended(load, full + "/index." + name, exts, i, hit))
  }

  /** Of one family, the member at `i` is the first that loads. */
  ghost predicate Extended(load: string -> Option<string>, stem: string, exts: seq<string>, i: nat, hit: string) {
    i < |exts| && hit == stem + exts[i] && load(hit).Some? && NoneOf(load, stem, exts, i)
  }

  lemma ListedWins(load: string -> Option<string>, candidates: seq<string>, full: string, name: string,
                   exts: seq<string>, hit: string)
    requires Lists(candidates, full, name, exts) && Wins(load, full, name, exts, hit)
    ensures FirstLoaded(load, candidates) == Some(hit)
  {
    var n := |exts|;
    if hit == full && load(full).Some? {
      WinnerIsFirst(load, candidates, 0);
    } else if i: nat :| Extended(load, full, exts, i, hit) && load(full).None? {
      ExtensionWins(load, candidates, full, name, exts, i);
    } else if i: nat :|
        Extended(load, full + "/index", exts, i, hit) && load(full).None? && NoneOf(load, full, exts, n) {
      IndexWins(load, candidates, full, name, exts, i);
    } else {
      var i: nat :| Extended(load, full + "/index." + name, exts, i, hit);
      NamedIndexWins(load, candidates, full, name, exts, i);
    }
  }

  lemma ExtensionWins(load: string -> Option<string>, candidates: seq<string>, full: string, name: string,
                      exts: seq<string>, i: nat)
    requires Lists(candidates, full, name, exts) && load(full).None?
    requires i < |exts| && Extended(load, full, exts, i, full + exts[i])
    ensures FirstLoaded(load, candidates) == Some(full + exts[i])
  {
    forall k | 0 <= k < 1 + i ensures load(candidates[k]).None? {
      if k >= 1 {
        assert candidates[1 + (k - 1)] == full + exts[k - 1];
      }
    }
    assert candidates[1 + i] == full + exts[i];
    WinnerIsFirst(load, candidates, 1 + i);
  }

  lemma IndexWins(load: string -> Option<string>, candidates: seq<string>, full: string, name: string,
                  exts: seq<string>, i: nat)
    requires Lists(candidates, full, name, exts) && load(full).None? && NoneOf(load, full, exts, |exts|)
    requires i < |exts| && Extended(load, full + "/index", exts, i, full + "/index" + exts[i])
    ensures FirstLoaded(load, candidates) == Some(full + "/index" + exts[i])
  {
    var n := |exts|;
    forall k | 0 <= k < 1 + n + i ensures load(candidates[k]).None? {
      if 1 <= k <= n {
        assert candidates[1 + (k - 1)] == full + exts[k - 1];
      } else if k > n {
        assert candidates[1 + n + (k - 1 - n)] == full + "/index" + exts[k - 1 - n];
      }
    }
    assert candidates[1 + n + i] == full + "/index" + exts[i];
    WinnerIsFirst(load, candidates, 1 + n + i);
  }

  lemma NamedIndexWins(load: string -> Option<string>, candidates: seq<string>, full: string, name: string,
                       exts: seq<string>, i: nat)
    requires Lists(candidates, full, name, exts) && load(full).None? && name != ""
    requires NoneOf(load, full, exts, |exts|) && NoneOf(load, full + "/index", exts, |exts|)
    requires i < |exts| && Extended(load, full + "/index." + name, exts, i, full + "/index." + name + exts[i])
    ensures FirstLoaded(load, candidates) == Some(full + "/index." + name + exts[i])
  {
    var n := |exts|;
    forall k | 0 <= k < 1 + 2 * n + i ensures load(candidates[k]).None? {
      if 1 <= k <= n {
        assert candidates[1 + (k - 1)] == full + exts[k - 1];
      } else if n < k <= 2 * n {
        assert candidates[1 + n + (k - 1 - n)] == full + "/index" + exts[k - 1 - n];
      } else if k > 2 * n {
        assert candidates[1 + 2 * n + (k - 1 - 2 * n)] == full + "/index." + name + exts[k - 1 - 2 * n];
      }
    }
    assert candidates[1 + 2 * n + i] == full + "/index." + name + exts[i];
    WinnerIsFirst(load, candidates, 1 + 2 * n + i);
  }

  // ----- the map resolvers -----

  /** Where a reference is placed: beside what it stands in, unless it starts with a separator or there is no folder. */
  predicate Placed(from: string, reference: string, full: string) {
    && reference != ""
    && full == if from == "" || IsSeparator(reference[0]) then reference else from + "/" + reference
  }

  ghost function Held(files: map<string, string>): string -> Option<string> {
    path => if path in files then Some(files[path]) else None
  }

  /** In a map, for either port: the winner among the keys is what is found, with its text. */
  lemma MapFinds(m: MapResolver, from: string, reference: string, folder: string, name: string, hit: string)
    requires Placed(from, reference, folder + name) && FolderPart(folder) && NameOnly(name)
    requires if '.' in name then hit ==
             folder + name && hit in m.files else Wins(Held(m.files), folder + name, name, m.exts, hit)
    ensures hit in m.files
    ensures var r := m.ResolveFrom(from, Some(reference));
            r.found && r.spec.full == Some(hit) && r.src == Some(m.files[hit])
    ensures var g := GoPort.GoLookUp(m.files, m.exts, GoPort.GoPathSpec(reference, from));
            g.found && g.spec.full == hit && g.src == m.files[hit]
  {
    var full := folder + name;
    PotentialsAre(folder, name, m.exts);
    var potentials := Potentials(full, m.exts);
    if '.' in name {
      WinnerIsFirst(Held(m.files), potentials, 0);
    } else {
      ListedWins(Held(m.files), potentials, full, name, m.exts, hit);
    }
    MapLooks(m, from, reference, full, hit);
  }

  lemma MapLooks(m: MapResolver, from: string, reference: string, full: string, hit: string)
    requires Placed(from, reference, full) && FirstLoaded(Held(m.files), Potentials(full, m.exts)) == Some(hit)
    ensures hit in m.files
    ensures var r := m.ResolveFrom(from, Some(reference));
            r.found && r.spec.full == Some(hit) && r.src == Some(m.files[hit])
    ensures var g := GoPort.GoLookUp(m.files, m.exts, GoPort.GoPathSpec(reference, from));
            g.found && g.spec.full == hit && g.src == m.files[hit]
  {
    var potentials := Potentials(full, m.exts);
    assert ResolvePathSpec(Some(reference), from).full == Some(full);
    if ExtKind(Some(full)) != "" {
      Ports.KindedIsAlone(full, m.exts);
    }
    Ports.PotentialsAlike(full, m.exts);
    SameFirst(m.Load(), Held(m.files), potentials);
    SameFirst(path => if path in m.files then Some(m.files[path]) else None, Held(m.files), potentials);
  }

  /** What is searched: the path alone if its name has a dot, else all that it implies. */
  ghost predicate Searched(search: seq<string>, full: string, name: string, exts: seq<string>) {
    if '.' in name then search == [full] else Lists(search, full, name, exts)
  }

  ghost predicate AnyLoads(load: string -> Option<string>, search: seq<string>) {
    exists c :: c in search && load(c).Some?
  }

  /** Hit or miss, all of it is in the search list; a reference is found exactly if some of it is a key. */
  lemma MapSearches(m: MapResolver, from: string, reference: string, folder: string, name: string)
    requires Placed(from, reference, folder + name) && FolderPart(folder) && NameOnly(name)
    ensures var r := m.ResolveFrom(from, Some(reference));
            Searched(r.search, folder + name, name, m.exts) && (r.found <==> AnyLoads(Held(m.files), r.search))
    ensures var g := GoPort.GoLookUp(m.files, m.exts, GoPort.GoPathSpec(reference, from));
            Searched(g.search, folder + name, name, m.exts) && (g.found <==> AnyLoads(Held(m.files), g.search))
  {
    PotentialsAre(folder, name, m.exts);
    MapTries(m, from, reference, folder + name);
  }

  lemma MapTries(m: MapResolver, from: string, reference: string, full: string)
    requires Placed(from, reference, full)
    ensures var r := m.ResolveFrom(from, Some(reference));
            r.search == Potentials(full, m.exts) && (r.found <==> AnyLoads(Held(m.files), r.search))
    ensures var g := GoPort.GoLookUp(m.files, m.exts, GoPort.GoPathSpec(reference, from));
            g.search == Potentials(full, m.exts) && (g.found <==> AnyLoads(Held(m.files), g.search))
  {
    var potentials := Potentials(full, m.exts);
    assert ResolvePathSpec(Some(reference), from).full == Some(full);
    if ExtKind(Some(full)) != "" {
      Ports.KindedIsAlone(full, m.exts);
    }
    Ports.PotentialsAlike(full, m.exts);
    LoadsIfAny(m.Load(), Held(m.files), potentials);
    LoadsIfAny(path => if path in m.files then Some(m.files[path]) else None, Held(m.files), potentials);
  }

  lemma LoadsIfAny(load: string -> Option<string>, same: string -> Option<string>, search: seq<string>)
    requires forall c :: load(c) == same(c)
    ensures FirstLoaded(load, search).Some? <==> AnyLoads(same, search)
  {
  }

  // ----- folders -----

  /** The folder of a source is what stands before its name, without the separator between the two. */
  lemma FolderOfSource(folder: string, c: char, name: string)
    requires IsSeparator(c) && NameOnly(name) && name != "" && folder != "" && !IsSeparator(folder[|folder| - 1])
    ensures SourceDir(folder + [c] + name) == folder == GoPort.GoSourceDir(folder + [c] + name)
    ensures SourceDir([c] + name) == [c] && SourceDir(name) == ""
  {
    FolderCut(folder + [c], name);
    FolderCut([c], name);
    FolderCut("", name);
    assert (folder + [c] + name)[..|folder|] == folder;
    assert ([c] + name)[..1] == [c] && "" + name == name;
  }

  lemma FolderCut(folder: string, name: string)
    requires FolderPart(folder) && NameOnly(name) && name != ""
    ensures FolderLength(folder + name) == |folder| && TrimSeparators(folder + name) == folder + name
  {
    LastIsName(folder, name);
    var path := folder + name;
    assert |path[FolderLength(path)..]| == |name|;
    assert path[|path| - 1] == name[|name| - 1] && name[|name| - 1] in name;
  }

  /** A reference inside a source is looked for in the source's own folder, and one in the document from the base. */
  lemma BesideSource(m: MapResolver, folder: string, c: char, name: string, reference: Option<string>)
    requires IsSeparator(c) && NameOnly(name) && name != "" && folder != "" && !IsSeparator(folder[|folder| - 1])
    ensures folder + [c] + name in m.files ==>
              m.Resolve(Some(folder + [c] + name), reference) == m.ResolveFrom(folder, reference)
    ensures name in m.files ==> m.Resolve(Some(name), reference) == m.ResolveFrom("", reference)
    ensures m.base !in m.files ==> m.Resolve(None, reference) == m.ResolveFrom(m.base, reference)
  {
    FolderOfSource(folder, c, name);
  }

  // ----- the file resolver -----

  /** Each folder in `chain` has the next as its parent: the climb is the chain, as far as the levels go. */
  lemma {:induction false} ClimbFollows(dir: string -> string, chain: seq<string>, levels: nat)
    requires IsChain(dir, chain)
    ensures Climb(dir, chain[0], Some(chain[0]), levels) == chain[..if levels <= |chain| then levels else |chain|]
    decreases levels
  {
    if levels > 0 {
      assert HasParent(dir, chain, 0);
      if |chain| > 1 {
        forall k | 0 <= k < |chain| - 1 ensures HasParent(dir, chain[1..], k) {
          assert HasParent(dir, chain, k + 1);
        }
        ClimbFollows(dir, chain[1..], levels - 1);
      }
    }
  }

  /** How many folders the climb from this one visits. */
  function Levels(segments: seq<string>): nat { if |segments| < 7 then |segments| + 1 else 7 }

  lemma ClimbOnChain(dir: string -> string, base: string, chain: seq<string>, levels: nat)
    requires IsChain(dir, chain) && |chain| >= 2 && dir(base) == chain[1] && levels >= 1
    ensures Climb(dir, base, None, levels) == [base] + chain[1..if levels <= |chain| then levels else |chain|]
  {
    var up := chain[1..];
    forall k | 0 <= k < |up| ensures HasParent(dir, up, k) {
      assert HasParent(dir, chain, k + 1);
    }
    ClimbFollows(dir, up, levels - 1);
    var end := if levels <= |chain| then levels else |chain|;
    assert up[..end - 1] == chain[1..end];
  }

  lemma PrefixesChain(segments: seq<string>)
    requires Vfs.AllPlain(segments)
    ensures IsChain(MapFs.Dir, Prefixes(segments))
  {
    forall k | 0 <= k <= |segments| ensures HasParent(MapFs.Dir, Prefixes(segments), k) {
      MapFs.DirOfRendered(segments[..|segments| - k]);
      PrefixParent(MapFs.Dir, segments, k);
    }
  }

  lemma ClimbIs(base: string)
    requires Vfs.Segments(base) != []
    ensures var segments := Vfs.Segments(base);
            Climb(MapFs.Dir, base, None, NODE_MODULES_LEVELS) ==
            [base] + Prefixes(segments)[1..Levels(segments)]
  {
    Vfs.SegmentsArePlain(base);
    PrefixesChain(Vfs.Segments(base));
    MapFs.DirDropsLast(base);
    SevenUp(MapFs.Dir, base, Vfs.Segments(base));
  }

  lemma SevenUp(dir: string -> string, base: string, segments: seq<string>)
    requires segments != [] && IsChain(dir, Prefixes(segments))
    requires dir(base) == Vfs.Rendered(segments[..|segments| - 1])
    ensures Climb(dir, base, None, NODE_MODULES_LEVELS) == [base] + Prefixes(segments)[1..Levels(segments)]
  {
    ClimbOnChain(dir, base, Prefixes(segments), NODE_MODULES_LEVELS);
  }

  lemma ChainAt(base: string, chain: seq<string>, levels: nat, k: nat)
    requires 1 <= levels <= |chain| && k < levels
    ensures |[base] + chain[1..levels]| == levels
    ensures ([base] + chain[1..levels])[k] == if k == 0 then base else chain[k]
  {
  }

  lemma PrefixSegments(segments: seq<string>, k: nat)
    requires Vfs.AllPlain(segments) && k <= |segments|
    ensures Vfs.Segments(Prefixes(segments)[k]) == segments[..|segments| - k]
  {
    Vfs.SegmentsOfRendered(segments[..|segments| - k]);
  }

  /** The folders of the climb, as segments: one fewer each time. */
  lemma ClimbedFolder(base: string, folders: seq<string>, k: nat)
    requires Vfs.Segments(base) != [] && k < Levels(Vfs.Segments(base))
    requires folders == Climb(MapFs.Dir, base, None, NODE_MODULES_LEVELS)
    ensures var segments := Vfs.Segments(base);
            |folders| == Levels(segments) && Vfs.Segments(folders[k]) == segments[..|segments| - k]
  {
    ClimbIs(base);
    Vfs.SegmentsArePlain(base);
    FolderAt(base, Vfs.Segments(base), folders, k);
  }

  lemma FolderAt(base: string, segments: seq<string>, folders: seq<string>, k: nat)
    requires Vfs.Segments(base) == segments != [] && Vfs.AllPlain(segments) && k < Levels(segments)
    requires folders == [base] + Prefixes(segments)[1..Levels(segments)]
    ensures |folders| == Levels(segments) && Vfs.Segments(folders[k]) == segments[..|segments| - k]
  {
    ChainAt(base, Prefixes(segments), Levels(segments), k);
    PrefixSegments(segments, k);
    assert segments[..|segments|] == segments;
  }

  /** The linked candidates of a reference: in the `node_modules` of the folder and of each folder above it. */
  ghost predicate Climbs(linked: seq<string>, segments: seq<string>, path: string) {
    && |linked| == Levels(segments)
    && forall k :: 0 <= k < |linked| ==>
         linked[k] == Vfs.Clean(Vfs.Rendered(segments[..|segments| - k]) + "/node_modules/" + path)
  }

  lemma CleanBelow(folder: string, rest: string)
    ensures Vfs.Clean(Vfs.Clean(folder + "/" + rest)) ==
            Vfs.Clean(Vfs.Rendered(Vfs.Segments(folder)) + "/" + rest)
  {
    Vfs.CleanIdempotent(folder + "/" + rest);
    Vfs.SegmentsOfClean(folder);
    Vfs.SameBelow(folder, Vfs.Clean(folder), rest);
  }

  lemma OneString(folder: string, path: string)
    ensures folder + "/" + ("node_modules" + "/" + path) == folder + "/node_modules/" + path
  {
  }

  lemma ModuleIn(folder: string, path: string)
    ensures Vfs.Clean(MapFs.JoinPaths([folder, "node_modules", path])) ==
            Vfs.Clean(Vfs.Rendered(Vfs.Segments(folder)) + "/node_modules/" + path)
  {
    Vfs.JoinThree(folder, "node_modules", path);
    CleanBelow(folder, "node_modules" + "/" + path);
    OneString(Vfs.Rendered(Vfs.Segments(folder)), path);
  }

  lemma LinkedIs(canon: string -> string, join: seq<string> -> string, folders: seq<string>, path: string,
                 linked: seq<string>)
    requires |linked| == |folders|
    requires forall k :: 0 <= k < |folders| ==> canon(join([folders[k], "node_modules", path])) == linked[k]
    ensures Linked(canon, join, folders, path) == linked
  {
  }

  ghost function ClimbedPath(segments: seq<string>, path: string, k: nat): string
    requires k <= |segments|
  {
    Vfs.Clean(Vfs.Rendered(segments[..|segments| - k]) + "/node_modules/" + path)
  }

  lemma ModuleFrom(folder: string, path: string, segments: seq<string>, k: nat)
    requires k <= |segments| && Vfs.Segments(folder) == segments[..|segments| - k]
    ensures Vfs.Clean(MapFs.JoinPaths([folder, "node_modules", path])) == ClimbedPath(segments, path, k)
  {
    ModuleIn(folder, path);
  }

  lemma LinkedAt(base: string, path: string, folders: seq<string>, k: nat)
    requires Vfs.Segments(base) != [] && k < Levels(Vfs.Segments(base))
    requires folders == Climb(MapFs.Dir, base, None, NODE_MODULES_LEVELS)
    ensures k < |folders|
    ensures Vfs.Clean(MapFs.JoinPaths([folders[k], "node_modules", path])) == ClimbedPath(Vfs.Segments(base), path, k)
  {
    ClimbedFolder(base, folders, k);
    ModuleFrom(folders[k], path, Vfs.Segments(base), k);
  }

  lemma LinkedClimbs(base: string, path: string)
    requires Vfs.Segments(base) != []
    ensures Climbs(Linked(Vfs.Clean, MapFs.JoinPaths, Climb(MapFs.Dir, base, None, NODE_MODULES_LEVELS), path),
                   Vfs.Segments(base), path)
  {
    var segments := Vfs.Segments(base);
    var linked := seq(Levels(segments), k requires 0 <= k < Levels(segments) => ClimbedPath(segments, path, k));
    LinkedAre(base, path, Climb(MapFs.Dir, base, None, NODE_MODULES_LEVELS), linked);
  }

  lemma LinkedAre(base: string, path: string, folders: seq<string>, linked: seq<string>)
    requires Vfs.Segments(base) != [] && folders == Climb(MapFs.Dir, base, None, NODE_MODULES_LEVELS)
    requires |linked| == Levels(Vfs.Segments(base))
    requires forall k :: 0 <= k < |linked| ==> linked[k] == ClimbedPath(Vfs.Segments(base), path, k)
    ensures Linked(Vfs.Clean, MapFs.JoinPaths, folders, path) == linked
  {
    ClimbedFolder(base, folders, 0);
    forall k | 0 <= k < |folders| ensures Vfs.Clean(MapFs.JoinPaths([folders[k], "node_modules", path])) == linked[k] {
      LinkedAt(base, path, folders, k);
    }
    LinkedIs(Vfs.Clean, MapFs.JoinPaths, folders, path, linked);
  }

  lemma ModuleAtTop(folder: string, path: string)
    requires Vfs.Segments(folder) == []
    ensures Vfs.Clean(MapFs.JoinPaths([folder, "node_modules", path])) == Vfs.Clean("./node_modules/" + path)
  {
    ModuleIn(folder, path);
    assert Vfs.Rendered([]) + "/node_modules/" == "./node_modules/";
  }

  lemma ClimbAtTop(base: string)
    requires Vfs.Segments(base) == []
    ensures Climb(MapFs.Dir, base, None, NODE_MODULES_LEVELS) == [base, "."] && Vfs.Segments(".") == []
  {
    MapFs.DirDropsLast(base);
    MapFs.DirOfRendered([]);
    Vfs.SegmentsOfRendered([]);
    ClimbFromTop(MapFs.Dir, base, NODE_MODULES_LEVELS);
  }

  lemma LinkedTwice(canon: string -> string, join: seq<string> -> string, folders: seq<string>, path: string,
                    linked: string)
    requires |folders| == 2
    requires canon(join([folders[0], "node_modules", path])) == linked
    requires canon(join([folders[1], "node_modules", path])) == linked
    ensures Linked(canon, join, folders, path) == [linked, linked]
  {
    LinkedIs(canon, join, folders, path, [linked, linked]);
  }

  /** From the top there is nowhere to climb to: its own `node_modules` is tried, twice over. */
  lemma LinkedAtTop(base: string, path: string, linked: string)
    requires Vfs.Segments(base) == [] && linked == Vfs.Clean("./node_modules/" + path)
    ensures Linked(Vfs.Clean, MapFs.JoinPaths, Climb(MapFs.Dir, base, None, NODE_MODULES_LEVELS), path) ==
            [linked, linked]
  {
    var folders := Climb(MapFs.Dir, base, None, NODE_MODULES_LEVELS);
    ClimbAtTop(base);
    ModuleAtTop(folders[0], path);
    ModuleAtTop(folders[1], path);
    LinkedTwice(Vfs.Clean, MapFs.JoinPaths, folders, path, linked);
  }

  lemma ClimbFromTop(dir: string -> string, base: string, levels: nat)
    requires levels >= 2 && dir(base) == "." && dir(".") == "."
    ensures Climb(dir, base, None, levels) == [base, "."]
  {
  }

  /** The path itself; else the nearest linked package; else, without a kind, what it implies. */
  ghost predicate FileWins(resolver: FileResolver, linked: seq<string>, full: string, name: string, hit: string) {
    var load := resolver.Load;
    || (hit == full && load(full).Some?)
    || (load(full).None? && exists k: nat :: WinsAt(load, linked, k) && hit == linked[k])
    || (load(full).None? && (forall c :: c in linked ==> load(c).None?) && '.' !in name && hit != full &&
        Wins(load, full, name, resolver.exts, hit))
  }

  lemma FileFinds(resolver: FileResolver, current: Option<string>, reference: string, place: string,
                  folder: string, name: string, hit: string)
    requires Placed(resolver.BaseOf(current), reference, place) && resolver.fs.canon(place) == folder + name != ""
    requires FolderPart(folder) && NameOnly(name)
    requires var folders := Climb(resolver.fs.dir, resolver.BaseOf(current), None, NODE_MODULES_LEVELS);
             var linked := Linked(resolver.fs.canon, resolver.fs.join, folders, reference);
             FileWins(resolver, linked, folder + name, name, hit)
    ensures var r := resolver.Resolve(current, Some(reference));
            r.found && r.spec.full == Some(hit) && r.src == resolver.Load(hit)
  {
    var load, full := resolver.Load, folder + name;
    var spec := resolver.SpecOf(current, Some(reference));
    var linked := Linked(resolver.fs.canon, resolver.fs.join,
                         Climb(resolver.fs.dir, resolver.BaseOf(current), None, NODE_MODULES_LEVELS), reference);
    assert spec.full == Some(full) && spec.path == Some(reference);
    if load(full).None? {
      var implied := resolver.Implied(spec.kind, full);
      assert resolver.Fallbacks(current, spec) == linked + implied;
      if k: nat :| WinsAt(load, linked, k) && hit == linked[k] {
        WinnerIsFirst(load, linked + implied, k);
      } else {
        ImpliedWins(resolver, linked, folder, name, hit);
      }
    }
  }

  /**
   * A path that loads is the whole search; else the linked packages and what the path implies are searched
   * as well, and a reference is found exactly if some of it loads.
   */
  lemma FileSearches(resolver: FileResolver, current: Option<string>, reference: string, place: string,
                     folder: string, name: string)
    returns (search: seq<string>)
    requires Placed(resolver.BaseOf(current), reference, place) && resolver.fs.canon(place) == folder + name != ""
    requires FolderPart(folder) && NameOnly(name)
    ensures Searched(search, folder + name, name, resolver.exts) && search != []
    ensures var folders := Climb(resolver.fs.dir, resolver.BaseOf(current), None, NODE_MODULES_LEVELS);
            var linked := Linked(resolver.fs.canon, resolver.fs.join, folders, reference);
            var r := resolver.Resolve(current, Some(reference));
            && r.search == (if resolver.Load(folder + name).Some? then [folder + name]
                            else [folder + name] + linked + search[1..])
            && (r.found <==> AnyLoads(resolver.Load, r.search))
  {
    var load, full := resolver.Load, folder + name;
    var spec := resolver.SpecOf(current, Some(reference));
    var linked := Linked(resolver.fs.canon, resolver.fs.join,
                         Climb(resolver.fs.dir, resolver.BaseOf(current), None, NODE_MODULES_LEVELS), reference);
    assert spec.full == Some(full) && spec.path == Some(reference);
    search := [full] + resolver.Implied(spec.kind, full);
    ImpliedIs(resolver, folder, name);
    assert search[1..] == resolver.Implied(spec.kind, full);
    var fallbacks := linked + search[1..];
    assert resolver.Fallbacks(current, spec) == fallbacks;
    LoadsIfAny(load, load, fallbacks);
    OneOrRest(load, full, linked, search[1..]);
  }

  lemma OneOrRest(load: string -> Option<string>, full: string, linked: seq<string>, implied: seq<string>)
    ensures [full] + linked + implied == [full] + (linked + implied)
    ensures AnyLoads(load, [full] + linked + implied) <==> load(full).Some? || AnyLoads(load, linked + implied)
    ensures AnyLoads(load, [full]) <==> load(full).Some?
  {
    var all, rest := [full] + linked + implied, linked + implied;
    assert all == [full] + rest;
    assert forall c :: c in all <==> c == full || c in rest;
    assert full in [full];
  }

  lemma ImpliedIs(resolver: FileResolver, folder: string, name: string)
    requires FolderPart(folder) && NameOnly(name) && folder + name != ""
    ensures var full := folder + name;
            Searched([full] + resolver.Implied(ExtKind(Some(full)), full), full, name, resolver.exts)
  {
    var full := folder + name;
    PotentialsAre(folder, name, resolver.exts);
    if '.' in name {
      NothingImplied(resolver, ExtKind(Some(full)), full);
    } else {
      NoDotNoKind(folder, name);
      RestImplied(resolver, full);
    }
  }

  lemma NothingImplied(resolver: FileResolver, kind: string, full: string)
    requires Potentials(full, resolver.exts) == [full]
    ensures [full] + resolver.Implied(kind, full) == [full]
  {
    assert [full][1..] == [] && [full] + [] == [full];
  }

  lemma RestImplied(resolver: FileResolver, full: string)
    requires Potentials(full, resolver.exts) != [] && Potentials(full, resolver.exts)[0] == full
    ensures [full] + resolver.Implied("", full) == Potentials(full, resolver.exts)
  {
    var named := Potentials(full, resolver.exts);
    assert [named[0]] + named[1..] == named;
  }

  lemma ImpliedWins(resolver: FileResolver, linked: seq<string>, folder: string, name: string, hit: string)
    requires FolderPart(folder) && NameOnly(name) && '.' !in name && folder + name != ""
    requires var full := folder + name;
             && resolver.Load(full).None? && (forall c :: c in linked ==> resolver.Load(c).None?)
             && hit != full && Wins(resolver.Load, full, name, resolver.exts, hit)
    ensures var full := folder + name;
            FirstLoaded(resolver.Load, linked + resolver.Implied(ExtKind(Some(full)), full)) == Some(hit)
  {
    var load, full := resolver.Load, folder + name;
    PotentialsAre(folder, name, resolver.exts);
    var named := Potentials(full, resolver.exts);
    ListedWins(load, named, full, name, resolver.exts, hit);
    NoDotNoKind(folder, name);
    RestWins(load, linked, named, hit);
  }

  lemma NoDotNoKind(folder: string, name: string)
    requires FolderPart(folder) && NameOnly(name) && '.' !in name
    ensures ExtKind(Some(folder + name)) == ""
  {
    LastIsName(folder, name);
    Ports.AfterDotSome(name);
  }

  lemma RestWins(load: string -> Option<string>, linked: seq<string>, named: seq<string>, hit: string)
    requires named != [] && load(named[0]).None? && (forall c :: c in linked ==> load(c).None?)
    requires FirstLoaded(load, named) == Some(hit)
    ensures FirstLoaded(load, linked + named[1..]) == Some(hit)
  {
    PassOver(load, [named[0]], named[1..]);
    assert [named[0]] + named[1..] == named;
    PassOver(load, linked, named[1..]);
  }

  /** What does not load does not count. */
  lemma {:induction false} PassOver(load: string -> Option<string>, a: seq<string>, b: seq<string>)
    requires forall c :: c in a ==> load(c).None?
    ensures FirstLoaded(load, a + b) == FirstLoaded(load, b)
  {
    if a == [] {
      assert a + b == b;
    } else {
      assert a[0] in a && (a + b)[1..] == a[1..] + b && forall c :: c in a[1..] ==> c in a;
      PassOver(load, a[1..], b);
    }
  }

  // ----- what a root lets through -----

  /** The real path of a file is within the real path of the root; a root that has none is taken as it is spelt. */
  ghost predicate RealWithin(fs: SourceFs, root: string, path: string) {
    && fs.realPath(path).Some?
    && (fs.realPath(root).Some? ==> fs.within(fs.realPath(path).value, fs.realPath(root).value))
    && (fs.realPath(root).None? ==> fs.within(fs.realPath(path).value, fs.canon(root)))
  }

  /** Over any filesystem, a file without a real path, such as a dangling link, is not served; preloaded or not. */
  lemma RootDecides(resolver: FileResolver, path: string)
    ensures resolver.Load(path).Some? <==>
            (path in resolver.preload || resolver.fs.read(path).Some?) &&
            (resolver.root.Some? ==> RealWithin(resolver.fs, resolver.root.value, path))
    ensures resolver.Load(path).Some? ==>
              resolver.Load(path) ==
              if path in resolver.preload then Some(resolver.preload[path]) else resolver.fs.read(path)
  {
  }

  lemma RootDecidesPackage(resolver: PkgResolver, path: string)
    ensures resolver.Load(path).Some? <==>
            resolver.fs.read(path).Some? &&
            (resolver.root.Some? ==> RealWithin(resolver.fs, resolver.root.value, path))
    ensures resolver.Load(path).Some? ==> resolver.Load(path) == resolver.fs.read(path)
  {
  }

  /** So it is with what is found. */
  lemma FoundIsReal(resolver: FileResolver, current: Option<string>, reference: Option<string>)
    ensures var r := resolver.Resolve(current, reference);
            r.found && resolver.root.Some? ==>
              r.spec.full.Some? && RealWithin(resolver.fs, resolver.root.value, r.spec.full.value)
  {
    if resolver.Resolve(current, reference).found {
      FoundIsAllowed(resolver, current, reference);
    }
  }
}
