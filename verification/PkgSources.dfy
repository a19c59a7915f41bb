/** The package resolver as an environment of an expansion. */
module PkgSources {
  import opened Common
  import opened References
  import opened Expand
  import opened FileResolver
  import opened PkgResolver
  import opened Sources
  import Emptied
  import MapFs
  import Vfs

  /** Every path that a probe may hit is good. */
  ghost predicate AllHits(good: string -> bool, probes: seq<Probe>) {
    forall i :: 0 <= i < |probes| && probes[i].Candidate? ==> good(probes[i].path)
  }

  lemma {:induction false} KeepMembers(paths: seq<string>, target: string, index: bool, good: string -> bool)
    requires Emptied.All(good, paths)
    ensures Emptied.All(good, Keep(paths, target, index))
  {
    if paths != [] {
      var front := paths[..|paths| - 1];
      assert forall i :: 0 <= i < |front| ==> front[i] == paths[i];
      KeepMembers(front, target, index, good);
    }
  }

  lemma HitsAppend(good: string -> bool, a: seq<Probe>, b: seq<Probe>)
    requires AllHits(good, a) && AllHits(good, b)
    ensures AllHits(good, a + b)
  {
  }

  lemma CandidatesHit(good: string -> bool, paths: seq<string>)
    requires Emptied.All(good, paths)
    ensures AllHits(good, Candidates(paths))
  {
  }

  lemma MainsAll(good: string -> bool, fs: SourceFs, load: string -> Option<string>, main: string -> Option<string>,
                 target: string, exts: seq<string>)
    requires forall parts :: Emptied.All(good, Potentials(fs.join(parts), exts))
    ensures Emptied.All(good, MainPaths(fs, load, main, target, exts))
  {
    var paths := MainPaths(fs, load, main, target, exts);
    if paths != [] {
      var name := main(load(fs.join([target, "package.json"])).value).value;
      assert paths == Potentials(fs.join([target, name]), exts);
    }
  }

  lemma HitsIn(good: string -> bool, fs: SourceFs, load: string -> Option<string>, main: string -> Option<string>,
               folder: string, reference: string, exts: seq<string>)
    requires forall parts :: Emptied.All(good, Potentials(fs.join(parts), exts))
    ensures AllHits(good, ProbesIn(fs, load, main, folder, reference, exts))
  {
    var target := fs.join([folder, reference]);
    var named := Potentials(target, exts);
    var files, indexes := Keep(named, target, false), Keep(named, target, true);
    var mains := MainPaths(fs, load, main, target, exts);
    KeepMembers(named, target, false, good);
    KeepMembers(named, target, true, good);
    MainsAll(good, fs, load, main, target, exts);
    HitsInOrder(good, files, fs.join([target, "package.json"]), mains, indexes);
  }

  lemma HitsInOrder(good: string -> bool, files: seq<string>, manifest: string, mains: seq<string>,
                    indexes: seq<string>)
    requires Emptied.All(good, files) && Emptied.All(good, mains) && Emptied.All(good, indexes)
    ensures AllHits(good, Candidates(files) + [Manifest(manifest)] + Candidates(mains) + Candidates(indexes))
  {
    CandidatesHit(good, files);
    CandidatesHit(good, mains);
    CandidatesHit(good, indexes);
    HitsAppend(good, Candidates(files), [Manifest(manifest)]);
    HitsAppend(good, Candidates(files) + [Manifest(manifest)], Candidates(mains));
    HitsAppend(good, Candidates(files) + [Manifest(manifest)] + Candidates(mains), Candidates(indexes));
  }

  lemma {:induction false} HitsAlong(good: string -> bool, resolver: PkgResolver, folders: seq<string>,
                                     reference: string)
    requires forall parts :: Emptied.All(good, Potentials(resolver.fs.join(parts), resolver.exts))
    ensures AllHits(good, resolver.ProbesAlong(folders, reference))
    decreases folders
  {
    if folders != [] {
      HitsIn(good, resolver.fs, resolver.Load, resolver.main, folders[0], reference, resolver.exts);
      HitsAlong(good, resolver, folders[1..], reference);
      HitsAppend(good, ProbesIn(resolver.fs, resolver.Load, resolver.main, folders[0], reference, resolver.exts),
                 resolver.ProbesAlong(folders[1..], reference));
    }
  }

  /** Whatever is found is good, when what the filesystem joins or makes canonical implies only good paths. */
  lemma FoundIsGood(good: string -> bool, resolver: PkgResolver, current: Option<string>, reference: Option<string>)
    requires forall parts :: Emptied.All(good, Potentials(resolver.fs.join(parts), resolver.exts))
    requires forall path ::
               good(resolver.fs.canon(path)) && Emptied.All(good, Potentials(resolver.fs.canon(path), resolver.exts))
    ensures var r := resolver.Resolve(current, reference);
            r.found ==>
              && r.spec.full.Some? && good(r.spec.full.value) && r.spec.kind == ExtKind(r.spec.full)
              && r.src.Some? && r.src == resolver.Load(r.spec.full.value)
  {
    var spec, r := resolver.SpecOf(current, reference), resolver.Resolve(current, reference);
    if r.found {
      if !IsRelative(spec.path.value) {
        HitsAlong(good, resolver, Unseen([], resolver.Walk(resolver.Starts())), spec.path.value);
        var n := TryIsFirst(resolver.Load, resolver.PackageProbes(spec.path.value));
      } else {
        var full := resolver.fs.canon(spec.full.value);
        var potentials := if ExtKind(Some(full)) == "" then Potentials(full, resolver.exts) else [full];
        assert Emptied.All(good, potentials);
        assert FirstLoaded(resolver.Load, potentials).Some?;
      }
    }
  }

  /** Over an in-memory filesystem, what the package resolver finds is one of its keys, with that key's text. */
  lemma PackageIsAKey(resolver: PkgResolver, files: map<string, string>, current: Option<string>,
                      reference: Option<string>)
    requires resolver.fs == MapSource(files) &&
             forall i :: 0 <= i < |resolver.exts| ==> Emptied.Separatorless(resolver.exts[i])
    ensures var r := resolver.Resolve(current, reference);
            r.found ==>
              && r.spec.full.Some? && r.spec.full.value in files && r.src == Some(files[r.spec.full.value])
              && r.spec.kind == ExtKind(r.spec.full)
  {
    var good := path => Emptied.Canonical(path);
    forall parts ensures Emptied.All(good, Potentials(resolver.fs.join(parts), resolver.exts)) {
      Vfs.CleanIdempotent(Vfs.Join(parts));
      Emptied.PotentialsAll(good, resolver.fs.join(parts), resolver.exts);
    }
    forall path
      ensures good(resolver.fs.canon(path)) && Emptied.All(good, Potentials(resolver.fs.canon(path), resolver.exts))
    {
      Vfs.CleanIdempotent(path);
      Emptied.PotentialsAll(good, resolver.fs.canon(path), resolver.exts);
    }
    FoundIsGood(good, resolver, current, reference);
    var r := resolver.Resolve(current, reference);
    if r.found {
      LoadedIsAKey(resolver, files, r.spec.full.value);
    }
  }

  lemma LoadedIsAKey(resolver: PkgResolver, files: map<string, string>, path: string)
    requires resolver.fs == MapSource(files) && Emptied.Canonical(path) && resolver.Load(path).Some?
    ensures path in files && resolver.Load(path) == Some(files[path])
  {
  }

  function PkgEnv(files: map<string, string>, resolver: PkgResolver, setup: Setup): Env {
    Env(files, (current, reference) => resolver.Resolve(current, reference),
        setup.parse, setup.processors, setup.cap, setup.extend)
  }

  /** The graph theorem through the package resolver, over any in-memory filesystem. */
  lemma PackageExpansion(files: map<string, string>, resolver: PkgResolver, setup: Setup, doc: Doc)
    requires resolver.fs == MapSource(files) &&
             forall i :: 0 <= i < |resolver.exts| ==> Emptied.Separatorless(resolver.exts[i])
    requires setup.cap.Some? ==> |files| <= setup.cap.value
    ensures ValidEnv(PkgEnv(files, resolver, setup)) && ExpandsByGraph(PkgEnv(files, resolver, setup), doc)
  {
    forall current, reference | resolver.Resolve(current, reference).found {
      PackageIsAKey(resolver, files, current, reference);
    }
    GraphExpansion(PkgEnv(files, resolver, setup), doc);
  }
}
