/** The folder scan that fills a preload, as a filter over the file map. */
module Preload {
  import opened Common
  import opened Vfs
  import opened MapFs

  // ----- ordered keys -----

  predicate Less(a: string, b: string) {
    b != "" && (a == "" || a[0] < b[0] || (a[0] == b[0] && Less(a[1..], b[1..])))
  }

  /** The keys of `files`, as an ordered map hands them out. */
  ghost predicate InOrder(files: map<string, string>, order: seq<string>) {
    && Elems(order) == files.Keys
    && forall i, j :: 0 <= i < j < |order| ==> Less(order[i], order[j])
  }

  lemma {:induction false} LongerIsGreater(a: string, b: string)
    requires a <= b
    ensures !Less(b, a)
  {
    if a != "" {
      assert a[1..] <= b[1..];
      LongerIsGreater(a[1..], b[1..]);
    }
  }

  // ----- a folder's listing -----

  /** The key at `parts` lies below `folder`, under an entry of this name. */
  ghost predicate Under(folder: seq<string>, name: string, parts: seq<string>) {
    folder + [name] <= parts
  }

  /** A file map, key by key, as segments. */
  type Tree = map<string, seq<string>>

  ghost function TreeOf(files: map<string, string>): Tree {
    map k | k in files :: Parts(k)
  }

  ghost predicate HasEntry(tree: Tree, folder: seq<string>, name: string) {
    exists k :: k in tree && Under(folder, name, tree[k])
  }

  /** Some key has more below this entry, so that it lists as a folder even if it is a key too. */
  ghost predicate IsFolder(tree: Tree, folder: seq<string>, name: string) {
    exists k :: k in tree && Beyond(folder, name, tree[k])
  }

  function Prefix(folder: string): string {
    if folder == "." then "" else folder + "/"
  }

  function FirstSlash(s: string): (i: nat)
    ensures i <= |s| && '/' !in s[..i] && (i < |s| ==> s[i] == '/')
  {
    if s == "" || s[0] == '/' then 0
    else
      var rest := FirstSlash(s[1..]);
      assert s[..rest + 1] == [s[0]] + s[1..][..rest];
      rest + 1
  }

  lemma FirstSlashAt(s: string, i: nat)
    requires i <= |s| && '/' !in s[..i] && (i < |s| ==> s[i] == '/')
    ensures FirstSlash(s) == i
  {
  }

  /** What the string tests of the listing say of a key, in segments. */
  lemma KeyBelowFolder(folder: seq<string>, key: string)
    requires AllPlain(folder) && Clean(key) == key
    ensures Prefix(Rendered(folder)) <= key <==> folder < Parts(key)
    ensures folder < Parts(key) ==>
            var rest := key[|Prefix(Rendered(folder))|..];
            && rest == Join(Parts(key)[|folder|..]) && rest != ""
            && rest[..FirstSlash(rest)] == Parts(key)[|folder|]
            && (FirstSlash(rest) < |rest| <==> |folder| + 1 < |Parts(key)|)
  {
    var parts := Parts(key);
    PartsOfKey(key);
    if folder == [] {
      assert Rendered(folder) == "." && parts[0..] == parts;
      FirstSegment(parts);
    } else {
      RenderedIsDot(folder);
      if key == "." {
        assert |Join(folder) + "/"| > 1;
      } else {
        JoinPrefix(folder, parts);
        if folder < parts {
          var below := parts[|folder|..];
          assert parts == folder + below;
          JoinConcat(folder, below);
          FirstSegment(below);
        }
      }
    }
  }

  lemma FirstSegment(parts: seq<string>)
    requires parts != [] && forall i :: 0 <= i < |parts| ==> parts[i] != "" && '/' !in parts[i]
    ensures Join(parts) != "" && FirstSlash(Join(parts)) == |parts[0]|
    ensures Join(parts)[..|parts[0]|] == parts[0]
    ensures |parts[0]| < |Join(parts)| <==> |parts| > 1
  {
    FirstSlashAt(Join(parts), |parts[0]|);
  }

  ghost function PartsOf(order: seq<string>): (ps: seq<seq<string>>)
    ensures |ps| == |order| && forall i :: 0 <= i < |ps| ==> ps[i] == Parts(order[i])
  {
    seq(|order|, i requires 0 <= i < |order| => Parts(order[i]))
  }

  /** Among the first `n` keys, one lies under this entry. */
  ghost predicate Mentioned(ps: seq<seq<string>>, n: nat, folder: seq<string>, name: string)
    requires n <= |ps|
  {
    exists i :: 0 <= i < n && Under(folder, name, ps[i])
  }

  /** Among the first `n` keys, one goes on below this entry. */
  ghost predicate Entered(ps: seq<seq<string>>, n: nat, folder: seq<string>, name: string)
    requires n <= |ps|
  {
    exists i :: 0 <= i < n && Beyond(folder, name, ps[i])
  }

  ghost predicate Beyond(folder: seq<string>, name: string, parts: seq<string>) {
    folder + [name] < parts
  }

  /** The listing made so far, from the first `n` keys. */
  ghost predicate Listed(ps: seq<seq<string>>, n: nat, folder: seq<string>, entries: map<string, bool>)
    requires n <= |ps|
  {
    && (forall name :: name in entries <==> Mentioned(ps, n, folder, name))
    && (forall name :: name in entries ==> (entries[name] <==> Entered(ps, n, folder, name)))
  }

  /**
   * A folder's entries, each with whether it is a folder; a folder other than the root with no
   * entries is not there.
   */
  method ReadDir(files: map<string, string>, order: seq<string>, path: string)
    returns (listing: Option<map<string, bool>>)
    requires Canonical(files) && InOrder(files, order)
    ensures listing.None? <==> Segments(path) != [] && forall name :: !HasEntry(TreeOf(files), Segments(path), name)
    ensures listing.Some? ==> IsListing(TreeOf(files), Segments(path), listing.value)
  {
    var folder := Clean(path);
    var prefix := Prefix(folder);
    ghost var segments, ps := Segments(path), PartsOf(order);
    SegmentsArePlain(path);
    var entries := map[];
    for n := 0 to |order|
      invariant Listed(ps, n, segments, entries)
    {
      var key := order[n];
      ListKey(files, order, n, segments, entries);
      entries := WithKey(prefix, key, entries);
    }
    ListedAll(files, order, segments, entries);
    if segments != [] {
      RenderedIsDot(segments);
    }
    if entries == map[] && folder != "." {
      return None;
    }
    assert entries != map[] ==> exists name :: name in entries;
    return Some(entries);
  }

  /** One round of the listing: the key's entry, if it lies below the folder at all. */
  function WithKey(prefix: string, key: string, entries: map<string, bool>): map<string, bool> {
    if prefix <= key && key[|prefix|..] != "" then
      var rest := key[|prefix|..];
      entries[rest[..FirstSlash(rest)] := FirstSlash(rest) < |rest|]
    else entries
  }

  lemma ListKey(files: map<string, string>, order: seq<string>, n: nat, folder: seq<string>, entries: map<string, bool>)
    requires Canonical(files) && InOrder(files, order) && AllPlain(folder)
    requires n < |order| && Listed(PartsOf(order), n, folder, entries)
    ensures Listed(PartsOf(order), n + 1, folder, WithKey(Prefix(Rendered(folder)), order[n], entries))
  {
    var ps := PartsOf(order);
    assert order[n] in Elems(order);
    KeyBelowFolder(folder, order[n]);
    if folder < ps[n] {
      PlainKeyFirst(files, order, n);
      ListStep(ps, n, folder, entries);
    } else {
      ListSkip(ps, n, folder, entries);
    }
  }

  lemma OneMore(ps: seq<seq<string>>, n: nat, folder: seq<string>, name: string)
    requires n < |ps|
    ensures Mentioned(ps, n + 1, folder, name) <==> Mentioned(ps, n, folder, name) || Under(folder, name, ps[n])
    ensures Entered(ps, n + 1, folder, name) <==> Entered(ps, n, folder, name) || Beyond(folder, name, ps[n])
    ensures Under(folder, name, ps[n]) <==> folder < ps[n] && ps[n][|folder|] == name
    ensures Beyond(folder, name, ps[n]) <==> Under(folder, name, ps[n]) && |ps[n]| > |folder| + 1
  {
    UnderParts(folder, name, ps[n]);
  }

  lemma UnderParts(folder: seq<string>, name: string, parts: seq<string>)
    ensures Under(folder, name, parts) <==> folder < parts && parts[|folder|] == name
    ensures Beyond(folder, name, parts) <==> Under(folder, name, parts) && |parts| > |folder| + 1
  {
    if Under(folder, name, parts) {
      assert parts[|folder|] == (folder + [name])[|folder|];
      assert folder == (folder + [name])[..|folder|];
    }
  }

  lemma ListSkip(ps: seq<seq<string>>, n: nat, folder: seq<string>, entries: map<string, bool>)
    requires n < |ps| && Listed(ps, n, folder, entries) && !(folder < ps[n])
    ensures Listed(ps, n + 1, folder, entries)
  {
    forall name
      ensures Mentioned(ps, n + 1, folder, name) <==> Mentioned(ps, n, folder, name)
      ensures Entered(ps, n + 1, folder, name) <==> Entered(ps, n, folder, name)
    {
      OneMore(ps, n, folder, name);
    }
  }

  lemma ListStep(ps: seq<seq<string>>, n: nat, folder: seq<string>, entries: map<string, bool>)
    requires n < |ps| && Listed(ps, n, folder, entries) && folder < ps[n]
    requires |ps[n]| == |folder| + 1 ==> forall i :: 0 <= i < n ==> !(ps[n] < ps[i])
    ensures Listed(ps, n + 1, folder, entries[ps[n][|folder|] := |folder| + 1 < |ps[n]|])
  {
    var name := ps[n][|folder|];
    forall other
      ensures Mentioned(ps, n + 1, folder, other) <==> Mentioned(ps, n, folder, other) || other == name
      ensures other != name ==> (Entered(ps, n + 1, folder, other) <==> Entered(ps, n, folder, other))
    {
      OneMore(ps, n, folder, other);
    }
    OneMore(ps, n, folder, name);
    if |ps[n]| == |folder| + 1 {
      assert folder + [name] == ps[n];
    }
  }

  /** In order, no key that comes before a key lies below it. */
  lemma PlainKeyFirst(files: map<string, string>, order: seq<string>, n: nat)
    requires Canonical(files) && InOrder(files, order) && n < |order|
    ensures forall i :: 0 <= i < n ==> !(PartsOf(order)[n] < PartsOf(order)[i])
  {
    forall i | 0 <= i < n ensures !(PartsOf(order)[n] < PartsOf(order)[i]) {
      assert order[n] in Elems(order) && order[i] in Elems(order);
      FolderKeyFirst(order[i], order[n]);
    }
  }

  lemma FolderKeyFirst(below: string, key: string)
    requires Clean(below) == below && Clean(key) == key && Less(below, key)
    ensures !(Parts(key) < Parts(below))
  {
    var p, q := Parts(key), Parts(below);
    PartsOfKey(key);
    PartsOfKey(below);
    if p < q {
      JoinIsPrefix(p, q);
      LongerIsGreater(key, below);
    }
  }

  lemma JoinIsPrefix(p: seq<string>, q: seq<string>)
    requires p != [] && p < q
    ensures Join(p) <= Join(q)
  {
    assert q == p + q[|p|..];
    JoinConcat(p, q[|p|..]);
  }

  lemma ListedAll(files: map<string, string>, order: seq<string>, folder: seq<string>, entries: map<string, bool>)
    requires InOrder(files, order) && Listed(PartsOf(order), |order|, folder, entries)
    ensures forall name :: name in entries <==> HasEntry(TreeOf(files), folder, name)
    ensures forall name :: name in entries ==> (entries[name] <==> IsFolder(TreeOf(files), folder, name))
  {
    var ps, n := PartsOf(order), |order|;
    forall name
      ensures Mentioned(ps, n, folder, name) <==> HasEntry(TreeOf(files), folder, name)
      ensures Entered(ps, n, folder, name) <==> IsFolder(TreeOf(files), folder, name)
    {
      EveryKeyListed(files, order, folder, name);
    }
  }

  lemma EveryKeyListed(files: map<string, string>, order: seq<string>, folder: seq<string>, name: string)
    requires Elems(order) == files.Keys
    ensures Mentioned(PartsOf(order), |order|, folder, name) <==> HasEntry(TreeOf(files), folder, name)
    ensures Entered(PartsOf(order), |order|, folder, name) <==> IsFolder(TreeOf(files), folder, name)
  {
    var ps := PartsOf(order);
    MembersAreElems(order);
    var tree := TreeOf(files);
    forall k | k in tree ensures exists i :: 0 <= i < |order| && ps[i] == tree[k] {
      assert k in Elems(order);
      var i :| 0 <= i < |order| && order[i] == k;
      assert ps[i] == tree[k];
    }
    forall i | 0 <= i < |order| ensures order[i] in tree && ps[i] == tree[order[i]] {
      assert order[i] in Elems(order);
    }
  }

  // ----- the scan -----

  const MAX_SCAN_DEPTH: nat := 64

  function EndsWith(name: string, ext: string): bool {
    |ext| <= |name| && name[|name| - |ext|..] == ext
  }

  predicate HasExtension(name: string, exts: seq<string>) {
    exists i :: 0 <= i < |exts| && EndsWith(name, exts[i])
  }

  /** Another key lies below this one, so that it lists as a folder. */
  ghost predicate IsFolderKey(tree: Tree, key: string)
    requires key in tree
  {
    exists q :: q in tree && tree[key] < tree[q]
  }

  /** What a scan is after. */
  datatype Query = Query(exts: seq<string>, recursive: bool, levels: nat)

  /** The key is below the folder, close enough, no folder itself, and of a listed extension. */
  ghost predicate Selected(tree: Tree, folder: seq<string>, query: Query, key: string) {
    && key in tree
    && folder < tree[key]
    && |tree[key]| - |folder| <= query.levels
    && (query.recursive || |tree[key]| == |folder| + 1)
    && !IsFolderKey(tree, key)
    && HasExtension(tree[key][|tree[key]| - 1], query.exts)
  }

  ghost function Selection(tree: Tree, folder: seq<string>, query: Query): set<string> {
    set k | k in tree && Selected(tree, folder, query, k)
  }

  ghost function SelectionIn(tree: Tree, folder: seq<string>, query: Query, names: set<string>): set<string> {
    set k | k in tree && Selected(tree, folder, query, k) && tree[k][|folder|] in names
  }

  ghost function Restrict(files: map<string, string>, keys: set<string>): map<string, string> {
    map k | k in files && k in keys :: files[k]
  }

  lemma RestrictAdds(before: map<string, string>, files: map<string, string>, a: set<string>, b: set<string>)
    ensures before + Restrict(files, a) + Restrict(files, b) == before + Restrict(files, a + b)
  {
  }

  lemma RestrictAddsOne(before: map<string, string>, files: map<string, string>, a: set<string>, key: string)
    requires key in files
    ensures (before + Restrict(files, a))[key := files[key]] == before + Restrict(files, a + {key})
  {
  }

  class FileMap {
    var entries: map<string, string>

    constructor ()
      ensures entries == map[]
    {
      entries := map[];
    }
  }

  lemma FileStep(tree: Tree, folder: seq<string>, query: Query, names: set<string>, name: string, key: string)
    requires query.levels > 0 && name !in names
    requires key in tree && tree[key] == folder + [name] && !IsFolder(tree, folder, name)
    requires forall k :: k in tree && tree[k] == tree[key] ==> k == key
    ensures SelectionIn(tree, folder, query, names + {name}) ==
            SelectionIn(tree, folder, query, names) + if HasExtension(name, query.exts) then {key} else {}
  {
    assert folder < tree[key] && tree[key][|folder|] == name;
    forall q | q in tree ensures !(tree[key] < tree[q]) {
      assert !Beyond(folder, name, tree[q]);
    }
    forall k | k in tree && Selected(tree, folder, query, k) && tree[k][|folder|] == name ensures k == key {
      UnderParts(folder, name, tree[k]);
    }
    assert Selected(tree, folder, query, key) <==> HasExtension(name, query.exts);
  }

  lemma FolderStep(tree: Tree, folder: seq<string>, query: Query, names: set<string>, name: string)
    requires query.levels > 0 && name !in names && IsFolder(tree, folder, name)
    ensures SelectionIn(tree, folder, query, names + {name}) ==
            SelectionIn(tree, folder, query, names) +
            if query.recursive then Selection(tree, folder + [name], query.(levels := query.levels - 1)) else {}
  {
    forall k | k in tree
      ensures Selected(tree, folder, query, k) && tree[k][|folder|] == name <==>
              query.recursive && Selected(tree, folder + [name], query.(levels := query.levels - 1), k)
    {
      SelectedBelow(tree, folder, query, name, k);
    }
  }

  lemma SelectedBelow(tree: Tree, folder: seq<string>, query: Query, name: string, k: string)
    requires query.levels > 0 && k in tree && IsFolder(tree, folder, name)
    ensures Selected(tree, folder, query, k) && tree[k][|folder|] == name <==>
            query.recursive && Selected(tree, folder + [name], query.(levels := query.levels - 1), k)
  {
    UnderParts(folder, name, tree[k]);
    if tree[k] == folder + [name] {
      var q :| q in tree && Beyond(folder, name, tree[q]);
      assert IsFolderKey(tree, k);
    }
  }

  lemma AllListed(tree: Tree, folder: seq<string>, query: Query, names: set<string>)
    requires forall name :: name in names <==> HasEntry(tree, folder, name)
    ensures SelectionIn(tree, folder, query, names) == Selection(tree, folder, query)
  {
    forall k | k in tree && folder < tree[k] ensures tree[k][|folder|] in names {
      UnderParts(folder, tree[k][|folder|], tree[k]);
    }
  }

  /** The path that the scan joins for a file entry is that file's key. */
  lemma EntryPath(folder: seq<string>, name: string, key: string)
    requires AllPlain(folder) && Clean(key) == key && Parts(key) == folder + [name]
    ensures JoinPaths([Rendered(folder), name]) == key
  {
    PartsOfKey(key);
    assert name == Parts(key)[|folder|];
    if key == "." {
      assert name == "." && folder == [];
      DotEntry();
    } else {
      PlainEntry(folder, name);
    }
  }

  lemma DotEntry()
    ensures JoinPaths([Rendered([]), "."]) == "."
  {
    assert [".", "."][1..] == ["."];
    SegmentsOfConcat(".", ".");
    SegmentsOfRendered([]);
    UnifyIdentity(".");
    SplitWhole(".");
    assert ["."][1..] == [];
  }

  lemma PlainEntry(folder: seq<string>, name: string)
    requires AllPlain(folder) && Plain(name)
    ensures var path := JoinPaths([Rendered(folder), name]);
            path == Join(folder + [name]) && Segments(path) == folder + [name] && Clean(path) == path
  {
    var joined := Rendered(folder) + "/" + name;
    var parts := [Rendered(folder), name];
    assert parts[1..] == [name] && Join(parts) == joined;
    SegmentsOfConcat(Rendered(folder), name);
    SegmentsOfRendered(folder);
    UnifyIdentity(name);
    SplitWhole(name);
    assert [name][1..] == [];
    assert Segments(joined) == folder + [name];
    SegmentsOfRendered(folder + [name]);
  }

  lemma FileEntry(files: map<string, string>, folder: seq<string>, name: string) returns (key: string)
    requires Canonical(files) && AllPlain(folder)
    requires HasEntry(TreeOf(files), folder, name) && !IsFolder(TreeOf(files), folder, name)
    ensures key in files && TreeOf(files)[key] == folder + [name] && JoinPaths([Rendered(folder), name]) == key
    ensures ReadFile(files, key) == Some(files[key])
    ensures forall k :: k in files && TreeOf(files)[k] == TreeOf(files)[key] ==> k == key
  {
    var tree := TreeOf(files);
    key :| key in tree && Under(folder, name, tree[key]);
    assert !Beyond(folder, name, tree[key]);
    EntryPath(folder, name, key);
    forall k | k in files && tree[k] == tree[key] ensures k == key {
      PartsOfKey(k);
      PartsOfKey(key);
    }
  }

  lemma SubfolderPath(files: map<string, string>, folder: seq<string>, name: string)
    requires Canonical(files) && AllPlain(folder) && IsFolder(TreeOf(files), folder, name)
    ensures var path := JoinPaths([Rendered(folder), name]);
            Segments(path) == folder + [name] && Clean(path) == path
  {
    var tree := TreeOf(files);
    var q :| q in tree && Beyond(folder, name, tree[q]);
    PartsOfKey(q);
    UnderParts(folder, name, tree[q]);
    assert q != "." && tree[q][|folder|] == name;
    PlainEntry(folder, name);
  }

  /** A canonical folder of a canonical file map that is listed in order. */
  ghost predicate Located(files: map<string, string>, order: seq<string>, folder: string) {
    Canonical(files) && InOrder(files, order) && Clean(folder) == folder && AllPlain(Segments(folder))
  }

  /** What a scan of the folder is to load: the keys selected below it, with their texts. */
  ghost function Scanned(files: map<string, string>, folder: string, query: Query): map<string, string> {
    Restrict(files, Selection(TreeOf(files), Segments(folder), query))
  }

  method Scan(files: map<string, string>, order: seq<string>, folder: string, exts: seq<string>, recursive: bool,
              filemap: FileMap, depth: nat, ghost query: Query)
    requires Canonical(files) && InOrder(files, order) && Clean(folder) == folder
    requires depth <= MAX_SCAN_DEPTH + 1
    requires query == Query(exts, recursive, MAX_SCAN_DEPTH + 1 - depth)
    modifies filemap
    ensures filemap.entries == old(filemap.entries) + Scanned(files, folder, query)
    decreases MAX_SCAN_DEPTH + 1 - depth
  {
    ghost var tree, segments := TreeOf(files), Segments(folder);
    if depth > MAX_SCAN_DEPTH {
      NoLevels(tree, segments, query);
      return;
    }
    SegmentsArePlain(folder);
    var listed := ReadDir(files, order, folder);
    if listed.None? {
      AllListed(tree, segments, query, {});
      return;
    }
    ScanEntries(files, order, folder, exts, recursive, filemap, depth, listed.value);
  }

  /** The entries of one listing, in whatever order they are listed. */
  method ScanEntries(files: map<string, string>, order: seq<string>, folder: string, exts: seq<string>, recursive: bool,
                     filemap: FileMap, depth: nat, listing: map<string, bool>)
    requires Located(files, order, folder) && depth <= MAX_SCAN_DEPTH &&
             IsListing(TreeOf(files), Segments(folder), listing)
    modifies filemap
    ensures var query := Query(exts, recursive, MAX_SCAN_DEPTH + 1 - depth);
            filemap.entries == old(filemap.entries) + Restrict(files, Selection(TreeOf(files), Segments(folder), query))
    decreases MAX_SCAN_DEPTH + 1 - depth, 1
  {
    ghost var tree, segments := TreeOf(files), Segments(folder);
    ghost var query := Query(exts, recursive, MAX_SCAN_DEPTH + 1 - depth);
    ghost var before := filemap.entries;
    var todo := listing.Keys;
    ghost var done := {};
    NothingSelected(tree, segments, query, before, files);
    while todo != {}
      invariant todo <= listing.Keys && done == listing.Keys - todo
      invariant filemap.entries == before + Restrict(files, SelectionIn(tree, segments, query, done))
    {
      var name :| name in todo;
      OneTaken(listing.Keys, todo, done, name);
      ScanEntry(files, order, folder, exts, recursive, filemap, depth, name, listing[name], before, done);
      todo, done := todo - {name}, done + {name};
    }
    AllListed(tree, segments, query, done);
  }

  lemma OneTaken(all: set<string>, todo: set<string>, done: set<string>, name: string)
    requires name in todo && todo <= all && done == all - todo
    ensures name in all && name !in done && done + {name} == all - (todo - {name}) && todo - {name} <= all
  {
  }

  lemma NothingSelected(tree: Tree, folder: seq<string>, query: Query, before: map<string, string>,
                        files: map<string, string>)
    ensures before + Restrict(files, SelectionIn(tree, folder, query, {})) == before
  {
    assert SelectionIn(tree, folder, query, {}) == {};
  }

  ghost predicate IsListing(tree: Tree, folder: seq<string>, listing: map<string, bool>) {
    && (forall name :: name in listing <==> HasEntry(tree, folder, name))
    && forall name :: name in listing ==> (listing[name] <==> IsFolder(tree, folder, name))
  }

  lemma NoLevels(tree: Tree, folder: seq<string>, query: Query)
    requires query.levels == 0
    ensures Selection(tree, folder, query) == {}
  {
  }

  /** One entry of the listing: a folder is descended into, a file of a listed extension is loaded. */
  method ScanEntry(files: map<string, string>, order: seq<string>, folder: string, exts: seq<string>, recursive: bool,
                   filemap: FileMap, depth: nat, name: string, isDir: bool,
                   ghost before: map<string, string>, ghost done: set<string>)
    requires Located(files, order, folder) && depth <= MAX_SCAN_DEPTH && name !in done
    requires HasEntry(TreeOf(files), Segments(folder), name) &&
             (isDir <==> IsFolder(TreeOf(files), Segments(folder), name))
    requires var query := Query(exts, recursive, MAX_SCAN_DEPTH + 1 - depth);
             filemap.entries == before + Restrict(files, SelectionIn(TreeOf(files), Segments(folder), query, done))
    modifies filemap
    ensures var query := Query(exts, recursive, MAX_SCAN_DEPTH + 1 - depth);
            filemap.entries ==
            before + Restrict(files, SelectionIn(TreeOf(files), Segments(folder), query, done + {name}))
    decreases MAX_SCAN_DEPTH + 1 - depth, 0, 1
  {
    ghost var tree, segments := TreeOf(files), Segments(folder);
    ghost var query := Query(exts, recursive, MAX_SCAN_DEPTH + 1 - depth);
    ghost var selected := SelectionIn(tree, segments, query, done);
    ghost var more := SelectionIn(tree, segments, query, done + {name});
    if isDir {
      FolderStep(tree, segments, query, done, name);
      if recursive {
        ghost var below := Query(exts, recursive, MAX_SCAN_DEPTH - depth);
        assert query.(levels := query.levels - 1) == below;
        ScanSubfolder(files, order, folder, exts, recursive, filemap, depth, name);
        RestrictAdds(before, files, selected, Selection(tree, segments + [name], below));
      } else {
        assert more == selected;
      }
    } else {
      ScanFile(files, order, folder, exts, recursive, filemap, depth, name, before, done);
    }
  }

  method ScanFile(files: map<string, string>, order: seq<string>, folder: string, exts: seq<string>, recursive: bool,
                  filemap: FileMap, depth: nat, name: string,
                  ghost before: map<string, string>, ghost done: set<string>)
    requires Located(files, order, folder) && depth <= MAX_SCAN_DEPTH && name !in done
    requires HasEntry(TreeOf(files), Segments(folder), name) && !IsFolder(TreeOf(files), Segments(folder), name)
    requires var query := Query(exts, recursive, MAX_SCAN_DEPTH + 1 - depth);
             filemap.entries == before + Restrict(files, SelectionIn(TreeOf(files), Segments(folder), query, done))
    modifies filemap
    ensures var query := Query(exts, recursive, MAX_SCAN_DEPTH + 1 - depth);
            filemap.entries ==
            before + Restrict(files, SelectionIn(TreeOf(files), Segments(folder), query, done + {name}))
  {
    ghost var tree, segments := TreeOf(files), Segments(folder);
    ghost var query := Query(exts, recursive, MAX_SCAN_DEPTH + 1 - depth);
    ghost var selected := SelectionIn(tree, segments, query, done);
    ghost var more := SelectionIn(tree, segments, query, done + {name});
    ghost var key := FileEntry(files, segments, name);
    FileStep(tree, segments, query, done, name, key);
    if HasExtension(name, exts) {
      RestrictAddsOne(before, files, selected, key);
      LoadFile(files, folder, name, filemap, key);
    } else {
      assert more == selected;
    }
  }

  method ScanSubfolder(files: map<string, string>, order: seq<string>, folder: string, exts: seq<string>,
                       recursive: bool, filemap: FileMap, depth: nat, name: string)
    requires Located(files, order, folder) && depth <= MAX_SCAN_DEPTH && IsFolder(TreeOf(files), Segments(folder), name)
    modifies filemap
    ensures var query := Query(exts, recursive, MAX_SCAN_DEPTH - depth);
            filemap.entries ==
            old(filemap.entries) + Restrict(files, Selection(TreeOf(files), Segments(folder) + [name], query))
    decreases MAX_SCAN_DEPTH + 1 - depth, 0, 0
  {
    var full := SubfolderOf(files, folder, name);
    Scan(files, order, full, exts, recursive, filemap, depth + 1, Query(exts, recursive, MAX_SCAN_DEPTH - depth));
  }

  method SubfolderOf(files: map<string, string>, folder: string, name: string) returns (full: string)
    requires Canonical(files) && Clean(folder) == folder
    requires AllPlain(Segments(folder)) && IsFolder(TreeOf(files), Segments(folder), name)
    ensures Segments(full) == Segments(folder) + [name] && Clean(full) == full
  {
    SubfolderPath(files, Segments(folder), name);
    full := JoinPaths([folder, name]);
  }

  method LoadFile(files: map<string, string>, folder: string, name: string, filemap: FileMap, ghost key: string)
    requires key in files && Clean(folder) == folder && ReadFile(files, key) == Some(files[key])
    requires JoinPaths([Rendered(Segments(folder)), name]) == key
    modifies filemap
    ensures filemap.entries == old(filemap.entries)[key := files[key]]
  {
    var full := JoinPaths([folder, name]);
    var src := ReadFile(files, full);
    if src.Some? {
      filemap.entries := filemap.entries[full := src.value];
    }
  }

  // ----- the preload -----

  function Dotted(ext: string): string {
    if "." <= ext then ext else "." + ext
  }

  function Extensions(raw: seq<string>): seq<string> {
    if raw == [] then [".jsonic", ".json"] else seq(|raw|, i requires 0 <= i < |raw| => Dotted(raw[i]))
  }

  /** An extension fits a name that it ends. */
  lemma EndsWithIs(name: string, ext: string)
    ensures EndsWith(name, ext) <==> exists stem :: name == stem + ext
  {
    if EndsWith(name, ext) {
      assert name == name[..|name| - |ext|] + ext;
    }
  }

  /** Extensions are searched with a dot in front, whether or not they were given one; without any, two are. */
  lemma ExtensionsAre(raw: seq<string>, i: nat, rest: string)
    ensures i < |raw| && (raw[i] == "." + rest || (raw[i] == rest && (rest == "" || rest[0] != '.'))) ==>
              |Extensions(raw)| == |raw| && Extensions(raw)[i] == "." + rest
    ensures Extensions([]) == [".jsonic", ".json"]
  {
  }

  /** The keys that some folder of the list selects. */
  ghost function Preloaded(tree: Tree, folders: seq<string>, query: Query): set<string> {
    if folders == [] then {}
    else Preloaded(tree, folders[..|folders| - 1], query) + Selection(tree, Segments(folders[|folders| - 1]), query)
  }

  /** A preload is a filter of the file map: nothing else gets in, and nothing selected is missed. */
  method PreloadFilesWith(files: map<string, string>, order: seq<string>, folders: seq<string>, exts: seq<string>,
                          recursive: bool)
    returns (loaded: map<string, string>)
    requires Canonical(files) && InOrder(files, order)
    ensures var query := Query(Extensions(exts), recursive, 65);
            loaded == Restrict(files, Preloaded(TreeOf(files), folders, query))
  {
    var extensions := Extensions(exts);
    ghost var tree, query := TreeOf(files), Query(extensions, recursive, MAX_SCAN_DEPTH + 1);
    var filemap := new FileMap();
    for i := 0 to |folders|
      invariant filemap.entries == map[] + Restrict(files, Preloaded(tree, folders[..i], query))
    {
      ScanFolder(files, order, folders[i], extensions, recursive, filemap, query);
      PreloadStep(files, tree, folders, query, i);
    }
    assert folders[..|folders|] == folders;
    loaded := filemap.entries;
  }

  method ScanFolder(files: map<string, string>, order: seq<string>, folder: string, exts: seq<string>, recursive: bool,
                    filemap: FileMap, ghost query: Query)
    requires Canonical(files) && InOrder(files, order)
    requires query == Query(exts, recursive, MAX_SCAN_DEPTH + 1)
    modifies filemap
    ensures filemap.entries == old(filemap.entries) + Scanned(files, folder, query)
  {
    var key := CanonicalFolder(files, folder);
    Scan(files, order, key, exts, recursive, filemap, 0, query);
  }

  /** A folder in its canonical spelling, where a scan finds the same. */
  method CanonicalFolder(ghost files: map<string, string>, folder: string) returns (key: string)
    ensures Clean(key) == key && forall query :: Scanned(files, key, query) == Scanned(files, folder, query)
  {
    key := Clean(folder);
    KeyOfFolder(folder);
  }

  lemma KeyOfFolder(folder: string)
    ensures Clean(Clean(folder)) == Clean(folder) && Segments(Clean(folder)) == Segments(folder)
  {
    CleanIdempotent(folder);
    SegmentsOfClean(folder);
  }

  lemma PreloadStep(files: map<string, string>, tree: Tree, folders: seq<string>, query: Query, i: nat)
    requires i < |folders|
    ensures map[] + Restrict(files, Preloaded(tree, folders[..i + 1], query)) ==
            map[] + Restrict(files, Preloaded(tree, folders[..i], query)) +
            Restrict(files, Selection(tree, Segments(folders[i]), query))
  {
    assert folders[..i + 1][..i] == folders[..i];
    RestrictAdds(map[], files, Preloaded(tree, folders[..i], query), Selection(tree, Segments(folders[i]), query));
  }
}
