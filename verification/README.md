# Verification of multisource

A Dafny model of the include-expansion engine of `multisource` and of the algorithms it rests on,
with proofs. The Rust port is the main text; the Go port and the tools are followed where they hold
the algorithm or differ from it.

`dafny verify dfyconfig.toml` checks everything.

## How it is laid out

| files | what they model |
|---|---|
| `Common.dfy` | options, duplicate-free sequences |
| `Values.dfy`, `Entries.dfy` | insertion-ordered maps and lists, deep merge, splice; what one pair, one splice and one processor entry do |
| `Numbers.dfy`, `Notation.dfy`, `Rerender.dfy`, `Collision.dfy` | the number layout of section 6.1.6.1.20 of ECMA-262 in its two ports, a decimal reader, the forms a number is written in, the second rendering that precedes the layout, and the floats it fails on |
| `References.dfy`, `Lookups.dfy` | reference coercion, path specs, candidates, the map resolver; what the map and file resolvers find, told by the files there are |
| `Expand.dfy`, `ExpandGraph.dfy`, `Dependencies.dfy`, `Diagnostics.dfy`, `Loads.dfy`, `Meaning.dfy` | the recursive evaluator; success as a property of the reference graph; the dependency record; the truth of error reports; the loads of a run; expansion as substitution |
| `Engine.dfy` | the action as it runs, with its slot table, its dependency map and the node cells it writes; each access to the slots is a step of the protocol in `Tickets.dfy` |
| `Tickets.dfy`, `Segments.dfy` | the report slots under every interleaving of parses; the threads a chain of sources is parsed on |
| `Vfs.dfy`, `MapFs.dfy`, `Preload.dfy` | normalisation, containment, the in-memory filesystem, the recursive scan |
| `FileResolver.dfy`, `Emptied.dfy`, `PkgResolver.dfy`, `Packages.dfy`, `Sources.dfy`, `Standalone.dfy`, `PkgSources.dfy` | the resolvers, what a package comes to, confinement, preload transparency, and all of them as environments of the evaluator |
| `GoPort.dfy`, `Ports.dfy`, `PortRuns.dfy`, `PortSplits.dfy` | the Go port with its map resolver; where each of its pieces agrees with the Rust one; whole expansions side by side; the inputs on which they part |
| `UnsafeWalk.dfy`, `UnsafeChains.dfy`, `Registry.dfy` | the C library's walk over cyclic values, what it finds told by chains of values, and its handle registry under concurrency |
| `Toml.dfy`, `TomlLaws.dfy`, `TomlAccepts.dfy`, `TomlHeaders.dfy`, `TomlRuns.dfy`, `TomlReader.dfy` | the TOML table machine, which values, keys and headers it accepts, its laws over whole documents, and the machine as it runs |
| `Edits.dfy` | the joined comment text with its position map, and descending edits |

A source is an already parsed document: maps of pairs and splices, lists, scalars, references in
value or pair position, and the place where a parser gives up (`Doc.Fault`). What the model cannot
see is a parameter of `Expand.Env`: the resolver, the grammar, the processor table, the cap and the
merge mode. Termination needs no parameter: it is proved on the set of sources that are not
ancestors, which also covers the Go port, where there is no cap.

Algorithms that work by changing things step by step are methods over classes, arrays or loops,
each proved equal to a specification function; the properties are then lemmas about those
functions. Concurrent protocols are state machines with one action for each atomic step, and their
theorems quantify over every run.

## What the proofs found

- `deep_merge` is associative on more triples than "the middle value is of the same family": where
  the last value already covers what the first held, the middle one does no harm.
  `Values.MergeAssociative` gives the exact condition, `Values.NullBetweenMaps` an input that fails.
- The dependency record can have a cycle after all: a map resolver may serve a source whose key is
  spelled like the `TOP` marker. `Dependencies.DependenciesAcyclic` says that this is the only way,
  `Sources.TopCanBeASource` is the input.
- Two floats can have one name. `format_number` keeps only the length of the shortest digits and renders
  again at that length; at 2^863 the second rendering is no longer inside the interval that reads back
  as the number, and is the name of the float before it (`Collision.NeighboursShareAName`). That takes
  a float which is not in the middle of its interval, a power of two: `Rerender.SharedNameIsUneven`.
- The Go layout keeps trailing zeros that the Rust one strips. `Numbers.PortsAgree` gives the exact
  condition, and the second rendering does supply such a zero: the two ports name 2^863 differently
  (`Collision.PortsNameBigApart`).
- The two ports are written to expand alike, and part on a bare number or flag as a reference, a number
  like 2^863, a key that ends in a separator, a key whose last dot stands before its last backslash, a
  spliced value that is no map, and a chain past the cap, which Go does not have: `PortSplits.dfy` has a
  run that parts for each. `Ports.dfy` gives the exact condition of each step, and
  `PortRuns.PortsExpandAlike` proves that under them no run parts.
- Without its filesystem a full preload still serves every expansion, unless the configured base names
  a file in another spelling than its key: `Standalone.FilesystemMayGo`, both directions.
- A preload is a filter of the file map for every map, not only for maps without a key that is a
  folder of another key: such a key is listed as a folder, and the filter says so.
- The TOML machine lets a dotted key add to a table that a header made, which TOML refuses
  (`TomlRuns.DottedKeyIntoHeaderTable`). `TomlRuns.SetAccepted` says exactly when a key is accepted;
  what was set is still never changed or removed.

## Model

| member | source | states |
|---|---|---|
| `ExpandGraph.SuccessIffAcyclic` | rs/src/lib.rs:1282-1366 | With a cap no smaller than the set of sources (or none), expansion of any document succeeds if and only if every document it reaches is sound and no source it reaches can reach itself. A source reached on two branches is no cycle. |
| `ExpandGraph.SuccessIffClear` | rs/src/lib.rs:1325-1366 | The exact condition with no assumption on the cap or on the ancestors: expansion below a context succeeds if and only if every walk along references meets only sound documents, never a source twice nor an ancestor, and stays inside the cap. |
| `ExpandGraph.DepthNeverRaised` | rs/src/lib.rs:1353-1366 | With room for every source the depth error is never the one reported. |
| `ExpandGraph.EdgesAreTheGraph` | rs/src/lib.rs:1368-1380 | Whatever the outcome, only edges of the reference graph are recorded; on success an edge is recorded if and only if it is one. |
| `Dependencies.SuccessRecordsGraph` | rs/src/lib.rs:1368-1380 | On success the whole record is the reachable reference graph, keyed from `TOP`: an independent definition by walks, both directions. |
| `Dependencies.DependenciesAcyclic` | rs/src/lib.rs:1368-1380 | On success no path along the record meets a name twice, if and only if no source reached is itself named like the `TOP` key (a map key may be spelled so). |
| `Sources.TopCanBeASource` | rs/src/lib.rs:1368-1380 | The failing input: a map with an empty source named like `TOP`, included by the document, succeeds and records an edge from `TOP` to `TOP`. |
| `Dependencies.DependenciesRooted` | rs/src/lib.rs:1368-1380 | On success every recorded edge ends a path of recorded edges that begins at `TOP`. |
| `Loads.EveryLoadIsATrail` | rs/src/lib.rs:1325-1366 | At every load a top-level run performs, whether the run succeeds or fails later, the ancestor chain is a walk of the reference graph, free of repetition and within the cap. |
| `Loads.EdgesAreLoads` | rs/src/lib.rs:1368-1380 | Whether a run succeeds or fails, the edges it records are exactly those of the loads it performs, in order and up to the first failure. |
| `Diagnostics.LoopCloses` | rs/src/lib.rs:1335-1351 | The reported loop is the tail of the ancestor chain from the repeated source on, starts and ends with it, and repeats nothing else. |
| `Diagnostics.DiagnosticsAreTrue` | rs/src/lib.rs:1286-1366 | What a failed top-level expansion reports is true of the document: a missing source is missed at the end of a real walk with the search list its resolver gave, a cycle is a real and simple one, a depth error has a walk that long, a grammar error stands in a document that is reached. |
| `Meaning.FewerAncestors` | go/plugin.go:359-434 | A success under some ancestors is the same success under fewer: value and outcome do not depend on the chain or the depth. |
| `Meaning.ValueOfKeyAlone` | rs/src/lib.rs:1325-1441 | A source that expands below any ancestors at any depth yields its closed value, so two branches that share a source get the same value. |
| `Meaning.ExpansionIsSubstitution` | rs/src/lib.rs:1425-1441 | A successful expansion is its document with each reference, in value or pair position, replaced by the closed value of the source it names. |
| `Meaning.ClosedValuesSolve` | rs/src/lib.rs:1383-1441 | The closed values satisfy, at every source reached, the equation "value = document with references substituted". |
| `Meaning.SolutionIsUnique` | rs/src/lib.rs:1383-1441 | Those equations have no other solution as far as the document can see. |
| `Sources.MapExpansion` | rs/src/resolver.rs:103-134 | The graph theorem for the built-in map resolver, with its whole map as the finite set of sources, and the depth error excluded. |
| `Sources.FileExpansion` | rs/src/resolver.rs:292-369 | The same through the file resolver over any in-memory filesystem, under any root and from any base. |
| `PkgSources.PackageExpansion` | rs/src/resolver.rs:481-566 | The same through the package resolver over any in-memory filesystem. |
| `Engine.LastReport.Take` | rs/src/lib.rs:832-840 | Taking a slot frees it either way, yields the report only if its code is the one asked for, and is the take step of the protocol. |
| `Engine.DependencySink.Insert` | rs/src/lib.rs:1368-1380 | One edge is added to the nested dependency map and none is lost. |
| `Engine.Session.DirectiveAction` | rs/src/lib.rs:1267-1441 | The action as it runs, with its shared slot table and shared dependency map, has the outcome of the recursive specification, adds exactly its edges, changes no slot but that of the enclosing load, and touches the slots by protocol steps of its own parse only. |
| `Engine.Session.LoadSource` | rs/src/lib.rs:1368-1431 | Mint, nest, take or discard: the nested report comes back through its own slot unchanged, and the slot is gone afterwards. |
| `Engine.Session.Parse` | rs/src/lib.rs:1267-1441 | A top-level parse has the specified outcome, adds exactly the specified edges to what the sink held, and starting among any number of parses under way, leaves their frames and every slot as they were. |
| `Tickets.InvAlways` | rs/src/lib.rs:811-847 | The protocol invariant (tickets minted, distinct and owned; a slot only for a parse that is raising; frames consistent with what was first raised) in every state of every interleaving. |
| `Tickets.TableIsClean` | rs/src/lib.rs:811-847 | In every interleaving live tickets are distinct, and the table is empty when no parse is left. |
| `Tickets.ReportsComeHome` | rs/src/lib.rs:1405-1428 | In every interleaving the report that an enclosing load takes and raises again is the one first raised inside its own nested parse. |
| `Tickets.OriginIsFinal` | rs/src/lib.rs:1405-1431 | What a parse first raised does not change through any number of levels until the parse ends. |
| `Tickets.CallerReadsTheOrigin` | rs/src/lib.rs:1244-1265 | The caller of a parse is given the report first raised in it, from whatever depth. |
| `Segments.StacksStayShallow` | rs/src/processor.rs:71-85 | At every moment of every run of entering and leaving sources: no thread holds more than two parse frames, all frames are accounted for, a chain of n sources has n / 2 segment threads, and the depth cap bounds them by half of itself. |
| `Segments.DepthDecides` | rs/src/processor.rs:71-120 | The threads and what is on them are a function of the current depth alone, whatever was parsed before. |
| `Values.DeepMerge` | rs/src/lib.rs:1540-1608 | The in-place merge computes the pointwise specification. |
| `Values.MergeEntries` | rs/src/lib.rs:1543-1551 | The entry loop: base keys in order, then the new unfiltered keys of the overlay in order, each key holding the merge of both sides. |
| `Values.MergeItems` | rs/src/lib.rs:1553-1562 | The item loop, index by index, with the longer list deciding the length. |
| `Values.MergeValid` | rs/src/lib.rs:1540-1608 | Merging keeps maps well formed: the key order lists each key once and only keys that are there. |
| `Values.MergeAssociative` | rs/src/lib.rs:1540-1608 | Merge is associative on exactly the regular triples: at no merged path do the outer values share a container family while the middle one is defined and outside it, unless the last already covers the first there. Both directions. |
| `Values.NullBetweenMaps` | rs/src/lib.rs:1540-1608 | The failing input: a null between two maps is not regular, and the two groupings differ. |
| `Values.MergeYieldsOverlay` | rs/src/lib.rs:1540-1608 | A merge yields its overlay if and only if the overlay covers the base: order, wrapper and every merged path. |
| `Values.MergeIdempotent` | rs/src/lib.rs:1540-1608 | merge(a, a) = a at every depth. |
| `Values.MergeAbsorbs` | rs/src/lib.rs:1540-1608 | merge(merge(a, b), b) = merge(a, b): splicing a source twice is splicing it once. |
| `Values.Cell.SpliceInto` | rs/src/lib.rs:1460-1505 | Both ways of writing a loaded value into the enclosing node, deep merge and per-key overwrite, through the shared cell. |
| `Values.AssignEntries` | rs/src/lib.rs:1484-1505 | The overwrite loop: old keys keep their place, new ones follow in order, the later value wins. |
| `Values.SpliceValid` | rs/src/lib.rs:1460-1505 | Splicing either way keeps the enclosing node well formed, whatever the two values are. |
| `Entries.PairEntry` | rs/src/lib.rs:1460-1505 | A pair is written under its own key alone: merged onto what was there when maps extend, over it when not; a new key goes last. |
| `Entries.SpliceEntry` | rs/src/lib.rs:1460-1505 | A spliced map meets the enclosing one key by key: the later value wins, or both merge, and when maps extend the three prototype keys never cross. |
| `Entries.LastPairWins` | rs/src/lib.rs:1460-1505 | Of equal keys in a document the last one has its value in the result when maps are overwritten. |
| `Entries.EqualKeysMerge` | rs/src/lib.rs:1460-1505 | When maps extend, two values under one key are merged in the order they are written. |
| `Entries.RegisteredServes` | rs/src/lib.rs:477-500 | A kind is served by what is registered for it, directly or through one alias. |
| `Entries.RestFallsBack` | rs/src/lib.rs:477-500 | No entry, an alias to nothing and an alias to an alias all come to the processor of the empty kind. |
| `Entries.BuiltInKinds` | rs/src/lib.rs:502-528 | With the default table two kinds are parsed and every other one is text. |
| `Entries.LoadsByKind` | rs/src/lib.rs:1383-1441 | What a source comes to by the processor that serves its kind: its text, the run of its document, or nothing when no processor does. |
| `Numbers.LayoutDenotes` | go/number.go:97-121 | Layout then decimal reading is the identity on every digit string and every exponent. |
| `Numbers.TrimKeepsValue` | rs/src/lib.rs:1193-1200 | Stripping trailing zeros changes no value. |
| `Numbers.RenderingsDenote` | rs/src/lib.rs:1159-1230 | In both ports the text is the sign and a literal that denotes the number rendered. |
| `Numbers.PortsAgree` | go/number.go:63-127 | The Rust and the Go text are the same if and only if the digits end in no zero, or the layout is integral. |
| `Numbers.NumbersNameSources` | rs/src/lib.rs:1195-1230 | Two renderings name the same source if and only if they are the same rendered decimal, the special values included. |
| `Notation.ExponentWhenFar` | go/number.go:97-121 | A number is written with an exponent if and only if it is below 10^-6 or not below 10^21 in size, and the exponent carries its sign, a plus included. |
| `Notation.NearForms` | go/number.go:97-121 | Any other number is its digits followed by zeros, with a point among them, or after a zero, a point and zeros. |
| `Notation.SpecialNames` | go/number.go:63-79 | The special values have the same names in both ports; zero loses its sign and infinity keeps it. |
| `Rerender.NamesTellApart` | rs/src/lib.rs:1184-1230 | Over any second rendering, names tell floats apart if and only if that rendering does. |
| `Rerender.EvenReadsBack` | rs/src/lib.rs:1174-1230 | A rendering that no decimal of its length is nearer than reads back, when its length is the shortest that can and the float is in the middle of its read-back interval: the guard, a property of the float alone. |
| `Rerender.SharedNameIsUneven` | rs/src/lib.rs:1174-1230 | Two floats so rendered share a name only if one of them is not in the middle of its own read-back interval, which of the finite floats only the powers of two are not. |
| `Rerender.ReadBackNamesApart` | rs/src/lib.rs:1184-1230 | Two floats whose second rendering still reads back as each of them have different names. |
| `Rerender.NearestIsHalfAway` | rs/src/lib.rs:1174-1230 | A decimal that none of its length is nearer than is at most half a unit of its last digit away; `Rerender.HalfAwayIsNearest` is the converse. |
| `Collision.NeighboursShareAName` | rs/src/lib.rs:1174-1230 | However 2^863 and the float before it are correctly rounded to 16 and 15 digits, both come out as one decimal with one name, which does not read back as 2^863. |
| `Collision.TwoFloatsOneName` | rs/src/lib.rs:1174-1230 | Such renderings exist, 16 and 15 are the shortest lengths that read back as the two, and of the two intervals only that of 2^863 is uneven. |
| `Collision.PortsNameBigApart` | go/number.go:63-127 | The failing input of the agreement: however 2^863 is correctly rounded to its 16 digits, the last one is a zero that the Go text keeps and the Rust text drops. |
| `References.BuildPotentials` | rs/src/lib.rs:602-631 | The candidate list of a path, built by its two loops. |
| `Lookups.PotentialsAre` | rs/src/lib.rs:602-631 | What is in the list and where, in both ports: the path alone if its last segment has a dot; else the path, each extension in the order given, each plain index file, each index file with the name of the folder. |
| `References.MapResolver.ResolveByLoop` | rs/src/resolver.rs:103-134 | The map resolver: what it finds is the first candidate in the map, and what it misses carries every candidate. |
| `References.FirstIsFirst` | rs/src/resolver.rs:118-131 | The hit is at a place in the candidate list before which nothing loads, and there is none only if nothing loads at all. |
| `Lookups.MapFinds` | rs/src/resolver.rs:103-134 | Both map resolvers, told by the keys alone: the path itself, else the first extension in order that makes a key, else the first plain index file, else the first index file with the name of the folder. |
| `Lookups.MapSearches` | rs/src/resolver.rs:103-134 | Hit or miss, in both ports, the search list is the whole candidate list, and a reference is found if and only if something in it is a key. |
| `Lookups.FolderOfSource` | rs/src/lib.rs:639-646 | The folder of a source is what stands before the last separator and its name, in both ports; a source with none has no folder, and one at the top has the separator. |
| `Lookups.BesideSource` | rs/src/resolver.rs:26-43 | A reference in a source is looked for in the folder of that source, one in the document from the base. |
| `GoPort.GoBuildPotentials` | go/multisource.go:433-464 | The Go candidate list, built by its loops. |
| `GoPort.GoLookUpByLoop` | go/multisource.go:172-194 | The Go map resolver: the first candidate in the map, with its own kind, and every candidate in the search list. |
| `GoPort.MergeIntoParent` | go/plugin.go:243-268 | The Go splice, key by key in place, against its specification: nothing unless both are maps, and no key passed over. |
| `Ports.KindsAgree` | go/multisource.go:466-472 | The two ports read one kind off a path if and only if its last segment has a dot or nothing after its last slash has one. |
| `Ports.SourceDirsAgree` | rs/src/lib.rs:639-646 | The Rust and the Go folder of a source are the same if and only if its path does not end in a separator, though the Rust comment calls one the mirror of the other. |
| `Ports.PortsResolveAlike` | go/multisource.go:172-218 | Kind apart, a reference comes to the same in both map resolvers (hit, path, text and search list) if and only if it is empty or rooted, or the source it stands in has no trailing separator, or, in the document itself, the configured base is no key. |
| `Ports.PortsKindAlike` | go/multisource.go:466-472 | Where it does, the kind is the same if and only if the kinds of the path it comes to agree. |
| `Ports.CoercionsAgree` | go/number.go:28-47 | One reference is read off a directive body in both ports if and only if the body is no bare number or flag, its `path` no list or object that is written out as anything, and no number that the ports lay out differently. |
| `Ports.SplicesAgree` | go/plugin.go:243-268 | The key-by-key Go splice equals the deep merge of the Rust port if and only if maps are not extended, the value is undefined, or it is a map none of whose prototype keys would have shown. |
| `PortRuns.PortsExpandAlike` | go/plugin.go:359-434 | Every portable document expands alike in both ports, through any nesting: one value and one set of edges, or failures with one code: the very same report where the failure is the document's own, and the code alone where it is a source's. The conditions are on the sources and settings: folders, processed documents, names and splices alike as above, and room under the cap. |
| `PortRuns.FailureIsBlamed` | go/plugin.go:98-116 | A failure that the Go port raises again is put to a reference of the document at hand, to a source that is found, is no ancestor, and does fail. |
| `PortRuns.BuiltInsProcessAlike` | go/multisource.go:298-309 | With the built-in processor tables, a source whose kinds agree is processed alike if and only if it is not an empty one to be parsed, or an empty text parses to what Go takes for one. |
| `PortRuns.CallTablesAlike` | go/multisource.go:423-431 | Processor tables without aliases serve every kind alike in both ports if they have an entry for the empty kind; without it, an unknown kind has no processor in the one and is text in the other. |
| `PortSplits.NameSplitsPorts` | go/plugin.go:66-80 | For every body that is not named alike there is a source that one port finds and the other does not: a whole run that parts. |
| `PortSplits.NumberSplitsPorts` | go/number.go:63-127 | 2^863 as a `path` is such a body, however it is correctly rounded. |
| `PortSplits.KindSplitsPorts` | go/multisource.go:466-472 | A key with a dot before its last backslash: two successful runs with different values. |
| `PortSplits.FolderKeySplitsPorts` | go/plugin.go:473-482 | A key that ends in a separator: two successful runs with different values. |
| `PortSplits.CapSplitsPorts` | go/plugin.go:376-400 | A cap without room fails the run in the one port and not in the other. |
| `PortSplits.SpliceSplitsPorts` | go/plugin.go:243-251 | A text spliced into a map takes its place in the one port and is left out in the other. |
| `Vfs.CleanByStack` | rs/src/vfs.rs:329-349 | The stack normaliser computes the canonical form. |
| `Vfs.DotDotGoesUp` | rs/src/vfs.rs:329-349 | On strings: clean(a/name/../b) = clean(a/b) for any plain name. |
| `Vfs.DotDotStopsAtTop` | rs/src/vfs.rs:329-349 | clean(../b) = clean(b). |
| `Vfs.DotStays` | rs/src/vfs.rs:329-349 | A `.` or an empty segment changes nothing, wherever it stands. |
| `Vfs.SlashesAtEnds` | rs/src/vfs.rs:329-349 | Neither does a slash in front or behind. |
| `Vfs.BackslashSeparates` | rs/src/vfs.rs:329-349 | A backslash separates as a slash does. |
| `Vfs.PlainStays` | rs/src/vfs.rs:329-349 | Plain segments joined by slashes are their own canonical form. |
| `Vfs.CleanIdempotent` | rs/src/vfs.rs:329-349 | Normalising twice is normalising once. |
| `Vfs.SegmentsArePlain` | rs/src/vfs.rs:329-349 | A normalised path has no empty, `.` or `..` segment. |
| `Vfs.CleanIsCanonical` | rs/src/vfs.rs:329-349 | Two paths have one canonical form if and only if they come down to the same segments. |
| `Vfs.CleanPrefixFirst` | rs/src/vfs.rs:329-349 | clean(a/b) = clean(clean(a)/b). |
| `Vfs.WithinRootBySegments` | rs/src/vfs.rs:387-412 | The string comparison holds if and only if the segments of the root are a prefix of those of the candidate. |
| `MapFs.Store.Insert` | rs/src/vfs.rs:226-231 | One file goes in under every spelling of its path and every other path reads as before. |
| `MapFs.DirDropsLast` | rs/src/vfs.rs:312-319 | The parent of a path is its segments but the last; the root is its own parent. |
| `Preload.ReadDir` | rs/src/vfs.rs:273-306 | The one-pass listing names exactly the first segments below the folder and says of each whether it is a folder; a folder other than the root with nothing below it is not there. |
| `Preload.Scan` | rs/src/preload.rs:117-148 | The recursive scan adds exactly the selected keys below the folder, down to the level cap. |
| `Preload.PreloadFilesWith` | rs/src/preload.rs:93-148 | A preload is a filter of the file map, for every map, folder-shaped and `.` keys included: nothing else gets in and nothing selected is missed. |
| `Preload.EndsWithIs` | rs/src/preload.rs:117-148 | A name fits an extension if and only if it ends in it. |
| `Preload.ExtensionsAre` | rs/src/preload.rs:57-72 | Every extension is searched with a dot in front, given or not; without any, the two built-in ones are. |
| `FileResolver.FileResolver.ResolveByLoop` | rs/src/resolver.rs:292-369 | The file resolver with its candidates, its climb through `node_modules` and its search list, against its specification. |
| `Lookups.LinkedClimbs` | rs/src/resolver.rs:329-348 | Over an in-memory filesystem, from any base below the top, the linked candidates are the reference in the `node_modules` of the base and of each folder above it, nearest first, seven at most. |
| `Lookups.LinkedAtTop` | rs/src/resolver.rs:329-348 | From the top itself there are two, and they are the same. |
| `Lookups.FileFinds` | rs/src/resolver.rs:292-369 | What the file resolver finds, told by what loads: the path itself, else the nearest linked package, else, for a path without a dot, the extensions and index files in their order. |
| `Lookups.FileSearches` | rs/src/resolver.rs:292-369 | The search list is the path alone when it loads, else the path, the linked packages and what the path implies; found if and only if something in it loads. |
| `FileResolver.FoundIsConfined` | rs/src/resolver.rs:262-290 | With a root set, everything found, preloaded or read, lies at or below the root by whole segments. |
| `Lookups.RootDecides` | rs/src/resolver.rs:239-290 | Over any filesystem, a file is served if and only if it is preloaded or there, and under a root only with a real path within the real path of the root; a dangling link is refused, preloaded or not. |
| `Lookups.FoundIsReal` | rs/src/resolver.rs:262-290 | So whatever the file resolver finds under a root has a real path within it. |
| `FileResolver.AgreeingPreloadIsTransparent` | rs/src/resolver.rs:239-247 | A preload that agrees with the filesystem changes no resolution and no search list, for every root, reference and context. |
| `Standalone.AnyPreloadIsTransparent` | rs/src/resolver.rs:239-247 | Over any in-memory filesystem, under any root and whatever keys are preloaded in whatever spelling, a preload is transparent if and only if its canonical entries that the root lets through are what the filesystem holds and no entry is taken for a file the filesystem does not have. |
| `FileResolver.CanonicalIsNameable` | rs/src/resolver.rs:292-330 | Every canonical path can be named by some reference: what makes a false entry show. |
| `Emptied.PotentialsCanonical` | rs/src/lib.rs:607-631 | A canonical path implies only canonical candidates, when no extension holds a separator. |
| `Emptied.FoundIsAKey` | rs/src/resolver.rs:239-247 | What is found over an in-memory filesystem is one of its keys, under its canonical spelling, with the text of that key. |
| `Emptied.EmptiedFilesystemResolves` | rs/src/resolver.rs:239-247 | With the whole map preloaded, emptying the filesystem changes no resolution and no search list, if and only if the place the reference is found in names a file as its key is spelt, or names none. |
| `Standalone.AloneIffCovers` | rs/src/resolver.rs:292-369 | Some of the files in place of all: every expansion runs to the same end (value, error, report and edges) if and only if every file that the root lets through is among them, and the configured base is a file to both or to neither, or is the top of the tree. |
| `Standalone.FilesystemMayGo` | rs/src/resolver.rs:239-247 | With every file preloaded, whole expansions need no filesystem, if and only if the configured base names a file as its key is spelt, names none, or is the top of the tree. |
| `Standalone.ScanStandsIn` | rs/src/preload.rs:93-148 | The same of a preload as a scan makes it: beside its filesystem it is never noticed, and in its place it does if and only if the folders listed select every file that the root lets through, with the same condition on the base. |
| `Sources.SameRun` | rs/src/lib.rs:1267-1441 | Two environments whose resolvers agree, but for the folder resolved against, on every source that can be reached run alike, to the same end. |
| `PkgResolver.TryIsFirst` | rs/src/resolver.rs:590-614 | Trying probes in order hits the first candidate that loads, and the search list is exactly the paths tried. |
| `PkgResolver.ResolveInPkgDir` | rs/src/resolver.rs:569-615 | The tries in one package folder, with its loops, against their specification. |
| `Packages.FolderYields` | rs/src/resolver.rs:569-615 | A folder yields a hit if and only if that is the first loading candidate that is no index file; or, none loading, the first loading candidate of the declared main; or, none loading either, the first loading index file. |
| `Packages.IndexInside` | rs/src/resolver.rs:617-624 | An index file is the target, a separator, and a name that starts with `index.`. |
| `Packages.FolderSearches` | rs/src/resolver.rs:569-640 | A folder that yields nothing has been searched in this order: the target with its extensions, the manifest, the candidates of the declared main, the index files; when every extension starts with a dot. |
| `PkgResolver.PkgResolver.ResolveByLoop` | rs/src/resolver.rs:481-566 | The package resolver with its loops over roots, ancestors and folders seen, against its specification. |
| `PkgResolver.PackageResolution` | rs/src/resolver.rs:538-566 | A package reference resolves to the first probe that loads along the deduplicated, capped walk; found or not, the search list is exactly the paths tried in order. |
| `Packages.PackageFinds` | rs/src/resolver.rs:538-566 | A package reference comes to what the first `node_modules` folder of the walk that offers anything offers. |
| `Packages.PackageMisses` | rs/src/resolver.rs:530-566 | It is missed when no folder of the walk from any listed folder (or from the top, when none is listed) offers anything. |
| `Packages.WalkGoesUp` | rs/src/resolver.rs:458-479 | Over an in-memory filesystem the walk from a start visits the `node_modules` of that folder and of each folder above it, nearest first, 65 at most. |
| `Packages.RelativeByFirstSegment` | rs/src/resolver.rs:448-455 | A reference is relative if and only if its first segment is one dot or two, before either separator. |
| `Packages.RelativeFinds` | rs/src/resolver.rs:506-528 | A relative one is found beside its source, as in a map, by its canonical path. |
| `PkgResolver.PackageIsConfined` | rs/src/resolver.rs:481-510 | With a root set, everything the package resolver finds lies at or below it. |
| `Lookups.RootDecidesPackage` | rs/src/resolver.rs:262-290 | The same test decides what the package resolver loads. |
| `PkgSources.PackageIsAKey` | rs/src/resolver.rs:481-566 | What the package resolver finds over an in-memory filesystem is one of its keys, with the text of that key. |
| `PkgResolver.PartitionAtIndex` | rs/src/resolver.rs:586-589 | When every extension starts with a dot the partition cuts the candidate list exactly where the index files begin. |
| `PkgResolver.UnseenOnce` | rs/src/resolver.rs:538-548 | Each `node_modules` folder is searched once, and none is left out. |
| `PkgResolver.AncestorsArePrefixes` | rs/src/resolver.rs:458-479 | Over an in-memory filesystem the ancestors of a folder are its prefixes, longest first, up to the cap. |
| `UnsafeChains.JsonUnsafe` | go/clib/core.go:323-341 | The check ends on every finite graph, cyclic ones included. It passes a value if and only if no chain of values held by values, from it down, comes back to a container it has passed or ends in a bad string, key, raw fragment or big number; any other answer is shown by such a chain, and is the first in order. |
| `UnsafeChains.FineIffSafe` | go/clib/core.go:343-503 | The same of the walk, where what a value holds (what is boxed, array items, emitted fields, pair values, elements, what is pointed at) is a relation that the walk has no part in. |
| `UnsafeChains.ItemsInOrder` | go/clib/core.go:470-503 | Items and emitted fields are judged in their order: the verdict is that of the first that is not fine. |
| `UnsafeChains.PairsInOrder` | go/clib/core.go:438-468 | Pairs are judged in the order they are emitted, each by its key before its value. |
| `UnsafeWalk.Walk.Container` | go/clib/core.go:385-419 | A container is refused only if it is on the path, and the path is restored on return, so shared acyclic parts are never called cycles. |
| `UnsafeWalk.Walk.Entries` | go/clib/core.go:438-468 | Keys and values of a map in the order they are emitted, with the first failure reported and the path restored. |
| `UnsafeWalk.FineIffUnfolds` | go/clib/core.go:343-503 | No reason is given if and only if the value unfolds to a finite tree in which nothing is bad. |
| `UnsafeWalk.VerdictIsTrue` | go/clib/core.go:343-503 | Each reason given is true: there is a way down that comes round to itself, or to such a string, or to such a number. |
| `Registry.OneParseAtATime` | go/clib/core.go:240-250 | In every interleaving of load, parse and free, at most one parse runs per instance. |
| `Registry.Table.LoadGrammar` | go/clib/core.go:200-205 | The critical section of a load carries out the load action and hands out the issued handle. |
| `Registry.Table.LookUp` | go/clib/core.go:240-246 | The critical section of a lookup carries out the lookup action: an instance, or the refusal. |
| `Registry.Table.FreeGrammar` | go/clib/core.go:514-518 | The critical section of a free carries out the free action. |
| `Registry.HandlesAreFresh` | go/clib/core.go:200-205 | No two loads are given the same handle, whatever was freed between them. |
| `Registry.RefusedIffNotInUse` | go/clib/core.go:240-246 | A call is refused at its lookup if and only if no load of its handle stands: none came before, or a free came since. |
| `Registry.FreedStaysRefused` | go/clib/core.go:514-518 | Once an issued handle is freed, every later lookup is refused, however often it is freed again. |
| `TomlReader.Reader.Assign` | tools/port-deps.cjs:367-382 | The walk down a key and the setting of its last part, in place. |
| `TomlReader.Reader.ReadHeader` | tools/port-deps.cjs:434-474 | A header: the walk that makes tables on the way, and the table that becomes current. |
| `TomlHeaders.HeaderAccepted` | tools/port-deps.cjs:434-474 | A header is accepted if and only if whatever stands at a part of its name leads on through an open table, or the last item of an array of tables, and what stands at its whole name, if anything, is an array of tables for `[[x]]`, a table with no header and no key made through it for `[x]`. |
| `TomlReader.Reader.ReadPairs` | tools/port-deps.cjs:401-417 | An inline table, filled pair by pair before anything refers to it. |
| `TomlReader.Reader.ReadDocument` | tools/port-deps.cjs:476-489 | A document is accepted if and only if it has a run through all its statements, and is left as that run ends. |
| `TomlRuns.AcceptedIsDocument` | tools/port-deps.cjs:476-489 | Acceptance with a given outcome is the existence of a run that ends there: what the laws over runs say holds of every document the reader accepts. |
| `TomlRuns.AppendOnly` | tools/port-deps.cjs:367-474 | Over any accepted statements, what is at a path stays there, the same node with all it had; and a scalar, an array or an inline table gains nothing at any depth. |
| `TomlRuns.NothingIsLost` | tools/port-deps.cjs:367-382 | A key is set only where nothing was, and from then on its value is at its own full path, exactly as written: nothing missing and nothing added. |
| `TomlRuns.SetOnce` | tools/port-deps.cjs:367-382 | No two statements set the same path, nor a path that leads on from the other one. |
| `TomlRuns.OpenedOnce` | tools/port-deps.cjs:456-473 | No two headers open the same table; each `[[header]]` opens a new one. |
| `TomlRuns.OnlyWhatIsWritten` | tools/port-deps.cjs:476-489 | Nothing is in an accepted document that no statement wrote, made on its way, or put below. |
| `TomlRuns.HeaderStep` | tools/port-deps.cjs:434-474 | The table a header makes current is the one its parts spell, through the last item of each array of tables; it had no header before; off the way to it nothing differs. |
| `TomlRuns.SetStep` | tools/port-deps.cjs:367-382 | One accepted key: only the way to it and its own place differ from before. |
| `TomlRuns.SetAccepted` | tools/port-deps.cjs:367-382 | A key is accepted if and only if no inline table in its value has two keys of which one leads on from the other, nothing is at its path yet, and whatever is on the way is a table that no value closed: which statement made that table plays no part. |
| `TomlAccepts.ReadIffWellKeyed` | tools/port-deps.cjs:384-429 | A value is read, into any store, if and only if in every inline table inside it, at any depth, no key is another one nor leads on from it. |
| `TomlRuns.DottedKeyIntoHeaderTable` | tools/port-deps.cjs:367-382 | An accepted document of three statements that adds by a dotted key to a table a header made. |
| `TomlRuns.WhereItStands` | tools/port-deps.cjs:431-432 | The current table of every state of an accepted document has exactly one path. |
| `TomlLaws.BuildHolds` | tools/port-deps.cjs:384-429 | A value is read into a tree of its own that holds exactly what is written, with no other node touched. |
| `Edits.Join` | ts/scripts/vale-counts.cjs:107-118 | The joining loop builds the specified text and positions. |
| `Edits.JoinIsFaithful` | ts/scripts/vale-counts.cjs:107-118 | Every character of the joined text that is no separator points to the same character in its own line, positions come in order, and neighbours are neighbours. |
| `Edits.JoinIsComplete` | ts/scripts/vale-counts.cjs:107-118 | No character after a comment mark is left out. |
| `Edits.JoinIsSpaced` | ts/scripts/vale-counts.cjs:107-118 | The text is the lines without their comment marks, from the first that says anything, with one space between each two. |
| `Edits.PadIsMark` | ts/scripts/vale-counts.cjs:107-118 | What is dropped of a line is the longest of nothing, `#`, `#` and a space, `#` and a tab that it starts with. |
| `Edits.MakeEdits` | ts/scripts/vale-counts.cjs:149-154 | Disjoint edits made in descending order come to all of them at once, character by character, for any replacement lengths. |
| `Edits.MatchesMakeEdits` | ts/scripts/vale-counts.cjs:172-226 | The edits of all blocks of a file, gathered before any is made, are disjoint when the matches of each block do not overlap in its joined text, and each replaces in its line what was matched; there is one for every match and none without, with the text that the match is to have. |

## Left out

- The engine, the directive plugin, the lexer and the grammar alternates are in crates that are not part of this model; documents start parsed, and lexing errors are `Doc.Fault`.
- The recursion of `Engine.Session.ParseItems` and `Engine.Session.ParseMembers` stands for the engine's own driver, which is not part of this model; it gives the order in which directives fire.
- `Values.PutUnder` on a node that is not a map drops the pair: how the host grammar writes a pair there is not part of this model.
- Custom resolvers, processors, pathfinders and a custom `map.merge` are caller code; the built-in ones are modelled.
- `OsFs`, symbolic links, native and Windows paths, and `ts/src/resolver/pkg.ts`: operating-system behaviour. Confinement is proved over `MapFs`, where a real path is the canonical one.
- Shortest-digit generation and IEEE rounding: digits and exponent are given, as a renderer supplies them. Of the second rendering, `Rerender` asks only that it is correctly rounded.
- FileResolver.PreloadIsTransparent: over a filesystem other than the in-memory one, exact only for preloads whose keys can be named by a reference; `Standalone.AnyPreloadIsTransparent` needs no such condition in memory.
- PortRuns.PortsExpandAlike: one direction for whole expansions, since a source that could part the ports need not be reached; the conditions of the single steps are exact. Of a nested failure the Go port keeps the code alone, so there codes are compared and not reports.
- `GoPort`: the deep merge and the ordered map of the Go engine, and how it writes out a list or an object, are not part of this model; the first is taken to be the merge that the Rust port carries, the last is a parameter. The dependency map is a set of edges, recorded as when the caller asks for it. The file and package resolvers of the Go port are left out.
- Reading a package manifest is a function from manifest text to its declared main; clocks (`wen`), error texts, hints and source positions are left out.
- The dive path that `child_meta` copies into nested metadata is left out: nothing modelled reads it.
- A ticket or ancestor metadata that the caller supplies to a top-level parse: `Engine.Session.Parse` starts with neither. The lemmas about contexts hold for any ancestors.
- `Engine.Session` runs one parse while the others that share its table stand still; interleavings of single steps are those of `Tickets`.
- `Tickets`: tickets are natural numbers, so the wrap-around of a 64-bit counter is left out; so is that of the handle counter in `Registry`.
- `Segments`: a refused thread spawn is an error of the nested parse and is left out; sources of raw text hold no references and take no frame.
- `Registry`: what a parse answers is left out; construction failures take no handle.
- `UnsafeWalk`: what reflection may panic on (unexported or unsupported kinds) is left out; the order in which a plain map is emitted is given.
- `Preload`: the order of a `BTreeMap` is given as a sorted listing of the keys.
- Import scanning, version checks and the manifest comparison in `tools/port-deps.cjs`, and running Vale in `ts/scripts/vale-counts.cjs`: plumbing around the two algorithms modelled.
- Strings are sequences of characters; TOML line numbers and messages are left out.
- `Edits.MakeEdits` takes an insertion sort for the library sort: on disjoint edits the order is strict, so every sort gives the same one.
