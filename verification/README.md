# Verum build and gate model

A Dafny model of the parts of the Verum repository whose correctness is an argument rather than a
list of cases, with proofs of what those parts are for:

- **the bake of the embedded standard library** (`LockFile`, `Receipt`, `BakeProtocol`,
  `BakeExclusion`, `BakeIntegrity`, `BakeOnce`, `BakeTraces`, `BakeOutcomes`): a transition system
  of any number of builds that take a lock file, check the cache again under it, bake into private
  staging, rename four files into place with the receipt last, stamp a checksum, copy privately and
  verify the copy, with crashes at every step, builds that gave up on the lock and bakes that
  publish without it;
- **the files that the build script embeds** (`ModuleTables`, `DepGraph`, `SymbolManifest`,
  `Archive`, `GraphBuild`, `SourceIdentity`): three binary formats with their writers and their
  runtime readers, and the byte streams that identify a source tree;
- **the scanners of the build script** (`Comments`, `CommentTokens`, `DottedCalls`, `ModulePaths`);
- **the ring law of the library** (`Rings`, `RingLaw`, `Cycles`): placement by longest declared
  prefix, the upward-edge check and the depth-first cycle finder, and the theorem about the
  dependency graph that they decide together;
- **small text machines of the documentation gates** (`Fences`, `Declarations`, `CallArity`,
  `BareNames`, `Signatures`, `Roster`, `Spans`, `IgnoredTests`, `Unshipped`), each against a grammar
  or a set-theoretic specification of what it reads.

`Bytes`, `Utf8`, `Decimals`, `Sequences`, `Sorting`, `Strings` and `Brackets` hold what several of
these share. A Rust string is the sequence of its UTF-8 bytes, each a character below 256; a Python string
is a sequence of characters. A Rust panic and a Python `None` are `None`. `dafny verify
dfyconfig.toml` checks everything.

Methods keep the loops, the early returns and the mutable state of their source. Each is tied to a
function of its input, and the lemmas prove of that function what the source promises.

## What the code does otherwise than its comments say

- An empty lock file is stale at once, and a lock file is created before it is written; inspecting
  and removing a lock are two steps as well. As the code is written, exclusion therefore fails
  (`SplitCreationBreaksExclusion`, `SplitRemovalBreaksExclusion`), and it fails with a probe that is
  wrong (`UnsoundProbeBreaksExclusion`). The owners keep their own lock files, and so exclude each
  other, exactly as long as a build writes its pid only into the file it created and a file is
  stolen only when no live build owns the lock (`OwnFileStep`, `OwnFileRun`, `AtMostOneOwner`); with
  each pair as one step and a sound probe that is always so (`AtomicLockExcludes`).
- The comment at `crates/verum_compiler/build.rs:113-115` says that a failed probe leaves the holder
  unattributed. The negation there covers the whole chain, so a failed probe counts as a dead holder;
  the model takes the answer of the probe as an input and only `AtomicLockExcludes` asks that it
  be sound. The function's own comment gives thirty minutes where the code has eight.
- The archive key does not contain the target; the receipt does (`SameKeyOtherInputs`).
- `build_archive` truncates the length of a path to sixteen bits without a check
  (`IndexReadBackIff`), and `build_dep_graph` truncates an edge count to thirty-two bits before it
  checks it (`GraphReadBackIff`).
- The layout comment of the dependency graph lists three edge kinds; the code writes four.
- `strip_comments` pushes bytes as characters, so that every byte from 128 up is encoded again:
  stripping is idempotent exactly on sources whose kept bytes are ASCII (`StripAgain`).
- `_scan` in `check_doc_call_arity.py` takes the `>` of an arrow, and an angle that compares in a
  refinement type, for a bracket. `PartsOfList` says exactly which lists it cuts right all the same,
  such as those whose only function type is the last parameter; `TupleIsCut` and
  `RightCountWrongCut` show it going wrong, the second with the right number of parts. `arity_of`
  counts an equals sign in a type as a default (`ArityOfDeclared`).
- `param_list` ends at a parenthesis that a default string closes (`SmileEndsList`).
- The roster reader splits lines where `str.splitlines` does, which is at more characters than the
  newline it writes (`RosterReadsIff`). A tab in a path does no harm.

## Model

| member | source | states |
|---|---|---|
| `BakeIntegrity.EmbedsOneBake` | crates/verum_compiler/build.rs:496-625 | in every run of any number of builds, with crashes between any two steps, builds that gave up on the lock and bakes published from outside, a build that ends the strict branch embeds copies with the digests of the three files of one completed bake, made from its own producer, target and sources |
| `BakeIntegrity.EmbedsItsFiles` | crates/verum_compiler/build.rs:610-625 | the same end to end on contents: if the digest does not collide on the files of the bakes and the copies, the three copies that an embedded build holds are, byte for byte, the three files of one bake made from its own inputs |
| `BakeIntegrity.VerifiedIsOneBake` | crates/verum_compiler/build_support/bake_receipt.rs:150-168 | a copy that verifies against a recorded receipt is a copy of the bake that wrote the receipt |
| `BakeIntegrity.InvRun` | crates/verum_compiler/build.rs:496-625 | the invariant behind it holds after every run: receipts in the cache come from completed bakes, and a build past the final check holds one bake |
| `BakeExclusion.OwnFileStep` | crates/verum_compiler/build.rs:44-136 | the exact condition for the owners to keep their lock files, for every step, split or whole: if each live owner of the lock has its own lock file in place before the step, it has afterwards if and only if a build writes its pid only into its own file and a file is stolen only when no live build owns the lock |
| `BakeExclusion.OwnFileRun` | crates/verum_compiler/build.rs:44-136 | the same for whole runs: the owners have their own file in every state of the run if and only if every step was guarded in that way |
| `BakeExclusion.AtMostOneOwner` | crates/verum_compiler/build.rs:44-136 | after every guarded run, with creation and writing, and inspection and removal, as the separate steps they are, at most one live build owns the lock, from any lock file left behind |
| `BakeExclusion.TheftMakesTwoOwners` | crates/verum_compiler/build.rs:122-125 | a theft from a live owner lets any other build that waits take the lock as well |
| `BakeExclusion.StrayWriteMakesTwoOwners` | crates/verum_compiler/build.rs:50-52 | so does a build that writes its pid after its lock file was removed |
| `BakeExclusion.AtomicLockExcludes` | crates/verum_compiler/build.rs:44-136 | with creation and writing in one step, inspection and removal in one step, and a sound probe, every run is guarded: at most one live build owns the lock |
| `BakeExclusion.LiveOwnerKeepsLock` | crates/verum_compiler/build.rs:79-121 | the lock of a live owner is not stale, at any age and whatever the clock says |
| `BakeExclusion.InspectionSparesLiveOwner` | crates/verum_compiler/build.rs:72-125 | a waiting build that inspects the lock of a live owner leaves it in place |
| `BakeOnce.SettledRun` | crates/verum_compiler/build.rs:446-456 | while nothing else is published, a cache that holds the wanted bake keeps holding it and no build that wants it bakes again, with or without the lock |
| `BakeOnce.OnceRun` | crates/verum_compiler/build.rs:547-554 | in guarded runs where every build waits for the lock, a publishing build is alone in the locked part and what it has renamed is in place |
| `BakeOnce.StampSettles` | crates/verum_compiler/build.rs:547-554 | writing the checksum after the four renames settles the cache for the publisher's key and inputs |
| `BakeOnce.OneBakePerKey` | crates/verum_compiler/build.rs:446-554 | end to end, with the lock steps split as they are and guarded: once a holder of the lock has published and stamped its bake, no later build with its key and inputs is ever baking, publishing or stamping until something else is published |
| `BakeOnce.SameKeyOtherInputs` | crates/verum_compiler/build_support/stdlib_cache.rs:223-237 | a cache that is good for a key is good for another build with that key exactly when the inputs agree: the key leaves out the target, the receipt does not |
| `BakeTraces.SplitCreationBreaksExclusion` | crates/verum_compiler/build.rs:45-52 | with creation and writing as the two steps they are, there is a run with two live owners |
| `BakeTraces.SplitRemovalBreaksExclusion` | crates/verum_compiler/build.rs:72-125 | with inspection and removal as the two steps they are, there is a run with two live owners |
| `BakeTraces.UnsoundProbeBreaksExclusion` | crates/verum_compiler/build.rs:79-125 | with whole lock steps and a probe that takes a live process for dead, there is a run with two live owners |
| `BakeTraces.LockedBuildStamps` | crates/verum_compiler/build.rs:446-554 | a holder of the lock gets through baking, four renames and half the checksum in a run that meets the premises of OneBakePerKey |
| `BakeTraces.VerifyingFirstMixesBakes` | crates/verum_compiler/build.rs:610-623 | were the check made before the copies, there is a run that embeds files of two bakes |
| `BakeOutcomes.FallbackIsAskedFor` | crates/verum_compiler/build.rs:595-625 | in every run, a build that ends without the final check had asked for the stale fallback, and a build that embeds had not |
| `BakeOutcomes.FailureIsFinal` | crates/verum_compiler/build.rs:554-587 | after a panic, a failed bake or publication without the fallback, or its final check, a build is dead or has embedded, whatever happens later: nothing is tried again |
| `BakeOutcomes.LockedBuildEmbeds` | crates/verum_compiler/build.rs:446-625 | among any number of builds, one that finds the lock free and the cache not good has a run that bakes once, publishes, stamps, gives the lock back and embeds its own bake byte for byte; no other build is touched |
| `BakeOutcomes.WaiterReusesBake` | crates/verum_compiler/build.rs:446-456 | two builds of one key and one list of inputs that reach the lock before either has baked: one bake serves both, the second finds the cache good under the lock and embeds the bake of the first |
| `BakeOutcomes.TimedOutBuildEmbeds` | crates/verum_compiler/build.rs:126-136 | a build that gives up on a lock that is not stale bakes and embeds without it, and the lock stays with its holder |
| `BakeOutcomes.CrashedHolderIsReplaced` | crates/verum_compiler/build.rs:79-125 | a holder that dies at whatever step, its lock in place, does not wedge the others: a build that waits and finds it dead removes the lock, takes its own, bakes and embeds |
| `BakeOutcomes.FallbackOutlivesFailure` | crates/verum_compiler/build.rs:556-600 | a build that allows a stale library and whose bake fails gives the lock back and ends unverified, with nothing copied and the cache as it was |
| `BakeOutcomes.GivesUp` | crates/verum_compiler/build.rs:567-600 | from a failed bake or from any point of its publication, such a build gives the lock back if it has one and ends unverified |
| `BakeOutcomes.CacheHitEmbeds` | crates/verum_compiler/build.rs:420-456 | a build that finds the cache good, before the lock or under it, embeds the three files that are there, bakes nothing and leaves the cache alone but for its own lock file |
| `LockFile.LockTextReads` | crates/verum_compiler/build.rs:51-78 | what a build writes into the lock file is read back as its pid and its time |
| `LockFile.StaleIff` | crates/verum_compiler/build.rs:79-125 | exactly when a written lock is stale: for a pid above 1 if and only if the probe fails, at any age; for pids 0 and 1 after eight minutes |
| `LockFile.UnwrittenLockIsStale` | crates/verum_compiler/build.rs:118-121 | a missing, unreadable or empty lock file is stale at once |
| `LockFile.PieceIsJudgedAlike` | crates/verum_compiler/build.rs:51-78 | the text is written in pieces: a reader that finds only the pid, or the pid and the sign after it, judges a pid above 1 as it does the whole text |
| `LockFile.NumberIff` | crates/verum_compiler/build.rs:73-78 | exactly what reads as a pid or a time: digits, perhaps after a plus sign, of a value that fits the integer |
| `LockFile.FieldsAreJudged` | crates/verum_compiler/build.rs:79-125 | the same for any two fields, numbers or not: a holder with a pid above 1 is judged by the probe alone, any other by the age, and one without an age is stale |
| `Receipt.AttestedIff` | crates/verum_compiler/build_support/bake_receipt.rs:118-142 | the digests that a receipt attests are the ones it was encoded with, and no other text attests them |
| `Receipt.VerifiesIff` | crates/verum_compiler/build_support/bake_receipt.rs:150-168 | verification accepts exactly the receipt that a bake from these inputs records for files with these digests |
| `Receipt.EncodeIsInjective` | crates/verum_compiler/build_support/bake_receipt.rs:101-112 | receipts of different producers, targets, sources or files are different texts, for one-line producers and targets |
| `Receipt.ReceiptText` | crates/verum_compiler/build_support/bake_receipt.rs:101-112 | the text of a receipt: the header and version, then the producer, the target, the digests of sources, kit and archive, and last those of the two sidecars, a line each |
| `Receipt.MultiLineInputsCollide` | crates/verum_compiler/build_support/bake_receipt.rs:101-112 | a producer that spans two lines can pass for another producer with another target |
| `SourceIdentity.IdentityStream` | crates/verum_source_proof/build.rs:34-44 | the hasher receives the framed stream of the sorted files |
| `SourceIdentity.DigestStreams` | crates/verum_compiler/build_support/bake_receipt.rs:57-74 | one pass feeds the framed stream and the NUL-ended stream of the same files |
| `SourceIdentity.FramedIsInjective` | crates/verum_source_proof/build.rs:36-44 | the framed stream determines the list of files, of any length, though nothing counts them |
| `SourceIdentity.IdentityIsTheFileSet` | crates/verum_source_proof/build.rs:34-44 | two enumerations give the same stream if and only if they list the same files with the same bytes |
| `SourceIdentity.NulEndedIff` | crates/verum_compiler/build_support/stdlib_cache.rs:223-237 | exactly what the NUL-ended stream determines, for any files: two lists have one stream if and only if the pieces between the NULs of their paths and contents are the same |
| `SourceIdentity.NulEndedIsInjective` | crates/verum_compiler/build_support/stdlib_cache.rs:223-237 | so it determines the list among the lists whose parts hold no NUL |
| `SourceIdentity.NulEndedMergesFiles` | crates/verum_compiler/build_support/stdlib_cache.rs:223-237 | and any two files share it with the one file that merges them, which the framing tells apart |
| `Comments.StripComments` | crates/verum_compiler/build.rs:807-869 | the flag-driven loop computes the stripping function |
| `Comments.StripKeepsNewlines` | crates/verum_compiler/build.rs:807-869 | for every source, the newlines of the result are the newlines of the source: none is lost, in a comment or out of it, and none is added |
| `Comments.StripAgain` | crates/verum_compiler/build.rs:807-869 | a second pass removes nothing; it changes nothing exactly when the bytes outside comments are ASCII, because each pass re-encodes the others |
| `CommentTokens.KeepPrinted` | crates/verum_compiler/build.rs:807-869 | of a source printed from tokens, the literals and the plain bytes survive unchanged, and of the comments only the newlines |
| `CommentTokens.EverySource` | crates/verum_compiler/build.rs:807-869 | every source is printed from such tokens, so the same holds of every source |
| `CommentTokens.OneReading` | crates/verum_compiler/build.rs:807-869 | and from no others: the tokens of a source are determined by it |
| `Comments.PushIsUtf8` | crates/verum_compiler/build.rs:807-869 | a byte that is kept is written as the code point it is taken for, one byte of ASCII or two of any other |
| `DottedCalls.ExtractDottedCallEdges` | crates/verum_compiler/build.rs:956-1026 | the scan that jumps past each path it reads records, in order, exactly the calls that start at any position: rooted at super or core, on a token boundary, maximal, followed by a parenthesis, with two dots after the root |
| `DottedCalls.WalkPath` | crates/verum_compiler/build.rs:984-998 | the walk finds the end of the maximal path, counts its segments and remembers its last dot |
| `DottedCalls.ReadPath` | crates/verum_compiler/build.rs:983-1024 | one path pushes the two edges of a call if it is one, and the scan goes on at its end |
| `DottedCalls.JumpIsSafe` | crates/verum_compiler/build.rs:1024 | no call starts inside a path that has been read |
| `DottedCalls.CallsNameTheirModules` | crates/verum_compiler/build.rs:1001-1023 | each call edge is the path edge pushed beside it, a dot and a segment without dots |
| `DottedCalls.CallIff` | crates/verum_compiler/build.rs:956-1000 | exactly where a call starts: at super. or core., not right after a letter, a digit, an underscore or a dot, with a path of those behind it that holds two dots and runs up to an opening parenthesis; the called name is the root and that path |
| `ModulePaths.ResolveAppends` | crates/verum_compiler/build.rs:1107-1158 | resolving commutes with appending a segment exactly unless the path is empty, or all dots in a module without a name |
| `ModulePaths.ResolveAppendsRooted` | crates/verum_compiler/build.rs:1107-1158 | for paths rooted at super or core it always does |
| `ModulePaths.SuperResolves` | crates/verum_compiler/build.rs:1138-1157 | super is the module above, the name before the last dot or the module itself when it has none, and super with a path goes on from there |
| `ModulePaths.DotsResolve` | crates/verum_compiler/build.rs:1126-1137 | a path that starts with dots, however many, goes on in the current module |
| `ModulePaths.PlainResolves` | crates/verum_compiler/build.rs:1107-1158 | any other path stands for itself |
| `ModulePaths.BlanksDoNotMatter` | crates/verum_compiler/build.rs:1107-1110 | white space around a path does not matter |
| `ModuleTables.WriteStr` | crates/verum_compiler/build.rs:1401-1405 | a string of fewer than 65536 bytes is appended after its length; a longer one panics |
| `ModuleTables.ReadStrAt` | crates/verum_compiler/src/stdlib_dep_graph.rs:279-291 | the reader takes a string off the cursor, or fails on a short buffer or invalid UTF-8 |
| `ModuleTables.ReadHeadAt` | crates/verum_compiler/src/stdlib_dep_graph.rs:112-118 | the reader takes the name and the count of an entry off the cursor |
| `ModuleTables.TableReadBack` | crates/verum_compiler/build.rs:758-766 | whatever bytes follow, a written table is read back entry by entry and they are left over |
| `ModuleTables.ReadBackIff` | crates/verum_compiler/build.rs:1213-1217 | a table is read back exactly when no entry has more than 65535 items |
| `ModuleTables.TablePrefixFree` | crates/verum_compiler/build.rs:758-766 | no table is a proper prefix of another, and a table has one meaning |
| `DepGraph.WriteGraph` | crates/verum_compiler/build.rs:1208-1236 | the writing loops produce the layout, and panic exactly when a count or a string does not fit |
| `DepGraph.ParseGraph` | crates/verum_compiler/src/stdlib_dep_graph.rs:102-145 | the cursor loops compute the graph that the layout describes |
| `DepGraph.EdgesOnTheWire` | crates/verum_compiler/build.rs:1218-1235 | the bytes of the edges of a module: the path edges with kind 0, the glob edges with kind 1, the call edges with kind 3 and the nested edges with kind 2, each a kind byte, a length and the target |
| `DepGraph.KindReads` | crates/verum_compiler/src/stdlib_dep_graph.rs:133-139 | the kind byte of an edge says to which list its target goes, and any other is refused |
| `DepGraph.EdgesComeBack` | crates/verum_compiler/src/stdlib_dep_graph.rs:120-140 | the four edge lists, interleaved in one stream, come back each in its own order |
| `DepGraph.GraphRoundTrip` | crates/verum_compiler/src/stdlib_dep_graph.rs:102-145 | the reader recovers of each name the last module that was written and nothing else, whatever follows; it finds every module with its own four edge lists if and only if modules of one name have the same |
| `DepGraph.GraphPrefixFree` | crates/verum_compiler/build.rs:1195-1237 | two module lists whose encodings agree up to what follows are equal |
| `DepGraph.GraphReadBackIff` | crates/verum_compiler/build.rs:1213-1217 | which written graphs are read back: those without a module of more than 65535 edges; a count of 2^32 wraps before it is checked |
| `GraphBuild.BuildDepGraph` | crates/verum_compiler/build.rs:1195-1237 | the graph file is the layout of the modules of the files in stable name order |
| `GraphBuild.ModulesInOrder` | crates/verum_compiler/build.rs:1195-1206 | the modules are written in the order of their names, each as often as files name it |
| `GraphBuild.UnreadableIsEmpty` | crates/verum_compiler/build.rs:1200 | a file that encodes no code points is a module with an empty source |
| `GraphBuild.TextIsRead` | crates/verum_compiler/build.rs:1198-1204 | a file that is text gives the mounts of its source and the calls of its source without comments |
| `Utf8.ValidIff` | crates/verum_compiler/build.rs:1200 | what counts as text: the byte sequences that encode code points without surrogates, in shortest form, and no others |
| `GraphBuild.GraphForgetsFileOrder` | crates/verum_compiler/build.rs:1205-1206 | its bytes are the same for every permutation of the files, if files of one module have the same edges |
| `GraphBuild.DistinctModulesDoNotTie` | crates/verum_compiler/build.rs:787-802 | in particular if no two files name one module |
| `Sorting.LexLeIff` | crates/verum_compiler/build.rs:1206 | the order of the sort: a prefix comes first, otherwise the smaller element at the first difference |
| `Sorting.SortIsStable` | crates/verum_compiler/build.rs:1206 | the sort keeps the order of elements that tie |
| `GraphBuild.ModuleOfPath` | crates/verum_compiler/build.rs:787-802 | the module of a file is the name of the crate, its directories and its own name, with dots; a file called mod is the module of its directory, and either slash will do |
| `Sorting.OrderFreeIff` | crates/verum_compiler/build.rs:1205-1206 | sorting what the files give forgets the order of the files if and only if files that tie give the same element |
| `GraphBuild.GraphOrderIff` | crates/verum_compiler/build.rs:1205-1206 | exactly when the graph is deterministic: every order of the files gives the same bytes if and only if files of one module have the same edges |
| `GraphBuild.FileAndDirectoryTie` | crates/verum_compiler/build.rs:787-802 | such ties exist: d.vr and d/mod.vr name one module |
| `SymbolManifest.WriteManifest` | crates/verum_compiler/build.rs:1784-1798 | the writing loops produce the layout, and panic exactly when a count or a string does not fit |
| `SymbolManifest.ParseManifest` | crates/verum_compiler/src/stdlib_symbol_manifest.rs:125-160 | the cursor loops compute the manifest that the layout describes |
| `SymbolManifest.TagReads` | crates/verum_compiler/src/stdlib_symbol_manifest.rs:143-154 | the two bytes of a symbol, its kind by number and 1 for a public one, and what any two bytes are read as |
| `SymbolManifest.ManifestRoundTrip` | crates/verum_compiler/src/stdlib_symbol_manifest.rs:125-160 | the reader recovers of each name the last module, its symbols in declaration order, and nothing else, whatever follows; it finds every module with its own symbols if and only if modules of one name have the same |
| `SymbolManifest.ManifestPrefixFree` | crates/verum_compiler/build.rs:1595-1604 | two module lists whose encodings agree up to what follows are equal |
| `SymbolManifest.BuildSymbolManifest` | crates/verum_compiler/build.rs:1774-1799 | the manifest file is the layout of the modules of the files in stable name order |
| `SymbolManifest.ModulesInOrder` | crates/verum_compiler/build.rs:1774-1786 | the modules are written in the order of their names, each as often as files name it |
| `SymbolManifest.ManifestForgetsFileOrder` | crates/verum_compiler/build.rs:1774-1786 | its bytes are the same for every permutation of the files, if files of one module declare the same symbols |
| `SymbolManifest.ManifestOrderIff` | crates/verum_compiler/build.rs:1774-1786 | and only then |
| `Archive.CheckedDataOffset` | crates/verum_compiler/build.rs:1536-1555 | the checked additions succeed exactly when the header and the index fit in 32 bits |
| `Archive.Sections` | crates/verum_compiler/build.rs:1557-1583 | the second loop succeeds exactly when every content length and start fits, and lays out index and data |
| `Archive.BuildArchive` | crates/verum_compiler/build.rs:1526-1588 | the writer succeeds exactly when the archive fits, and then writes the layout |
| `Archive.RangesTile` | crates/verum_compiler/build.rs:1553-1583 | the content ranges tile the data section with no gap or overlap, and each holds its own file |
| `Archive.OpenArchive` | crates/verum_compiler/src/embedded_stdlib.rs:42-94 | the cursor loop computes the index, stopping without complaint where the bytes run out |
| `Archive.IndexReadBackIff` | crates/verum_compiler/build.rs:1576 | the index is read back exactly when every path has at most 65535 bytes, which the writer does not check |
| `Archive.ArchiveFindsFile` | crates/verum_compiler/src/embedded_stdlib.rs:97-103 | each file is found under its path with its exact content, if that is UTF-8 |
| `Archive.ArchiveFindsNothingElse` | crates/verum_compiler/src/embedded_stdlib.rs:97-103 | no other path is found |
| `Rings.PlacementOf` | scripts/ci/check_core_rings.py:367-384 | the loop over joined parts finds the longest declared name that covers the module at a dot |
| `Rings.RingFor` | scripts/ci/check_core_rings.py:349-364 | the ring is that of the unit that placement finds, and there is none exactly when there is no unit |
| `Rings.UnitIsLongest` | scripts/ci/check_core_rings.py:349-384 | the unit is declared, covers the module, and no longer declared name does; there is none only if none covers it |
| `Cycles.CycleFinder.Walk` | scripts/ci/check_core_rings.py:467-474 | one walk comes back with the stack as it found it, everything it reached finished, and only simple cycles reported; it terminates on every finite graph |
| `Cycles.CycleFinder.Visit` | scripts/ci/check_core_rings.py:469-473 | after one successor it is finished or the edge to it closes a reported cycle |
| `Cycles.CycleFinder.FindCycles` | scripts/ci/check_core_rings.py:462-478 | every reported list is a simple cycle, every closed walk of the graph takes the closing edge of a reported one, and nothing is reported exactly when the graph is acyclic |
| `RingLaw.RisesIff` | scripts/ci/check_core_rings.py:423-428 | an edge rises when both ends have a unit and the ring of the second is the higher one |
| `RingLaw.RisingEdges` | scripts/ci/check_core_rings.py:423-436 | violations are the rising edges whose printed form the table of exceptions does not name, excused ones those that it names |
| `RingLaw.BoundIff` | scripts/ci/check_core_rings.py:429-436 | the law binds every edge but a rising one whose printed form the table names |
| `RingLaw.IntraRing` | scripts/ci/check_core_rings.py:439-461 | the graph has exactly the edges between distinct units of one ring that is not cohesive |
| `RingLaw.GateDecidesLayering` | scripts/ci/check_core_rings.py:415-478 | no rising edge and no such cycle, if and only if the ring never rises along a walk of units and every closed walk through two units lies in one cohesive ring |
| `RingLaw.Gate` | scripts/ci/check_core_rings.py:415-478 | the whole gate: it reports neither violation nor cycle exactly when the dependencies without the declared exceptions are layered, with an empty table exactly when all of them are; its lists are the rising edges that the table does not name and those that it names |
| `RingLaw.PlacedWalkNeverRises` | scripts/ci/check_core_rings.py:415-436 | in a layered library the ring never rises along any walk of placed modules |
| `RingLaw.PlacedCycleIsCohesive` | scripts/ci/check_core_rings.py:438-461 | and a walk that returns to its module through a second unit lies in one cohesive ring |
| `Fences.FenceLines` | scripts/ci/check_doc_fences_close.py:63-65 | a fence line is at most three spaces, a whole run of three or more, and a rest that is an info string unless blank; nothing else is one |
| `Fences.AdmonitionLines` | scripts/ci/check_doc_fences_close.py:66-67 | an admonition opener is three colons and a lower-case letter at the start of the line, a closer three colons and at most white space; nothing else is one |
| `Fences.Defects` | scripts/ci/check_doc_fences_close.py:70-117 | the state machine reports the defects of the lines, with their numbers |
| `Fences.DefectsIff` | scripts/ci/check_doc_fences_close.py:70-117 | exactly which defects are reported with which line numbers: a fence line inside an open block that starts it again, with the line of the opener; the block that no later line closes; the admonition that no closer outside the blocks follows |
| `Fences.NoDefectIff` | scripts/ci/check_doc_fences_close.py:70-117 | there is no defect exactly when the page reads as text and blocks, each opener closed by a same-character run at least as long and without info string, none restarted inside at its own length, and outside blocks no admonition opener after the last closer |
| `Fences.PageIsUnique` | scripts/ci/check_doc_fences_close.py:85-103 | such a reading is unique |
| `Fences.ShorterRunsAreContent` | scripts/ci/check_doc_fences_close.py:79-81 | a fence may hold any shorter runs |
| `Brackets.PartsOfList` | scripts/ci/check_doc_call_arity.py:150-193 | a printed list is cut into exactly its items by one counter of all brackets if and only if every item but the last brings the counter back to zero and no item holds a comma nested as deep as the drift before it: the arrows and comparing > less the comparing < |
| `Brackets.CommaSeparates` | scripts/ci/check_doc_call_arity.py:150-193 | outside brackets and quotes a comma separates |
| `Brackets.BracketsHold` | scripts/ci/check_doc_call_arity.py:150-193 | between any of the four openers and any of the four closers it does not |
| `Brackets.QuotesHold` | scripts/ci/check_doc_call_arity.py:150-193 | between two quotes of one kind neither commas nor brackets count |
| `Declarations.ParamText` | scripts/ci/check_doc_call_arity.py:104-147 | the three loops find the text between the parentheses after the generics, or nothing |
| `Declarations.ParamTextReads` | scripts/ci/check_doc_call_arity.py:104-147 | for any generics that keep their angle bracket open to their end, and any text between the parentheses, that text is returned if and only if it keeps its parenthesis open to its end |
| `Declarations.DeclaredTextReads` | scripts/ci/check_doc_call_arity.py:104-147 | both hold of printed generics of any nesting, with arrow-carrying function types, and of parameters whose parentheses nest |
| `CallArity.ScanSeparators` | scripts/ci/check_doc_call_arity.py:150-183 | the scan with a separator returns the commas at depth zero outside literals |
| `CallArity.ScanCloser` | scripts/ci/check_doc_call_arity.py:150-183 | the scan without one returns the first bracket that closes more than was opened |
| `CallArity.CloserOfCall` | scripts/ci/check_doc_call_arity.py:150-183 | for arguments with any strings and nesting, that is the bracket of the call if and only if nothing in them closes where the nesting equals the drift and the drift comes back to zero; without a comparing <, if and only if they hold no arrow and no comparing > |
| `CallArity.CutsMakeParts` | scripts/ci/check_doc_call_arity.py:186-193 | slicing at the separators gives the parts at depth zero |
| `CallArity.SplitTop` | scripts/ci/check_doc_call_arity.py:186-193 | the parts that are not blank, stripped |
| `CallArity.SelfIff` | scripts/ci/check_doc_call_arity.py:88-89 | exactly the parameters taken for self: an optional borrow, white space, any of the modifiers with white space after each, the word itself and white space |
| `CallArity.SelfIsNoParam` | scripts/ci/check_doc_call_arity.py:88-89 | a parameter with a colon is never taken for self |
| `CallArity.DefaultIff` | scripts/ci/check_doc_call_arity.py:202 | a parameter counts as defaulted when an equals sign follows its first colon, or stands anywhere in one without a colon |
| `CallArity.ArityOf` | scripts/ci/check_doc_call_arity.py:196-203 | the arity of the stripped parts, without a leading self |
| `CallArity.ArityOfDeclared` | scripts/ci/check_doc_call_arity.py:196-203 | for every list of declared parameters with any string defaults, function types and refinement types: it is cut into its parameters exactly under the condition of PartsOfList; then the total is the number of parameters, and the required ones are those without a default exactly when no other parameter holds an equals sign |
| `CallArity.TightListIsCutRight` | scripts/ci/check_doc_call_arity.py:150-193 | the condition holds of every list without arrows and without angles that compare |
| `CallArity.CountOfParts` | scripts/ci/check_doc_call_arity.py:150-193 | right or wrong, a list has one part more than commas nested as deep as the drift before them; with too few of these, fewer parts than items are kept |
| `CallArity.TotalIff` | scripts/ci/check_doc_call_arity.py:196-203 | right or wrong, if no part is blank and the first name holds no comma, the total is the number of parameters if and only if the list has one such comma less than items |
| `CallArity.TupleIsCut` | scripts/ci/check_doc_call_arity.py:177-182 | a parameter whose type is a tuple with a function type before a comma is read as two |
| `CallArity.RightCountWrongCut` | scripts/ci/check_doc_call_arity.py:177-182 | a function type before a parameter with a comma in its brackets: two parts, as many as parameters, and yet not the parameters |
| `BareNames.ParamList` | scripts/ci/check_barename_collisions.py:186-206 | the parameter list is the text between the first parenthesis and its match |
| `BareNames.SplitParams` | scripts/ci/check_barename_collisions.py:209-247 | the loop over the characters cuts the arrow-blanked text into its parts |
| `BareNames.Arity` | scripts/ci/check_barename_collisions.py:250-251 | the number of those parts |
| `BareNames.BlankPrints` | scripts/ci/check_barename_collisions.py:223 | blanking the arrows of a printed text is printing the text with blanked arrows, in literals too, and moves nothing |
| `BareNames.SplitsEvery` | scripts/ci/check_barename_collisions.py:209-247 | a printed list, arrows blanked, is cut at its parameters exactly under the condition of PartsOfList; then every parameter becomes one part |
| `BareNames.SignFreeIsCutRight` | scripts/ci/check_barename_collisions.py:209-247 | the condition holds of every list without angles that compare, whatever its arrows |
| `BareNames.ArityOfLine` | scripts/ci/check_barename_collisions.py:186-251 | for every declaration line the parameter list is found whole if and only if it keeps its parenthesis open to its end, and its arity is the number of parameters if it is cut right |
| `BareNames.SmileEndsList` | scripts/ci/check_barename_collisions.py:186-206 | a default string that closes a parenthesis ends the list there |
| `Signatures.ArityOfSignature` | scripts/ci/check_barename_collisions.py:186-251 | for names, generics, tuples and function types with arrows, and literal defaults with any commas and brackets: the arity is the number of parameters, and the list is found whole if and only if it keeps its parenthesis open, as it does if the defaults hold no parentheses |
| `Roster.CollisionsOf` | scripts/ci/check_barename_collisions.py:598-618 | the loop keeps the keys of the scope that two or more files declare |
| `Roster.ScopeKeeps` | scripts/ci/check_barename_collisions.py:598-618 | exactly the keys a scope keeps, with their files: those that two different files declare; for the prelude those of its names; for sqlite those declared on both sides of the native boundary |
| `Roster.ScopedTwice` | scripts/ci/check_barename_collisions.py:643-649 | a scope keeps nothing that the filter for all collisions drops |
| `Roster.MembershipLines` | scripts/ci/check_barename_collisions.py:666-672 | one line for each key in key order, the files sorted |
| `Roster.RosterOrder` | scripts/ci/check_barename_collisions.py:666-672 | the order of the lines: by name, and for one name by arity |
| `Roster.ReadMembership` | scripts/ci/check_barename_collisions.py:675-686 | the reading loop, in which a later line of a label replaces an earlier one |
| `Roster.LabelReads` | scripts/ci/check_barename_collisions.py:697-700 | a label gives back its name and its arity |
| `Roster.TagReads` | scripts/ci/check_barename_collisions.py:696-700 | how any tag of the roster is read: the arity is what follows its last slash, or all of it, and has to be digits; the name is what comes before |
| `Roster.LabelledKeys` | scripts/ci/check_barename_collisions.py:730-732 | the labelled map holds the label of every key with that key's own files, and no other key: no two keys share a label |
| `Roster.RosterReadsIff` | scripts/ci/check_barename_collisions.py:666-686 | the roster reads back as it was written exactly when no name holds a tab or a line end or starts with a hash, and no path is empty or holds a comma or a line end |
| `Roster.CommaSplitsPath` | scripts/ci/check_barename_collisions.py:685 | a path with a comma reads back as two |
| `Roster.ScopeExpectation` | scripts/ci/check_barename_collisions.py:689-704 | the expectation of a scope is its filter on the keys that the labels stand for |
| `Roster.DerivedScopeIsLive` | scripts/ci/check_barename_collisions.py:643-704 | writing the roster of all collisions, reading it back and filtering it by a scope gives exactly the live collisions of the scope |
| `Roster.CheckMembership` | scripts/ci/check_barename_collisions.py:707-759 | 0 exactly when the live labels and files equal the roster, 2 exactly when there is none |
| `IgnoredTests.BodyEnd` | scripts/ci/check_doc_methods_exercised.py:390-406 | the scan terminates just past the matching brace, or at the end of the text |
| `IgnoredTests.BodyEndsAtItsBrace` | scripts/ci/check_doc_methods_exercised.py:390-406 | for every brace-balanced body with strings that is just past its own brace |
| `Spans.MergeSorted` | scripts/ci/check_doc_methods_exercised.py:438-442 | the merged spans are in order, neither overlap nor touch, and cover the same positions |
| `Spans.Cut` | scripts/ci/check_doc_methods_exercised.py:443-449 | the characters in no span, in their order |
| `Spans.DeleteSpans` | scripts/ci/check_doc_methods_exercised.py:436-449 | sorting, merging and cutting delete exactly the union of the spans, overlapping, nested or touching |
| `IgnoredTests.StripIgnoredTests` | scripts/ci/check_doc_methods_exercised.py:427-449 | the text without the tests from their attribute to the end of their body |
| `Unshipped.MarkerIff` | scripts/ci/check_doc_names_exist.py:237-245 | a marker stands on a whole line, and the pattern sees that line alone |
| `Unshipped.HeadingIff` | scripts/ci/check_doc_names_exist.py:237-239 | a heading is two hashes and white space at the start of a line |
| `Unshipped.SectionIs` | scripts/ci/check_doc_names_exist.py:243-247 | a section ends at the first heading after the line of its marker, or at the end of a text without one |
| `Unshipped.SkippedEndsThere` | scripts/ci/check_doc_names_exist.py:243-247 | the section of a marker inside a dropped section ends at the same heading |
| `Unshipped.DropUnshipped` | scripts/ci/check_doc_names_exist.py:240-251 | the union of all marked sections is deleted, though markers inside dropped ones are skipped |

## Left out

- The mount-statement scan (`extract_mounts`), the declaration scan (`extract_symbols`) and the prelude seeds: the two scans are parameters of the builders, any function of the source will do.
- The digests (blake3, SHA-256) and zstd: a digest is any function; what depends on its injectivity asks that it does not collide on the contents at hand.
- File reads and writes, directory walks, environment variables, `cargo:` output and the spawned bake: their outcomes are inputs or nondeterministic steps. A failed write of the lock text is not a step.
- The stale-fallback embedding branch and builds with the refresh disabled: a build that takes them ends unverified, and nothing is claimed of it. The `.schema` file beside the checksum is not written in the model.
- The wait of the lock loop: polling is any number of inspections, and that the wait ends is not claimed, since the steal path does not look at the deadline.
- BakeIntegrity.EmbedsOneBake: asks that producers and targets are one-line strings, as a hexadecimal digest and a target triple are, and that a receipt left in the cache by an earlier time was written by a bake; without the first, `Receipt.MultiLineInputsCollide` shows what goes wrong.
- BakeExclusion.AtomicLockExcludes: asks that pids of running builds are distinct and above 1 and that the probe answers for them; pid reuse is not modelled.
- BakeOnce.OneBakePerKey: is about runs in which every build waits for the lock up to the first publication; a build that gave up on the lock may publish at any time, which the theorems of `BakeIntegrity` allow.
- ModulePaths.ResolveAppends: white space is ASCII white space; the wider Unicode trim of Rust differs only on non-ASCII bytes.
- Archive.ArchiveFindsFile: the lossy decoding of paths is any function that keeps the stored paths as they are, which it does on UTF-8.
- The resolution of mounts to edges by the file system (`targets`, `module_of`), the unplaced modules and the ring-0 inheritance budget: easy members beside the graph theorem. Edges are taken without their sites, and a ring index is a real number: a key that parses as NaN or infinity is not modelled.
- Python's recursion limit on the cycle finder.
- Fences.Defects: gives the kind and the line numbers of a defect, not the text of the message.
- CallArity.ArityOfDeclared: a parameter has a name without a colon. When a list is not cut right, its total may be right by accident, as `CallArity.RightCountWrongCut` shows and `CallArity.TotalIff` makes exact for parts that are not blank; nothing is said then of the number of required parameters.
- BareNames.ArityOfLine: no arrow is made of a dash and an angle that compares, and when a list is not cut right its arity may be right by accident.
- Roster.ScopeExpectation: digits are ASCII digits; the labels are taken in the order in which the roster lists them. The prelude enters as a set of names, read once.
- IgnoredTests.StripIgnoredTests: the attribute and header patterns that find where a test starts enter as the list of their matches.
- Unshipped.DropUnshipped: the pattern of a marker is any predicate on a line.
- `strip_vr_comments`, the runtime gates of module files and the symbol and edge counts of the build script; the other gates, which compare counts against a baseline.
