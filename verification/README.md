# Verified models of the release and CI tooling

This project models the algorithms at the core of the GPU fault recovery
system's release and CI scripts, and proves what those scripts rely on. Each
module follows one part of the tooling:

- `ImportCycles`, `Architecture`: the import-cycle detector (Tarjan's algorithm
  over mutable tables), the import graph it runs on, and the size and cycle
  baseline its findings are compared with.
- `PublicScan`, `VerdictCache`: the public-release scanner, which cuts files at
  line breaks, scans the pieces independently and recovers line numbers; and the
  digest-keyed verdict cache of its gate.
- `GateTest`, `GateEdits`: the memoised search for test modules that read the
  PostgreSQL URL, themselves or through helpers, and its cache over edits.
- `TestPartition`, `GatedPartition`, `ShardArguments`: the ownership of test files
  with the answers the gate gives, the hashing of test ids into physical shards,
  and the pytest command line of a shard.
- `Receipts`, `PartitionUnion`: the merge of the shards' test receipts.
- `Globs`: the glob compiler of the documentation-impact check.
- `Wheels`, `WheelDigest`: the contents of a component wheel and the content
  digest that is computed twice.
- `ReleaseDriver`: the release transaction, its recovery and the approval it
  consumes, as a driver whose every external step may fail.
- `GuardRanges`, `EnvAliases`: the ranges of environment values inferred from
  guards, and the names that hold such values.
- `GridLayout`, `Pgpass`: the dashboard grid and the password-file line.

`Orders`, `Graphs`, `Paths` and `Wrappers` hold what several of them share:
sorting and lists without repeats, reachability and components, file names,
options and results.

Code that updates tables, lists or caches step by step is modelled by classes
and loops with their invariants; code made of expressions by functions. File
trees are maps from paths to contents, SHA-256 (section 6.2 of FIPS 180-4) is an
arbitrary function, so that what fails by a collision is stated with the two texts
that collide, syntax trees are datatypes, and every call outside the process has an
arbitrary outcome.

Where the code and its own description disagree, the code is modelled:

- A gate answer that was cut short by an import cycle is cached like any other,
  so a later query can be wrong. `GateTest.AlwaysExact` says exactly when. A cached
  answer also outlives edits of the helpers it rests on; `GateEdits.EditsExact`
  says exactly which edits make an answer wrong.
- The merge of guard ranges is described as refusing only what no read site can
  use. A strict bound that is left out can be overruled by the others;
  `GuardRanges.OnlyUselessIff` says exactly when the description holds.
- The two digests of a wheel are described as one computation done twice. They
  hash the same bytes exactly for the selections of `WheelDigest.DigestTwice`;
  `WheelDigest.MirrorParts` is a selection for which they do not.
- The registry record after a commit is described as never failing a release. It
  fails one exactly when the site file has to be read again and cannot be
  (`ReleaseDriver.RegistryBreaksIff`); `ReleaseDriver.SiteFileFailsRelease` gives
  the answers from outside that make any release fail that way.
- An approval is meant to be used up by a release that succeeds. A run that has
  consumed its approval fails exactly when the record that follows fails
  (`ReleaseDriver.ConsumedAt`, `ReleaseDriver.Release`);
  `ReleaseDriver.LastRecordLosesApproval` gives the answers that lead there.
- The overlap check of the aggregate receipt, half of its final check, and the
  error for unclassified tests can never fire (`Receipts.NeverOverlaps`,
  `Receipts.FinalCheck`, `TestPartition.ClassifyExact`).

## Model

| member | source | states |
|---|---|---|
| `ImportCycles.StronglyConnected` | scripts/check-python-architecture.py:157-195 | for every graph whose edges stay inside it, the result lists exactly the strongly connected components with more than one node: each mutually reachable and maximal, none missed, none repeated, nodes and list sorted |
| `ImportCycles.ReportUnique` | scripts/check-python-architecture.py:157-195 | a graph has one such report, so the order in which successor sets are walked never shows |
| `ImportCycles.Detector.constructor` | scripts/check-python-architecture.py:160-165 | the detector starts idle, with the invariant of the search established |
| `ImportCycles.Detector.Visit` | scripts/check-python-architecture.py:167-190 | a visit keeps the invariant, numbers its node and returns with a correct low-link; the recursion ends because fewer nodes are unnumbered each time |
| `ImportCycles.Detector.Scan` | scripts/check-python-architecture.py:174-179 | one successor is handled: visited, or its number taken over if it is on the stack |
| `ImportCycles.Detector.Unwind` | scripts/check-python-architecture.py:182-188 | the pop loop takes exactly the part of the stack from the node up, and the set follows the stack |
| `ImportCycles.Detector.PopComponent` | scripts/check-python-architecture.py:182-190 | what was popped is recorded, sorted, if it has two nodes or more |
| `ImportCycles.PushStacked` | scripts/check-python-architecture.py:169-173 | the stack lists its nodes in the order of their numbers, `on_stack` is its set, and each node is numbered once |
| `ImportCycles.Push` | scripts/check-python-architecture.py:169-173 | entering a node keeps the whole search invariant |
| `ImportCycles.ScanVisited` | scripts/check-python-architecture.py:175-177 | taking over the low-link of a visited successor keeps its meaning |
| `ImportCycles.ScanOnStack` | scripts/check-python-architecture.py:178-179 | taking over the number of a successor on the stack keeps the meaning of the low-link |
| `ImportCycles.ScanLowLink` | scripts/check-python-architecture.py:174-180 | after all successors the low-link is the least number reachable over one edge back from the part of the stack above the node |
| `ImportCycles.Return` | scripts/check-python-architecture.py:180-181 | returning below its own number, a node still reaches an unfinished one |
| `ImportCycles.RegionCloses` | scripts/check-python-architecture.py:180-188 | when a low-link equals its number, nothing leads from the popped part back below it |
| `ImportCycles.SegmentIsComponent` | scripts/check-python-architecture.py:180-188 | what is then popped is a whole strongly connected component |
| `ImportCycles.Pop` | scripts/check-python-architecture.py:182-190 | popping it keeps the invariant: found components are genuine and disjoint, popped nodes lead only to popped nodes |
| `ImportCycles.IdleStackEmpty` | scripts/check-python-architecture.py:192-194 | with no visit under way nothing is on the stack |
| `ImportCycles.BetweenRoots` | scripts/check-python-architecture.py:192-194 | between two outer roots stack and set are empty |
| `ImportCycles.Finish` | scripts/check-python-architecture.py:192-195 | once every node is numbered, the sorted result is the report of the graph |
| `Architecture.ParentIsNext` | scripts/check-python-architecture.py:153 | dropping the last dotted part leads to the longest proper package |
| `Architecture.Resolve` | scripts/check-python-architecture.py:148-153 | an imported name resolves to its longest package that is another module, if there is one |
| `Architecture.ImportGraph` | scripts/check-python-architecture.py:140-154 | the edges are exactly the resolved imports; they stay inside the graph and none is a loop |
| `Architecture.ImportCyclesOf` | scripts/check-python-architecture.py:198-235 | from imports to report: the cycles of exactly that graph |
| `Architecture.SizeFailures` | scripts/check-python-architecture.py:268-298 | one kind of definition: exactly the stale, over-limit, grown, slack and unneeded entries fail |
| `Architecture.CycleFailures` | scripts/check-python-architecture.py:300-305 | exactly the new cycles and the stale recorded ones fail |
| `Architecture.BaselineFailures` | scripts/check-python-architecture.py:262-306 | the failures are exactly the justified ones, and there is none if and only if the baseline records just the oversized definitions at their size and just the current cycles |
| `Architecture.NothingJustified` | scripts/check-python-architecture.py:262-306 | a baseline matches if and only if no failure is justified |
| `Architecture.GeneratedMatches` | scripts/check-python-architecture.py:238-259 | a baseline just generated matches |
| `PublicScan.MatchLeft` | scripts/check-public-release.py:294-297 | a line-local pattern sees on one side of a line cut nothing of the other |
| `PublicScan.FindSplits` | scripts/check-public-release.py:294-306 | leftmost non-overlapping search decomposes at every line cut |
| `PublicScan.BisectCounts` | scripts/check-public-release.py:313-325 | bisecting the line starts gives the line number of a position |
| `PublicScan.NewlinesAreBreaks` | scripts/check-public-release.py:325 | counting a prefix counts the positions of its line breaks |
| `PublicScan.ChosenIsChoice` | scripts/check-public-release.py:306 | the chosen matches are the only set that does not overlap and covers the start of every other match |
| `PublicScan.SearchCounts` | scripts/check-public-release.py:304-329 | one check: a violation is found as often as there are chosen matches that are not allowed and have its line, title and value |
| `PublicScan.CheckSplits` | scripts/check-public-release.py:315-330 | one check reports on the two sides of a cut what it reports on the whole, line numbers included |
| `PublicScan.ScanWithAdditive` | scripts/check-public-release.py:278-330 | any list of line-local checks: the report splits at every cut, as a multiset |
| `PublicScan.Matches` | scripts/check-public-release.py:304-308 | dropping the checks without a match loses nothing |
| `PublicScan.JudgeHits` | scripts/check-public-release.py:313-329 | of the matches of a check exactly those whose value is not allowed are reported, each with its title, its value and one more than the number of line breaks before it |
| `PublicScan.FileViolations` | scripts/check-public-release.py:278-330 | each violation is listed as often as there are places some check reports as it: a match that does not start inside an earlier chosen one, with a value that is not allowed; lines are counted on from the offset |
| `PublicScan.Bounds` | scripts/check-public-release.py:333-352 | the bounds run from the start to the end of the text, increase, and lie at line starts |
| `PublicScan.CutAt` | scripts/check-public-release.py:344-349 | stopping at the first cut without a line break skips nothing |
| `PublicScan.ShardBounds` | scripts/check-public-release.py:333-352 | the loop computes those bounds, for every text and count |
| `PublicScan.ShardsAreWhole` | scripts/check-public-release.py:333-352 | cut at any such bounds, the shards together report exactly what one scan of the whole text reports |
| `PublicScan.ItemsAreWhole` | scripts/check-public-release.py:377-403 | so do the work items of a file, however many are asked for |
| `PublicScan.WholeCounts` | scripts/check-public-release.py:377-403 | a whole file: every check counts, and those for Markdown in Markdown files only |
| `PublicScan.ScanOne` | scripts/check-public-release.py:377-403 | a work item reports its shard, or nothing when there are fewer shards |
| `PublicScan.FileItems` | scripts/check-public-release.py:372-373 | the work items of a file report what the whole file reports |
| `PublicScan.WorkItems` | scripts/check-public-release.py:355-374 | all work items report what the whole files report |
| `PublicScan.ScanInPool` | scripts/check-public-release.py:432-435 | workers may finish in any order: what is gathered is the same as in the loop |
| `PublicScan.ScanFiles` | scripts/check-public-release.py:406-443 | for every number of workers the report is sorted, and each violation is in it as often as the files have places reported as it: a leftmost, non-overlapping match of one of the checks, in Markdown of one of its checks as well, whose value is not allowed, with its title, value and line |
| `PublicScan.ReportIndependent` | scripts/check-public-release.py:406-443 | the report depends on the texts alone: not on sizes, shard counts or the order of the files |
| `VerdictCache.StreamInjective` | scripts/check-public-release.py:269-274 | for NUL-free source, paths and digests the hashed stream determines the source and every entry |
| `VerdictCache.DigestInjective` | scripts/check-public-release.py:269-275 | equal digests mean the same scanner over the same paths and bytes, or two different texts hashed for the two trees have one digest |
| `VerdictCache.EarnedVouches` | scripts/check-public-release.py:458-474 | a recorded pass vouches for every tree with its digest, unless a tree seen before collides with it |
| `VerdictCache.Gate.constructor` | scripts/check-public-release.py:470-473 | without a cache file nothing is recorded |
| `VerdictCache.Gate.CombinedDigest` | scripts/check-public-release.py:269-275 | the digest is that of the sorted paths and contents |
| `VerdictCache.Gate.Run` | scripts/check-public-release.py:477-516 | the exit code differs from that of a run without a cache if and only if the recorded digest is that of this tree and the tree is not clean, and then there is a collision; only digests of clean trees are recorded |
| `VerdictCache.Gate.Session` | scripts/check-public-release.py:458-516 | over any sequence of trees and runs, cached or not, every exit code equals that of an uncached run, or the tree collides with one seen before; when nothing collides, all are equal |
| `VerdictCache.Misled` | scripts/check-public-release.py:458-516 | of any two trees with one digest, a clean one lets one pass that is not |
| `VerdictCache.CollisionMisleads` | scripts/check-public-release.py:458-516 | a digest and two trees for which that happens |
| `GateTest.GateCache.constructor` | scripts/ci_coverage_config.py:250 | the cache starts empty |
| `GateTest.GateCache.Gated` | scripts/ci_coverage_config.py:326-348 | the recursion over the shared cache computes the specified answer and cache, and terminates on every import graph |
| `GateTest.QuerySound` | scripts/ci_coverage_config.py:326-348 | a True means a reading module is reachable, on every graph and for every sound cache, and only such Trues are cached |
| `GateTest.QueryKeeps` | scripts/ci_coverage_config.py:337-347 | current answers are kept, and the answer of a query is cached |
| `GateTest.FirstQueryExact` | scripts/ci_coverage_config.py:326-348 | the first query from an empty cache is exact, cycles included |
| `GateTest.AlwaysExact` | scripts/ci_coverage_config.py:326-348 | every query of every sequence on unchanged files is exact if and only if the imports have no trap: no gated module that is asked for while all its ways to a reader lead back through the chain |
| `GateTest.TrapMisleads` | scripts/ci_coverage_config.py:326-348 | where there is a trap, two queries suffice for a wrong answer |
| `GateTest.TrapIsCycle` | scripts/ci_coverage_config.py:326-348 | a trap needs an import cycle |
| `GateTest.AcyclicExact` | scripts/ci_coverage_config.py:326-348 | when the cycle detector reports nothing on the test modules, every answer is exact |
| `GateTest.CycleMisleads` | scripts/ci_coverage_config.py:326-348 | a concrete cycle after which a gated module is answered False |
| `GateEdits.QueryAdds` | scripts/ci_coverage_config.py:334-347 | every cached answer is an old one or is stamped with its file as it is now |
| `GateEdits.SteadyIsRight` | scripts/ci_coverage_config.py:326-348 | over any number of edits that change no answer of a file whose stamp stands, every query of every session is answered as the files then are |
| `GateEdits.EditMisleads` | scripts/ci_coverage_config.py:334-339 | a file whose stamp stands while edits of others changed its answer is answered wrongly when it was asked for before |
| `GateEdits.EditsExact` | scripts/ci_coverage_config.py:326-348 | where no version has a trap, all sessions over all edits are answered exactly if and only if no file whose stamp stands becomes gated, or ceases to be, by edits of other files |
| `GateEdits.HarmlessEdit` | scripts/ci_coverage_config.py:326-348 | a file that leads to nothing edited stays gated, or not, as it was |
| `GateEdits.HarmlessKeepsExact` | scripts/ci_coverage_config.py:334-339 | so cached answers stay right when no cached file leads to an edited one |
| `GateEdits.HelperEditMisleads` | scripts/ci_coverage_config.py:334-339 | a helper that comes to read the URL: its importer is answered False before and after |
| `TestPartition.PartitionFor` | tools/pytest_result_identity.py:16-20 | the slot of a test id lies below the count |
| `TestPartition.ShardRoundTrip` | scripts/ci_coverage_config.py:375-382 | the name of a numbered shard is taken apart into its domain and number |
| `TestPartition.DecimalRoundTrip` | scripts/ci_coverage_config.py:393 | the number in a shard name is read back |
| `TestPartition.ShardShape` | scripts/ci_coverage_config.py:55-62 | every shard is the one undivided domain or a numbered slot of a divided one |
| `TestPartition.SlotShard` | scripts/ci_coverage_config.py:385-393 | every slot of a divided domain has its shard, and that shard its slot |
| `TestPartition.OneShard` | scripts/ci_coverage_config.py:375-393 | within a domain every test id falls to exactly one physical shard, for every hash |
| `TestPartition.OwnerDomain` | scripts/ci_coverage_config.py:351-372 | no file but an excluded one is without owner, and none but a shared one is owned by something else than a domain |
| `TestPartition.RunByExact` | scripts/ci_coverage_config.py:351-372 | which domain runs a file: PostgreSQL if and only if it is listed, named so or gated; the fault runner if and only if not that and listed; deployment if and only if neither and a prefix or glob matches; runtime if and only if none |
| `TestPartition.ClassifyExact` | scripts/ci_coverage_config.py:496-511 | a test file fails exactly when it is a shared one, and never as unclassified; it is skipped exactly when excluded |
| `TestPartition.AssignNext` | scripts/ci_coverage_config.py:505-511 | one more file: it is assigned and counted, or it is the first one that is shared or listed twice |
| `GatedPartition.TestOwner` | scripts/ci_coverage_config.py:351-372 | the gate is asked only when nothing before it decides; the owner is the one its standing answers give |
| `GatedPartition.AskingSettles` | scripts/ci_coverage_config.py:326-348 | asking for a file leaves its answer in the cache and keeps the others; asking again changes nothing |
| `GatedPartition.PassClean` | scripts/ci_coverage_config.py:326-348 | on an import graph without traps a pass over the files leaves right answers only |
| `GatedPartition.PassReaches` | scripts/ci_coverage_config.py:326-372 | after it every domain runs the files that reaching a reader gives it |
| `GatedPartition.VerdictStands` | scripts/ci_coverage_config.py:351-372 | once the gate has answered for a file, later answers do not change what becomes of it, import cycles included |
| `GatedPartition.AssignFiles` | scripts/ci_coverage_config.py:494-511 | the loop, asking the gate as it goes, accepts exactly the lists without failing files and without repeats, and counts every domain |
| `GatedPartition.ValidateTestPartition` | scripts/ci_coverage_config.py:489-526 | accepts if and only if no test file is shared, every other one is listed once, the configured files exist and every domain has tests; the counts are the sizes of the domains; the error for unclassified tests never occurs; on an import graph without traps the domains are those that reaching a reader gives |
| `GatedPartition.PassSettles` | scripts/ci_coverage_config.py:400-419 | after a pass over the files every answer stands |
| `GatedPartition.PassIdle` | scripts/ci_coverage_config.py:400-419 | a pass over settled files leaves the cache as it is |
| `GatedPartition.PassesAgree` | scripts/ci_coverage_config.py:400-419 | a further pass over the repository gives every file its first answer |
| `TestPartition.OwnedByOne` | scripts/ci_coverage_config.py:351-372 | a test file that is neither shared nor excluded is run by exactly one domain |
| `TestPartition.EveryTestOnce` | scripts/ci_coverage_config.py:351-419 | in an accepted repository every test id of a file that is not excluded runs in exactly one physical shard, and one of an excluded file in none |
| `GatedPartition.PytestTargets` | scripts/ci_coverage_config.py:400-419 | the targets are the files of the domain, sorted, as often as listed; unknown shards and empty domains are the only errors; on an import graph without traps the domain is the one that reaching a reader gives |
| `GatedPartition.TargetJob` | scripts/ci_coverage_config.py:400-419 | every process that starts with an empty cache is told its targets by the same ownership; on an import graph without traps the PostgreSQL targets are exactly the test files that are configured so or reach a module that reads the URL |
| `GatedPartition.ShardJob` | scripts/ci_coverage_config.py:400-526 | so is one that validates first; in an accepted repository every shard has targets, none named twice, and they are the files its domain owns |
| `TestPartition.TargetsDistinct` | scripts/ci_coverage_config.py:400-419 | in an accepted repository the targets of a domain are its test files, there are some, and none is named twice |
| `TestPartition.TestFilesAgree` | scripts/ci_coverage_config.py:432-437 | the two spellings of the test-file condition pick the same files |
| `Paths.SuffixIsEnding` | scripts/ci_coverage_config.py:411-436 | having the suffix `.py` and ending in `.py` are the same for these names |
| `ShardArguments.Collector.constructor` | scripts/ci_coverage_config.py:461-462 | the lists start empty |
| `ShardArguments.Collector.Visit` | scripts/ci_coverage_config.py:464-483 | what a visit appends collects exactly the targets below its directory, and ignores at most one file per five targets; it names exactly the directories and files that are to be named from there down; the recursion ends |
| `ShardArguments.Collector.VisitEntries` | scripts/ci_coverage_config.py:475-483 | the same for a directory taken apart |
| `ShardArguments.Collector.ListFiles` | scripts/ci_coverage_config.py:475-481 | the target files directly in the directory are named, and every other file lies in a named subdirectory |
| `ShardArguments.Collector.VisitSubdirectories` | scripts/ci_coverage_config.py:482-483 | the subdirectories together collect exactly their targets |
| `ShardArguments.CollectsJoin` | scripts/ci_coverage_config.py:464-483 | collections of disjoint parts join: nothing is collected twice, no path lies below another |
| `ShardArguments.BelowCount` | scripts/ci_coverage_config.py:466-471 | the compared lengths count the places of the file list |
| `ShardArguments.ExactWiden` | scripts/ci_coverage_config.py:475-483 | what is named from a mixed directory down is what is named from its entries down |
| `ShardArguments.Arguments` | scripts/ci_coverage_config.py:440-486 | a directory is named if and only if it has targets below it, per five of them at most one other file, and no directory above it from `tests` down is such a one; a file if and only if it is a target below no such directory; ignored are exactly the other files in the directories named. So for every tree and target set: collected are exactly the targets, no path lies at or below another, no ignored file is a target, ignores are at most a fifth of the targets, and both lists are sorted; the list of files may repeat some, and where it does not no path is named twice |
| `Globs.GlobRegex` | scripts/check-doc-impact.py:134-154 | the loop emits the pieces the pattern compiles to |
| `Globs.GlobAgrees` | scripts/check-doc-impact.py:134-158 | on newline-free paths, for every pattern where `**` fills whole segments, the compiled expression matches exactly what the segment-wise matcher does |
| `Globs.DoubleIsAnyNumber` | scripts/check-doc-impact.py:138-140 | before further segments `**` stands for any number of whole directories, none included |
| `Globs.DoubleInsideSegment` | scripts/check-doc-impact.py:138-143 | an example: a pattern with `**` inside a segment, and a path on which expression and matcher differ; whole segments are sufficient for agreement, not necessary |
| `Wheels.ParentsOf` | scripts/component_wheels.py:420-424 | exactly the existing parent packages that are not selected yet are appended |
| `Wheels.Expand` | scripts/component_wheels.py:419-424 | a module adds exactly what it needs and what is not selected |
| `Wheels.DependencyClosure` | scripts/component_wheels.py:408-426 | the result is the least set with the roots that is closed under imports and existing parent packages, and the root package; unknown roots, and only they, are an error; the worklist ends despite repeats |
| `Wheels.ResultClosed` | scripts/component_wheels.py:425 | with a root inside the root package the whole result is closed |
| `WheelDigest.KeysClash` | scripts/component_wheels.py:258-265 | two files share a key exactly when they are equal or one mirrors the release package inside the main one |
| `WheelDigest.CopyModules` | scripts/component_wheels.py:474-491 | the staged tree: modules keep their place, data files their name, a later one replaces what lies there, nothing else is staged |
| `WheelDigest.TreeStaged` | scripts/component_wheels.py:474-491 | every selected file is in the tree, and everything in it was selected |
| `WheelDigest.SourceDigest` | scripts/component_wheels.py:588-608 | the digest of the selection is that of one record per file, in key order |
| `WheelDigest.PackageEntries` | scripts/component_wheels.py:565-578 | the walk finds every digested file under its key and nothing else; where two share a key, the later package wins |
| `WheelDigest.EntriesUnique` | scripts/component_wheels.py:565-578 | so there is one set of entries, in whatever order the files are walked |
| `WheelDigest.PackageDigest` | scripts/component_wheels.py:554-585 | the digest of the staged tree is that of one record per key of a walked file, in order; no other stream is possible |
| `WheelDigest.StreamInjective` | scripts/component_wheels.py:580-584 | the hashed stream determines the records |
| `WheelDigest.AgreeWhenFaithful` | scripts/component_wheels.py:554-608 | same keys, same order, same contents: a faithful selection gives both digests the same records |
| `WheelDigest.FaithfulWhenAgree` | scripts/component_wheels.py:554-608 | and only a faithful one does |
| `WheelDigest.StreamsAgree` | scripts/component_wheels.py:554-608 | the stream of the records of the selected files is that of their staged tree if and only if the selection is faithful |
| `WheelDigest.FaithfulIs` | scripts/component_wheels.py:554-608 | a selection is faithful if and only if it has only `.py`, `.yaml`, `.yml` and `.json` files outside `__pycache__`, its data lies directly in the data directory, nothing is selected twice and no release file has a mirror in the main package |
| `WheelDigest.DigestTwice` | scripts/component_wheels.py:474-608 | staging and digesting twice: one digest is that of the records of the source files in key order, the other that of the tree they are staged into; the two hash the same stream if and only if every selected file is walked, data lies flat, no file is listed twice and no two share a key; where other digests agree, two streams collide |
| `WheelDigest.MirrorUnfaithful` | scripts/component_wheels.py:557-562 | a release module next to its mirror parts the streams |
| `WheelDigest.MirrorParts` | scripts/component_wheels.py:557-562 | a valid selection of two named files: the stream of its records differs from that of its staged tree, and the digests are those of the two |
| `Receipts.CollectedOnce` | scripts/ci_pytest_evidence.py:155-162 | two shards that executed ids of one normal form are one shard, and the ids are one |
| `Receipts.DiscoveredIsCollected` | scripts/ci_pytest_evidence.py:317-323 | what any shard discovered, the shard of its slot executed: slices and agreement force full coverage |
| `Receipts.ExactlyOnce` | scripts/ci_pytest_evidence.py:309-323 | every discovered id was executed by exactly one shard |
| `Receipts.NothingMissing` | scripts/ci_pytest_evidence.py:346-347 | the union of the executed slices is the union of the discoveries |
| `Receipts.FinalCheck` | scripts/ci_pytest_evidence.py:346-347 | after the loop the merged keys equal the discovery; the counts differ exactly when a record is stray |
| `Receipts.ValidIsOrderly` | scripts/ci_pytest_evidence.py:102-170 | a receipt is valid if and only if its fields fit, there is a record for exactly the tests executed, these are the tests found that fall to the slot, and the tests found are in the files of the shard, with distinct normal forms, none listed twice |
| `Receipts.NeverOverlaps` | scripts/ci_pytest_evidence.py:312-313 | the overlap check never fires |
| `Receipts.MergeEntry` | scripts/ci_pytest_evidence.py:287-343 | an entry fails only for a check of its own or for a disagreement on discovery |
| `Receipts.CheckCoverage` | scripts/ci_pytest_evidence.py:346-348 | the final check rejects stray records and nothing else |
| `Receipts.ParseAggregate` | scripts/ci_pytest_evidence.py:259-348 | accepts if and only if every shard has its entry, every entry is current, fits and is orderly, a PostgreSQL entry and no other has a fitting stress run over the same tests, the shards of a domain agree, and every record belongs to an entry; returns every record under its normal form |
| `Receipts.RecordedOnce` | scripts/ci_pytest_evidence.py:259-348 | in such an aggregate every discovered id has a record, from exactly one shard |
| `Receipts.StressedOnce` | scripts/ci_pytest_evidence.py:324-343 | and the stress runs executed every PostgreSQL test in exactly one shard |
| `Receipts.UniteReceipts` | scripts/ci_pytest_evidence.py:210-223 | uniting the receipts fails only for an invalid one |
| `Receipts.AggregateResults` | scripts/ci_pytest_evidence.py:204-256 | an aggregate is built exactly when all receipts are valid, current and agree; it loses nothing: cutting out any shard gives back its receipt; overlap and coverage errors never occur |
| `Receipts.PlanSliced` | scripts/ci_coverage_config.py:375-393 | the shards of the test partition slice every plan |
| `Receipts.PlanSeparate` | scripts/ci_coverage_config.py:400-419 | the targets of different domains are disjoint, for every repository |
| `PartitionUnion.ValidateSlice` | scripts/postgres_shard_receipts.py:289-333 | accepts exactly the receipts that timed their non-empty slice of a discovery covering the requested files |
| `PartitionUnion.ValidatePartitionUnion` | scripts/postgres_shard_receipts.py:336-353 | accepts exactly the complete inventories of agreeing, disjoint, covering receipts, and keeps every duration |
| `PartitionUnion.OnePerSlot` | scripts/postgres_shard_receipts.py:339-342 | a complete inventory has one receipt per slot |
| `PartitionUnion.SlicesCover` | scripts/postgres_shard_receipts.py:344-352 | agreeing slices are disjoint and cover the discovery, so the last two checks cannot fail |
| `PartitionUnion.TimedInSlot` | scripts/postgres_shard_receipts.py:336-353 | every discovered test is timed by exactly the receipt of its slot |
| `ReleaseDriver.FactsNext` | scripts/release_deploy.py:860-1013 | every step keeps what each stage of the protocol knows about the steps behind it |
| `ReleaseDriver.CommitOnce` | scripts/release_deploy.py:968-979 | over every run, the commit is started at most once |
| `ReleaseDriver.CommitBacked` | scripts/release_deploy.py:960-979 | only after a valid verification on record, and a valid stability window on record or a staged NOOP |
| `ReleaseDriver.NoopNeverDeploys` | scripts/release_deploy.py:922-958 | no run both stages a NOOP and starts the mutating deploy |
| `ReleaseDriver.JoinedBeforeActing` | scripts/release_deploy.py:773-787 | off the NOOP path nothing is done, and nothing recovered, between the ends of the two concurrent checks |
| `ReleaseDriver.VerificationKept` | scripts/release_deploy.py:788-802 | a verification that succeeded goes on record before anything is recovered, even if the window failed |
| `ReleaseDriver.ApprovalAfterCompletion` | scripts/release_deploy.py:1012 | an approval is consumed only after the completion is on record, in a run never marked failed |
| `ReleaseDriver.CompletedOrFailed` | scripts/release_deploy.py:980-1004 | no run is both on record as completed and marked failed |
| `ReleaseDriver.RollbackJustified` | scripts/release_failure_recovery.py:381-424 | an automatic rollback follows a successful deploy in a run marked failed; once the commit was started, only on a live state read since and not committed |
| `ReleaseDriver.WantedIsAutomatic` | scripts/release_failure_recovery.py:77-105 | the rollback policy of the recovery is the one told by the settings and the diff |
| `ReleaseDriver.CommitBeforeRecovery` | scripts/release_deploy.py:968-997 | nothing is recovered before a commit |
| `ReleaseDriver.ReloadBreaks` | scripts/release_deploy.py:636-639 | an unreadable site file always breaks a release, a committed one, and the completion is never tried |
| `ReleaseDriver.RegistryBreaksIff` | scripts/release_deploy.py:602-645 | after a commit the site file fails the run if and only if it is not a NOOP whose last record stands and the file cannot be read |
| `ReleaseDriver.CommittedCause` | scripts/release_deploy.py:498-560 | a committed run that broke did so either for the site file or for the completion record |
| `ReleaseDriver.ConsumedAt` | scripts/release_deploy_profile.py:655-683 | a run that consumed its approval ends with the record after it, and with what becomes of that |
| `ReleaseDriver.LostStage` | scripts/release_deploy_profile.py:655-683 | the approval is lost exactly when the run ends with its consumption and a failed record |
| `ReleaseDriver.Driver.constructor` | scripts/release_deploy.py:907-909 | a run starts with nothing done |
| `ReleaseDriver.Driver.DeploymentDecision` | scripts/release_deploy.py:648-709 | a NOOP is taken only on an identified clean diff, and only its failed staging is an error; whether the schema is touched is known only from an identified diff |
| `ReleaseDriver.Driver.ApplyRelease` | scripts/release_deploy.py:928-958 | the deploy runs off the NOOP path only, and the flag says whether it succeeded |
| `ReleaseDriver.Driver.VerifyAndWatch` | scripts/release_deploy.py:773-787 | both checks have ended, in either order |
| `ReleaseDriver.Driver.RunVerificationAndStability` | scripts/release_deploy.py:712-823 | a failed verification is the error whatever the window did |
| `ReleaseDriver.Driver.RecordRegistry` | scripts/release_deploy.py:602-645 | the registry record fails if and only if the site file has to be read and cannot |
| `ReleaseDriver.Driver.CompleteRelease` | scripts/release_deploy.py:498-560 | after the commit the release fails if and only if the registry record does or the completion cannot be recorded, and says which |
| `ReleaseDriver.Driver.CommitAndComplete` | scripts/release_deploy.py:826-857 | the commit is the only other cause, and when it is one |
| `ReleaseDriver.Driver.Transact` | scripts/release_deploy.py:910-979 | the flags given to the failure handler say what was deployed and whether the commit was started |
| `ReleaseDriver.Driver.NoRollbackBaseline` | scripts/release_failure_recovery.py:270-295 | a first installation is one that the live state says is complete and without a predecessor; it is read only when it is not known |
| `ReleaseDriver.Driver.RollbackAfterFailure` | scripts/release_failure_recovery.py:180-267 | the failure is marked before the rollback is tried; the rollback passes, fails or is refused as the first of rollback, live state and alignment that does not succeed says |
| `ReleaseDriver.Driver.FinishExistingRollback` | scripts/release_failure_recovery.py:331-371 | a rollback the engine has done is cleaned up if that is pending, and aligned if it needs no cleanup or the cleanup restored everything |
| `ReleaseDriver.Driver.RecoverReleaseFailure` | scripts/release_failure_recovery.py:298-424 | the live state is read unless a deployed, uncommitted release is not to be rolled back; a rollback is tried if and only if it is wanted and the state read leaves one to do; why a release is left alone |
| `ReleaseDriver.Driver.RunPreflight` | scripts/release_deploy.py:867-906 | a failed preflight leaves nothing but preflight steps |
| `ReleaseDriver.Driver.ConsumeApprovalState` | scripts/release_deploy_profile.py:648-683 | what becomes of the approval and of its audit, answer by answer; a refused approval is audited, one that raises is not |
| `ReleaseDriver.Driver.ExecuteRelease` | scripts/release_deploy.py:860-1013 | the outcome of a run, stage by stage |
| `ReleaseDriver.Release` | scripts/release_deploy.py:860-1013 | a whole run in a world that may fail anywhere, told by its trace: it follows the protocol; it is released if and only if it is completed and its approval consumed with that on record; an approval is consumed in a failing run if and only if the run ends with that and a failed record; a failed verification is the reported cause; a committed run that is not completed reports the site file or the completion record, and the site file fails it if and only if the registry record had to read it and could not; the cause is a step that failed; if the first answers are no failures the release is completed; a NOOP is staged if and only if the diff is identified and clean; an automatic rollback is tried if and only if the deploy succeeded, the site wants one, no schema change was accepted or the diff is known not to touch the schema, the live state first read is no complete first installation and, after a tried commit, was read and is neither rolled back nor committed, and the failure was put on record; a rollback of the engine is cleaned up and aligned; a failed rollback is reported if and only if one of its steps failed |
| `ReleaseDriver.SiteFileFailsRelease` | scripts/release_deploy.py:602-645 | in the world `WithoutSiteFile`, where only the site file cannot be read, every release commits and is reported as failed for it |
| `ReleaseDriver.LastRecordLosesApproval` | scripts/release_deploy_profile.py:655-683 | in the world `WithoutLastRecord`, where only the last record cannot be written, every release is completed, consumes its approval and fails |
| `GuardRanges.MirrorInvert` | scripts/generate-env-reference.py:551-562 | mirroring swaps the operands, inverting negates; each undoes itself and they commute |
| `GuardRanges.LiteralIsValue` | scripts/generate-env-reference.py:533-539 | a recognised literal is the value of its expression |
| `GuardRanges.LinkBoundExact` | scripts/generate-env-reference.py:575-590 | a bound read from a link says exactly what the link says, whether it must hold or must not |
| `GuardRanges.CompareBounds` | scripts/generate-env-reference.py:565-591 | the bounds are those of the recognised links, in their order |
| `GuardRanges.ChainHolds` | scripts/generate-env-reference.py:572-574 | the operands of a chain are its neighbours |
| `GuardRanges.StatementBounds` | scripts/generate-env-reference.py:594-619 | the bounds of a guard are those of the comparison it is read from, in their order: one for each link between a name and a number, and nothing else is read |
| `GuardRanges.GuardRead` | scripts/generate-env-reference.py:594-619 | a raising comparison of one link between a name and a number gives the one bound that says it fails; a raising negated chain gives one bound per such link, in order, that says the link holds; everything else gives none |
| `GuardRanges.SaysOne` | scripts/generate-env-reference.py:565-591 | there is only one bound that says so |
| `GuardRanges.BoundOfSays` | scripts/generate-env-reference.py:594-619 | the bounds of a statement are exactly those its links say |
| `GuardRanges.PlainGuard` | scripts/generate-env-reference.py:606-619 | the commonest guard has one bound, met by exactly the values that pass it |
| `GuardRanges.BoundsSound` | scripts/generate-env-reference.py:594-619 | a value that passes a guard meets every bound read from it |
| `GuardRanges.BoundsExact` | scripts/generate-env-reference.py:594-619 | and a fully read guard passes exactly those values |
| `GuardRanges.MergeBounds` | scripts/generate-env-reference.py:643-678 | the merged limits are the widest recorded ones; crossed limits give no range |
| `GuardRanges.EffectiveExact` | scripts/generate-env-reference.py:659-663 | a guard is recorded unless it is strict and not about integers with a whole limit, and then with the inclusive limit that accepts the same values, a whole one for integers |
| `GuardRanges.MergeOrder` | scripts/generate-env-reference.py:643-678 | the merged range depends on which guards were observed, not on their order or number |
| `GuardRanges.RefusedByGuard` | scripts/generate-env-reference.py:659-678 | a value outside the range is refused by every guard on that side that is not overruled |
| `GuardRanges.OutsideIffOverruled` | scripts/generate-env-reference.py:649-678 | which guards the merged range contradicts is settled by the guards alone |
| `GuardRanges.OnlyUselessIff` | scripts/generate-env-reference.py:649-656 | start-up refuses only what no guard on that side accepts, if and only if no guard left out for want of an inclusive form is overruled by the others: they have limits on its side, all narrower than the nearest value it accepts, and the limits do not cross |
| `GuardRanges.StrictGuardOverruled` | scripts/generate-env-reference.py:649-663 | two guards on which the promise fails |
| `GuardRanges.ModuleBounds` | scripts/generate-env-reference.py:622-640 | the guards of a variable are exactly those that the links of raising statements of the function bodies say about a name holding it, in their order |
| `GuardRanges.UsableNotRefused` | scripts/generate-env-reference.py:594-678 | a value with which a statement passes is not refused on a side it bounds, unless its guard is overruled |
| `EnvAliases.Round` | scripts/generate-env-reference.py:381-391 | a round without progress is at a fixpoint |
| `EnvAliases.ResolveAliases` | scripts/generate-env-reference.py:379-393 | within its rounds the loop reaches the least fixpoint: a name is resolved to a key exactly when its chain of aliases ends in a read of it |
| `EnvAliases.EndsInOne` | scripts/generate-env-reference.py:379-393 | a chain ends in at most one key |
| `EnvAliases.CycleUnresolved` | scripts/generate-env-reference.py:379-393 | a name on a cycle of aliases stays unresolved |
| `GridLayout.LineWidths` | scripts/build-grafana-dashboards.py:310-320 | the widths are those of lines of at most four panels, every line full, in the minimum number of lines, all but the last with the same number of panels, the least that many lines allow |
| `GridLayout.FewestLines` | scripts/build-grafana-dashboards.py:312 | no lines of at most four panels are fewer |
| `GridLayout.NoShorterLines` | scripts/build-grafana-dashboards.py:313-319 | however else as many lines are filled, some line is as long |
| `GridLayout.FullLine` | scripts/build-grafana-dashboards.py:318 | one to four panels share the columns without remainder |
| `GridLayout.WrapAtLineEnd` | scripts/build-grafana-dashboards.py:344-346 | the next panel fits exactly when its line is not full, and a full line ends at the last column |
| `GridLayout.CellsFillLine` | scripts/build-grafana-dashboards.py:343-350 | the cells of a line tile all columns |
| `GridLayout.PlacePanel` | scripts/build-grafana-dashboards.py:343-350 | a panel stands in its cell, apart from everything before it |
| `GridLayout.RenderRow` | scripts/build-grafana-dashboards.py:329-351 | a row is its header and its panels in the cells below, of the stated height |
| `GridLayout.RenderPanels` | scripts/build-grafana-dashboards.py:323-352 | for every dashboard: rectangles pairwise disjoint and inside the grid, ids counting from one, every row in place in as few lines as possible |
| `Pgpass.EscapeIsOnePass` | scripts/ci_postgres_grant.py:290-291 | escaping backslashes and then colons is escaping both in one pass |
| `Pgpass.ReadLine` | scripts/ci_postgres_grant.py:286-293 | the reader of section 34.16 of the PostgreSQL 16 documentation undoes escaping and joining, for every list of fields |
| `Pgpass.RoundTrip` | scripts/ci_postgres_grant.py:286-293 | the file gives back its fields if and only if none contains a line feed |

## Left out

- PublicScan.FileViolations: takes from the source that no pattern matches across
  a line break, and that none matches the empty text; the patterns themselves,
  their allow lists and the selection of text files are not modelled.
- VerdictCache.Gate.Session: the cache file is written by the gate alone; a
  damaged or foreign cache file counts as absent.
- GateEdits.EditsExact: edits happen between queries, not during one.
- Architecture.BaselineFailures: states which failures are reported, not their
  order and wording.
- Architecture.SizeFailures: states which failures are reported, not their order
  and wording.
- Architecture.CycleFailures: states which failures are reported, not their order
  and wording.
- TestPartition.ShardRoundTrip: decimal digits are the ASCII ones.
- GatedPartition.ValidateTestPartition: the file tree does not change during a
  run, and the glob match of a file is a given function.
- ShardArguments.Arguments: takes the test files as a tree of files below `tests`,
  as the repository lists them, and the tolerated fraction of 0.2
  as one ignored file per five targets.
- Receipts.ParseAggregate: the checks on single fields of a receipt or entry
  (identities, digests, times, selection, workers, durations) are one given
  condition each; normal forms are assumed to tell the ids of listed files apart.
- PartitionUnion.ValidateSlice: the checks on single fields of the session are
  not modelled.
- GuardRanges.ModuleBounds: which names hold which variables in a function body is
  given.
- WheelDigest.DigestTwice: the digest without source overrides; file modes and
  the rest of the built project are not modelled.
- ReleaseDriver.Release: interrupts that are not exceptions, locks and signals
  are not modelled; what a step does outside is reduced to its reply.
- GuardRanges.CompareBounds: comparisons are over the reals, without NaN.
- EnvAliases.ResolveAliases: starts from the reads and single-assignment names of
  a scope; collecting them from the syntax tree is not modelled.
- GridLayout.RenderPanels: places panels by title; what a panel shows is not
  modelled.
- Pgpass.RoundTrip: one line; wildcards and the choice among lines are not
  modelled.
- Signing, attestation, container, cluster and GitHub calls: their behaviour is
  outside these scripts.
- Dashboard contents, environment-variable tables, link and schema checks, count
  ratchets: text formatting and map comparisons that would only add easy members.
