# OpenMinion release and guardrail model

A Dafny model of the code that decides what OpenMinion publishes and what its guardrails let through,
with proofs about whole runs of it.

**Runtime publication.** A publisher writes an immutable release record on a branch of its own, then a
stable feed that pins the commit of that record, then opens one pull request. It can be cut after every
access to the public repository and started again, while maintainers merge, close, delete and develop.
The public repository is a graph of commits with trees, a main, publication branches and open requests
(`CommitGraph`, `Publication`). `PublicationSafety` and `PublicationRuns` hold the invariant and its
preservation by every step; `PublicationStages` says what each stage does on any repository, good or not;
`PublicationTheorems`, `PublicationReruns`, `PublicationOutcomes` and
`PublicationRaces` hold what follows over every interleaving (`PublicationSamples` is a repository to write
runs out with). `Feeds` is the feed update itself.

**Release records.** `ReleaseManifest` and `BinaryManifest` are the producers of records, `ReleaseStatus`
the reader of the public feeds, and `ReleaseMilestones` proves that the two sides agree on every main that
the publication protocol can reach. `ExactLists` is the counting argument behind "each target and each
check once", `RecordPaths` the argument that a path can be treated as its fields.

**Graph algorithms.** `ModuleCycles` is the bounded enumeration of import cycles with its backtracking
search, `ChangeImpact` the selection of continuous-integration work.

**Ratchets.** `Ratchet` is the order on baselines, `Tsv` and `BaselineFiles` their files, `MethodLoc` and
`BroadException` the two validators, `MypyBudget` the error budget with its reviewed resets.

**Performance gate.** `Rounding`, `Intervals`, `Percentiles`, `Identity`, `PerformanceGate` and `Campaign`
go from counters and samples to the exit code.

`Results`, `Sequences` and `Texts` are shared vocabulary. `dafny verify dfyconfig.toml` checks the project.

## What turned out different from what one would expect

Each of these has a lemma with a concrete input, or an exact condition, below.

- A pending request need not extend main's feeds: a request that is merged between a run's fetch of main and
  its listing of open requests is missed. This is the only way (`PublicationRaces.RequestIsStaleExactly`), it
  does happen (`PublicationRaces.RaceMakesRequestStale`), and main itself still never loses a reference.
- A rerun after the request was opened leaves the same repository, but it reports an error instead of the
  pending merge exactly when the request it opened filled the listing of 1000
  (`PublicationReruns.CutAfterRequest`, `PublicationOutcomes.FullListingFailsRerun`).
- Adding two references commutes exactly when their versions differ in the version order.
- A baseline entry whose path starts with `#` is lost when the file is written, so that a successful update
  fails validation; a field with outer white space does not survive the file either, but the updates never
  write one.
- Two methods with one name and different lengths make a successful baseline update fail validation.
- `impacted_modules` can shrink when more files change; `test_modules` cannot.
- Reaching zero mypy errors switches both guards of the budget off.

## Assumptions

- Publisher runs do not overlap. Feeds and records on main change only through merged publication requests;
  other commits leave them alone.
- A digest is a free constructor over the bytes and a file is the document it encodes, so the digest and the
  encoder are injective. A version has a place in the version order, and the properties the program asks for.
- The repository starts with two empty feeds. The invariant is preserved from any state that satisfies it.
- A branch that is on main already gets no pull request: there is nothing to merge.
- A merge is a file-level three-way merge over a common ancestor; a file changed differently on both sides
  refuses it.
- Ratios, percentiles and rounding are exact rational arithmetic instead of floating point.

## Model

| member | source | states |
|---|---|---|
| `Feeds.AddReferenceEffect` | scripts/ci/publish_runtime_manifest.py:94-113 | on a sorted feed without repeats an accepted reference gives a sorted feed without repeats and at most 100 entries that holds the old references and the new one, which leads its version class while nothing else moves; the feed takes the publication time of the record and keeps all its other fields |
| `Feeds.AddReferenceRefusal` | scripts/ci/publish_runtime_manifest.py:97-110 | a reference is refused exactly for a foreign feed or one that would outgrow 100 entries |
| `Feeds.AddReferenceIdempotent` | scripts/ci/publish_runtime_manifest.py:105-111 | adding a reference twice is adding it once, which makes an identical request a no-op |
| `Feeds.AddReferenceCommutes` | scripts/ci/publish_runtime_manifest.py:105-112 | where two different references can be added one after the other, the other order is accepted too, and gives the same releases if and only if their versions differ in the order |
| `Feeds.NewestFirstSorts` | scripts/ci/publish_runtime_manifest.py:112 | the sort puts the newest version first, whatever the list |
| `Feeds.NewestFirstIsStable` | scripts/ci/publish_runtime_manifest.py:112 | the sort is a permutation and keeps the order of references of one version |
| `CommitGraph.LastTouchHasTheFile` | scripts/ci/publish_runtime_manifest.py:398-399 | the commit the log finds for a path is an ancestor of the head and holds the very bytes of the head |
| `CommitGraph.DescentPreserves` | scripts/ci/publish_runtime_manifest.py:116-122 | if every edge keeps record bytes and references, then so does every path of history |
| `CommitGraph.MergePreserves` | scripts/ci/publish_runtime_manifest.py:431 | a clean merge over any common ancestor keeps the records and references of both sides |
| `CommitGraph.MergedReleases` | scripts/ci/publish_runtime_manifest.py:431 | the merged feed is one of the two feeds and holds the references of both |
| `Publication.VerifyReference` | scripts/ci/publish_runtime_manifest.py:297-312 | one reference is accepted if and only if it is pinned, at a plain path of its distribution, to an ancestor of the head that serves the very bytes of the head, with their digest |
| `Publication.VerifyPublished` | scripts/ci/publish_runtime_manifest.py:291-312 | the checking loop accepts if and only if for both feeds the public bytes match and every reference is pinned to an ancestor with the head's bytes and digest |
| `PublicationStages.CheckoutMeans` | scripts/ci/publish_runtime_manifest.py:347-385 | on any repository: a run goes on from its branch, or from main without one, if and only if fewer than 1000 requests are open and none of another publication, and the branch descends from the fetched main and changes nothing but the record and its feed; each error stands exactly in its case |
| `PublicationStages.RecordStageMeans` | scripts/ci/publish_runtime_manifest.py:386-397 | on any repository: the head keeps a record with these bytes, other bytes are refused, and otherwise one commit on the head adds exactly the record and moves exactly the branch, unless that is not a fast-forward |
| `PublicationStages.FeedStageMeans` | scripts/ci/publish_runtime_manifest.py:398-415 | on any repository: the record must read back from the commit that the log finds and the feed must be one; then the feed with the reference is committed, or nothing if it has the reference; each error stands exactly in its case |
| `PublicationStages.RequestStageMeans` | scripts/ci/publish_runtime_manifest.py:416-433 | on any repository: a head that does not verify is refused, an open request is left alone, and otherwise exactly one request is added |
| `PublicationSafety.RecordKeepsHistory` | scripts/ci/publish_runtime_manifest.py:386-397 | a record commit on a commit of main keeps the history good: pins resolved, records unchanged, commits in shape |
| `PublicationSafety.FeedKeepsHistory` | scripts/ci/publish_runtime_manifest.py:401-415 | a feed commit on its record commit keeps the history good |
| `PublicationSafety.MergeKeepsHistory` | scripts/ci/publish_runtime_manifest.py:431 | a merge commit of a publication branch keeps the history good |
| `PublicationRuns.CheckoutFindsOwnBranch` | scripts/ci/publish_runtime_manifest.py:347-385 | the pending-request guard, the ancestor check and the check of the changed paths leave only this record's own branch, started on the fetched main |
| `PublicationRuns.LogFindsRecordCommit` | scripts/ci/publish_runtime_manifest.py:398-399 | on a publication branch the log finds the record commit that was first pushed |
| `PublicationRuns.AdvancedFeedIsStable` | scripts/ci/publish_runtime_manifest.py:400-415 | on a branch that already advanced its feed the feed stage writes nothing |
| `PublicationRuns.NextKeepsInv` | scripts/ci/publish_runtime_manifest.py:315-440 | every step of the publisher, a crash, and every step of the maintainers keeps the invariant |
| `PublicationRuns.ExecuteKeepsInv` | scripts/ci/publish_runtime_manifest.py:315-440 | so does every sequence of steps |
| `PublicationTheorems.RecordBeforeFeed` | scripts/ci/publish_runtime_manifest.py:386-415 | in every reachable state, on main and on every publication branch, each feed reference names an ancestor that holds the record of that identity with the referenced digest, and the ref itself holds the same bytes |
| `PublicationTheorems.HistoryIsImmutable` | scripts/ci/publish_runtime_manifest.py:116-122 | along history no record changes its bytes and no reference is lost |
| `PublicationTheorems.MainOnlyGrows` | scripts/ci/publish_runtime_manifest.py:315-440 | whatever happens next, main keeps every record and every reference |
| `PublicationTheorems.OneRequestAtATime` | scripts/ci/publish_runtime_manifest.py:347-373 | there is never more than one open publication request, and its head passes verification |
| `PublicationTheorems.MainIsVerified` | scripts/ci/publish_runtime_manifest.py:291-312 | public main passes verification in every reachable state |
| `PublicationTheorems.ProposedHeadIsVerified` | scripts/ci/publish_runtime_manifest.py:416-417 | a proposed head passes verification if and only if its own record has plain names |
| `PublicationTheorems.SquashIsRejected` | scripts/ci/publish_runtime_manifest.py:291-312 | squashing an open request instead of merging it never passes verification |
| `PublicationTheorems.ReportOnMainMeans` | scripts/ci/publish_runtime_manifest.py:332-346 | on any repository: a path that is on main is reported published if and only if the bytes agree, a reference of main's feed ends in the path and has their digest, and main verifies; each error stands exactly in its case |
| `PublicationTheorems.RerunReportsPublished` | scripts/ci/publish_runtime_manifest.py:332-346 | a run for a path that is on main reports it published if and only if the bytes agree, and fails with different bytes otherwise |
| `PublicationTheorems.LoadSourceRecordMeans` | scripts/ci/publish_runtime_manifest.py:176-211 | from any commit a source record loads if and only if the feed has one reference that ends in its path, which pins an ancestor and has the digest of a record of that identity; the result is that record and the pinned commit |
| `PublicationTheorems.LoadSourceRecordIsExact` | scripts/ci/publish_runtime_manifest.py:176-211 | on a reachable main a source record loads if and only if it is there, with the bytes of main and the commit that a reference of main's feed pins it to, which is in main's history and holds those bytes |
| `PublicationReruns.RerunConverges` | scripts/ci/publish_runtime_manifest.py:374-433 | cutting a run after any access and starting it again leaves the repository of an uninterrupted run: same record commit, same feed commit, same releases |
| `PublicationReruns.RerunsConverge` | scripts/ci/publish_runtime_manifest.py:386-417 | the same for any number of cut runs before the last one |
| `PublicationReruns.CutAfterRequest` | scripts/ci/publish_runtime_manifest.py:362-374 | a rerun after the request leaves the same repository, and reports the same if and only if the listing is below 1000; a full one makes it fail |
| `PublicationReruns.WholeRunIsOwnWork` | scripts/ci/publish_runtime_manifest.py:386-433 | a run leaves at most one record commit, then at most one feed commit, both on its own branch, at most its own request, and touches nothing else |
| `PublicationReruns.RunOnMainWritesNothing` | scripts/ci/publish_runtime_manifest.py:332-346 | once the path is on main every run changes nothing |
| `PublicationReruns.AdvancedFeedIsDated` | scripts/ci/publish_runtime_manifest.py:401-415 | the feed of every feed commit is the feed of its record commit with the publication time of the record and exactly one reference more, to that commit, path and digest |
| `PublicationReruns.PendingMergeIsTrue` | scripts/ci/publish_runtime_manifest.py:416-440 | a run that reports a pending merge reports the path of the record, the record commit, and a head that passes verification; both commits hold the record at that path, and the head's feed is the feed of the record commit with the record's publication time and one reference more, which pins the record commit |
| `PublicationReruns.PublicRepository.ReportOnMain` | scripts/ci/publish_runtime_manifest.py:332-346 | the report on a path that is on main, on the repository as it is |
| `PublicationReruns.PublicRepository.CheckOut` | scripts/ci/publish_runtime_manifest.py:347-385 | the guard and the checks of the branch, on the repository as it is |
| `PublicationReruns.PublicRepository.PushCommit` | scripts/ci/publish_runtime_manifest.py:397 | a push is accepted if it only adds to the branch, and changes nothing otherwise |
| `PublicationReruns.PublicRepository.AddRecordCommit` | scripts/ci/publish_runtime_manifest.py:386-397 | the record stage of a run, on the repository it changes |
| `PublicationReruns.PublicRepository.AddFeedCommit` | scripts/ci/publish_runtime_manifest.py:398-415 | the feed stage of a run, on the repository it changes |
| `PublicationReruns.PublicRepository.AskForMerge` | scripts/ci/publish_runtime_manifest.py:416-433 | the verification of the proposed head and the request, on the repository it changes |
| `PublicationReruns.PublicRepository.Publish` | scripts/ci/publish_runtime_manifest.py:315-440 | a run cut after any number of accesses leaves what that many steps of the state machine leave, and a whole run reports their outcome |
| `PublicationOutcomes.RunSucceedsExactly` | scripts/ci/publish_runtime_manifest.py:315-440 | for a path that is not on main, a run ends with a pending merge if and only if the listing is below 1000 and shows no other publication, an existing branch of the id holds this very record on the current main, the feed has room unless the branch advanced it already, and the names are plain |
| `PublicationOutcomes.RunReportsObstacle` | scripts/ci/publish_runtime_manifest.py:315-440 | a run that does not end with a pending merge fails with the error of the first thing in its way, which is a condition on the repository before the run |
| `PublicationOutcomes.FullListingFailsRerun` | scripts/ci/publish_runtime_manifest.py:347-366 | from the start, after 999 other requests were opened, a run succeeds and the same run again fails with a full listing |
| `PublicationRaces.RequestIsStaleExactly` | scripts/ci/publish_runtime_manifest.py:328-385 | over every interleaving, an open request lacks a reference of main if and only if a publication request was merged after the run that opened it fetched main and before it listed the open requests |
| `PublicationRaces.StaleMeansBehind` | scripts/ci/publish_runtime_manifest.py:375-385 | an open request lacks a reference of main if and only if the commit its branch was started on does |
| `PublicationRaces.RequestMergesAsVerified` | scripts/ci/publish_runtime_manifest.py:347-385 | a request whose run missed no merge merges cleanly over the merge base, and the result is exactly main with the record and the feed that were verified |
| `PublicationRaces.BranchBaseIsMergeBase` | scripts/ci/publish_runtime_manifest.py:375-380 | a commit is the merge base of main and an open request if and only if it is the one the branch was started on |
| `PublicationRaces.RaceMakesRequestStale` | scripts/ci/publish_runtime_manifest.py:328-373 | one interleaving, from the start, that opens a request without a reference that main has |
| `RecordPaths.PathTextIsInjective` | scripts/ci/publish_runtime_manifest.py:90-91 | for slash-free versions two record paths are the same text if and only if distribution, version and release id are the same |
| `ExactLists.LengthAndSetAreExact` | scripts/ci/release_manifest.py:183-206 | a list has the length and the elements of a set if and only if it holds each of them exactly once |
| `ReleaseManifest.ValidateQualification` | scripts/ci/release_manifest.py:146-214 | the evidence is accepted if and only if it is about this record's wheel, from a released Desktop inside stable bounds, with every target once and in it every check once; the result is the bounds of the evidence |
| `ReleaseManifest.ValidateTargets` | scripts/ci/release_manifest.py:183-206 | the loop over the targets accepts exactly the lists with each supported target once, each passed with each check once |
| `ReleaseManifest.SourceRecordMeans` | scripts/ci/release_manifest.py:253-314 | a source record is made if and only if the version is a production version and the index of that version has one file with the name of the wheel, which is an official wheel; the record then has the digest, size, name and address of that file and the given commit, identifier and time |
| `ReleaseManifest.CertifiedMeans` | scripts/ci/release_manifest.py:217-250 | a record is certified if and only if it is an uncertified source record, the identifier is a new one, and qualifying evidence is at an evidence path of the version |
| `ReleaseManifest.CertificationIsEvidenced` | scripts/ci/release_manifest.py:217-250 | a certified record is its source with the new identifier and time, the bounds of the evidence, and the place and digest of the evidence; it has a path of its own and cannot be certified again; behind it there is a released Desktop inside the bounds, and for every supported target exactly one passed qualification with every check once |
| `BinaryManifest.ByTargetIsLast` | scripts/ci/release_manifest.py:98-102 | of several candidate targets of one name the evidence is compared with the last one |
| `BinaryManifest.ValidateBinaryQualification` | scripts/ci/release_manifest.py:54-143 | binary evidence is accepted if and only if it matches candidate, Release and native verification on every target, with every target once and every check once |
| `BinaryManifest.ValidateQualifiedTargets` | scripts/ci/release_manifest.py:103-138 | the loop over the targets decides exactly that |
| `BinaryManifest.Promote` | scripts/ci/binary_manifest.py:99-253 | the checks and the loops over targets and roles promote a candidate if and only if its documents are promotable, and give the record of the last row on promotions, or the error of the first check that fails |
| `BinaryManifest.PromotionMeans` | scripts/ci/binary_manifest.py:99-232 | a candidate is promoted if and only if it is a stable candidate with ordered bounds and each target once, the Release has its tag, is published and immutable, neither draft nor pre-release, and its assets have different names, the native verification covers exactly the targets, the evidence qualifies them, and every executable is an asset with its name, size, digest and address |
| `BinaryManifest.PromoteFiles` | scripts/ci/binary_manifest.py:210-228 | both executables of a target are promoted, or none, each from the Release asset that has its name, size, digest and address |
| `BinaryManifest.PromotedOrder` | scripts/ci/binary_manifest.py:233 | whatever order the candidate lists its targets in, the promoted artifacts are darwin-arm64, linux-x64, win32-x64 |
| `BinaryManifest.PromotionIsBound` | scripts/ci/binary_manifest.py:99-253 | a promoted record has the version, commit, notes and bounds of the candidate, the publication time of the Release, and the place and digest of the evidence; it lists each supported target once, in order, with the platform, baselines and executables of the candidate, and for each target and role the digest agrees between record, candidate, Release asset and evidence and the verification id between record, native verification and evidence |
| `ReleaseStatus.Records` | scripts/ci/runtime_release_status.py:52-118 | the loop succeeds if and only if the feed has its identity and every reference of the version is accepted, and then gives the records behind them in feed order; otherwise it reports the unreadable or foreign feed, or the objection to the first reference that is not accepted |
| `ReleaseStatus.ObjectionMeans` | scripts/ci/runtime_release_status.py:64-117 | the reader has no objection to a reference if and only if it is pinned to a record path of the distribution and version, the file there has the referenced digest, it is a record with the seven identity fields, and it has the package or the artifacts; each error stands exactly in its case |
| `ReleaseStatus.ReadsAsCertified` | scripts/ci/runtime_release_status.py:25-49 | a record reads as certified if and only if its bounds are in order and it names a full commit of the Desktop repository and a qualification path of the version |
| `ReleaseStatus.ReleaseStatus` | scripts/ci/runtime_release_status.py:121-137 | the status exists if and only if both feeds are consistent for the version, and its milestones say which kinds of records are listed |
| `ReleaseMilestones.RecognisesCertified` | scripts/ci/runtime_release_status.py:25-49 | among produced source records the reader recognises exactly the outputs of the certifier |
| `ReleaseMilestones.ExecuteKeepsProduced` | scripts/ci/publish_runtime_manifest.py:315-440 | if runs are started with produced records only, every record in every commit is a produced one |
| `ReleaseMilestones.ListedIsOnMain` | scripts/ci/runtime_release_status.py:64-117 | on a reachable main the feeds list exactly the records that are on main |
| `ReleaseMilestones.StatusIsExact` | scripts/ci/runtime_release_status.py:52-137 | on a main that received produced records only, the reader accepts both feeds for every version, and certified means certified |
| `ReleaseMilestones.ReportMilestones` | scripts/ci/runtime_release_status.py:121-137 | there the status never fails; it reports the Desktop milestone if and only if an output of the certifier for the version is on main, and so never for outputs of the source producer alone |
| `ReleaseMilestones.MilestonesStay` | scripts/ci/runtime_release_status.py:121-137 | whatever happens next, the records a milestone is read from stay on main |
| `ModuleCycles.CanonIsRotationInvariant` | scripts/validate/module_cycles.py:82-86 | the canonical tuple is the same for every rotation of a cycle |
| `ModuleCycles.CanonSeparates` | scripts/validate/module_cycles.py:82-86 | two bodies have the same canonical tuple if and only if one is a rotation of the other |
| `ModuleCycles.CanonOfLeast` | scripts/validate/module_cycles.py:92-98 | a body that starts at its strictly least module is its own least rotation |
| `ModuleCycles.ClosingsAreHits` | scripts/validate/module_cycles.py:88-101 | the search from a path closes exactly the bounded simple cycles that extend it |
| `ModuleCycles.CycleSearch.Dfs` | scripts/validate/module_cycles.py:88-101 | on entry and exit `visited` is the set of the path, and every closed path is appended: the test against `seen` suppresses nothing |
| `ModuleCycles.CycleSearch.Step` | scripts/validate/module_cycles.py:91-101 | the same for one successor, with the visit undone |
| `ModuleCycles.FindSimpleCycles` | scripts/validate/module_cycles.py:72-107 | the result is strictly sorted by length and content and holds exactly the canonical tuples of the simple cycles with a body of 2 to `max_len` modules, for every graph |
| `ModuleCycles.ReportsEachCycleOnce` | scripts/validate/module_cycles.py:72-107 | every bounded simple cycle and all its rotations appear as exactly one reported tuple |
| `ModuleCycles.ComputeDrift` | scripts/validate/module_cycles.py:113-121 | the drift lists exactly the new and the removed cycles, strictly sorted |
| `ModuleCycles.Guard` | scripts/validate/module_cycles.py:183-193 | the guard exits with 0 if and only if it is advisory or the allowlist is exactly what is reported; with an empty allowlist, exactly when there is no bounded simple cycle |
| `ChangeImpact.ModuleFromPath` | scripts/ci/detect_changed_modules.py:169-173 | the loop finds the first listed module that owns the path |
| `ChangeImpact.OwnerIsOrderFree` | scripts/ci/detect_changed_modules.py:169-173 | the owner of every path is the same in every order of the module names if and only if no name owns another |
| `ChangeImpact.SlashFreeNamesAreApart` | scripts/ci/detect_changed_modules.py:169-173 | slash-free names never own each other |
| `ChangeImpact.BuildReverseGraph` | scripts/ci/detect_changed_modules.py:120-140 | the graph has every module, and under it exactly the modules that name it as a dependency |
| `ChangeImpact.DownstreamClosure` | scripts/ci/detect_changed_modules.py:143-155 | the result is the least set that holds the changed modules and is closed under dependents, and every module leaves the queue exactly once |
| `ChangeImpact.LeastClosedIsReached` | scripts/ci/detect_changed_modules.py:143-155 | the least closed set is what chains of dependents reach |
| `ChangeImpact.HasSharedChange` | scripts/ci/detect_changed_modules.py:158-166 | a change is shared if and only if some changed file is listed or has a listed prefix |
| `ChangeImpact.BuildResult` | scripts/ci/detect_changed_modules.py:222-263 | the selected modules are what the changed files select, with the shared change and both fallbacks |
| `ChangeImpact.DependentsAreTested` | scripts/ci/detect_changed_modules.py:222-263 | every transitive dependent of the owner of a changed file is tested |
| `ChangeImpact.TestModulesAreMonotone` | scripts/ci/detect_changed_modules.py:248-258 | more changed files never test fewer modules |
| `ChangeImpact.ImpactGrowsUnlessFallback` | scripts/ci/detect_changed_modules.py:248-256 | the impacted modules grow with the files if and only if the smaller change has a shared or owned file, or the larger has none, or it has a shared one, or every core module is downstream of an owner of one of its files |
| `ChangeImpact.ImpactCanShrink` | scripts/ci/detect_changed_modules.py:251-256 | one pair of changes of which the larger impacts fewer modules |
| `Ratchet.Trichotomy` | scripts/validate/method_loc.py:170-187 | a measurement equals the baseline, raises it or lowers it, and only one of these |
| `Ratchet.ChainsAreFinite` | scripts/validate/method_loc.py:161-200 | a baseline can be lowered at most as often as its weight, and later baselines are below earlier ones |
| `Tsv.LineRoundTrip` | scripts/validate/method_loc.py:99-108 | a written line returns its fields if and only if they are writable and the line is not taken for a comment |
| `Tsv.NumberRoundTrip` | scripts/validate/method_loc.py:109-110 | a written integer reads back, with a minus sign as its negative |
| `Tsv.LinesRoundTrip` | scripts/validate/method_loc.py:96-98 | written lines split back into the same lines |
| `Tsv.StripMeans` | scripts/validate/method_loc.py:99-108 | stripping cuts the white space at both ends and nothing else, and leaves nothing exactly of white space |
| `Tsv.RowMeans` | scripts/validate/method_loc.py:99-108 | a line is skipped if and only if it is blank or a comment, malformed if and only if it is neither and is not four fields with tabs between them, and otherwise read as those fields, stripped |
| `BaselineFiles.LoadBaseline` | scripts/validate/method_loc.py:92-114 | the reading loop gives the entries, or the error, that the next two rows are about |
| `BaselineFiles.RefusedMeans` | scripts/validate/method_loc.py:96-113 | a file is refused if and only if a line is neither ignored nor an entry, with the number of the first such line and whether fields or a number are missing |
| `BaselineFiles.LoadedMeans` | scripts/validate/method_loc.py:108-114 | of a file that is not refused, an entry is loaded if and only if it stands in the last line of its key |
| `BaselineFiles.FileRoundTrip` | scripts/validate/method_loc.py:188-199 | a written baseline reads back as it was if and only if every entry is storable |
| `BaselineFiles.WrittenFileIsExact` | scripts/validate/method_loc.py:188-199 | what an update writes, in any order of rows, reads back as the measurement if and only if no measured path looks like a comment |
| `BaselineFiles.EmitMeans` | scripts/validate/method_loc.py:170-187 | an update is blocked if and only if something is new or grew, unchanged if and only if the measurement is the baseline, and otherwise written |
| `BaselineFiles.UpdatesEnd` | scripts/validate/method_loc.py:161-200 | successive updates end within the weight of the baseline |
| `BaselineFiles.BaselineFile.EmitBaseline` | scripts/validate/method_loc.py:161-200 | the file changes exactly when the measurement lowers the baseline, and reading it again gives the new baseline but for paths that look like comments |
| `MethodLoc.OverCeilingIsLast` | scripts/validate/method_loc.py:164-168 | of several methods of one name above the ceiling an update measures the last one |
| `MethodLoc.Validate` | scripts/validate/method_loc.py:117-158 | the loops collect the findings of every method and of every baseline entry without a method |
| `MethodLoc.CleanMeansExact` | scripts/validate/method_loc.py:117-158 | validation is clean if and only if the methods above the ceiling are the baseline, entry for entry, and methods of one name agree |
| `MethodLoc.FileRatchet` | scripts/validate/method_loc.py:92-200 | on any tree and any baseline file that loads: clean if and only if methods of one name agree and the update says unchanged; blocked if and only if something is new or grew; and the file a written update leaves is pointwise lower and validates clean if and only if methods of one name agree and no measured path looks like a comment |
| `MethodLoc.CommentPathDefeatsTheRatchet` | scripts/validate/method_loc.py:99-107 | a path with a leading comment sign, read behind a blank, is written back as a comment: the update succeeds and validation of its file fails |
| `MethodLoc.CommentPathExists` | scripts/validate/method_loc.py:99-107 | there is such a method and such an entry |
| `MethodLoc.WrittenIsCleanIff` | scripts/validate/method_loc.py:161-187 | the baseline a successful update computes validates clean if and only if methods of one name agree |
| `MethodLoc.EqualNamesDefeatTheRatchet` | scripts/validate/method_loc.py:164-168 | two methods of one name and different lengths: the update succeeds and validation fails |
| `BroadException.Validate` | scripts/validate/broad_exception.py:69-107 | the loops collect the findings on both counters |
| `BroadException.CleanMeansExact` | scripts/validate/broad_exception.py:69-107 | validation of a scan is clean if and only if it measures the baseline |
| `BroadException.FileRatchet` | scripts/validate/broad_exception.py:33-146 | the same with two counters: on any scan and any baseline file that loads, clean is unchanged, blocked is new or grown, and a written file is lower and validates clean if and only if no scanned path looks like a comment |
| `BroadException.CommentPathDefeatsTheRatchet` | scripts/validate/broad_exception.py:40-47 | a scanned path with a leading comment sign is lost: the update succeeds and validation of its file fails |
| `BroadException.CommentPathExists` | scripts/validate/broad_exception.py:40-47 | there is such a row and such an entry |
| `MypyBudget.Increases` | scripts/validate/mypy_error_budget.py:201-212 | the loop lists exactly the packages above their ceiling, and the total if it is above theirs |
| `MypyBudget.TotalNeverRisesAlone` | scripts/validate/mypy_error_budget.py:210-211 | the check on the total never fires without a risen package |
| `MypyBudget.BudgetFile.EmitMonotonic` | scripts/validate/mypy_error_budget.py:228-260 | an update is accepted if and only if the baseline has no packages, or nothing rose and something fell; it then becomes the measurement, and stays otherwise |
| `MypyBudget.BudgetFile.EmitReviewedReset` | scripts/validate/mypy_error_budget.py:263-307 | a reset is accepted if and only if the reviewed blocks add up, the old one is the baseline and the new one the measurement |
| `MypyBudget.BudgetFile.Report` | scripts/validate/mypy_error_budget.py:431-486 | the report passes if and only if no package is above its ceiling and none is below |
| `MypyBudget.UpdateLowers` | scripts/validate/mypy_error_budget.py:228-260 | from a baseline with packages an accepted update raises none, strictly lowers the total, and the report then passes |
| `MypyBudget.PassingMeansEqual` | scripts/validate/mypy_error_budget.py:456-463 | for positive counts a passing report means that measurement and baseline are equal |
| `MypyBudget.GuardedRunsOnlyLower` | scripts/validate/mypy_error_budget.py:228-307 | over any run without an accepted reset and from baselines with packages, every ceiling falls, and the total by at least one for each accepted update |
| `MypyBudget.CeilingsRiseExactly` | scripts/validate/mypy_error_budget.py:228-307 | a step raises a ceiling if and only if it is an update with errors of a baseline without packages, which accepts every measurement and no reset, or an accepted reset whose reviewed new counts are not below the reviewed old ones; after an accepted step from packages the report passes |
| `MypyBudget.ZeroErrorsOpenTheBudget` | scripts/validate/mypy_error_budget.py:234-246 | after zero errors are recorded, the next update may raise any package without a review |
| `MypyBudget.DebtMeans` | scripts/validate/mypy_error_budget.py:147-157 | every measured package has a debt: zero if and only if the count is at most the floor, and otherwise the excess |
| `MypyBudget.PackageDebtsCoverTotalDebt` | scripts/validate/mypy_error_budget.py:147-157 | the package debts of a reset add up to at least its total debt |
| `Rounding.RoundAtMost` | scripts/smoke/performance_baseline.py:5505-5514 | a rounded ratio is at most a limit if and only if the exact ratio is at most the limit and a half unit |
| `Rounding.RoundIsNearest` | scripts/smoke/performance_baseline.py:467-516 | rounding gives an integer if and only if it is the nearest one, the even one of two |
| `Intervals.IntervalMetrics` | scripts/smoke/performance_baseline.py:410-516 | every derived metric has a value or a reason and never both: a value if and only if the time is positive, both snapshots have the counter, it did not fall, and a tree counter saw the same known tree; the value is the difference or the nearest integer to the scaled difference over the time, and each reason stands exactly in its case |
| `Intervals.ReasonsAreExclusive` | scripts/smoke/performance_baseline.py:410-470 | no two reasons hold at once, and none where there is a value |
| `Intervals.AdjacentIntervalsAddUp` | scripts/smoke/performance_baseline.py:439-516 | the differences of adjacent intervals add up to the outer one, tree counters included, and the outer rounded rate lies between the two inner ones |
| `Percentiles.PercentileIsNearestRank` | scripts/smoke/performance_baseline.py:5185-5189 | the percentile is a sample, at least that percentage of the samples is at most as large, and it is the least such sample |
| `Percentiles.PercentileIsMonotone` | scripts/smoke/performance_baseline.py:5185-5189 | percentiles grow with the percentage |
| `Percentiles.SummaryIsOrdered` | scripts/smoke/performance_baseline.py:5192-5218 | for any integer samples min, median, p90, p95 and max are in this order, and min and max are samples |
| `Percentiles.SummaryMeans` | scripts/smoke/performance_baseline.py:5192-5218 | a summary is the summary of the samples if and only if it has the number of integers, their least and greatest, the middle of their sorted permutation or half the sum of the two middle ones toward zero, and as p90 and p95 the sample with at least that percentage at most as large and less than it below |
| `Identity.ComparisonErrors` | scripts/smoke/performance_baseline.py:5558-5629 | there is no error if and only if the two documents may be compared |
| `Identity.ComparableMeans` | scripts/smoke/performance_baseline.py:5558-5629 | two documents may be compared if and only if both are well formed and they agree on every compared key |
| `Identity.ComparableIsPartialEquivalence` | scripts/smoke/performance_baseline.py:5558-5629 | this is symmetric and transitive, and reflexive exactly on well-formed documents |
| `Identity.SampleErrors` | scripts/smoke/performance_baseline.py:5632-5661 | there is no error if and only if the two samples are of one campaign |
| `Identity.SameCampaignIsPartialEquivalence` | scripts/smoke/performance_baseline.py:5632-5661 | being of one campaign is symmetric and transitive |
| `Identity.Incompatibilities` | scripts/smoke/performance_baseline.py:5677-5700 | comparing every sample with the first finds nothing if and only if every two samples are of one campaign |
| `PerformanceGate.ThresholdMeans` | scripts/smoke/performance_baseline.py:5271-5555 | every status in every mode, with all limits as numbers: no status without a matching baseline and a fair comparison, failure for a failed sample, and otherwise what evidence, limits and leniency decide, where 1.05 and 1.10 hold up to half a ten-thousandth |
| `PerformanceGate.PassingMeans` | scripts/smoke/performance_baseline.py:5271-5555 | outside of off mode a scenario passes if and only if the comparison is fair, the evidence is there and the limits are met; in warn mode and when it is warn-only it gets through without meeting them |
| `PerformanceGate.FasterNeverFails` | scripts/smoke/performance_baseline.py:5271-5555 | lowering only current medians or p95 values never turns a pass into anything else, nor a scenario that got through into one that does not, in every mode |
| `Campaign.Group` | scripts/smoke/performance_baseline.py:5670-5672 | the runs of each scenario, in their order |
| `Campaign.MetricNames` | scripts/smoke/performance_baseline.py:5713-5753 | the metrics that are summarised are exactly the thirteen named ones |
| `Campaign.SpreadMeans` | scripts/smoke/performance_baseline.py:5207-5217 | the coefficient of variation of integer samples rounds to more than 0.20 if and only if an inequality holds between integers, of their number, sum and sum of squares |
| `Campaign.ScenarioMeans` | scripts/smoke/performance_baseline.py:5675-5761 | a scenario is the summary of its runs if and only if it has their number, the number of ok ones, the first comparison identity, and for each of the metrics the number of integer samples, their median, nearest-rank p95 and noisiness |
| `Campaign.SummarizeScenario` | scripts/smoke/performance_baseline.py:5675-5779 | the scenario is what its runs say, with the verdict, which is ineligible if two samples differ in origin |
| `Campaign.SummarizeRuns` | scripts/smoke/performance_baseline.py:5664-5792 | one such entry for exactly the scenarios that were run |
| `Campaign.Failures` | scripts/smoke/performance_baseline.py:6669-6716 | the collectors list exactly the scenarios with the defect |
| `Campaign.ExitCode` | scripts/smoke/performance_baseline.py:6764-6787 | the exit code is 0 if and only if no scenario has invalid samples, none is undecided when comparing, and none failed in hard mode |
| `Campaign.HardGateMeans` | scripts/smoke/performance_baseline.py:5664-5792 | in hard mode with a baseline a scenario is accepted if and only if all samples are ok and of one origin, both sides have twenty, identities match, nothing known is noisier than 0.20, and the medians and nearest-rank percentiles of the samples meet the limits or are only warned about |
| `Campaign.Gate` | scripts/smoke/performance_baseline.py:6764-6787 | from the samples to the exit code: 0 if and only if every scenario that was run is accepted, and in hard mode with a baseline if and only if every one gets through as in the row before |

## Left out

- HTTP, `gh`, `git` and file access, deadlines and size limits: replaced by the commit graph and the trees that are read.
- `verify_producer`, `official_record`, `official_binary_record`, the download and inspection of wheels and executables, and command lines.
- The internals of SHA-256, JSON and PEP 440; that different JSON types can be equal in Python (`1 == True`).
- Maintainers who merge main into a pending publication branch; pushes to publication branches by anyone else.
- PublicationReruns.RerunConverges: reruns with the same record while main is unmoved; a run over a moved main is covered by the safety theorems only.
- ModuleCycles.FindSimpleCycles: module names are integers that stand for their place in the order of names; building the graph from imports is not part of the model.
- ChangeImpact.BuildResult: test paths, integration scenarios, selectors and matrices; dependencies are given instead of parsed from project files.
- MethodLoc.Validate: the metrics, the order and repetition of findings, and the scan of the source tree.
- BaselineFiles.BaselineFile.EmitBaseline: the rows are written in some order; that it is the sorted one is not stated, and no result depends on it.
- MypyBudget.Increases: the order in which regressions are listed.
- BroadException.Validate: the same; a scan gives one row for each path and only files with a handler.
- Tsv.NumberRoundTrip: underscores and digits outside ASCII that `int()` accepts.
- MypyBudget.BudgetFile.EmitReviewedReset: the other fields and times of a review artifact; running mypy and counting its lines.
- Percentiles.SummaryMeans: mean and standard deviation; the coefficient of variation is modelled as the test against 0.20 in `Campaign`.
- Campaign.SummarizeScenario: family metrics, artifact paths and the texts of reasons; measuring the scenarios.
- ReleaseStatus.ReleaseStatus: a requested version that does not parse; `Version(version)` refuses it first.
- Campaign.Failures: the order in which scenarios are listed.
- The validators of `scripts/validate` that only look for files, imports, literals or phrases, the further
  line-count limits (`max_file_loc.py`, `init_loc.py`), `release_event.py`, `commit_message.py` and
  `config_shape.py` are not modelled.
