# Arguss, modelled and proved in Dafny

Arguss scans a repository's npm lockfile, proposes one upgrade per vulnerable install, opens pull requests
for them and merges those whose CI is green. This project models the two cores of that pipeline and the
self-contained algorithms around them, and proves what they promise.

**Lockfile to counts to lockfile.** `InstallKeys` and `LockfileParser` read a lockfile: the chain of names an
install key stands for, nearest-ancestor resolution of every declared dependency, the parents of every
install and, in `DisplayRoutes`, the breadth-first routes shown for them; `ParsedRows` says what a row holds in
terms of the lockfile's entries alone. `Versions`, `Findings`,
`Consolidation` and `Proposal` turn findings into one upgrade per installed node, `FixConfidence` gives each a
verdict, `ReportEntries` says what an entry of the report holds and why it has its tier, `ScanCounts` counts the report and checks its balance at run time, and `ResultsBuckets` computes the
same partition a second way for the results page; `CountFigures` says what each figure of either counts. `ConsolidationLaws` and `BalanceLaws` prove that the two
agree and that the balance check cannot fail on what the pipeline produces; `DepRows` and `LockfileBalance` bind
both to one parsed lockfile. `LockfileFix` edits the lockfile and the manifest in place and is proved to preserve
the graph the parser reads, and `UpgradeFixes` closes the circle: applying an upgrade of the report rids the
lockfile of the version its findings are about. `DetachedInstalls` is a lockfile whose display paths mislead.

**Actions.** `ModeCWorkers` is the transition system of the concurrent pull-request workers and
`ActionRecords` the record their events are mirrored into. `ActionRuns` seeds the rows of a wait-and-merge
run, `ActionMerge` is the polling task, and `MergeLaws`, `MergeGuarantees` and `MergeAnswers` prove its safety, its
progress and that it acts on GitHub's answers to its own requests in every environment: check runs, HTTP statuses, exceptions, clock and kill switch are arbitrary functions of
the poll. `Workflow` chooses the entries an action is run on and carries these results from findings to merges
and to the closed record.

**Algorithms.** `EditDistance` (two-row Levenshtein and the typosquat search), `SlidingWindow`,
`IpRateLimit` and `ScanRateLimit` (the two in-memory rate limiters), `BlastRadius` (the walk that guards only
against its current path) and `OsvPaging` (chunked, paged batch queries).

Each imperative function of the source is a method, usually on a class with the fields the source mutates; its
contract ties it to a specification function, and the lemmas beside it prove what that function means.

## Findings about the code

Where a promise does not hold on every input, the project states exactly when it does.

- A fix leaves no install of the old version exactly when the fixer reads the package's name off every
  affected install key as the parser does. On the keys npm writes it always does. On a key such as
  `node_modules/node_modules/x` the parser reads the name `x` and the fixer reads `node_modules/x`; with `x` also
  installed at the top the fix is applied and the old version stays (DoubledKeySurvivesFix).
- A display path is a walk of the name graph exactly when the install's first declarer is reachable there;
  otherwise it is `root`, the declarer and the name, which is no walk (ParsedPathIsWalkIff). The parser reads only
  two of the root's dependency sections, so what a third brings in is installed and unreachable
  (DetachedPathIsNoWalk).
- Given pipeline input, the balance check passes exactly when every fixable finding's node is among the
  dependency rows; otherwise the one message is the package status partition. Rows serialised from the lockfile
  the findings are about always satisfy this (OneLockfileAddsUp).
- The two tier rankings, of the counts and of the results page, agree exactly when no installed node has
  entries of different tiers.
- The DECLINE error of populate is raised exactly when no ids are passed and a mergeable AUTO_MERGE entry shares
  its candidate id with a later DECLINE entry. The entries of a report never share an id, so the workflow never
  raises it.
- A closed action record gives the counts of its event exactly when no candidate is planned twice, which the plans
  of the workflow never do.
- The merge task ends in an exception exactly when one of its requests raises: only a failure to append to the
  pull request body is caught. Such a run is left open: it happens to a row populated to be merged whose pull
  request has no known head, when asking for the head raises (RaisedHeadLeavesRunOpen). If every request is
  answered, by whatever status, the run ends every row (AnsweredRunsComplete). A run without rows is never marked
  completed.
- The rate limiters read the clock before taking their lock. In this program every caller runs on the one event
  loop, so calls come in the order of their clocks and full windows are safe. Were a limiter shared by several
  threads, a call could be late; with calls at most d seconds late every limit holds in windows of a minute less
  2d, and of an hour less d for scans, and in every longer window some run breaks it (LateCallsBreakLimit,
  LateScansBreakLimit).
- The wait told to a client denied for its address is sufficient exactly when that limit is positive, late calls or
  not (WaitIsEnough). A session that has used up its scans is told to wait an hour and is denied ever after
  (SessionStaysExhausted).
- `_validate_install_keys` cannot reach its last check, the fallback branch of consolidation is dead on
  discovery's output, and the error exits of `apply_fix_to_lockfile` after its last skip are dead.

## Modelling conventions

- A candidate id, a SHA-256 digest in the source, is the tuple it is computed from.
- Texts are trimmed, digits are ASCII, and `str` order is the code-point order on characters.
- Dictionaries and tables are maps; where the source iterates one, the order is left open unless the source
  sorts.
- Time is a real number of seconds. The clock of the merge task does not go back and the interval between its
  polls is positive; calls of the rate limiters may be late by any bounded amount, none being the program's case.
- HTTP requests, the trust data, the kill switch and the clock are parameters.
- Within `ActionMerge` a row's id is its position, and the merge task is the only writer of its rows.

## Model

| member | source | states |
|---|---|---|
| EditDistance.Levenshtein | arguss/lenses/trust.py:100-123 | the two-row loop returns the edit distance: some script of that many insertions, deletions and replacements turns a into b and none is shorter |
| EditDistance.DistanceIsAchieved | arguss/lenses/trust.py:100-123 | a script of exactly that length exists |
| EditDistance.NoScriptIsShorter | arguss/lenses/trust.py:100-123 | every script from a to b is at least that long |
| EditDistance.DistanceIsShortest | arguss/lenses/trust.py:100-123 | the recurrence the rows compute is the shortest script length |
| EditDistance.DistanceIsSymmetric | arguss/lenses/trust.py:100-123 | the distance is symmetric |
| EditDistance.DistanceZeroIffEqual | arguss/lenses/trust.py:101-102 | the distance is 0 exactly for equal strings |
| EditDistance.DistanceTriangle | arguss/lenses/trust.py:100-123 | the triangle inequality |
| EditDistance.TyposquatDistance | arguss/lenses/trust.py:126-144 | over any iteration order, the least distance to a popular name with the lexicographically least witness; nothing for an empty list |
| EditDistance.NearestIsUnique | arguss/lenses/trust.py:126-144 | that witness is unique, so the answer does not depend on set order |
| EditDistance.ZeroDistanceIffPopular | arguss/lenses/trust.py:126-144 | the distance is 0 exactly when the name is itself popular |
| DisplayRoutes.BfsShortestPred | arguss/core/parser.py:293-317 | the map holds exactly the reachable non-root names, each with the least of its predecessors on a shortest path |
| DisplayRoutes.LogicalPathFromPred | arguss/core/parser.py:320-333 | computes the route; on a search result its inner fallback is never taken |
| DisplayRoutes.LogicalPathIsShortest | arguss/core/parser.py:320-333 | a name with a predecessor gets a walk from the root along declared edges than which none is shorter |
| DisplayRoutes.RouteIsShortest | arguss/core/parser.py:324-333 | following predecessors closes no cycle and yields a shortest walk |
| InstallKeys.DecodeEncode | arguss/core/parser.py:373-388 | parsing the key of a chain of names gives the chain back, and the fixer reads its last name |
| InstallKeys.EncodeIsInjective | arguss/core/parser.py:373-388 | different chains have different install keys |
| InstallKeys.DoubledScopeIsReadTwoWays | arguss/web/lockfile_fix.py:62-68 | on `node_modules/node_modules/n` the fixer and the parser read different names |
| InstallKeys.AncestorNodeModulesPrefixes | arguss/core/parser.py:205-219 | the loop ends and computes the ancestor list |
| InstallKeys.AncestorsAreEnclosingScopes | arguss/core/parser.py:205-219 | that list is every enclosing scope, deepest first, ending at the project root |
| LockfileParser.ResolvePhysicalInstallKey | arguss/core/parser.py:222-240 | computes the first live install along the ancestors |
| LockfileParser.NearestAncestorIsExact | arguss/core/parser.py:222-240 | the key returned is the deepest live install of the child in scope; none is returned only when there is none |
| LockfileParser.ResolvedIsInstalled | arguss/core/parser.py:243-261 | the `target_key not in install_keys` guard never drops a resolved edge, and the install found has the declared name |
| LockfileParser.BuildParentsMap | arguss/core/parser.py:243-281 | both parents maps hold exactly the pairs their declarations give, and no empty group |
| LockfileParser.ParentsAreExactlyResolvedDeclarers | arguss/core/parser.py:243-261 | a declarer is among an install's parents exactly when some edge it declares resolves there |
| LockfileParser.ChildrenFromParentsMap | arguss/core/parser.py:284-290 | the children map is the inverse relation of the parents map |
| LockfileParser.CanonicalDisplayPath | arguss/core/parser.py:336-348 | the path leads from root to the child over the lexicographically first parent: by a shortest walk to that parent when the name graph reaches it, and straight through it otherwise |
| Basics.LessIsFirstDifference | arguss/core/parser.py:336-348 | the order of strings used throughout is that of the first character that differs, a prefix coming first |
| LockfileParser.ParsedPathIsWalkIff | arguss/core/parser.py:336-370 | so does every parsed row's path, and for an install something declares it is a walk of the name graph exactly when its first declarer is reachable there |
| DetachedInstalls.DetachedPathIsNoWalk | arguss/core/parser.py:112-118 | for any two names, a lockfile whose root declares neither in the sections read and one of which declares the other: every parse shows `root`, declarer, name, and that is no walk |
| DetachedInstalls.DetachedLockfileIsAccepted | arguss/core/parser.py:149-162 | the parser accepts such a lockfile |
| LockfileParser.ParseLockfile | arguss/core/parser.py:33-75 | raises exactly when the lockfile is not accepted; otherwise one row per install as the specification parses it, listed in order; AcceptedSays, ParsedRowSays and RowsInOrder say what that is in the lockfile's own fields |
| ParsedRows.AcceptedSays | arguss/core/parser.py:101-176 | accepted means: version 2 or 3, every entry at the root or under node_modules an object, and no install key that holds a URL or, in any case of letters, a temporary directory |
| ParsedRows.LowerAsciiSays | arguss/core/parser.py:155-158 | the letters A to Z of a key are lowered and nothing else, which is `lower` on ASCII keys |
| ParsedRows.ParsedRowSays | arguss/core/parser.py:33-75 | on npm's keys: a row for exactly the entries with a version that are neither links nor extraneous, with the key's last name, that version, and direct exactly when the root lists the name under dependencies or devDependencies |
| ParsedRows.DirectIffListed | arguss/core/parser.py:113-119 | on any key: the row's version is its entry's, and it is direct exactly when the root's dependencies or devDependencies have its name |
| ParsedRows.ParentsAreListers | arguss/core/parser.py:243-261 | an install's parents are exactly the names of the entries whose dependencies (for the root also devDependencies) list its name and reach no deeper install of it, and the root when there is none |
| ParsedRows.RouteEdgesAreListings | arguss/core/parser.py:264-290 | the graph searched for routes has an edge exactly from an entry's name to each installed name that the entry lists |
| ParsedRows.RowsInOrder | arguss/core/parser.py:73-75 | rows are listed by name and then by version |
| LockfileParser.ResolveLogicalRelationships | arguss/core/parser.py:351-370 | fills every row's parents and display path from the two maps and one search |
| LockfileFix.ClassifyDepPosition | arguss/web/lockfile_fix.py:50-59 | direct exactly when some dependency section of the manifest lists the package |
| LockfileFix.UpdatePackageJsonVersion | arguss/web/lockfile_fix.py:102-118 | bumps the range in the first section that lists the package and nothing else; fails exactly when none does; BumpedSection and BumpedRange say what is written |
| LockfileFix.BumpedSection | arguss/web/lockfile_fix.py:102-118 | of the sections that list the package the first, in the order dependencies, devDependencies, optionalDependencies, peerDependencies, gets the bumped range, a range that is no text becomes the bare version, and no other section changes |
| LockfileFix.BumpedRange | arguss/web/lockfile_fix.py:94-99 | ^, ~, >= and > stay in front of the new version and everything else is dropped |
| LockfileFix.UpdateRootLockfileDep | arguss/web/lockfile_fix.py:133-148 | re-pins the root entry's dependency when it is pinned to the old version, and changes nothing else |
| LockfileFix.WriteEntries | arguss/web/lockfile_fix.py:215-226 | exactly the given entries get the new version as version, the tarball as resolved and the integrity as integrity, keeping their other fields; all others are untouched |
| LockfileFix.ApplyFixToLockfile | arguss/web/lockfile_fix.py:151-256 | all or nothing: applied exactly for a version 3 lockfile with a matching entry and a registry answer that has tarball and integrity; then every matching entry has the new version, that tarball and that integrity, a root pin of the old version is the new one, and the manifest is bumped; otherwise neither document changes and the reason is the first condition that fails |
| LockfileFix.WrittenFields | arguss/web/lockfile_fix.py:133-148 | the same of the specification: which three fields of an entry are written and with what, and the new version over a root pin of the old |
| LockfileFix.EntriesAre | arguss/web/lockfile_fix.py:71-91 | on npm's keys the matching entries are the objects under a key that ends in the package's name, at exactly the old version |
| LockfileFix.FixPreservesResolvedGraph | arguss/web/lockfile_fix.py:151-256 | parsing the edited lockfile gives the same install keys, names, direct flags, parents and display paths; only fixed installs change, and only their version |
| LockfileFix.FixKeepsAccepted | arguss/core/parser.py:33-75 | the edited lockfile parses exactly when the original did |
| LockfileFix.FixKeepsEdges | arguss/core/parser.py:243-281 | the edit changes no resolved and no name-level edge |
| LockfileFix.FixClearsOldVersion | arguss/web/lockfile_fix.py:62-91 | no install of package@from remains exactly when the fixer reads the package's name off every affected key; on keys npm writes it always does |
| UpgradeFixes.UpgradeFixesItsFindings | arguss/web/lockfile_fix.py:151-256 | after the fix of an upgrade of the report no install of the old version is parsed, each such install is at the new version and otherwise unchanged, and no finding the upgrade stands for has a newer lowest fix |
| UpgradeFixes.InstalledIsFixed | arguss/web/lockfile_fix.py:62-91 | on npm's keys the fix of an installed package@version is applied, given a v3 lockfile and a full registry answer |
| LockfileFix.SecondApplicationIsSkipped | arguss/web/lockfile_fix.py:162-170 | with from different from to, a second application finds no entry and so changes nothing |
| LockfileFix.DoubledKeySurvivesFix | arguss/web/lockfile_fix.py:62-91 | for every name, a lockfile on which the fix is applied and a parse of the result still shows the old version |
| LockfileFix.DoubledLockfileIsAccepted | arguss/core/parser.py:149-162 | the parser accepts that lockfile before and after the fix |
| LockfileFix.ExactlyTheseChange | arguss/web/lockfile_fix.py:71-148 | the entries that change are exactly those of package@from and a root entry that pins it, in three fields and in that pin; no other package's declared range changes |
| LockfileFix.FixesCommute | arguss/web/lockfile_fix.py:151-256 | fixes of two packages commute on the lockfile and on the manifest |
| Versions.LeadingNonnegativeInt | arguss/engine/fix_kind.py:23-32 | the number the leading digits spell, or none |
| Versions.DecimalIsBaseTen | arguss/engine/fix_kind.py:23-32 | that number is read in base ten |
| Versions.ParsedIffSpelled | arguss/engine/fix_kind.py:35-67 | a version is read as a triplet exactly when after some text without digits it spells one: one to three numbers between dots, missing ones 0, junk after each number's digits passed over |
| Versions.ParseInvertsPrint | arguss/engine/fix_kind.py:35-67 | a printed triplet, under any digit-free prefix and any suffix that starts with a non-digit, parses back |
| Versions.CompareIsTotalPreorder | arguss/engine/fix_kind.py:70-84 | on parseable versions the comparison is total, antisymmetric in sign and transitive, and None exactly when a side does not parse |
| Versions.ReleasePrecedence | arguss/engine/fix_kind.py:70-84 | on release versions it is the precedence of section 11 of SemVer 2.0.0 |
| Versions.PickLowestVersionGt | arguss/engine/fix_kind.py:87-104 | the loop computes the lowest version above |
| Versions.LowestAboveIsLeast | arguss/engine/fix_kind.py:87-104 | that version is a candidate above from_version and none eligible is lower; None exactly when none is eligible |
| Versions.FirstOfEquallyLow | arguss/engine/fix_kind.py:87-104 | of equally low versions the one published first is picked |
| Versions.KindIsFirstDifference | arguss/engine/fix_kind.py:107-126 | the kind is major when the major numbers differ or a version cannot be read, minor when only then the minor numbers differ, and otherwise patch |
| Versions.FurtherIsNoLesserKind | arguss/engine/fix_kind.py:107-126 | a target further above the same version is at least as severe a kind of fix |
| Findings.DiscoverFindsLowestFix | arguss/engine/fix_discovery.py:20-58 | a candidate exists exactly when an advisory publishes a fix above the installed version, and its target is the lowest such fix |
| Findings.NoFixReasonSays | arguss/engine/fix_discovery.py:20-58 | without a candidate the reason is the first that applies: no advisory, no fix published, none above the installed version |
| Findings.SameIdIff | arguss/core/models.py:423-434 | two candidates share an id exactly when package, versions, kind, repository and the ids of their findings, in whatever order, agree |
| Findings.RawCandidatesAre | arguss/engine/propose.py:360-373 | the discovery loop gathers exactly the candidates of the fixable findings |
| Consolidation.MaxTarget | arguss/engine/consolidate.py:121-131 | computes the running best target |
| Consolidation.MaxTargetSatisfiesAll | arguss/engine/consolidate.py:155-172 | true exactly when every related finding's lowest fix is reached |
| Consolidation.GroupByPackage | arguss/engine/consolidate.py:46-51 | the dictionary holds exactly the groups of the candidates by package, ecosystem, version and repository, in order of arrival |
| Consolidation.ConsolidateOne | arguss/engine/consolidate.py:54-116 | the branches taken for one group |
| Consolidation.GroupBecomes | arguss/engine/consolidate.py:54-116 | a group of several stays as it is exactly when some finding it names is not satisfied by the best target; otherwise it becomes one candidate with that target, the kind from the old version to it, the sorted ids, the greatest figures and the trust of the first candidate with that target |
| Consolidation.BestOfTwo | arguss/engine/consolidate.py:121-131 | of two targets the newer is the better, and of two that cannot be compared the later text |
| Consolidation.SatisfiedSays | arguss/engine/consolidate.py:155-172 | a finding is satisfied exactly when it has a lowest fix above the version that is not beyond the target |
| Consolidation.KeySays | arguss/engine/consolidate.py:39-51 | a candidate is grouped by its package, version and repository and the ecosystem of the first finding it names, npm when there is none |
| Consolidation.ConsolidateCandidates | arguss/engine/consolidate.py:33-118 | computes the consolidated list, groups in sorted order |
| ConsolidationLaws.BestIsHighest | arguss/engine/consolidate.py:121-131 | on parseable targets the running best is not older than any target of the group |
| ConsolidationLaws.BestIsFirst | arguss/engine/consolidate.py:121-131 | and of equally high targets the first |
| ConsolidationLaws.BestSatisfiesAll | arguss/engine/consolidate.py:67-79 | on discovery's output the per-finding fallback never fires |
| ConsolidationLaws.OneGroupOneUpgrade | arguss/engine/consolidate.py:57-116 | each group becomes one candidate whose target is the highest of the group's lowest fixes, is itself one of them, and whose ids are the group's |
| ConsolidationLaws.ConsolidationEmitsOneUpgradePerNode | arguss/engine/consolidate.py:33-118 | exactly one such upgrade per package, ecosystem, version and repository with a fixable finding, ordered by these four in that order |
| ConsolidationLaws.EachFindingInExactlyOneUpgrade | arguss/engine/consolidate.py:33-118 | every fixable finding's id is in exactly one upgrade and no other finding's is in any |
| ConsolidationLaws.MergedKindIsNoWeaker | arguss/engine/consolidate.py:82-103 | the merged candidate's fix kind is at least as severe as that of every candidate it replaces |
| ConsolidationLaws.AutoMergeMeansNoMajorBump | arguss/engine/fix_confidence.py:67-110 | an auto-merge verdict on an upgrade means no replaced candidate was a major bump |
| ConsolidationLaws.UpgradeIdsAreDistinct | arguss/core/models.py:423-434 | different upgrades have different candidate ids |
| FixConfidence.CollectReviewVetoes | arguss/engine/fix_confidence.py:67-110 | gathers the objections of kind, trust delta and pipeline, in order |
| FixConfidence.ScoreForReview | arguss/engine/fix_confidence.py:113-117 | computes the review score |
| FixConfidence.ComputeFixConfidence | arguss/engine/fix_confidence.py:138-246 | computes the verdict |
| FixConfidence.ScoreIsWhatIsLeft | arguss/engine/fix_confidence.py:36-49 | the score is 100 less 50 for a major bump, 20 for missing trust or 15 for each of its flags, and 25 for a missing pipeline or unverified tests, and at least 1 |
| FixConfidence.SignalsAreDue | arguss/engine/fix_confidence.py:67-110 | each signal is shown exactly as often as kind, trust flags and pipeline call for it, ordered by the text of its id |
| FixConfidence.AlphabeticalIsById | arguss/engine/fix_confidence.py:15-30 | the order the model sorts signals by is that of their ids as texts |
| FixConfidence.StoppedIsDeclined | arguss/engine/fix_confidence.py:161-206 | a killed or vetoed candidate is declined with score 0 and the one signal that stopped it, the kill switch first, and no other is declined |
| FixConfidence.ScoreDeterminesTier | arguss/engine/fix_confidence.py:206-246 | 100 exactly for auto-merge, 1 to 99 exactly for review, 0 exactly for decline |
| FixConfidence.AutoMergeIffNothingObjects | arguss/engine/fix_confidence.py:67-110 | auto-merge exactly when the engine is on, nothing is vetoed, the bump is not major, the trust delta has no flag and the tests verify |
| FixConfidence.MoreVetoesNeverScoreHigher | arguss/engine/fix_confidence.py:113-117 | adding objections never raises the score, whatever their order |
| Proposal.CandidateWithEpss | arguss/engine/propose.py:125-146 | the loop over related findings computes the candidate's EPSS figures and KEV mark |
| Proposal.EpssIsGreatest | arguss/engine/propose.py:125-146 | those figures are the greatest of the values present, and absent exactly when all are |
| Proposal.ProposeFixes | arguss/engine/propose.py:262-457 | the discovery, consolidation and entry loops compute the report; TierSays, VerdictSays, CandidateSays and SkipsSay say what it holds |
| Proposal.BuildEntries | arguss/engine/propose.py:382-436 | each candidate becomes its entry, judged as TierSays and VerdictSays say, or, without related findings, a skip |
| ReportEntries.TierSays | arguss/engine/propose.py:382-436 | an entry of the report is declined exactly when the kill switch is on for its candidate, and AUTO_MERGE exactly when it is off, the candidate is not a major bump, the trust delta of its package between its two versions is present and clean, and the tests verify |
| ReportEntries.VerdictSays | arguss/engine/propose.py:382-436 | and its score and signals are those due for its own candidate's kind, trust delta and pipeline |
| ReportEntries.AutoMergeEntriesHideNoMajorBump | arguss/engine/propose.py:382-436 | no AUTO_MERGE entry relates a finding whose own lowest fix is a major bump |
| ReportEntries.CandidateSays | arguss/engine/propose.py:125-158 | its candidate goes from the version of the related findings, which are exactly those whose ids it names, and carries the trust score of that version, their greatest EPSS figures and whether one is known to be exploited |
| ReportEntries.RelatedAreRanked | arguss/engine/propose.py:149-158 | the related findings stand by falling CVSS score and then by advisory, and the first is the entry's own |
| ReportEntries.EntriesFollowUpgrades | arguss/engine/propose.py:382-436 | there is one entry for each upgrade, in their order |
| ReportEntries.SkipsSay | arguss/engine/propose.py:81-85 | the skips are one for each lens failure and one for each finding without a fix, with its reason; failures come first, then by advisory or else package, then by package |
| ScanCounts.ValidateInstallKeys | arguss/engine/scan_counts.py:87-114 | accepts exactly rows whose keys, where present, are non-empty and pairwise distinct |
| ScanCounts.TallyEntries | arguss/engine/scan_counts.py:198-216 | the entry loop's counters, covered ids and candidate map |
| ScanCounts.TallyFindings | arguss/engine/scan_counts.py:217-235 | the finding loop's severity bands and affected nodes |
| ScanCounts.TierNodes | arguss/engine/scan_counts.py:236-244 | the loop computes the tier map of the nodes, by the ranking of the counts |
| ScanCounts.SplitSkips | arguss/engine/scan_counts.py:245-255 | no-fix nodes are split by whether an entry covers them |
| ScanCounts.BuildScanCounts | arguss/engine/scan_counts.py:187-354 | raises exactly on invalid install keys; otherwise the counts with every balance message that applies |
| CountFigures.FindingFigures | arguss/engine/scan_counts.py:127-134 | bands go by CVSS score from 9, 7 and 4 up, or by the stated severity without one; the EPSS figure counts scores of at least 0.1; the others count entries per tier, related findings and the packages affected |
| CountFigures.NodeFigures | arguss/engine/scan_counts.py:236-293 | nodes with and without findings, nodes by the best tier of their entries, and skipped nodes by whether an entry covers them |
| CountFigures.MessagesSay | arguss/engine/scan_counts.py:295-345 | which message is given when: four conditions can arise on some report, the other five on none |
| ResultsBuckets.TierMapIsBest | arguss/engine/scan_counts.py:236-244 | the tier recorded for a node is that of one of its entries, and no entry of the node ranks before it, for either ranking |
| BalanceLaws.PipelineEntriesAreSound | arguss/engine/propose.py:382-436 | every entry of the pipeline relates exactly the findings its candidate names, and the related-findings-missing skip is unreachable |
| BalanceLaws.ReportSkips | arguss/engine/propose.py:360-373 | the no-fix skips of a report are exactly those of its unfixable findings, one each |
| BalanceLaws.EachFindingInOneEntryOrSkipped | arguss/engine/propose.py:359-436 | every finding is related to exactly one entry or has a no-fix skip, never both |
| BalanceLaws.SoundReportsBalance | arguss/engine/scan_counts.py:217-345 | the counters of any sound report partition findings and nodes |
| BalanceLaws.ConsistentTalliesBalance | arguss/engine/scan_counts.py:295-321 | of the nine identities only the package status partition can break, exactly when a fixable node is not installed |
| BalanceLaws.PipelineReportsBalance | arguss/engine/scan_counts.py:187-345 | on every pipeline report the counters partition findings and nodes and the check passes exactly when the fixable findings' nodes are all in deps |
| DepRows.ParsedRowsAreNamed | arguss/core/parser.py:122-146 | a parsed row has a name, a version and an install key |
| DepRows.SerialisedRowsAreSound | arguss/web/url_scan.py:42-54 | serialised rows carry pairwise distinct, non-empty install keys and miss no parsed install |
| ResultsBuckets.CollectSeverestTier | arguss/web/results_context.py:1715-1733 | the loop computes the tier map of the nodes, by the opposite ranking, leaving out the excepted ones |
| ResultsBuckets.BuildPackageStatusSummary | arguss/web/results_context.py:1817-1899 | the page's buckets, computed from entries, skips and rows alone |
| CountFigures.PageFigures | arguss/web/results_context.py:1817-1899 | the page counts nodes by the worst tier of their entries, skipped nodes no entry is about, and as clean the nodes without entry or skip, direct if some row of them is |
| ResultsBuckets.TierOrdersAgreeIff | arguss/web/results_context.py:1715-1733 | ranking tiers in either order gives the same map exactly when no node has entries of different tiers |
| ResultsBuckets.PipelineIsUnanimous | arguss/engine/consolidate.py:33-118 | on pipeline reports no node has two entries |
| ResultsBuckets.PageSets | arguss/web/results_context.py:1736-1814 | the page's no-fix, affected and tier sets are those of the counts |
| ResultsBuckets.PageAgreesWithCounts | arguss/web/results_context.py:1817-1899 | on every pipeline payload the page's buckets equal ScanCounts and account for every node |
| LockfileBalance.OneLockfileAddsUp | arguss/engine/scan_counts.py:187-345 | for the findings of a parsed lockfile and the rows serialised from it the counts never raise, no balance message applies, the counters partition findings and nodes, and the results page agrees |
| ActionRuns.PopulateActionRunCandidates | arguss/web/action_runs.py:600-651 | one row per opened pull request of a known entry, waiting or review-only as RowSays states; the DECLINE error exactly when an authorised id is declined |
| ActionRuns.DeclineErrorIff | arguss/web/action_runs.py:611-615 | for any entries, the effective ids make populate raise exactly when no ids are passed and a mergeable AUTO_MERGE entry is overtaken by a DECLINE entry of the same id |
| ActionRuns.SeededRowsAreEntitled | arguss/web/action_runs.py:616-651 | a row waits to be merged exactly when selected, and then is authorized by the engine exactly when its tier is AUTO_MERGE and by a person exactly when it is REVIEW_REQUIRED |
| ActionRuns.SeededRowPerPr | arguss/web/action_runs.py:616-651 | every opened pull request of a known entry has its row |
| ActionRuns.SeededRowsSay | arguss/web/action_runs.py:600-651 | one row, in order, for each action that opened or found a pull request for a known entry, with its number and head; a selected one is waiting with the verdict's score and signals and the authorization of its tier, any other is review-only without them |
| ActionRuns.EffectiveIdsAreEntries | arguss/web/mode_c_workflow.py:101-126 | every id that may merge is that of an entry |
| ActionRuns.EffectiveIdsSay | arguss/web/mode_c_workflow.py:101-126 | without ids those with a pull request and an AUTO_MERGE verdict; otherwise those passed that have a pull request, are selected if there is a selection, and are not declined |
| ActionMerge.CheckRunsGreen | arguss/web/action_merge.py:71-80 | green exactly when non-empty, all completed and all concluded well |
| ActionMerge.CheckRunsFailed | arguss/web/action_merge.py:83-89 | failed exactly when some completed run concluded badly |
| ActionMerge.MergeTask.Announce | arguss/web/action_merge.py:186-223 | the authorization line is sent at most once and marked whatever came of it |
| ActionMerge.MergeTask.JudgeCandidate | arguss/web/action_merge.py:256-332 | the branches on the check runs and on the merge status, as the specification takes them; EveryAnswerIsReal ties both to GitHub's answers |
| ActionMerge.MergeTask.ProcessCandidate | arguss/web/action_merge.py:177-332 | one step of one row: its new state, its clock of empty looks, the requests made, and whether one raised |
| ActionMerge.MergeTask.EndRows | arguss/web/action_merge.py:360-390 | both early exits end exactly the rows that are not terminal |
| ActionMerge.MergeTask.FinalizeIfTerminal | arguss/web/action_runs.py:473-490 | completed exactly when it was, or when there are rows and all are terminal |
| ActionMerge.MergeTask.ProcessActive | arguss/web/action_merge.py:392-401 | the loop over active rows, abandoned at the first exception |
| ActionMerge.MergeTask.Run | arguss/web/action_merge.py:335-405 | the polling loop terminates and is the run of the specification |
| ActionMerge.ContinueIsEarly | arguss/web/action_merge.py:381-390 | no poll after about cap / interval goes round again |
| MergeLaws.ProcessKeeps | arguss/web/action_merge.py:177-332 | one step keeps the row's invariant: it only moves forward, its merges are cleared, it has ended exactly as an answer says, it is ci_running exactly when some answer was not green, and its clock is that of the running stretch of empty answers; it raises exactly when a request of it raised |
| MergeLaws.StretchGrows | arguss/web/action_merge.py:261-264 | an empty answer joins the running stretch or starts one, and the wait is measured from that stretch's first answer |
| MergeLaws.RunKeeps | arguss/web/action_merge.py:335-405 | every run from any point where the invariant holds keeps it for every row |
| MergeGuarantees.MergeSafety | arguss/web/action_merge.py:177-332 | every merge request is recorded for the row's one head, carries the row's own authorization, and directly follows a non-empty, completed, green answer for that head |
| MergeGuarantees.EndsFollowAnswers | arguss/web/action_merge.py:289-332 | a row ends merged, ci_failed or sha_conflict exactly when some answer recorded for it said so |
| MergeAnswers.EveryAnswerIsReal | arguss/web/action_merge.py:178-326 | every recorded request was made at a poll of the run, in order, for the row's own pull request and head, and its recorded answer is the environment's to just that request at that poll; a merge is asked at the poll of the look it follows |
| MergeAnswers.EndsAreReal | arguss/web/action_merge.py:178-332 | a row ends merged only if at some poll all checks of its head had passed and GitHub answered 200 to a merge pinned to that head, with a moved head only if 409, with failed checks only if one had failed, without a head only if GitHub gave none |
| MergeAnswers.EachPollAsks | arguss/web/action_merge.py:178-326 | at every complete poll each waiting row is asked about: the head if unknown, then the checks, and if all passed the merge; the authorization line is appended if still due |
| MergeAnswers.ActiveFollowsOrder | arguss/web/action_merge.py:376-379 | a pass goes over exactly the rows that are not terminal, in the order they are listed |
| MergeAnswers.PassInTurn | arguss/web/action_merge.py:392-401 | a pass takes each row's step after those of the rows before it, changes that row only, and stops at the first step in which a request raised |
| MergeAnswers.SettledRowsEnd | arguss/web/action_merge.py:289-332 | a waiting row that GitHub's answers at a complete poll settle as merged, moved or failed ends so |
| MergeGuarantees.NoChecksIffWaitedGrace | arguss/web/action_merge.py:258-287 | a row ends in no_checks exactly when an unbroken stretch of empty answers, measured from its first, lasted at least the grace period |
| MergeGuarantees.BodyAppendedAtMostOnce | arguss/web/action_merge.py:186-223 | the pull request body is appended to at most once per row, never when already recorded |
| MergeGuarantees.RunMovesForward | arguss/web/action_merge.py:177-332 | from any poll on: the head is written once, states only move from pr_opened over ci_running to terminal, terminal rows are final and get no request |
| MergeGuarantees.RunEnds | arguss/web/action_merge.py:335-405 | whatever GitHub answers the merge task makes at most cap / interval + 2 polls; unless a request raised every row is terminal, and the run is completed exactly when it has rows |
| MergeGuarantees.SwitchAndCapStopTheRun | arguss/web/action_merge.py:360-390 | a run never gets past a poll that sees the kill switch on or the cap reached; rows end killed only at the former and timed out only at the latter with the switch off |
| MergeGuarantees.AnsweredRunsComplete | arguss/web/action_merge.py:335-405 | in an environment that answers every request, the run returns with every row terminal and is completed exactly when it has rows |
| MergeGuarantees.RaisedHeadLeavesRunOpen | arguss/web/action_merge.py:230-241 | a row populated to be merged from a pull request of unknown head crashes the run when asking for the head raises at the first poll: body appended, row still waiting, run not completed |
| MergeGuarantees.EntitledRowsMerge | arguss/web/action_runs.py:616-651 | of the rows populate made, only selected ones merge, authorized by the engine exactly when the entry's tier is AUTO_MERGE and by a person exactly when it is REVIEW_REQUIRED |
| Workflow.FilterEntriesForAction | arguss/web/wizard.py:196-218 | the chosen entries, or an error exactly when a selected id matches no entry |
| Workflow.ChosenSay | arguss/web/wizard.py:196-218 | the chosen entries are in order those whose id is selected or, without a selection, those of tier AUTO_MERGE |
| Workflow.PipelineEntriesAreDistinct | arguss/engine/propose.py:382-436 | no two entries of a report share a candidate id |
| Workflow.ActionEntriesAreDistinct | arguss/web/wizard.py:196-218 | nor do the entries chosen for an action |
| Workflow.WorkflowNeverAuthorizesDecline | arguss/web/mode_c_workflow.py:101-125 | whatever was selected and whatever the actions brought, the workflow never makes populate raise |
| Workflow.OnlyEntitledRowsMerge | arguss/web/mode_c_workflow.py:333-399 | from findings to a merge request: the candidate is one of the report's entries and was chosen, and the request is authorized by the engine if its tier is AUTO_MERGE or by a person if it is REVIEW_REQUIRED |
| Workflow.MergesWhatIsPassed | arguss/web/mode_c_workflow.py:101-126 | which chosen candidates with a pull request may merge: without ids those of tier AUTO_MERGE, otherwise those passed that are not declined |
| Workflow.ActionPlanIsDistinct | arguss/web/github_action.py:239-259 | the plan of an action on the report's entries names no candidate twice |
| Workflow.PlanSays | arguss/web/github_action.py:241-257 | the plan gives each entry's candidate id, package, versions and kind, in order |
| Workflow.ActionRecordIsComplete | arguss/web/github_action.py:229-354 | from findings to the closed record, in every interleaving: each chosen candidate once, in order, with its worker's result, the event's counts and the right status |
| ActionRecords.ActionRecord.UpdatePrOutcome | arguss/web/action_records.py:264-297 | the first outcome of the candidate is merged in place, or the outcome is appended |
| ActionRecords.ActionRecord.FinalizeActionRecord | arguss/web/action_records.py:317-337 | the status is set; a failure reason is kept when no new one is given |
| ActionRecords.ActionRecord.MirrorActionEvent | arguss/web/action_records.py:169-206 | the record after each kind of event |
| ActionRecords.CandidateEventsSay | arguss/web/action_records.py:131-166 | a started candidate is pending without figures; an ended one has its result's status, pull request and, only if it failed or was skipped, reason |
| ActionRecords.PlannedEventSays | arguss/web/action_records.py:120-130 | a planned candidate is recorded as pending |
| ActionRecords.ClosingEventsSay | arguss/web/action_records.py:86-117 | how a run's last event closes the record: a completed scan by its counts, with the reasons recorded only when all failed; a failed scan as failed, for its reason if it states one; outcomes stay |
| ActionRecords.UpdatedSays | arguss/web/action_records.py:264-297 | an outcome takes the first place of its candidate, else a new last one, and keeps there what it leaves blank itself |
| ActionRecords.CountsSay | arguss/web/completion_summary.py:37-47 | the counts taken from a record are the numbers of its outcomes that ended each way |
| ActionRecords.ReasonsSay | arguss/web/action_records.py:101-117 | reasons are the non-empty errors of failed and skipped outcomes, in order |
| ActionRecords.DistinctFailureReasons | arguss/web/action_records.py:101-117 | the distinct non-empty reasons of failed and skipped outcomes, first seen first |
| ActionRecords.UpdateInPlace | arguss/web/action_records.py:276-292 | with distinct candidates an outcome rewrites its own entry and no other |
| ActionRecords.PlanIsLaidOut | arguss/web/action_records.py:169-173 | the plan event lays the record out in plan order, all pending |
| ActionRecords.StatusSaysWhatFailed | arguss/web/action_records.py:86-98 | completed, partial or failed exactly when none, some or all failed or were skipped; completed when there are none |
| ModeCWorkers.EveryInterleavingIsConsistent | arguss/web/github_action.py:265-342 | for any plan and any interleaving work in flight stays within the semaphore, the record lists each planned candidate once, and each worker takes exactly four moves; without repeats the record shows each worker's latest mirrored state in plan order |
| ModeCWorkers.NeverStuck | arguss/web/github_action.py:263-342 | with a positive semaphore some worker can always move until all are done |
| ModeCWorkers.ClosedRecord | arguss/web/github_action.py:342-354 | for any plan and any interleaving the status says whether none, some or all failed, the event's counts sum to the total, and the record gives the same counts exactly when no candidate is planned twice; then it shows every worker's result |
| ModeCWorkers.MoveShows | arguss/web/github_action.py:265-342 | a worker's start makes its candidate's entry pending, its end gives the entry its result, and no other move and no other entry changes |
| ModeCWorkers.CompleteEventSays | arguss/web/github_action.py:342-354 | the closing event gives the number of results and how many of them have each status |
| SlidingWindow.Prune | arguss/web/ip_rate_limit.py:88-90 | drops the leading expired times, which of sorted times are exactly those outside the window |
| SlidingWindow.PrunedDecides | arguss/web/ip_rate_limit.py:86-96 | comparing a pruned deque with the limit decides as all accepted times would, up to the lateness of calls and exactly without it |
| SlidingWindow.AcceptingKeepsWindows | arguss/web/ip_rate_limit.py:91-96 | accepting while fewer than the limit are live keeps every half-open window within the limit, in whatever order times come |
| SlidingWindow.LawfulKeepsWindows | arguss/web/ip_rate_limit.py:65-97 | a log grown that way keeps every window of every address within the limit |
| SlidingWindow.UsesAre | arguss/web/scan_rate_limit.py:84-86 | a session's uses are the allowed requests that carried it |
| SlidingWindow.SomeLatenessBounds | arguss/web/ip_rate_limit.py:77-78 | every finite run has a bound on how late its calls are |
| IpRateLimit.CheckedIsSound | arguss/web/ip_rate_limit.py:65-97 | one call decides as a limiter that remembers everything, up to the lateness and exactly without it, and the deques go on standing for the history |
| IpRateLimit.IpRateLimitState.CheckAndCount | arguss/web/ip_rate_limit.py:65-97 | the deques and the answer of each call, the refinement above, exactly the allowed requests recorded, and no other address kept without a live request |
| IpRateLimit.NoWindowOverLimit | arguss/web/ip_rate_limit.py:65-97 | over any run whose calls are at most d seconds late no window of an address of 60 - 2d seconds holds more than the limit |
| IpRateLimit.WaitIsEnough | arguss/web/ip_rate_limit.py:65-97 | a client back after the wait a denial told it is let through, if nothing of its address was let through meanwhile, exactly when the limit is positive; calls may come at any times |
| IpRateLimit.EarlyReturnIsDenied | arguss/web/ip_rate_limit.py:91-96 | with no call late, a client back more than a second early is denied again |
| IpRateLimit.LateCallsBreakLimit | arguss/web/ip_rate_limit.py:77-96 | the span is the longest that is safe: for every lateness up to half a minute and every longer window a run so late breaks a limit of two |
| ScanRateLimit.CheckedIsSound | arguss/web/scan_rate_limit.py:51-86 | one call decides as limiters that remember everything, one log entry stands for both counters, and a session is denied exactly when its limit is not positive or used up, for an hour |
| ScanRateLimit.ScanRateLimitState.CheckAndCount | arguss/web/scan_rate_limit.py:51-86 | both counters and the answer of each call; an allowed scan moves both, a denied one neither |
| ScanRateLimit.BothLimitsHold | arguss/web/scan_rate_limit.py:51-86 | over any run whose calls are at most d seconds late at most the limit per address in any 3600 - d seconds, and at most the limit per session |
| ScanRateLimit.WaitIsEnough | arguss/web/scan_rate_limit.py:51-86 | a client back after the wait a denial for its address told it is not denied for its address, if no scan of the address was let through meanwhile, exactly when that limit is positive |
| ScanRateLimit.SessionStaysExhausted | arguss/web/scan_rate_limit.py:75-83 | a session once denied for itself is denied after any further calls and any wait |
| ScanRateLimit.LateScansBreakLimit | arguss/web/scan_rate_limit.py:65-83 | the span is the longest that is safe: for every lateness up to an hour and every longer window a run so late breaks a limit of two |
| BlastRadius.DepsIndex | arguss/web/graph_data.py:24-59 | one entry per named package: its first stated version, direct if any row is, and exactly the parents any row names, sorted |
| BlastRadius.IndexSays | arguss/web/graph_data.py:24-59 | in the rows' own fields: the first version some row of the package states, direct if one row is, and as parents the non-empty names its rows list |
| BlastRadius.Collector.Walk | arguss/web/graph_data.py:125-141 | ends on cyclic graphs, leaves every member off the current path expanded, and adds only what every closed set needs |
| BlastRadius.CollectNodesAndEdges | arguss/web/graph_data.py:118-144 | the least set holding the target and closed under parents without expanding the root, with exactly the parent edges of its members and no dangling edge |
| BlastRadius.CollectedIffPullsIn | arguss/web/graph_data.py:118-144 | a package is collected exactly when a chain of parents leads to it from the target |
| BlastRadius.AllGraphEdges | arguss/web/graph_data.py:165-175 | every parent edge of the index |
| BlastRadius.EdgesAreChainSteps | arguss/web/graph_data.py:118-144 | the subgraph's edges are the full graph's into members other than the root, and exactly the steps of the chains of parents that lead away from the target |
| OsvPaging.QueryBatchPackages | arguss/lenses/_osv_client.py:235-335 | fails exactly when some name has more than 50 pages, and otherwise gives each distinct name the ids of all its pages in order |
| OsvPaging.QueryInChunks | arguss/lenses/_osv_client.py:267-328 | the same for any chunk size |
| OsvPaging.AnswersAgree | arguss/lenses/_osv_client.py:267-328 | there is one right answer, so neither chunking nor the order of finishing shows |
| OsvPaging.PagesFollowTokens | arguss/lenses/_osv_client.py:310-328 | the pages of a name are those asked for without a token and then with each page's token, the last one alone having none |
| OsvPaging.QueryChunk | arguss/lenses/_osv_client.py:269-328 | the page loop of a chunk completes its names or finds one with pages left after 50 rounds |
| OsvPaging.AskRound | arguss/lenses/_osv_client.py:310-328 | one response appends each pending name's page and keeps pending exactly those with a token |
| OsvPaging.CutOffIffTooLong | arguss/lenses/_osv_client.py:278-284 | a name is cut off exactly when it has no complete list of at most that many pages, and otherwise its ids are those pages' in order |

## Left out

- HTTP clients, git, SQLite, JSON, logging, settings, authentication, routes and templates: plumbing around the logic modelled here.
- CVSS base scores, PRS weighting, EPSS and KEV retrieval, pull request text and SBOM export: easy or presentational.
- The trust delta's own thresholds (arguss/lenses/trust.py:327-440): its flags are inputs of the verdict.
- SemVer pre-release precedence: arguss/engine/fix_kind.py:38 does not model it either.
- `_max_target` on unparseable versions: the string fallback is in `BestFrom`, but the laws are about discovery's output, which never has one.
- `_depth_by_package` (arguss/web/graph_data.py:178-212): display-path lengths seeded into it can stop relaxation early, so it is not a shortest distance.
- Reconciliation of stale runs (arguss/web/action_runs.py:452-470): it fires only well after the merge task has stopped.
- `open_fix_pr`: the work of one worker is an arbitrary result for its own candidate.
- Failures of the record mirror itself, wizard session transitions and the stream queue, whose order can differ from the record's.
- `str.strip`, Unicode digits and case folding: texts are trimmed and ASCII digits are meant.
- InstallKeys.DecodeEncode: does not cover names that are empty, hold a `/node_modules/` separator or are `node_modules` themselves, because such keys are read in two ways, as DoubledScopeIsReadTwoWays shows.
- LockfileParser.ParseLockfile: leaves the order of rows of equal name and version open, because the source takes it from the dictionary.
- FixConfidence.CollectReviewVetoes: does not model the reason texts beside the signals, which nothing else reads.
- FixConfidence.ComputeFixConfidence: does not model reason texts, the echoed candidate id and the timestamp of a verdict, for the same reason.
- Proposal.ProposeFixes: does not model the report's summary, project scores and lens explanation, which are presentational.
- ScanCounts.TallyEntries: does not model the per-candidate records and aggregates, which no balance identity reads.
- ScanCounts.BuildScanCounts: does not model candidate records, package rollups, and the order and text of balance messages, for the same reason.
- ResultsBuckets.BuildPackageStatusSummary: does not model the branch that shows cached counts, whose figures the page is proved to agree with, the always-zero mixed count of the other branch, and the display order of clean entries.
- ResultsBuckets.PageAgreesWithCounts: assumes one ecosystem per installed node, which OneLockfileAddsUp discharges for npm lockfiles, the only ones parsed.
- ActionMerge.MergeTask.Run: does not model the kill switch being sampled more often than once per poll, because the source samples it once per poll.
- ActionRecords.ActionRecord.FinalizeActionRecord: does not model the completion time.
- ActionRecords.ActionRecord.MirrorActionEvent: does not model the wizard session's own transitions, which do not touch the record.
- OsvPaging.QueryBatchPackages: does not model the response cache, and transport or shape errors of one response, which end the call with an error.
- IpRateLimit.NoWindowOverLimit: the limit is certain only in windows shorter by twice the lateness of calls, because LateCallsBreakLimit shows it can fail in every longer one.
- ScanRateLimit.BothLimitsHold: the address limit is certain only in windows shorter by the lateness of calls, because LateScansBreakLimit shows it can fail in every longer one.
