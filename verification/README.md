# Verified model of mongo-overview-tool

mongo-overview-tool inspects MongoDB clusters and runs bulk writes against them. This project models
its parts with the most state and branching, and proves what they promise over all inputs, all
interleavings and all answers of the server.

**Index consistency of sharded collections** (`Consistency*.dfy`, `CanonicalIndex.dfy`,
`MetadataCursor.dfy`). The auditor knows which shards own chunks of a collection and reads the index
definitions of each. It groups them by meaning and by name, reports what differs, reads every compared
shard once more before it warns, keeps quiet about indexes under construction, and falls back from
the server's own metadata check to `$indexStats` and to direct `listIndexes`. Map ranges are arbitrary
choices (`:|`), the server is a class whose answers are arbitrary and whose log is ghost state, and a
cancelled context stays cancelled. The verdicts are shown exact: `consistent` holds if and only if all
shards hold the same indexes, `inconsistent` if and only if one difference was found in two
observations, and neither depends on any iteration order.

**The collector session as a concurrent protocol** (`DerivedConnections.dfy`, `DerivedKeys.dfy`,
`DerivedCompletion.dfy`, `DerivedReturns.dfy`, `DerivedRuns.dfy`, `RemoteSlots.dfy`,
`InventoryCache.dfy`, `InventoryCopies.dfy`, `SlowlogIndex.dfy`). Each mutex section, each singleflight join and finish, each
`Connect` and each `Close` of a connection is one step; any number of callers
take steps in any order. Invariants are proved by induction over runs. Copies handed to callers, and
the address index for slow queries, are classes.

**Batched index audits** (`BatchPlanner.dfy`, `BatchCursor.dfy`). A sorted catalog is packed into
batches that end where a database ends, and a signed cursor resumes it. Any sequence of calls, with any
limits, covers the catalog exactly; with one limit the number of calls is the least possible.

**Bulk writes** (`BulkRun.dfy`). Retry and cursor loops with one id buffer. The first failure ends a pass,
a pass is repeated exactly when that is safe, and nothing is written twice.

**Shell documents** (`ShellStrings.dfy`, `ShellAgreement.dfy`, `ShellMeaning.dfy`). Two hand-written
scanners must agree on where strings begin and end; the documents on which they do are characterised
exactly.

**Redundant indexes** (`RedundantIndexes.dfy`). Every index reported as a prefix of another has a cover
that is not reported itself.

`Text.dfy` and `Sorting.dfy` hold what the other modules share: Go's order on strings, joining with a
separator, stable sorting, and an injective stand-in for hashes.

Where an expectation fails, the exact condition under which it holds is proved:

- each caller gets a connection of its own key, for all runs of callers that ask for keys of a set, if and
  only if no two keys of the set have the same text (`DerivedKeys.CallersGetTheirOwnKey`, broken by
  `DerivedKeys.SharedTextMisdelivers`); keys without NUL are such a set;
- sorting a catalog keeps databases together, and makes it independent of the listing order, if and only
  if no database name begins with another one followed by a dot (`BatchPlanner.ContiguousExactly` and
  `BatchPlanner.CatalogIsCanonicalExactly`, broken by `BatchPlanner.Interleaves`); names without dots,
  which are all that MongoDB allows, satisfy this;
- the index of slow queries agrees with the search if and only if the first occurrence has an address or
  none has (`SlowlogIndex.IndexAgreesExactly`);
- a database list that has been loaded is never loaded again if it is not empty, and can be if it is
  (`InventoryCache.FoundStays`, `InventoryCache.NotFoundIsLoaded`);
- the two shell scanners agree if and only if no double quote inside single quotes follows an odd run of
  backslashes, other than one that is the last character of the document
  (`ShellAgreement.ScannersAgreeExactly`; `ShellAgreement.ScannersDisagree` is a short case);
- the order in which a shard lists its definitions shows in no evaluation, whatever else was observed, if
  and only if the last definition of each name reads the same and the first of each meaning has the same
  key (`ConsistencyRepeats.RepeatsSeenExactly`); names and meanings that occur once satisfy this;
- the order of the server's issues shows in no evaluation if and only if no two of the differences they
  stand for share a signature and differ in normal form (`ConsistencyOfficial.OfficialOrderExactly`);
- a caller returns with a connection that is still open if and only if `Close` has not begun or not yet got
  to it (`DerivedReturns.ReturnsClosedExactly`; a waiting caller can always come too late, by
  `DerivedReturns.WaiterMayReturnClosed`).

## Model

| member | source | states |
|---|---|---|
| Sorting.SortedUnique | pkg/mot/index_consistency.go:1083-1091 | a list sorted by a key that tells its members apart is determined by its members alone |
| Sorting.SortIsStable | pkg/mot/index_consistency.go:1088-1090 | sorting keeps the order of elements with the same key |
| Sorting.SortedByKeys | pkg/mot/index_consistency.go:1088-1090 | a sorted list is determined by its elements with each key, in their order |
| Sorting.MapKeys | pkg/mot/index_consistency.go:1128-1135 | whatever order the range over a map picks, the keys come out as the one sorted list of them |
| Text.LexMeans | pkg/mot/index_consistency.go:1088-1090 | the order that texts are sorted in: a text comes first if it is a beginning of the other or has the smaller character where they first differ |
| ConsistencyModel.SignatureExact | pkg/mot/index_consistency.go:1073-1081 | differences without NUL have the same signature if and only if they have the same code, name, meaning and source type, and lists that are written alike |
| ConsistencyModel.SignatureInjective | pkg/mot/index_consistency.go:1073-1081 | two differences of clean text have the same signature only if they are the same difference |
| ConsistencyModel.SignatureOrders | pkg/mot/index_consistency.go:1083-1091 | sorting by signature is sorting by code, then by name, then by shards, key, meaning, fields and source type as written, for text without NUL |
| ConsistencyModel.NormalForm | pkg/mot/index_consistency.go:1083-1087 | the normal form of a difference has its shards and fields in order, and is the same otherwise |
| ConsistencyModel.FindingsMembers | pkg/mot/index_consistency.go:1093-1105 | a finding is reported if and only if its difference is there and its severity is the one of the code |
| ConsistencyModel.FindingsOrdered | pkg/mot/diagnostics.go:177-191 | warnings come first, within a severity the codes are in the order of their text, and findings of one code stay in the order of the differences |
| ConsistencyCompare.GroupDefinitions | pkg/mot/index_consistency.go:899-918 | the two-way maps hold, per meaning and shard, all definitions outside builds, and per name and shard the last one |
| ConsistencyCandidates.PresentShards | pkg/mot/index_consistency.go:1002-1010 | the expected shards that were observed, in their order |
| ConsistencyCandidates.AbsentShards | pkg/mot/index_consistency.go:1012-1020 | the expected shards that were not observed, in their order |
| ConsistencyCandidates.FindRenames | pkg/mot/index_consistency.go:919-946 | a name mismatch is found exactly for each meaning that every compared shard has under more than one name, and the names it handles are theirs |
| ConsistencyCandidates.FindNameDifferences | pkg/mot/index_consistency.go:948-984 | a missing index is found exactly for each unhandled name that some shard lacks, and a mismatch for each that all have with different meanings |
| ConsistencyCandidates.DifferingIndexFields | pkg/mot/index_consistency.go:1032-1057 | the result is the sorted list of the fields on which the definitions do not all agree |
| ConsistencyCandidates.CompareLegacyDefinitions | pkg/mot/index_consistency.go:898-986 | for every iteration order the differences found are, as a multiset, the renames, missing indexes and mismatches of the observations |
| ConsistencyEvaluate.BuildingIndexKeys | pkg/mot/index_consistency.go:988-1000 | the names and the meanings of all definitions that any shard is building |
| ConsistencyEvaluate.Confirm | pkg/mot/index_consistency.go:709-745 | candidates count as stable exactly when the second observation covers the compared shards and shows the same signature |
| ConsistencyEvaluate.EvaluateLegacy | pkg/mot/index_consistency.go:684-765 | state, coverage, observed shards, differences and findings are the ones the two observations determine |
| ConsistencyExactness.NoCandidatesExactly | pkg/mot/index_consistency.go:898-986 | for well-formed observations without builds the comparison finds nothing if and only if all shards hold the same indexes |
| ConsistencyExactness.Exactness | pkg/mot/index_consistency.go:684-765 | `consistent` if and only if shards are expected, all were observed, nothing is building and all hold the same indexes |
| ConsistencyVerdict.InconsistentExactly | pkg/mot/index_consistency.go:709-760 | `inconsistent` if and only if some difference was found in both observations of the compared shards |
| ConsistencyVerdict.WarningsAreSeenTwice | pkg/mot/index_consistency.go:709-765 | the warnings are exactly the differences found in both observations |
| ConsistencyVerdict.VerdictMatchesFindings | pkg/mot/index_consistency.go:746-765 | `inconsistent` if and only if a finding is a warning; `consistent` means full coverage and nothing reported |
| ConsistencyVerdict.BuildingSilences | pkg/mot/index_consistency.go:722-745 | a difference that is warned about names no index that either observation shows under construction |
| ConsistencyOrder.ReportedApart | pkg/mot/index_consistency.go:684-745 | two differences that one evaluation reports are never written alike, however their names and keys look |
| ConsistencyOrder.EvaluationUnique | pkg/mot/index_consistency.go:684-765 | two evaluations of the same observations are equal, so no iteration order shows in the result |
| ConsistencyOrder.OrderIndependence | pkg/mot/index_consistency.go:684-765 | permuting the definitions within the shards, in either observation, leaves the whole evaluation as it is, as long as, of what is compared, the last definition of each name and the first of each meaning read the same |
| ConsistencyOrder.UniqueAreAlike | pkg/mot/index_consistency.go:899-918 | which is so for every permutation when names and meanings occur once per shard |
| ConsistencyRepeats.RepeatsSeenExactly | pkg/mot/index_consistency.go:898-986 | for a shard that repeats names or meanings: a permutation of its list shows in no evaluation of any observations without builds, if and only if that condition holds of the list |
| ConsistencyOfficial.IssueKinds | pkg/mot/index_consistency.go:775-822 | for each kind of difference, exactly which issues of the server's own check yield one, at most one of a kind, and what it says; an issue of the namespace yields nothing only if its type is known to say nothing about indexes |
| ConsistencyOfficial.EvaluateOfficial | pkg/mot/index_consistency.go:767-844 | the evaluation reports all issues and the coverage gap, and its state follows from them |
| ConsistencyOfficial.OfficialVerdictMatchesFindings | pkg/mot/index_consistency.go:823-844 | for the server's own check, `inconsistent` if and only if a finding is a warning; `consistent` means nothing reported and every shard visible |
| ConsistencyOfficial.OfficialOrderExactly | pkg/mot/index_consistency.go:767-844 | for arbitrary text: every permutation of the issues leads to the same evaluation, if and only if no two differences they stand for have the same signature but different normal forms |
| ConsistencyOfficial.CleanIssuesAreApart | pkg/mot/index_consistency.go:1073-1091 | which is so for text without the signature's separators |
| ConsistencyConfirm.MarkBuildingDefinitions | pkg/mot/index_consistency.go:490-506 | exactly the definitions whose names are being built are marked, on every shard |
| ConsistencyConfirm.CollectDirect | pkg/mot/index_consistency.go:508-529 | every wanted shard is read in turn, after a look at the context, whatever the others answered, and only a noticed cancellation ends the reads; the result is what was answered, the errors are what failed, and they are empty exactly when every wanted shard answered |
| ConsistencyConfirm.EveryShardIsAsked | pkg/mot/index_consistency.go:508-529 | so a wanted shard that was not asked means that a cancellation was noticed |
| ConsistencyConfirm.AffectedShards | pkg/mot/index_consistency.go:542-557 | the shards that some difference affects |
| ConsistencyConfirm.EveryComparedShardIsAffected | pkg/mot/index_consistency.go:542-557 | one candidate is enough for every compared shard to be read again |
| ConsistencyConfirm.RereadShards | pkg/mot/index_consistency.go:473-487 | every compared shard is read again, the second observation holds new reads only, and it confirms exactly when no read failed |
| ConsistencyConfirm.ConfirmLegacy | pkg/mot/index_consistency.go:464-488 | a second round takes place exactly when two shards can be compared and something differs, and begins with a look at the context; a failed read or a cancellation never ends in `inconsistent` |
| ConsistencyPipeline.IncompleteEvaluation | pkg/mot/index_consistency.go:567-574 | an interrupted strategy yields no verdict, and the one difference that names exactly the expected shards that were not observed |
| ConsistencyPipeline.ApplyCoverageGap | pkg/mot/index_consistency.go:576-590 | a visibility gap takes `consistent` away, keeps `inconsistent`, and keeps verdict and findings in step |
| ConsistencyPipeline.ApplyIndexBuilds | pkg/mot/index_consistency.go:385-412 | running builds take `consistent` away, add no warning and are not reported twice |
| ConsistencyReport.Finish | pkg/mot/index_consistency.go:357-370 | what is reported are the differences of the evaluation, the visibility gap and the new builds, each in normal form and as often as it is there, sorted; with neither gap nor builds, those of the evaluation as they are |
| ConsistencyReport.ShownExactly | pkg/mot/index_consistency.go:357-370 | one difference is reported if and only if it is one of the evaluation, or the gap that names exactly the invisible expected shards when no doubt was expressed before, or a build that is seen and has a name |
| ConsistencyAudit.DefinitionsByShard | pkg/mot/index_consistency.go:531-540 | each shard gets its own definitions in their order, and definitions without a shard go nowhere |
| ConsistencyAudit.StatsPhase | pkg/mot/index_consistency.go:416-449 | `$indexStats` decides if and only if it answered and names every expected shard; otherwise the context is looked at, a timeout or a noticed cancellation gives up with the shards that were named, and anything else leads on to direct reads, for the reason that it failed with or for incomplete coverage |
| ConsistencyAudit.DirectPhase | pkg/mot/index_consistency.go:450-461 | all expected shards are read in turn, and these reads, confirmed by a second round, are what the verdict rests on |
| ConsistencyAudit.CollectLegacy | pkg/mot/index_consistency.go:414-462 | where the collection starts and ends, what the fallback says, and what the verdict rests on are determined by the answers; nothing is asked after a timeout or a noticed cancellation |
| ConsistencyAudit.SelectIssues | pkg/mot/index_consistency.go:372-383 | of a database-wide answer only the issues of the namespace count, in order |
| ConsistencyAudit.PassGates | pkg/mot/index_consistency.go:265-320 | a collection is compared if and only if it is a sharded collection with a ready plan, expected shards and a target for each; it is skipped exactly for the three benign reasons, and otherwise inconclusive, naming all expected shards or the first one without a target |
| ConsistencyAudit.RefusedOneWay | pkg/mot/index_consistency.go:265-320 | that determines the whole report |
| ConsistencyAudit.GatesAreCalm | pkg/mot/index_consistency.go:265-320 | no gate warns, and none says `consistent` or `inconsistent` |
| ConsistencyAudit.AuditCollection | pkg/mot/index_consistency.go:265-370 | for every behaviour of the server: the gates, the course of the strategies and of their fallbacks, the evidence that the verdict rests on, the adjustment for visibility and builds and every difference and finding reported are determined by what was answered; `inconsistent` if and only if some finding warns, `consistent` means complete coverage and nothing reported |
| ConsistencyAudit.MetadataFailureEnds | pkg/mot/index_consistency.go:341-352 | a failed metadata check ends the audit if and only if it ran into a timeout or a cancellation is noticed right after it; otherwise `$indexStats` or direct reads decide |
| ConsistencyAudit.StatsComeFirst | pkg/mot/index_consistency.go:416-449 | direct reads decide only where `$indexStats` was not to be asked, or was, failed to decide, and neither ran into a timeout nor was cut short |
| ConsistencyAudit.FallbackTells | pkg/mot/index_consistency.go:336-355 | the fallback names the starting and the final strategy exactly when they differ, and a legacy verdict rests on what was asked last |
| ConsistencyCollect.DatabaseScopes | pkg/mot/index_consistency.go:161-177 | each sharded database is asked about once, in order, and its scope is what the server answered; a cancellation noticed after an answer ends the loop, and nothing else does |
| ConsistencyCollect.CollectConsistency | pkg/mot/index_consistency.go:127-215 | the log is the checks of the databases followed by the audits, each after a look at the context; all audits are there unless the context was cancelled, and each is what `AuditCollection` promises for the routing of its collection and for the check it was to be given |
| ConsistencyCollect.OfficialIsTheServers | pkg/mot/index_consistency.go:161-204 | every official verdict rests on an answer that the server gave about the collection or, as far as it concerns the namespace, about its database |
| ConsistencyCollect.ConsistentWasChecked | pkg/mot/index_consistency.go:161-204 | a collection is called `consistent` on a metadata check only if the check was made and answered, reported nothing about its indexes, and all shards were visible |
| ConsistencyCollect.UnmadeCheckPasses | pkg/mot/index_consistency.go:195-204 | a scope that was never filled would pass for a clean one, which is why an audit must not start after the loop over the databases was cut short |
| ConsistencyEndToEnd.ConsistentMeans | pkg/mot/index_consistency.go:265-370 | an audited collection is `consistent` if and only if all expected shards are visible and were read, no build runs, and all hold the same indexes |
| ConsistencyEndToEnd.InconsistentMeans | pkg/mot/index_consistency.go:265-370 | it is `inconsistent` if and only if one difference was found in two observations, the second read entirely after the first |
| ConsistencyEndToEnd.SteadyReads | pkg/mot/index_consistency.go:684-765 | when nothing is being built and the second read shows what the first did, in whatever order, `inconsistent` if and only if the shards' indexes differ |
| ConsistencyEndToEnd.SteadyShardsAreJudged | pkg/mot/index_consistency.go:265-370 | so the audit decides for shards that hold still: `inconsistent` if their indexes differ, `consistent` if not and all are visible |
| CanonicalIndex.Canonical | pkg/mongo/index_consistency.go:450-506 | which specs are refused, and what fingerprints the others get |
| CanonicalIndex.IsBlank | pkg/mongo/index_consistency.go:471 | a text is blank if and only if all its characters are white space |
| CanonicalIndex.SpacesAre | pkg/mongo/index_consistency.go:471 | the 25 characters that are white space |
| CanonicalIndex.SemanticFingerprint | pkg/mongo/index_consistency.go:450-506 | two specs have the same semantic fingerprint if and only if they agree on all fields but `name` and `ns`, in whatever order |
| CanonicalIndex.DifferingFieldsExact | pkg/mot/index_consistency.go:1032-1057 | for any number of definitions, a field is reported as differing if and only if it is neither `name` nor `ns` and the specs of two of them disagree on it |
| CanonicalIndex.MismatchNamesAField | pkg/mot/index_consistency.go:966-983 | every spec mismatch that the comparison of shards reports names at least one field |
| ConsistencyRouting.RoutingSnapshot | pkg/mongo/index_consistency.go:168-194 | the expected shards are those that own a chunk, each once and in order, none of them without a name; a dropped collection is not sharded, and a chunk without shard is an error |
| MetadataCursor.Deduplicate | pkg/mongo/index_consistency.go:437-448 | in-place removal of repetitions while the same array is being read |
| MetadataCursor.SortedDedupIsCanonical | pkg/mongo/index_consistency.go:407-410 | sorting and removing repetitions yields the members in order, each once, whatever the input order |
| MetadataCursor.CursorCollection | pkg/mongo/index_consistency.go:429-435 | the collection is what follows the database and a dot, and there is none exactly if nothing does |
| MetadataCursor.ReadCursor | pkg/mongo/index_consistency.go:302-350 | a further command is sent exactly while the last response was in order and named a cursor and the context is alive, and asks for that cursor; the loop succeeds if and only if the last response was in order and left nothing, and then all issues were kept |
| MetadataCursor.CollectIssues | pkg/mongo/index_consistency.go:268-351 | the same of the whole call; a cursor still open at the end is killed, and no other, unless the first response had no valid namespace |
| DerivedConnections.StringValueInjective | pkg/mot/session.go:289-291 | for addresses and replica-set names without NUL the key text determines the key |
| DerivedConnections.InvariantKept | pkg/mot/session.go:165-278 | every step of every caller, load and `Close` keeps the protocol's invariant |
| DerivedConnections.ReachableInvariant | pkg/mot/session.go:165-278 | the invariant holds in every state that any interleaving reaches |
| DerivedConnections.EveryConnectionHasOnePlace | pkg/mot/session.go:165-278 | a connection that was created is with its load, cached, taken by `Close`, or closed once, and never in two of these |
| DerivedConnections.NothingIsRegisteredAfterClose | pkg/mot/session.go:249-262 | once the session is closed the cache is empty and stays so |
| DerivedConnections.ClosedExactlyOnce | pkg/mot/session.go:165-196 | when `Close` and all loads have ended every connection ever created has been closed exactly once |
| DerivedConnections.OneLoadPerKey | pkg/mot/session.go:230-262 | per key at most one load is at work and at most one ever registers a connection |
| DerivedConnections.CallersGetTheirOwnText | pkg/mot/session.go:213-278 | a caller that returns has a connection made for a key with the text of its own |
| DerivedKeys.SharedTextMisdelivers | pkg/mot/session.go:230-278 | for any two different keys with the same text there is a run, asking for no other key, in which a caller gets the other's connection |
| DerivedKeys.CallersGetTheirOwnKey | pkg/mot/session.go:213-278 | for any set of keys: in every run of callers that ask for them each gets its own connection, if and only if the text tells them apart |
| DerivedKeys.PlainKeysAreToldApart | pkg/mot/session.go:289-291 | the keys without NUL are such a set |
| DerivedConnections.ReturnsAreCounted | pkg/mot/session.go:213-278 | successful returns are cache hits plus delivered openings, and these are no more than the openings counted |
| DerivedRuns.RunTells | pkg/mot/session.go:165-262 | the session is closed exactly once `Close` has begun, a connection that could not be made is counted once, and each connection was made for the key its load was started for |
| DerivedRuns.ClosedTurnsAway | pkg/mot/session.go:213-216 | once the session is closed no caller that arrives joins a load or gets a connection |
| DerivedRuns.NothingFailsUnprovoked | pkg/mot/session.go:213-278 | a caller comes away with nothing only if a connection could not be made, its context ended, or the session was closed |
| DerivedCompletion.LoadDelivers | pkg/mot/session.go:230-262 | from every reachable state each load can be brought to its end without a step of any caller or other load |
| DerivedCompletion.CallerReturns | pkg/mot/session.go:213-278 | from every reachable state each caller can be brought to its return, without a cancellation |
| DerivedCompletion.WaiterGetsAConnection | pkg/mot/session.go:265-277 | a caller that waits for a load that has not failed, in an open session, can return with a connection |
| DerivedCompletion.EverythingCompletes | pkg/mot/session.go:165-278 | from every reachable state all callers can return, all loads deliver and `Close` finish, and then each connection ever made has been closed exactly once |
| DerivedReturns.GivenClosedExactly | pkg/mot/session.go:165-278 | a connection that a caller was given has been closed once if the session is closed and `Close` has it no longer before it, and not at all otherwise |
| DerivedReturns.ReturnsClosedExactly | pkg/mot/session.go:213-278 | at the step with which a caller returns the same holds of the connection it returns, and one from the cache is open |
| DerivedReturns.WaiterMayReturnClosed | pkg/mot/session.go:265-277 | a caller that waits for a load that can still deliver, or has, can return with a connection that `Close` has closed |
| RemoteSlots.InvariantKept | pkg/mot/session.go:463-532 | every step keeps each semaphore as full as there are callers that hold a permit |
| RemoteSlots.LimitsHold | pkg/mot/session.go:463-495 | in flight ≤ held ≤ the session's limit, in flight ≤ peak ≤ the limit and the operations, and no capability exceeds its own limit |
| RemoteSlots.PermitsAreConserved | pkg/mot/session.go:507-532 | a caller that fails or releases, at whatever point, has returned exactly what it took; while the first call of a release function is under way and after it, the guards make every other call do nothing |
| RemoteSlots.CallersAreTheArrivals | pkg/mot/session.go:507-532 | every caller keeps the capability it arrived with, and the session is closed exactly if it was told to close |
| RemoteSlots.StatisticsTell | pkg/mot/session.go:478-484 | the operations counted are the callers that ever got in, and the peak is the most that were in flight at a time |
| RemoteSlots.ClosedLetsNobodyIn | pkg/mot/session.go:463-476 | once the session is closed nobody gets in any more, and nobody begins to wait for a slot |
| RemoteSlots.OnlyClosingTurnsAway | pkg/mot/session.go:463-476 | no caller is turned away but by the end of its context or of the session |
| RemoteSlots.NoDeadlock | pkg/mot/session.go:507-532 | while a caller is unfinished some caller can take its next step without anyone being cancelled |
| RemoteSlots.WorkDecreases | pkg/mot/session.go:463-532 | every step and cancellation brings the callers nearer to their end |
| RemoteSlots.EverythingIsReturned | pkg/mot/session.go:463-532 | from every reachable state all callers can finish without a cancellation, and then all permits are back |
| InventoryCache.InvariantKept | pkg/mot/session_discovery.go:71-147 | every step of readers, loads and remembered statuses keeps the cache's invariant |
| InventoryCache.LoadedOnce | pkg/mot/session_catalog.go:111-192 | an inventory kept in a map or behind a reference is loaded at most once per key, and the statistic counts the keys |
| InventoryCache.ReadersGetTheLoadedValue | pkg/mot/session_discovery.go:71-147 | every reader gets the one value that was loaded for its key |
| InventoryCache.StoredWasAnswered | pkg/mot/session_discovery.go:71-107 | what is stored, and so what readers get, was fetched for that key or remembered |
| InventoryCache.RunTells | pkg/mot/session_discovery.go:71-107 | readers read the key they came for, and the session is closed exactly if it was told to close |
| InventoryCache.FoundIsAnswered | pkg/mot/session_discovery.go:71-80 | a reader of an inventory that is there is answered at once, and nothing else changes |
| InventoryCache.ClosedAdmitsNobody | pkg/mot/session_discovery.go:71-75 | once the session is closed no reader gets past the first look, and nothing is remembered |
| InventoryCache.NothingFailsUnprovoked | pkg/mot/session_discovery.go:71-147 | a reader comes away with nothing only if a load failed, its context ended, or the session was closed |
| InventoryCache.ReaderReturns | pkg/mot/session_discovery.go:71-147 | every reader can be brought to its return by its own steps and those of the load it waits for |
| InventoryCache.LoadDelivers | pkg/mot/session_discovery.go:82-107 | every load can be brought to its end by its own steps, whatever the readers do |
| InventoryCache.OnlyEmptyIsReplaced | pkg/mot/session_catalog.go:71-109 | of the database lists loaded only the last can be non-empty, so a non-empty one is loaded once |
| InventoryCache.FoundStays | pkg/mot/session_catalog.go:71-109 | what a look at the cache finds is found by every later look, and is not loaded again |
| InventoryCache.NotFoundIsLoaded | pkg/mot/session_catalog.go:71-109 | what a look does not find, as an empty list, can be loaded again |
| InventoryCache.SharedHoldsStoredValues | pkg/mot/session_replica.go:35-93 | a replica-set status is stored at most once by a load and once by remembering, and readers get a stored value |
| InventoryCache.RememberedExactly | pkg/mot/session_replica.go:73-93 | a status seen elsewhere is stored exactly if the session is open and has none for the key |
| InventoryCopies.UriOfHost | pkg/mongo/model.go:176-182 | a shard has an address if and only if its host is a replica set and a non-empty address with the only slash between them |
| InventoryCopies.CloneClusterInfo | pkg/mot/session_discovery.go:169-179 | the copy has its own map with the same entries |
| InventoryCopies.OverlayEntries | pkg/mot/session_discovery.go:61-67 | of several shards with one name the last address counts |
| InventoryCopies.Session.Load | pkg/mot/session_discovery.go:82-104 | the function that singleflight runs stores one copy and hands out another |
| InventoryCopies.Session.JoinLoad | pkg/mot/session_discovery.go:71-107 | callers that share one load get a struct and a map each, apart from each other, from the shared result and from the cache |
| InventoryCopies.Session.ClusterTopology | pkg/mot/session_discovery.go:71-107 | the cached topology is what was loaded first, and the result is a copy of it |
| InventoryCopies.Session.DetectCluster | pkg/mot/session_discovery.go:49-69 | the shards' addresses go into the copy, the cache keeps what it had, and a shard without address is an error |
| InventoryCopies.ReadersAreIndependent | pkg/mot/session_discovery.go:49-107 | whatever a caller writes into what it was given, the next caller reads the same |
| InventoryCopies.WaitersAreIndependent | pkg/mot/session_discovery.go:71-107 | whatever one of the callers of a load writes into what it was given, the others and the next caller read the same |
| SlowlogIndex.FindSlowlogAddress | pkg/mot/slowlog.go:215-234 | the nested search returns the address of the first occurrence |
| SlowlogIndex.Locations.Record | pkg/mot/session.go:420-439 | the index after a summary is the old one with all occurrences entered in order |
| SlowlogIndex.Locations.SlowlogAddress | pkg/mot/session.go:441-448 | the answer is the first address under which any summary recorded so far shows the query, and nothing for an empty name |
| SlowlogIndex.RecordedFinds | pkg/mot/session.go:420-448 | the index answers with the first address that is not empty |
| SlowlogIndex.IndexAgreesExactly | pkg/mot/session.go:420-448 | exactly when the index, after any summaries, answers as the search through all of them |
| SlowlogIndex.IndexAgrees | pkg/mot/slowlog.go:215-234 | for non-empty names and addresses it always does |
| BatchPlanner.SortedIsContiguous | pkg/mot/index_audit.go:305-307 | sorting by full name puts each database's collections side by side, if no database name begins with another one and a dot |
| BatchPlanner.Interleaves | pkg/mot/index_audit.go:305-307 | for any two names of which one begins with the other and a dot, a sorted list in which one database comes between two collections of the other |
| BatchPlanner.ContiguousExactly | pkg/mot/index_audit.go:305-307 | for any set of names: every sorted list over it keeps its databases together, if and only if no name begins with another one and a dot |
| BatchPlanner.DotFreeIsApart | pkg/mot/index_audit.go:305-307 | names without a dot are such a set |
| BatchPlanner.CatalogIsCanonicalExactly | pkg/mot/index_audit.go:283-309 | for any set of names: no catalog over it depends on the order in which the server lists databases and collections, if and only if the same holds of the set |
| BatchPlanner.NextIndexAuditBatch | pkg/mot/index_audit_batch.go:231-252 | the batch is the longest that ends at the end of a database and keeps the limit, or the first `limit` collections when no such batch exists |
| BatchPlanner.BatchIsUnique | pkg/mot/index_audit_batch.go:231-252 | there is only one such batch |
| BatchPlanner.OnlyOversizedDatabasesAreSplit | pkg/mot/index_audit_batch.go:231-252 | a database is split only if what remains of it exceeds the limit |
| BatchPlanner.DatabaseCount | pkg/mot/index_audit_batch.go:254-264 | the count is the number of stretches of one database, and so the number of databases if and only if each is in one piece |
| BatchPlanner.StretchesAreDatabases | pkg/mot/index_audit_batch.go:254-264 | there are as many stretches as databases if and only if each is in one piece, and never fewer |
| BatchPlanner.GreedyStaysAhead | pkg/mot/index_audit_batch.go:231-252 | after any number of batches the program is at least as far as any plan that cuts at the ends of databases |
| BatchPlanner.FewestBatches | pkg/mot/index_audit_batch.go:231-252 | so it needs no more batches than any of them |
| BatchCursor.FrameInjective | pkg/mot/index_audit_batch.go:192-203 | the byte framing of the catalog is injective |
| BatchCursor.ScopeHashExact | pkg/mot/index_audit_batch.go:172-190 | scopes are told apart by their contents, however their lists are ordered |
| BatchCursor.AcceptedExactly | pkg/mot/index_audit_batch.go:205-229 | a call begins with the first batch if and only if its cursor is blank, and resumes if and only if the cursor is what this program signs for this scope and catalog at an inner position; any other cursor is refused, as one of a changed scope if it is signed for another scope or catalog, and as invalid otherwise |
| BatchCursor.ChangedCatalogIsRefused | pkg/mot/index_audit_batch.go:221-224 | a cursor from another catalog resumes nowhere and is refused as one of a changed scope |
| BatchCursor.IssuedCursorIsAccepted | pkg/mot/index_audit_batch.go:136-147 | the cursor a call issues is accepted at exactly the position behind its batch, with the next batch number |
| BatchCursor.DescribeBatch | pkg/mot/index_audit_batch.go:121-147 | batch and metadata describe the stretch of the catalog they stand for |
| BatchCursor.IndexAuditBatch | pkg/mot/index_audit_batch.go:77-157 | which calls are refused and why, and the page that the others answer: the batch at the position that the cursor stands for, and numbers that describe it |
| BatchCursor.RunCovers | pkg/mot/index_audit_batch.go:77-157 | any sequence of calls, with any limits, yields batches that make up the catalog; each is non-empty and within its limit, the rest shrinks, and a cursor is issued exactly while something remains |
| BatchCursor.RunExists | pkg/mot/index_audit_batch.go:77-157 | no call on the way is refused |
| BatchCursor.RunIsGreedy | pkg/mot/index_audit_batch.go:231-252 | with one limit the calls end where the greedy plan does |
| BatchCursor.FewestCalls | pkg/mot/index_audit_batch.go:231-252 | a run makes no more calls than there are batches in any plan that cuts at the ends of databases |
| BulkRun.ExecuteBatch | pkg/mot/bulk.go:244-266 | a look at the context, one write, and the pause if one is wanted, of which the first failure ends it; the counters and the observer follow exactly the writes that succeeded |
| BulkRun.RunOnce | pkg/mot/bulk.go:203-242 | the course of a pass: the first failure of the opening, the cursor, a document, a look at the context, a write or a pause ends it, it succeeds if and only if nothing failed, and it may be retried if and only if it ended in a transient failure to open or of the cursor; it writes a prefix of the ids in full batches, and all of them when it succeeds |
| BulkRun.RunAttempts | pkg/mot/bulk.go:164-190 | a pass is followed by another if and only if it failed in a way that may pass, retries are left, nothing was written, and the pause between them was not cut short |
| BulkRun.RunBulk | pkg/mot/bulk.go:132-191 | which options are refused; what is asked before the first pass and when a run ends there; all writes belong to the last pass, and the counters are the sums over completed batches |
| BulkRun.WrittenIsCounted | pkg/mot/bulk.go:193-201 | a pass that counted nothing and did not end in a failed write issued none, which is why a retry repeats nothing |
| BulkRun.EachPositionOnce | pkg/mot/bulk.go:203-242 | each write's ids are the stretch of the stream right behind those before it |
| BulkRun.BatchCountIsCeiling | pkg/mot/bulk.go:203-242 | on success the number of batches is the number of ids divided by the batch size, rounded up |
| BulkRun.ReportsAreNumbered | pkg/mot/bulk.go:252-262 | the observer sees numbers 1, 2, 3, … with the ids processed so far |
| ShellStrings.SingleToDoubleQuotes | pkg/mongo/bson.go:102-169 | the index-driven scanner computes the rewriting that is defined on what is left to read |
| ShellStrings.SplitByStrings | pkg/mongo/bson.go:203-250 | likewise for the scanner that takes a text apart at its strings |
| ShellStrings.SplitIsLossless | pkg/mongo/bson.go:203-250 | the segments make up the text |
| ShellStrings.SplitIsWellSplit | pkg/mongo/bson.go:203-250 | segments outside strings are non-empty, hold no double quote and are never adjacent |
| ShellAgreement.IntendedIsTheOutput | pkg/mongo/bson.go:102-169 | the strings of the document, rewritten, and what is between make up the first scanner's output |
| ShellAgreement.ScannersAgreeExactly | pkg/mongo/bson.go:67-75 | the second scanner finds exactly those strings if and only if no double quote inside single quotes follows an odd run of backslashes, other than one that is the last character of the document |
| ShellAgreement.ScannersDisagree | pkg/mongo/bson.go:102-169 | a document of five characters on which they disagree |
| ShellMeaning.IdentityExactly | pkg/mongo/bson.go:102-169 | rewriting changes nothing if and only if no single quote is outside double-quoted strings |
| ShellMeaning.RewritingIsIdempotent | pkg/mongo/bson.go:102-169 | for such documents rewriting twice is rewriting once, and no single quote is left outside strings |
| ShellMeaning.MeaningIsKept | pkg/mongo/bson.go:138-160 | a rewritten string says what the original said, when its backslashes escape single quotes |
| ShellMeaning.PlainDocumentsAreHandled | pkg/mongo/bson.go:67-75 | documents whose backslashes inside single quotes all escape single quotes have all these properties |
| RedundantIndexes.KeyPrefix | pkg/mot/index_audit.go:519-529 | the loop decides proper prefix |
| RedundantIndexes.FirstIndexDefinitions | pkg/mot/index_audit.go:500-509 | the first observation of every name, once, in order of names, for every iteration order |
| RedundantIndexes.RedundantFindings | pkg/mot/index_audit.go:464-474 | a pair is reported if and only if the key of one is a proper beginning of the other's and the two are equal in everything but name, key and host; each pair is reported once, in order |
| RedundantIndexes.FlaggedExactly | pkg/mot/index_audit.go:464-474 | an index is reported if and only if it has a longer-keyed index whose key begins with its own and which is the same otherwise |
| RedundantIndexes.CoverSurvives | pkg/mot/index_audit.go:464-529 | every reported index has a cover that is not reported |

## Left out

- MongoDB driver calls, BSON decoding, aggregation pipelines, connection strings: their answers are
  arbitrary values of the model.
- Command line, printing, progress bars, logging and signals.
- SHA-256 and HMAC (section 2 of RFC 2104) are injective functions or terms, base64url (section 5 of
  RFC 4648) and JSON are lossless codecs. Signatures are compared as what their hexadecimal text
  stands for.
- Strings are sequences of `char`, compared element by element, where Go compares UTF-8 bytes; the two
  orders agree on valid text. Integers are unbounded.
- Wall-clock time, pauses and deadlines: a context is a flag that, once set, stays set.
- Collector statuses, error lists and capability names beside an index-consistency verdict, version
  parsing, and `mergeConsistencyEvaluation`, which copies fields.
- ConsistencyCollect.CollectConsistency: audits one collection after the other, in the order given, where
  the source audits some at a time and sorts the results. What routing was collected, what the version
  leads to and which shards the cluster lists are parameters.
- `FullFingerprint`, and the evidence of a finding beyond the difference it reports.
- An evaluation is passed and returned as a value where the source updates it through a reference, and
  definitions are marked in a new map where the source marks them inside shared slices.
- ConsistencyModel.SignatureInjective: needs text free of NUL and of the separators that the signature
  joins its lists with; a key field may hold these, and then `SignatureExact` is what remains.
- ConsistencyVerdict.InconsistentExactly: needs text without NUL, which MongoDB does not allow in names.
  The two differences agree in code, name and meaning, and their lists as they are written with commas;
  for text without separators they are equal (`WrittenAlike`).
- ConsistencyOrder.EvaluationUnique: needs text without NUL and expected shards that have a name, as
  `RoutingSnapshot` ensures.
- ConsistencyExactness.Exactness: needs observations keyed by expected shards only, and names and
  meanings that occur once per shard, since the comparison counts shards and keeps one definition a name.
- ConsistencyOrder.OrderIndependence: needs text without NUL and named shards, as `EvaluationUnique` does.
- ConsistencyRepeats.RepeatsSeenExactly: is about observations without builds; with builds,
  `OrderIndependence` states the condition of the definitions that remain.
- A factory that reports success without a connection. That loads connect at all, which
  `DerivedCompletion` supposes where it says that a caller or a load can reach its end with a connection.
- RemoteSlots.NoDeadlock: callers hold one slot at a time and release it at last; a holder that asks for
  a second slot is not modelled, nor is the order in which a semaphore serves those who wait.
- The client without a session, whose slots are no-ops.
- InventoryCache.SharedHoldsStoredValues: bounds the values stored for a key by two where the other
  inventories have one, because a remembered status and a load that is already out may both store one.
- In `InventoryCache` an inventory is known by the text singleflight uses for it, and its content is a
  number, or nothing when it is empty. `cloneShardStatus` and `cloneReplicaSetInventory` copy a slice of
  values and are not modelled apart from that.
- In `InventoryCopies` every load succeeds; loads that fail are part of `InventoryCache`.
- Selecting the collections of a catalog (`selectIndexCollectionRefs`) is a filter; only the sorting that
  follows is modelled. The size limits on a cursor's text and the topology gates of a batch are left out.
- BatchCursor.AcceptedExactly: the key is a text that stands for the target's URI and authentication
  source; that two targets have different keys is not part of this model.
- `replaceShellFunctions` and `quoteKeysAndCleanup`, which are regular expressions between and after the
  two scanners.
- ShellMeaning.MeaningIsKept: says nothing of backslashes that escape something else, whose meaning in a
  shell the program does not define.
- A write that keeps the id buffer after it has returned.
- The thresholds of doctor, operations, overview, capacity and hotspot, which one branch each decides.
