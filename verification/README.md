# Verified models of ForgeOS algorithms and protocols

This project models, in Dafny, the algorithms and protocols of the repository whose correctness
rests on more than one branch: the fuzzy FAQ matcher of the portfolio page, the durable recovery
worker and its supervisor, the HP12C contract rewriter, the route preflight and its fallback
ladder, the concurrent lock probe, the persistent ledger, the profile merge and inventory, the
Kubernetes profile names and verdicts, the free-route selection and the backlog counters. Each is
proved against a statement that does not repeat the code.

`dafny verify dfyconfig.toml` checks the whole project.

## Files

| file | part |
|---|---|
| `EditDistance.dfy` | edit scripts, the distance recurrence, the matrix loops, the metric laws |
| `TextNormal.dfy`, `Similarity.dfy`, `FaqSearch.dfy` | normalisation, similarity score, FAQ search |
| `Recovery.dfy` | the recovery worker, the supervisor, every interleaving of the two |
| `TaskContracts.dfy`, `ContractChain.dfy`, `ContractInstall.dfy` | the HP12C task table and its rewrite |
| `RouteLists.dfy`, `FreeRoutes.dfy`, `Preflight.dfy` | route lists, free routes, preflight and ladder |
| `LockRace.dfy` | two attempts, one barrier, one lease |
| `Decimal.dfy`, `LedgerHistory.dfy`, `Ledger.dfy` | the ledger store and the history it stands for |
| `Sums.dfy`, `ProfileMerge.dfy`, `ModuleInventory.dfy` | module profiles of a run |
| `JobWait.dfy`, `ProfileNames.dfy`, `ProfileBuild.dfy` | Kubernetes job wait, names, profile |
| `Backlog.dfy` | backlog checkboxes and phases |
| `Basics.dfy`, `PyText.dfy` | shared small definitions |

## How to read the models

Code that works step by step is a method with loops (the matrix, the FAQ search, the worker pass,
the contract installation over an array of rows, the probe loop, the ledger class, the merge, the
wait loop, the counters), proved against a specification function or directly against the property.
Protocols (recovery, lock race) are deterministic step functions over arbitrary action sequences,
so that "every run" is "every sequence of actions"; an action that is not enabled changes nothing.

Scores are exact rationals, amounts are exact reals. Lower-casing and accent stripping are function
parameters about which only one thing is assumed where it is needed: they leave plain lower-case
text alone. HTTP, kubectl and Redis replies, the clock and sleeps are parameters too.

In the recovery protocol one worker runs at a time and the supervisor's lease expiry is one step;
crashes may happen between any two steps, and the clock may read anything from zero up.

## Results worth knowing

* The FAQ search answers with the first matching FAQ whenever every reply of the list renders to
  something, as all replies of the repository's own list do (`SpokenFaqsAnswerFirst`). In a list
  with an empty reply, which a later edit could bring in, the search passes over a match whose reply
  renders to nothing, because the empty text is falsy; `FirstMatchAnswers` is the exact statement
  and `SilentFaqIsPassedOver` such a list.
* A full worker pass after the lease expiry does not always recover. `VerdictCondition` gives the
  exact condition: the record was not yet reconciled, and no worker was carrying a live copy loaded
  before the expiry. The expiry of an already recovered record lasts exactly when no worker is on
  its way to rename a different copy over it (`SecondExpiryIsFinal`); a recovered copy under way,
  which a run can have (`LateCopyReachable`), makes all checks hold again (`LateCopyRepairs`).
  Under the condition of `VerdictCondition`, and only then, a final read at any moment passes if and only if some
  rename has been finished since the expiry (`ReadAfterRename`, `ReadCondition`); a Pod counts as
  ready before its worker has renamed anything, so a read can come too early.
* The lock probe reports True exactly when one of its two requests was refused, in every finished
  interleaving (`VerdictIsOneRefusal`). When Redis answers every call, that means an attempt was
  kept out by a holder's key, even if keys lapse (`AnsweredVerdict`); without a lapse it means that
  the second request landed before the first holder left (`VerdictIsOverlap`). When calls fail it
  need not mean anything of the kind: a failed SET after the first attempt has left, or a failed DEL
  on its way out, gives True without any overlap (`FailedSetPasses`, `FailedDelPasses`). An
  exclusive lock used one attempt after the other is reported as False (`SequentialRunFails`).
* A catalog route that answered HTTP 410 leaves the ordered routes unless it is empty, has white
  space at an end, or a verified identifier strips to it (`GoneRouteOrdered`). `GoneRouteOnLadder`
  says when it is then among the eight of the ladder. `PaddedGoneRouteStays` and
  `PaddedTwinKeepsGoneRoute` are inputs of either kind.
* After the contract installation tasks run in id order only, and the first n of them can be taken
  if and only if every id imported for them is the smaller id of a row of the table; a dependency on
  an id without a row stops the run there.
* A built Kubernetes profile passes the modelled validation if and only if its image string contains
  none of the refused substrings. The scan of the model reads the string leaves; in YAML text a long
  image with spaces may be folded, which can split a refused substring that contains a space.

## Model

| member | source | states |
|---|---|---|
| EditDistance.FillMatrix | scripts/generate_bilingual_portfolio.py:1000-1013 | The matrix loops, from arbitrary initial contents, leave in the last cell the length of a shortest insert/delete/substitute script, and in every cell the cost of its prefixes |
| EditDistance.CellIsEditDistance | scripts/generate_bilingual_portfolio.py:1003-1012 | Every cell [j][i] is the edit distance of the prefixes of those lengths |
| EditDistance.CostIsEditDistance | scripts/generate_bilingual_portfolio.py:1003-1013 | The recurrence is attained by some script of edits at arbitrary positions, and no script is shorter |
| EditDistance.ShortestScript | scripts/generate_bilingual_portfolio.py:1006-1010 | Reading the minimum's branches backwards gives a script of exactly that length |
| EditDistance.ScriptChangesCost | scripts/generate_bilingual_portfolio.py:1006-1010 | Seen from any third string, n edits change the distance by at most n |
| EditDistance.EditDistanceIsMetric | scripts/generate_bilingual_portfolio.py:1000-1013 | Zero exactly on equal strings, symmetric although filled row by row, triangle inequality |
| EditDistance.EditDistanceUnique | scripts/generate_bilingual_portfolio.py:1013 | Whatever is the length of a shortest script is the value of the recurrence |
| EditDistance.LengthBounds | scripts/generate_bilingual_portfolio.py:1013-1015 | Length difference <= distance <= longer length |
| TextNormal.NormalizeJoinsWords | scripts/generate_bilingual_portfolio.py:984-985 | Normalisation yields the alphanumeric runs of the folded text joined by single spaces |
| TextNormal.SpaceCharacters | scripts/generate_bilingual_portfolio.py:984-985 | The characters the white space class stands for, one by one |
| Basics.AlnumCharacters | scripts/generate_bilingual_portfolio.py:984-985 | The characters the class a-z0-9 stands for, one by one |
| TextNormal.NormalizeFixpoints | scripts/generate_bilingual_portfolio.py:984-985 | The texts left alone are exactly those of alphanumeric words with single spaces between them |
| TextNormal.NormalizeIdempotent | scripts/generate_bilingual_portfolio.py:984-985 | Normalising twice is normalising once |
| Similarity.WordsOfNormalized | scripts/generate_bilingual_portfolio.py:990-991 | The word set holds the distinct alphanumeric runs longer than two characters |
| Similarity.CountCommon | scripts/generate_bilingual_portfolio.py:994-995 | The counting loop finds the size of the intersection, in any iteration order |
| Similarity.WordScore | scripts/generate_bilingual_portfolio.py:989-997 | The loop computes the Dice score, 0 when a word set is empty, never dividing by zero |
| Similarity.MatrixScore | scripts/generate_bilingual_portfolio.py:999-1015 | The matrix section computes one minus edit distance over longer length |
| Similarity.CalculateSimilarity | scripts/generate_bilingual_portfolio.py:983-1018 | The method computes the score function of the normalised arguments |
| Similarity.SimilarReaches | scripts/generate_bilingual_portfolio.py:986-1017 | The score reaches any quotient p/q > 0 exactly when the normalised texts are equal and p <= q, or neither is empty and the word score or the edit score reaches p/q, both as integer tests: it is the larger of the two |
| Similarity.SimilarIsNormalizedScore | scripts/generate_bilingual_portfolio.py:983-1018 | The score lies in [0,1], is symmetric, and is 1 exactly on equal normal forms or equal non-empty word sets |
| Similarity.PreNormalizing | scripts/generate_bilingual_portfolio.py:984-985 | Normalising an argument beforehand changes no score |
| Similarity.ThresholdIsClose | scripts/generate_bilingual_portfolio.py:1262 | score >= 0.80 is 5*distance <= longer length or 5*common >= 2*(sum of set sizes), once equal and empty texts are handled |
| Similarity.LengthPruning | scripts/generate_bilingual_portfolio.py:1013-1017 | Skipping the matrix when 5*shorter < 4*longer never changes the threshold test |
| FaqSearch.MatchFaq | scripts/generate_bilingual_portfolio.py:1260-1267 | The trigger loop finds a match exactly when some trigger reaches the threshold; the answer is the FAQ's text in the visitor's language, and only without such a text the Portuguese one |
| FaqSearch.ProcessQuestion | scripts/generate_bilingual_portfolio.py:1256-1269 | The two loops leave the truthy answer `Search` describes, in the visitor's language, from the first matching FAQ whose answer is not empty, or none |
| FaqSearch.OtherLanguagesDoNotMatter | scripts/generate_bilingual_portfolio.py:1263 | Where a FAQ has a text in the visitor's language, changing another of its texts changes no answer |
| FaqSearch.MissingLanguageIsPortuguese | scripts/generate_bilingual_portfolio.py:1263 | A visitor in whose language nothing is written is answered as with language pt |
| FaqSearch.SearchFindsFirst | scripts/generate_bilingual_portfolio.py:1259-1272 | The answer is that of the first FAQ that matches and renders to something; without one the language model is asked |
| FaqSearch.FirstMatchAnswers | scripts/generate_bilingual_portfolio.py:1258-1269 | The first matching FAQ answers if and only if its reply does not render to the empty text |
| FaqSearch.SpokenFaqsAnswerFirst | scripts/generate_bilingual_portfolio.py:1258-1272 | With no reply that renders to the empty text, the first matching FAQ answers, and without a match the language model is asked |
| FaqSearch.ScoreInWholeNumbers | scripts/generate_bilingual_portfolio.py:1261-1262 | The test against a trigger is an integer test on the normalised texts |
| FaqSearch.TriggerMatchesItself | scripts/generate_bilingual_portfolio.py:1260-1262 | A trigger asked word for word matches its FAQ |
| Recovery.Volume.RunWorker | scripts/run_kubernetes_recovery_compliance.py:18-43 | One uninterrupted pass replaces the state file by the decided record; a torn file stops it |
| Recovery.Volume.ExpireLease | scripts/run_kubernetes_recovery_compliance.py:107-111 | Expiry sets lease and frontier of a whole state file and fails otherwise |
| Recovery.EveryRunIsSound | scripts/run_kubernetes_recovery_compliance.py:17-45 | In every run with crashes anywhere the file is absent or whole, keeps goal and receipt, counts one receipt, and counts one recovery exactly when reconciled, for good |
| Recovery.RunKeepsInv | scripts/run_kubernetes_recovery_compliance.py:17-45 | Every step keeps the protocol invariant, and the file only moves forward |
| Recovery.TornWriteIsHarmless | scripts/run_kubernetes_recovery_compliance.py:40-43 | A crash in the middle of the first write leaves a torn temporary file and no state file, and the next pass succeeds |
| Recovery.ExpiredLeaseRecoversOnce | scripts/run_kubernetes_recovery_compliance.py:24-28 | One pass over an expired unreconciled lease recovers it; nothing later short of an expiry changes the file |
| Recovery.ReconciledIsStable | scripts/run_kubernetes_recovery_compliance.py:24-43 | As long as a worker between load and rename carries the record of the file, passes, restarts and crashes leave a reconciled file as it is |
| Recovery.LiveLeaseIsStable | scripts/run_kubernetes_recovery_compliance.py:24-43 | As long as a worker between load and rename carries the record of the file, no schedule with a clock below its lease changes the file |
| Recovery.FirstPassWrites | scripts/run_kubernetes_recovery_compliance.py:29-39 | The record a first full pass at t leaves, field by field, with a lease until t + 3600 |
| Recovery.FirstLeaseHolds | scripts/run_kubernetes_recovery_compliance.py:24-35 | No schedule without an expiry changes the file of a first pass at t while the clock stays below t + 3600 |
| Recovery.FirstLeaseEnds | scripts/run_kubernetes_recovery_compliance.py:24-35 | After any such schedule a full pass recovers exactly when its clock has reached t + 3600 |
| Recovery.VerdictCondition | scripts/run_kubernetes_recovery_compliance.py:170-185 | All checks hold on every schedule with a full pass between expiry and final read, if and only if the record was unreconciled and no worker carried a live copy |
| Recovery.VerdictOverRuns | scripts/run_kubernetes_recovery_compliance.py:168-185 | The same for every state reachable from an empty volume |
| Recovery.LiveCopyUndoesExpiry | scripts/run_kubernetes_recovery_compliance.py:40-43 | A copy loaded before the expiry and renamed after it brings the live lease back |
| Recovery.SecondExpiryIsFinal | scripts/run_kubernetes_recovery_compliance.py:107-111 | After the expiry of a recovered record, every run without a further expiry leaves LEASE_EXPIRED exactly when no worker carries a different copy |
| Recovery.SecondExpiryStays | scripts/run_kubernetes_recovery_compliance.py:107-111 | With the Pod deleted at once, a full pass leaves the expired record of a recovered state as it is |
| Recovery.LateCopyRepairs | scripts/run_kubernetes_recovery_compliance.py:40-43 | A recovered copy loaded before such an expiry and renamed after it makes all checks hold again |
| Recovery.LateCopyReachable | scripts/run_kubernetes_recovery_compliance.py:17-43 | A run from the empty volume in which a recovered copy is about to be renamed |
| Recovery.SleepingWorkerAlwaysRecovers | scripts/run_kubernetes_recovery_compliance.py:169-185 | From the state the supervised run creates, every such schedule passes |
| Recovery.EarlyReadFails | scripts/run_kubernetes_recovery_compliance.py:175-182 | From any state, a final read with no rename since the expiry fails the verdict |
| Recovery.ReadAfterRename | scripts/run_kubernetes_recovery_compliance.py:170-185 | For an unreconciled record and no live copy under way, passes interrupted anywhere included: the final read passes if and only if some worker finished a rename since the expiry |
| Recovery.ReadCondition | scripts/run_kubernetes_recovery_compliance.py:170-185 | A rename decides the final read on every run exactly when the record was unreconciled and no worker carried a live copy |
| Recovery.SupervisedRun | scripts/run_kubernetes_recovery_compliance.py:167-185 | The intended sequence passes exactly when the Pod identity changed |
| Recovery.JudgeRun | scripts/run_kubernetes_recovery_compliance.py:178-185 | The verdict is the conjunction of the five checks |
| ContractInstall.InstallContract | scripts/run_hp12c_cloud_acceptance.py:390-651 | In place: without the RPN task nothing is written, with it the table becomes `Installed` |
| ContractInstall.RewriteRow | scripts/run_hp12c_cloud_acceptance.py:437-601 | One iteration of the pass: chained dependency and all index and key branches |
| ContractInstall.PassOverRows | scripts/run_hp12c_cloud_acceptance.py:434-601 | The loop rewrites every row but the first with the id of the row before it |
| ContractInstall.AppendMissing | scripts/run_hp12c_cloud_acceptance.py:426-428 | The note loop appends exactly the missing notes, in order |
| TaskContracts.AddMissingAppends | scripts/run_hp12c_cloud_acceptance.py:426-428 | What the note loop appends is the missing notes, each once, in the order of their first occurrences |
| TaskContracts.BindKeepsPage | scripts/run_hp12c_cloud_acceptance.py:402-408 | Binding a test leaves the product page entries and the test |
| ContractChain.NetScalars | scripts/run_hp12c_cloud_acceptance.py:400-650 | The final value of every scalar field and API list of a row, as one table over index and key with no stage left |
| ContractChain.NetNotes | scripts/run_hp12c_cloud_acceptance.py:411-645 | Notes are kept and extended by the missing notes of the row's branches, in order |
| ContractChain.NetFiles | scripts/run_hp12c_cloud_acceptance.py:402-618 | Allowed files end as the product page plus the one test the last binding branch names |
| ContractChain.ContractIdempotent | scripts/run_hp12c_cloud_acceptance.py:390-651 | A second application leaves a row's contract as the first left it, for every index and key |
| ContractChain.InstallIdempotent | scripts/run_hp12c_cloud_acceptance.py:390-651 | Installing twice is installing once, for any number of rows |
| ContractChain.ChainDependencies | scripts/run_hp12c_cloud_acceptance.py:440-445 | The only id added to the dependencies of a row is that of the row before |
| ContractChain.OnlyScheduleIsIdOrder | scripts/run_hp12c_cloud_acceptance.py:434-446 | When a task runs only after every id it waits for, and never for an id without a row, tasks run in id order only; the first n can run if and only if each id imported for them is that of a row and smaller than their own |
| FreeRoutes.ExplicitFreeRoutesSpec | scripts/run_benchmark_v3_only.py:78-112 | Exactly the qualifying routes, once each, by priority and first appearance; applying it again changes nothing |
| FreeRoutes.SelectionUnique | scripts/run_benchmark_v3_only.py:109-112 | Those properties determine the list |
| FreeRoutes.PriorityIsFirstPrefix | scripts/run_benchmark_v3_only.py:93-107 | The priority is the place of the first prefix of the identifier in the list of six |
| FreeRoutes.ProbeCompletion | scripts/run_benchmark_v3_only.py:184-189 | The first passing route is returned, with one failure for each route before it |
| Preflight.ProbeRoutesBounded | scripts/run_hp12c_cloud_acceptance.py:173-209 | At most 16 distinct catalog routes are probed, none of them video |
| PyText.StripCuts | scripts/run_hp12c_cloud_acceptance.py:51-57 | Stripping cuts white space, and only white space, off both ends, all of it |
| PyText.SpaceCharacters | scripts/run_hp12c_cloud_acceptance.py:51-57 | The characters stripping removes, one by one |
| Preflight.CandidatesInOrder | scripts/run_hp12c_cloud_acceptance.py:176-205 | One candidate stands before another by place among the configured routes, then the preferred ones, then by preference rank, text and catalog place of the free ones |
| Preflight.ProbedRoutes | scripts/run_hp12c_cloud_acceptance.py:133-209 | What is probed: nothing without a configured or free route; otherwise the catalog routes that are not video and are configured, preferred or free, in that order, as many as the limit allows, and no candidate left out stands before one that is probed |
| Preflight.ConfiguredRoutesFirst | scripts/run_hp12c_cloud_acceptance.py:195-203 | Configured routes are probed before all others |
| Preflight.PreferredRoutesFirst | scripts/run_hp12c_cloud_acceptance.py:195-203 | Configured and preferred routes are probed before the remaining free catalog |
| Preflight.SortedFreeInPriorityOrder | scripts/run_hp12c_cloud_acceptance.py:56-61 | The free candidates are the free catalog, ordered by preference and then by text |
| Preflight.ProbeLoop | scripts/run_hp12c_cloud_acceptance.py:210-235 | The lists are the verified, 410 and failed routes of the probed prefix, in order; it stops early only at the fourth verified |
| Preflight.PickedPartition | scripts/run_hp12c_cloud_acceptance.py:227-235 | The three lists split the probed prefix |
| Preflight.LadderFromProbes | scripts/run_hp12c_cloud_acceptance.py:793-818 | For any identifiers: at most eight distinct routes, the stripped verified ones first, then the catalog without the routes a 410 identifier strips to, none missing unless full; for a catalog without padding, no 410 route and the verified routes as they are |
| Preflight.OrderedMembers | scripts/run_hp12c_cloud_acceptance.py:793-812 | For any identifiers, exactly which routes are ordered, with the stand-in for verified routes that strip to nothing |
| Preflight.GoneRouteOrdered | scripts/run_hp12c_cloud_acceptance.py:802-812 | A catalog route that answered 410 stays among the ordered routes exactly when it is empty, padded, or the stripped form of a verified identifier |
| Preflight.GoneRoutesExcluded | scripts/run_hp12c_cloud_acceptance.py:802-812 | The ordered routes hold no 410 route exactly when each of them is non-empty, unpadded, and no verified identifier strips to it |
| Preflight.GoneRouteOnLadder | scripts/run_hp12c_cloud_acceptance.py:802-818 | Such a route is on the ladder exactly when it stays and either a verified identifier strips to it or the catalog in front of it does not fill the ladder |
| Preflight.PaddedGoneRouteStays | scripts/run_hp12c_cloud_acceptance.py:802-818 | An identifier with a trailing space keeps its 410 route on the ladder |
| Preflight.PaddedTwinKeepsGoneRoute | scripts/run_hp12c_cloud_acceptance.py:793-818 | A verified identifier with a trailing space keeps the unpadded 410 route it strips to on the ladder |
| Preflight.RunPreflight | scripts/run_hp12c_cloud_acceptance.py:147-254 | From the catalog to the ladder: the probed routes are those of `ProbedRoutes`; ready exactly with a verified route; the verified (200 with actions), 410 and failed lists are those of the probed prefix, in probe order and complete, cut short only by the fourth verified route; the ladder as above |
| LockRace.NoRequestBeforeBothArrive | scripts/probe_redis.py:134-139 | In every interleaving no attempt requests the lease before both have arrived |
| LockRace.FairRunsTerminate | scripts/probe_redis.py:134-145 | Three fair rounds end the race, whatever fails or lapses |
| LockRace.MutualExclusion | backend/localforge/services/redis_manager.py:106-130 | Without a lapse two attempts never hold the lease at once |
| LockRace.ExclusionLost | backend/localforge/services/redis_manager.py:106-130 | Both attempts hold the lease at once in a run if and only if the key lapses under a holder and Redis then answers the request of the other while it still holds |
| LockRace.LapseBreaksExclusion | backend/localforge/services/redis_manager.py:116-119 | Such a run, and its verdict False |
| LockRace.VerdictIsOneRefusal | scripts/probe_redis.py:140-146 | In every finished interleaving, whatever fails, loses its reply or lapses, the verdict is True exactly when one of the two requests was refused |
| LockRace.AnsweredVerdict | scripts/probe_redis.py:129-146 | When Redis answers every call, lapses or not, the verdict is True exactly when a request met the key of a holder; otherwise both acquired |
| LockRace.VerdictIsOverlap | scripts/probe_redis.py:140-146 | When moreover nothing lapses, the verdict is True exactly when the second request lands before the first holder leaves; otherwise both acquire in turn |
| LockRace.FailedSetPasses | backend/localforge/services/redis_manager.py:114-122 | A SET that fails after the first attempt has left gives True without an overlap |
| LockRace.FailedDelPasses | backend/localforge/services/redis_manager.py:125-130 | A failed DEL leaves a key without a holder and gives True without an overlap |
| LockRace.LostSetLocksOut | backend/localforge/services/redis_manager.py:114-130 | A SET whose reply is lost leaves a key that nobody holds or removes, and neither attempt gets in |
| LockRace.FailedSetLetsOtherIn | backend/localforge/services/redis_manager.py:114-130 | A SET that never arrives leaves no key, and the other attempt gets in |
| LockRace.SequentialRunFails | scripts/probe_redis.py:140-146 | An exclusive lock used one attempt after the other is reported as False |
| LedgerHistory.IdsNeverReused | app/forge_ledger.py:43-52 | Ids are exactly 1..n in creation order, and nothing done later removes, renumbers or changes an entry but its closed flag |
| LedgerHistory.ClosedByClose | app/forge_ledger.py:61-67 | An entry is closed exactly when some operation closed it after it was added |
| LedgerHistory.SummaryStep | app/forge_ledger.py:69-80 | How each operation moves the totals: open + closed = total, amount conserved by close, nothing moved by a rejection or a reopen |
| Ledger.ImageRoundTrip | app/forge_ledger.py:16-35 | Integer keys survive the way through decimal strings and back |
| Ledger.MissingNextId | app/forge_ledger.py:23 | For a file the store wrote, the default for a missing next_id is the next_id it had |
| Ledger.AscendingIds | app/forge_ledger.py:57-59 | The sorted keys are 1..n |
| Ledger.LedgerStore.Load | app/forge_ledger.py:16-26 | What the constructor reads back from a document |
| Ledger.LedgerStore.AddEntry | app/forge_ledger.py:37-55 | For a label that is not blank and a positive number that is no boolean, appends exactly one open entry with the next id and that amount and rewrites the file; otherwise rejects and changes neither memory nor file |
| Ledger.LedgerStore.CloseEntry | app/forge_ledger.py:61-67 | For an id in 1..n sets that one flag and rewrites the file; otherwise rejects and changes nothing |
| Ledger.LedgerStore.ListEntries | app/forge_ledger.py:57-59 | Returns the history |
| Ledger.LedgerStore.Summarize | app/forge_ledger.py:69-80 | Returns the fold over the history |
| Ledger.LedgerStore.ExportSnapshot | app/forge_ledger.py:103-108 | Returns both |
| Ledger.Open | app/forge_ledger.py:10-26 | Reopening the file of a valid store gives the same store |
| Ledger.RunAll | app/forge_ledger.py:10-67 | Over every sequence of adds, closes and reopens the store is the replayed history |
| ProfileMerge.MergeProfiles | scripts/run_benchmark_readme_trace.py:162-193 | The nested loops compute the merge of all records, and all exceptions |
| ProfileMerge.MergeRepresents | scripts/run_benchmark_readme_trace.py:180-193 | Each item holds the summed calls and function counts, the joined flags and every exception, as often as listed, of the Python records of its path, and no other path has an item |
| ProfileMerge.MergeConservesCalls | scripts/run_benchmark_readme_trace.py:188-191 | The items hold all calls of the Python records and no others |
| ProfileMerge.MergeOrderIndependent | scripts/run_benchmark_readme_trace.py:173-193 | Any order of the files gives the same calls, functions and flags, and the same exceptions, each as often |
| ProfileMerge.InPathOrder | scripts/run_benchmark_readme_trace.py:198 | One record per path, in path order |
| PyText.TextLeqByFirstDifference | scripts/run_benchmark_readme_trace.py:198 | Strings compare by their first differing character, a prefix coming first |
| ModuleInventory.Inventory | scripts/run_benchmark_readme_trace.py:219-265 | One record per tracked path in path order, with its class; the class counts add up to the number of tracked paths |
| ModuleInventory.ClassFromFiles | scripts/run_benchmark_readme_trace.py:158-249 | The class straight from the profile files: BROKEN when named in an exception or holding one, USED when forced or called in any process, PARTIAL when only imported, UNUSED otherwise |
| ModuleInventory.RecordFromFiles | scripts/run_benchmark_readme_trace.py:223-251 | The calls and the import flag of a record are those of all processes together |
| ModuleInventory.CleanProfileNeverDemotes | scripts/run_benchmark_readme_trace.py:226-249 | A profile without exceptions never moves a module down UNUSED, PARTIAL, USED, and neither breaks nor repairs one |
| ModuleInventory.ClassOrderIndependent | scripts/run_benchmark_readme_trace.py:219-249 | The class of a module is the same for any order of the files |
| JobWait.ImageFailureShows | scripts/run_kubernetes_profile_compliance.py:716-720 | An image failure is one of six reasons on some container, or one of five markers in the joined, squeezed reasons and messages |
| JobWait.SuccessSigns | scripts/run_kubernetes_profile_compliance.py:723-743 | Success is a Complete condition, a success count of at least one and a Pod in phase Succeeded |
| JobWait.FailureTextParts | scripts/run_kubernetes_profile_compliance.py:716 | For a lower-casing that works piece by piece, the searched text is the squeezed waiting reasons, termination reasons and messages one after the other |
| JobWait.WaitForJob | scripts/run_kubernetes_profile_compliance.py:783-823 | At most ceil((wait - tick)/(tick + poll)) + 1 polls, where a poll takes at least tick, and exactly so many in a punctual world without a decision; PASS exactly on all three signs of success, BLOCKED exactly on a failed Job or an image failure without them, both at the first observation that shows them; otherwise past the deadline |
| JobWait.CleanupNamespace | scripts/run_kubernetes_profile_compliance.py:946-992 | Deletes at most the namespace of the run, and only when the document found has its name and both labels; PASS exactly when deleted and seen absent |
| JobWait.FinishRun | scripts/run_kubernetes_profile_compliance.py:1210-1237 | The run passes exactly when a poll saw success and the namespace was deleted and seen absent; it is BLOCKED exactly when the last poll was, or a cleanup that was to be done was not completed |
| ProfileNames.RunIdRejection | scripts/generate_benchmark_k8s_profile.py:37-41 | Only an empty or too long collapsed and stripped form is rejected |
| ProfileNames.ReplaceBadRun | scripts/generate_benchmark_k8s_profile.py:38 | Each maximal run of refused characters becomes one dash and nothing else changes |
| ProfileNames.StripDashesCuts | scripts/generate_benchmark_k8s_profile.py:38 | Dashes, and dashes only, are cut off both ends, all of them |
| ProfileNames.RunIdFixpoints | scripts/generate_benchmark_k8s_profile.py:26 | The accepted run ids are exactly the values returned unchanged |
| ProfileNames.RunIdIdempotent | scripts/generate_benchmark_k8s_profile.py:37-41 | Normalising an accepted run id again changes nothing |
| ProfileNames.NamespaceIsLabel | scripts/generate_benchmark_k8s_profile.py:93 | The namespace is a label of at most 58 characters, and different run ids have different namespaces |
| ProfileNames.DnsNameIdempotent | scripts/generate_benchmark_k8s_profile.py:44-49 | Normalising an accepted DNS name again changes nothing |
| ProfileNames.DnsNameExact | scripts/generate_benchmark_k8s_profile.py:44-49 | Accepted are exactly the stripped, lower-cased labels of 1 to 63 letters, digits, dots and dashes with a letter or digit at both ends |
| ProfileNames.ServiceIpKeepsText | scripts/generate_benchmark_k8s_profile.py:52-59 | Parsing and formatting an IPv4 address gives back the stripped text |
| ProfileNames.ServiceIpExact | scripts/generate_benchmark_k8s_profile.py:52-59 | Accepted are exactly four decimal numbers up to 255 joined by dots, and they are returned stripped |
| ProfileNames.ServiceIpIdempotent | scripts/generate_benchmark_k8s_profile.py:52-59 | Normalising an accepted address again changes nothing |
| ProfileBuild.BuiltIsConsistent | scripts/generate_benchmark_k8s_profile.py:441-596 | Validation recomputes exactly the names, hosts and addresses building put there |
| ProfileBuild.BuiltExactly | scripts/generate_benchmark_k8s_profile.py:93-110 | A profile is built exactly from arguments whose names, address, image and project id are acceptable |
| ProfileBuild.BuiltFields | scripts/generate_benchmark_k8s_profile.py:92-110 | Where each normalised argument ends up |
| ProfileBuild.ValidatedFields | scripts/generate_benchmark_k8s_profile.py:441-596 | Whatever passes validation has its namespace, hosts, configuration, egress and manifest namespaces as its names and addresses require |
| ProfileBuild.TamperingIsNoticed | scripts/generate_benchmark_k8s_profile.py:441-596 | No derived field of a built profile can be changed alone without being refused |
| ProfileBuild.OnlyTheImageCanTrip | scripts/generate_benchmark_k8s_profile.py:485-490 | No normalised name, address or number contains a refused substring |
| ProfileBuild.BuiltProfilesValidate | scripts/generate_benchmark_k8s_profile.py:78-596 | A built profile passes validation if and only if its image contains no refused substring |
| Backlog.OpenBacklogCheckboxes | scripts/check_release_truth.py:39-44 | One entry per open checkbox, in line order |
| Backlog.KindsAsWritten | scripts/check_release_truth.py:52-67 | Headings start at the margin, open and closed boxes may be indented, and no line is two of these |
| Backlog.PhaseBacklogStatus | scripts/check_release_truth.py:47-81 | Each phase stands on its heading, counts the checkboxes of its own section with total = open + closed, and has the status that follows |
| Backlog.OutlineLossless | scripts/check_release_truth.py:51-63 | The headings cut the text into a preamble and sections without loss |
| Backlog.PhasesConserveBoxes | scripts/check_release_truth.py:39-72 | Open boxes before the first heading and over all phases are all open boxes; totals are all boxes from the first heading on |
| Backlog.NoPhaseOpen | scripts/check_release_truth.py:74-80 | No phase is OPEN exactly when no open box follows the first heading |

## Left out

- Floating-point rounding of scores and amounts; NaN and infinite amounts in the ledger.
- Unicode tables: lower-casing and accent stripping are parameters; strings are sequences of characters, not UTF-16 units.
- FaqSearch.ProcessQuestion: the Markdown renderer is a parameter, and the language-model fallback after a falsy answer is not modelled.
- Recovery.Volume.RunWorker: `state.get` defaults for missing keys are not modelled, because every record in the protocol comes from the worker itself.
- Recovery.Volume.ExpireLease: one step, although the source truncates the file and writes it again in place; a crash in between would leave a torn state file.
- Two recovery workers at once, and a torn write inside the supervisor's lease expiry.
- Waiting for Pods, namespace manifests, evidence files and the command line of the recovery run.
- ContractInstall.InstallContract: rows are values in an array and a contract is a record of its rewritten keys; SQLite, JSON text, malformed JSON and the dictionary's key order are not modelled. The long instruction and note texts are parameters; the proofs hold for any texts, given that no test file is the product page.
- TaskContracts.Key: a key is a number (LF-PRD-004 is 4) or another text; the key column's uniqueness is assumed as the table declares it.
- Preflight.RunPreflight: catalog retrieval with its OpenRouter fallback and malformed completion bodies that raise are not modelled; a reply is a status and whether it carried actions.
- The failure texts of the probe loops.
- LockRace: connection set-up of the Redis manager, and cancellation of an attempt.
- Ledger.LedgerStore.Load: files with keys that are not plain decimal numbers are refused, although Python's `int` also reads padded ones.
- Ledger.LedgerStore.AddEntry: a save that fails part way, and callers that change a returned dictionary.
- Backlog.PhaseBacklogStatus: the current phase is the last element of a sequence of values, not a shared dictionary; splitting the file into lines is an input.
- ProfileBuild.BuiltIsConsistent: the checks that compare constants of the manifests with constants are not modelled.
- ProfileBuild.BuiltProfilesValidate: the text scan runs over the argument-dependent string leaves instead of the YAML text, so that folding of a long image with spaces is not covered.
- JobWait.WaitForJob: a poll interval of zero or less together with polls that take no time at all, for which the loop need not end; the reasons and messages of the report.
- JobWait.FinishRun: the same.
- Secret bootstrapping, evidence capture and RBAC checks of the Kubernetes run.
- Reasons and recommendations of the module inventory, which follow from the class and the path.
- Control plane, scheduler, user interface, templates, report rendering and legacy scripts.
