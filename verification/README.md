# holbuild: what its coordinator, planner and stores promise

holbuild builds HOL theories. Its remote coordinator schedules a DAG of build actions
over leases, retries and re-queues; its planner sorts the dependency graph and keys each
action; its checkpoint and cache stores keep files that a stopped process must not
corrupt; and its fingerprints name statements up to renaming of bound variables. This
project models those rules in Dafny and proves what they promise over every input, every
run and every point at which a process may stop.

How each part is modelled:

- **Coordinator** (`Dag`, `Coordinator*`). The database is a map of batches; a transaction
  is one step, as the functions of `CoordinatorTables` say, and the methods of
  `Coordinator` carry it out statement by statement. `CoordinatorRuns` is every
  interleaving of transactions of any number of replicas and workers, with a clock;
  `CoordinatorTheorems` says what holds in every reachable state. `max_attempts` is at
  least 1. An action's attempts may pass `max_attempts` (a memory failure on the standard
  tier, a re-queued missing parent), and the retry bound accounts for both.
- **Run admission** (`RunAdmission`). A claim's statements are separate steps, each with
  its own snapshot, so completions, expiries and other claims fall between the advisory
  lock, the count and the commit.
- **Waiting claims and cache findings** (`ClaimWakes`, `CacheFindings`). Tasks of one
  process switch only where they await; each event is the code between two awaits, and
  the loops and fields are a class beside them. A finished check's callback, due at once,
  is taken to run before the trust in its answer ends.
- **Event stream** (`EventStream`). Transactions take ids in order, stamp the rows they
  write and commit in any order; a poll sees one snapshot and its oldest running id. That
  no transaction changes a batch that has ended is proved of the coordinator and assumed
  here.
- **Fingerprints** (`HolTerms`, `Fingerprint`). Terms with named binders, alpha-equivalence
  by swapping names, and the encoders as the source has them, up to the hash.
- **Planner** (`Text`, `KeyIndex`, `PlanSort`, `PlanClosure`, `SelectedGraph`, `PlanKeys`,
  `KeyContents`, `PlanResolve`). Each walk is a function on keys, with its properties, and a method over
  arrays that equals it. The hash is a parameter, and so are what is found in a source,
  by its digest, and which external objects a node can load.
- **Stores** (`Disk`, `CheckpointSave`, `CheckpointStore`, `Manifest`, `PublishedManifest`,
  `CacheTransfer`, `CacheGc`). A process is stopped after any number of operations, and any of them may
  fail; what the methods ensure holds then too.

Where the code promises less than its comments: `remove_file` ignores errors, so when an
old metadata file cannot be removed, a replacement leaves it beside part of the new heap
(the comment at sml/checkpoint_save_runtime.sml:40-44 says validation never sees that),
and when an old heap cannot be removed, every other link to it is rewritten.
`CheckpointSave.SaveCheckpoint` proves both promises when the files can be removed, and,
of every save stopped within its heap, that each is broken exactly when the removal it
rests on fails; `StaleMetadataHappens` and `SharedHeapHappens` show it on a disk. (If the
old heap and an old temporary file are one file that neither name can be removed from, the
metadata is written over the heap; the same contract says so.)

A published manifest can lose a blob: `escape` (sml/analyser/analysis_protocol.sml:7-18)
leaves vertical tabs, form feeds and carriage returns in an extra output's path, which both
readers of the manifest take for white space. `PublishedManifest.PublishedBlobsAreFound`
proves exactly which blobs are found, and `ExtraOutputIsLost` gives a path.

An action's lines end with its dependencies' texts and its external objects', and a
library named like `x@` and a digest (a load may be) reads as a dependency. That a key
still commits to which is which rests on how the planner resolves names, not on the lines
alone: a load is external exactly where no dependency has its name, and a load that is
neither refuses the plan. `PlanResolve` proves this of the plans the planner makes, and
`PlanKeys` needs no more of them. The hash makes SHA-256 digests, and is taken to have no
collision among the texts it is asked for.

## Model

| member | source | states |
|---|---|---|
| Dag.DagPriorities | remote-exec/remote_exec/coordinator.py:229-246 | each key's depth and number of dependents are its longest chain of dependents and its transitive dependents; an error exactly when the edges have a cycle |
| Dag.EdgeClosesCycle | remote-exec/remote_exec/coordinator.py:1138-1164 | an edge closes a cycle exactly when its parent already depends on its child, or is it |
| Dag.EdgeChangesOnlyAncestors | remote-exec/remote_exec/coordinator.py:1138-1185 | an added edge changes the priorities of its parent and the parent's ancestors only |
| BatchFormat.ParseLines | remote-exec/remote_exec/formats.py:75-95 | the lines are accepted exactly when none is malformed, every field has its form and no action key repeats, and then give their actions and edges in order |
| BatchFormat.LineSays | remote-exec/remote_exec/formats.py:79-95 | a line is an edge or an action exactly when it is its words with one space between, in their order |
| BatchFormat.OtherLines | remote-exec/remote_exec/formats.py:75-95 | a line is skipped only if it is empty, and malformed exactly if it is neither empty nor an edge nor an action |
| BatchFormat.FieldsSay | remote-exec/remote_exec/formats.py:86-91 | an action's fields are good exactly if its three digests are 64 lower-case hex digits and its theory is a package, a colon and a name without white space |
| BatchFormat.AcceptedSays | remote-exec/remote_exec/formats.py:69-108 | an accepted batch has exactly the actions and edges its lines spell |
| BatchFormat.ParseBatch | remote-exec/remote_exec/formats.py:69-108 | a batch is accepted exactly when, besides, its edges join different actions of it, none twice, without a cycle |
| BatchFormat.AcceptedIsSubmittable | remote-exec/remote_exec/formats.py:69-108 | every accepted batch is one that can be stored: keys once each, edges acyclic between its own actions |
| CoordinatorSteps.ClaimedKeeps | remote-exec/remote_exec/coordinator.py:577-597 | a claim keeps the graph, the leases, the counts, the batch state and the budget of attempts in order |
| CoordinatorSteps.CompletedKeeps | remote-exec/remote_exec/coordinator.py:650-736 | so does a result, whichever of its outcomes applies, though it never looks at the batch's state |
| CoordinatorSteps.ExpiredKeeps | remote-exec/remote_exec/coordinator.py:832-882 | so does the expiry of a lease |
| CoordinatorSteps.ReleasedKeeps | remote-exec/remote_exec/coordinator.py:803-830 | so does making any set of actions ready whose counter is zero |
| CoordinatorSteps.EvictedKeeps | remote-exec/remote_exec/coordinator.py:1082-1104 | so does re-queueing a done parent whose entry is gone |
| CoordinatorSteps.MissingInputKeeps | remote-exec/remote_exec/coordinator.py:1106-1136 | so does a missing input, with the edge and the re-queue it may add |
| CoordinatorSteps.StoppedKeeps | remote-exec/remote_exec/coordinator.py:498-505 | so does cancelling a batch, or failing an overdue one |
| CoordinatorSteps.SubmittedInv | remote-exec/remote_exec/coordinator.py:412-467 | a stored batch starts in order |
| CoordinatorRuns.RunKeeps | remote-exec/remote_exec/coordinator.py:412-902 | the invariant of the whole database holds after every run of any interleaved transactions |
| CoordinatorTheorems.RetryBound | remote-exec/remote_exec/coordinator.py:650-736 | in every reachable state of a batch of N actions the attempts sum to at most 2 N `max_attempts`, and that sum is exactly the claims not ended in `unavailable` |
| CoordinatorTheorems.PrioritiesNeverDrift | remote-exec/remote_exec/coordinator.py:1138-1185 | in every reachable state the edges are acyclic and every stored priority is exact for them |
| CoordinatorTheorems.LeasesMatchRunning | remote-exec/remote_exec/coordinator.py:1210-1253 | in every reachable state running actions and leases are one to one, only batches in progress have any, and a batch is in progress exactly while it has an unfinished action |
| CoordinatorTheorems.NeverDeadlocked | remote-exec/remote_exec/coordinator.py:263-296 | in every reachable state a build batch in progress has an action ready, running, or waiting with all parents done |
| CoordinatorTheorems.NoDeadlock | remote-exec/remote_exec/coordinator.py:263-296 | the same of any batch in order, with the action named |
| CoordinatorTheorems.CounterAgrees | remote-exec/remote_exec/coordinator.py:263-282 | in every reachable state each waiting or ready action's counter is the number of its parents not done, and one ready, or with a zero counter, has every parent done |
| CoordinatorTheorems.TerminalFrozen | remote-exec/remote_exec/coordinator.py:1240-1253 | no transaction changes a batch that is done, failed or cancelled |
| CoordinatorTheorems.EndedForever | remote-exec/remote_exec/coordinator.py:1240-1253 | once a run has ended a batch it stays as it is for the rest of every run, until it is deleted |
| CoordinatorTheorems.StaleIsRefused | remote-exec/remote_exec/coordinator.py:638-671 | a heartbeat or a result under a stale token changes nothing |
| CoordinatorTheorems.StaleForever | remote-exec/remote_exec/coordinator.py:638-648 | a token expired, revoked or superseded stays stale for the rest of every run |
| CoordinatorOutcomes.LeaseEnds | remote-exec/remote_exec/coordinator.py:662-671 | a result accepted ends its lease, and no outcome makes another |
| CoordinatorOutcomes.BuiltFreesChildren | remote-exec/remote_exec/coordinator.py:700-705 | a built action is done, and a child that waited for it alone is up for release |
| CoordinatorOutcomes.MissingTheoryIsRebuilt | remote-exec/remote_exec/coordinator.py:1106-1136 | an action missing a theory of its batch waits, counted, for that theory, which is done no longer, and the edge stays |
| CoordinatorOutcomes.EvictedParentIsAwaited | remote-exec/remote_exec/coordinator.py:1082-1104 | a done parent whose entry is gone is done no longer, and its waiting and ready children wait for it |
| CoordinatorOutcomes.FailureLeaves | remote-exec/remote_exec/coordinator.py:706-734 | what each failure leaves, row by row: a proof, a timeout, a refused spec and a script fail the action, and a build's batch with it, the rest of which is cancelled; publishing, the toolchain, an internal error, memory on the high tier and a first full disk send it back until its attempts are used up, and then fail it; memory on the standard tier moves it up; `unavailable` gives its attempt back; a missing input that is no theory of the batch sends it back, and fails the batch once its attempts are used up |
| CoordinatorOutcomes.BuiltLeaves | remote-exec/remote_exec/coordinator.py:700-705 | what success leaves: the action done, each waiting child counting its parents still open, every other row as it was, and the batch finished exactly if every action is done or failed |
| CoordinatorOutcomes.MissingTheoryLeaves | remote-exec/remote_exec/coordinator.py:1106-1136 | what a missing theory leaves: the action waits, the theory waits too if it was done, with its ready children, and but for counts and priorities no other row changes |
| CoordinatorRows.RefusedLeaves | remote-exec/remote_exec/coordinator.py:662-691 | a result under a lease that is gone or whose time is up, or for another action, leaves everything as it was |
| CoordinatorRows.ExpiryLeaves | remote-exec/remote_exec/coordinator.py:832-882 | an expired lease sends its action back while it has attempts left, and else fails it, a run's as `internal`; a lease not expired stays |
| CoordinatorRows.ReleaseLeaves | remote-exec/remote_exec/coordinator.py:803-830 | of the actions named, exactly those waiting with every parent done become ready |
| CoordinatorRows.EvictionLeaves | remote-exec/remote_exec/coordinator.py:1082-1104 | a done parent waits again, with its ready children, while it has attempts left, and else fails the batch; no other row changes |
| CoordinatorRows.StopLeaves | remote-exec/remote_exec/coordinator.py:1240-1253 | a batch stopped has the state given, no lease, and what was not finished cancelled |
| CoordinatorRows.SubmissionLeaves | remote-exec/remote_exec/coordinator.py:412-467 | each action submitted is stored as given, waiting, untried, in its tier, with the number of its parents, and no other |
| CoordinatorRows.EmptySubmission | remote-exec/remote_exec/coordinator.py:432 | a submission of nothing is finished at once |
| CoordinatorLeases.LeaseLives | remote-exec/remote_exec/coordinator.py:585-648 | in every run, from its claim until `lease_seconds` later an action runs under its live lease, unless a result under it came or its batch ended |
| Coordinator.Coordinator.AddEdge | remote-exec/remote_exec/coordinator.py:1138-1185 | the edge is refused exactly when it would close a cycle; else it and the exact new priorities are stored |
| Coordinator.Coordinator.HandleInputMissing | remote-exec/remote_exec/coordinator.py:1106-1136 | the statements of `_input_missing` amount to its specified step |
| Coordinator.Coordinator.Take | remote-exec/remote_exec/coordinator.py:577-597 | claiming a ready action, whose parents are all done, makes it run its next attempt under a lease of its own that ends `lease_seconds` from now |
| Coordinator.Coordinator.Heartbeat | remote-exec/remote_exec/coordinator.py:638-648 | true exactly when the token has a lease whose time is not up; that lease then ends `lease_seconds` from now, and nothing else changes |
| Coordinator.Coordinator.Complete | remote-exec/remote_exec/coordinator.py:650-736 | a result is accepted exactly when its lease is there and its time not up, and it is for that action; stale exactly when it is not; and then does what its failure calls for, or else nothing |
| Coordinator.Coordinator.Expire | remote-exec/remote_exec/coordinator.py:832-882 | an expired lease goes and its action is retried, or fails once its attempts are used up; an extended one stays |
| Coordinator.Coordinator.Submit | remote-exec/remote_exec/coordinator.py:412-467 | the rows stored for a batch, with computed priorities equal to the exact ones |
| Coordinator.Coordinator.RequeueEvicted | remote-exec/remote_exec/coordinator.py:1082-1104 | true exactly when it re-queued the parent |
| Coordinator.Coordinator.ReleaseBatch | remote-exec/remote_exec/coordinator.py:803-830 | a pass makes ready only actions whose every parent's entry the cache has, and re-queues or fails only parents whose entry it has not; one that re-queues lowers the done actions, and one that does not leaves waiting only what the cache gave no answer for |
| Coordinator.Coordinator.Release | remote-exec/remote_exec/coordinator.py:767-801 | release ends after at most as many repeats as there are done actions; what it made ready or took back it had the cache's answer for; and at its end an action still waiting with all parents done awaits an answer the cache did not give |
| RunAdmission.RunCap | remote-exec/remote_exec/coordinator.py:554-598 | for any interleaving of claims, completions, expiries and cancels between lock, count and commit, running run actions never exceed the slots, and a claim holding the lock had no build to claim |
| RunAdmission.ClaimsAreOfTheirTiers | remote-exec/remote_exec/coordinator.py:305-341 | after any events a row a claim holds is ready, of a tier that claim asked for, and held by no other |
| RunAdmission.FirstPicks | remote-exec/remote_exec/coordinator.py:556-560 | the first statement picks a build exactly if it is ready, of the claim's tiers, and not held |
| RunAdmission.SecondPicks | remote-exec/remote_exec/coordinator.py:571-576 | the second picks what its snapshot showed under the same conditions, and a run only if fewer ran than there are slots and there was no such build |
| RunAdmission.RunningIsCommitted | remote-exec/remote_exec/coordinator.py:577-584 | after any events the runs running are exactly those whose claim was committed and that have not ended since |
| ClaimWakes.NoLostWake | remote-exec/remote_exec/coordinator.py:526-552 | after any events, a sleeping claim without a wake missed no release of its tiers, but those whose wake another claim holds or has tried with |
| ClaimWakes.SleepsKnowing | remote-exec/remote_exec/coordinator.py:530-540 | after any events a claim falls asleep only when nothing was made ready since its attempt began |
| ClaimWakes.HeldWakeMoves | remote-exec/remote_exec/coordinator.py:541-552 | after any events a handed wake stays with its holder until it begins an attempt, or leaves and passes it to the longest asleep of that tier, or none sleeps for it |
| ClaimWakes.HolderIsDue | remote-exec/remote_exec/coordinator.py:526-548 | after any events a wake's holder is never inside an older attempt: its own next events try with it |
| ClaimWakes.WakesLongest | remote-exec/remote_exec/coordinator.py:600-608 | after any events a release's wake goes to the longest sleeping claim that takes its tier, and is dropped only when there is none |
| ClaimWakes.ClaimsMove | remote-exec/remote_exec/coordinator.py:526-552 | after any events, what the next does to its claim: an attempt counts the releases before it, one that finds nothing puts the claim last to sleep exactly if there was none since, and a claim that goes is in no list |
| ClaimWakes.Process.WakeClaim | remote-exec/remote_exec/coordinator.py:600-608 | the loop over the waiters does exactly that |
| ClaimWakes.Process.PassWake | remote-exec/remote_exec/coordinator.py:610-614 | passing a wake takes it off the counter and hands it on |
| CacheFindings.AnswersAreFresh | remote-exec/remote_exec/coordinator.py:1025-1080 | every answer rests on a request begun after the last forgetting before the call, and came within the trust window before it, or later |
| CacheFindings.AnswersSinceForgetting | remote-exec/remote_exec/coordinator.py:1055-1074 | after an input-missing result every later call rests on a request begun after it |
| CacheFindings.AnswersAreTheCaches | remote-exec/remote_exec/coordinator.py:1060-1080 | every answer is what the cache said: some check of that very entry, begun by a call, sent the request the answer rests on and was then told 200 if the answer is yes, 404 if it is no, and neither if there is none |
| CacheFindings.FoundSparesRequests | remote-exec/remote_exec/coordinator.py:1039-1041 | for sixty seconds after a 200 a call is answered yes at once, without a check, unless an input went missing |
| CacheFindings.OneRequestAtATime | remote-exec/remote_exec/coordinator.py:1042-1053 | concurrent calls share one check of a key, whatever old callbacks still run |
| CacheFindings.Findings.Ask | remote-exec/remote_exec/coordinator.py:1039-1053 | what a call trusts, or which check it waits for, and what it leaves in the tables |
| CacheFindings.Findings.Done | remote-exec/remote_exec/coordinator.py:1047-1051 | a check's callback removes that check and no later one |
| CacheFindings.Findings.Keep | remote-exec/remote_exec/coordinator.py:1060-1071 | an entry found is kept only if nothing was forgotten since its check read the counter |
| CacheFindings.Findings.ForgetCacheFindings | remote-exec/remote_exec/coordinator.py:1055-1058 | every entry found and every check under way is forgotten, and the counter says so |
| EventStream.DeltasRefinePolling | remote-exec/remote_exec/coordinator.py:473-496 | after every poll the stream, and a client that replays its lines, has the whole action table of the poll's snapshot, whatever commits late, and no line repeats what the client held |
| EventStream.BatchLineIsFinal | remote-exec/remote_exec/app.py:142-157 | once the batch line is out the stream says no more, and in every later state the client holds every action's row, until the batch is pruned with its actions |
| EventStream.StreamEndsTold | remote-exec/remote_exec/app.py:147-162 | a stream ends only after the batch line, or because the batch was pruned |
| EventStream.WrittenIsTold | remote-exec/remote_exec/app.py:142-157 | a row written and committed is what the client holds after the next poll, whatever was running or committed before |
| EventStream.FinalIsTold | remote-exec/remote_exec/app.py:152-156 | a final state written and committed ends the stream at the next poll, as its last line |
| EventStream.PollIsWhole | remote-exec/remote_exec/alembic/versions/0004_action_changes.py:18-30 | rows stamped by their writer's id since the last poll, and those the stream has, are all rows |
| EventStream.Lines.Turn | remote-exec/remote_exec/app.py:142-162 | one turn of the loop sends exactly the specified lines and keeps what they say |
| HolTerms.AlphaIsNamelessEquality | sml/fingerprint_runtime.sml:26-48 | terms are alpha-equivalent exactly when their forms with bound positions are equal, shadowing resolved by name and type |
| HolTerms.AlphaEquivalence | sml/fingerprint_runtime.sml:1-6 | alpha-equivalence is an equivalence |
| Fingerprint.TermSpelled | sml/fingerprint_runtime.sml:38-50 | the reversed accumulator spells a term's form with bound positions, in order |
| Fingerprint.NamelessPrefix | sml/fingerprint_runtime.sml:16-48 | the encoding is a prefix code |
| Fingerprint.EncodedIffAlpha | sml/fingerprint_runtime.sml:38-50 | two terms have the same text, whatever follows, exactly when they are alpha-equivalent |
| Fingerprint.FingerprintIdentifiesStatements | sml/fingerprint_runtime.sml:52-56 | two sequents have the same text before the hash exactly when their conclusions are alpha-equivalent and their hypotheses pair off up to alpha-equivalence |
| Text.FieldsDecodable | sml/build_plan.sml:680-681 | length-framed field lists are uniquely decodable, for all strings |
| Text.SortSorts | sml/build_plan.sml:151-178 | the merge sort sorts by key |
| Text.SortCanonical | sml/build_plan.sml:683 | two lists sort alike exactly when they are equal as multisets |
| KeyIndex.IndexIsMap | sml/build_plan.sml:422-437 | a search by halves of an index answers each key with its own value and no other |
| KeyIndex.KeyIdIsPosition | sml/build_plan.sml:224-322 | a key index gives each key its position, and other keys none |
| PlanSort.TopoSortCorrect | sml/build_plan.sml:527-556 | the sort lists each node reachable from the roots once, dependencies first, and fails, with a walk that shows why, exactly on a reachable cycle or missing target |
| PlanSort.TopoSortResolved | sml/build_plan.sml:527-556 | the walk over visited and active arrays is that sort |
| PlanSort.ClosureIsSort | sml/build_plan.sml:559-584 | on the sorted selection, marking before visiting gives the very list the sort gives |
| PlanSort.TransitiveDepsCorrect | sml/build_plan.sml:587-600 | a node's transitive dependencies are what walks of one edge or more reach, once each, dependencies first, without the node |
| PlanClosure.BuildAdjacency | sml/build_plan.sml:559-567 | positions stand for the resolved dependencies in edge order |
| PlanClosure.Plan.Closure | sml/build_plan.sml:572-584 | the walk over positions is the closure on keys |
| PlanClosure.Plan.TransitiveProjectDeps | sml/build_plan.sml:587-600 | a remembered closure is the one computed afresh |
| PlanClosure.ReachableFrontier | sml/build_plan.sml:654-678 | whatever cycles there are, the frontier ends having analysed each reachable node once and no other |
| SelectedGraph.GraphTextIdentity | sml/build_plan.sml:834-874 | two graphs have the same text exactly when their nodes and their edges of each kind are equal as multisets, by bound id |
| SelectedGraph.GraphTextSaysGraph | sml/build_plan.sml:814-874 | where no two of their sources' bound ids collide, exactly when their sources, and their edges of each kind between those sources, are equal as multisets |
| SelectedGraph.ReorderingKeepsText | sml/build_plan.sml:823-874 | reordering nodes and edges leaves the text as it is |
| SelectedGraph.RowsSayEdges | sml/build_plan.sml:834-855 | an edge's text gives back its ends' bound ids, its name, its kind and its reason |
| SelectedGraph.PlanTextIdentity | sml/build_plan.sml:879-883 | a plan's text gives back its graph's identity, its roots and its order, by bound id |
| SelectedGraph.PlanTextSaysPlan | sml/build_plan.sml:879-883 | where no two of their sources' bound ids collide, of the sources themselves |
| SelectedGraph.ReverseIsIncoming | sml/build_plan.sml:697-709 | a node's reverse edges are the edges that lead to it, in their order |
| SelectedGraph.ReverseConserves | sml/build_plan.sml:697-709 | the reverse edges are the resolved ones, each as often |
| PlanKeys.HeadCommits | sml/build_plan.sml:1260-1307 | equal keys, in any two plans, mean equal lines up to the dependencies', whatever the external objects are called |
| PlanKeys.KeyCommits | sml/build_plan.sml:1260-1307 | equal keys, of nodes of any two plans that resolved them, mean equal action lines, dependencies with equal keys in the same order, and the same external objects, whatever any of them is called |
| PlanKeys.KeySaysNode | sml/build_plan.sml:1260-1297 | equal keys, in any two plans, are of one kind, package, name, source, content and cache policy, under one toolchain |
| KeyContents.KeySaysInputs | sml/build_plan.sml:1195-1211 | equal keys, in any two plans, are of nodes with the same extra inputs, each with the same files and the same digests of their contents, and the same declared dependencies, loads and outputs |
| KeyContents.KeySaysFacts | sml/build_plan.sml:1260-1307 | and, of plans that resolved them, with all facts equal, under the same toolchain and configuration line |
| KeyContents.ExtraInputsKeySays | sml/build_plan.sml:1214-1222 | equal extra-inputs digests are of the same files with the same contents |
| PlanKeys.KeyCommitsToClosure | sml/build_plan.sml:1258-1307 | and so on: from nodes with equal keys every walk of dependencies leads to nodes with equal keys and equal lines |
| PlanKeys.EveryDependencyIsCommitted | sml/build_plan.sml:1258-1307 | every node of the closure has its like, with the same key and lines, in the other plan's |
| PlanResolve.LibraryIsNoDependency | sml/build_plan.sml:743-786 | no external library of a node has the name of one of its dependencies |
| PlanResolve.LoadIsResolved | sml/build_plan.sml:743-805 | a load whose text could pass for a dependency's is an external library, or some dependency has its name: else it is unresolved and the plan refused |
| PlanResolve.PlannedIsResolved | sml/build_plan.sml:451-480 | every node of a plan the planner makes is resolved as its key needs: libraries once each, no theory that reads as a dependency, a library that does is a load, and the two above |
| PlanResolve.PlannedKeysCommit | sml/build_plan.sml:1258-1307 | so in any two plans the planner makes, computed afresh, a key commits to its node's whole closure |
| PlanResolve.PlannedKeysSay | sml/build_plan.sml:1258-1307 | and equal keys are of nodes with all facts equal, extra inputs by contents, whose dependencies have equal keys |
| PlanResolve.DependenciesAreMeant | sml/build_plan.sml:713-753 | a planned node depends on exactly the other nodes it loads, mentions or declares by name, and its signature |
| PlanResolve.LibrariesAre | sml/build_plan.sml:756-787 | its external libraries are exactly the declared loads no other node is named by, and the loads and mentions of its source, not named like theories, that none is named by and HOL can load |
| PlanResolve.TheoriesAre | sml/build_plan.sml:756-787 | its external theories are exactly the loads of its source so named that no other node has the name of, and such mentions that HOL can load |
| PlanResolve.NothingUnresolved | sml/build_plan.sml:788-798 | nothing of it is unresolved exactly if each declared dependency has another node, and each load of its source has, or is named like a theory, or can be loaded |
| PlanResolve.LoadReadsAsDependency | sml/build_plan.sml:755-765 | a plan the planner makes in which a declared load reads as a dependency, for any digest in its name |
| PlanKeys.FoldNeverMisses | sml/build_plan.sml:1173-1176 | on the selected order no dependency's key is ever missing |
| PlanKeys.FreshIsSound | sml/build_plan.sml:1364-1367 | the fold's keys are each the hash of the node's lines with the others |
| PlanKeys.ReusedIsFresh | sml/build_plan.sml:1327-1353 | a reused key is the one a fresh computation gives, though only dependency keys are compared and not names |
| PlanKeys.InputKeyWith | sml/build_plan.sml:1330-1353 | reused or computed, the key is the fresh one, and what is remembered can be reused |
| PlanKeys.ComputeInputKeys | sml/build_plan.sml:1364-1367 | whatever is remembered, the keys are those of a fresh computation |
| CheckpointSave.Discard | sml/checkpoint_save_runtime.sml:50-71 | the three removals in order, exactly, however many are done; so metadata goes before its heap |
| CheckpointSave.WritePieces | sml/checkpoint_save_runtime.sml:27-38 | what a file and the names that lead to it hold after any number of the operations that write it, stopped or failing |
| CheckpointSave.SaveHeap | sml/checkpoint_save_runtime.sml:101-104 | a replacement writes into no file another name leads to, unless that file cannot be removed; and what it leaves when it is cut short |
| CheckpointSave.WriteTextAtomically | sml/checkpoint_save_runtime.sml:27-38 | the metadata appears whole or not at all |
| CheckpointSave.SaveCheckpoint | sml/checkpoint_save_runtime.sml:92-129 | stopped or failing anywhere, there is no metadata, or it and its heap are as before, or both are the new ones, whole, and other links keep their bytes; stopped within the heap, either fails exactly when its removal does; and stopped within the metadata, or done, every other link leads to exactly what is stated |
| CheckpointSave.StaleMetadata | sml/checkpoint_save_runtime.sml:20-53 | the files `SaveHeap` leaves when cut short have the old metadata beside part of the heap exactly when it cannot be removed |
| CheckpointSave.StaleMetadataHappens | sml/checkpoint_save_runtime.sml:20-53 | a disk on which a stopped save leaves it so |
| CheckpointSave.SharedHeap | sml/checkpoint_save_runtime.sml:46-53 | in them every other name leads to what was written exactly when it led to the old heap and that cannot be removed, and to what it led to else |
| CheckpointSave.SharedTmp | sml/checkpoint_save_runtime.sml:27-38 | once the metadata is written, whole or in part, so does every other name of an old temporary file that cannot be removed |
| CheckpointSave.SharedHeapHappens | sml/checkpoint_save_runtime.sml:46-53 | a disk on which a stopped save writes through such a link |
| CheckpointStore.MetadataRoundTrip | sml/checkpoint_store.sml:46-83 | metadata written for some fields matches exactly those fields |
| CheckpointStore.RunProcesses | sml/checkpoint_store.sml:28-89 | whatever saves, discards, removals and sweeps follow one another, each failing or stopped anywhere, what validates is a complete heap with the metadata written for it, if each process can remove the metadata file, and the heap or the temporary file |
| CheckpointStore.ValidatesWhole | sml/checkpoint_store.sml:85-89 | where metadata beside a heap was written for it, whole, what validates is a complete heap |
| CheckpointStore.RemoveCheckpoint | sml/checkpoint_store.sml:28-42 | removal stopped anywhere leaves no metadata, or the pair as it was, and touches only the checkpoint's names |
| CheckpointStore.RemoveIncompleteResidue | sml/checkpoint_store.sml:70-76 | metadata is discarded only without its heap |
| Manifest.LiveBlobsAreSaid | sml/cache_transfer.sml:51-71 | the collector keeps, and the transfer copies, exactly the blobs some line of the manifest names: `blob`, a role and the hash, with white space between, or `blob=` and the hash |
| Manifest.PlainLinesName | sml/cache_transfer.sml:51-59 | the two forms a publisher writes name their hash |
| Manifest.ReadingsAgree | sml/cache_transfer.sml:51-71 | the transfer's list names each of the blobs the collector keeps live, once |
| PublishedManifest.PublishedBlobsAreFound | sml/build_exec.sml:1785-1801 | of a manifest as published, both find exactly its theory's blobs; but the blob of an extra output exactly if no vertical tab, form feed or carriage return stands in its path before something else |
| PublishedManifest.ExtraOutputIsLost | sml/build_exec.sml:1785-1801 | such a path, whose blob neither finds |
| CacheTransfer.CopyBlobs | sml/cache_transfer.sml:134-171 | after the blobs of an entry the destination has exactly those it did not skip besides what it had, each fetched whole from the source, and the counts add up |
| CacheTransfer.CopyEntry | sml/cache_transfer.sml:160-176 | an entry appears only once every blob a line of its manifest names was fetched whole and is there, but for those skipped, stopped or failing anywhere, and no other entry changes; once it appears a closed cache is closed exactly when no skipped blob was missing |
| CacheTransfer.CopyEntries | sml/cache_transfer.sml:178 | a closed cache stays closed after every prefix, and finished copies are all there |
| CacheTransfer.SkippingClosed | sml/cache_transfer.sml:101-106 | the store `CopyEntry` leaves stays closed exactly when none of the skipped blobs was missing |
| CacheGc.Cache.CollectLiveActions | sml/cache.sml:247-264 | exactly the stale actions go, and the live blobs are what the others name |
| CacheGc.Cache.SweepBlobs | sml/cache.sml:282-288 | exactly the stale blobs not live go |
| CacheGc.Cache.GcRoot | sml/cache.sml:366-397 | stopped anywhere a closed cache stays closed and no blob goes that a line of a kept manifest names; run through, exactly the actions older than the cutoff are gone, and of the blobs so old exactly those no such line names |

## Left out

- HTTP routes, tokens, settings, the database engine, logging and the failure texts kept with actions and batches: no property of theirs is stated.
- SQL text and query plans: each statement is its meaning, and a transaction is one step but in `RunAdmission` and `EventStream`.
- The order in which a claim prefers batches and actions within a tier, and the peak memory hints that choose a submitted action's tier: any ready action of the tiers may be picked, and either tier given.
- Deadlines and retention periods: an overdue batch is stopped, and an ended one deleted, at any time.
- `claim` as one coroutine: it is the events of `ClaimWakes`, since other tasks run at each of its awaits; only the two loops it shares are methods.
- Exceptions other than the cache's inside `release`, and its pacing by a semaphore.
- `parse_result`, `worker.py`, host and phase reports, burst workers and the scale command: short parsing and reporting.
- SHA-256, Poly/ML saved states, the HOL kernel and dependency extraction: a parameter hash, opaque bytes, given facts.
- `Listsort.sort`, which is not in the repository: any sort of strings gives the list `Text.SortStrings` gives, by `Text.SortCanonical`.
- PlanKeys.KeyCommits: fields, paths and names are single lines, as a line end in one makes other lines of it; and no configuration line begins `dep=` or `declared_load=`, which is true of the one line every caller passes (sml/build_exec.sml:2786-2787).
- PlanResolve.PlannedKeysCommit: equal source digests give equal loads, and names mentioned in a source hold no `@`, as they are identifiers (sml/analyser/dependency_extract.sml:20-21).
- Removals that fail and later succeed within one process: each process has its own names it cannot remove.
- Extra-input expansion, their generators and hashing files: a node's declared inputs come with the files they name and the digests of those.
- Target selection, and the index of nodes by logical name: a lookup is the nodes of that name, sorted by key.
- `bootstrap_topo_sort`: the same walk as `topo_sort_resolved` over another source of dependencies.
- The timing report of a save, and symbolic links in checkpoint trees.
- Temporary blob files, the probe for free space, and manifests that cannot be read.
- Garbage collection of temporary files, locks, theory modules, analyses and toolchains, which name no blob; publishers running beside it; and its counts of what it removed.
- File locks, archives, globs and progress lines.
