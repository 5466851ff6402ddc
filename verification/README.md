# Verified model of the Endstate engine's capture and restore core

Endstate captures installed apps and their settings into a bundle and restores them on another machine.
This Dafny 4.11 project models the parts of the Go engine in which many steps must agree with each other,
and proves what they keep. `dafny verify dfyconfig.toml` checks all of it.

## What is modelled

**Restoring configuration.** `RestoreRun` is the executor: one object is one run, with the plan it updates
in place, the legacy preview and the trace of everything it announced, opened, ran and closed. What the host
answers to staging, inspection, locking, journaling and transactions is collected in a `World`
(`RestoreWorld`), any world at all; the final plan is proved to be a function of plan, inputs, world and
stops. `RestoreTrace` states which event may follow which trace; every method keeps that protocol, and its
lemmas read the protocol back as statements about whole runs. A run starts from lanes with distinct capture
IDs, which is what both readers in `RestoreInputs` deliver; `RestoreOutcomes` proves that, what the final
plan of a run means, and a run that stops; `RestoreReasons` says for every status and reason exactly which
answers cause it. `Claims` gives claim texts a meaning as sets of host locations,
`ClaimSpellings` says which written keys and paths are one place, and `Collisions` is the pass that blocks every owner whose claims meet another's; `HostEffects` shows what
disjoint claims buy, and `RestoreEffects` that every run has it: from its trace, owners cannot tell whether
they ran alone, and any one of them can be undone as if it had never run. `Transaction` is the transaction
of one set over a host that may misbehave inside the set's footprint: what every step answers is a fact, and
the outcome is given for all of them. `LegacyProjection`, `Coordinator` and
`RestoreInputs` are the projection of legacy results, the planning passes and the manifest reader;
`StrictManifest` is the strict loader every version-2 manifest passes before it is read. `DurableDirectory`
is the crash-safe creation of the journal directory and `HostPathRedaction` the redaction of diagnostics.

**Producing and reading bundles.** `CaptureGuard` is the capture-time collision guard, `CaptureLanes` the
lane bookkeeping with in-place drops, and `BundleAgreement` proves that what the producer writes the reader
accepts and reads back, `ArtifactValidation` when it passes the strict loader, with directories named and
sources rewritten as in `PayloadNaming`. `PayloadManifest` is the closed-world payload index, `ArchivePlan`
extraction planning, byte budget and removal, `PortablePath` the path algebra, `TextCodec` the text
encodings, `CaptureIds` identifier allocation and the update merge, `OrderedMatch` the ordered-substring
matcher, `CaptureBoundaries` the collision checks of copied destinations and registry keys, `Identity` the
framed identities of lanes and captured sets.

**Package lanes.** `DriverLanes` routes apps into driver lanes, `LaneDetection` asks each lane what is
there, `LanePlan` is the plan command, `ApplyLanes` the plan, apply and verify loops with their counters,
and `LaneAgreement` what these phases say about each other.

`Text` holds the shared string functions and the one law behind all "equal or nested path" tests: a
separator-aware text prefix is a component prefix. `Ordering` holds string order and sorting.

A function that a method computes with is also characterized from outside, in the terms of its inputs: by the
modules `RestoreReasons`, `ClaimSpellings`, `PlanningPasses`, `InputConditions`, `StrictConditions`,
`CaptureReports`, `CaptureMerge`, `PayloadNames`, `ArchiveMembers` and `LaneDecisions`. `Spellings` and
`KeyOrder` hold what they share: letter case and slashes, and sorting by several texts.

## Where the code does less than it seems to

- On a stop, lanes still planned are marked skipped before the planned ones are announced, so they get no
  resolution event; `RestoreRun.StoppedLanes` says exactly which lanes are announced, and
  `RestoreOutcomes.StoppedLaneIsNotAnnounced` is such a run.
- The capture guard drops an entry even if its winner is itself dropped. `CaptureGuard.StillServedExactly`
  gives the exact condition for a survivor over the target, `CaptureGuard.WinnerMayItselfBeDropped` an input.
- The guard takes two spellings of one place, a network share with and without trailing separator, for
  different places; surviving places meet exactly then (`CaptureGuard.SurvivorsNeverOverlap`, input
  `CaptureGuard.ShareRootsSurviveTogether`).
- A module dropped from the lanes stays in the captured list, so its verify entries still ship
  (`BundleAgreement.CapturedVerifies`). Dropping it also removes every other module of the same short name
  from the included list (`BundleAgreement.IncludedExactly`). `BundleAgreement.KeptModuleIsNotIncluded` is a
  collection that shows both.
- Portable path normalization is not idempotent (`PortablePath.RenormalizeExactly`), hence a payload manifest
  can fail on the tree it was built from when a name holds a backslash (`PayloadManifest.BuiltVerifies`, inputs
  `PortablePath.NormalizeIsNotIdempotent` and `PayloadManifest.BackslashNameMayNotVerify`).
- Lone surrogates are replaced, so a UTF-16 file round-trips exactly when it is well formed
  (`TextCodec.FileRoundTrip`, input `TextCodec.LoneSurrogateIsReplaced`).
- Two installers whose fingerprints differ only in where a bar stands get one identity, so a merge may take one
  for the other (`CaptureMerge.SameFingerprintKey`, input `CaptureMerge.BarJoinsTwo`).
- A confirmed re-pin reinstalls an app whose authored version is only white space on every apply, although the
  app verifies (`LaneAgreement.AppliedAgainExactly`, input `LaneAgreement.BlankVersionIsRepinned`).

## Model

| member | source | states |
|---|---|---|
| `RestoreRun.RestoreRun.Execute` | go-engine/internal/commands/config_restore_execution.go:113-398 | Every way out: the trace obeys the step protocol and every stage, root and the guard are given back; each set has its resolution event and shows items exactly as its outcome calls for; early exits only announced; after a run under the guard the final plan is, set by set, what staging, the contested owners, inspection, roots, earlier stops and the transaction of the set make of it; stopped, failed, without a journal or complete exactly when the answers of the host make it so; which legacy and ordinary actions acted |
| `RestoreRun.RestoreRun.RunLive` | go-engine/internal/commands/config_restore_execution.go:188-273 | Without anything selected no guard is taken, and exactly then; a refused guard changes nothing; otherwise everything happens between acquiring and releasing the guard |
| `RestoreRun.RestoreRun.RunDry` | go-engine/internal/commands/config_restore_execution.go:152-187 | A dry run stages, blocks, inspects and announces but takes no guard, creates no root, starts no transaction and runs no live action; its plan is determined in the same way; it shows exactly the sets it could stage and nothing contests, and fails exactly when its restores do not succeed |
| `RestoreRun.RestoreRun.UnderGuard` | go-engine/internal/commands/config_restore_execution.go:224-398 | At the end all stages are closed and all roots offered for discard with the guard still held; the final plan and the registered claims are determined by the plan, the inputs and the answers of the host; only sets selected at the start and uncontested were transacted |
| `RestoreRun.RestoreRun.StageAndMaterialize` | go-engine/internal/commands/config_restore_execution.go:573-639 | Each selected set is left as its staging says; the sets still selected are exactly the prepared ones, with their materialized targets and their stage open, every other stage is closed |
| `RestoreRun.RestoreRun.Collide` | go-engine/internal/commands/config_restore_execution.go:816-906 | A set is failed exactly when one of its claims conflicts; a lane is failed exactly when it is selected and has a conflicting or refused target |
| `RestoreRun.RestoreRun.CreateRoots` | go-engine/internal/commands/config_restore_execution.go:244-257 | Exactly the sets still selected afterwards hold a transaction root; a set that got none failed for its backup |
| `RestoreRun.RestoreRun.Executable` | go-engine/internal/commands/config_restore_execution.go:663-674 | The prepared sets still selected, each once, in plan order |
| `RestoreRun.RestoreRun.DiscardRoots` | go-engine/internal/commands/config_restore_execution.go:258-273 | Every root that was created is offered for discard once, although only the executable sets are visited |
| `RestoreRun.RestoreRun.CloseStages` | go-engine/internal/commands/config_restore_execution.go:558-562 | Every open stage is closed once |
| `RestoreRun.RestoreRun.ExecuteLiveSet` | go-engine/internal/commands/config_restore_live_set.go:36-77 | The outcome is the one the answers of the host call for; the intent is durable and the set announced before its transaction, which begins exactly when snapshots and intent succeed and something is left to do |
| `RestoreRun.RestoreRun.RunSets` | go-engine/internal/commands/config_restore_execution.go:296-351 | Each executable set has its turn in plan order and ends by its own outcome, or, exactly after an earlier stop, skipped with recovery required and nothing of it run; the loop breaks off exactly for an intent that could not be made durable |
| `RestoreRun.RestoreRun.FinishStopped` | go-engine/internal/commands/config_restore_execution.go:324-368 | After a stop the plan is settled, every lane is filtered, blocked or skipped for recovery, no legacy or ordinary action ran, and exactly the lanes settled before the stop got a resolution event |
| `RestoreRun.RestoreRun.RunLanes` | go-engine/internal/commands/config_restore_execution.go:1050-1080 | Only selected, unblocked lanes act, in lane order and action order, before any ordinary action; success means every action of every such lane ran |
| `RestoreRun.RestoreRun.RunOrdinaryActions` | go-engine/internal/commands/config_restore_execution.go:1081-1106 | An ordinary action runs exactly when it is unblocked and no unblocked one before it failed the engine; success exactly when none failed |
| `RestoreRun.RestoreRun.ExecuteLegacyAndOrdinary` | go-engine/internal/commands/config_restore_execution.go:1039-1108 | Succeeds exactly when no lane or ordinary action fails the engine and the lanes can be projected; an action acts exactly when it is unblocked and nothing before it failed; on success every lane is filtered, blocked or settled by its own results |
| `RestoreRun.RestoreRun.RunLegacyPhase` | go-engine/internal/commands/config_restore_execution.go:371-405 | A run without a stop fails for its restores exactly when they do not succeed, and for the journal exactly when one is needed and cannot be written and registered; one is needed exactly when some result is not up to date |
| `RestoreRun.ActedOwnersNeverMeet` | go-engine/internal/commands/config_restore_execution.go:816-897 | In any run, two different owners whose actions were carried out never share a host location |
| `RestoreTrace.NothingRunsAfterStop` | go-engine/internal/commands/config_restore_execution.go:296-369 | After an outcome that forbids going on, no set, lane, ordinary action or journal follows |
| `RestoreTrace.MutationsAreOrdered` | go-engine/internal/commands/config_restore_live_set.go:36-77 | Transactions happen in plan order, each at most once, before every legacy action, with intent, resolution, stage, root and guard in place |
| `RestoreTrace.ResolutionsComeFirst` | go-engine/internal/commands/config_restore_execution.go:275-338 | No set is announced twice, and its announcement precedes all its item events |
| `RestoreTrace.CleanupPrecedesRelease` | go-engine/internal/commands/config_restore_execution.go:218-273 | No stage or root is given back twice; all of them are given back before the guard is released, after which nothing is created or mutated |
| `RestoreTrace.LegacyActionsAreOrdered` | go-engine/internal/commands/config_restore_execution.go:1050-1106 | Lane actions run under the guard in action order, after their lane was announced and before every ordinary action; the journal follows at most once, under the guard, and in no stopped run |
| `RestoreOutcomes.PlannedAtReturn` | go-engine/internal/commands/config_restore_execution.go:296-398 | At return a set is planned exactly when it was planned without ever being selected and was not contested |
| `RestoreOutcomes.NothingLeftPlanned` | go-engine/internal/planner/config_compatibility.go:209-227 | As the resolver pins a target for every direct or migrated set, no set is planned any more after a run under the guard, stopped or not |
| `RestoreOutcomes.MutationsAreEarned` | go-engine/internal/commands/config_restore_live_set.go:36-77 | Only a set whose transaction began is reported restored or rolled back; recovery is required exactly of the sets that were ready behind a stop, and nothing of those ran |
| `RestoreOutcomes.StoppedLaneIsNotAnnounced` | go-engine/internal/commands/config_restore_execution.go:296-368 | A run whose one set cannot make its intent durable: the selected lane is skipped for recovery and no event announces it |
| `RestoreOutcomes.V1LanesAreDistinct` | go-engine/internal/commands/config_restore_inputs.go:116-152 | The lanes of the version-1 reader have distinct capture IDs, as the executor requires |
| `RestoreOutcomes.V2LanesAreDistinct` | go-engine/internal/commands/config_restore_inputs.go:154-272 | So have the lanes of the version-2 reader |
| `RestoreEffects.UndoAfterRun` | go-engine/internal/commands/config_restore_execution.go:816-897 | From the trace of a run: replaying the journal one owner recorded, backwards, after everything else ran gives the host of the same run without that owner |
| `RestoreEffects.TurnsAreIrrelevant` | go-engine/internal/commands/config_restore_execution.go:816-897 | The host after a run does not depend on the order in which owners took their turns, interleaved or not |
| `RestoreEffects.AsIfAlone` | go-engine/internal/commands/config_restore_execution.go:816-897 | Where nobody else reaches, a run does what the owner of the place does alone |
| `RestoreEffects.RunsAreLawful` | go-engine/internal/commands/config_restore_execution.go:224-398 | What the executor promises of every run under the guard is what the two laws ask |
| `RestoreRun.WellBehavedSetsAreRestored` | go-engine/internal/commands/config_restore_execution.go:224-398 | If no outcome forbids going on, every selected, uncontested set whose host answers well is transacted and restored |
| `RestoreReasons.LiveReasons` | go-engine/internal/commands/config_restore_execution.go:224-351 | For every set a live run takes up: which answers of staging, materialization, inspection, root, snapshots, intent and transaction lead to each status and reason, and to a transaction or a stop, each exactly; what is not taken up stays as it is |
| `RestoreReasons.DryReasons` | go-engine/internal/commands/config_restore_execution.go:573-717 | The same for a dry run, which leaves planned exactly what is staged, materialized, uncontested, not current and backed up |
| `RestoreReasons.LaneReasons` | go-engine/internal/commands/config_restore_legacy.go:32-157 | Exactly which results give a lane that ran each status and reason; a filtered lane says so, and a blocked one why |
| `RestoreReasons.ContestedWasPrepared` | go-engine/internal/commands/config_restore_execution.go:816-833 | A contested set was taken up and materialized |
| `RestoreRun.NoStops` | go-engine/internal/commands/config_restore_execution.go:296-351 | If no outcome forbids going on, nothing is stopped |
| `RestoreWorld.CheckUpToDate` | go-engine/internal/commands/config_restore_live_set.go:91-104 | A set is current exactly when every action already finds the kind and the digest it wants |
| `RestoreRun.RestoreRun.BeginTransaction` | go-engine/internal/commands/config_restore_live_set.go:54-64 | Intent, announcement, then transaction, each in its place |
| `RestoreRun.RestoreRun.StageOne` | go-engine/internal/commands/config_restore_execution.go:581-635 | One set is left as its staging says, its stage open exactly if it is handed on |
| `RestoreRun.RestoreRun.InspectPrepared` | go-engine/internal/commands/config_restore_execution.go:230-243 | Exactly the sets found current or without backup leave the selection, each with its own reason |
| `CaptureBoundaries.CopyPreflight.AddItem` | go-engine/internal/bundle/config_capture.go:548-563 | A copy is accepted exactly when readable and clear of all earlier destinations, so the list stays clear |
| `CaptureBoundaries.OneWriterEach` | go-engine/internal/bundle/config_capture.go:548-563 | No folded location of the payload is written by two items |
| `CaptureBoundaries.RegistryChecksAreSubtrees` | go-engine/internal/bundle/collect.go:406-414 | Authored keys overlap exactly when some key lies under both; containment is inclusion of subtrees |
| `Collisions.ApplyUnifiedCollisions` | go-engine/internal/commands/config_restore_execution.go:816-897 | An owner is blocked exactly when one of its claims conflicts with another claim or one of its targets was refused; a conflict overrides the refusal as reason |
| `Collisions.LaneSweep` | go-engine/internal/commands/config_restore_execution.go:836-856 | A selected lane with one refused target contributes no claim at all |
| `Collisions.MarkConflicts` | go-engine/internal/commands/config_restore_execution.go:868-891 | The double loop marks both sides of every conflicting pair and nobody else |
| `Collisions.ContestedGenerationsArePrepared` | go-engine/internal/commands/config_restore_execution.go:816-833 | Only a set that staging let through can be contested |
| `Collisions.SurvivorsDisjoint` | go-engine/internal/commands/config_restore_execution.go:816-897 | An uncontested owner shares no host location with any other owner |
| `Collisions.SurvivorChains` | go-engine/internal/commands/config_restore_execution.go:868-891 | Inside an uncontested owner, two claims are the same text or share no location |
| `Collisions.ContestedExactly` | go-engine/internal/commands/config_restore_execution.go:868-891 | An owner is contested exactly when a location of one of its claims is covered by a different claim |
| `Collisions.ClaimedExactly` | go-engine/internal/commands/config_restore_execution.go:816-866 | The claims are those of the prepared sets, of the selected lanes without a refused target and of the ordinary actions, each under its owner |
| `HostEffects.OrderIrrelevant` | go-engine/internal/commands/config_restore_execution.go:816-897 | Owners confined to disjoint claims leave the same host in every execution order |
| `HostEffects.UndoOneOwner` | go-engine/internal/commands/config_restore_execution.go:816-897 | Undoing one owner in reverse after a whole run gives the host of the run without that owner |
| `HostEffects.UndoRestores` | go-engine/internal/commands/config_restore_execution.go:816-897 | A journal replayed backwards restores what its owner found and leaves every other location as it is |
| `HostEffects.SurvivorsRunDisjoint` | go-engine/internal/commands/config_restore_execution.go:816-897 | The owners the pass lets through satisfy the premises of the two laws |
| `Claims.OverlapIsMeeting` | go-engine/internal/commands/config_restore_execution.go:923-930 | Two claims overlap exactly when some host location is covered by both |
| `Claims.OverlapLaws` | go-engine/internal/commands/config_restore_execution.go:923-930 | Overlap is symmetric and never relates a file claim to a registry claim |
| `Claims.FileClaimCovers` | go-engine/internal/commands/config_restore_execution.go:908-922 | A file claim covers exactly the subtree of its path |
| `Claims.ValueClaimCovers` | go-engine/internal/commands/config_restore_execution.go:908-975 | A value claim covers exactly one named value of its normalized key |
| `Claims.KeyClaimCovers` | go-engine/internal/commands/config_restore_execution.go:908-975 | A key claim covers exactly the subtree of its normalized key |
| `Claims.RegistryMeets` | go-engine/internal/commands/config_restore_execution.go:976-1001 | Key and value claims overlap exactly when their location sets meet |
| `ClaimSpellings.SpelledKey` | go-engine/internal/commands/config_restore_execution.go:970-975 | However a key is written, bare or behind either name of the hive, in any letter case, with either slash, with white space or separators around it, it normalizes to its folded components |
| `ClaimSpellings.KeysCollide` | go-engine/internal/commands/config_restore_execution.go:923-1001 | Two imports collide exactly when one key lies at or above the other, whatever their spellings |
| `ClaimSpellings.KeyAndValueCollide` | go-engine/internal/commands/config_restore_execution.go:923-1001 | An import collides with a value exactly when its key lies at or above the key of the value |
| `ClaimSpellings.ValuesCollide` | go-engine/internal/commands/config_restore_execution.go:923-1001 | Two values collide exactly when their keys and names agree, letter case aside |
| `ClaimSpellings.ImportContestsValue` | go-engine/internal/commands/config_restore_execution.go:816-1001 | An import through one name of the hive contests the set that writes a value at or below through the other |
| `ClaimSpellings.FilesCovered` | go-engine/internal/commands/config_restore_execution.go:912-921 | A file claim, with or without a separator at its end, covers exactly the subtree of its components |
| `Text.AtOrBelowIsComponentPrefix` | go-engine/internal/bundle/collect.go:411-414 | A separator-aware text prefix is a component prefix, for all strings |
| `Text.PathsOverlapIsNested` | go-engine/internal/bundle/collect.go:406-409 | The overlap test decides nesting of components, symmetrically |
| `Text.SubtreesMeet` | go-engine/internal/bundle/config_capture.go:548-556 | Nested component lists are exactly those whose subtrees share a location |
| `Transaction.TransactionExecutor.Execute` | go-engine/internal/configrestore/transaction.go:20-171 | Restored exactly when every action reaches its desired state, every validation holds and the marker is published; rolled back, with the host as it was, exactly when something was touched, the failure is not in doubt, everything touched is undone and that marker is published; each reason exactly for its cause; what is left of the host; nothing outside the footprints changes |
| `Transaction.TransactionExecutor.FinishFailure` | go-engine/internal/configrestore/transaction.go:226-281 | Aborted without a mutation, left as it stands when in doubt, and otherwise always undone: rolled back exactly when the undoing is clean and its marker published |
| `Transaction.TransactionExecutor.Rollback` | go-engine/internal/configrestore/transaction.go:293-335 | Every touched action is undone, last first, even behind one that cannot be; clean exactly when each comes back to its prior state and all show it in the end |
| `Transaction.PriorDeterminesHost` | go-engine/internal/configrestore/transaction.go:293-335 | The recorded prior states together determine the host |
| `Transaction.WorkingUndoIsClean` | go-engine/internal/configrestore/transaction.go:293-335 | Undoing that writes back what was found is clean and leaves the host as it was |
| `Transaction.CleanRestores` | go-engine/internal/configrestore/transaction.go:293-335 | A clean undoing leaves the host as it was, whatever its steps left behind on the way |
| `Transaction.ValidationsDecide` | go-engine/internal/configrestore/transaction.go:20-281 | With every step working the validations decide alone between restored and rolled back |
| `Transaction.DoubtIsNotUndone` | go-engine/internal/configrestore/transaction.go:247-253 | An action that fails in doubt is left as it stands |
| `Transaction.RefusedFileIsTakenAway` | go-engine/internal/configrestore/transaction.go:140-281 | A file written and then refused by its validation is taken away again, and the run may go on |
| `LegacyProjection.LegacyTerminalOutcome` | go-engine/internal/commands/config_restore_legacy.go:118-157 | Any failure dominates, a failure beside a change is a partial change, only an all-current lane is up to date, an unknown status is no outcome |
| `LegacyProjection.ProjectLegacy` | go-engine/internal/commands/config_restore_legacy.go:32-116 | Succeeds exactly for canonical distinct lanes whose results all belong to a lane and are classifiable for every lane that ran; one set for each lane with its own outcome, in ascending order of capture IDs |
| `LegacyProjection.TerminalExactly` | go-engine/internal/commands/config_restore_legacy.go:118-157 | Each terminal, and exactly which results a lane gets it for |
| `LegacyProjection.LaneSetExactly` | go-engine/internal/commands/config_restore_legacy.go:32-116 | The set of a lane carries its identity, and says why it was left out or what its results came to |
| `Coordinator.PlanningCoordinator.Preview` | go-engine/internal/commands/config_restore_coordinator.go:66-77 | A preview makes nothing executable and answers from its own evidence |
| `Coordinator.PlanningCoordinator.Final` | go-engine/internal/commands/config_restore_coordinator.go:78-96 | A final pass answers from its own evidence alone and records its normalized failures |
| `Coordinator.PlanningCoordinator.ExecutionPlan` | go-engine/internal/commands/config_restore_coordinator.go:136-141 | After any sequence of calls a plan is offered exactly when the last one was a successful final pass with restore enabled, and it is the plan of that pass |
| `Coordinator.BuildFreshPlan` | go-engine/internal/commands/config_restore_planning.go:73-116 | Loops over failures, modules, sets and sources compute the fresh plan |
| `Coordinator.FreshPlanSays` | go-engine/internal/commands/config_restore_planning.go:73-219 | One set for every source: filtered ones skipped as filtered, those of failed modules as undetectable, the others as resolved |
| `Coordinator.OverlayLaws` | go-engine/internal/commands/config_restore_coordinator.go:167-182 | The overlay is idempotent, never overwrites restore_filtered, gives every other set its own reason and deselects it |
| `Coordinator.NormalizeFailures` | go-engine/internal/commands/config_restore_coordinator.go:105-134 | Normalized failures of named modules, one for each key, in key order |
| `PlanningPasses.PlanExactly` | go-engine/internal/commands/config_restore_planning.go:73-219 | For every source one set of its capture and module, in capture order: filtered, undetectable exactly if its module was reported or its discovery fails, and otherwise what resolution answered |
| `PlanningPasses.TargetsExactly` | go-engine/internal/commands/config_restore_planning.go:80-116 | Resolution is asked with the targets of the selected modules, none for a module that fails |
| `PlanningPasses.ExecutableExactly` | go-engine/internal/commands/config_restore_coordinator.go:136-141 | Executable after a final pass with restore enabled that found its evidence, and after nothing else |
| `PlanningPasses.DiagnosticsInOrder` | go-engine/internal/commands/config_restore_coordinator.go:105-134 | Normalized diagnostics come by module, driver, reference and detail, each once and none lost |
| `KeyOrder.JoinedOrder` | go-engine/internal/bundle/capture_bundle.go:1216-1218 | Sorting by texts joined with NUL is sorting by one after the other |
| `RestoreInputs.BuildInputs` | go-engine/internal/commands/config_restore_inputs.go:79-114 | Accepts exactly the manifests whose version, mappings and lanes are in order |
| `RestoreInputs.BuildV1` | go-engine/internal/commands/config_restore_inputs.go:116-152 | Accepts exactly entries without lane identity and with unambiguous module IDs; one lane for each module in order, with its entries in order |
| `RestoreInputs.BuildV2` | go-engine/internal/commands/config_restore_inputs.go:154-272 | Accepts exactly when captures and lanes resolve, every entry belongs to a lane of its own module or is ordinary and away from payloads, and every lane has entries; reads every lane with exactly its entries |
| `RestoreInputs.FilterSelectsV1` | go-engine/internal/commands/config_restore_inputs.go:116-152 | Without a filter every lane is selected, with one exactly the lanes of the modules it names, with or without "apps." |
| `RestoreInputs.FilterSelectsV2` | go-engine/internal/commands/config_restore_inputs.go:154-272 | The same for the lanes and sources of version 2; one source for each capture, in capture order |
| `RestoreInputs.IncludesExactly` | go-engine/internal/commands/config_restore_inputs.go:324-336 | A filter includes a module exactly when it is empty, holds its ID, or holds a name that is its ID without "apps." |
| `RestoreInputs.FromModuleAppends` | go-engine/internal/commands/config_restore_inputs.go:116-135 | The entries of a module keep the order of the manifest |
| `InputConditions.ReadExactly` | go-engine/internal/commands/config_restore_inputs.go:79-272 | Which manifests are read, in terms of versions, mappings, captures, lanes and entries alone |
| `InputConditions.ReadsExactly` | go-engine/internal/commands/config_restore_inputs.go:274-297 | An ordinary source reads a payload exactly when one of the two cleaned, folded places lies at or above the other |
| `StrictManifest.OverlapIsPlaceOverlap` | go-engine/internal/manifest/manifest_v2.go:469-531 | For every source the strict loader accepts and every valid payload root, in any bundle directory: the loader's test, the reader's test and overlap of the two places, letter case ignored, are the same |
| `StrictManifest.ValidateLanes` | go-engine/internal/manifest/manifest_v2.go:369-467 | Accepts exactly: well-formed lanes clear of captures and of each other, listed modules equal to lane modules, every entry below the root of its own lane or ordinary and clear of all roots, every lane used |
| `StrictManifest.StrictIsAcceptable` | go-engine/internal/commands/config_restore_inputs.go:154-272 | What passed the strict loader the reader accepts exactly when payloads and evidence resolve |
| `StrictManifest.EntriesReadOnlyTheirPayload` | go-engine/internal/manifest/manifest_v2.go:369-467 | In a strict manifest an entry's source meets no payload place but that of its own lane, which holds it; an ordinary source meets none |
| `StrictManifest.ValidIsPlain` | go-engine/internal/manifest/manifest_v2.go:508-531 | A valid path is a list of plain components, whatever white space surrounds it |
| `StrictConditions.StrictExactly` | go-engine/internal/manifest/manifest_v2.go:369-467 | What the strict loader accepts, pair by pair and entry by entry |
| `StrictConditions.ValidExactly` | go-engine/internal/manifest/manifest_v2.go:508-531 | Valid exactly when the trimmed text is a list of plain components without backslash, colon, dollar or percent and without a tilde in front |
| `StrictConditions.StableExactly` | go-engine/internal/manifest/manifest_v2.go:369-467 | Identifiers begin with a letter, end in a letter or digit and hold only single separators between |
| `StrictConditions.RootsOverlapExactly` | go-engine/internal/manifest/manifest_v2.go:469-506 | Two payload roots overlap exactly when they are one, letter case aside |
| `CaptureGuard.ResolveTargetCollisions` | go-engine/internal/bundle/capture_bundle.go:922-1028 | Drops exactly the entries that overlap an entry of a stronger module, whatever the order of the modules: a package match yields only to a package match with a smaller ID, an installed application also to any package match, a path-only match to every other kind too |
| `CaptureGuard.BeatsIsTotal` | go-engine/internal/bundle/capture_bundle.go:1022-1028 | Between modules of different IDs exactly one wins |
| `CaptureGuard.BeatsTransitive` | go-engine/internal/bundle/capture_bundle.go:1022-1028 | Winning is transitive |
| `CaptureGuard.OverlapIsNesting` | go-engine/internal/configtarget/target.go:53-70 | For all targets: symmetric, and equal to nesting of places except that two spellings of one place are taken for different ones |
| `CaptureGuard.SurvivorsNeverOverlap` | go-engine/internal/bundle/capture_bundle.go:922-970 | Surviving entries of different modules never overlap, and lie in one place or one in the other exactly when they are two spellings of one place |
| `CaptureGuard.StrongestLosesNothing` | go-engine/internal/bundle/capture_bundle.go:922-970 | There is a module that beats all others, and it loses nothing |
| `CaptureGuard.ChainToSurvivor` | go-engine/internal/bundle/capture_bundle.go:949-968 | From every entry a finite chain of overlaps leads through ever stronger modules to a survivor |
| `CaptureGuard.StillServedExactly` | go-engine/internal/bundle/capture_bundle.go:949-968 | There is a strongest module overlapping a given entry; a survivor overlaps the entry exactly when that module has such an entry that nobody stronger overlaps; one at or under the entry qualifies unless the place of the entry is claimed in another spelling |
| `CaptureGuard.BelowLosesExactly` | go-engine/internal/bundle/capture_bundle.go:949-968 | An entry of the strongest overlapping module at or under a given entry loses exactly to a stronger claim of the same place in another spelling |
| `CaptureGuard.StrongestClaimantExists` | go-engine/internal/bundle/capture_bundle.go:949-968 | Every claiming entry has a strongest module overlapping it |
| `CaptureGuard.WinnerMayItselfBeDropped` | go-engine/internal/bundle/capture_bundle.go:949-968 | A dropped entry can be left with no survivor over its target |
| `CaptureGuard.ShareRootsSurviveTogether` | go-engine/internal/configtarget/target.go:53-70 | A network share written with and without trailing separator: both entries survive, over one place |
| `CaptureLanes.LegacyCapture.Collect` | go-engine/internal/bundle/capture_bundle.go:627-834 | Fails exactly on a refused collection or a taken directory; otherwise lanes, module IDs and payload directories are those of the modules that kept something, entries are exactly the undropped ones, and the captured list keeps every staged module |
| `CaptureLanes.LegacyCapture.StageAll` | go-engine/internal/bundle/capture_bundle.go:639-776 | Stages the first version-1 module of each ID, in order, with one result each |
| `CaptureLanes.LegacyCapture.DropLane` | go-engine/internal/bundle/capture_bundle.go:876-914 | Takes one module out of lanes, module IDs and payloads and leaves every other as it was; the short-name list loses every module of that short name |
| `CaptureLanes.LegacyCapture.EmitAll` | go-engine/internal/bundle/capture_bundle.go:786-823 | After every stage the lists name exactly the modules not dropped so far |
| `CaptureReports.ReportedExactly` | go-engine/internal/bundle/capture_bundle.go:639-776 | Reported are exactly the first version-1 modules of their IDs |
| `CaptureReports.ReportSays` | go-engine/internal/bundle/capture_bundle.go:639-776 | Captured exactly with a payload, failed exactly when collecting went wrong, skipped when nothing was there or tried |
| `CaptureReports.StagedExactly` | go-engine/internal/bundle/capture_bundle.go:639-776 | Staged are exactly those that were tried and yielded a payload |
| `CaptureReports.SkippedExactly` | go-engine/internal/bundle/capture_bundle.go:639-776 | Skipped are exactly the others |
| `CaptureReports.EntriesInOrder` | go-engine/internal/bundle/capture_bundle.go:829-834 | Entries come by lane, kind, source, target, key and value name |
| `BundleAgreement.MixedBundleIsAccepted` | go-engine/internal/commands/config_restore_inputs.go:220-271 | Whatever collisions dropped, the version-2 artifact satisfies the reader: every lane kept an entry and every entry names the lane of its own module |
| `ArtifactValidation.MixedBundleIsStrict` | go-engine/internal/bundle/capture_bundle.go:391-393 | Whatever names directories and rewrites sources: the artifact passes the strict loader exactly when module IDs are stable and not those of captured sets, payload directories are valid and clear of each other and of the captured sets, and every shipped source lies in its module's directory or is blank |
| `ArtifactValidation.ProducedBundleIsStrict` | go-engine/internal/bundle/capture_bundle.go:391-393 | With the producer's own names and rewriting: it passes exactly when every module that kept an entry has a stable ID, shares neither module nor directory with a captured set, and each authored source it ships fits |
| `PayloadNaming.SanitizeSegment` | go-engine/internal/bundle/config_capture.go:129-154 | The scan computes the sanitized form of the whole identifier |
| `PayloadNaming.ShortHashSuffix` | go-engine/internal/bundle/config_capture.go:156-178 | The scan computes the leading hexadecimal digits behind the last dash, at most eight |
| `PayloadNames.ScanIsWords` | go-engine/internal/bundle/config_capture.go:129-154 | What the scan builds is the words of the text joined by single dashes |
| `PayloadNames.SanitizedIsWords` | go-engine/internal/bundle/config_capture.go:129-154 | Of which only dashes and dots at the ends are cut off |
| `PayloadNames.DigitsExactly` | go-engine/internal/bundle/config_capture.go:156-178 | The digits are all that the text begins with, up to the limit |
| `PayloadNames.BehindLastDash` | go-engine/internal/bundle/config_capture.go:156-178 | and they are looked for behind the last dash |
| `PayloadNaming.DirectoryIsValid` | go-engine/internal/bundle/config_capture.go:107-127 | Whatever the module ID, its payload directory is a valid root and needs no cleaning |
| `PayloadNaming.SafeRootsOverlap` | go-engine/internal/bundle/config_capture.go:122-127 | Two roots with such names overlap only when they are the same |
| `PayloadNaming.RewrittenSourceFits` | go-engine/internal/bundle/create.go:319-338 | A rewritten source lies below the lane's root and is portable exactly when the authored one is in the payload of an app with a leaf that is one portable component, or is blank or already below the root |
| `PayloadNames.SourceInPayload` | go-engine/internal/bundle/create.go:319-338 | A source in the payload of an app is rewritten to the app, or to the last component below it |
| `BundleAgreement.PlainManifestIsAccepted` | go-engine/internal/commands/config_restore_inputs.go:116-135 | The version-1 artifact is accepted exactly when the restores it carries are: base ones if nothing was kept, otherwise those of modules with trimmed IDs |
| `BundleAgreement.MixedBundleRoundTrip` | go-engine/internal/commands/config_restore_inputs.go:220-271 | Reading a version-2 artifact gives one lane for each module that kept entries, with exactly those entries |
| `BundleAgreement.PlainBundleRoundTrip` | go-engine/internal/commands/config_restore_inputs.go:116-152 | Reading a version-1 artifact regroups to one lane for each named module that kept entries, with exactly those entries |
| `BundleAgreement.IncludedExactly` | go-engine/internal/bundle/capture_bundle.go:876-914 | The included short names are right exactly when no dropped module shares a short name with a kept one |
| `BundleAgreement.KeptModuleIsNotIncluded` | go-engine/internal/bundle/capture_bundle.go:876-914 | A collection in which a module keeps its entry and lane and is missing from the included names, and the dropped module still ships its verify entry |
| `BundleAgreement.PlainIncludedExactly` | go-engine/internal/bundle/capture_bundle.go:1116-1133 | In a version-1 bundle the included names are exactly the payload directories |
| `BundleAgreement.CapturedVerifies` | go-engine/internal/bundle/capture_bundle.go:1083-1114 | Ships the verify entries of all captured modules, dropped ones included, each module once and in ascending order of IDs; refuses two modules under one ID |
| `Identity.FrameInjective` | go-engine/internal/bundle/config_capture.go:87-96 | The length-prefixed framing determines the hashed tuple |
| `Identity.LegacyCaptureIDInjective` | go-engine/internal/bundle/capture_bundle.go:109-117 | Different modules have different lane identities, built on the domain, the framed length and the UTF-8 bytes |
| `Identity.CaptureIDInjective` | go-engine/internal/bundle/config_capture.go:87-96 | Different triples of module, set and instance have different identities |
| `Identity.NamespacesAreDisjoint` | go-engine/internal/bundle/capture_bundle.go:107-117 | The two kinds of identity never coincide, and neither do their digests |
| `ArchivePlan.PlanExtraction` | go-engine/internal/bundle/extract.go:173-227 | Succeeds exactly when every member passes alone, folded identities are distinct and no file is a strict ancestor of another member |
| `ArchivePlan.HasFileAncestor` | go-engine/internal/bundle/extract.go:204-214 | The slash walk visits every proper ancestor and ends |
| `ArchivePlan.OrderDoesNotMatter` | go-engine/internal/bundle/extract.go:173-227 | Whether an archive can be planned does not depend on member order |
| `ArchivePlan.PlannedComponents` | go-engine/internal/bundle/extract.go:173-227 | In components: no place twice, nothing beneath a file |
| `ArchiveMembers.PlannableExactly` | go-engine/internal/bundle/extract.go:173-227 | In the places that names spell, letter case, slash and a slash at the end aside: planned exactly when all members are ordinary and resolve, no two name one place and none lies below a file |
| `ArchiveMembers.DeclaredParts` | go-engine/internal/bundle/extract.go:229-244 | Declared bytes are those of the files |
| `ArchivePlan.WithinBudget` | go-engine/internal/bundle/extract.go:229-244 | The 64-bit comparison decides the true declared sum and entry count |
| `ArchivePlan.Expand` | go-engine/internal/bundle/extract.go:139-166 | Whatever was declared, expansion accepts exactly what fits and writes at most one byte past the limit |
| `ArchivePlan.Visit` | go-engine/internal/bundle/extract.go:340-383 | The removal plan exists exactly when the tree has no link or special member, children first |
| `ArchivePlan.RemovalEmpties` | go-engine/internal/bundle/extract.go:297-323 | On the tree it was planned for, removal never meets a non-empty directory and removes exactly the subtree |
| `ArchivePlan.RemoveAll` | go-engine/internal/bundle/extract.go:297-323 | The removal loop skips what is gone, and fails on a link, a special member, a changed type and a non-empty directory |
| `ArchivePlan.RemovesOnlyPlanned` | go-engine/internal/bundle/extract.go:297-323 | Whatever a removal took away was planned and still a plain file or directory; everything else is as it was |
| `PortablePath.CleanResolves` | go-engine/internal/bundle/paths.go:42-47 | Cleaning keeps root and components in normal form |
| `PortablePath.CleanIdempotent` | go-engine/internal/bundle/paths.go:42-47 | Cleaning twice is cleaning once |
| `PortablePath.AcceptedIsPortable` | go-engine/internal/bundle/paths.go:22-48 | An accepted path is a non-empty list of portable components |
| `PortablePath.RenormalizeExactly` | go-engine/internal/bundle/paths.go:22-48 | An accepted form is accepted again, unchanged, exactly when it neither begins with a tilde nor carries outer whitespace |
| `PortablePath.DotHidesTheStart` | go-engine/internal/bundle/paths.go:30-43 | Behind "./" every portable list is accepted unless it ends in whitespace |
| `PortablePath.NormalizeIsNotIdempotent` | go-engine/internal/bundle/paths.go:30-43 | "./~a" is accepted as "~a", which is refused |
| `PortablePath.AcceptedStaysInside` | go-engine/internal/bundle/paths.go:54-69 | Joined under a clean root an accepted path stays strictly below it |
| `PortablePath.AcceptsExactly` | go-engine/internal/bundle/paths.go:22-48 | Accepted exactly: relative, trimmed and printable, without a tilde in front, dollar, percent, colon or a component of two dots, and naming something; the result is the components that name something |
| `PortablePath.StepsExactly` | go-engine/internal/bundle/paths.go:42-47 | What each further component does to a cleaned path |
| `PayloadManifest.ValidatePathSet` | go-engine/internal/bundle/payload_manifest.go:197-208 | Accepts exactly the lists without folded duplicates or nesting |
| `PayloadManifest.Build` | go-engine/internal/bundle/payload_manifest.go:64-136 | Succeeds exactly on a directory of regular files with acceptable, non-overlapping paths, and lists each file once, sorted |
| `PayloadManifest.Verify` | go-engine/internal/bundle/payload_manifest.go:140-195 | Succeeds exactly when the folded declared entries and the actual tree are one map to size and digest, without overlap on either side |
| `PayloadManifest.VerifiesExactly` | go-engine/internal/bundle/payload_manifest.go:140-195 | Exactly when manifest and tree are well-formed and each declared file is there with its size and digest, and nothing else |
| `PayloadManifest.ListedExactly` | go-engine/internal/bundle/payload_manifest.go:64-136 | Listed are exactly the regular files that names lead to, under their portable names |
| `PayloadManifest.LeavesExactly` | go-engine/internal/bundle/payload_manifest.go:64-136 | The walk finds exactly what names lead to and is not a directory |
| `PayloadManifest.BuiltVerifies` | go-engine/internal/bundle/payload_manifest.go:64-195 | A manifest verifies the unchanged tree it was built from exactly when each listed path survives a second normalization |
| `PayloadManifest.UnchangedTreeVerifies` | go-engine/internal/bundle/payload_manifest.go:64-195 | It always does when no name holds a backslash |
| `PayloadManifest.BackslashNameMayNotVerify` | go-engine/internal/bundle/payload_manifest.go:64-195 | With a backslash in a name it can fail |
| `HostPathRedaction.Redact` | go-engine/internal/commands/config_restore_execution.go:462-488 | The scan computes the redaction of the whole text |
| `HostPathRedaction.NothingLeft` | go-engine/internal/commands/config_restore_execution.go:462-518 | No host path starts at a boundary anywhere in the output |
| `HostPathRedaction.RedactIdempotent` | go-engine/internal/commands/config_restore_execution.go:462-488 | Redacting twice changes nothing more |
| `HostPathRedaction.NoFormLeft` | go-engine/internal/commands/config_restore_execution.go:462-518 | No drive, home, share or rooted path, character by character, is left at the beginning or behind a boundary |
| `HostPathRedaction.PathlessTextIsKept` | go-engine/internal/commands/config_restore_execution.go:462-488 | Text without such a path is left as it is |
| `HostPathRedaction.FirstPathIsReplaced` | go-engine/internal/commands/config_restore_execution.go:462-518 | The first one is replaced from its beginning to what ends it, and what precedes it is kept |
| `TextCodec.DecodeText` | go-engine/internal/bundle/share_redact.go:229-249 | Accepts exactly even-length UTF-16 behind a mark and valid UTF-8 without NUL |
| `TextCodec.EncodeText` | go-engine/internal/bundle/share_redact.go:268-290 | Writes the bytes of the chosen encoding, mark first |
| `TextCodec.ReadUnits` | go-engine/internal/bundle/share_redact.go:251-264 | The units read are those whose bytes, in that order, are the body |
| `TextCodec.Encode16Decode16` | go-engine/internal/bundle/share_redact.go:229-290 | Well-formed UTF-16 survives decoding and encoding, surrogate pairs included (RFC 2781 sections 2.1 and 2.2) |
| `TextCodec.EncodeDecodeUtf8` | go-engine/internal/bundle/share_redact.go:229-290 | Valid UTF-8 survives decoding and encoding |
| `TextCodec.FileRoundTrip` | go-engine/internal/bundle/share_redact.go:229-290 | A decoded file is written back byte for byte, exactly unless a UTF-16 file holds a lone surrogate |
| `TextCodec.LoneSurrogateIsReplaced` | go-engine/internal/bundle/share_redact.go:251-290 | The file FF FE 00 D8 is read and written back as another file |
| `TextCodec.TextRoundTrip` | go-engine/internal/bundle/share_redact.go:229-290 | Encoded text reads back with its encoding, exactly unless it has a NUL in UTF-8 or begins with a mark character written without one |
| `TextCodec.InvalidUtf8` | go-engine/internal/bundle/share_redact.go:229-249 | Overlong, surrogate, too large, lone and cut sequences are refused (RFC 3629 sections 3 and 10) |
| `TextCodec.Utf16Examples` | go-engine/internal/bundle/share_redact.go:251-290 | Pairs and byte orders as in RFC 2781 sections 2.1 and 5 |
| `CaptureIds.IdPool.Allocate` | go-engine/internal/commands/capture.go:555-574 | Gives the trimmed base when free, else the first free candidate; ends because each rejected candidate is another member of the used set |
| `CaptureIds.IdPool.AssignAll` | go-engine/internal/commands/capture.go:576-583 | In place over the list: each app gets an allocation against those before it and nothing else changes |
| `CaptureIds.AssignedIDs` | go-engine/internal/commands/capture.go:555-583 | Identifiers are pairwise distinct under folding, avoid the pool, and keep the base exactly when nobody before took it |
| `CaptureIds.Merge` | go-engine/internal/commands/capture.go:869-964 | Existing declarations survive in order with their identifiers; each new app is appended once with an identifier that clashes with nothing |
| `CaptureMerge.AllocatedExactly` | go-engine/internal/commands/capture.go:555-574 | The base if it is free, else with its driver, else the first free one numbered from 2 |
| `CaptureMerge.SameRefKey` | go-engine/internal/commands/capture.go:531-546 | Two coordinates are one package exactly when driver, reference and, for winget, source agree, letter case aside where it does not matter |
| `CaptureMerge.SameFingerprintKey` | go-engine/internal/commands/capture.go:548-553 | Fingerprints agree exactly in both parts as long as no key holds the bar that joins them |
| `CaptureMerge.BarJoinsTwo` | go-engine/internal/commands/capture.go:548-553 | With a bar in a key two installers get one identity |
| `CaptureMerge.DetectsLast` | go-engine/internal/commands/capture.go:889-900 | The last captured app that answers to a key stands for it |
| `CaptureMerge.MatchedExactly` | go-engine/internal/commands/capture.go:917-927 | A declaration is matched by its package, and otherwise only by a fingerprint that one declaration and one captured app bear |
| `CaptureMerge.MatchedDeclaration` | go-engine/internal/commands/capture.go:902-946 | What a matched declaration takes over and what it keeps, pinned or not |
| `CaptureMerge.NewExactly` | go-engine/internal/commands/capture.go:949-961 | A captured app is appended unless a declaration has its package or its fingerprint |
| `DurableDirectory.Disk.EnsureDirectory` | go-engine/internal/commands/config_restore_execution.go:1432-1479 | Succeeds exactly when a directory is found above everything missing and every missing component is created and synced or taken by another directory; created is exactly what it had to create up to the first failure; at every step all created components but possibly the newest are durably linked, on success all |
| `DurableDirectory.Disk.FindMissing` | go-engine/internal/commands/config_restore_execution.go:1438-1456 | Succeeds exactly when the upward search can look at everything and ends at a directory, and lists what is missing below it |
| `OrderedMatch.ContainsOrdered` | go-engine/internal/bundle/collect.go:874-888 | True exactly when the trimmed, non-empty parts can be placed in the target in order without overlap |
| `OrderedMatch.GreedyStep` | go-engine/internal/bundle/collect.go:880-886 | Taking the earliest occurrence loses no placement |
| `OrderedMatch.PlaceableExactly` | go-engine/internal/bundle/collect.go:874-888 | That is, the target is made of the parts in order with anything between |
| `OrderedMatch.KeptExactly` | go-engine/internal/bundle/collect.go:874-880 | Parts count without the slashes around them, and not at all if they are slashes alone |
| `DriverLanes.RouteApps` | go-engine/internal/commands/driver_lanes.go:96-180 | Lanes appear in first-use order with the error of their opener and their own routes in manifest order; fails exactly when a needed default driver is missing |
| `DriverLanes.ExactlyOneLane` | go-engine/internal/commands/driver_lanes.go:96-180 | Every routed package app lies in exactly one lane |
| `DriverLanes.ManifestOrder` | go-engine/internal/commands/driver_lanes.go:96-180 | Routing lists exactly the package apps and the manually verified apps, each once, in manifest order |
| `LaneDecisions.ResolvesExactly` | go-engine/internal/commands/driver_lanes.go:120-163 | Which driver and source an app gets, and when that is an error |
| `LaneDecisions.StoreReferences` | go-engine/internal/packagesource/source.go:20-33 | Which references are those of the store |
| `LaneDecisions.LanesByFirstApp` | go-engine/internal/commands/driver_lanes.go:96-180 | Lanes come in the order of their first apps |
| `LaneDecisions.FirstAppOpens` | go-engine/internal/commands/driver_lanes.go:96-180 | The first app of a lane decides whether the lane is in error |
| `LaneDetection.DetectLanes` | go-engine/internal/commands/driver_lanes.go:56-86 | Every lane is asked once with its own references, and no lane overwrites the answer for another |
| `LaneDecisions.ObservesExactly` | go-engine/internal/commands/durable_identity.go:23-55 | Present exactly if the driver says so or the registry lists the fingerprint; whose version is taken |
| `LaneDecisions.SeesExactly` | go-engine/internal/commands/driver_lanes.go:56-86 | Which question each app's presence is read from, and what a failed or partial answer means |
| `LanePlan.ComputePlan` | go-engine/internal/commands/driver_lanes.go:198-280 | Planning lane by lane and gathering by index gives one action for each routed app in manifest order, as its own lane was detected; the counters are the numbers of actions of each kind and total the routed apps |
| `LanePlan.PlanLane` | go-engine/internal/commands/driver_lanes.go:206-245 | A lane in error skips its apps, any other plans exactly its own |
| `LaneDecisions.ActsExactly` | go-engine/internal/commands/driver_lanes.go:198-280 | What the plan command announces for an app, exactly |
| `ApplyLanes.Plan` | go-engine/internal/commands/apply_driver_lanes.go:105-211 | The entries are those of the routed apps in manifest order; each branch counts for itself, each counter is the number of entries of its status, and together they total the routed apps |
| `ApplyLanes.Apply` | go-engine/internal/commands/apply_driver_lanes.go:242-352 | Every entry is settled once; the three counters, kept branch by branch, are the numbers of entries that ended installed or verified, passed over or failed, and total the entries; the drivers get exactly the requests of the entries that ask, in order |
| `ApplyLanes.Verify` | go-engine/internal/commands/apply_driver_lanes.go:385-458 | Every entry is verified once; pass, skip and fail are the numbers of entries so reported and total the entries |
| `ApplyLanes.Run` | go-engine/internal/commands/apply_driver_lanes.go:68-480 | Plan, apply and verify each total the routed apps of one routing; a dry run asks no driver; a re-pin without confirmation is refused only after the missing apps were installed; verification reads the registry again only if a driver was asked |
| `LaneDecisions.PlansExactly` | go-engine/internal/commands/apply_driver_lanes.go:105-211 | What is planned for an app, exactly, and when it is to be re-pinned |
| `LaneDecisions.VerifiesExactly` | go-engine/internal/commands/apply_driver_lanes.go:385-458 | What verifies: present in the authored version, or in any if none is authored |
| `LaneDecisions.RequestsExactly` | go-engine/internal/commands/apply_driver_lanes.go:270-336 | An authored version is what gets installed whenever the driver can take one, and when the source goes along |
| `LaneDecisions.AskedExactly` | go-engine/internal/commands/apply_driver_lanes.go:242-352 | Exactly the missing apps and the confirmed re-pins reach a driver that can |
| `LaneDecisions.SettlesExactly` | go-engine/internal/commands/apply_driver_lanes.go:242-352 | An asked entry ends as its driver answers, every other as planned |
| `LaneDecisions.CountsExactly` | go-engine/internal/commands/apply_driver_lanes.go:242-352 | Which counter each answer goes into |
| `LaneAgreement.PlanCommandAgrees` | go-engine/internal/commands/driver_lanes.go:198-280 | On one machine the plan command and the plan phase of apply agree on every app and in their counters |
| `LaneAgreement.QuietRunVerifiesItsPlan` | go-engine/internal/commands/apply_driver_lanes.go:385-458 | A run in which no driver was asked, on a machine that did not change, verifies by its plan counters: present without the drifted ones pass, skipped ones are passed over, failed, missing and drifted ones fail |
| `LaneAgreement.SecondRunIsQuiet` | go-engine/internal/commands/apply_driver_lanes.go:68-480 | Applying is idempotent: after a run in which every app verified, the next one asks no driver, re-pinning or not, as long as no authored version is blank |
| `LaneAgreement.AppliedAgainExactly` | go-engine/internal/commands/apply_driver_lanes.go:190-300 | An app that verifies is applied again exactly for a confirmed re-pin of a blank authored version |
| `LaneAgreement.SettledMachineIsLeftAlone` | go-engine/internal/commands/apply_driver_lanes.go:242-352 | If everything verifies and no authored version is blank, applying again asks no driver |
| `LaneAgreement.BlankVersionIsRepinned` | go-engine/internal/commands/apply_driver_lanes.go:190-300 | An app with the version " " verifies and is yet reinstalled at the version " " |

## Left out

- Files, registry, processes, zip reading and locks: their outcomes are facts of a run's world, parameters or finite values; a collected module, a discovered target and a driver's answer are parameters.
- SHA-256 is replaced by an injective stand-in (the hashed bytes themselves, in hexadecimal); the eight digits in a directory name are those of the stand-in, so that names differ is taken from staging, which refuses equal ones.
- Case folding covers the ASCII letters and white space the Latin-1 space characters; other Unicode folding is not modelled. Diagnostic redaction takes the Unicode classes as parameters.
- Strings are sequences of characters: Go's handling of invalid UTF-8 bytes appears only in the text codec; identities are built on UTF-8 bytes.
- Event payloads, phase and summary events, plan summary counters, display names, messages and error texts.
- Restore results are reduced to their status; a lane's results are kept in action order, but the items shown for each action are not.
- Plan sets are merged in input order: a run keeps its legacy sets in the order of the lanes, although the projection sorts them; the previews' sorting is not modelled, and sources are ordered by capture ID only because IDs are unique.
- Validation-mode branches of collectors, extraction and manual verification: they relabel errors.
- `Transaction.TransactionExecutor.Execute`: the temporary file `.endstate-transaction-*` written beside a target is not part of the modelled host; the engine ignores errors of its removal, so one may be left behind (go-engine/internal/configrestore/transaction_filesystem.go:209-290).
- `Transaction.TransactionExecutor.Rollback`: how partially committed directories are recognised is not modelled; a rollback step may do anything inside its footprint and is then checked against the recorded prior state.
- `CaptureGuard.ResolveTargetCollisions`: expanding a module's target with host environment variables is a parameter of the restore entry.
- `CaptureLanes.LegacyCapture.Collect`: proved for any naming of directories and any rewriting of sources; warnings and rewritten collection paths are not modelled; a failure to resolve or create a directory, or one already taken by a generation payload, is a refused collection.
- `RestoreInputs.BuildInputs`: parsing of target mappings and filters; cloning of entries.
- `PayloadNaming.RewrittenSourceFits`: the last element of a source is taken with the slash as separator; volume names in it are not modelled.
- `CaptureIds.Merge`: reference and fingerprint identities are kept apart as different kinds of key.
- `ArchivePlan.PlanExtraction`: portability and sandbox checks of one member are a parameter.
- `StrictManifest.ValidateLanes`: the other fields of a captured set (digests, versions, evidence, payload entries) and the loader's include handling are not modelled; of captures only identity, module and payload root are.
- `LanePlan.ComputePlan`: display names, messages and warnings; a driver is known by its lane, so answers of two driver objects of one name are one.
- `ApplyLanes.Run`: the bootstrap of optional backends (its outcome is the set of overrides), the configuration restore between the phases, pruning, the version and reason columns of final actions, and provisioning generations.
- Preview identity checks between capture modules, redaction rules, share-mode merging and exclude globs: single-branch tests.
- Journal file naming, the sequence number of legacy journals and journal contents.
- Hosted backup, keychain, report, import, doctor and catalog commands.
