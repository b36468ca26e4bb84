# Verification model of Infiproxy's core

A Dafny model of the parts of Infiproxy where a mistake is hard to see from one function: the
transaction that moves several proxy runtimes to a new desired generation, the graph and capability
checks in front of it, the index that decides which users are authorised, and the routing policy with
its explanation. `dafny verify dfyconfig.toml` checks everything.

| module | models |
|---|---|
| Reconcile, Recovery, Transaction, Calls, Runs | the journalled transaction over several runtimes, its rollback, crash recovery, and whole runs of the worker |
| Planning, Adapter, Infrastructure | graph validation, plans, runtime selection, the removal guard, dependency cycles |
| Storage, Lifecycle, Access, UserLifecycle | user operations, lifecycle checkpoints, the desired generation and the publish-then-acknowledge outbox |
| Rules | validation, compilation and completion of routing rules, deduplication of stored entries |
| Policy, DefaultPolicy, Graph | transport pools, cycle detection, resolution, the built-in policy |
| RoutingTopology, Wildcard, Mihomo | generated rules, their explanation, and the inspection of a domain |
| Text, Desired, Prelude | strings, the state that is persisted, result types |

## What is assumed

- A saved journal, an applied compare-and-set and a committed database transaction are one atomic
  durable effect each. A crash is a stop between two such effects or adapter calls: in `Reconcile`
  every effect and call returns `Done`, `Refused` or `Stopped`, chosen freely, and after `Stopped`
  only the journal, the applied state, the live runtimes and the snapshots remain (`Durable`). A save
  that stops may or may not have landed. An error of the state store ends a call the same way.
- Runtime adapters: a failing install, activation or restore may leave anything live, for that core
  only. A successful install runs the staged candidate, which is a function of the plan. A successful
  activation keeps the configuration and leaves the core active exactly when the plan has fragments. A
  successful restore makes the core equal to the snapshot and needs its file. Staging, validation,
  snapshots and checks change no runtime.
- The set of registered cores does not change across restarts. A snapshot path is a pair of generation
  and core, as the transaction directory is laid out.
- Configurations are opaque. Times are integers and parameters. UUIDs and tokens are parameters.
  Integers are unbounded; the source's counters do not come near their width.
- Strings are sequences of Unicode scalar values; white space and lower case are the ASCII ones, byte
  lengths and the wildcard matcher use UTF-8.

## Where the code does not meet the plain statement

Each of these is an exact condition or a counterexample in the model, not a change of the code.

- `docs/architecture-reconciler.md` says that `Failed` means nothing live was mutated. `rollback`
  persists `Failed` before it restores the first core, and `recover` treats `Failed` as finished, so a
  crash inside `rollback` is not recovered. `Recovery.RollbackWindowIsNotRecovered` shows that from such a
  state recovery is right for every undoable live state if and only if the persisted status is not
  `Failed`, and `Transaction.CutRollbackWitness` is an input. Generation safety holds over runs that
  cross this window (`Runs.Worker.Run`); what the cores run is claimed up to it.
- After the compare-and-set, a crash with no planned core makes `recover` report `Failed` although the
  generation advanced: it reports `Applied` if and only if a core was planned (`Recovery.PublishedStatus`,
  with an input in `Transaction.EmptyPlanWitness`).
- A user edit made after a deadline passed but before the evaluator saw it changes the checkpoint
  without a new generation: a step that keeps the generation keeps the authorisations if and only if
  the checkpoint of the edited row was fresh (`Lifecycle.NoSilentChange`, with an input in
  `Lifecycle.StaleCheckpointWitness`).
- The wildcard matcher is right for all patterns if and only if the value has no literal `*`
  (`Wildcard.GreedyIsGlobExactly`); valid domains have none.
- Deduplicating entries keeps every compiled payload if and only if no enabled entry is dropped in
  favour of a disabled one (`Rules.DeduplicationExact`, where no entry spells the line of another key; `Rules.DeduplicationExactForAll` states the
  condition on lines for all kinds).
- Generation sorts rules by priority only, the explanation by priority and ID: they agree if and only
  if equal priorities come in ID order, as loaded from storage (`Policy.SortsAgreeExactly`).
- A policy that passes `validate` may still not resolve: a target `capability:x` that is accepted
  because an enabled profile has exactly that name while no profile offers `x` (`Policy.ResolveRules`,
  `Policy.UnofferedWitness`), or a capability that resolves to a profile whose name cannot stand in a
  rule (`Mihomo.RoutingRules`). The panel refuses such profile names
  (`crates/stealthhub-panel/src/main.rs:3591-3597`), so these inputs reach the functions of the core only.
- The topology means to show a pool as unresolved when it "resolves empty", but tests its selectors, not
  what they select. Every pool of a valid policy is shown as dynamic, while `resolved_pools` refuses the
  whole policy if one selects nobody: the shown states are right if and only if the policy resolves
  (`RoutingTopology.PoolsShownExactly`). The built-in policy without a fast profile is an input
  (`DefaultPolicy.UnresolvedPoolsWitness`).
- The topology shows a rule as unresolved, although it is generated, if its capability resolves to a profile
  named exactly like the target (`RoutingTopology.ValidRuleIsExplained`, `RoutingTopology.NamesakeWitness`).

## Model

| member | source | states |
|---|---|---|
| Recovery.CrashAtomicity | crates/stealthhub-core/src/reconcile.rs:443-578 | From every durable state the forward path can crash in, recovery leaves all cores and the applied state old, or, exactly when the compare-and-set had landed, all new. |
| Recovery.RecoveryIsRestartable | crates/stealthhub-core/src/reconcile.rs:482-578 | Any number of interrupted or failing recoveries followed by a complete one ends in the journal, applied state and live cores of a single uninterrupted recovery. |
| Recovery.RecoveryStepKeepsOutcome | crates/stealthhub-core/src/reconcile.rs:497-578 | After one recovery that stopped anywhere the state can still be undone, or is undone, and the final outcome is the same. |
| Recovery.NeverPublishesBackwards | crates/stealthhub-core/src/reconcile.rs:535-549 | The compare-and-set back to the previous generation is reached from no crash of the forward path, and recovery never changes the applied state. |
| Recovery.PublishedStatus | crates/stealthhub-core/src/reconcile.rs:462-496 | After publication, recovery reports `Applied` exactly when a core was planned and `Failed` otherwise. |
| Recovery.RecoveredJournal | crates/stealthhub-core/src/reconcile.rs:443-578 | The recorded outcome for every durable state: published if that is proven, failed if no core was touched, rolled back if the applied state belongs to the transaction, otherwise left to the operator. |
| Recovery.UndoableOutcome | crates/stealthhub-core/src/reconcile.rs:443-578 | For a transaction that can be undone the outcome is `RolledBack` if a core was marked and `Failed` if none was. |
| Transaction.EmptyPlanWitness | crates/stealthhub-core/src/reconcile.rs:482-496 | A published transaction without plans that recovery reports as `Failed`. |
| Recovery.RollbackWindowIsNotRecovered | crates/stealthhub-core/src/reconcile.rs:785-795 | With the journal of a begun rollback, recovery restores the old state from every live state it could undo if and only if the status is not `Failed`. |
| Transaction.CutRollbackIsNotRecovered | crates/stealthhub-core/src/reconcile.rs:785-795 | After the first save of a rollback, recovery gives the old state back if and only if no core differed from it. |
| Transaction.CutRollbackWitness | crates/stealthhub-core/src/reconcile.rs:785-795 | A transaction with one installed core that a crash there leaves on the new configuration. |
| Recovery.NewestFirstDistinct | crates/stealthhub-core/src/reconcile.rs:140-148 | The resources to roll back are pairwise distinct cores. |
| Recovery.RestoreTargets | crates/stealthhub-core/src/reconcile.rs:500-534 | Every journalled mutation has its snapshot under its own path and is undone to exactly that snapshot. |
| Transaction.InFlightUndoable | crates/stealthhub-core/src/reconcile.rs:259-394 | Write-ahead invariant: at every point of the forward path the persisted journal and snapshots suffice to restore exactly the state before the transaction. |
| Transaction.MutatingMarked | crates/stealthhub-core/src/reconcile.rs:304-330 | Whatever happens to the core whose marker is persisted, everything needed to undo the transaction stays. |
| Transaction.MutatedAreStarted | crates/stealthhub-core/src/reconcile.rs:140-148 | The journalled mutations, newest first, are the started cores in exact reverse order. |
| Transaction.ForwardInstalled | crates/stealthhub-core/src/reconcile.rs:292-394 | The calls up to any point of the mutation loop installed exactly the cores before it, in order, and the current one once begun. |
| Transaction.ScriptInstalled | crates/stealthhub-core/src/reconcile.rs:207-403 | The complete forward path installs every planned core once and in plan order. |
| Transaction.PreparationCalls | crates/stealthhub-core/src/reconcile.rs:207-291 | Until every candidate is staged and validated and every core snapshotted, nothing is installed. |
| Calls.CoreCallsCheck | crates/stealthhub-core/src/reconcile.rs:331-393 | The calls made for one core check it: installed, then activated, then asked for its health if the plan has fragments, for its listeners, and for its users if a fragment expects some. |
| Calls.InstalledOnlyWhenReady | crates/stealthhub-core/src/reconcile.rs:237-291 | Read off the calls alone: before any core is installed, every planned core was staged, then validated, then snapshotted, and then the generation was confirmed. |
| Calls.InstalledOnlyWhenCheckedSoFar | crates/stealthhub-core/src/reconcile.rs:292-394 | Before a core is installed every earlier one was checked. |
| Calls.RestoresMirrorInstalls | crates/stealthhub-core/src/reconcile.rs:796-809 | Two restores come in the reverse order of the two installations they undo. |
| Calls.FullRollbackRestores | crates/stealthhub-core/src/reconcile.rs:785-832 | After a complete rollback every installed core was restored later than it was installed. |
| Transaction.ActiveIdsListed | crates/stealthhub-core/src/reconcile.rs:396-403 | The published core IDs are those of the plans with fragments, in plan order. |
| Transaction.PublicationLands | crates/stealthhub-core/src/reconcile.rs:396-433 | When the compare-and-set lands, every planned core runs its plan, every other core is untouched and the next applied state is in force. |
| Reconcile.Reconciler.SaveJournal | crates/stealthhub-core/src/reconcile.rs:97-100 | A reported save has landed; a failed or stopped one left the old or the new entry. |
| Reconcile.Reconciler.CompareAndSetApplied | crates/stealthhub-core/src/reconcile.rs:72-80 | The applied state changes only from the expected generation and only to the given state. |
| Reconcile.Reconciler.RollbackConfig | crates/stealthhub-core/src/adapter.rs:657-657 | A successful restore makes the core equal to its snapshot; a failing one may leave anything, for this core only. |
| Reconcile.Reconciler.InstallConfig | crates/stealthhub-core/src/adapter.rs:649-649 | A successful installation runs the candidate; a failing one may leave anything, for this core only. |
| Reconcile.Reconciler.ActivateConfig | crates/stealthhub-core/src/adapter.rs:650-650 | A successful activation keeps the configuration and makes the core active exactly when its plan has fragments. |
| Reconcile.Reconciler.StageAll | crates/stealthhub-core/src/reconcile.rs:237-249 | Stages every plan in order without touching a runtime; on any failure the transaction can still be undone. |
| Reconcile.Reconciler.ValidateAll | crates/stealthhub-core/src/reconcile.rs:250-258 | Validates every candidate in order without touching a runtime. |
| Reconcile.Reconciler.SnapshotAll | crates/stealthhub-core/src/reconcile.rs:259-284 | Afterwards the journal and the directory hold the snapshot of every planned core as it was before the transaction. |
| Reconcile.Reconciler.ActivateCore | crates/stealthhub-core/src/reconcile.rs:292-330 | The marker is persisted before the core is touched; afterwards it runs its plan, and every failure and crash can be undone. |
| Reconcile.Reconciler.MutateAll | crates/stealthhub-core/src/reconcile.rs:292-394 | All cores run their plans, are checked and marked verified, or the cores marked in the journal are exactly the installed ones and the transaction can be undone; every verification marker is justified by the calls made. |
| Reconcile.Reconciler.RestoreMutated | crates/stealthhub-core/src/reconcile.rs:796-809 | Restores go in exact reverse mutation order and touch only mutated cores, every mutated core finds its snapshot, and without a failure the state before the transaction is back. |
| Reconcile.Reconciler.Rollback | crates/stealthhub-core/src/reconcile.rs:785-832 | `RolledBack` exactly when nothing failed, with the old state restored; otherwise `RecoveryRequired` with the journal and all snapshots kept. |
| Reconcile.Reconciler.FailWithoutMutation | crates/stealthhub-core/src/reconcile.rs:834-850 | Ends as `Failed` with every core and the applied state untouched. |
| Reconcile.Reconciler.Publish | crates/stealthhub-core/src/reconcile.rs:396-440 | `Applied` only with the new state published; a refused compare-and-set or a stale generation leaves everything needed for a rollback. |
| Reconcile.Reconciler.Reconcile | crates/stealthhub-core/src/reconcile.rs:178-440 | Every end of an attempt: `Applied` means the whole script ran, without a fault, and the new state is published, `Failed` and `Unsupported` that nothing was installed, `RolledBack` that the old state is back after a full reverse rollback; a core called verified in the journal was checked by the calls made; a crash can be recovered, and the rollback window opens only after a core was installed or with none to install; without faults the status is decided by the desired state alone; a stale generation or a pending recovery changes nothing. |
| Reconcile.AppliedMeansChecked | crates/stealthhub-core/src/reconcile.rs:331-414 | `Applied` means that every planned core was installed, activated and then asked for everything its plan demands, and the generation confirmed after that. |
| Reconcile.EndedIsCareful | crates/stealthhub-core/src/reconcile.rs:207-394 | However a transaction ended, no core was installed before every planned core was staged, validated and snapshotted, nor before the earlier cores were checked. |
| Reconcile.Reconciler.CommonListenerFails | crates/stealthhub-core/src/reconcile.rs:908-923 | Two enabled resources that claim a common listener are never applied, nothing is asked of a runtime, and without faults an accepted state ends `Failed`. |
| Reconcile.Reconciler.RestoreJournalled | crates/stealthhub-core/src/reconcile.rs:500-534 | Crash recovery restores every journalled mutation in reverse order, touches nothing else, and succeeds only with the undone state. |
| Reconcile.Reconciler.Recover | crates/stealthhub-core/src/reconcile.rs:443-578 | Every call, however interrupted, is a recovery step; one without faults ends in exactly the recovered state, having restored all journalled mutations, the newest first, and called nothing if there are none; with faults it reports only `RecoveryRequired`. |
| Runs.NewStateActive | crates/stealthhub-core/src/reconcile.rs:673-752 | After publication exactly the cores that the desired state needs are active, and these are the published ones: a core no longer needed was deactivated through its empty plan. |
| Runs.EndStands | crates/stealthhub-core/src/reconcile.rs:178-440 | Every end of an attempt stands for the state before it, or for its plans once published, or is a cut rollback whose journal still suffices to undo it. |
| Runs.RecoveryKeepsStanding | crates/stealthhub-core/src/reconcile.rs:443-578 | Interrupted, failing and complete recoveries change neither the applied state nor the live state that recovery leads to. |
| Runs.RecoveryKeepsConsistency | crates/stealthhub-core/src/reconcile.rs:443-578 | Nor do they break that the active cores are the published ones. |
| Runs.OrderlyIsSound | crates/stealthhub-core/src/reconcile.rs:535-549 | From every state between two calls of any run, recovery finds its snapshots and has nothing to unpublish. |
| Runs.CompleteRecoverySettles | crates/stealthhub-core/src/reconcile.rs:443-578 | A complete recovery of such a state leaves a terminal journal, so nothing stands in the way of the next attempt. |
| Runs.RecoveryIsAtomic | crates/stealthhub-core/src/reconcile.rs:443-578 | A complete recovery leaves all cores and the applied state old, or all new. |
| Runs.Worker.Pass | crates/stealthhub-panel/src/bin/infiproxy-reconcile.rs:200-225 | One wake-up changes nothing that the durable state stands for, or publishes the plans of a newer desired state with every planned core on its plan and every other core untouched, or cuts a rollback short whose journal still suffices to undo it; without faults it publishes a newer desired state if and only if that is accepted and has plans without conflicts, from every state a run can reach. |
| Runs.Worker.Run | crates/stealthhub-panel/src/bin/infiproxy-reconcile.rs:200-225 | Over any run with failures and crashes, also inside a rollback: the applied generation never decreases, no generation is published twice, every wake-up is such a step, and every wake-up without faults publishes what can be placed. |
| Runs.Worker.OneGenerationOneApplied | crates/stealthhub-core/src/reconcile.rs:178-578 | Over every such run generations never decrease and one generation is one applied state. |
| Runs.Worker.OneGenerationOneStanding | crates/stealthhub-core/src/reconcile.rs:178-578 | While no rollback is cut short, one applied generation stands for one live state: configurations, enabled and active flags of all cores. |
| Runs.Worker.AdvanceKeepsConsistency | crates/stealthhub-core/src/reconcile.rs:178-578 | Outside the window a wake-up keeps the published cores the active ones, and a publication leaves exactly the needed cores active. |
| Runs.Worker.RunIsConsistent | crates/stealthhub-core/src/reconcile.rs:178-578 | Until a rollback is cut short, the active cores of every state of a run are the published ones. |
| Runs.Worker.PublishedIsServed | crates/stealthhub-core/src/reconcile.rs:178-578 | As long as a published generation is the applied one, recovery and all later wake-ups leave exactly the cores active that its desired state needs, each on the configuration of its plan. |
| Runs.Worker.AttemptAndRecover | crates/stealthhub-core/src/reconcile.rs:178-578 | Crash atomicity end to end: an attempt stopped anywhere in its forward path, any number of failing recoveries and one clean recovery leave everything as before, or every core planned for the desired state on its plan and every other core untouched. |
| Infrastructure.DependencySearch.Visit | crates/stealthhub-core/src/reconcile.rs:880-898 | Success adds only nodes on no cycle, closed under dependencies; failure means that a cycle exists. |
| Infrastructure.ValidateDependencies | crates/stealthhub-core/src/reconcile.rs:863-906 | Succeeds if and only if enabled IDs are unique, every dependency of an enabled resource is enabled and the graph is acyclic. |
| Adapter.CoreRegistry.Register | crates/stealthhub-core/src/adapter.rs:702-710 | Adds exactly the new adapter, unless its manifest is invalid or its ID is taken. |
| Adapter.CoreRegistry.Select | crates/stealthhub-core/src/adapter.rs:719-751 | Without a preference the result is the best core that says yes to everything, while all preferable ones clearly say no; a preferred core is taken exactly if it is registered, capable, compatible and installed; probe errors before the choice surface. |
| Adapter.CoreRegistry.SelectExcluding | crates/stealthhub-core/src/adapter.rs:754-774 | The same choice among the remaining cores, stated over the registry. |
| Adapter.ChosenIsBest | crates/stealthhub-core/src/adapter.rs:719-751 | The choice is a core that has the capabilities, says it is compatible and is installed, while every preferable one clearly says no; none if all say no; an error if the first that does not say no fails to answer. |
| Adapter.ChosenOthersAreBest | crates/stealthhub-core/src/adapter.rs:754-774 | The same, with one core left out. |
| Adapter.ChosenUnique | crates/stealthhub-core/src/adapter.rs:719-774 | The choice is determined by the registry and the requirements. |
| Adapter.SortRanks | crates/stealthhub-core/src/adapter.rs:738-744 | A stable sort by priority of an ID-ordered list is in selection order. |
| Adapter.RemovalPicksReplacement | crates/stealthhub-core/src/adapter.rs:719-774 | Once a core is not installed, selection gives exactly what the excluding selection announced. |
| Planning.Planner.ValidateGraph | crates/stealthhub-core/src/reconcile.rs:754-783 | Accepts exactly the desired states whose enabled profiles and resources are served and whose active cores are registered. |
| Planning.Planner.BuildPlans | crates/stealthhub-core/src/reconcile.rs:673-752 | The plans are exactly the sorted plan set of the selected contributions plus one plan per active core; `Planning.PlansCarry` says what they carry. |
| Planning.PlanMeaning | crates/stealthhub-core/src/reconcile.rs:673-752 | Plans are for distinct registered cores and the desired generation, and every core that was active has one. |
| Planning.PlanReasons | crates/stealthhub-core/src/reconcile.rs:673-752 | A core has a plan if and only if an enabled profile or resource contributes to it or it was active, and its plan has fragments if and only if one contributes. |
| Planning.PlansUnique | crates/stealthhub-core/src/reconcile.rs:673-752 | The desired and applied state determine the plans. |
| Planning.PlansCarry | crates/stealthhub-core/src/reconcile.rs:673-752 | Core by core and in the order of the desired state, the fragments of the plans are exactly what the enabled profiles are rendered to and what the enabled resources say. |
| Planning.ResourceIsCarried | crates/stealthhub-core/src/reconcile.rs:710-731 | Every enabled resource has a fragment in the plan of its adapter with its ID, its configuration, its listeners and no expected users. |
| Planning.ValidateListeners | crates/stealthhub-core/src/reconcile.rs:908-923 | Accepts exactly the plans in which no two fragments claim the same listener. |
| Planning.ConflictsExactly | crates/stealthhub-core/src/reconcile.rs:908-923 | Plans are free of conflicts if and only if no two listener claims of enabled profiles and resources are equal. |
| Planning.CommonListenerBlocks | crates/stealthhub-core/src/reconcile.rs:908-923 | Two enabled resources with a common listener have no plans without conflicts. |
| Planning.Planner.CoreRemovalBlocked | crates/stealthhub-core/src/reconcile.rs:581-604 | Unblocked exactly when every enabled profile keeps a replacement and no enabled resource is bound to the core; otherwise the first profile without one decides between blocked and unknown. |
| Planning.RemovalGuardSufficient | crates/stealthhub-core/src/reconcile.rs:581-604 | If the graph is accepted and removal is not blocked, the graph is still accepted once the core is not installed. |
| Planning.RemovalAcceptedExactly | crates/stealthhub-core/src/reconcile.rs:754-783 | After the removal the graph is accepted if and only if every enabled profile has a replacement or prefers another core. |
| Planning.RemovalGuardExact | crates/stealthhub-core/src/reconcile.rs:581-604 | How much stricter the guard is, for every accepted graph: it also refuses a core that carries an enabled resource or is the only alternative of a profile that prefers another core. |
| Lifecycle.EvaluationBringsIndexUpToDate | crates/stealthhub-core/src/storage.rs:4928-5029 | After one evaluation every checkpoint equals direct evaluation and the loaded users are exactly the checkpoint-allowed ones, although only crossed deadlines (and in repair missing or stale rows) were visited. |
| Lifecycle.EvaluationMeans | crates/stealthhub-core/src/storage.rs:4928-5029 | Row by row: visited are exactly the rows with a crossed deadline, and in repair those without a checkpoint or with a stale one; a visited row gets a fresh checkpoint, and the generation advances if and only if the access of some visited row changes. |
| Lifecycle.MutationKeepsIndex | crates/stealthhub-core/src/storage.rs:4403-4435 | Every user mutation leaves a checkpoint for every row that fits it. |
| Access.AccessMeans | crates/stealthhub-core/src/access.rs:20-40 | Access is allowed if and only if the user is enabled, before its deadline and below its limit, and each obstacle is reported by its own flag. |
| Lifecycle.MutationMeans | crates/stealthhub-core/src/storage.rs:4403-4435 | A committed mutation changes its own row and checkpoint only, and takes a new generation into the outbox exactly if the authorisation differs or the operation asks for one. |
| Lifecycle.AcknowledgementKeepsIndex | crates/stealthhub-core/src/storage.rs:5032-5043 | Acknowledging changes no checkpoint but its outbox entry. |
| Lifecycle.AcknowledgementMeans | crates/stealthhub-core/src/storage.rs:5032-5043 | Exactly the entries that the generation covers leave the outbox; nothing else changes. |
| Lifecycle.PendingBounded | crates/stealthhub-core/src/storage.rs:4970-5029 | No outbox entry exceeds the desired generation. |
| Lifecycle.NoSilentChange | crates/stealthhub-core/src/storage.rs:4585-4897 | A step that keeps the desired generation keeps the set of authorised identities if and only if the checkpoint of the edited row was fresh. |
| Lifecycle.StaleCheckpointWitness | crates/stealthhub-core/src/storage.rs:4585-4657 | A user expired since the last evaluation and then renamed: the authorisation goes without a new generation. |
| Lifecycle.OneGenerationOneAuthorisation | crates/stealthhub-core/src/storage.rs:1270-1300 | Over whole runs of fresh steps one generation stands for one set of authorised identities. |
| Lifecycle.LoadedAfterEvaluation | crates/stealthhub-core/src/storage.rs:2609-2658 | Right after an evaluation the identities that the worker loads are exactly those the checkpoints authorise. |
| Lifecycle.OneGenerationOneLoad | crates/stealthhub-core/src/storage.rs:2609-2658 | Over whole runs, after any two evaluations that leave the same generation the worker loads the same identities. |
| Lifecycle.StampsExpire | crates/stealthhub-core/src/storage.rs:4363-4369 | After an edit a stamp is never seen again on that user, at any later point of any run. |
| Storage.NextUserUpdatedAt | crates/stealthhub-core/src/storage.rs:4363-4369 | The new stamp is larger than the old one and not before now. |
| Storage.Storage.CreateUser | crates/stealthhub-core/src/storage.rs:4449-4509 | Creates the row with a new generation in its outbox, or changes nothing. |
| Storage.Storage.UpdateUser | crates/stealthhub-core/src/storage.rs:4585-4657 | Fails exactly on invalid, stale, taken or unchanged input; otherwise the generation advances exactly when the user's authorised identity changes. |
| Storage.Storage.RotateRuntimeIdentity | crates/stealthhub-core/src/storage.rs:4660-4706 | Replaces the identity with a new generation, or changes nothing. |
| Storage.Storage.SetUserEnabled | crates/stealthhub-core/src/storage.rs:4723-4783 | Advances the generation exactly when the user's authorisation changes. |
| Storage.Storage.ResetSubscriptionToken | crates/stealthhub-core/src/storage.rs:4797-4844 | Replaces the token and the stamp, never the generation. |
| Storage.Storage.DeleteUser | crates/stealthhub-core/src/storage.rs:4858-4897 | Removes row and checkpoint; the generation advances exactly when the user was authorised. |
| Storage.Storage.LoadDesiredUsers | crates/stealthhub-core/src/storage.rs:2609-2658 | Exactly the users that are enabled, before their deadline and below their limit at the given instant, in ID order. |
| Storage.Storage.EvaluateLifecycle | crates/stealthhub-core/src/storage.rs:4928-5029 | Performs the specified evaluation; the count is that of the rows with a crossed deadline and, in repair, a missing or stale checkpoint; every row ends with the checkpoint it should have, and the answer is the newest outbox entry of the post-state. |
| Storage.Storage.MarkPublished | crates/stealthhub-core/src/storage.rs:5032-5043 | Clears exactly the outbox entries that the published generation covers. |
| Storage.NewestAfterEvaluation | crates/stealthhub-core/src/storage.rs:4970-5029 | The evaluator's answer is the maximum outbox entry after the evaluation. |
| UserLifecycle.Checker.PublishAndAcknowledge | crates/stealthhub-panel/src/user_lifecycle.rs:56-59 | The outbox is cleared only after the request exists; a failure or crash leaves the database as it was; however it ends, it is a run of the panel. |
| UserLifecycle.Checker.EvaluateAndPublish | crates/stealthhub-panel/src/user_lifecycle.rs:33-53 | However a round ends, it is a run of the panel; a successful one leaves the outbox empty with every entry requested after the evaluation, any other leaves exactly the evaluated database. |
| UserLifecycle.Checker.QueueLatest | crates/stealthhub-panel/src/main.rs:5275-5288 | Publishing the newest desired generation after a change is a run of the panel and, if it succeeds, empties the outbox. |
| UserLifecycle.NewEntryIsUnpublished | crates/stealthhub-core/src/storage.rs:4403-4435 | A new outbox entry is the new desired generation and larger than everything published so far. |
| UserLifecycle.EntryDisappearsOnlyBy | crates/stealthhub-core/src/storage.rs:4970-5043 | An entry goes only by being raised, by an acknowledgement at least as large of a published generation, or with its user. |
| UserLifecycle.PendingIsNeverLost | crates/stealthhub-panel/src/user_lifecycle.rs:33-59 | From the step that creates an entry on, at every later point of every run it was raised, its user was deleted, or a generation at least as large was published after its creation. |
| UserLifecycle.NextRoundPublishes | crates/stealthhub-core/src/storage.rs:4970-5029 | The next round publishes the same generation, unless it finds transitions and publishes the next one. |
| UserLifecycle.AcknowledgingNewestDrains | crates/stealthhub-core/src/storage.rs:5032-5043 | Acknowledging the newest entry empties the outbox. |
| UserLifecycle.RepeatedRoundPublishesSame | crates/stealthhub-panel/src/user_lifecycle.rs:18-59 | A round cut between publication and acknowledgement and repeated later, in whichever mode, publishes the same generation if and only if nobody's access changed in between. |
| UserLifecycle.LaterTransitions | crates/stealthhub-core/src/storage.rs:4928-5029 | A later evaluation, which visits only crossed deadlines, finds transitions if and only if somebody's access changed. |
| UserLifecycle.NoDeadlineSameAccess | crates/stealthhub-core/src/access.rs:20-34 | Without a deadline in between nobody's access changes. |
| Wildcard.WildcardMatches | crates/stealthhub-core/src/routing_topology.rs:544-566 | The two-index loop terminates and decides the glob relation for every value without a literal star. |
| Wildcard.GreedyIsGlob | crates/stealthhub-core/src/routing_topology.rs:544-566 | Greedy scanning and the declarative glob relation agree for every pattern and every value without a literal star. |
| Wildcard.GreedyIsGlobExactly | crates/stealthhub-core/src/routing_topology.rs:544-566 | The scan is right for every pattern if and only if the value has no literal star. |
| Rules.ValidatePayload | crates/stealthhub-core/src/rules.rs:313-368 | Keeps the trimmed rule lines in order, or rejects the payload. |
| Rules.ValidatedMeans | crates/stealthhub-core/src/rules.rs:313-368 | A payload is accepted if and only if every line is blank, a comment or the provider header, or a well-formed rule, and some line is a rule; kept are all rule lines, trimmed, in order and with repetitions. |
| Text.LinesMean | crates/stealthhub-core/src/rules.rs:313-316 | Lines end at a line feed or at a carriage return and a line feed; the last line needs no end, and an empty one is none. |
| Text.TrimMeans | crates/stealthhub-core/src/rules.rs:313-320 | Trimming takes away exactly the white space at both ends. |
| Rules.ValidatedRoundTrip | crates/stealthhub-core/src/rules.rs:313-368 | Validating the newline join of validated lines returns the same lines. |
| Rules.ValidatedAreValid | crates/stealthhub-core/src/rules.rs:313-368 | Every kept line is one that validation keeps unchanged, and the joined result validates to itself. |
| Rules.CompileRuleSetPayload | crates/stealthhub-core/src/rules.rs:223-248 | Compiles all enabled parts in precedence order; the lines of the result come from the layers in order, no two equal up to case, and every line of every layer is represented. |
| Rules.CompiledPayloadMeans | crates/stealthhub-core/src/rules.rs:223-248 | The lines read back from the compiled payload come from enabled entries, then the local payload, then enabled sources, each in order; no two are equal up to case, and every line of every layer is represented from the same or an earlier place. |
| Rules.CompiledExactly | crates/stealthhub-core/src/rules.rs:223-248 | There is a payload if and only if all enabled parts are valid and one of them has a line. |
| Rules.FirstOccurrencesRepresent | crates/stealthhub-core/src/rules.rs:242-243 | The filter keeps one representative of every line, up to case, and nothing else. |
| Rules.FirstOccurrencesDistinct | crates/stealthhub-core/src/rules.rs:242-243 | No two kept lines are equal up to case. |
| Rules.EntryTable.Deduplicate | crates/stealthhub-core/src/storage.rs:3349-3396 | Keeps the first row of every key, unless the rule set is unknown or an enabled one would no longer compile; then nothing is deleted. |
| Rules.SameKeyMeans | crates/stealthhub-core/src/storage.rs:3357-3366 | Entries count as duplicates if and only if they have the same kind and, trimmed and up to case, the same value. |
| Rules.DeduplicatedMeans | crates/stealthhub-core/src/storage.rs:3349-3396 | Kept are exactly the entries that repeat no earlier one, in order. |
| Rules.CompiledIsText | crates/stealthhub-core/src/rules.rs:169-181 | A valid entry compiles to its own trimmed text. |
| Rules.EntryTextMeans | crates/stealthhub-core/src/rules.rs:85-103 | The text of an entry, kind by kind. |
| Rules.SameKeySameLine | crates/stealthhub-core/src/storage.rs:3357-3366 | Entries that count as duplicates compile to the same line up to case. |
| Rules.DeduplicationKeepsPayload | crates/stealthhub-core/src/storage.rs:3349-3396 | If no enabled entry is dropped for a disabled one, the compiled payload is identical behind any local lines and sources. |
| Rules.DeduplicationExact | crates/stealthhub-core/src/storage.rs:3349-3396 | That condition is exact unless enabled entries under different keys have the same line. |
| Rules.TypedHaveNoAliases | crates/stealthhub-core/src/rules.rs:169-181 | Only classical entries can have the line of an entry under another key. |
| Rules.DeduplicationExactForAll | crates/stealthhub-core/src/storage.rs:3349-3396 | For entries of any kind, deduplication keeps every payload if and only if the kept enabled entries have the lines of all enabled ones, up to repetitions. |
| Rules.AllEnabledFirstsEnabled | crates/stealthhub-core/src/storage.rs:3349-3396 | Lists of enabled entries meet the condition. |
| Rules.CompletedRuleRoundTrip | crates/stealthhub-core/src/rules.rs:371-405 | Splitting a completed rule at commas recovers kind, value, target and the no-resolve flag. |
| Rules.CompletableExactly | crates/stealthhub-core/src/rules.rs:371-405 | Which conditions can be completed with which targets, read off their fields. |
| Policy.CycleSearch.Detect | crates/stealthhub-core/src/policy.rs:365-393 | Success restores the path set and proves everything reachable free of cycles; failure means that a cycle exists; it terminates although no visited set is kept. |
| Policy.NoCycleFrom | crates/stealthhub-core/src/policy.rs:231-231 | Acceptance from a pool rules out a cycle through it; rejection exhibits one. |
| Policy.Validate | crates/stealthhub-core/src/policy.rs:155-271 | Accepts exactly the valid policies, stated clause by clause, in particular exactly those whose pools refer to each other, as members or fallbacks, without a cycle. |
| Policy.ValidMeansSound | crates/stealthhub-core/src/policy.rs:155-271 | Validity, clause by clause, without the functions that decide it: names, references, pool settings, rule conditions and the absence of reference cycles. |
| Policy.PoolGraphMeans | crates/stealthhub-core/src/policy.rs:365-393 | The searched graph has an edge exactly where an enabled pool refers to another as a member or as its fallback. |
| Policy.ResolvePools | crates/stealthhub-core/src/policy.rs:274-324 | Fails for invalid policies and for an enabled pool without members; otherwise every enabled pool in order, with what its selectors name in their order and no name twice. |
| Policy.MembersMean | crates/stealthhub-core/src/policy.rs:274-324 | The members of a pool are what its selectors name, in the order of the selectors and of the profiles, each name once at its first place. |
| Policy.ResolvedMean | crates/stealthhub-core/src/policy.rs:274-324 | The resolved pools are all enabled ones, in order, each with its members and none empty. |
| Policy.ResolvedPoolsClosed | crates/stealthhub-core/src/policy.rs:274-324 | Member lists are non-empty, free of duplicates, exactly what the selectors select, and name only enabled profiles, enabled pools, DIRECT or REJECT. |
| Policy.ResolvesExactly | crates/stealthhub-core/src/policy.rs:316-320 | The pools resolve if and only if every enabled one selects something. |
| Policy.SortRulesStable | crates/stealthhub-core/src/policy.rs:334-334 | Sorting keeps the order of rules that do not have to change places. |
| Policy.SortRulesSorts | crates/stealthhub-core/src/policy.rs:334-334 | The result is ordered. |
| Policy.OrderedRulesAt | crates/stealthhub-core/src/policy.rs:334-334 | The sorted enabled rules are all enabled positions, each once, by priority and, where the order does not decide, as given. |
| Policy.TargetStandsFor | crates/stealthhub-core/src/policy.rs:327-350 | A rule target stands for itself, or, as a capability, for the first enabled profile that offers it. |
| Policy.SortsAgreeExactly | crates/stealthhub-core/src/routing_topology.rs:202-207 | Sorting by priority and sorting by priority and ID give the same list if and only if equal priorities come in ID order. |
| Policy.LoadOrderHasOrderedTies | crates/stealthhub-core/src/storage.rs:3892-3895 | Rules loaded by priority and ID have their ties in ID order, also after dropping disabled ones. |
| Policy.ResolveRules | crates/stealthhub-core/src/policy.rs:327-350 | Succeeds if and only if the policy is valid and every capability target is offered by an enabled profile. |
| Policy.UnofferedWitness | crates/stealthhub-core/src/policy.rs:249-268 | A profile named like a capability that nobody offers: its rule is valid but does not resolve. |
| Policy.ResolvedTargetUsable | crates/stealthhub-core/src/policy.rs:327-350 | Every resolved target names an enabled profile, an enabled pool, DIRECT or REJECT. |
| DefaultPolicy.DefaultIsValid | crates/stealthhub-core/src/policy.rs:425-555 | The built-in policy is valid whatever the profiles are. |
| DefaultPolicy.DefaultResolvesExactly | crates/stealthhub-core/src/policy.rs:425-555 | It is valid, and resolves if and only if some enabled profile has the speed role and some other has not. |
| DefaultPolicy.DefaultPartition | crates/stealthhub-core/src/policy.rs:474-489 | FAST-AUTO and REST-AUTO hold exactly the enabled profiles with and without the speed role, together all, and with distinct names none twice. |
| DefaultPolicy.DefaultGenerates | crates/stealthhub-core/src/mihomo.rs:79-171 | With the built-in policy a subscription is generated if and only if some profile that can be rendered has the speed role and some other has not. |
| RoutingTopology.MatcherMatches | crates/stealthhub-core/src/routing_topology.rs:399-409 | For valid domains matching equals the declarative meaning: whole labels for suffixes, a glob for patterns. |
| RoutingTopology.SuffixIsLabelSuffix | crates/stealthhub-core/src/routing_topology.rs:403-403 | The textual suffix test holds if and only if the labels of the value are the last labels of the domain. |
| RoutingTopology.LineMatcherMeans | crates/stealthhub-core/src/routing_topology.rs:507-528 | What a line covers, read off its fields: `DOMAIN` the value itself, `DOMAIN-SUFFIX` the names with its labels last, `DOMAIN-KEYWORD` the names that contain it, `DOMAIN-WILDCARD` those its glob accepts, `MATCH` everything; any other line is unsupported. |
| RoutingTopology.GlobOfBytes | crates/stealthhub-core/src/routing_topology.rs:544-566 | On plain text matching the bytes of a pattern is matching its characters. |
| RoutingTopology.ValidDomainMeans | crates/stealthhub-core/src/routing_topology.rs:530-542 | A valid domain is at most 253 characters of one or more host labels joined by dots. |
| RoutingTopology.NormalizedMeans | crates/stealthhub-core/src/routing_topology.rs:284-287 | White space around the input and dots at its end are dropped and the rest is lowered. |
| RoutingTopology.DomainMatchers | crates/stealthhub-core/src/routing_topology.rs:507-528 | The matchers cover exactly the domains that some line covers by its text, and the flag says whether some line is unsupported. |
| RoutingTopology.SameLowerSameMatcher | crates/stealthhub-core/src/routing_topology.rs:507-528 | Valid lines that differ only in case stand for the same matcher. |
| RoutingTopology.FilterKeepsAnswers | crates/stealthhub-core/src/rules.rs:242-243 | The case-insensitive filter keeps, for every domain, the match answer and the unsupported flag. |
| RoutingTopology.CompilationKeepsAnswers | crates/stealthhub-core/src/rules.rs:223-248 | A compiled payload, read back line by line, answers every domain like all its layers together. |
| RoutingTopology.CompilationAnswersParts | crates/stealthhub-core/src/rules.rs:223-248 | A compiled payload covers a domain if and only if a line of an enabled entry, of the local payload or of an enabled source does, and is undecided if and only if one of them is unsupported. |
| RoutingTopology.Build | crates/stealthhub-core/src/routing_topology.rs:122-281 | Enabled rule sets in the given order, then enabled rules by priority, ID and position, each with the lines, target kind and state it should show, then an implicit fallback exactly if nothing catches all; and the enabled pools. |
| RoutingTopology.ExplicitPathsInOrder | crates/stealthhub-core/src/routing_topology.rs:165-253 | The explicit paths show the enabled rule sets in the given order and then the enabled rules by priority, ID and position, numbered from one, each with its lines, target and state. |
| RoutingTopology.TargetIsShownAs | crates/stealthhub-core/src/routing_topology.rs:419-492 | What a target is shown as: DIRECT, REJECT, then an enabled pool, then the first profile of the name with its runtime, otherwise unavailable. |
| RoutingTopology.PoolsAreShown | crates/stealthhub-core/src/routing_topology.rs:138-163 | Shown are exactly the enabled pools, the last one of an ID; unresolved if a member names nothing that is there or there is no member. |
| RoutingTopology.InspectDomain | crates/stealthhub-core/src/routing_topology.rs:284-327 | `Matched` if and only if the route is first to fire under every interpretation of unsupported matchers; `Uncertain` if and only if nothing before it can fire and it fires first under some but not all; `Default` if and only if nothing can fire. |
| RoutingTopology.FallbackOfBuilt | crates/stealthhub-core/src/routing_topology.rs:255-281 | Only the implicit path is of the fallback kind, and it exists exactly if no path catches all. |
| RoutingTopology.BuiltInspection | crates/stealthhub-core/src/routing_topology.rs:284-327 | On built topologies a default answer always carries the implicit fallback, and no other answer points to it. |
| RoutingTopology.FindFallbackIsFirst | crates/stealthhub-core/src/routing_topology.rs:313-326 | The path of a default answer is the first of kind fallback, on any topology. |
| RoutingTopology.ValidPoolsShownDynamic | crates/stealthhub-core/src/routing_topology.rs:138-163 | No pool of a valid policy is shown as unresolved, whether its selectors pick anybody or not. |
| RoutingTopology.PoolsShownExactly | crates/stealthhub-core/src/routing_topology.rs:138-163 | For a valid policy every pool is shown as unresolved exactly when it resolves to no members, if and only if every enabled pool selects somebody, that is, the policy resolves. |
| DefaultPolicy.UnresolvedPoolsWitness | crates/stealthhub-core/src/routing_topology.rs:138-163 | The built-in policy without an enabled fast profile: no pool is shown as unresolved, and the policy does not resolve. |
| RoutingTopology.ValidRuleIsExplained | crates/stealthhub-core/src/routing_topology.rs:208-253 | A rule of a valid policy is shown with the target it is generated with and never as unavailable; as unresolved if and only if the profile behind it cannot be served, or its capability resolves to a profile of the very name of the target. |
| RoutingTopology.NamesakeWitness | crates/stealthhub-core/src/routing_topology.rs:235-237 | A profile that can be served and is named like the capability it offers: its rule is valid and resolves, but is shown as unresolved. |
| Mihomo.RoutingRules | crates/stealthhub-core/src/mihomo.rs:271-295 | Succeeds if and only if the policy is valid, its capability targets are offered and the resolved names may stand in a rule. |
| Mihomo.GeneratedInOrder | crates/stealthhub-core/src/mihomo.rs:240-295 | The generated rules, read off their text: those of the enabled rule sets in the given order, then those of the enabled policy rules sorted stably by priority, each with the target it stands for. |
| Mihomo.RuleSetsInOrder | crates/stealthhub-core/src/mihomo.rs:240-246 | Of two enabled rule sets the one given first has its rule first. |
| Mihomo.ExplanationRefinesGeneration | crates/stealthhub-core/src/routing_topology.rs:165-253 | The explicit paths and the generated rules correspond one to one, in order and with the same targets, capability targets included. |
| Mihomo.CompletedRuleMeans | crates/stealthhub-core/src/rules.rs:371-405 | A completed rule has the domain matcher of its condition. |
| Mihomo.PathMeansRule | crates/stealthhub-core/src/routing_topology.rs:165-253 | Every path has exactly the matchers and the unsupported flag of the generated rule, or of the provider payload it refers to. |
| Mihomo.ExactAnswer | crates/stealthhub-core/src/routing_topology.rs:284-327 | What an exact answer implies for every path up to the answered one. |
| Mihomo.InspectionPredictsGeneration | crates/stealthhub-core/src/routing_topology.rs:284-327 | The inspection of a domain predicts which generated rule fires first, where a rule fires by the text of its lines, whatever unsupported lines would do. |
| Mihomo.FallbackExactly | crates/stealthhub-core/src/routing_topology.rs:255-281 | The implicit fallback is shown if and only if no catch-all rule is generated. |
| Mihomo.GenerateRouting | crates/stealthhub-core/src/mihomo.rs:79-171 | Groups and rules are generated if and only if some profile is available and, for the available profiles, the policy is valid, resolves and has legal targets; groups and rules come in the stated order with the stated members and targets. |
| Mihomo.SameFirstOffering | crates/stealthhub-core/src/mihomo.rs:106-133 | Leaving out profiles that cannot be rendered does not change which profile a capability resolves to. |
| Mihomo.AvailableListed | crates/stealthhub-core/src/mihomo.rs:106-135 | Available are exactly the enabled profiles whose adapter exists and, where the runtime states capabilities, needs no other, in order. |
| Mihomo.SubscriptionIsExplained | crates/stealthhub-core/src/mihomo.rs:79-171 | The rules of a subscription, generated from the available profiles, are exactly those the topology explains over all profiles. |

## Left out

- Crashes inside `rollback`, beyond the exact condition above; they leave a window that recovery does not close.
- Other processes that change the applied state, and a registry that changes between a crash and its recovery.
- File and SQLite mechanics, atomic renames, permissions, symbolic links, schema migrations, SQL text.
- Error messages, completion dates, secrets, configuration migration, `observe_user_sync`.
- The concrete protocol, core and infrastructure adapters; only the contracts of their traits are used.
- The capability name inside a fragment, which nothing modelled reads.
- Runtime telemetry and inventory selection, which picks by ID and is not claimed to agree with `CoreRegistry::select`.
- The text tree of the topology.
- Targets of rule-set providers during generation: the source does not check them either.
- DNS policy, proxy group options and YAML of a subscription.
- Non-ASCII white space and case folding; they differ from the source on such input only.
- The completeness of a source's fetch, formats other than the cached payload, and entry metadata.
- Rules.DeduplicationExact: states its converse for entries without aliases, because a classical entry may spell the line of a typed one under another key; Rules.DeduplicationExactForAll covers those.
- Audit events, traffic counters and token hashing of the user operations.
- Runs.Worker.RunIsConsistent: and the other claims about what the cores run stop at a crash inside `rollback`, for which they are false.
- RoutingTopology.Build: leaves out issues, detail texts, pool labels and the order of pools, which are presentation.
- Mihomo.GenerateRouting: leaves out failing client rendering, the check for an empty token and DNS validation, which are independent of routing.
