# Mindspec lifecycle protocols, modelled and proved in Dafny

Mindspec drives a spec through its lifecycle: an epic with child beads, a cached phase in
the epic's metadata, review panels with an append-only ledger, and terminal transitions
(`impl approve`, `impl adopt`, the finalize PR) that write to several stores in a fixed
order. This project models those protocols and proves what they keep over every run,
under crashes, lost replies, racing verbs and failing reads. The exact algorithms they
rest on are proved against independent definitions.

`dafny verify dfyconfig.toml` checks everything.

## How the model is built

* `Common.dfy`: options, how a durable step ends (`Succeeded`, `FailedBefore`,
  `FailedAfter`; the last two are also what a killed process leaves), case folding.
* `PhaseCache.dfy`, `PhaseProtocol.dfy`: the derivation of a phase from child beads, what
  each writer decides inside the phase lock, and all locked writers of one epic interleaved
  step by step: claims, releases, completions, reconciliations, repairs, replays,
  migrations and semantics heals, plan approvals and terminal writes. Beads also change
  without any of them.
* `PhaseExcuses.dfy`, `PhaseDivergence.dfy`, `PhaseTerminal.dfy`, `PhaseLiveness.dfy`: which
  steps let stored and derived phase part on those runs, where they part, exactly, what
  repairs store once the epic is finished, and that every run can end.
* `PanelLedger.dfy`, `PanelProtocol.dfy`, `PanelWrites.dfy`, `PanelVerbs.dfy`,
  `PanelBudget.dfy`: the ledger with its check-and-append, the slot protocol as a state
  machine of launches, dispatches and cleanups, who may write which record and when a step
  is possible, the loops of the verbs proved to be runs of that machine, and what one
  invocation can do while all others go on.
* `AdoptLattice.dfy`, `Adopt.dfy`: the evidence aggregation and the two-stage transition
  of `impl adopt`.
* `ImplApprove.dfy`, `FinalizePr.dfy`, `Claims.dfy`: ordered effects, each against an
  environment that may fail at every step.
* `Metadata.dfy`, `Clarify.dfy`, `LifecycleGate.dfy`, `Obligations.dfy`, `DocGate.dfy`,
  `Deferral.dfy`: records kept in metadata and ledgers, and the gates that read them.
* `EditDistance.dfy`, `AdrText.dfy`: edit distance, bracket-aware split, filename slug.

A source object whose methods change its fields is a class here, and its methods state the
whole new state. Laws over sequences of calls are lemmas about the functions that the
method contracts name, and the lemmas called `...Exactly` say what those functions mean in
terms of the fields, the constructors and the literal values of the source. Reads of `bd`,
`git`, `gh` and the file system are parameters, or arbitrary replies, and may fail; white
space, lower-casing and redaction are function parameters.

## Where the code and its own words differ

* `advancePhaseOnClaim` promises that a lost advance always diverges forward, so that the
  unforced `repair phase` converges. `PhaseDivergence.LostAdvanceRecovery`: it converges
  exactly when the stored phase is spec or plan; `LostAdvanceStuck` is a run after which it
  does not.
* A release that did not see its bead in progress syncs nothing: agreement survives it
  exactly when opening the bead keeps the derived phase (`PhaseDivergence.BlindReleaseExact`,
  a run in `BlindReleaseDiverges`).
* `complete` calls the phase it stores freshly derived and the store corrective, but it
  derives before it locks, like the reconciliation of `impl approve`. One such store
  agrees exactly when its value is still the derived one (`PhaseDivergence.LateStoreExact`),
  and over whole runs of completions agreement at the end holds exactly when no step
  changed the derived phase between the last storing verb's derivation and its commit
  (`LateStoresExactly`; `StaleCompletionDiverges` is a run in which one did).
* `plan approve` promises that stored and derived phase agree until the first claim.
  Superseded beads are closed children, so approving a plan again stores plan over derived
  implement, or review: it agrees exactly when no lifecycle bead was there before
  (`PhaseDivergence.PlanApprovalAgrees`, a run in `ReapprovalDiverges`).
* A damaged panel snapshot is said to be attributed by the latest decodable round of its
  ledger. One refused line leaves the whole ledger unread, and the error is dropped: a
  panel is safe from edits of its snapshot exactly when every line is accepted and the
  latest round is of the gate (`LifecycleGate.SafeFromEditsExactly`). `EditUnblocks` and
  `Obligations.LostAttributionDropsObligation` are inputs for which a blocking panel and a
  plan obligation disappear.
* `declaringMergeBead` walks a Go map. When two beads recorded the same merge, the
  exemption depends on the walk: `DocGate.ExemptPossible` and `DocGate.RefusalPossible`
  say exactly what can come out.
* `classifyFinalizePREntries` says the last match stands without an open row; the first
  one does (`FinalizePr.MergeRecognised`, `FinalizePr.ClosedRowHidesMerge`).
* The slug cap is said never to leave a partial word; it leaves one exactly when the first
  word alone is longer than the cap (`AdrText.CapKeepsWholeWords`, `LongWordIsCut`).
* A failed insisted claim is said to leave no override marker on a bead it did not claim.
  It leaves one exactly in the cases of `Claims.OrphanedMarkerExactly` (an input in
  `LostReplyOrphansMarker`), and it leaves a claimed bead without its marker exactly when
  the reply to the claim was lost (`ClaimedWithoutMarkerExactly`). No release removes a
  marker, so a later claim can inherit it: `MarkerOnUnclaimedBeadExactly`,
  `ReleaseLeavesMarker`.
* A resumed adopt may report a different evidence flag from the durable one
  (`Adopt.ReportAgreesExactly`, `Adopt.ResumedRunMayDisagree`).

## Model

| member | source | states |
|---|---|---|
| PhaseCache.DerivePhaseFromChildren | internal/phase/derive.go:422-466 | the counter loop computes the set-based phase: in-progress lifecycle child, all closed, some closed, none |
| PhaseCache.DeriveIsSetBased | internal/phase/derive.go:422-466 | follow-ups, duplicates and the order of the children make no difference |
| PhaseCache.DerivedExactly | internal/phase/derive.go:422-466 | review, implement and plan, each if and only if the lifecycle children are as described |
| PhaseCache.BackwardExactly | internal/phase/order.go:39-46 | not backward if and only if both phases are of the lifecycle and the second is not earlier |
| PhaseCache.RepairOfFinished | cmd/mindspec/repair.go:258-314 | a repair of a finished epic stores done, if forced or over a phase that compares with it, and nothing otherwise |
| PhaseCache.RepairOfUnfinished | cmd/mindspec/repair.go:258-314 | a repair of any other epic stores what its children derive to, if forced or not backward, and nothing otherwise |
| PhaseCache.SemanticsExactly | internal/phase/semantics_v2.go:128-188 | the marker is set once, and plan stored only over implement with lifecycle children that are all open |
| PhaseCache.SectionsExactly | internal/phase/phaselock.go:251-270 | what every other section stores, from the phase and the marker read under the lock |
| PhaseCache.LegacyRewriteAgrees | internal/phase/semantics_v2.go:128-188 | the one-shot semantics rewrite only writes the phase the children stand for |
| PhaseProtocol.LockInvKept | internal/phase/phaselock.go:251-270 | mutual exclusion of the phase lock, and the value read under it stays the stored one until the holder writes, kept by every step |
| PhaseProtocol.StepKept | cmd/mindspec/next.go:623-667 | every step keeps: stored and derived phase agree, or a section still to decide will make them |
| PhaseProtocol.QuiescentAgreement | cmd/mindspec/next.go:586-667 | in every interleaving of all locked writers, from agreement, once no verb is under way stored equals derived again, unless one of three named events happened or the epic ended |
| PhaseExcuses.ExcusesExactly | cmd/mindspec/next.go:586-667 | each of the named events is recorded by exactly the steps that are one: a section or process lost with a synchronisation under way, an outdated target decided, the derived phase moved by an edit or a blind release, the end of the epic |
| PhaseProtocol.ClaimReleaseAgreement | cmd/mindspec/release.go:383-408 | with claims and releases that each saw their bead in progress the agreement is unconditional, so a delayed advance never overwrites a newer release |
| PhaseProtocol.OnlyCommitsStore | internal/phase/phaselock.go:251-270 | the stored phase changes only when the lock holder writes what it decided |
| PhaseProtocol.StoresRespectGuards | cmd/mindspec/repair.go:258-314 | in every interleaving an unforced repair or a plan approval never lowers the stored phase, a replay or a migration only fills in a missing one, a claim only advances to implement, the semantics heal only takes implement back to plan, a terminal write only stores done |
| PhaseTerminal.RepairKeepsDone | cmd/mindspec/repair.go:258-314 | in every interleaving, from the moment the epic is finished, a repair that had not decided yet, forced or not, stores done and nothing else; a stored done stays |
| PhaseProtocol.AdmissibleKept | internal/approve/spec.go:275-310 | what a decided section may write over the phase stored now stays admissible until it writes |
| PhaseDivergence.LostAdvanceRecovery | cmd/mindspec/next.go:608-623 | the named recovery of a lost claim advance converges if and only if the stored phase is spec or plan |
| PhaseDivergence.LostAdvanceStuck | cmd/mindspec/next.go:608-623 | a run after which it does not |
| PhaseDivergence.BlindReleaseExact | cmd/mindspec/release.go:383-408 | a release that did not see its bead in progress keeps agreement if and only if opening the bead does not change the derived phase |
| PhaseDivergence.BlindReleaseDiverges | cmd/mindspec/release.go:383-408 | a run in which it does not: review stored over derived plan |
| PhaseDivergence.LateStoreExact | internal/complete/complete.go:1651-1655 | in every interleaving a phase derived before the lock leaves agreement if and only if it is still the derived one when it is stored |
| PhaseDivergence.LateStoresExactly | internal/complete/complete.go:1651-1655 | over every failure-free run of completions and reconciliations: agreement at the end if and only if the last store is what the final children derive to, if and only if no step changed the derived phase between that verb's derivation and its commit |
| PhaseDivergence.StaleCompletionDiverges | internal/complete/complete.go:1651-1655 | a run of two completions in which the phase derived first is stored last |
| PhaseDivergence.PlanApprovalAgrees | internal/approve/plan.go:473-501 | the plan that plan approve stores agrees with its own children if and only if it superseded no lifecycle bead; otherwise they derive implement, or review |
| PhaseDivergence.ReapprovalDiverges | internal/approve/plan.go:392-398 | a run in which it does not: plan stored over derived implement |
| PhaseLiveness.CanQuiesce | internal/phase/phaselock.go:251-287 | after any run some further run without failures ends every verb under way: no deadlock |
| PanelLedger.AppendOne | internal/panel/ledger.go:321-374 | one record is appended, skipped as a repetition, or refused as a conflict |
| PanelLedger.ConflictsExactly | internal/panel/ledger.go:321-374 | refused are exactly a verdict whose sequence number has other bytes and a second substitute of one slot and round |
| PanelLedger.LastDispatched | internal/panel/ledger.go:596-632 | in a sound ledger an attempt's last status is dispatched exactly when it was dispatched and has no outcome |
| PanelLedger.DispatchBatchKeeps | cmd/mindspec/panel_checkout.go:225-253 | the dispatch batch keeps the ledger sound and leaves the new attempt the only dispatched one |
| PanelLedger.DispatchBatchFresh | cmd/mindspec/panel_checkout.go:225-274 | the batch of a dispatch is never refused as a conflict |
| PanelLedger.EndIsBetween | cmd/mindspec/panel_launch.go:136-204 | in a sound ledger there is an outcome of the first start between two process starts of a slot |
| PanelProtocol.StepKeepsInv | cmd/mindspec/panel_launch.go:275-383 | every step of every verb, a stop included, keeps ledger, locks and what each process relies on |
| PanelProtocol.AtMostOneDispatched | cmd/mindspec/panel_checkout.go:209-274 | in every reachable ledger at most one attempt per slot and round has last status dispatched |
| PanelProtocol.ProcessAttemptsAreSerial | cmd/mindspec/panel_launch.go:136-204 | a new process attempt starts only after the earlier one has its ending record, whatever stopped in between |
| PanelProtocol.AtMostOneSubstitution | cmd/mindspec/panel_launch.go:386-405 | one substitution per slot and round over all invocations |
| PanelProtocol.StepExtendsLedger | internal/panel/ledger.go:272-289 | no step shortens or rewrites the ledger |
| PanelProtocol.RemovalIsExclusive | cmd/mindspec/panel_checkout.go:396-530 | a slot directory loses an attempt only to a cleanup that holds every affected lock, with nobody else inside the slot |
| PanelProtocol.FailedCleanupReleases | cmd/mindspec/panel_checkout.go:396-530 | a cleanup that missed one lock removes nothing and gives back every lock |
| PanelProtocol.SecondDispatchRefused | cmd/mindspec/panel_checkout.go:254-273 | of two dispatches planned on one ledger the second is refused |
| PanelProtocol.BookkeepingNeverRefused | cmd/mindspec/panel_launch.go:330-383 | closing the lowest open orphan, registering a prepared attempt and recording an outcome are never refused as conflicts |
| PanelWrites.WritesAreJustified | cmd/mindspec/panel_launch.go:275-405 | every record any step adds is one it may add: a start only by the holder of the slot, in the current round, with a new number and nothing running; an outcome only by the attempt's own process, whoever closes it as an orphan, the dispatch that replaces it, the submission that settles it, or a recovery; a substitution only after a quota wall |
| PanelWrites.LaunchGuards | cmd/mindspec/panel_launch.go:275-405 | when each step of a launch is possible, in both directions: the current round, no open orphan, the next number, one retry after a malformed verdict, one switch after a quota wall |
| PanelWrites.DispatchGuards | cmd/mindspec/panel_checkout.go:209-274 | a dispatch commits if and only if round and ledger are those it planned on and its number is not reserved |
| PanelWrites.CleanGuards | cmd/mindspec/panel_checkout.go:396-530 | a cleanup takes exactly the free slots, and goes on to the orphans, past a slot and to the removals exactly when nothing failed and nothing runs |
| PanelWrites.SettleGuard | internal/panel/submit.go:170-223 | an outcome is settled if and only if the latest opened attempt was dispatched and has none |
| PanelWrites.RecoverGuard | cmd/mindspec/panel_recover.go:35-91 | recovered if and only if the latest process attempt has an outcome and nobody holds the slot |
| PanelWrites.StopReleases | cmd/mindspec/panel_checkout.go:396-530 | a verb can stop anywhere, and then exactly its locks are free and all else is as it was |
| PanelWrites.NextAttemptExactly | internal/panel/slotlayout.go:148-169 | the next number is above every number the slot has used, and directly above one of them if there is any |
| PanelVerbs.Slot.NextAttemptNumber | internal/panel/slotlayout.go:148-169 | one more than the highest number of the ledger and the slot directory |
| PanelVerbs.Slot.ReadAttempts | cmd/mindspec/panel_launch.go:145-152 | the two maps tell the open process attempts, and hold exactly the attempts opened |
| PanelVerbs.Slot.CheckProcessOrphans | cmd/mindspec/panel_launch.go:136-204 | closes exactly open attempts, all of them when it succeeds, and fails exactly when the attempts cannot be listed or a refused path, an unreadable pgid file, a supervisor or an append blocks one |
| PanelVerbs.Slot.DispatchRecords | cmd/mindspec/panel_checkout.go:225-253 | the batch is the closings of the dispatched attempts and the new dispatch |
| PanelVerbs.Slot.Submit | internal/panel/submit.go:56-228 | the same bytes reuse the latest record, other bytes get the next sequence number |
| PanelVerbs.SubmitExactly | internal/panel/submit.go:56-228 | nothing is written if and only if the bytes are those of the latest verdict; other bytes get the number after the highest of the slot |
| PanelVerbs.Slot.Pass | cmd/mindspec/panel_launch.go:297-383 | one pass is a run of the slot protocol; it records submitted, malformed or a quota wall exactly for a clean exit with an accepted verdict, a clean exit without, and an unclean exit with a quota signal, and a failed launch in all other cases |
| PanelVerbs.Slot.LaunchLoop | cmd/mindspec/panel_launch.go:296-419 | terminates, starts at most three processes, is a run of the protocol's own steps, succeeds exactly for the sequences of replies that call for it, with the final non-VOID verdict as the slot's latest submission, and substitutes only after an exit that was read, was not clean and carried a quota signal |
| PanelBudget.InvocationIsBounded | cmd/mindspec/panel_launch.go:296-419 | with steps of all other processes in between, one invocation retries once and switches to the substitute once at most, and starts at most one process more than both together |
| PanelVerbs.LaunchSucceedsExactly | cmd/mindspec/panel_launch.go:296-419 | in terms of the replies alone: a launch succeeds exactly at once, after one retry, after one substitution, or after both |
| PanelVerbs.SlotLocks.AcquireAll | cmd/mindspec/panel_checkout.go:468-497 | all-or-nothing: every affected lock, or the table as before, with every slot that failed, or the first whose path was refused |
| PanelVerbs.SlotLocks.ReleaseAll | cmd/mindspec/panel_checkout.go:469-473 | gives back exactly the locks taken |
| AdoptLattice.ScanBeads | internal/approve/adopt_lattice.go:405-476 | the running flags say whether any source is negative or failed, and which bead was first |
| AdoptLattice.EvaluateAdoptLattice | internal/approve/adopt_lattice.go:310-613 | over the constructors of remote, branches and landed merges: verified if and only if nothing is missing from main and something was consulted, negative or conflicting if and only if some consulted tip would still merge or bring content back; with the bead the message names |
| AdoptLattice.VerifiedExactly | internal/approve/adopt_lattice.go:310-613 | verified if and only if the remote tip, if there is a remote, and the work of every bead are in main, and there is a route |
| AdoptLattice.NegativeExactly | internal/approve/adopt_lattice.go:186-197 | negative or conflicting if and only if some consulted tip is a stale deletion or merges cleanly; conflicting exactly when the remote is positive and a bead is not |
| AdoptLattice.ErrorExactly | internal/approve/adopt_lattice.go:310-613 | without a negative source: an error if and only if a consulted read failed, or the landed merge of the first bead missing could not be looked up; coverage unavailable otherwise |
| AdoptLattice.CheckCoverage | internal/approve/adopt_lattice.go:523-613 | verified, or the class of the first uncovered branchless bead |
| AdoptLattice.ClassIsUnique | internal/approve/adopt_lattice.go:97-112 | exactly one of the five classes fits any evidence |
| AdoptLattice.FirstScanIsOrderIndependent | internal/approve/adopt_lattice.go:310-613 | verified or not, conflict, negative and first-scan errors do not depend on bead order |
| AdoptLattice.CoverageOrder | internal/approve/adopt_lattice.go:523-613 | past the first scan an order can end in an error, or in missing coverage, exactly when some gap is of that kind |
| Adopt.Epic.AdoptSpec | internal/approve/adopt.go:99-236 | gates, lattice, then the transition; every refusal leaves the durable state alone |
| Adopt.GatesExactly | internal/approve/adopt.go:99-208 | the gates pass if and only if there is a reason, the epic is in review or done, every lifecycle child is closed, the spec branch is gone, and no closed bead has a branch still to merge |
| Adopt.Epic.Finalize | internal/approve/adopt.go:376-464 | the four classifications of the durable state and the order payload, close, export, commit, marker under any fault |
| Adopt.Epic.FinalizeExportStage | internal/approve/adopt.go:474-486 | export, commit of that export, marker, each stopping where it fails |
| Adopt.OrphanIsNegative | internal/approve/adopt.go:296-333 | the orphan scan is a narrower gate: over the same beads the lattice refuses as negative too |
| Adopt.PayloadNeverChanges | internal/approve/adopt.go:376-464 | over every sequence of runs a written payload never changes |
| Adopt.RunsKeep | internal/approve/adopt.go:376-486 | the marker implies payload, closed epic and a committed export showing both; nothing changes before the payload |
| Adopt.CloseComesAfterPayload | internal/approve/adopt.go:340-375 | adopt closes the epic only with the payload durable |
| Adopt.FirstFinishedRunTerminates | internal/approve/adopt.go:376-486 | after any history the first undisturbed run ends in the terminal state, or refuses because it is already there or done otherwise |
| Adopt.AdoptedExactly | internal/approve/adopt.go:376-486 | after any history a run reports adopted exactly when it was let through and every step it took succeeded, and then everything durable is in its terminal state |
| Adopt.AuditIsOneWrite | internal/approve/adopt.go:416-437 | over every sequence of runs payload, done flag and stored phase done come together or not at all |
| Adopt.PayloadHasASource | internal/approve/adopt.go:416-437 | the payload is that of the first run whose audit write took effect |
| Adopt.MarksAreEarned | internal/approve/adopt.go:209-236 | a durable verified mark comes from a VERIFIED lattice, an attested one carries its own run's trigger |
| Adopt.ReportAgreesExactly | internal/approve/adopt.go:216-236 | the reported flag agrees with the durable mark if and only if the writing run had evidence of the same kind |
| Adopt.ResumedRunMayDisagree | internal/approve/adopt.go:404-417 | a run in which it does not |
| ImplApprove.IntersectIDs | internal/approve/impl.go:881-892 | the plan's ids that are lifecycle children, in plan order |
| ImplApprove.IntersectCounts | internal/approve/impl.go:881-892 | exactly the intersection, with the plan's multiplicities |
| ImplApprove.IntersectKeepsOrder | internal/approve/impl.go:881-892 | in the order of the plan |
| ImplApprove.RunWorktreeEnumerationLeg | internal/approve/impl.go:983-1038 | passes if and only if both listings read and every worktree of a closed bead is merged |
| ImplApprove.RunOrphanObligationGate | internal/approve/impl.go:925-969 | passes if and only if no orphan, worktrees merged, plan readable and every obligation settled |
| ImplApprove.RunGates | internal/approve/impl.go:222-500 | goes on if and only if the facts read as the row below says, with the exact allow-set; resumes exactly a closed, done epic whose branch is gone |
| ImplApprove.GatesExactly | internal/approve/impl.go:222-500 | the gates pass if and only if the epic is in review or done, its branch exists, every planned bead has status closed and is settled, there is no orphan, every worktree on the branch of a closed bead is merged, and every other check passed |
| ImplApprove.Epic.ApproveImpl | internal/approve/impl.go:572-714 | refuses before any write; refused, already landed and approved are each decided by the facts and the steps as written out, with every due write in the log |
| ImplApprove.WritesNeedGates | internal/approve/impl.go:438-500 | nothing durable is written unless the facts pass every gate, but for the resumed publication of a closed, done epic; a close, a done mark or a finalize never without them |
| ImplApprove.OrderOfWrites | internal/approve/impl.go:572-714 | done after close, finalize once and after done with the exact allow-set, overrides only after finalize succeeded, each write only if called for |
| ImplApprove.DoneImpliesClosed | internal/approve/impl.go:572-620 | over every sequence of runs an epic marked done is closed |
| FinalizePr.ClassifyFinalizePREntries | cmd/mindspec/finalize_pr.go:316-333 | the last open match, else the first match; the first row of another base |
| FinalizePr.CandidateIsUnique | cmd/mindspec/finalize_pr.go:316-333 | the choice depends on the rows alone |
| FinalizePr.CandidateExactly | cmd/mindspec/finalize_pr.go:316-333 | in terms of the rows: the last open match, or the first match when none is open |
| FinalizePr.MergeRecognised | cmd/mindspec/finalize_pr.go:301-333 | a merged row is recognised exactly when no match is open and it is the first match |
| FinalizePr.ClosedRowHidesMerge | cmd/mindspec/finalize_pr.go:301-333 | rows in which a closed match hides a merged one |
| FinalizePr.PickReconcileEntry | cmd/mindspec/finalize_pr.go:288-299 | the first open row, else the first merged one |
| FinalizePr.WaitForGreenChecks | cmd/mindspec/finalize_pr.go:387-432 | terminates as time passes, and is green only on a non-empty all-green reply |
| FinalizePr.DegradeAndReconcile | cmd/mindspec/finalize_pr.go:262-283 | exactly one query after a failed leg, then at most a refresh |
| FinalizePr.RunAutomation | cmd/mindspec/finalize_pr.go:170-240 | every run's trace is legal and ends only where nothing called for is left undone |
| FinalizePr.EndsExactly | cmd/mindspec/finalize_pr.go:170-283 | the ways a run can end, by its last event: with merging on never right after a PR was opened or while checks run or are all green |
| FinalizePr.MergeIsJustified | cmd/mindspec/finalize_pr.go:170-240 | at most one merge, with both flags on, on a created or adopted open PR, right after an all-green reply |
| FinalizePr.CreateIsJustified | cmd/mindspec/finalize_pr.go:170-240 | a PR is created only after a lookup with no open row, no merged first match, and no row of the head against another base alone |
| FinalizePr.RefreshIsJustified | cmd/mindspec/finalize_pr.go:170-283 | the main branch is refreshed only right after a merge was seen |
| FinalizePr.EveryFailureReconciled | cmd/mindspec/finalize_pr.go:170-283 | as many reconcile queries as failed legs, each right after one |
| FinalizePr.InertWithoutAutoOpen | cmd/mindspec/finalize_pr.go:170-180 | with auto-open off nothing is done |
| Claims.Bead.RunRelease | cmd/mindspec/release.go:316-411 | dirty check, removal, cursor read, set-open, sync: the state after a stop at any step |
| Claims.Bead.RunClaim | cmd/mindspec/next.go:285-349 | gate, marker, claim, rollback: the state after a failure at any step |
| Claims.OpenedOnlyWithoutWorktree | cmd/mindspec/release.go:364-400 | over every sequence of releases an opened bead has no worktree left |
| Claims.ReleaseConverges | cmd/mindspec/release.go:364-400 | after any history one undisturbed release leaves the bead open and the worktree gone |
| Claims.SyncedAtMostOnce | cmd/mindspec/release.go:133-157 | the phase is synced at most once per claim |
| Claims.SyncedExactly | cmd/mindspec/release.go:133-157 | it is synced if and only if the first run whose set-open took effect saw the reply and read the cursor |
| Claims.InsistedClaim | cmd/mindspec/next.go:300-324 | success means marker durable and bead claimed; a refusal changes nothing |
| Claims.OrphanedMarkerExactly | cmd/mindspec/next.go:324-349 | a failed insisted claim leaves a marker if and only if its write took effect and no rollback did |
| Claims.LostReplyOrphansMarker | cmd/mindspec/next.go:316-318 | an input for which one is left |
| Claims.ClaimedWithoutMarkerExactly | cmd/mindspec/next.go:324-349 | a failed insisted run leaves the bead claimed without its marker if and only if the claim took effect unseen and the rollback worked |
| Claims.MarkerIsOfLastClaim | cmd/mindspec/next.go:300-349 | over every history of claims and releases the marker is that of the last insisted claim that wrote or rolled one back |
| Claims.StatusIsOfLastStep | cmd/mindspec/release.go:364-400 | and the status that of the last claim or release that took effect |
| Claims.MarkerOnUnclaimedBeadExactly | internal/next/ready_gate.go:254-266 | an override marker sits on an unclaimed bead if and only if the last marker step left it and no claim took effect after the last release that did |
| Claims.ReleaseLeavesMarker | cmd/mindspec/release.go:364-411 | an insisted claim and a release that both succeed leave one |
| Claims.RollbackErasesEarlierMarker | internal/next/ready_gate.go:254-275 | the rollback erases an earlier marker too; the bead is as before if and only if it had none and the failed claim did not move it |
| Metadata.IssueStore.GetMetadata | internal/bead/bdcli.go:483-506 | the stored map, empty when absent, an error when the read fails |
| Metadata.IssueStore.MergeMetadata | internal/bead/bdcli.go:388-423 | old map plus updates, every unrelated key kept, nothing written after a failed read |
| Metadata.IssueStore.DeleteMetadataKeys | internal/bead/bdcli.go:440-473 | removes exactly the named keys, writes nothing when none is there, refuses unusable names |
| Metadata.ValidKeys | internal/bead/bdcli.go:440-473 | a usable name is not empty, has no leading hyphen and no white space |
| Metadata.DeleteUndoesMerge | internal/bead/bdcli.go:425-473 | deleting the merged keys restores the map if and only if none of them was there |
| Metadata.RacedWriteSurvives | internal/bead/bdcli.go:376-423 | exactly when another writer's value survives an unlocked merge that read before it |
| Metadata.SequentialMergesAgree | internal/bead/bdcli.go:425-430 | without a race the replacing and the merging reading of the update command agree |
| Clarify.ValidateAttemptRecord | internal/bead/clarify.go:145-197 | accepted if and only if the report is well formed and the clarifications are in one-to-one correspondence with it, reasons verbatim |
| Clarify.AcceptableExactly | internal/bead/clarify.go:145-197 | the correspondence in terms of the entries: ordinals from one, signals SR-1 to SR-5, visible texts, and each side repeating the other |
| Clarify.EqualCounts | internal/bead/clarify.go:145-197 | hence equally many |
| Clarify.WriteAttemptRecord | internal/bead/clarify.go:115-140 | one write, only of an acceptable record on a bead without one |
| Clarify.RecordStays | internal/bead/clarify.go:72-140 | over any calls a record that is there stays |
| Clarify.FirstRecordKept | internal/bead/clarify.go:72-140 | the record kept is that of the first call that stored, and nothing else changes |
| LifecycleGate.ReadLedger | internal/panel/ledger.go:243-259 | all lines, or none if any one is refused |
| LifecycleGate.LifecycleRegistrations | internal/approve/lifecycle_gate.go:159-179 | the registrations attributed by snapshot, by the latest round of a readable ledger, or broken beyond attribution |
| LifecycleGate.LatestRoundExactly | internal/approve/lifecycle_gate.go:159-179 | the latest round is the last round line of the ledger |
| LifecycleGate.SafeFromEditsExactly | internal/approve/lifecycle_gate.go:159-179 | every edit of its snapshot leaves a panel attributed if and only if its ledger is readable and its latest round is of the gate |
| LifecycleGate.EditedSnapshotExactly | internal/approve/lifecycle_gate.go:159-179 | when a panel with an edited snapshot is still among the registrations consulted |
| LifecycleGate.RunLifecycleGate | internal/approve/lifecycle_gate.go:49-157 | passes if and only if the gate is off, skipped, or every attributed registration lets it pass, with the exact outcome |
| LifecycleGate.OutcomeExactly | internal/approve/lifecycle_gate.go:49-157 | what a pass is recorded as: skipped, absent and abandoned each exactly when it was |
| LifecycleGate.PassesExactly | internal/approve/lifecycle_gate.go:82-156 | in terms of the panels scanned: all attributed ones pass, and one is attributed if presence is enforced |
| LifecycleGate.PassesUnconsulted | internal/approve/lifecycle_gate.go:49-82 | before any panel is looked at: off or skipped passes, an unreadable config or a missing directory refuses |
| LifecycleGate.FirstLiveExactly | internal/approve/lifecycle_gate.go:82-156 | the panel named as live is the first not waved through |
| LifecycleGate.EditCannotUnblock | internal/approve/lifecycle_gate.go:82-156 | a panel with a readable ledger and its latest round here must itself let the gate pass, whatever its snapshot says |
| LifecycleGate.EditUnblocks | internal/approve/lifecycle_gate.go:166 | an input with one refused line for which an edit of the snapshot opens a blocked gate |
| LifecycleGate.PassIsOrderIndependent | internal/approve/lifecycle_gate.go:82-156 | the scan order makes no difference to passing |
| LifecycleGate.PassWithoutLivePanel | internal/approve/lifecycle_gate.go:83-156 | a gate passes without a live panel exactly when none is needed or all attributed ones are intact and abandoned |
| Obligations.CollectPlanDeferralIDs | internal/approve/document_gate.go:49-73 | exactly the deferrals of this spec whose latest round before them is a spec-approve round of it |
| Obligations.ObligedExactly | internal/approve/document_gate.go:49-73 | obliged if and only if a spec-approve round of the spec, no other round after it, and then the deferral are in the lines |
| Obligations.AppendKeepsObligations | internal/approve/document_gate.go:49-73 | appending to a ledger takes no obligation back |
| Obligations.SpecPlanDeferralIDs | internal/approve/document_gate.go:32-47 | everything due in the attributed panels' ledgers and the tracked ones, or a refusal if one of them does not read |
| Obligations.DueExactly | internal/approve/document_gate.go:32-47 | due if and only if deferred in the ledger of an attributed panel or in a tracked ledger |
| Obligations.EditCannotDropObligations | internal/approve/document_gate.go:32-47 | what a readable ledger whose latest round is a spec-approve round deferred stays due, whatever its snapshot says |
| Obligations.OnlySourceExactly | internal/approve/document_gate.go:32-47 | an obligation with one panel as its source is owed, or the approval refused, if and only if the panel is attributed |
| Obligations.LostAttributionDropsObligation | internal/approve/lifecycle_gate.go:166 | an input with one refused line for which an edit of the snapshot drops an obligation |
| Obligations.RecordedPlanDeferralIDs | internal/approve/document_gate.go:84-102 | the recorded list, or an error for anything but non-empty strings |
| Obligations.SpecEpic.RecordAudit | internal/approve/lifecycle_gate.go:307-336 | one merge-write; an empty list leaves the obligations alone |
| Obligations.AuditKeysExactly | internal/approve/lifecycle_gate.go:307-336 | which keys the audit writes and with what values |
| Obligations.SpecEpic.Approve | internal/approve/spec.go:95-174 | loses no recorded obligation whatever fails, records every due one on success, invents none |
| Obligations.ObligationsGrow | internal/approve/spec.go:95-122 | over every sequence of approvals the recorded obligations only grow |
| Obligations.ObligationsHaveASource | internal/approve/spec.go:95-122 | every recorded id was there at the start or due in some run |
| Obligations.AcceptedMustBeNamed | internal/approve/document_gate.go:104-134 | what one successful approval accepted every later passing plan names |
| Obligations.Words | internal/approve/document_gate.go:190-199 | the words are the whole tokens of the text |
| Obligations.ResolutionNamesID | internal/approve/document_gate.go:190-199 | true if and only if the id is a whole token |
| Obligations.NamesExactly | internal/approve/document_gate.go:190-199 | a token is the id standing alone: no letter, digit, hyphen or underscore on either side |
| Obligations.NamableIds | internal/approve/document_gate.go:190-199 | exactly the non-empty ids of token characters can be named |
| Obligations.CheckPlanResolutions | internal/approve/document_gate.go:108-134 | passes if and only if every id of the union is named; else lists exactly the missing ones |
| DocGate.DeclaringMergeBead | internal/approve/doc_declarations.go:151-163 | some bead bound by both recorded ids, or none when none is |
| DocGate.FoldLanded | internal/approve/doc_declarations.go:82-120 | exempt if and only if touched and every touching step was taken for a declaring bead; landed docs likewise |
| DocGate.ExemptExactly | internal/approve/doc_declarations.go:82-120 | exempt in terms of the steps: some source touched, and every step touching it taken for a bead that declared it |
| DocGate.StillOpenExactly | internal/approve/doc_declarations.go:121-147 | open if and only if some domain of a deferral on its own source bead landed in no step taken for its owner |
| DocGate.DeclaredExactly | internal/approve/doc_declarations.go:41-70 | exactly the complete rows with a reason that is not blank declare |
| DocGate.GatherRecords | internal/approve/doc_declarations.go:41-70 | declarations, landings and own deferrals of exactly the epic's beads, or a refusal |
| DocGate.ImplDocGate | internal/approve/doc_declarations.go:38-147 | decided exactly when everything reads; a deferral closes if and only if each domain landed for its owner |
| DocGate.OrderIndependent | internal/approve/doc_declarations.go:82-163 | with unambiguous bindings the result depends only on which steps landed |
| DocGate.ExemptPossible | internal/approve/doc_declarations.go:151-163 | a domain can come out exempt if and only if every touching step has a declaring bead bound to it |
| DocGate.RefusalPossible | internal/approve/doc_declarations.go:151-163 | it can come out refused if and only if untouched or some touching step has a bound bead that did not declare, or none |
| DocGate.AmbiguousBindingIsUndetermined | internal/approve/doc_declarations.go:151-163 | an input for which both come out |
| Deferral.Walk | internal/bead/deferral.go:67-99 | terminates on every finite store; accepts if and only if no chain of parent edges reaches the epic, every ancestor reads, and each is reached by one chain |
| Deferral.CheckDeferral | internal/bead/deferral.go:55-126 | accepted if and only if all requirements hold, written out over the fields of the issues; edge and text shortfalls reported together |
| Deferral.AncestryExactly | internal/bead/deferral.go:67-99 | the ancestry accepted, over ids linked by the fields of their issues: no chain ends in the epic or in an unreadable id, and none ends where another does |
| Deferral.ParentsExactly | internal/bead/deferral.go:87-91 | the parents of an issue are its parent field and its other parent-child dependencies, each as often as named |
| Deferral.ChildrenOfEpicAreInside | internal/bead/deferral.go:67-99 | a bead that depends on the epic as a child, or has an ancestor that does, is never accepted |
| Deferral.AncestryIsFinite | internal/bead/deferral.go:67-99 | above an accepted bead every chain is shorter than the store |
| EditDistance.Levenshtein | cmd/mindspec/root.go:156-178 | the two rows compute the recursive distance |
| EditDistance.IsApproveNearMiss | cmd/mindspec/root.go:148-154 | near if and only if at most two single edits lead to approve |
| EditDistance.ShortestScript | cmd/mindspec/root.go:156-178 | the distance is the length of a shortest edit script |
| EditDistance.NoShorterScript | cmd/mindspec/root.go:156-178 | no script is shorter |
| EditDistance.Symmetric | cmd/mindspec/root.go:156-178 | symmetric |
| EditDistance.ZeroExactlyWhenEqual | cmd/mindspec/root.go:156-178 | zero only for equal inputs |
| EditDistance.Triangle | cmd/mindspec/root.go:156-178 | triangle inequality |
| AdrText.SplitTopLevel | internal/adr/parse.go:155-178 | the scan computes the depth-aware split |
| AdrText.JoinSplit | internal/adr/parse.go:143-178 | joining with commas restores any text |
| AdrText.SplitJoinExact | internal/adr/parse.go:143-178 | splitting a join restores the parts if and only if no part has a top-level comma and all but the last end at depth zero |
| AdrText.NoBracketsIsNaive | internal/adr/parse.go:149-154 | without opening brackets it is the plain split |
| AdrText.BracketsProtect | internal/adr/parse.go:143-178 | each of the three brackets protects the commas up to a closing one of any kind |
| AdrText.DeriveSlug | internal/adr/create.go:36-60 | the runs of letters and digits, hyphenated and capped |
| AdrText.RunsExactly | internal/adr/create.go:36-50 | the words of a title are those of the texts on both sides of any other character, in order |
| AdrText.SlugIsKebab | internal/adr/create.go:26-60 | empty or kebab, at most 48 characters |
| AdrText.SlugFixesKebab | internal/adr/create.go:26-60 | a valid slug within the cap is its own slug |
| AdrText.SlugIsIdempotent | internal/adr/create.go:26-60 | deriving twice changes nothing |
| AdrText.HyphenatedIsKebab | internal/adr/create.go:18-24 | every hyphenated list of words is kebab |
| AdrText.KebabIsHyphenated | internal/adr/create.go:18-24 | every kebab string is the hyphenation of its words: the pattern, in both directions |
| AdrText.KebabExactly | internal/adr/create.go:18-24 | the pattern in terms of characters: ASCII lower-case letters and digits with single hyphens between |
| AdrText.CapKeepsWholeWords | internal/adr/create.go:52-58 | the cap ends at a word boundary if and only if a hyphen is within reach |
| AdrText.CapExactly | internal/adr/create.go:52-58 | at most 48 characters stay; a longer slug is cut at the last hyphen among them, or at 48 |
| AdrText.LongWordIsCut | internal/adr/create.go:52-58 | a word of 49 letters is cut |
| AdrText.ResolveSlug | internal/adr/create.go:70-86 | no override derives, a trimmed kebab or empty one is taken, any other is refused |
| AdrText.TrimExactly | internal/adr/create.go:70-86 | trimming takes exactly the white space at both ends |
| AdrText.DerivedSlugIsAccepted | internal/adr/create.go:70-86 | a derived slug passes unchanged as an override |

## Left out

- PhaseProtocol.QuiescentAgreement: says nothing about a run that lost a synchronising section, stored an outdated phase derived before the lock, changed the derived phase in a step no section follows, or ended the epic, because the code leaves those apart; `PhaseDivergence` says when it does, and the first is what `repair phase` is for.
- PhaseDivergence.LateStoresExactly: runs of completions, reconciliations and the heals before them; a claim or release in between has a section of its own that can repair a late store, so no condition on late stores alone decides those runs.
- PhaseProtocol.StepKept: the audit writes of `MergeMetadata` outside the phase lock are not steps of the interleaving; `Metadata.RacedWriteSurvives` says what such a race does.
- PanelVerbs.Slot.CheckProcessOrphans: process groups, exit files and the digests of an outcome record are not modelled; each obstacle is a set of attempt numbers, and an append that fails appends nothing.
- PanelVerbs.Slot.LaunchLoop: its result is stated for a run of its own steps, since the slot lock keeps other launches of the slot out; what holds with all other steps in between is `PanelBudget.InvocationIsBounded` and the invariants of `PanelProtocol`.
- PanelVerbs.Slot.Submit: verdict parsing, hygiene checks and landed bindings are not modelled; the environment says which bytes were accepted.
- PanelProtocol.RemovalIsExclusive: which slots a cleanup affects is a parameter; prune, worktree removal and ignore rules are not modelled.
- Obligations.SpecEpic.Approve: the order of the recorded id list is not modelled, since only membership is ever read; nor are the spec file rewrite and its commit.
- Obligations.CheckPlanResolutions: which tracked files are ledgers of the spec, and the Markdown text that counts as Resolutions, are inputs.
- DocGate.ImplDocGate: how a diff becomes a doc impact and how exemptions filter the doc check belong to the validate package and are inputs.
- Adopt.Epic.AdoptSpec: two live adopts at once are not modelled, because the classifying read is outside the lock; nor are the refusal texts.
- ImplApprove.Epic.ApproveImpl: an empty epic id counts as not found, checks of other packages are passed-or-not inputs, finalize and the resumed publication are one step each that succeeds or not, and the migration before the gates writes only the phase.
- FinalizePr.RunAutomation: leg timeouts are failed legs; titles, bodies and printed output are not modelled.
- Claims.Bead.RunClaim: selection, worktree creation and recording markers after the claim are not modelled; the phase advance is in `PhaseProtocol`.
- Deferral.CheckDeferral: id validation and JSON decoding are folded into whether an issue can be read; the recovery text is not modelled.
- AdrText.DeriveSlug: lower-casing is any map of characters to characters that leaves slugs alone.
- EditDistance.IsApproveNearMiss: takes the name already lower-cased.
- Panel create and abandon appear only as a change of round; config, doctor, report, prompts and message rendering are left out as formatting.
- Filtering of merged overlay listings and the spec file section rewrite are left out: they would only add easy members.
