# Verified model of bbpipeline

A Dafny 4.11 model of the decision-making core of bbpipeline, with proofs of what it guarantees. `dafny verify dfyconfig.toml` checks all of it.

bbpipeline runs scanners and language models against bug-bounty programs, and most of what it promises is about what must *not* happen: nothing runs for a program whose scope has not been approved by a person, nothing is requested outside that scope or faster than allowed, no job or scheduled run is lost or done twice, no finding is submitted without a recorded verification and a human's validation. These are promises about whole runs of functions that write the same tables, so the model is a set of state machines with theorems over every run, and a few algorithms with theorems over every input.

| module | what it models |
|---|---|
| Common | sorting, sets as sorted lists, order on strings |
| LeaseQueue, WorkerProtocol, BackoffSchedule | the job queue; any number of workers, API cancels and crashes working on it; the retry backoff as a schedule |
| Scheduler, ScheduleRuns | one scheduler tick over cron schedules with jitter; sequences of ticks under edits, pauses and re-adds |
| ApprovalGate, GateRuns, ConfigFiles | the two writers of the program and source tables; their interleavings; manifest hashes and duplicate files |
| GateMeaning, ScopeMeaning, ScheduleMeaning, EventMeaning | what the gate, the scope decision, a tick and an ingestion decide, told in columns, fields and settings alone |
| Cidr, Scope, Seeds, NucleiTargets | address blocks, the scope decision, seed targets, the expanded target list of a Nuclei run |
| Plans, Verifier | the plan compiler and the HTTP verifier it must agree with |
| Events, Findings, FindingRuns | the event index; the finding lifecycle and its human gate |
| ApprovedRequests | from the approval gate to the requests of a verification job |
| DedupeKeys | the dedupe keys as stored text |
| Packets, PacketLaws | fitting a packet under its byte ceiling |
| Candidates | reading a platform's scope and drafting a manifest from it |

Classes (`JobQueue`, `SchedulerTables`, `GateTables`, `EventTables`, `FindingDesk`, `PacketBuffer`) hold the tables and are updated in place by methods that follow the source branch by branch; each method is proved against a function or a relation of the old state, and the run theorems are proved about those. Runs are sequences of states and steps; each short transaction is one step. The one long transaction, a worker's, is split in two: the check of the lease, and the completion written later without looking again.

What comes from outside is a parameter: clocks (integers, or reals in the verifier), DNS answers, fetch results, language-model answers, `urlsplit`, `fnmatch`, IDNA normalization, redaction, scoring, the cron iterator and the digests. Assumptions about them are named predicates in the `requires` of the theorems that need them: digests are injective (`Injective`, `DigestsAreInjective`), a cron expression is a strictly increasing sequence of instants (`IsCalendar`), two rules of a manifest that differ only in case or trailing dots are read alike (`NormalizesHosts`, `ReadAlike`), a URL joined from scheme, host and plain path splits into them again (`JoinReadsBack`), an address is written so that it reads back (`WritesAddresses`), row ids hold no colon and, like instants, are written injectively (`Faithful`).

Claims one might expect of the code and that are false are here as what the code does instead: a run or a family of inputs that breaks the claim, and the exact condition under which it fails.

* `attempts <= max(1, max_attempts)`: `ExpiriesOutrunTheLimit`, `OverrunsTheLimitExactlyWhen`.
* Only the lease holder fails or completes a job: `StaleHandlerFailsAnotherLease`, `StaleCompletionTakesAnotherLease`, `WritesAnothersLeaseExactlyWhen`; until an expiry it is true, `ExclusiveUntilExpiry`.
* Cancelled jobs stay cancelled: `CancelledJobCompletes`, `CancelUndoneOnlyByLateCompletion`.
* A source with status `approved` has been approved by a person: `ApprovedStatusIsNotHumanApproval`, `ApprovedWithoutPersonExactlyWhen`, `ApprovedExactlyWhenGranted`.
* A submitted finding has status `submitted`: `SubmittedStatusGetsLost`, `SubmittedStatusIsLostExactlyWhen`.
* A rejected finding cannot be validated: `RejectedFindingGetsValidated`, `ValidationIgnoresStatus`.
* Every recorded verification gets a critic: `SecondVerificationGetsNoCritic`, `CriticIsQueuedOnce`.
* An authorized block contains no excluded address: `AllowedBlockCanHoldExcludedAddress`, `AllowedBlockVersusExclusion`; the Nuclei expansion does exclude them, `SelectedHostsAvoidExclusions`.
* A candidate manifest still excludes everything the stored one excluded: `MergedExclusionCanLapse`, `MergedExclusionsStillExclude`; for one replaced rule, `ReplacementCoversExactlyWhen`.

Where the documentation promises more than the code keeps, the model follows the code. Jobs do not only retry up to their attempt limit (docs/OPERATIONS.md:101), since every expired lease adds an attempt. Exclusions do not always win (docs/PROGRAM-ONBOARDING.md:81) over an included block that contains them, nor over a fetched rule that displaces them under the same key.

## Model

| member | source | states |
|---|---|---|
| LeaseQueue.JobQueue.Enqueue | bbpipeline/queue.py:16-51 | a dedupe key already in the table returns its row and inserts nothing; otherwise exactly one row is appended, pending, with no attempt and no lease, due at once unless a later time is given; an empty key that is taken is an integrity error; keys stay unique |
| LeaseQueue.JobQueue.RequeueExpired | bbpipeline/queue.py:54-71 | a row changes exactly when it is running on a lease that ended before now; it is then claimable from now on, with the same identity and attempts; no expired lease is left, and the number returned is that of the rows changed |
| LeaseQueue.JobQueue.Claim | bbpipeline/queue.py:74-106 | after expired leases are returned, takes a ready row of the worker's queues that nobody has locked, such that none of these has a higher priority and none of the same priority is older; the row is running, its attempts one more, its lease the worker's until now plus the lease time; takes nothing only when nothing is ready |
| LeaseQueue.JobQueue.Complete | bbpipeline/queue.py:109-116 | whatever the row was, it ends completed with no lease, keeps its identity and attempts, and can never be claimed or expire again; no other row changes |
| LeaseQueue.JobQueue.Fail | bbpipeline/queue.py:118-129 | the lease is given up; with attempts left the job is pending until its delay is over, otherwise it is failed and completed now; identity and attempts stay |
| LeaseQueue.JobQueue.Cancel | bbpipeline/queue.py:132-139 | the row changes exactly when it is not terminal, and then is cancelled with no lease and the same identity and attempts; either way it can never be claimed or expire again, and no other row changes |
| LeaseQueue.CountExpiredIsChangedRows | bbpipeline/queue.py:54-71 | the count returned is the number of rows that really changed |
| LeaseQueue.SelectNextCorrect | bbpipeline/queue.py:84-96 | the row selected is selectable and no selectable row precedes it |
| WorkerProtocol.ClaimIsTwoSteps | bbpipeline/queue.py:74-106 | a claim of the queue is an expiry step followed by a claim step of the protocol |
| WorkerProtocol.WorkerSteps | bbpipeline/workers.py:254-269 | what a check, a completion and a failure handler do in the columns they touch: processing goes on exactly when the row is running under the worker's own name |
| WorkerProtocol.JobsArePermanent | bbpipeline/queue.py:16-139 | no row is ever deleted, and queue, kind, priority, limit, key and creation time never change |
| WorkerProtocol.DedupeKeysArePermanent | bbpipeline/queue.py:38-48 | a dedupe key names one and the same job at any two moments of a run |
| WorkerProtocol.LeaseExactlyWhileRunning | bbpipeline/queue.py:54-139 | in every reachable state a job has an owner and an expiry time exactly when it is running |
| WorkerProtocol.TerminalIsForever | bbpipeline/queue.py:74-139 | completed, failed and cancelled are closed under every step, stale workers included, and such a job is never claimed again |
| WorkerProtocol.ClaimsAreSeparated | bbpipeline/workers.py:239-269 | between two claims of one job lies an expiry or a retry of that job |
| WorkerProtocol.AttemptAccounting | bbpipeline/queue.py:99-129 | over every run attempts equal claims, retries + expiries <= claims <= retries + expiries + 1, and retries stay below max(1, max_attempts) |
| WorkerProtocol.ClaimsAreBounded | bbpipeline/queue.py:99-129 | claims never exceed max(1, max_attempts) plus expiries |
| WorkerProtocol.OverrunsTheLimitExactlyWhen | bbpipeline/queue.py:54-71 | in every run a job exceeds max(1, max_attempts) exactly when a lease of it ran out after its last allowed attempt and it was claimed again since |
| WorkerProtocol.ExpiriesOutrunTheLimit | bbpipeline/queue.py:54-71 | a run in which a job with one allowed attempt makes two |
| WorkerProtocol.MeasureDecreases | bbpipeline/workers.py:239-269 | without expiries a measure bounded by 2 max(1, max_attempts) + 1 falls with every change of a live job, so processing ends |
| WorkerProtocol.ExclusiveUntilExpiry | bbpipeline/workers.py:239-262 | until a lease of the job runs out at most one process is engaged with it, under its own lease or on a cancelled job |
| WorkerProtocol.CompletionLandsOnOwnLease | bbpipeline/workers.py:254-262 | until then a completion written without looking lands on the worker's own row or on a cancelled one |
| WorkerProtocol.CancelUndoneOnlyByLateCompletion | bbpipeline/workers.py:254-262 | the only step that undoes a cancel is a completion already past its lease check, and it makes the job completed |
| WorkerProtocol.CancelledJobCompletes | bbpipeline/workers.py:254-262 | a run in which a cancelled job ends completed |
| WorkerProtocol.WritesAnothersLeaseExactlyWhen | bbpipeline/workers.py:254-269 | in every run a completion or a failure handler changes a row leased to another owner exactly when the row is running under another owner name, the test made before processing and not again; a lease of the job has then run out before, and the other owner loses its lease |
| WorkerProtocol.StaleHandlerFailsAnotherLease | bbpipeline/workers.py:263-269 | a run in which the handler of a worker takes a row that is leased to another owner, who is processing it |
| WorkerProtocol.StaleCompletionTakesAnotherLease | bbpipeline/workers.py:254-262 | a run in which the late completion of a worker does |
| WorkerProtocol.ExclusionEndsWithAnExpiry | bbpipeline/workers.py:239-262 | a run with a single expiry that ends with two workers past their checks on one job |
| BackoffSchedule.BackoffShape | bbpipeline/queue.py:122-123 | the delay never falls as attempts grow, lies within 30 and 3600 seconds, and is the ceiling exactly from the eighth attempt on |
| BackoffSchedule.BackoffDoubles | bbpipeline/queue.py:122-123 | the delay is half a minute after the first attempt, doubles with each further one up to the seventh, and is an hour from the eighth on |
| BackoffSchedule.TotalBackoffClosedForm | bbpipeline/queue.py:122-123 | n delays sum to 30 (2^n - 1) for n <= 7 and to 3810 + 3600 (n - 7) after |
| BackoffSchedule.WaitOverARun | bbpipeline/queue.py:118-129 | over every run the total wait of a job equals that sum when no lease ran out, and otherwise lies between it and 3600 per retry |
| Scheduler.JitterStaysInSlot | bbpipeline/scheduler.py:34-44 | the jittered run lies in its own slot and at most the configured jitter after the slot opens |
| ScheduleMeaning.JitteredRunIs | bbpipeline/scheduler.py:34-44 | the jitter is the digest, in seconds, modulo one more than the smaller of the configured jitter and a second under the slot |
| Scheduler.NextRunInOwnSlot | bbpipeline/scheduler.py:34-44 | the next run lies in the first slot that opens after the given instant |
| Scheduler.SchedulerTables.EnqueueDue | bbpipeline/scheduler.py:47-80 | one dedupe key per due job; for a repository scan one per repository without a wildcard |
| Scheduler.SchedulerTables.TickEntry | bbpipeline/scheduler.py:134-158 | fires exactly when the stored expression is current and its run is due, under the stamp that was pending |
| Scheduler.SchedulerTables.Tick | bbpipeline/scheduler.py:83-167 | after a tick every active schedule has taken its own step, every other state is gone, and exactly the jobs of due schedules were enqueued and counted |
| ScheduleMeaning.EntriesMeaning | bbpipeline/scheduler.py:112-136 | the schedules acted on are exactly those of stored manifests that validate, with a valid expression and a kind that the manifest switches on |
| ScheduleMeaning.DueJobsMeaning | bbpipeline/scheduler.py:47-80 | the jobs enqueued are one per schedule whose stored expression is current and whose run is due, stamped with that run, or one per exact repository |
| ScheduleMeaning.CountFiresMeaning | bbpipeline/scheduler.py:154-160 | the number returned is that of the schedules that were due |
| ScheduleMeaning.StateAfterTick | bbpipeline/scheduler.py:137-160 | a new, edited or fired schedule is set to the first run after now, the last run is stamped only by a fire, any other state stays |
| ScheduleMeaning.OtherStatesAreDeleted | bbpipeline/scheduler.py:161-165 | the state of every schedule that is not acted on is deleted |
| ScheduleMeaning.ExactRepositoriesMeaning | bbpipeline/scheduler.py:55-60 | the repositories of a scan are the repository rules without a wildcard |
| ScheduleRuns.FiredRunIsInASlot | bbpipeline/scheduler.py:124-165 | every run fired is due and lies in a slot of the expression it is fired under |
| ScheduleRuns.StampsIncreaseSlotBySlot | bbpipeline/scheduler.py:124-165 | stamps of one program and kind strictly increase and a later run's slot opens after the earlier run was fired, so no slot fires twice, through edits, pauses and re-adds |
| ScheduleRuns.QueuedKeysWereFired | bbpipeline/scheduler.py:47-80 | every dedupe key in the queue was put there by a fire of its program and kind with its stamp |
| ScheduleRuns.FiresAreNeverSwallowed | bbpipeline/scheduler.py:47-80 | no dedupe key of a fire has ever been used before, so the permanent keys of the queue swallow no scheduled run |
| ScheduleRuns.EverySlotFiresOnceInOrder | bbpipeline/scheduler.py:124-165 | from the tick that takes a schedule up, because it is new, re-added or edited, its slots fire each exactly once and in order as long as it stays unchanged and some tick falls between each run and the next slot |
| ApprovalGate.GateTables.PauseProgram | bbpipeline/platform_sync.py:75-98 | a known program is inactive with the reason, an unknown one is ignored |
| ApprovalGate.GateTables.SyncPlatformSource | bbpipeline/platform_sync.py:101-310 | refuses a source whose identity changed and changes nothing; otherwise only this source's row and its program's activity change, as the fetch result dictates, and the report says what happened |
| GateMeaning.StatusAfterFetch | bbpipeline/platform_sync.py:133-283 | a sync leaves a source approved exactly when a candidate was built and the stored manifest names the revision, auth_error exactly when the fetch was refused, also by data of a cookie collector, error when no candidate could be built or nothing was fetched within the window, and otherwise as it was; the program is paused for the matching reason or not touched |
| GateMeaning.SourceRowAfterFetch | bbpipeline/platform_sync.py:110-250 | the other columns: identity and all other sources stay; a fetched snapshot renews revision, success time, candidate and error, and the change time only when the revision changed; a failure keeps them and records the error |
| ApprovalGate.GateTables.SyncLoaded | bbpipeline/programs.py:30-91 | one manifest is stored, activated or paused with the reason that ranks first, and its source marked when active |
| ApprovalGate.GateTables.PauseInvalid | bbpipeline/programs.py:111-136 | a file that does not load pauses the known program it declares, and only that one; it counts as seen either way |
| ApprovalGate.GateTables.SyncPrograms | bbpipeline/programs.py:22-158 | after the three loops every program and source row is a function of the rows before and of the file that declares it, not of the order of files; each touched program is reported once |
| ApprovalGate.LoadedFoldIsPointwise | bbpipeline/programs.py:30-91 | the first loop, though it approves sources as it goes, judges every manifest by the sources as they were before it |
| ApprovalGate.GateReasonIgnoresOthers | bbpipeline/platform_sync.py:39-63 | approving sources of other programs never changes the answer of a program's gate |
| ApprovalGate.InvalidFoldIsPointwise | bbpipeline/programs.py:111-136 | the second loop pauses exactly the programs declared by broken files, the last file naming the reason |
| GateRuns.EveryRunIsSafe | bbpipeline/programs.py:30-155 | in every state reachable by any interleaving of the two writers an active program has equal manifest and approved hashes, and its source, if bound, exists, is its own, is approved and at the manifest's revision |
| GateRuns.SourceSyncKeepsSafe | bbpipeline/platform_sync.py:101-310 | a source sync preserves that invariant in all its branches |
| GateRuns.ProgramSyncKeepsSafe | bbpipeline/programs.py:22-158 | a program sync preserves it |
| GateRuns.ActiveProgramsOwnTheirSources | bbpipeline/platform_sync.py:45-46 | no two active programs share a source |
| GateRuns.LatchOpensOnlyByGoodFetch | bbpipeline/platform_sync.py:133-260 | a source leaves its two error statuses exactly by a fetch that succeeds and builds a candidate; no transient failure and no program sync does it |
| GateRuns.LatchHolds | bbpipeline/platform_sync.py:55-62 | until such a fetch the error stays and no program bound to the source is active |
| GateRuns.ActiveSetIsExact | bbpipeline/programs.py:73-155 | a program is active after a sync exactly when a loaded file declares it, its hash and policy snapshot are approved, the platform gate passes and no broken file declares it too |
| GateMeaning.ActiveExactlyWhen | bbpipeline/programs.py:30-155 | a program is active after a sync exactly when a loaded file with approved hash and valid policy snapshot declares it, no broken file does, and either it is unbound and no enabled source is enrolled for it, or an enabled configuration names its source, program, platform and remote identifier, and the row of the source agrees, is in no error, and was fetched within the window at the approved revision |
| GateMeaning.GateOpensExactlyWhen | bbpipeline/platform_sync.py:39-63 | the platform gate opens exactly then |
| GateMeaning.FirstReasonThatApplies | bbpipeline/programs.py:57-72 | the reason given for a closed gate is the first that applies |
| GateMeaning.UnboundReason | bbpipeline/programs.py:56-72 | a manifest bound to no source is stopped only by an enabled configuration for its program |
| GateMeaning.LoadedRow | bbpipeline/programs.py:47-91 | the row of a loaded program holds the hashes and manifest of its file, and the reason when paused |
| GateMeaning.UnloadedRow | bbpipeline/programs.py:111-155 | a program without a loaded file is inactive and otherwise keeps its row, with the error of its broken file or the absence of any as reason |
| GateMeaning.SourcesAfterSync | bbpipeline/programs.py:76-81 | a program sync changes no column of a source but its status, and that only to approve a source that stands as an approved file binds it |
| GateRuns.OrderDoesNotMatter | bbpipeline/programs.py:30-155 | any order of the files gives the same sources, programs and activity; only the order among broken files can choose a reason text |
| GateRuns.SyncIsIdempotent | bbpipeline/programs.py:22-158 | a second sync with the same files and clock changes nothing |
| GateRuns.PreflightIsFresh | bbpipeline/workers.py:116-117 | a job that passes the preflight runs on the approved manifest now on disk, with its source at the approved revision and fetched within the stale window; the hash test of the preflight never fires by itself |
| GateRuns.ApprovedStatusMeansNamedRevision | bbpipeline/platform_sync.py:253-260 | a good fetch marks a source approved exactly when the stored manifest names its revision, approved or not |
| GateRuns.ApprovedExactlyWhenGranted | bbpipeline/platform_sync.py:133-260 | in every run a source is approved exactly when some step granted it, by a fetch that found the revision the stored manifest names or by activating a manifest bound to it, and no later sync of the source withdrew it |
| GateRuns.ApprovedWithoutPersonExactlyWhen | bbpipeline/platform_sync.py:253-260 | in every run an approved source lacks the approval of a person exactly when its last grant was a fetch against a stored manifest whose hash is not approved |
| GateRuns.ApprovedStatusIsNotHumanApproval | bbpipeline/programs.py:54-55 | for every unapproved manifest bound to a source and every revision it names, a run of two steps that leaves the source approved |
| ConfigFiles.HashPinsEverythingButApproval | bbpipeline/manifest.py:418-428 | two manifests have one hash exactly when they agree on everything outside their approval blocks |
| ConfigFiles.UntaggedHashNeverApproves | bbpipeline/manifest.py:424-457 | an approved hash without the digest tag equals no hash of a manifest |
| ConfigFiles.LoadManifests | bbpipeline/manifest.py:485-527 | every file is either loaded or reported; a readable file is loaded exactly when it is alone in declaring its program; every one dropped is reported under its program, every broken one with the id it declares and its error |
| ConfigFiles.CountedOnceMeansAlone | bbpipeline/manifest.py:509-511 | an id counted once is an id that no other file declares |
| ConfigFiles.DropAmbiguousSources | bbpipeline/platform_sources.py:123-171 | a source configuration is kept exactly when no other claims its source id or its program, so both are unique |
| Cidr.ContainsIsInterval | bbpipeline/scope.py:59-67 | masking decides membership in the interval of the block |
| Cidr.AddressSpaces | bbpipeline/scope.py:59-67 | the address spaces hold 2^32 and 2^128 addresses |
| Cidr.NestedOrDisjoint | bbpipeline/scope.py:62-64 | two blocks of one family nest or are disjoint |
| Cidr.SubnetIsInclusion | bbpipeline/scope.py:62-64 | the subnet test holds exactly when every address of the first block is in the second |
| Cidr.SubnetIsPrefixAgreement | bbpipeline/scope.py:62-64 | and exactly when the second prefix is no longer and the address starts with it, as in section 3.1 of RFC 4632 |
| Cidr.SubnetIsTransitive | bbpipeline/scope.py:62-64 | the subnet test is transitive and carries addresses along |
| Cidr.SingleAddress | bbpipeline/scope.py:59-67 | for a single address the subnet test and the membership test agree |
| Cidr.HostsAreTheUsableAddresses | bbpipeline/adapters/nuclei.py:160-166 | host enumeration lists every usable address of the block once and nothing else |
| Scope.AnyMatchesMeaning | bbpipeline/scope.py:117-122 | scanning a rule list finds no match exactly when no rule matches, and answers only what some rule answers |
| ScopeMeaning.DomainMatchesMeaning | bbpipeline/scope.py:24-30 | a wildcard matches exactly the names that end in a dot and its suffix, any other pattern its own name |
| ScopeMeaning.UrlRuleMeaning | bbpipeline/scope.py:33-48 | a URL rule matches exactly the URLs of its scheme, host and port, with ports 443 and 80 implied, whose path is its own or below |
| ScopeMeaning.PathUnderMeaning | bbpipeline/scope.py:46-48 | below means that the path goes on with a slash after the path of the rule without its trailing slashes |
| ScopeMeaning.CidrRuleMeaning | bbpipeline/scope.py:59-67 | a block rule matches an address in its block and a block of its family all of whose addresses are in it, and raises exactly on a block of the other family |
| ScopeMeaning.OtherRulesMeaning | bbpipeline/scope.py:51-56 | repository and cloud rules match by pattern on lower-cased text, domain rules by host |
| Scope.ComparableNeverRaises | bbpipeline/scope.py:59-67 | matching cannot raise when every comparison stays in one address family and ports are readable |
| Scope.StricterAllowsLess | bbpipeline/scope.py:105-191 | what a policy allows no more permissive policy denies, and every more permissive policy that can compare the target allows it |
| Scope.AllowedAddressesAreSafe | bbpipeline/scope.py:157-191 | an allow with resolution, asked for or by the setting of the policy, means at least one address, all outside every excluded block and each public or expressly permitted |
| Scope.AllowedMatchesScope | bbpipeline/scope.py:117-122 | an allowed target matches an include rule and no exclude rule |
| ScopeMeaning.AllowedExactlyWhen | bbpipeline/scope.py:105-191 | a target is allowed exactly when the method is allowed, a block is within the size cap, a URL has an allowed port and path, no denied path and https where required, no exclusion and some inclusion matches, and, when its name is resolved, it has addresses and each of them is permitted |
| ScopeMeaning.RefusalIsTrue | bbpipeline/scope.py:113-156 | every static refusal is about what it says |
| ScopeMeaning.AddressesDecide | bbpipeline/scope.py:161-191 | after resolution the addresses alone decide; a host that is an address stands for itself |
| Scope.AllowedBlockVersusExclusion | bbpipeline/scope.py:62-64 | an allowed block is free of an excluded block's addresses exactly when that block does not lie inside it |
| Scope.AllowedBlockCanHoldExcludedAddress | bbpipeline/scope.py:117-191 | under any valid policy that includes a block, excludes one properly inside it and objects to nothing else, the whole block is allowed with the excluded addresses in it: whenever names are not resolved, and with resolution unless an exclusion holds the address of the block itself |
| Seeds.DefaultTargets | bbpipeline/adapters/bbot.py:46-70 | seeds are exactly the values of domain, URL and block rules and the apexes in scope, without duplicates; wildcards without an apex in scope are listed apart |
| Seeds.SeedsExistExactlyWhen | bbpipeline/adapters/bbot.py:36-70 | there is a seed exactly when some rule is a URL, a block or a domain that is no wildcard |
| Seeds.AcceptedExactlyWhen | bbpipeline/manifest.py:329-364 | the validator accepts exactly the manifests whose enabled scheduled scanners, if any, have a domain, URL or block without a star to start from |
| Seeds.AcceptedScheduleHasSeeds | bbpipeline/manifest.py:329-364 | a manifest the validator accepts with an enabled scheduled scanner has a seed |
| Seeds.EverySeedIsInScope | bbpipeline/adapters/bbot.py:36-70 | every seed is matched by an include rule that is no wildcard, a wildcard's apex thus only by a rule of its own |
| NucleiTargets.SelectTargets | bbpipeline/adapters/nuclei.py:144-172 | a target list results exactly when Nuclei is enabled, something was requested, no block exceeds the cap, the list fits its limit and every entry is authorized; each refusal has its cause, the first denied entry is the one named |
| NucleiTargets.SelectionIsExact | bbpipeline/adapters/nuclei.py:150-167 | the list has no duplicates and holds exactly the requested non-block targets and the usable unexcluded hosts of requested blocks |
| NucleiTargets.SelectedHostsAvoidExclusions | bbpipeline/adapters/nuclei.py:160-172 | a selected host lies in a requested block, matches no exclusion and is in no excluded block |
| Plans.CheckStep | bbpipeline/plans.py:94-116 | the objections to one step, or the exception its scope comparison raises |
| Plans.CompilePlan | bbpipeline/plans.py:91-125 | compiling fails only where a comparison raises; otherwise all objections are reported and the plan is automatic exactly when no step, the budget and the program object to nothing |
| Plans.ObjectionsMeaning | bbpipeline/plans.py:94-116 | a reason is reported exactly when some step gives it |
| Plans.StepReasonsMeaning | bbpipeline/plans.py:94-116 | a step is reproached exactly with being manual, an unapproved primitive, a scope denial of its own URL and method, an unapproved role, or a role where authenticated checks are off |
| Plans.AutomaticExactlyWhen | bbpipeline/plans.py:91-125 | a validated plan is automatic exactly when the program allows it, the declared requests fit the budget, and every step has an approved primitive, an allowed URL and a role that is absent or approved and usable |
| Plans.BuildersAgree | bbpipeline/plans.py:83-88 | on a validated automatic step compiler and verifier both join scheme and host of the target with the path of the step |
| Plans.StepsWithinRequests | bbpipeline/plans.py:91-94 | a plan never has more steps than its declared requests |
| Plans.TotalRequestsAddUp | bbpipeline/plans.py:93-94 | the declared requests of a plan are the sum over its steps |
| Verifier.CollectBody | bbpipeline/verifier.py:131-148 | the body kept is exactly the first 8192 bytes of the response, or all of it |
| Verifier.SendRequest | bbpipeline/verifier.py:123-160 | a request goes out no sooner than the approved interval after the previous response, to the step's URL with its method, and keeps the right bytes |
| Verifier.VerifyHttpPlan | bbpipeline/verifier.py:75-168 | the requests sent are those of the first steps, each authorized just before and paced, never more than the budget; the first step that fails a check ends the plan with that error |
| Verifier.RequestOfAStep | bbpipeline/verifier.py:69-102 | the request of a step has the URL joined from scheme and host of its target and its own path, the method of its primitive, and at most the first 8192 bytes as body, none for HEAD |
| Verifier.RequestReadsBack | bbpipeline/verifier.py:69-72 | that URL splits into the scheme, host and path of the step again |
| Verifier.ClearedExactlyWhen | bbpipeline/verifier.py:89-121 | a step is sent on exactly when it is automatic, its URL is allowed on fresh addresses, its role is approved and usable, and the headers are readable, not secret where secrets are off, and complete |
| Verifier.GoesThroughExactlyWhen | bbpipeline/verifier.py:89-168 | the loop goes through exactly when every step passes within the budget |
| Verifier.EndsAtTheFirstFailure | bbpipeline/verifier.py:89-168 | otherwise it ends at the first step that does not, with the failure of that step |
| Verifier.PlanKeepsTheRate | bbpipeline/verifier.py:123-128 | the request starts of a plan keep the rate of the manifest, between any two and in any window |
| Verifier.JournalMeaning | bbpipeline/verifier.py:89-168 | at any place in the list the request is due and at least the interval after its predecessor |
| Verifier.JournalIsPaced | bbpipeline/verifier.py:123-128 | so every request starts at least the interval after the one before it |
| Verifier.SentRequestsWereAuthorized | bbpipeline/verifier.py:98-102 | each request of a validated step was within the limits of the policy, matched by an inclusion and no exclusion, and on addresses just resolved, every one permitted, with a read-only method |
| Verifier.RequestsAreSpaced | bbpipeline/verifier.py:123-128 | requests i and j start at least (j - i) / rate apart |
| Verifier.WindowBound | bbpipeline/verifier.py:123-128 | any window of length T holds at most 1 + T * rate request starts |
| Verifier.AutomaticPlanIsNeverRefused | bbpipeline/verifier.py:89-122 | a plan compiled as automatic is never refused as manual, out of scope, of a wrong role, authenticated or over budget; a scope denial can only come from DNS |
| Verifier.AuthorizedStepsAreNotDenied | bbpipeline/verifier.py:98-102 | while DNS keeps every step authorized there is no scope denial |
| Verifier.OnlyDnsIsLeft | bbpipeline/scope.py:157-191 | once nothing static objects the decision is an allow or a denial about addresses |
| Events.EventTables.Ingest | bbpipeline/events.py:47-126 | fails, changing nothing, exactly when a planner is due and its packet cannot be built; otherwise one row and at most one planner job change, as the occurrence and the row before dictate |
| EventMeaning.CallsForPlannerExactlyWhen | bbpipeline/events.py:97-103 | an occurrence calls for a planner exactly when the program wants one, the score reaches the threshold, and its redacted payload is neither the one the event last had nor the one last queued |
| EventMeaning.RowAfterIngestion | bbpipeline/events.py:72-126 | the row an ingestion leaves, column by column, status and queued hash included |
| EventMeaning.EvidenceAfterIngestion | bbpipeline/events.py:93-94 | its evidence is the sorted union of old and new |
| EventMeaning.JobsAfterIngestion | bbpipeline/events.py:104-126 | the job added is keyed by the event, the hash of the payload and the provider |
| EventMeaning.RowAndHash | bbpipeline/events.py:32-44 | the row of an observation is that of its program and of the digest of source, type, sanitized asset and template |
| Events.IndexReflectsHistory | bbpipeline/events.py:47-126 | after any history an event has a row exactly when an ingestion of it went through, with the source of the first such occurrence, payload, hash, severity and asset of the last, and as evidence the sorted duplicate-free union of all |
| Events.SameRowMeansSameIdentity | bbpipeline/events.py:37-44 | two observations share a row exactly when they have one program and one identity |
| Events.PlannerJobsAreUnique | bbpipeline/events.py:97-126 | at most one planner job ever exists per event, payload and provider, flapping payloads included, and each answers an occurrence that asked for it |
| Events.EveryRequestHasItsJob | bbpipeline/events.py:97-126 | every occurrence that asked for a planner and went through has its job, for ever |
| Events.UnchangedIngestQueuesNothing | bbpipeline/events.py:97-103 | seeing an event again with the payload it last had queues nothing |
| Findings.FindingDesk.ProcessPlannerOutput | bbpipeline/workflow.py:18-89 | raises, changing nothing, for a foreign or unknown event, an unavailable program or a plan that cannot be compiled; otherwise adds one finding, rejected exactly for no finding, waiting for verification exactly for an automatic candidate, which alone gets a verify job, citing what the event holds |
| Findings.FindingDesk.RecordVerification | bbpipeline/workflow.py:92-127 | raises, changing nothing, for an unknown finding, an unavailable program or a critic packet that cannot be built; otherwise stores the verification and its evidence and waits for the critic, enqueued once, or for a human when there is none; no other field or finding changes |
| Findings.FindingDesk.ProcessCriticOutput | bbpipeline/workflow.py:130-166 | raises for an unknown or foreign finding; otherwise the finding is rejected exactly when the verdict is unsupported and awaits a human otherwise, its confidence is the lower of the two, its severity the assessed one unless unknown, the citations kept are those it has evidence for; no other field or finding changes |
| Findings.FindingDesk.FindingAction | bbpipeline/api.py:481-533 | each action is answered with the first conflict that applies and then changes nothing, or sets exactly the fields it is for |
| FindingRuns.FindingsStayConsistent | bbpipeline/workflow.py:18-166 | in every reachable state submitted implies human-validated implies a recorded verification, evidence is sorted and duplicate-free, and what a critique validly cites is among it |
| FindingRuns.FindingsMoveForward | bbpipeline/workflow.py:107-166 | submission, verification and critique are never taken back, evidence only grows, confidence never rises |
| FindingRuns.VerifyJobsMatchCreation | bbpipeline/workflow.py:62-75 | a new finding waits for verification exactly when its verify job is enqueued with it, and no later step enqueues one; no verify or critic job is enqueued twice |
| FindingRuns.PlannedIsConsistent | bbpipeline/workflow.py:34-60 | a new finding has passed no gate and cites only the event's evidence and the model's own record |
| FindingRuns.VerificationWasRecorded | bbpipeline/workflow.py:107-127 | behind every verification stands a step that recorded it |
| FindingRuns.ValidationWasGiven | bbpipeline/api.py:512-528 | behind every validation stands a person's successful validate with no successful reject since |
| FindingRuns.SubmissionHasItsHistory | bbpipeline/api.py:490-533 | behind every submitted finding stand, in this order, a recorded verification, a person's validation not withdrawn before the submission, and the submission |
| FindingRuns.SubmittedStatusIsLostExactlyWhen | bbpipeline/workflow.py:118-147 | the status of a submitted finding changes exactly by a late verification or critique |
| FindingRuns.SubmittedStatusGetsLost | bbpipeline/workflow.py:118-126 | for every automatic candidate a run in which a person verifies and submits it and its verify job then hides the submission |
| FindingRuns.ValidationIgnoresStatus | bbpipeline/api.py:512-525 | whether a finding can be validated depends on its verification, critique and program and not on its status |
| FindingRuns.RejectedFindingGetsValidated | bbpipeline/api.py:512-528 | for every such candidate a run in which a person rejects it and then validates it |
| FindingRuns.CriticJobsAnswerVerifications | bbpipeline/workflow.py:92-127 | in every run a finding has a critic job of a provider exactly when a verification called for one |
| FindingRuns.CriticIsQueuedOnce | bbpipeline/workflow.py:92-127 | so of all verifications of a finding only the first for each provider enqueues a critic, while every one marks the finding as waiting for it |
| FindingRuns.SecondVerificationGetsNoCritic | bbpipeline/workflow.py:103-104 | for every such candidate a run that leaves it waiting for a critic that is not enqueued |
| Packets.SizeIsRenderedBytes | bbpipeline/packets.py:36-37 | the recursive size is the length in bytes of the UTF-8 rendering |
| Packets.CharBytesMeaning | bbpipeline/packets.py:36-37 | a character counts as the bytes of its UTF-8 encoding, which can be decoded |
| Packets.KeyListMeaning | bbpipeline/packets.py:55-62 | a part reduced to its keys keeps the first fifty, in order |
| Packets.TruncationShrinks | bbpipeline/packets.py:39-45 | truncating a list strictly shrinks its rendering |
| Packets.LadderSteps | bbpipeline/packets.py:46-83 | each of the last five rungs is the previous one with one part degraded |
| Packets.DegradedParts | bbpipeline/packets.py:46-83 | what is left of a degraded part: its keys or its name and role, and the truncation mark |
| Packets.PacketBuffer.PopCards | bbpipeline/packets.py:39-40 | cards are dropped from the end, one at a time, and no further than needed |
| Packets.PacketBuffer.PopReferences | bbpipeline/packets.py:41-45 | then references, likewise |
| Packets.PacketBuffer.Fit | bbpipeline/packets.py:35-86 | the result is the first rung of the ladder that fits the ceiling, and it fails only when no rung does |
| PacketLaws.FewerCardsAreSmaller | bbpipeline/packets.py:39-40 | every dropped card makes the packet smaller |
| PacketLaws.KeepsLongestPrefixOfCards | bbpipeline/packets.py:39-40 | while cards remain, a prefix of them fits exactly when it is no longer than the one kept |
| PacketLaws.KeepsLongestPrefixOfReferences | bbpipeline/packets.py:41-45 | references go only when no prefix of the cards fits, and the longest prefix that fits is kept |
| PacketLaws.IdentityIsNeverAltered | bbpipeline/packets.py:35-86 | no degradation touches ids, evidence ids, program, constraints, task or version |
| PacketLaws.GivesUpInOrder | bbpipeline/packets.py:46-83 | the skill goes after all cards, the payload after the skill, the verification after the payload, the hypothesis last |
| PacketLaws.FittingPacketIsUntouched | bbpipeline/packets.py:35-86 | a packet that fits comes back as it was |
| ApprovedRequests.EveryRequestWasApproved | bbpipeline/workers.py:116-132 | every request a verification job sends was allowed, on addresses just resolved, by a manifest file on disk at its preflight whose hash and policy snapshot are approved and whose source is at the approved revision and fresh |
| Common.StrLessMeaning | bbpipeline/events.py:94-94 | evidence and keys are ordered by code point, at the first difference, prefixes first |
| Common.FirstOccurrencesInOrder | bbpipeline/adapters/nuclei.py:167-167 | removing duplicates keeps the order of first occurrences |
| DedupeKeys.TextsAreDistinct | bbpipeline/scheduler.py:55-80 | the colon-joined keys of scheduled, planner, verify and critic jobs are equal exactly when the model's keys are |
| DedupeKeys.JoinedIsInjective | bbpipeline/scheduler.py:69-79 | a key joined by colons can be read back when only its last part may hold one |
| Candidates.SortedRules | bbpipeline/platform_sources.py:586-588 | the list holds each rule of the table once, strictly ascending by type and lower-cased value |
| Candidates.NormalizeSnapshot | bbpipeline/platform_sources.py:568-590 | in-scope and out-of-scope rules are listed by key, rejected assets sorted and each kept as often as it occurs |
| Candidates.BucketMeaning | bbpipeline/platform_sources.py:583-585 | a key is listed exactly when an asset of that side normalizes to it, and the last such asset decides the rule |
| Candidates.KeysAgreeExactlyWhen | bbpipeline/platform_sources.py:585-585 | two rules share a key exactly when they are of one type and their values differ at most in case |
| Candidates.ItemOfMeaning | bbpipeline/platform_sources.py:574-581 | a rejected asset is reported by the first 500 characters of its target and 200 of its category |
| Candidates.EveryAssetIsAccounted | bbpipeline/platform_sources.py:572-590 | every asset is found in exactly one place, under its key on its own side or among the unsupported, and nothing else is listed |
| Candidates.BuildCandidate | bbpipeline/platform_sources.py:612-706 | there is no candidate exactly when no supported target is in scope, or a kept schedule would have no concrete seed; its identity, revision and name are those of source and snapshot; its exclusions are the old ones overlaid by the fetched ones; without a stored manifest or with an unrepresentable exclusion all five automations are off and the schedules empty; it meets the validators and is never approved |
| Candidates.ValidatesWhen | bbpipeline/manifest.py:298-364 | of the manifest validators only the one on scheduled scanners can refuse a candidate, and exactly when |
| Candidates.ExclusionsNeverShrink | bbpipeline/platform_sources.py:627-667 | the keys of the candidate's exclusions are exactly those of the old and the fetched exclusions |
| Candidates.UnreviewedCandidateNeverActivates | bbpipeline/programs.py:73-73 | a candidate installed as written never activates its program, whatever is loaded beside it |
| Candidates.ReplacementCoversExactlyWhen | bbpipeline/scope.py:33-48 | a URL exclusion replaced under the same key still covers all it covered exactly when the new rule matches the old rule's own URL |
| Candidates.OtherKindsMatchAlike | bbpipeline/scope.py:70-86 | for all other kinds rules of one key match the same targets |
| Candidates.MergedExclusionsStillExclude | bbpipeline/platform_sources.py:627-667 | the merged exclusions still match all that the old ones did exactly when they miss none of the URLs the old ones name, provided no repository or cloud pattern matches such a URL; with no proviso, always if domain, URL and block rules alone meet those URLs, and never if one of them is missed |
| Candidates.RuleMatchesChain | bbpipeline/scope.py:24-67 | a domain, URL or block rule that does not miss the URL of an old exclusion misses nothing that exclusion matched |
| Candidates.MergedExclusionCanLapse | bbpipeline/platform_sources.py:627-667 | whenever a fetched URL exclusion takes the key of the only old one and its path does not lead to the old path, the merged exclusions no longer match the URL that was excluded |

## Left out

- HTTP clients, platform APIs, pagination, the BBscope process and the Go helper: a fetch is a snapshot, an authentication failure, a data failure or another failure.
- Scanner and language-model commands, their output, health checks, evidence files, retention, scoring and card ranking: opaque values or parameters.
- The API beyond the human gate and cancel, the CLI, Discord, metrics and deployment.
- Audit rows, notifications, and the text columns of a row that only describe it (`error`, `result`, `started_at`, `last_seen_at`).
- PostgreSQL isolation: transactions are atomic steps but for the worker's split; rows locked by others are a parameter of `Claim`. Where the order of rows is not determined by ORDER BY, the lowest id wins.
- The retention and platform-sync jobs that a tick also enqueues, and its call of `sync_programs`, which is modelled by itself.
- One clock reading per call: `sync_programs` and `sync_platform_source` read it more than once.
- A stored manifest always validates again in the gate, so a candidate always has the stored manifest as its base when there is one; in the scheduler a stored manifest may fail.
- Exceptions of IDNA normalization, and URL parts beyond scheme, host, port and path. Parsing follows section 3 of RFC 3986 only so far.
- `_normalize_one` of an asset is a parameter, and rule notes are not kept.
- `_can_expand_subdomains` of the BBOT adapter, Nuclei profiles, and the rest of both adapters.
- HTTP method names are upper-case already, and addresses come as values, not text.
- The message fields and headers of a verification result, and the decoding of its body.
- Whether a packet fits its ceiling is an input of the ingestion and verification steps; the fitter itself is modelled apart. A packet that does not fit aborts one ingestion; the source aborts the job's whole transaction, which is the same as none of its ingestions being in the history.
- Packets have the shape the two builders give them, with keys in sorted order.
- Candidates.EveryAssetIsAccounted: two assets that normalize to one key on one side share its entry, as they do in the source, so the lists conserve keys, not assets; the unsupported list conserves items.
- GateRuns.OrderDoesNotMatter: the reason text is left open when several broken files declare one program, because the last of them writes it.
- Verifier.AutomaticPlanIsNeverRefused: failures the compiler cannot foresee remain possible (DNS, the researcher header file, the transport).
