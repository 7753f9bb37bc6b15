# Verification of the IAT protocol's durable state machines

The project models the parts of the repository that keep promises over time: rows in tables, time-bounded
leases, bounded attempts with backoff, append-only event logs, budgets per day. Each database transaction is one
atomic step. The repository's objects and tables are classes whose methods update fields in place; each method is
proved against a function on table values, and the properties of whole runs are proved about those functions, over
every sequence of steps. Remote services, signers, rankings and clocks answer anything. SHA-256 is an arbitrary
function of the hashed fields; only theorems that need it assume that it has no collisions and never yields the
genesis value. Nothing here was executed against the original program.

| module | what it models |
|---|---|
| `DependencyResolver` | cycle detection by depth-first search, readiness of actions, progress |
| `EventChain`, `JournalBackfill` | hash-linked event lists, verification, and hashing an old journal |
| `BuyerAgentJournal`, `BuyerAgentOutcomes`, `BuyerAgentScheduler`, `BuyerAgentRuns`, `BuyerAgentProcesses` | job rows and their journal, what a transaction leaves of them, the scheduler object, whole runs of one process and of several |
| `AnchorPipeline`, `AnchorProcesses`, `AnchorOutcomes` | the nine-stage evidence pipeline of one anchor, with its termination measure: under one lock holder at a time, with any number of processes, and stage by stage |
| `DeliveryQueue`, `DeliveryOutcomes`, `DeliveryRuns` | post-payment deliveries, how an attempt ends, and any interleaving of their workers |
| `HostedEventVerifier`, `HostedBuyerJobs`, `HostedBuyerOutcomes`, `HostedBuyerRuns` | the order-independent chain verifier, the leased queue and its transactions, whole runs |
| `SpendBudget`, `SpendDays`, `IntentDecisions` | the daily spend limit by day of reservation and of commitment, and single-use purchase decisions |
| `OutreachWindow`, `OutreachOutcomes`, `OutreachRuns` | the 24-hour outreach rule, its single steps and its runs |
| `ReceiptCompensation`, `ReceiptOutcomes`, `ReceiptRuns` | final receipts against compensations, and the release gate |
| `Ledger`, `CheckoutSettlement` | exact amounts, double entry, the commission split |
| `Sandbox`, `SandboxStore`, `SandboxRuns` | the bounded idempotent store, its object, and a store without eviction beside it |
| `Wrappers`, `Text` | options, results, powers of two, `strip` |

The `Outcomes` modules and the members named `...Exactly` say of every operation, in the columns of its rows and the
fields of its answers and not by the functions that compute it, when it takes effect and what it leaves; delays and
orderings have members of their own.

Where a promise turned out to depend on a guard the code does not enforce, the guard is stated, proved sufficient over
every run and proved necessary for the single call:

- late reservation updates: `SpendBudget.UpdateIsSafeExactly`; reservations inserted on an earlier read: `SpendBudget.InsertionIsSafeExactly`; commitments after midnight: `SpendDays.CommitmentFitsExactly`
- approvals, claims and insertions of outreach: `OutreachRuns.ApprovalIsSafeExactly`, `OutreachRuns.ClaimIsSafeExactly`, `OutreachRuns.InsertIsSafeExactly`
- redrives, publications and signing changes: `ReceiptRuns.RedriveIsSafeExactly`, `ReceiptRuns.PublishIsSafeExactly`, `ReceiptRuns.RepublishReopensExactly`
- order marks of superseded workers: `DeliveryRuns.MarkIsSafeExactly`
- outcomes written by a second scheduler process: `BuyerAgentProcesses.StepIsSafeExactly` for jobs, `AnchorProcesses.StageWriteIsSafeExactly` for the stages of an anchor
- hosted claims beyond `max_attempts`: `HostedBuyerRuns.ClaimStaysWithinExactly`; appends within one second: `HostedBuyerJobs.AppendKeepsChainExactly`; reports that cover fewer rows than exist: `HostedEventVerifier.ValidReportMayDropRows`
- keys used again after their eviction: `SandboxRuns.RequestsAnsweredAlikeExactly`

## Model

| member | source | states |
|---|---|---|
| `DependencyResolver.NormalizeIds` | iat/action_engine/dependency_resolver.py:7-29 | the kept ids are the stripped, non-empty ones in order of first appearance, whatever kind of value came in |
| `DependencyResolver.NormalizingKeepsEachIdOnce` | iat/action_engine/dependency_resolver.py:20-29 | normalised ids are distinct and are exactly the non-empty stripped items |
| `DependencyResolver.NormalizingKeepsOrder` | iat/action_engine/dependency_resolver.py:17-29 | and they stand in the order of their first occurrences |
| `DependencyResolver.ActionsExactly` | iat/action_engine/dependency_resolver.py:168-181 | an id is an action if and only if some context carries it, stripped and non-empty |
| `DependencyResolver.DependenciesExactly` | iat/action_engine/dependency_resolver.py:32-43 | an action depends on exactly the stripped non-empty items of the last context that carries it: of its orchestration entry when that key is present, of the entry beside it otherwise |
| `DependencyResolver.DetectDependencyCycles` | iat/action_engine/dependency_resolver.py:165-238 | the report is valid if and only if the graph on known actions has no cycle; every reported list is a simple cycle, none twice, and each action is expanded exactly once |
| `DependencyResolver.CycleSearch.Visit` | iat/action_engine/dependency_resolver.py:189-217 | one call of the nested search keeps `set(stack) == visiting` and the finishing order topological while no cycle is found; it ends with the stack as it was and the node visited, or on the stack with a cycle on record |
| `DependencyResolver.CycleSearch.StackIndex` | iat/action_engine/dependency_resolver.py:193-198 | the position of a node on the stack, or that it is not on it |
| `DependencyResolver.CycleSearch.RecordCycle` | iat/action_engine/dependency_resolver.py:200-206 | a closing edge leaves its simple cycle on record, once; the ValueError fallback cannot happen |
| `DependencyResolver.TopologicalOrderExcludesCycles` | iat/action_engine/dependency_resolver.py:215-220 | an order in which every edge leads to an earlier node rules out every cycle |
| `DependencyResolver.ClosingEdgeMakesCycle` | iat/action_engine/dependency_resolver.py:193-196 | an edge back into the stack closes a simple cycle |
| `DependencyResolver.StatusExactly` | iat/action_engine/dependency_resolver.py:68-146 | which of the five statuses is given, each by an if-and-only-if: self, then failed, then unknown, then not completed |
| `DependencyResolver.EveryDependencyIsListed` | iat/action_engine/dependency_resolver.py:85-114 | every dependency is under some heading, pending and missing exclude all others |
| `DependencyResolver.HeadingsExactly` | iat/action_engine/dependency_resolver.py:85-114 | a dependency is under completed, failed, missing or pending if and only if the caller's sets say so; each heading has it once and in the order of the list |
| `DependencyResolver.ReadyExactly` | iat/action_engine/dependency_resolver.py:68-146 | ready if and only if not its own dependency and all dependencies completed and none failed |
| `DependencyResolver.ReadyStaysReady` | iat/action_engine/dependency_resolver.py:85-146 | completing more actions never makes a ready action unready |
| `DependencyResolver.NoDeadlockExactlyWhenAcyclic` | iat/action_engine/dependency_resolver.py:46-238 | with all dependencies known, the graph has no cycle if and only if in every incomplete situation some incomplete action is ready |
| `DependencyResolver.EveryScheduleFinishes` | iat/action_engine/dependency_resolver.py:46-238 | completing ready actions one after another in any order takes at most one step per action and only stops when all are complete |
| `EventChain.HeadCommits` | iat/buyer_agent_scheduler.py:1904-1971 | under a collision-free hash that avoids genesis, two unbroken chains with one head have the same hashed fields and the same length |
| `EventChain.HeadsAreDistinct` | iat/buyer_agent_scheduler.py:1904-1971 | no two prefixes of an unbroken chain have the same head |
| `EventChain.FirstMisfitSplits` | iat/buyer_agent_scheduler.py:513-553 | when verification fails, everything before the first invalid event is an unbroken chain and including it is not |
| `EventChain.AppendKeepsLinks` | iat/buyer_agent_scheduler.py:1904-1952 | recording an event with the stored head as previous hash keeps the chain unbroken |
| `JournalBackfill.RechainedIsUnique` | iat/buyer_agent_scheduler.py:1973-2003 | the backfilled table is the only table with the same events whose journals are all unbroken, hence what appending one by one gives |
| `JournalBackfill.RechainedLinks` | iat/buyer_agent_scheduler.py:1973-2003 | backfilling keeps every event in its place and leaves every journal unbroken |
| `JournalBackfill.JournalStore.RehashEvents` | iat/buyer_agent_scheduler.py:1973-2003 | the loop over the rows writes exactly the rechained table and tallies head and count of each journal |
| `JournalBackfill.JournalStore.BackfillEventHashes` | iat/buyer_agent_scheduler.py:1973-2003 | afterwards count and head of each job with events are those of its journal, and it verifies |
| `BuyerAgentScheduler.Scheduler.RecordEvent` | iat/buyer_agent_scheduler.py:1904-1952 | appends the chained event, and moves count and head of its job |
| `BuyerAgentOutcomes.SchedulesExactly` | iat/buyer_agent_scheduler.py:396-428 | a new job is scheduled for now with no attempt made and its event chained; a known one is left alone |
| `BuyerAgentOutcomes.ResumesExactly` | iat/buyer_agent_scheduler.py:566-606 | exactly a job stopped by its maximum is resumed, with the additional attempts on top of those it made |
| `BuyerAgentOutcomes.ClaimsExactly` | iat/buyer_agent_scheduler.py:1713-1764 | a claim counts an attempt and takes the configured lease, or stops a job whose attempts are spent; the event says which |
| `BuyerAgentOutcomes.FinishesExactly` | iat/buyer_agent_scheduler.py:1858-1902 | a finish completes or stops the job with the event of that name; only completion starts an anchor, over the hash of that event |
| `BuyerAgentOutcomes.PutsOffExactly` | iat/buyer_agent_scheduler.py:1836-1856 | a job put off waits out its delay, and its event says whether an error was the reason |
| `BuyerAgentOutcomes.DueExactly` | iat/buyer_agent_scheduler.py:1716-1728 | a job is due when it waits and its time has come, or when its lease has run out, and in no other state |
| `BuyerAgentOutcomes.JournalExactly` | iat/buyer_agent_scheduler.py:513-520 | a journal holds exactly the events of its job, in their order |
| `BuyerAgentScheduler.Scheduler.Schedule` | iat/buyer_agent_scheduler.py:396-428 | one row and one event per decision id, idempotent, or the error for a blank id or a bad maximum; keeps the tables valid |
| `BuyerAgentScheduler.Scheduler.Resume` | iat/buyer_agent_scheduler.py:566-606 | reopens exactly the jobs stopped by their maximum, with the additional attempts |
| `BuyerAgentScheduler.Scheduler.VerifyEventChain` | iat/buyer_agent_scheduler.py:513-553 | the loop computes the specified verification, and on valid tables it always reports valid |
| `BuyerAgentScheduler.Scheduler.ClaimOne` | iat/buyer_agent_scheduler.py:1713-1764 | claims the earliest due job in one transaction, or says that none is due; spent attempts stop the job |
| `BuyerAgentScheduler.Scheduler.Wait` | iat/buyer_agent_scheduler.py:1821-1856 | puts any job off, or stops it when attempts are spent; valid tables stay valid when it was not completed |
| `BuyerAgentScheduler.Scheduler.Finish` | iat/buyer_agent_scheduler.py:1858-1902 | completes or stops any job; completion creates the anchor, if there is none, over the head its own event produced |
| `BuyerAgentScheduler.Scheduler.RunClaimed` | iat/buyer_agent_scheduler.py:1766-1812 | for every answer of the runner: completed if and only if the result was there and was opened, waiting if and only if the attempt may go on and attempts are left, stopped otherwise, each with its error and action |
| `BuyerAgentScheduler.DecidesExactly` | iat/buyer_agent_scheduler.py:1766-1812 | what the answers decide: delivered, going on, or over, with the error of the call that ended the attempt |
| `BuyerAgentScheduler.AttemptEndsExactly` | iat/buyer_agent_scheduler.py:1766-1902 | how the row of the job is left by those answers |
| `BuyerAgentScheduler.DelaysExactly` | iat/buyer_agent_scheduler.py:1766-1819 | a wait is the interval the last answer named, or the default, kept between 1 and 300 seconds; after an error it is the backoff |
| `BuyerAgentScheduler.ErrorDelayDoubles` | iat/buyer_agent_scheduler.py:1799-1805 | the backoff starts at the poll interval, doubles up to the fifth attempt and stays within a minute |
| `BuyerAgentScheduler.DelaysArePositive` | iat/buyer_agent_scheduler.py:1766-1819 | whatever the runner answers and whatever poll value it gives, a wait is between 1 and 300 seconds |
| `BuyerAgentScheduler.ConcludeSettles` | iat/buyer_agent_scheduler.py:1821-1902 | an attempt leaves its job completed, stopped, or waiting strictly after now |
| `BuyerAgentScheduler.Scheduler.RunDueOnce` | iat/buyer_agent_scheduler.py:640-696 | one cycle returns at most `limit` results, never the same job twice; it runs due jobs in order of due time and creation, leaves out only later ones, all of them run when there is room, and each ends completed, stopped or waiting for later; at most one anchor moves, one that was due; a cycle left by an exception leaves every job as it was or settled, except at most one that can be claimed again when its lease has run out |
| `BuyerAgentScheduler.Scheduler.ClaimStage` | iat/buyer_agent_scheduler.py:698-746 | claims the earliest anchor due for a stage, or says that none is; spent attempts fail it |
| `BuyerAgentScheduler.Scheduler.RunStage` | iat/buyer_agent_scheduler.py:1608-1711 | runs a claimed stage for any remote answer exactly as the row function says, whose outcomes `AnchorOutcomes` gives stage by stage; on valid tables the chain check never fails |
| `BuyerAgentScheduler.Scheduler.ClaimAnyStage` | iat/buyer_agent_scheduler.py:640-668 | claims for the last stage that has a due anchor, or says that none is due in any stage |
| `BuyerAgentRuns.VerifiesExactly` | iat/buyer_agent_scheduler.py:513-553 | a journal verifies if and only if it is unbroken and the row has its count and head; otherwise the report names its first event that does not fit, if there is one |
| `BuyerAgentRuns.StoppedIsLeftAlone` | iat/buyer_agent_scheduler.py:1766-1769 | a job that its claim stopped is left alone by the worker that claimed it |
| `BuyerAgentRuns.CompletionIsReached` | iat/buyer_agent_scheduler.py:396-1902 | a run of five steps and as many events that waits for a job once and completes it |
| `BuyerAgentRuns.JournalAgreesWithRow` | iat/buyer_agent_scheduler.py:396-606 | on every run of schedule, resume, claim, wait, finish and crash: the journal verifies, count and head are its own, replaying it gives state, attempts and last error, and attempts stay within the maximum |
| `BuyerAgentRuns.AnchorsAgreeWithJobs` | iat/buyer_agent_scheduler.py:1858-1902 | on every run exactly the completed jobs have an anchor, its evidence is the chain head, it is not stranded, has at most 91 claims, and never fails over its journal |
| `BuyerAgentRuns.CompletedForever` | iat/buyer_agent_scheduler.py:1713-1902 | once completed, row, journal and anchor evidence are the same after any further steps of one scheduler process |
| `BuyerAgentProcesses.PutOffIsSafeExactly` | iat/buyer_agent_scheduler.py:1836-1856 | putting a job off, however many attempts it made since it was read, keeps rows, journals and evidence in agreement if and only if the job is not completed |
| `BuyerAgentProcesses.FinishIsSafeExactly` | iat/buyer_agent_scheduler.py:1858-1902 | so does finishing it, either way, under a collision-free hash |
| `BuyerAgentProcesses.StepIsSafeExactly` | iat/buyer_agent_scheduler.py:396-1902 | any step of any process, on a job or in any stage of any anchor, keeps rows, journals and the evidence of anchors in agreement if and only if it is not the outcome of an attempt at a completed job |
| `BuyerAgentProcesses.CompletedStaysUnlocked` | iat/buyer_agent_scheduler.py:1713-1902 | under that guard on jobs alone and without a lock, row, journal and anchor evidence of a completed job are the same after any steps of any number of processes, stale stage writes included |
| `BuyerAgentProcesses.UnlockedRunsStayValid` | iat/buyer_agent_scheduler.py:396-1902 | and every run of them keeps rows, journals and the evidence of anchors in agreement |
| `BuyerAgentProcesses.SecondSchedulerReopens` | iat/buyer_agent_scheduler.py:1821-1856 | a stale wait of another process reopens a completed job, and its anchor no longer verifies |
| `BuyerAgentProcesses.FailedReadStopsCompleted` | iat/buyer_agent_scheduler.py:1766-1902 | one process is enough: when the row cannot be read back after the completion was committed, the same attempt stops the job it completed, and its anchor no longer verifies |
| `BuyerAgentProcesses.AnchorsAgreeUnlocked` | iat/buyer_agent_scheduler.py:396-1902 | under both guards, on every run of any number of processes: exactly the completed jobs have an anchor, over the head of their journal; it has at most 91 claims, never failed over its journal, is not stranded, and a permit stands on nine accepted answers in order |
| `BuyerAgentProcesses.AnchorsStayUnlocked` | iat/buyer_agent_scheduler.py:698-1711 | under both guards evidence and stored ids of every anchor stay, and a final anchor is never written again, by whatever process |
| `AnchorProcesses.UndisturbedRun` | iat/buyer_agent_scheduler.py:1608-1711 | reading the row, asking and writing with nothing in between is the run of a stage under the lock |
| `AnchorProcesses.StageWriteIsSafeExactly` | iat/buyer_agent_scheduler.py:782-990 | the stage write of a worker, whatever it is answered, keeps the row valid, its stored ids and a final state if and only if its stage is still open in the row it writes to, which an UPDATE can ask |
| `AnchorProcesses.RunsStayValid` | iat/buyer_agent_scheduler.py:698-1711 | with writes so guarded, any interleaving of claims, reads, answers, writes and crashes of any number of workers keeps the row valid and every worker's outcome fit for it |
| `AnchorProcesses.FinalForever` | iat/buyer_agent_scheduler.py:748-780 | on those runs a final anchor is the same ever after |
| `AnchorProcesses.StoredOnce` | iat/buyer_agent_scheduler.py:782-1416 | and evidence and stored ids are written once, by whichever process |
| `AnchorProcesses.PermitTracesBack` | iat/buyer_agent_scheduler.py:782-990 | and a permit stands on nine accepted answers in order over the first evidence, and an anchor that is not final can be claimed again |
| `AnchorProcesses.ClaimsAreBounded` | iat/buyer_agent_scheduler.py:698-780 | and all processes together claim an anchor at most 91 times |
| `AnchorProcesses.StaleSuccessSetsBack` | iat/buyer_agent_scheduler.py:782-830 | a success written after another process took the stage replaces the stored id and sets the anchor back behind its stage |
| `AnchorProcesses.StalledWriteLosesPermit` | iat/buyer_agent_scheduler.py:1608-1684 | a run from a new anchor in which a stalled attestation, written after the permit, puts the anchor back before publication under another attestation |
| `AnchorPipeline.NeverStranded` | iat/buyer_agent_scheduler.py:698-780 | under one lock holder at a time, in every reachable state an anchor is final, or ready with a due time for its stage, or working with a lease, and can be claimed again |
| `AnchorPipeline.ClaimsAreBounded` | iat/buyer_agent_scheduler.py:698-780 | under one lock holder at a time every anchor has at most 91 claims, crashes included |
| `AnchorPipeline.NextSpends` | iat/buyer_agent_scheduler.py:1000-1037 | every claim lowers the potential (stages and attempts left), and nothing a worker does or omits raises it |
| `AnchorPipeline.FinalForever` | iat/buyer_agent_scheduler.py:748-780 | under one lock holder at a time a final anchor is the same after any further claims, answers and crashes; `AnchorProcesses.FinalForever` is for several processes |
| `AnchorPipeline.PermitTracesBack` | iat/buyer_agent_scheduler.py:782-990 | under one lock holder at a time a permitted anchor stored nine accepted answers in order, each bound to the id of the one before and with every assertion its stage asks for; the delivery was verified, the quality decided and the release found eligible |
| `AnchorPipeline.StoredOnce` | iat/buyer_agent_scheduler.py:782-1416 | under one lock holder at a time stored ids and the evidence are written once; `AnchorProcesses.StoredOnce` is for several processes |
| `AnchorPipeline.AcceptedOnce` | iat/buyer_agent_scheduler.py:782-1416 | under one lock holder at a time the answers an anchor was advanced on are never replaced; `AnchorProcesses.StaleSuccessSetsBack` shows how another process replaces one |
| `AnchorPipeline.EligibilityFollowsQuality` | iat/buyer_agent_scheduler.py:1129-1150 | whenever an anchor is ready for eligibility, its state is the one the recorded quality answer led to |
| `AnchorPipeline.EligibilityRetryRestores` | iat/buyer_agent_scheduler.py:1129-1150 | so a failed, crashed or repeated eligibility attempt goes back to the very quality state it came from |
| `AnchorPipeline.VerifiedJournalNotBlamed` | iat/buyer_agent_scheduler.py:1618-1631 | while the journal verifies no run writes `journal_chain_verification_failed` |
| `AnchorOutcomes.EvidenceStagesStoreExactly` | iat/buyer_agent_scheduler.py:1478-1684 | the attestation is stored if and only if its signature verifies over this evidence, the publication if and only if the receipt repeats it, with its prefix, digest length and effect |
| `AnchorOutcomes.ValidationStagesStoreExactly` | iat/buyer_agent_scheduler.py:1185-1364 | validation and quality are stored if and only if bound to the id before, with a decision they know and nothing claimed or disclosed beyond it |
| `AnchorOutcomes.PlanningStagesStoreExactly` | iat/buyer_agent_scheduler.py:782-1066 | eligibility and plan are stored if and only if bound to the id before and no money was moved, signed for or broadcast |
| `AnchorOutcomes.AuthorizationStoresExactly` | iat/buyer_agent_scheduler.py:829-849 | an authorisation is stored if and only if the foundation released this plan and nothing was executed, built, signed, broadcast or moved |
| `AnchorOutcomes.ExecutionStagesStoreExactly` | iat/buyer_agent_scheduler.py:882-966 | a simulation is stored if and only if it ran this authorisation on a test cluster, a permit if and only if it was issued for one claim in private |
| `AnchorOutcomes.NothingMoved` | iat/buyer_agent_scheduler.py:782-1066 | on every run no answer an anchor was advanced on had moved, signed or broadcast anything; the authorisation is the foundation's, the simulation ran on a test cluster, the permit is for one claim |
| `AnchorOutcomes.SuccessLeads` | iat/buyer_agent_scheduler.py:782-1416 | where a stored answer leads by stage and decision, with the next stage due at once |
| `AnchorOutcomes.SuccessSchedulesNextOnly` | iat/buyer_agent_scheduler.py:782-1416 | a stored answer touches no other stage, but for the due time of the one that follows, which a rejection leaves alone |
| `AnchorOutcomes.AttemptIsClaimThenRun` | iat/buyer_agent_scheduler.py:640-668 | under the lock an attempt is a claim and then the run of what was claimed, and only a stored answer is taken |
| `AnchorOutcomes.FailureLeads` | iat/buyer_agent_scheduler.py:1608-1711 | an answer that is not stored gives the stage up, leaves it unconfigured, ends it with its attempts, or sends it back to where it was claimed |
| `AnchorOutcomes.FailureIsRecorded` | iat/buyer_agent_scheduler.py:1608-1711 | with the reason on record, the lease gone and everything else as it was |
| `AnchorOutcomes.UnverifiedJournalFails` | iat/buyer_agent_scheduler.py:1618-1631 | an attestation over a journal that does not verify fails for good before the wallet is asked |
| `AnchorOutcomes.DelayDoubles` | iat/buyer_agent_scheduler.py:748-780 | a retry waits the poll interval, doubled up to the sixth attempt, five minutes at most |
| `AnchorOutcomes.ClaimLeads` | iat/buyer_agent_scheduler.py:698-746 | a claim counts an attempt and takes a lease, or fails an anchor whose attempts are spent; other stages stay |
| `AnchorOutcomes.DueExactly` | iat/buyer_agent_scheduler.py:1000-1037 | a stage can be claimed when it waits and is due or its lease has run out, and in no other state |
| `DeliveryQueue.DeliveryStore.EnqueueDelivery` | iat/checkout_delivery.py:130-172 | inserts if and only if quote, order and transaction are all new, so that each keeps one row; otherwise nothing changes |
| `DeliveryQueue.DeliveryStore.Claim` | iat/checkout_delivery.py:624-680 | a fresh token is handed out if and only if the row was claimable, with the lease, the attempt and the event |
| `DeliveryQueue.DeliveryStore.Finish` | iat/checkout_delivery.py:683-750 | changes the row if and only if it runs under this token; otherwise nothing |
| `DeliveryQueue.DeliveryStore.MarkOrder` | iat/checkout_delivery.py:753-800 | marks only an order that is not used |
| `DeliveryQueue.DeliveryStore.RedriveExhausted` | iat/checkout_delivery.py:396-465 | reopens exactly an exhausted delivery, with the reason's length checked first |
| `DeliveryQueue.DeliveryStore.ResumeReviewRequired` | iat/checkout_delivery.py:468-536 | reopens exactly a review-required delivery without resetting its attempts |
| `DeliveryQueue.DeliveryStore.AccelerateRetry` | iat/checkout_delivery.py:539-621 | makes due exactly a retry that waits for evidence, after the cooldown |
| `DeliveryQueue.DeliveryStore.RunCheckoutDelivery` | iat/checkout_delivery.py:814-1014 | one uninterrupted attempt, for every answer of the executor: how row and order end |
| `DeliveryQueue.DeliveryStore.ListDueSettlements` | iat/checkout_delivery.py:1035-1052 | the first due allocations by due time, all of them when there is room, a hundred at most |
| `DeliveryQueue.DeliveryStore.RunSettlementSweep` | iat/checkout_delivery.py:1031-1120 | each of those is retried once; orders, other deliveries and delivery states stay |
| `DeliveryQueue.SettlingKeepsDelivery` | iat/checkout_delivery.py:1073-1099 | a swept delivery stays completed, is settled exactly when the ledger accepted it, and is otherwise due again within the hour but not at once |
| `DeliveryQueue.RetryDelaysGrow` | iat/checkout_delivery.py:885-1001 | waits between attempts never shrink and never exceed 3600 seconds |
| `DeliveryOutcomes.OrderEndsExactly` | iat/checkout_delivery.py:885-1010 | an attempt at an open order makes it used if and only if the executor authorised it; blocked and review-bound orders are marked so and stay unused, a failure leaves them alone |
| `DeliveryOutcomes.DeliveryEndsExactly` | iat/checkout_delivery.py:870-1010 | the delivery is completed if and only if authorised, blocked if and only if blocked, otherwise exhausted with the last attempt or due again after its delay |
| `DeliveryOutcomes.DeliveryIsRecorded` | iat/checkout_delivery.py:870-1010 | with its error, its settlement booked or due in thirty seconds, and the lease gone |
| `DeliveryOutcomes.NoWorkEndsExactly` | iat/checkout_delivery.py:829-858 | a delivery without its order is given up, one whose order was delivered is completed with what the order says |
| `DeliveryOutcomes.RetryDelayDoubles` | iat/checkout_delivery.py:885-889 | the delay starts at the base interval and doubles up to an hour |
| `DeliveryOutcomes.ClaimableExactly` | iat/checkout_delivery.py:631-654 | claimable when waiting and due or when the lease has run out, and in no other state |
| `DeliveryOutcomes.FinishesExactly` | iat/checkout_delivery.py:683-750 | a finish takes effect if and only if the row runs under the token, and sets exactly these columns |
| `DeliveryOutcomes.RedrivesExactly` | iat/checkout_delivery.py:396-465 | exactly an exhausted delivery goes back to the start |
| `DeliveryOutcomes.ResumesExactly` | iat/checkout_delivery.py:468-536 | exactly a delivery under review goes back to be tried again, with the attempts it made |
| `DeliveryOutcomes.AcceleratesExactly` | iat/checkout_delivery.py:539-621 | exactly a retry that waits for a decision beyond the cooldown is made due |
| `DeliveryOutcomes.MarksExactly` | iat/checkout_delivery.py:753-800 | a used order is left alone, and only the completed mark makes one used |
| `DeliveryOutcomes.ConflictsExactly` | iat/checkout_delivery.py:130-172 | an insertion conflicts if and only if the quote is known or two quotes would share an order or a payment |
| `DeliveryOutcomes.SettlesExactly` | iat/checkout_delivery.py:1073-1099 | what a retried allocation leaves, with half a minute doubled up to an hour before the next |
| `DeliveryRuns.RunsAreSafe` | iat/checkout_delivery.py:624-1014 | on every interleaving of workers, crashes, expiries and operators: running means holding a lease, a finish time means a terminal state, the attempt count is the number of claims since enqueueing or the last redrive, at most max-1 attempts end retryable, and a completed delivery has a used order |
| `DeliveryRuns.NextKeepsValid` | iat/checkout_delivery.py:624-1120 | every single step of every worker, operator and sweep keeps that invariant |
| `DeliveryRuns.AloneIsOneCall` | iat/checkout_delivery.py:814-1014 | the split statements of one worker, with nothing in between, are the attempt the store makes in one call, and leave no worker behind |
| `DeliveryRuns.ClosedForever` | iat/checkout_delivery.py:624-750 | completed and blocked deliveries are never claimed again and never left |
| `DeliveryRuns.SupersededForever` | iat/checkout_delivery.py:631-654 | a token that lost its lease never gets it back |
| `DeliveryRuns.SupersededWorkerIsHarmless` | iat/checkout_delivery.py:683-750 | whatever a superseded worker still does, however late, leaves the delivery row and its counts alone |
| `DeliveryRuns.UsedOrderStays` | iat/checkout_delivery.py:753-800 | a used order keeps status, signature and result through any attempts |
| `DeliveryRuns.FailedAttemptEnds` | iat/checkout_delivery.py:870-1010 | a failed attempt of the lease holder is exhausted if and only if its number reached the maximum, and otherwise waits the specified delay |
| `DeliveryRuns.MarksAreNotFenced` | iat/checkout_delivery.py:753-797 | order marks carry no token: a superseded worker still marks its order delivered |
| `DeliveryRuns.ExhaustedYetDelivered` | iat/checkout_delivery.py:814-1014 | so a run with one allowed attempt can end exhausted with its order delivered |
| `DeliveryRuns.GuardedMarksNeverDeliverExhausted` | iat/checkout_delivery.py:753-800 | when orders are marked under the current lease only, on every interleaving the order of an exhausted delivery is not used |
| `DeliveryRuns.MarkIsSafeExactly` | iat/checkout_delivery.py:753-797 | a mark that delivers an open order keeps that promise if and only if the delivery is neither exhausted nor in the hands of a lease holder that may still exhaust it, which it never is for the holder itself; so the guard to ask in the UPDATE is `lease_token` equal to the marking worker's own, as in `DeliveryRuns.GuardedMarksNeverDeliverExhausted` |
| `DeliveryRuns.BrokenMarkEndsBoth` | iat/checkout_delivery.py:753-1014 | and where the promise is broken, the lease holder can end the delivery exhausted with its order delivered |
| `DeliveryRuns.DeliveredMustMeanUsed` | iat/checkout_delivery.py:846-854 | a lone attempt at a delivered order ends completed, with a used order if and only if it was used |
| `DeliveryRuns.MarksWriteUsed` | iat/checkout_delivery.py:759-797 | no mark of the queue makes an order delivered that is not used |
| `HostedEventVerifier.VerifierIsExact` | iat/hosted_buyer_jobs.py:311-354 | the verifier accepts all rows if and only if they are a permutation of one unbroken chain from genesis |
| `HostedEventVerifier.ValidReportIsChain` | iat/hosted_buyer_jobs.py:325-354 | a valid report for all rows exhibits that chain, for any hash function |
| `HostedEventVerifier.ValidReportMayDropRows` | iat/hosted_buyer_jobs.py:325-335 | a valid report covers all rows if and only if no two rows link to the same hash |
| `HostedEventVerifier.ReportExactly` | iat/hosted_buyer_jobs.py:325-354 | an invalid report names a first invalid index, counts all rows and has no head; a valid one names none |
| `HostedEventVerifier.ForkIsReportedValid` | iat/hosted_buyer_jobs.py:325-335 | two first events: reported valid with a count of one |
| `HostedEventVerifier.VerifyEvents` | iat/hosted_buyer_jobs.py:325-354 | the dictionary, the popping loop and the rehashing loop compute the specified report |
| `HostedEventVerifier.FollowLinks` | iat/hosted_buyer_jobs.py:326-331 | the link-following loop ends because the dictionary shrinks, and counts what it left |
| `HostedEventVerifier.FollowsChain` | iat/hosted_buyer_jobs.py:326-331 | following the links of an indexed chain returns its rows in the order they were appended |
| `HostedBuyerJobs.AppendKeepsChainExactly` | iat/hosted_buyer_jobs.py:282-308 | an append keeps the chain if and only if the row appended last is still the latest by creation time and id |
| `HostedBuyerJobs.EqualTimesFork` | iat/hosted_buyer_jobs.py:288-292 | two rows of one second with ids in the wrong order make the next append fork |
| `HostedBuyerJobs.Queue.RecordEvent` | iat/hosted_buyer_jobs.py:282-308 | appends an event that links to the latest row by time and id |
| `HostedBuyerJobs.Queue.Enqueue` | iat/hosted_buyer_jobs.py:78-139 | one job per agent and intent, or the first of four errors |
| `HostedBuyerJobs.Queue.ReleaseExpired` | iat/hosted_buyer_jobs.py:152-158 | expired leases of all jobs go back to the queue, everything else stays |
| `HostedBuyerJobs.Queue.FirstDue` | iat/hosted_buyer_jobs.py:165-175 | a due job with the least due time and creation time, or none is due |
| `HostedBuyerJobs.Queue.Claim` | iat/hosted_buyer_jobs.py:142-199 | leases the job asked for or the first one due under a fresh token, with the lease kept between 15 and 300 seconds |
| `HostedBuyerJobs.Queue.Finish` | iat/hosted_buyer_jobs.py:202-251 | updates if and only if the job is leased under this token; otherwise `lease_conflict` and no change |
| `HostedBuyerJobs.Queue.VerifyJobEvents` | iat/hosted_buyer_jobs.py:311-354 | the verification of a job's rows in any order decides whether its journal is a permuted chain |
| `HostedBuyerOutcomes.EnqueueRefusesExactly` | iat/hosted_buyer_jobs.py:87-96 | which of the four errors is given, each by an if-and-only-if |
| `HostedBuyerOutcomes.EnqueuesExactly` | iat/hosted_buyer_jobs.py:98-139 | a new job is queued and due at once if and only if neither its id nor its agent and intent are known |
| `HostedBuyerOutcomes.ClaimsExactly` | iat/hosted_buyer_jobs.py:142-199 | a claim leases a due job under a fresh token for the given time and counts an attempt; every other expired lease is queued again |
| `HostedBuyerOutcomes.FinishesExactly` | iat/hosted_buyer_jobs.py:202-251 | a finish takes effect if and only if the job is leased under its token, with state, action, error and next due time as given |
| `HostedBuyerOutcomes.SoonerExactly` | iat/hosted_buyer_jobs.py:165-175 | the job due for longest goes first, of equals the oldest |
| `HostedBuyerRuns.RunsAreSafe` | iat/hosted_buyer_jobs.py:78-251 | on every run: leased means holding a token and an expiry, tokens differ, attempts are the lease events, and the state is the last journaled one unless an expired lease went back silently |
| `HostedBuyerRuns.SupersededFinishConflicts` | iat/hosted_buyer_jobs.py:202-238 | a worker whose token was taken away changes nothing, however late it finishes |
| `HostedBuyerRuns.AttemptsAreNotLimited` | iat/hosted_buyer_jobs.py:142-199 | claims ignore `max_attempts`: a job allowed one attempt reaches any number |
| `HostedBuyerRuns.ClaimStaysWithinExactly` | iat/hosted_buyer_jobs.py:142-199 | a claim keeps its job within the maximum if and only if the job has attempts left or is not due |
| `HostedBuyerRuns.GuardedClaimsStayWithin` | iat/hosted_buyer_jobs.py:142-199 | on every run whose claims ask for attempts left, no job is attempted more often than its maximum |
| `HostedBuyerRuns.RisingClockKeepsChains` | iat/hosted_buyer_jobs.py:282-308 | when every event is journaled at a later time than those before it in its journal, every journal stays one unbroken chain |
| `HostedBuyerRuns.RisingClockVerifies` | iat/hosted_buyer_jobs.py:282-354 | and then the verifier accepts all its rows in whatever order they are read |
| `SpendBudget.SpendStore.SavePolicy` | iat/buyer_identity.py:336-391 | stores a policy or gives the first of three errors |
| `SpendBudget.SpendStore.Authorize` | iat/buyer_identity.py:416-490 | reserves exactly when no check refuses, once per quote; a repeated quote answers with its reservation and reserves nothing |
| `SpendBudget.SpendStore.UpdateReservation` | iat/buyer_identity.py:493-525 | moves any named reservation and its expiry |
| `SpendBudget.QueryIsBudget` | iat/buyer_identity.py:460-467 | the daily query adds up exactly the live reservations of the day |
| `SpendBudget.ReservesExactly` | iat/buyer_identity.py:426-476 | a reservation is made if and only if the amount is positive and within the policy's limit per order, the spend has not expired, the policy is enabled for its asset and service, the quote is new, and the day has room |
| `SpendBudget.RefusesExactly` | iat/buyer_identity.py:431-468 | which refusal is given, each by an if-and-only-if in the order of the checks |
| `SpendBudget.KnownQuoteExactly` | iat/buyer_identity.py:453-458 | a known quote is repeated for the same wallet and amount and refused otherwise |
| `SpendBudget.OrdersStayWithinLimit` | iat/buyer_identity.py:447-448 | on every run no reservation is empty or exceeds the highest limit per order its wallet has had |
| `SpendBudget.UpdatesExactly` | iat/buyer_identity.py:493-525 | an update writes state and expiry of the one reservation of its quote |
| `SpendBudget.PolicyCheckExactly` | iat/buyer_identity.py:336-358 | which of the three errors a policy gets |
| `SpendBudget.UpdateIsSafeExactly` | iat/buyer_identity.py:493-525 | an update keeps every day within the limit if and only if it is a release, or in time, or the late amount still fits |
| `SpendBudget.DailyLimitHolds` | iat/buyer_identity.py:416-525 | on every run whose commitments are in time, the submitted and confirmed reservations of a UTC day, and all live ones, are within the highest limit the wallet has had |
| `SpendBudget.PeakIsTheLimit` | iat/buyer_identity.py:336-391 | while no policy lowers its limit, that highest limit is the one in force |
| `SpendBudget.LateSubmitBreaksTheLimit` | iat/buyer_identity.py:493-525 | a submission after expiry lets two spends through that fit only one at a time |
| `SpendBudget.LateSubmitIsARun` | iat/buyer_identity.py:493-525 | that submission as a run from an empty store |
| `SpendBudget.InsertionIsSafeExactly` | iat/buyer_identity.py:458-476 | inserting a reservation, whatever it was decided on, keeps every day within its wallet's peak if and only if its amount fits what the daily query adds up at that moment |
| `SpendBudget.TwoReadsBreakTheLimit` | iat/buyer_identity.py:438-476 | two authorisations that both read before either inserts, as SQLite allows, are both granted on the room of one, where the atomic step refuses the second |
| `SpendDays.OutlayIsLimited` | iat/buyer_identity.py:460-525 | on every disciplined run what was committed on one UTC day is within the highest limit plus what was reserved on earlier days |
| `SpendDays.OwnDayOutlayIsLimited` | iat/buyer_identity.py:460-525 | while reservations are committed on the day they were made, it is within the limit |
| `SpendDays.CommitmentFitsExactly` | iat/buyer_identity.py:493-525 | a commitment keeps its day's outlay within a limit if and only if its amount, unless counted already, still fits |
| `SpendDays.MidnightDoublesTheDay` | iat/buyer_identity.py:460-525 | one reservation before and one after midnight, both committed in time on the second day, cost it up to twice the limit |
| `IntentDecisions.DecisionStore.Save` | iat/buyer_identity.py:528-604 | one decision per wallet and key, with the request compared on replay |
| `IntentDecisions.DecisionStore.Claim` | iat/buyer_identity.py:638-689 | claims once in thirty seconds before expiry, or replays the order |
| `IntentDecisions.DecisionStore.Finalize` | iat/buyer_identity.py:692-712 | binds the order if and only if claimed and not bound |
| `IntentDecisions.DecisionStore.Release` | iat/buyer_identity.py:715-734 | gives a claim back unless an order is bound |
| `IntentDecisions.ClaimsExactly` | iat/buyer_identity.py:638-689 | which of replay, first commit, expired and in progress a claim gets, each by an if-and-only-if |
| `IntentDecisions.BindsExactly` | iat/buyer_identity.py:692-734 | what finalization and release leave |
| `IntentDecisions.BoundToOneOrder` | iat/buyer_identity.py:638-734 | however many workers claim, finalize and release, at most one finalization succeeds |
| `IntentDecisions.BoundForever` | iat/buyer_identity.py:660-665 | a bound decision never changes and every later claim replays its order |
| `IntentDecisions.TakenOverClaimStillFinalizes` | iat/buyer_identity.py:692-712 | claims carry no token: after a takeover, possible exactly thirty seconds later within the decision's life, the first worker may still finalize |
| `OutreachWindow.EligibleExactly` | iat/growth.py:866-925 | eligible if and only if no contact, no unblocked action and no window is less than a day old |
| `OutreachWindow.GrowthStore.CheckProposal` | iat/growth.py:928-954 | the checks before a proposal, in a transaction of their own |
| `OutreachWindow.GrowthStore.InsertProposal` | iat/growth.py:1018-1066 | inserts an action unless its campaign has one, and reserves the window only when the old one is a day old |
| `OutreachWindow.GrowthStore.ProposeAction` | iat/growth.py:928-1079 | check and insertion with nothing in between |
| `OutreachWindow.GrowthStore.ApproveAction` | iat/growth.py:1082-1103 | approves any action that is not blocked or executed |
| `OutreachWindow.GrowthStore.RetryAction` | iat/growth.py:1109-1144 | approves a failed action again within three attempts and only when the prospect is eligible |
| `OutreachWindow.GrowthStore.CheckExecution` | iat/growth.py:1155-1201 | passes if and only if the action may be attempted, and changes nothing |
| `OutreachWindow.GrowthStore.ClaimExecution` | iat/growth.py:1203-1224 | claims whatever action is still approved, and sets the contact time |
| `OutreachWindow.GrowthStore.FinishExecution` | iat/growth.py:1243-1259 | the result is written whatever became of the action, and the attempt counted |
| `OutreachWindow.GrowthStore.RecoverStaleActions` | iat/growth.py:828-854 | exactly the executions older than the limit fail |
| `OutreachOutcomes.InsertsExactly` | iat/growth.py:1018-1066 | a proposal becomes an action if and only if its campaign has none for the prospect and no window is a day young, and only an unblocked one opens a window |
| `OutreachOutcomes.ProposesExactly` | iat/growth.py:928-1066 | with nothing in between, a proposal is inserted if and only if its prospect is known and was left alone for a day |
| `OutreachOutcomes.RetriesExactly` | iat/growth.py:1109-1144 | exactly a failed action with fewer than three attempts whose prospect was left alone for a day is approved again |
| `OutreachOutcomes.ApprovesExactly` | iat/growth.py:1082-1103 | any action neither blocked nor executed is approved and keeps its attempts |
| `OutreachOutcomes.MayAttemptExactly` | iat/growth.py:1182-1194 | an approved action may be attempted if and only if its prospect was left alone for a day or it holds the open window |
| `OutreachOutcomes.ClaimsExactly` | iat/growth.py:1203-1224 | a claim marks the action and sets the contact time of its prospect alone |
| `OutreachOutcomes.FinishesExactly` | iat/growth.py:1243-1259 | executed if and only if delivered, failed otherwise, and one attempt more |
| `OutreachOutcomes.RecoversExactly` | iat/growth.py:828-854 | exactly an execution that has not moved for the given time, a minute at least, fails |
| `OutreachOutcomes.NewestExactly` | iat/growth.py:880-892 | the newest action is the last created, of those created together the one with the greatest id |
| `OutreachRuns.AttemptsAreADayApart` | iat/growth.py:866-1263 | on every run with claims and insertions that rest on checks of any age, a clock that does not run back, guarded approvals, claims whose action may still be attempted and insertions whose prospect is still eligible, any two attempts to one prospect are at least 86400 seconds apart |
| `OutreachRuns.AttemptsADayApartHappen` | iat/growth.py:828-1263 | and the day is attained: a guarded run of discovery, proposal, approval, attempt, recovery, retry and attempt, with the two attempts exactly 86400 seconds apart |
| `OutreachRuns.AllowedAttemptIsSpaced` | iat/growth.py:1182-1194 | an attempt the rule allows comes at least a day after the last contact |
| `OutreachRuns.WindowsAreADayApart` | iat/growth.py:1029-1052 | successive windows of a prospect open at least a day apart on every run, whatever was approved |
| `OutreachRuns.ApprovalIsSafeExactly` | iat/growth.py:1082-1103 | an approval allows a too early attempt at once if and only if it re-arms an action already tried inside its own window |
| `OutreachRuns.ClaimIsSafeExactly` | iat/growth.py:1203-1224 | a claim comes a day after the last contact and leaves the windows in order if and only if its action may be attempted at that moment |
| `OutreachRuns.InsertIsSafeExactly` | iat/growth.py:1028-1063 | where the window is open, an insertion leaves the windows in order if and only if its prospect is eligible at that moment |
| `OutreachRuns.ChecksDoNotAge` | iat/growth.py:1182-1224 | with nothing in between a check of a claim or of a proposal holds at any later time, so that what rests on it meets the guard |
| `OutreachRuns.ProposalBetweenCheckAndClaim` | iat/growth.py:1182-1223 | a proposal between check and claim takes the condition away and allows two attempts at the same time |
| `ReceiptCompensation.CheckoutStore.ConfigureDeliveryReceipt` | iat/checkout_receipt.py:197-289 | configures, rebinds an undecided receipt of the order, or refuses; orders stay unique |
| `ReceiptCompensation.CheckoutStore.PublishDeliveryPayload` | iat/checkout_receipt.py:456-550 | gives a quote without receipt one first, then refuses a payload too large or a key it cannot read, seals once, repairs, or refuses another digest |
| `ReceiptCompensation.CheckoutStore.AcknowledgeDelivery` | iat/checkout_receipt.py:622-700 | a decision is final and idempotent; a dispute also requests compensation |
| `ReceiptCompensation.CheckoutStore.DispatchNotification` | iat/checkout_receipt.py:761-879 | one notification changes the receipt only when ready, sealed, due and not yet dispatched |
| `ReceiptCompensation.CheckoutStore.RecordEmailProviderEvent` | iat/checkout_receipt.py:1141-1225 | recipient, event and time are checked in this order, a repeated event changes nothing, and no callback decides a delivery |
| `ReceiptCompensation.CheckoutStore.SettlementReleaseGate` | iat/checkout_receipt.py:423-453 | release is allowed if and only if every receipt of the order is accepted, hence also without one |
| `ReceiptCompensation.ReleaseGate` | iat/checkout_receipt.py:423-453 | allowed if and only if a receipt, when there is one, is accepted |
| `ReceiptCompensation.CheckoutStore.RequestCompensation` | iat/checkout_compensation.py:134-228 | created once, only for a confirmed quote whose delivery failed for good or was disputed, with the refund terms of its route |
| `ReceiptCompensation.CheckoutStore.DecideCompensation` | iat/checkout_compensation.py:231-298 | decides a pending compensation, answers a repeated decision, refuses a different one |
| `ReceiptOutcomes.ConfiguresExactly` | iat/checkout_receipt.py:197-289 | when a destination may be set or an order move to another quote, and what stays |
| `ReceiptOutcomes.PublishesExactly` | iat/checkout_receipt.py:456-550 | a digest is sealed once; the same payload fills in what is missing, another is refused |
| `ReceiptOutcomes.SignsExactly` | iat/checkout_receipt.py:472-530 | a first publication is signed if and only if a readable key is configured |
| `ReceiptOutcomes.AcknowledgesExactly` | iat/checkout_receipt.py:622-700 | which decisions are taken, repeated or refused, and what they leave |
| `ReceiptOutcomes.SendsExactly` | iat/checkout_receipt.py:761-879 | a notification is sent if and only if all eight conditions hold |
| `ReceiptOutcomes.DispatchAnswersExactly` | iat/checkout_receipt.py:761-879 | and otherwise which answer is given |
| `ReceiptOutcomes.SentIsRecorded` | iat/checkout_receipt.py:735-879 | what a notification leaves, with the next attempt after an error |
| `ReceiptOutcomes.CallbacksExactly` | iat/checkout_receipt.py:1141-1195 | which callbacks are taken, and which error the others get |
| `ReceiptOutcomes.CallbackIsRecorded` | iat/checkout_receipt.py:1195-1225 | what a callback leaves; it decides nothing |
| `ReceiptOutcomes.RefusesRequestsExactly` | iat/checkout_compensation.py:134-228 | which refusal a request for compensation gets |
| `ReceiptOutcomes.CompensatesExactly` | iat/checkout_compensation.py:119-228 | what is refunded is what was paid in through the treasury, and the priced amount in IAT otherwise; a dispute is the reason before the delivery's failure |
| `ReceiptOutcomes.DecidesExactly` | iat/checkout_compensation.py:231-298 | a pending compensation is approved or denied as decided, a decided one keeps its decision |
| `ReceiptOutcomes.GateNamesReason` | iat/checkout_receipt.py:423-453 | the reason the gate gives for each state |
| `ReceiptRuns.DecisionsTakeEffect` | iat/checkout_receipt.py:622-700 | a decision stands in the receipt, and a dispute leaves the compensation that is due |
| `ReceiptRuns.EnqueuesExactly` | iat/checkout_delivery.py:130-172 | a delivery is enqueued if and only if its quote is known and neither it nor its order has one |
| `ReceiptRuns.ReleaseOrRefund` | iat/checkout_receipt.py:423-700 | on every disciplined run an accepted receipt and a compensation of one quote never meet, and an accepted receipt carries the digest of its sealed payload over a completed delivery |
| `ReceiptRuns.NextKeepsValid` | iat/checkout_receipt.py:197-1225 | every guarded step keeps the invariant behind it |
| `ReceiptRuns.CompensationIsFinal` | iat/checkout_compensation.py:134-298 | on any run a compensation keeps terms and reason, and its decision is final |
| `ReceiptRuns.RunKeepsOrders` | iat/checkout_receipt.py:197-289 | on every run deliveries, receipts and compensations name the order of their quote, and an order has one delivery |
| `ReceiptRuns.GateExcludesRefund` | iat/checkout_receipt.py:423-453 | on disciplined runs an order with a receipt that the gate releases has no compensation under any of its quotes |
| `ReceiptRuns.CompensatedOrderIsReleasedExactly` | iat/checkout_receipt.py:423-453 | on disciplined runs a compensated order is released if and only if it has no receipt |
| `ReceiptRuns.LegacyOrderIsReleasedDespiteRefund` | iat/checkout_receipt.py:425-431 | the gate computed from a state with a compensation and without a receipt releases the order |
| `ReceiptRuns.RedriveIsSafeExactly` | iat/checkout_delivery.py:396-465 | redriving an exhausted delivery keeps the invariant if and only if it has no compensation |
| `ReceiptRuns.RedriveLeadsToBoth` | iat/checkout_delivery.py:396-465 | otherwise four steps lead to an accepted receipt beside a compensation |
| `ReceiptRuns.PublishIsSafeExactly` | iat/checkout_delivery.py:964-989 | publishing keeps the invariant if and only if the delivery is completed |
| `ReceiptRuns.UnfinishedPublishLeadsToBoth` | iat/checkout_delivery.py:964-989 | otherwise, as by a worker whose finish was refused, two steps lead to an accepted receipt beside a compensation |
| `ReceiptRuns.RepublishReopensExactly` | iat/checkout_receipt.py:483-511 | publishing again reopens a decided receipt if and only if a signing key was configured since |
| `ReceiptRuns.SigningChangeLeadsToBoth` | iat/checkout_receipt.py:483-511 | so a disputed and compensated delivery can then be accepted |
| `Ledger.ConversionsRoundTrip` | iat/ledger.py:21-40 | minor units survive the round trip and an amount is off by at most half a unit |
| `Ledger.ConversionsRefuseExactly` | iat/ledger.py:21-40 | exactly the amounts below nothing or beyond the largest 64-bit integer are refused |
| `Ledger.EntryErrorExactly` | iat/ledger.py:60-77 | which of five errors an entry gets, each by an if-and-only-if |
| `Ledger.ValidateJournal` | iat/ledger.py:53-91 | accepted if and only if at least two valid entries balance; the first bad entry decides the error |
| `Ledger.BuildSettlementAllocationJournal` | iat/ledger.py:94-153 | succeeds if and only if the amounts are in range, the gross positive and the split exact, and then the journal is balanced |
| `Ledger.AllocationTotals` | iat/ledger.py:110-135 | the debits of the entries are the gross and the credits commission plus payout |
| `Ledger.AllocationBooksExactly` | iat/ledger.py:110-135 | account by account: clearing gives the gross, the seller or the unknown one is owed the payout, the protocol earns the commission, nothing else is touched |
| `Ledger.BalancedHasBothSides` | iat/ledger.py:53-91 | a balanced journal debits something and credits something |
| `CheckoutSettlement.SplitIsExact` | iat/checkout_settlement.py:75-86 | for every price and rate the commission is within its rate, the seller keeps at least half, rounding commutes with the split, and what is worth booking pays the seller |
| `CheckoutSettlement.SplitExactly` | iat/checkout_settlement.py:20-25 | a price counts when it parses and is not negative, a rate between nothing and one half, one tenth when it does not parse |
| `CheckoutSettlement.WinnerExactly` | iat/checkout_settlement.py:56-73 | whom and which wallet a settlement names, in the order of the fallbacks |
| `CheckoutSettlement.BookSplit` | iat/checkout_settlement.py:75-86 | the split of every price and configured rate books if and only if its gross is between one minor unit and the maximum |
| `CheckoutSettlement.SettlementBook.Allocate` | iat/checkout_settlement.py:34-127 | one settlement per order, and payment waits for release exactly when there is a winner with a wallet and something to pay |
| `SandboxRuns.RequestsAnsweredAlikeExactly` | iat/sandbox.py:238-286 | on the same requests, the bounded store and one without eviction answer a request alike if and only if no creation under its key was evicted or both refuse it |
| `SandboxRuns.KeptKeysAnswerAsUnbounded` | iat/sandbox.py:238-286 | a key answers every request as in a store without eviction if and only if it was never used or its first creation is still kept |
| `SandboxRuns.EvictedKeyIsAnsweredDifferently` | iat/sandbox.py:524-532 | a key used again after its eviction creates a second order where a store without eviction refuses, and then refuses the request whose order that store replays |
| `SandboxRuns.UnboundedHoldsFirstUses` | iat/sandbox.py:238-286 | the store without eviction holds, for every key, the first order the bounded one created under it |
| `Sandbox.KnownKeysAreRemembered` | iat/sandbox.py:238-244 | a key is in the idempotency table if and only if its latest creation is among the last ones kept, with that creation's fingerprint and order |
| `Sandbox.OrdersAndKeysCorrespond` | iat/sandbox.py:283-285 | kept creations have different keys, so orders and keys are in bijection |
| `SandboxStore.BuyerSandbox.Purchase` | iat/sandbox.py:218-286 | a known key replays its order or is refused, a new key creates one that survives its own trim; reply and log are those of the remembered creations |
| `SandboxStore.BuyerSandbox.Trim` | iat/sandbox.py:524-536 | evicts oldest first with all that hangs on an order, leaving exactly the last creations |
| `SandboxStore.BuyerSandbox.RecordFeedback` | iat/sandbox.py:296-332 | one feedback key counts once, at most 64 per order, and counters are the numbers of stored keys |
| `SandboxStore.BuyerSandbox.GetOrder` | iat/sandbox.py:288-294 | the one stored order with the id, or not found if and only if no stored order has it |
| `Sandbox.NewestIsKept` | iat/sandbox.py:283-286 | the newest creation is always kept with its key |
| `Sandbox.AdjustmentIsBounded` | iat/sandbox.py:100-106 | the learned adjustment stays in [-5, 5] and the clamp never bites |
| `Sandbox.EarlyFeedbackCountsAQuarter` | iat/sandbox.py:104-106 | up to twenty observations each counts a quarter of a point |
| `Sandbox.LateFeedbackIsBalance` | iat/sandbox.py:104-106 | from twenty on it is five times the balance of opinion |
| `Sandbox.FeedbackMovesTheRightWay` | iat/sandbox.py:100-106 | a good observation never lowers a score and a bad one never raises it |
| `Sandbox.AdjustmentIsTheScore` | iat/sandbox.py:100-106 | rounding moves a score by half of a ten-thousandth at most |
| `Sandbox.LearnsExactly` | iat/sandbox.py:319-325 | a feedback is counted for its offer and its kind alone |
| `Sandbox.RepliesExactly` | iat/sandbox.py:238-260 | when a purchase is refused, replayed or answered with a new order |

## Left out

- SHA-256, HMAC, Ed25519, base58 and wallet formats: abstract functions or parameters; a hash column is the genesis value or any other text.
- SQL, HTTP, SMTP, environment parsing, schema migration and connection handling: each transaction is one step, remote answers are arbitrary, clock readings are non-negative integers.
- Failing statements inside a transaction (`retry`, `delivery_redrive_conflict` and the like when another writer slips in): transactions are atomic here.
- Listing, summary, dashboard and presentation functions: they change nothing and state little.
- Case folding of assets, services and channels: texts arrive normalised. `str.strip` is modelled on all of Unicode (`Text.StripExactly`).
- Anchor rows are keyed by the decision id; the truncated hash that names them is not modelled, nor the comparison of decision id, wallet and time in an attestation and a publication, which is one flag beside the assertions, effect, prefix, digest length, binding and evidence of the reply.
- The RuntimeError for a stored previous hash whose length is not 64, and the runner's `last_action` when replaying a journal: the journal does not determine the latter.
- A resume or schedule by another caller in the middle of `run_due_once`: interleavings are in `BuyerAgentRuns`, the cycle method runs alone.
- Database errors: transactions and reads succeed. One inside a job attempt's try block ends like an exception of the runner, except after a committed completion (`BuyerAgentProcesses.FailedReadStopsCompleted`); the success of a stage is written after its try blocks (iat/buyer_agent_scheduler.py:782-830), so an exception there leaves the cycle and acts like a crash, which `RunDueOnce` and the runs include.
- SpendBudget.SpendStore.Authorize: one atomic step, which describes the path with FOR UPDATE only, as do the runs of `SpendBudget` and `SpendDays`; on SQLite the reads run before any write lock is taken (iat/buyer_identity.py:438-467), and `SpendBudget.TwoReadsBreakTheLimit` shows what two authorisations can then do.
- DeliveryQueue.DeliveryStore.EnqueueDelivery: follows the SQLite statement; on Postgres only a repeated quote is ignored, and a repeated order or transaction raises.
- DeliveryRuns.RunsAreSafe: takes the attempt maximum as constant over a run, and lets the lease and the retry base differ at every step; that a delivered order is used at the start is an invariant of every statement that writes `delivered` (iat/checkout_delivery.py:759-781, iat/api/db.py:14093-14108).
- Exactly-once execution of a paid service: a worker that outlives its lease can still call the executor, as the source says.
- The reputation update and the settlement allocation inside an authorised attempt are one flag that says whether the allocation succeeded.
- Progress of hosted jobs in `waiting`: claims select only `queued` rows, so only the safety of claims is stated.
- SpendBudget.DailyLimitHolds: a day's spend is that of the reservations made on the day, as in the query; `SpendDays` states what holds by the day of the last commitment.
- OutreachWindow.GrowthStore.RetryAction: its eligibility check and its update are one step; the update alone is an approval, whose guard `OutreachRuns.ApprovalIsSafeExactly` gives.
- Campaign screening, suppression, domain health and message variants of a proposal: one of three verdicts. Responses of prospects are not modelled.
- Receipt and compensation event tables, the opening of the inbox and masked destinations: no state depends on them.
- Stage and dispatch texts such as excerpts and reasons, except where a later branch reads them.
- Prices are exact reals: Decimal context precision, NaN and infinity are not modelled; rounding of the learned adjustment breaks ties upwards.
- The sandbox's request normalisation, ranking and simulated result: an arbitrary selected offer and fingerprint; order ids are fresh.
- `iat/autonomous_buyer.py`, wallet adapters, the checkout routes, quotes and verifiers, and the rest of the API: field checks that reading one branch settles.
