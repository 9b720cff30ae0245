# A verified model of the experimentation platform's domain layer

The platform hands out feature-flag decisions, runs A/B experiments through a review lifecycle,
ingests events and attributes them to experiments, reports on variants and pauses experiments
whose guardrails are breached. This project models the domain layer (`internal/domain`) and the
background loop (`internal/app`), and proves what holds over every input and every run.

Each part has a specification (values and functions), code in the source's own form (classes
whose methods update fields, loops with invariants) proved against that specification, and laws
about the specification.

| files | what they model |
|---|---|
| `Common.dfy` | instants (nanoseconds since Go's zero time), JSON values, decimal numerals, lists without duplicates |
| `Events.dfy`, `EventStore.dfy` | ingestion, attribution, the queues of waiting events, replay; the store and service that do them |
| `EventOutcomes.dfy`, `EventJobs.dfy` | what every event is answered, what rows say, and which guardrail jobs are asked for |
| `EventConsistency.dfy`, `EventReplay.dfy`, `EventSteps.dfy`, `EventRuns.dfy`, `EventOrder.dfy`, `EventDelivery.dfy` | the invariant tying raw events, queues, rows and decisions together, when replay and each step keep it, and its consequences over runs |
| `Targeting.dfy`, `TargetingLaws.dfy`, `ComparisonLaws.dfy` | rule trees and the comparison of mixed values |
| `Assignment.dfy`, `Selection.dfy` | hash fraction, audience, weighted variant choice, choice of at most k experiments |
| `Experiments.dfy`, `ExperimentService.dfy` | lifecycle, versions, reviews, `Decide`, guardrail passes; the store and service that do them |
| `ExperimentRuns.dfy`, `ExperimentLaws.dfy` | the invariant of the experiment service, and its consequences over runs |
| `DecideLaws.dfy`, `VariantLaws.dfy`, `CommandLaws.dfy` | who is taken into an experiment and which variant they get; when a lifecycle command succeeds and what it does |
| `Reports.dfy`, `ReportLaws.dfy`, `GuardrailLaws.dfy` | reports and the guardrail metric, said of the rows; when the scan's division by a window fails |
| `IncidentLaws.dfy`, `GuardrailRuns.dfy` | which alarms share an incident, and that passes over different experiments do not disturb each other |
| `ServiceRuns.dfy` | the calls of one side as steps of the other: `Decide` as issued decisions, ingestion as exposures, scans and batches as guardrail steps |
| `Jobs.dfy`, `JobProtocol.dfy`, `JobLaws.dfy` | the guardrail job queue, any number of workers over it, and when a job gets its turn |
| `Leases.dfy` | the leader lease |
| `GuardrailWorker.dfy`, `WorkerRuns.dfy`, `WorkerFleet.dfy` | the worker's ticks, its batches as steps of the queue protocol, and any number of workers in the middle of theirs |

The strongest results, hardest first:

1. **Replay is the identity** on every reachable state, for every experiment and window. For any
   well-keyed state, one replay gives back its rows if and only if the rows in the window were the due ones
   (`EventReplay.ReplaySameExactly`). A decision stored under an id that stored events already name
   can break this: `EventSteps.IssueReplaysExactly` says exactly when it does at once,
   `EventRuns.IssueForeverExactly` exactly when it does now or later, and
   `EventSteps.IssueConsistentExactly` exactly when the queues and exposure marks suffer too. The
   `Define…Exactly` lemmas say the same of storing an event type.
2. **Ingestion is independent of order and batching**, exactly-once, and inert when repeated.
3. **Decisions stick** to one version and one variant over whole runs; the audit log explains every
   status; approvals and the uniqueness of a flag's active experiment hold in every reachable state.
4. **The job queue is safe** with any number of workers: no two live jobs alike, one holder per running
   job, at most ten claim and finish steps per job, spaced retries; and any number of
   workers, interleaved in the middle of their batches, are a run of that protocol.
5. **The lease is exclusive**: a request is granted if and only if no other worker holds the lease.
6. **Guardrail incidents** are reported at most once by the two evaluation paths together, never shared
   between experiments, and the first alarm stops an experiment whatever happened to others; the scan
   divides by zero exactly when a zero-window pause rule with a negative threshold is reached.
7. **Deciding is exact**: a decision is inside an experiment only if that experiment runs and takes the
   subject, the k that are drawn lowest are used, the variant is the one drawn, and everybody else gets
   the flag's default.

## Model

| member | source | states |
|---|---|---|
| `EventRuns.ReplayIdentityOnRuns` | internal/domain/service.go:739-787 | on every reachable state, deleting a window's rows of an experiment and rebuilding them gives back the same multiset of rows, changes nothing else but the job log, and rebuilds as many rows as it deleted |
| `EventReplay.ReplayIdentity` | internal/domain/service.go:744-786 | the same from any consistent state, and the result is consistent again |
| `EventReplay.ReplaySameExactly` | internal/domain/service.go:744-779 | in any state that keys its records by their own ids, one replay gives back the rows it found if and only if the rows it replaces were the due ones, each once |
| `EventReplay.EveryReplaySameExactly` | internal/domain/service.go:744-779 | every replay of every experiment does so if and only if, for each experiment that exists, its rows are the due ones, each once |
| `EventSteps.IssueRowsExactly` | internal/domain/service.go:505-537 | storing a new decision keeps the attributed rows exact if and only if it is outside experiments or every stored event naming it waits for an exposure |
| `EventSteps.IssueReplaysExactly` | internal/domain/service.go:744-779 | after storing a new decision every replay still gives back its rows if and only if the decision's experiment does not exist or every stored event naming the decision waits for an exposure |
| `EventRuns.IssueForeverExactly` | internal/domain/service.go:437-542 | on a reachable state, storing a new decision keeps every replay in every future the identity if and only if the decision is outside experiments or no stored event names its id |
| `EventSteps.IssueConsistentExactly` | internal/domain/service.go:505-537 | storing a new decision keeps rows, queues and exposure marks all exact if and only if no stored event naming its id is an exposure, waits for one, or would now be attributable |
| `EventSteps.IssueHarm` | internal/domain/service.go:466-506 | any such stored event makes the views wrong |
| `EventRuns.ReplayDiffersForLateDecision` | internal/domain/service.go:758-779 | concrete events for which replay attributes what live ingestion did not, when a decision takes an id already named |
| `EventSteps.DefineConsistentExactly` | internal/domain/store.go:323-335 | storing an event type, new, changed or archived, keeps the views exact if and only if its exposure requirement stays, it is the exposure type itself, or no stored event of the type names a known unexposed decision |
| `EventSteps.DefineReplaysExactly` | internal/domain/service.go:761-768 | after storing an event type every replay still gives back its rows if and only if no stored event of an existing experiment changes standing by it |
| `EventRuns.DefineForeverExactly` | internal/domain/service.go:761-768 | on a reachable state, storing an event type keeps every replay in every future the identity if and only if no stored event of a decision inside experiments changes standing by it |
| `EventSteps.RunConsistent` | internal/domain/service.go:437-542 | every run that issues all decisions under unnamed ids keeps rows and queues exactly the views that raw events and decisions define |
| `EventRuns.RunExact` | internal/domain/service.go:437-542 | every run that issues decisions inside experiments under unnamed ids, and others under any new id, keeps the views of the decisions inside experiments exact |
| `EventRuns.IngestOneInside` | internal/domain/service.go:485-515 | ingestion, seen from the decisions inside experiments, does not depend on the decisions outside them |
| `EventRuns.ExactlyOnce` | internal/domain/service.go:485-542 | a stored event of an experiment is attributed once or waits once, in its own decision's queue, and waits precisely while its type requires an exposure the decision has not had |
| `EventRuns.NoRowWithoutExposure` | internal/domain/service.go:498-512 | a row whose type requires exposure is attributed only beside an attributed exposure of the same decision |
| `EventConsistency.IngestOneConsistent` | internal/domain/service.go:440-515 | ingesting any one event, admissible or not, keeps the invariant |
| `EventConsistency.IngestBatchConsistent` | internal/domain/service.go:437-518 | so does any batch |
| `EventConsistency.ExposeConsistent` | internal/domain/service.go:485-495 | an exposure marks its decision and releases exactly the events that waited for it |
| `EventConsistency.EnqueuedConsistent` | internal/domain/service.go:508-512 | an event without its exposure waits, once |
| `EventConsistency.UnknownDecisionConsistent` | internal/domain/service.go:503-507 | an event rejected for a missing decision stays stored as raw and in no view |
| `EventOrder.OrderIndependentFrom` | internal/domain/service.go:437-518 | any two deliveries of the same admissible events with distinct ids, in any order and any batches at any instants, from any state with exact views, end with the same exposure flags, queues, rows and raw events, receive times aside |
| `EventDelivery.OrderIndependent` | internal/domain/service.go:437-518 | the same from every reachable state, where decisions outside experiments may have taken ids that stored events named |
| `EventDelivery.AnyOrderFrom` | internal/domain/service.go:437-518 | the same from any state whose views are exact for the decisions inside experiments |
| `EventDelivery.DeliveryEffect` | internal/domain/service.go:485-512 | from any state, a new exposure among the arrivals marks its decision and empties its queue for good; without one the queue grows by the new events that must wait, in order of arrival |
| `EventOrder.ViewsDetermined` | internal/domain/service.go:485-542 | consistent states over the same raw events and decisions agree on every view |
| `EventOrder.ReingestionIsInert` | internal/domain/service.go:463-484 | a batch ingested again later stores nothing and accepts nothing, undated events, repeated ids and conflicting payloads included |
| `EventOrder.BatchAccounting` | internal/domain/service.go:437-518 | accepted, duplicate and rejected add up to the batch, errors match rejections, and the raw events grow by the accepted ones and those whose decision was missing |
| `EventOutcomes.KnownEventExactly` | internal/domain/service.go:463-484 | an admissible event whose id is stored changes nothing and is a duplicate if and only if type, subject, decision, microsecond and properties (absent like empty) are the stored ones; otherwise it is rejected as conflicting |
| `EventOutcomes.UnwelcomeExactly` | internal/domain/service.go:441-462 | an event without id, over seven days old, or of an unknown or archived type is rejected with the first of these reasons and changes nothing |
| `EventOutcomes.NewEventExactly` | internal/domain/service.go:463-515 | a new admissible event is stored with its receipt and is accepted unless it needs an exposure of a decision that does not exist |
| `EventOutcomes.AllDuplicates` | internal/domain/service.go:463-484 | a batch of admissible events with the stored payloads is counted as duplicates throughout, without an error |
| `EventOutcomes.RepeatIsDuplicate` | internal/domain/service.go:463-484 | a batch of new dated events sent again unchanged while still recent, whatever happened in between, is all duplicates |
| `EventOutcomes.RowsTell` | internal/domain/service.go:520-542 | on every reachable state each attributed row has its stored event's type, instant and properties and its decision's experiment and variant |
| `EventOutcomes.WindowRemoves` | internal/domain/store.go:394-406 | a replay removes the experiment's rows from `from` on and before `to`, and every other row stays as often as it was |
| `EventOutcomes.WindowLists` | internal/domain/store.go:408-419 | the raw events listed for a window are the stored ones from `from` on and before `to` |
| `EventJobs.IngestAsksPerRow` | internal/domain/service.go:520-542 | any batch only appends rows and job requests, and the new requests ask for the new rows one for one: the row's experiment and minute, as an attributed event |
| `EventJobs.ReplayAsksPerRow` | internal/domain/service.go:758-779 | on every reachable state a replay only appends requests, all for its experiment and marked as replays: for each minute as many as the experiment has rows of the window in it, and in all as many as it reports |
| `EventStore.MemoryStore.SaveEvent` | internal/domain/store.go:347-355 | stores a new id, leaves a known one, and says which |
| `EventStore.MemoryStore.MarkExposed` | internal/domain/store.go:311-321 | exposes the decision, if there is one |
| `EventStore.MemoryStore.PutPending` | internal/domain/store.go:364-369 | appends to the decision's queue |
| `EventStore.MemoryStore.DrainPending` | internal/domain/store.go:371-377 | returns the decision's queue and removes it |
| `EventStore.MemoryStore.DeleteAttributedForExperimentInRange` | internal/domain/store.go:394-406 | removes the experiment's rows in the half-open window and keeps the others in order |
| `EventStore.MemoryStore.ListRawEventsInRange` | internal/domain/store.go:408-419 | lists the window's raw events, each once, in any order |
| `EventStore.Service.TryAttribute` | internal/domain/service.go:520-542 | appends the event's row and job request when its decision is in an experiment |
| `EventStore.Service.IngestEvent` | internal/domain/service.go:440-516 | one event: the branches of the ingestion loop, against the specification |
| `EventStore.Service.IngestEvents` | internal/domain/service.go:437-518 | the new state and the counts are those of the batch specification |
| `EventStore.Service.ReplayAttribution` | internal/domain/service.go:739-787 | an unknown experiment changes nothing; otherwise the new state is the replay over some listing of the window, the count is the rows rebuilt, and one audit entry says so |
| `ExperimentLaws.DecisionsStick` | internal/domain/service.go:406-426 | all decisions recorded for an experiment carry one version, whose snapshot contains the chosen variant; one subject always has the same variant and value |
| `ExperimentLaws.DecisionsKept` | internal/domain/store.go:297-321 | over any stretch of a run a recorded decision is never lost or rewritten; only its exposure mark changes, from unset to set |
| `ExperimentLaws.HistoryKept` | internal/domain/service.go:313-354 | over any stretch of a run an experiment stays itself, its version snapshots are only appended to, and once launched it stays launched under the same configuration |
| `ExperimentLaws.RetryNeverCreates` | internal/domain/service.go:114-121 | once the owner has an experiment of the name, a call with an idempotency key creates nothing, at any later time |
| `ExperimentLaws.AuditRefinesStatus` | internal/domain/service.go:134-352 | running the lifecycle automaton over the audit log always allows the stored status, and leaves at most the choice between in_review and approved |
| `ExperimentLaws.EveryStepExplained` | internal/domain/service.go:151-352 | every status change appends one matching audit entry; identity is kept, versions are only appended to, and a launched experiment keeps its configuration |
| `ExperimentLaws.ApprovalBehind` | internal/domain/service.go:182-213 | behind every approved, running, paused or completed experiment there is an approving review in its run that found as many distinct approvers as the policy of that moment asked for, and the history is unchanged since |
| `CommandLaws.SucceedsExactly` | internal/domain/service.go:151-354 | a lifecycle command succeeds if and only if the experiment exists in a status the command starts from, the actor may give it, and it is sensible: a known review decision, a free flag, a valid configuration |
| `CommandLaws.RefusalTrue` | internal/domain/service.go:151-354 | a refusal names a requirement that fails, and changes nothing |
| `CommandLaws.PermittedDoes` | internal/domain/service.go:151-354 | a permitted command changes its one experiment as its name says and appends one audit entry in its actor's name, and changes nothing else |
| `CommandLaws.EnoughExactly` | internal/domain/service.go:203-211 | an approval is enough if and only if at least one and at least the policy's minimum of different reviewers approved over the history |
| `CommandLaws.ReviewBehind` | internal/domain/service.go:171-223 | behind every review entry in every reachable state stands one step of the run, by a reviewer allowed to review at that moment, with the decision and comment recorded |
| `CommandLaws.DraftCanComplete` | internal/domain/service.go:151-311 | in every reachable state a draft of a free flag can be submitted, approved, started and completed |
| `CommandLaws.CreatesExactly` | internal/domain/service.go:104-149 | a creation is carried out if and only if the actor may, the flag exists and the configuration is valid; the experiment is the actor's draft at version 1 with one snapshot |
| `CommandLaws.CreatesAnewExactly` | internal/domain/service.go:114-121 | a call creates anew if and only if the actor has no experiment of the name, or there is no idempotency key and the one found is of another flag |
| `ExperimentLaws.ActiveLookupDeterministic` | internal/domain/store.go:206-215 | in every reachable state a flag has at most one running or paused experiment, so the lookup does not depend on map order |
| `ExperimentLaws.SelectionIsTopK` | internal/domain/service.go:365-398 | with distinct keys, unless a tie straddles the cut, the experiments used are exactly the min(k, n) lowest-scoring candidates |
| `ExperimentLaws.TiesDecideExactly` | internal/domain/service.go:393-398 | however the sort breaks ties the same experiments are used, if and only if no tie straddles the cut |
| `ExperimentLaws.DroppingFlag` | internal/domain/service.go:393-398 | not asking for a flag the subject does not take part in changes no participation |
| `ExperimentLaws.DroppingFlagExactly` | internal/domain/service.go:393-398 | however the sort breaks ties, not asking for an unselected flag uses the same experiments, if and only if no tie straddles the cut that remains |
| `ExperimentLaws.AddingFlag` | internal/domain/service.go:393-398 | unless a tie straddles the cut, asking for one more flag displaces at most one experiment and lets in no other, however the two sorts break ties |
| `ExperimentLaws.AddingFlagExactly` | internal/domain/service.go:393-398 | whichever flag it is, that holds if and only if no tie straddles the cut |
| `ExperimentLaws.DecisionsAnswerKeys` | internal/domain/service.go:400-426 | one decision per known key in request order, inside an experiment exactly when the key was selected |
| `DecideLaws.DecidedExactly` | internal/domain/service.go:365-426 | every decision that a call adds on a reachable state is about the subject and a requested known flag: inside an experiment that is the flag's, runs, accepts the subject by rule and has its audience draw below 100 per percent, with the drawn variant of the present version; outside, exactly the flag's default |
| `DecideLaws.TakerUsed` | internal/domain/service.go:388-419 | with distinct keys, an experiment that takes the subject is used if fewer than k other such experiments have a participation draw at or below its own, and its flag gets the default if k or more have a lower one |
| `DecideLaws.AllTakersUsed` | internal/domain/service.go:396-419 | when at most k experiments of the requested flags take the subject, it is in each of them |
| `DecideLaws.NoTakerNoExperiment` | internal/domain/service.go:370-411 | a flag without a running experiment that takes the subject gets exactly its default, a paused experiment's flag included |
| `DecideLaws.AddedAreRecorded` | internal/domain/service.go:400-426 | deciding stores exactly the decisions it returns, under fresh ids in turn, and touches no other |
| `DecideLaws.TakesExactly` | internal/domain/service.go:371-391 | a candidate is a running experiment whose rule accepts the subject and whose audience draw is below 100 per percent, placed by its participation draw |
| `VariantLaws.VariantExactly` | internal/domain/service.go:827-840 | for a valid configuration a subject gets variant v if and only if v is the first whose cumulative weight exceeds the draw scaled to the audience; the draw is the first eight digest bytes of subject, experiment, version and salt, modulo 10000 |
| `VariantLaws.EveryDrawChooses` | internal/domain/service.go:831-839 | every draw leads to exactly one variant |
| `VariantLaws.SharesOfDraws` | internal/domain/service.go:831-838 | with non-negative weights a variant of weight w in an audience A gets 10000·w/A of the draws to within one |
| `VariantLaws.ValidExactly` | internal/domain/service.go:800-825 | a configuration is valid if and only if the audience is 1 to 100, no name is blank, the weights add up to the audience and exactly one variant is the control |
| `ExperimentLaws.IncidentsAtMostOnce` | internal/domain/store.go:440-449 | no incident is reported twice over any run of workers and scans |
| `ExperimentLaws.PathsAgreeOnKeys` | internal/domain/service.go:643-694 | for a window that is not zero, a worker and the scan give an incident the same key if and only if the window is positive or the instant is the epoch |
| `ExperimentLaws.PassPausesExactly` | internal/domain/service.go:671-713 | a pass over a running experiment stores a pause if and only if some breaching pause rule has an unused incident and no division by zero comes before it, recording the first such rule, and otherwise stores nothing |
| `IncidentLaws.PassExactly` | internal/domain/service.go:671-713 | a pass over a running experiment changes something if and only if some pause rule's metric is above its threshold with an unused incident and no alarm up to it divides by zero; then the first such rule pauses the experiment, uses and reports one incident, and logs the alarms so far with their values |
| `IncidentLaws.IncidentsApart` | internal/domain/service.go:644 | experiments whose ids hold no separator never share an incident, on any path, for any rules and instants |
| `IncidentLaws.SharedExactly` | internal/domain/service.go:644-694 | two pause rules of one experiment share an incident if and only if they watch one metric and their bucket numbers agree |
| `IncidentLaws.BucketExactly` | internal/domain/service.go:644-694 | from the epoch on, bucket n holds the instants of the n-th window after it, a worker's window being at least one second |
| `IncidentLaws.PassesIndependent` | internal/domain/service.go:618-715 | a pass over one experiment leaves unchanged whether and with what effect a pass over another pauses it, or crashes |
| `IncidentLaws.PassesCommute` | internal/domain/service.go:618-715 | two passes over different experiments leave the same experiments and incidents in either order |
| `IncidentLaws.FirstAlarmPauses` | internal/domain/service.go:671-713 | in every reachable state a running experiment that no guardrail has stopped yet is paused by the first pass that finds an alarm, whatever happened to others, if no alarm divides by zero |
| `GuardrailRuns.FirstAlarmStops` | internal/domain/service.go:618-737 | so it is by any batch or scan one of whose passes finds an alarm in it |
| `GuardrailRuns.AlarmStops` | internal/domain/service.go:618-737 | if one pass of a batch or scan finds an alarm with an unused incident in an experiment that was running, the experiment is paused at the end |
| `GuardrailLaws.ScanCrashesExactly` | internal/domain/service.go:634-645 | a scan of a running experiment divides by zero if and only if a pause rule with window zero and a negative threshold is reached before any rule fires |
| `GuardrailLaws.EmptyWindowMeasuresZero` | internal/domain/service.go:629-633 | a rule whose window is not positive measures zero |
| `GuardrailLaws.NoFatalRuleNoCrash` | internal/domain/service.go:626-659 | without such a rule no scan crashes |
| `ExperimentService.WorkerNeverCrashes` | internal/domain/service.go:694 | a worker's pass never does: it divides by at least one |
| `GuardrailLaws.FatalRuleCrashes` | internal/domain/service.go:634-645 | a concrete rule that crashes every scan of its experiment |
| `ExperimentRuns.RunSound` | internal/domain/service.go:104-428 | every reachable state satisfies the invariant of experiments, versions, decisions, audit log and incidents |
| `ExperimentRuns.PlanSafe` | internal/domain/service.go:151-354 | each lifecycle command makes only a move of the automaton, keeps versions contiguous snapshots, and never activates a second experiment for a flag |
| `ExperimentRuns.DecideSound` | internal/domain/service.go:356-428 | recorded decisions are those the configuration deserves |
| `ExperimentRuns.GuardSound` | internal/domain/service.go:618-715 | a guardrail pass, crashed or not, keeps the invariant |
| `ExperimentService.ExperimentStore.FindActiveExperimentByFlag` | internal/domain/store.go:206-215 | finds an active experiment of the flag if and only if there is one, in any map order |
| `ExperimentService.ExperimentStore.FindExperimentByOwnerAndName` | internal/domain/store.go:217-226 | finds a stored experiment of that owner and name if and only if there is one |
| `ExperimentService.ExperimentStore.ResolveApproverPolicy` | internal/domain/store.go:278-295 | the owner's policy, or else one approval by any admin or approver |
| `ExperimentService.ExperimentStore.AddGuardrailTrigger` | internal/domain/store.go:440-449 | reserves an incident key, and says whether it was unused |
| `ExperimentService.Service.CreateExperimentIdempotent` | internal/domain/service.go:104-149 | fails with the first failing check, or stores the planned draft with its first snapshot, only when the owner has no experiment of that name or, without an idempotency key, has one for another flag, or returns the existing experiment and changes nothing |
| `ExperimentService.Service.SubmitForReview` | internal/domain/service.go:151-169 | carries out the submit command: one put and one audit entry, or an error and no change |
| `ExperimentService.Service.ReviewExperiment` | internal/domain/service.go:171-223 | carries out the review command, counting distinct approvers over the whole history |
| `ExperimentService.Service.CountApprovers` | internal/domain/service.go:205-211 | the loop counts distinct approvers |
| `ExperimentService.Service.StartExperiment` | internal/domain/service.go:225-248 | carries out the start command, refused while another experiment is active for the flag |
| `ExperimentService.Service.PauseExperiment` | internal/domain/service.go:250-268 | carries out the pause command |
| `ExperimentService.Service.ResumeExperiment` | internal/domain/service.go:270-288 | carries out the resume command |
| `ExperimentService.Service.CompleteExperiment` | internal/domain/service.go:290-311 | carries out the complete command |
| `ExperimentService.Service.UpdateExperimentConfig` | internal/domain/service.go:313-354 | carries out the update command: a new version and its snapshot |
| `ExperimentService.Service.ChooseVariant` | internal/domain/service.go:827-840 | the variant whose cumulative interval the subject's score falls in |
| `ExperimentService.Service.GatherCandidates` | internal/domain/service.go:359-392 | the candidates are the running, targeted, admitted experiments of the requested keys, in order |
| `ExperimentService.Service.Decide` | internal/domain/service.go:356-428 | an empty subject is refused; otherwise the decisions returned and stored are the specified ones for some sorted order of the candidates |
| `ExperimentService.Service.BuildReport` | internal/domain/service.go:556-616 | a missing experiment is an error; otherwise the report on its variants |
| `ExperimentService.Service.EvaluateRule` | internal/domain/service.go:634-659 | one rule: passed over, stored as a pause, or crashed on its division, with the log it leaves |
| `ExperimentService.Service.RunRules` | internal/domain/service.go:671-713 | rules are measured in order until one ends the pass; the store is untouched unless that one fires |
| `ExperimentService.Service.EvaluateRules` | internal/domain/service.go:671-713 | the pass over the rules, with each value measured from a report over the rule's window |
| `ExperimentService.Service.EvaluateGuardrailForExperimentWindow` | internal/domain/service.go:665-715 | a missing experiment is an error without effect; otherwise one pass with measured values |
| `ExperimentService.Service.EvaluateGuardrails` | internal/domain/service.go:618-663 | one pass at the given instant over each experiment that was running, in any order, unless one crashes, which ends the scan with the earlier passes stored |
| `ServiceRuns.PassesAreRun` | internal/domain/service.go:618-737 | the passes of a scan or a worker's batch are guardrail steps of a run |
| `ServiceRuns.PassesSound` | internal/domain/service.go:618-737 | they keep the invariant |
| `ServiceRuns.DecideIsIssuing` | internal/domain/service.go:400-426 | on the event side `Decide` is a run that issues its decisions, if no stored event names the ids that must be unnamed |
| `ServiceRuns.IngestIsExposing` | internal/domain/service.go:485-486 | on the experiment side ingestion is a run of exposures |
| `Assignment.HexRoundTrip` | internal/domain/service.go:847-855 | decoding the hexadecimal digits gives back the number the digest bytes spell |
| `Assignment.DecodeHex` | internal/domain/service.go:850-853 | the 16-digit loop computes that number in 64-bit arithmetic without wrapping |
| `Assignment.HashFraction` | internal/domain/service.go:847-855 | the fraction is the first eight digest bytes modulo 10000, out of 10000 |
| `Assignment.ValidateVariants` | internal/domain/service.go:800-825 | accepts exactly the valid configurations and names the first failing requirement |
| `Assignment.ChooseIndex` | internal/domain/service.go:827-840 | the loop over cumulative weights, with its fallback |
| `Assignment.FallbackUnreachable` | internal/domain/service.go:831-839 | for a validated configuration the return after the loop is never reached, whatever the signs of the weights |
| `Assignment.ChoiceExactly` | internal/domain/service.go:831-838 | for any signs of the weights the choice is the first variant whose cumulative weight exceeds the score, and its own weight is positive |
| `Assignment.ChoiceIsInterval` | internal/domain/service.go:831-838 | for non-negative weights that is the one variant whose interval holds the score |
| `Assignment.ProportionalShares` | internal/domain/service.go:831-838 | a variant of weight w in an audience A is chosen by 10000·w/A residues to within one |
| `Assignment.AudienceShare` | internal/domain/service.go:842-845 | an audience of A percent admits exactly 100·A residues |
| `Selection.SortByScore` | internal/domain/service.go:393-395 | a sorted permutation; the order of ties is not promised |
| `Selection.FirstKAreChosen` | internal/domain/service.go:396-398 | unless a tie straddles the cut, the first k of any sorted listing are the candidates that fewer than k others undercut |
| `Selection.TiesMatterExactly` | internal/domain/service.go:393-398 | every way of breaking ties selects the same flags if and only if no tie straddles the cut |
| `Selection.DroppingUnchosen` | internal/domain/service.go:393-398 | removing a candidate that was not chosen changes nothing |
| `Selection.AddingOne` | internal/domain/service.go:393-398 | unless a tie straddles the cut, a new candidate displaces at most one and lets in no other |
| `Selection.AddingOneExactly` | internal/domain/service.go:393-398 | for every new candidate and every listing after it, that holds if and only if no tie straddles the cut |
| `Selection.DroppingOneExactly` | internal/domain/service.go:393-398 | every sort selects as before without an unselected candidate, if and only if no tie straddles the cut that remains |
| `Targeting.Compare` | internal/domain/targeting.go:51-138 | the comparison, with the membership loop as an existence statement |
| `TargetingLaws.StringsHaveOneOrder` | internal/domain/targeting.go:87-122 | the calendar branch and the byte branch read one order, for all six operators |
| `TargetingLaws.StringComparisonTotalOrder` | internal/domain/targeting.go:87-122 | comparison of strings, dates mixed in or not, is a total order |
| `TargetingLaws.AcceptanceComposes` | internal/domain/targeting.go:15-30 | on every tree AND accepts when all children accept and OR when some child does, in any order of children |
| `TargetingLaws.NeverErrs` | internal/domain/targeting.go:9-49 | trees of known operators with one child under each NOT never err |
| `TargetingLaws.DeMorgan` | internal/domain/targeting.go:15-39 | such trees obey De Morgan's laws |
| `TargetingLaws.OrderHiddenExactly` | internal/domain/targeting.go:15-39 | acceptance of a NOT over an AND is the same for every order of the children if and only if no child errs beside one that is false |
| `TargetingLaws.OrderShowsUnderNot` | internal/domain/targeting.go:15-39 | concrete children for which the order shows |
| `TargetingLaws.InIsOrOfEquals` | internal/domain/targeting.go:40-66 | IN is an OR of equalities; NOT IN is NOT of IN if and only if the field is present |
| `ComparisonLaws.NumbersCompare` | internal/domain/targeting.go:68-85 | each of the six operators on numbers, with its direction |
| `ComparisonLaws.StringsCompare` | internal/domain/targeting.go:87-122 | each of the six operators on strings, dates included: by the alphabet, a proper prefix or the smaller character at the first difference coming first |
| `ComparisonLaws.OthersCompare` | internal/domain/targeting.go:40-45 | booleans are equal or not and never ordered; values of different or other kinds satisfy no operator, not even `!=`; a missing attribute satisfies no leaf |
| `ComparisonLaws.MembershipExactly` | internal/domain/targeting.go:51-66 | IN holds if and only if the attribute is a number, string or boolean that is listed, NOT IN if and only if it is not |
| `ComparisonLaws.NegationExactly` | internal/domain/targeting.go:9-39 | NOT turns an answer round and passes errors on, unknown operators err, and an absent rule accepts everybody |
| `Reports.VariantMetrics` | internal/domain/service.go:581-613 | the counting loop computes the metrics of the variant's rows |
| `Reports.PercentileRank` | internal/domain/service.go:885-898 | the 95th percentile is a sample with ⌊0.95 (n−1)⌋ + 1 or more samples at most it, and no smaller number has as many |
| `Reports.SortingSorts` | internal/domain/service.go:894 | sorting the samples orders them and neither adds nor loses one |
| `Reports.GroupRows` | internal/domain/service.go:561-580 | groups the experiment's rows in the half-open window by variant, configured variants included |
| `Reports.BuildReport` | internal/domain/service.go:556-616 | lists each variant once, in any order, with the metrics of its own rows |
| `Reports.ReportsConserveCounts` | internal/domain/service.go:569-613 | impressions, conversions and errors summed over the variants are the rows of that type in the window |
| `Reports.AdjacentReportsAdd` | internal/domain/service.go:569-580 | reports over adjacent windows add up to the report over their union |
| `ReportLaws.ReportsAreTrue` | internal/domain/service.go:556-616 | every report has one line per variant that is configured or has rows in the window; its counts are those of its rows, a rate times the impressions is the count and zero without impressions, the average times the number of samples is their sum, and the percentile is the least number that more than ⌊0.95 (n−1)⌋ samples are at most |
| `ReportLaws.OnlyTheWindowMatters` | internal/domain/service.go:569-575 | rows of other experiments or variants, or outside the half-open window, add nothing |
| `Reports.GuardrailMetric` | internal/domain/service.go:900-921 | the result is the largest excess over the control value, or zero |
| `ReportLaws.ExcessIsTrue` | internal/domain/service.go:900-921 | the metric is the largest excess of a variant over the first one named A or control in any case, or over the first of all if none is |
| `ReportLaws.RuleMeasures` | internal/domain/service.go:629-633 | a rule measures that excess in a report over the window that ends before the instant and starts its length earlier |
| `Reports.OrderIrrelevantExactly` | internal/domain/service.go:904-913 | the metric is independent of the map order of variants if and only if all variants that may serve as control have the same value |
| `Reports.MetricIgnoresOrder` | internal/domain/service.go:904-913 | in particular it is when exactly one variant is named as control |
| `Reports.MetricShowsOrder` | internal/domain/service.go:911-913 | two variants, none named as control, for which the order decides between two answers |
| `Jobs.JobQueue.EnqueueGuardrailJob` | internal/domain/store.go:451-464 | adds the job unless a live one has the same experiment, bucket and reason |
| `Jobs.JobQueue.ClaimGuardrailJobs` | internal/domain/store.go:466-490 | takes distinct eligible jobs, as many as there are up to the limit, ten for a limit that is not positive, in any order |
| `Jobs.JobQueue.CompleteGuardrailJob` | internal/domain/store.go:492-503 | completes the job, or reports that there is none |
| `Jobs.JobQueue.FailGuardrailJob` | internal/domain/store.go:505-522 | sends the job back to wait, or fails it for good after five attempts |
| `Jobs.BucketExact` | internal/domain/service.go:957-973 | the bucket division is exact, the window contains the event, and two instants share a bucket exactly when one window contains both |
| `JobLaws.EnqueueCovers` | internal/domain/store.go:451-464 | after enqueuing, a pending or running job of that experiment, minute and reason is stored; no stored job is lost or changed, and the new one is added if and only if none covered it |
| `JobLaws.NewJobDue` | internal/domain/service.go:957-973 | a new job is pending, unattempted, claimable at once, and about the whole minute of its event |
| `JobLaws.ClaimExactly` | internal/domain/store.go:466-490 | a claim locks pending jobs whose instant has come, each once more attempted, leaves none behind unless it reached its limit (ten when none is given), and changes nothing else |
| `JobLaws.DueIsClaimed` | internal/domain/store.go:474-488 | when no more jobs are due than the limit allows, a claim hands out every one of them |
| `JobLaws.HandedBack` | internal/domain/store.go:505-522 | a job handed back after fewer than five attempts is due again from its retry instant on and not before, after the fifth never; a completed one is never due |
| `JobLaws.WaitExactly` | internal/domain/service.go:725-729 | the wait before a retry is a second per attempt, at least one and at most five |
| `JobLaws.EnqueuedIsClaimable` | internal/domain/store.go:451-490 | in every reachable system enqueuing leaves a live job of that identity, and once it is due any worker may claim it next |
| `JobProtocol.RunSafe` | internal/domain/store.go:451-522 | every system that enqueues, claims and finishes can reach, from nothing, is safe |
| `JobProtocol.NoTwoLiveJobsAlike` | internal/domain/store.go:451-464 | over every interleaving of enqueuers and workers no two pending or running jobs share experiment, bucket and reason |
| `JobProtocol.ExactlyOneHolder` | internal/domain/store.go:466-522 | a running job is in exactly one worker's hands, once, and a job not running in nobody's |
| `JobProtocol.JobsTerminate` | internal/domain/store.go:466-522 | a run makes at most ten claim or finish steps per stored job, and attempts stay in bounds for each status |
| `JobProtocol.RetriesBackOff` | internal/domain/service.go:723-735 | the k-th and the next claim of a job are at least k seconds apart, the fifth at least ten seconds after the first, and there is no sixth |
| `JobProtocol.StepWork` | internal/domain/store.go:466-522 | every step keeps safety and the measure that bounds runs |
| `JobProtocol.TakeEachIsTakeAll` | internal/domain/store.go:474-488 | the protocol's claim and the queue's claim leave the same jobs |
| `JobProtocol.TakeEachHands` | internal/domain/store.go:474-488 | the worker gets the claimed copies |
| `Leases.LeaseStore.TryAcquireLeader` | internal/domain/store.go:524-536 | grants when the lease is free, has run out or is the asker's, and then extends it |
| `Leases.LeaseStore.ReleaseLeader` | internal/domain/store.go:538-549 | removes the lease only if it is the releasing worker's |
| `Leases.GrantedExactly` | internal/domain/store.go:524-536 | with a clock that does not go backwards, a request is granted if and only if no other worker's latest grant is unreleased and unexpired |
| `Leases.OneHolder` | internal/domain/store.go:524-549 | at no instant from the last request on do two workers hold one lease |
| `Leases.ReleaseSpares` | internal/domain/store.go:538-549 | a release ends the releasing worker's hold on that key and nobody else's |
| `GuardrailWorker.Worker.ProcessJob` | internal/domain/service.go:723-735 | one claimed job: evaluated and completed, or failed with the delay for its attempts |
| `GuardrailWorker.Worker.ProcessGuardrailJobs` | internal/domain/service.go:717-737 | claims a batch, settles every claimed job, evaluates those whose experiment exists in order, and counts them |
| `GuardrailWorker.Worker.OnPoll` | internal/app/app.go:93-100 | jobs are processed on a tick that was granted the lease and on no other |
| `GuardrailWorker.Worker.OnFallback` | internal/app/app.go:101-104 | the fallback tick scans only when the last poll found the worker leading, and may crash as the scan does |
| `GuardrailWorker.Worker.Stop` | internal/app/app.go:89-92 | shutdown releases the worker's own lease only |
| `GuardrailWorker.SettledMeans` | internal/domain/service.go:723-735 | a claimed job ends completed if its experiment exists, failed after five attempts, or waiting for as many seconds as it has attempts |
| `GuardrailWorker.SettledSpares` | internal/domain/service.go:723-735 | settling a batch leaves every other job alone |
| `GuardrailRuns.EvaluatedExactly` | internal/domain/service.go:722-735 | every claimed job of an existing experiment gets one evaluation, of that experiment at the end of the job's minute, and there are no others |
| `WorkerRuns.BatchIsRun` | internal/domain/service.go:717-737 | a worker's batch is a run of the queue protocol with disciplined failures, after which it holds nothing and every other worker holds what it held |
| `WorkerRuns.NothingLeftRunning` | internal/domain/service.go:717-737 | after its batch no job is left running under the worker's name |
| `WorkerFleet.FleetIsRun` | internal/domain/service.go:717-737 | any number of workers, each settling its own claimed copies by id while others claim, finish and enqueue in between, are a run of the queue protocol with disciplined failures |
| `WorkerFleet.LeftIsOwn` | internal/domain/service.go:722-735 | a copy that a worker has still to settle is stored unchanged, running and locked by it, and in no other place of any worker's batch |
| `WorkerFleet.FleetSafe` | internal/domain/store.go:451-522 | in every such interleaving no two live jobs are alike, attempts stay in bounds, and each running job is in the batch of the worker that locked it |

## Left out

Assumptions that the statements above rest on:

- Each service call is one atomic step. The service reads, changes and writes experiments without a lock, so nothing is claimed about calls that overlap.
- Experiments are values: a read returns a copy and only a put persists, as in the Postgres adapter (internal/infrastructure/db/postgres/postgres.go:136-150, 752-778). The in-memory store hands out the live pointer, so there an unsaved pause is already visible.
- Ids are fresh when an experiment, decision or job is created, and those of experiments hold no `|`, as `randomID` makes them, where `IncidentLaws` and `GuardrailRuns` say so; the id of a decision inside an experiment is not one that a stored event names (`EventRuns.IssueForeverExactly` shows that replay needs exactly this); `EventSteps.RunConsistent` asks it of all decisions.
- An event type changes its exposure requirement only when `EventRuns.DefineForeverExactly` says that is harmless; the clock that is passed in does not go backwards where a lemma says so; store calls succeed. The errors and times of the store and the clock are parameters.
- A new experiment starts with an empty review history; creation does not reset it (internal/domain/service.go:125-140).
- A worker finishes only jobs it claimed, once per claim, which `WorkerFleet.FleetIsRun` proves of `ProcessGuardrailJobs` under every interleaving; the store's complete and fail check no status.

What the model leaves out or abstracts:

- SHA-1 is an arbitrary function to digests. Fractions are exact rationals in ten-thousandths and metrics are reals; the rounding of IEEE 754 is not modelled.
- The operator names of rules are taken as already trimmed and upper-cased. Strings are compared by code points, which agrees with the bytes of their UTF-8 forms.
- Audit entries keep entity, action, actor and incident, and a replay its window and count; ids, times and other payload are dropped. A recorded trigger holds its rule, value and instant.
- `Event.Attributed`, `Event.Rejected` and the reject text, which ingestion does not use, and the descriptions of event types are dropped.
- `EventStore.Service.TryAttribute` records the job it would enqueue in a log of requests; `Jobs.JobQueue.EnqueueGuardrailJob` models what the queue does with one.
- `EventDelivery.OrderIndependent` says nothing about the order of attributed rows or of the job log, which do depend on arrival.
- `ExperimentLaws.ApprovalBehind` counts approvals over the whole history, as the code does, not per version.
- `ExperimentLaws.PassPausesExactly` speaks of what is stored as status, incident and audit entry: the stored guardrail log also receives breaching rules passed over because their incident was used.
- `ExperimentLaws.DroppingFlag` speaks of the candidates that fewer than k others undercut, which is what the service uses unless a tie straddles the cut; `ExperimentLaws.DroppingFlagExactly` speaks of what it uses.
- `ExperimentService.Service.EvaluateGuardrails` returns the panic of its division as a result; that the panic ends the process is not modelled.
- Window lengths and instants are unbounded integers; Go's durations overflow after some 292 years.
- `GuardrailWorker.Worker.OnFallback` does not claim that only one worker scans: the leading flag may be out of date.
- `Assignment.ChoiceIsInterval` and `Assignment.ProportionalShares` require non-negative weights, which validation does not check; `Assignment.ChoiceExactly` covers the others.
- The endless select loop is modelled by its handlers, one per tick; the mode without workers only calls the scan.
- That every event is evaluated after it arrives is not claimed: a request is also dropped while a like job is running.
- Flag, user, policy and event-type administration, role parsing, value validation, HTTP, configuration, SQL and the driver are left out; they would add single-branch facts.
- Uniqueness of owner and name, which only the database index enforces (migrations/001_initial_schema.sql), is not part of this model.
