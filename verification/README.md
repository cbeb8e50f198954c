# A verified model of the pgjobdb scheduler

pgjobdb keeps a job scheduler in PostgreSQL: jobs are submitted, leased to workers, rescheduled,
completed, cancelled and deleted by stored procedures; goals collect jobs that may satisfy them;
dependency waits hold a job back until jobs or goals have an outcome. A Go package wraps the
procedures, compiles listing queries, pages through results and converts rows for a runtime
adapter. This project models that logic in Dafny and proves what it promises over every input,
every reachable database and every interleaving of calls.

How it is laid out:

- `Tables`, `Waits`, `Steps`: one tenant's rows, the evaluation of waits, and each transaction as a
  function from one database to the next. `Steps.Event`, `Steps.Apply` and `Steps.Run` make whole
  histories out of them; a failed call rolls back, lease ids are never drawn twice, the clock only
  moves forward.
- `Databases`: the same procedures as a class that updates its tables in place, loop by loop,
  proved to end in the database the transaction function gives. `TriggerOrder` shows that the
  terminal trigger, which settles one target after another, has the effect of settling all at once.
- `Graph`, `Invariants`, `Preservation`, `GoalPreservation`, `Runs`, `Rows`, `Transitions`: the
  invariant every transaction keeps, what time never undoes, and what one transaction can do to one row.
- `Leases`, `Batches`, `Crashes`, `CrashBound`, `Tasks`, `OutcomeHistory`, `Truths`, `Progress`,
  `Holding`, `Deadlocks`, `Closings`, `AvailableRoutes`, `Adapter`, `Submissions`, `Terms`, `Origins`,
  `Deletion`, `Examples`: the theorems about runs. `Terms` is what a submission or a reschedule asked for
  and what every later poll, claim, lease and payload makes of it.
- `Orders`, `Pages`, `Listings`, `Fingerprints`, `GoalQueries`, `Discovery`,
  `WaitQueries`: the listing engine.
- `RunPolicies`, `ChapterWire`, `ChapterMetadata`, `ChapterClones`: value codecs and deep copies.

Modelling conventions. Times are whole microseconds, the precision the tables store; each call reads
the clock once. Metadata containment and predicates appear as the set of documents they accept. A
type name is valid when it is not empty. The crash-concern threshold, generated identifiers, row locks
and other callers' transactions are parameters. JSON, base64url, SHA-256
and number formatting enter as functions with the stated inverse or injectivity property.

What the proofs found where a first reading promises more:

- A dependent of a goal whose members have all failed waits although no job can run (`Examples.StarvedRun`).
  Every chain of waits ends there, at a job that nothing holds back, or in a circle (`Progress.BlockedChainEnds`).
- The cycle check follows dependency waits only, and `wait_for` is not checked at all. Circles of `wait_for`, or
  of both kinds of wait, are accepted (`Examples.MutualRun`, `Examples.MixedRun`) and last until one of the listed
  calls breaks them (`Deadlocks.StuckForever`). They exist exactly when the combined graph has a cycle
  (`Deadlocks.StuckIffCyclic`), and a call creates one exactly when something it makes a job or goal need already
  needs it (`Closings.StepClosesIff`, and `Closings.ReachableClosesIff` over runs).
- A reader may be told TIMED_OUT for a wait that is later stored as CANCELLED (`OutcomeHistory.DueWaitRaces`);
  nothing else about a projected outcome can change (`OutcomeHistory.ProjectionFinal`).
- `SubmitJob` has no upper bound on policy milliseconds and takes any JSON object for a failure history, so
  it can store a job the adapter never decodes (`Adapter.NativeRowNeverDecodes`, with the exact condition);
  jobs created through the adapter always decode.
- An alternate route's delay need not come back from a read: it is stored as float64 seconds.
- A chapter's clone shares error attribute values of types the cloner does not know (`ChapterClones.SeparateIff`).
- A page token over 4096 characters is emitted and then refused (`Fingerprints.TokenAccepted`).
- A schedule updated during a walk can be skipped (`Listings.ScheduleSkipped`), exactly when the update moved
  it past the cursor before its page came (`Listings.ScheduleListedIff`).
- The cycle check at the end of a shared publication can never fail (`Progress.SharedCheckNeverRefuses`).

## Model

| member | source | states |
|---|---|---|
| RunPolicies.DurationToMillis | pkg/pgjobdb/runtime/internal/runtimeadapter/mutations.go:195-200 | accepts exactly the nonnegative whole milliseconds, and what it returns fits the reader's range |
| RunPolicies.DurationFromMillis | pkg/pgjobdb/runtime/internal/runtimeadapter/jobs.go:269-274 | accepts exactly 0..MaxInt64/1e6 and multiplies without leaving int64 |
| RunPolicies.ToStored | pkg/pgjobdb/runtime/internal/runtimeadapter/mutations.go:164-193 | a policy is storable exactly when all its durations are, and is then readable |
| RunPolicies.FromStored | pkg/pgjobdb/runtime/internal/runtimeadapter/jobs.go:236-267 | a stored policy is readable exactly when all its milliseconds are in range |
| RunPolicies.PolicyRoundTrip | pkg/pgjobdb/runtime/internal/runtimeadapter/mutations.go:164-200 | every accepted policy reads back as itself |
| RunPolicies.StoredRoundTrip | pkg/pgjobdb/runtime/internal/runtimeadapter/jobs.go:236-274 | every readable stored policy writes back as itself |
| RunPolicies.GuardIsTight | pkg/pgjobdb/runtime/internal/runtimeadapter/jobs.go:270-272 | one millisecond above the guard would overflow an int64 |
| Waits.EvaluateWait | pkg/pgjobdb/pgjobdb.sql:1446-1482 | the evaluation loop yields: closed stays, a due deadline times out first, else the lowest failing index fails the wait, else satisfied when nothing is pending |
| Waits.EvaluateKeeps | pkg/pgjobdb/pgjobdb.sql:1446-1482 | an evaluation keeps descriptor, deadline and every decided binding, and leaves a closed wait alone |
| Waits.EvaluateShape | pkg/pgjobdb/pgjobdb.sql:1441-1482 | wait state and binding states stay consistent: pending has a pending entry, satisfied has all satisfied, failed names a failed entry |
| Waits.EvaluateUnresolved | pkg/pgjobdb/pgjobdb.sql:1446-1482 | a wait left pending waits only for targets without an outcome |
| Waits.ProjectionIsDeadline | pkg/pgjobdb/pgjobdb.sql:1574-1580 | when no pending target is resolved, only the deadline can change what evaluation shows |
| Graph.WalkExact | pkg/pgjobdb/pgjobdb.sql:1514-1535 | the recursive path query reports a cycle exactly when one is reachable from its start |
| Graph.NewEdgesCloseCycleIff | pkg/pgjobdb/pgjobdb.sql:1514-1535 | edges added at one node close a cycle exactly when a new head already reaches that node |
| Graph.SinkOrCycle | pkg/pgjobdb/pgjobdb.sql:1514-1535 | following edges from any node ends at one without successors or runs into a cycle |
| Steps.NormalizeWaitFor | pkg/pgjobdb/pgjobdb.sql:690-724 | fails exactly on a job neither active nor archived, and keeps exactly the active ones |
| Steps.NormalizeConcat | pkg/pgjobdb/pgjobdb.sql:702-716 | the kept ids come in the order and as often as they were given |
| Databases.Database.SaveWait | pkg/pgjobdb/pgjobdb.sql:1483-1498 | replaces one outcome and its subscription rows, one per binding still pending |
| Databases.Database.SettleTarget | pkg/pgjobdb/pgjobdb.sql:1499-1506 | in whatever order, re-evaluates exactly the waits subscribed to the target |
| Databases.Database.CancelOwnWaits | pkg/pgjobdb/pgjobdb.sql:1507-1513 | closes exactly the consumer's pending waits except the one kept |
| Databases.Database.ExpireGoalWaits | pkg/pgjobdb/pgjobdb.sql:1581-1592 | settles exactly the waits whose deadline has come |
| Databases.Database.ResolveGoal | pkg/pgjobdb/pgjobdb.sql:1635-1641 | the first success closes an open goal and settles its waiters; a closed goal is left alone |
| Databases.Database.TerminalGoals | pkg/pgjobdb/pgjobdb.sql:1684-1696 | the trigger's sequence of cancels and settlements equals the one-step archive effect |
| Databases.Database.Archive | pkg/pgjobdb/pgjobdb.sql:2083-2133 | archives the row with its final route, runs the trigger, removes the active row, wakes legacy waiters |
| Databases.Database.TakeWork | pkg/pgjobdb/pgjobdb.sql:1963-2081 | refuses an invalid request; leases the first eligible unlocked row by availability, creation and id, and returns none exactly when there is none |
| Databases.Database.TakeTask | pkg/pgjobdb/pgjobdb.sql:2449-2521 | claims the exact stored slot of a ready job or leaves the database as it was |
| Databases.Database.CompleteJob | pkg/pgjobdb/pgjobdb.sql:2135-2205 | held and unheld completion, with the payload update in the same transaction |
| Databases.Database.HideOne | pkg/pgjobdb/pgjobdb.sql:2837-2861 | one visible identity is cancelled if still active, then hidden |
| Databases.Database.HideJobs | pkg/pgjobdb/pgjobdb.sql:2789-2870 | hides the whole selection or, on a dry run, only counts it |
| Databases.CheckDependencies | pkg/pgjobdb/pgjobdb.sql:1536-1548 | accepts exactly distinct, named targets with success on goals |
| Databases.CheckWaitFor | pkg/pgjobdb/pgjobdb.sql:690-724 | the scan agrees with the normalised list |
| Databases.Database.CheckTargets | pkg/pgjobdb/pgjobdb.sql:1561-1567 | accepts exactly existing targets other than the consumer |
| Databases.Database.StoreWait | pkg/pgjobdb/pgjobdb.sql:1549-1573 | an unchanged descriptor is evaluated again, a new one stored unless it closes a cycle |
| Databases.Database.RescheduleJob | pkg/pgjobdb/pgjobdb.sql:2287-2418 | replaces waits, route, alternate and payload under a live lease or on an unheld job, else changes nothing |
| Databases.Database.SubmitJob | pkg/pgjobdb/pgjobdb.sql:1811-1957 | inserts facts, row, payload and goal together; a retry of the same facts succeeds without a write |
| Databases.Database.AttachCandidate | pkg/pgjobdb/pgjobdb.sql:1642-1660 | attaches once to an open goal, resolves it when the job already succeeded, rolls back on a cycle |
| TriggerOrder.EvaluateTwice | pkg/pgjobdb/pgjobdb.sql:1446-1482 | evaluating after some goals closed and again after more equals evaluating once at the end |
| TriggerOrder.OneGoalMore | pkg/pgjobdb/pgjobdb.sql:1684-1696 | resolving one further goal after the others gives the same waits and subscriptions as resolving them together |
| Preservation.ArchiveInv | pkg/pgjobdb/pgjobdb.sql:505-649 | archiving keeps the whole invariant |
| Preservation.GetWorkInv | pkg/pgjobdb/pgjobdb.sql:1963-2081 | acquisition, with alternate promotion, keeps the whole invariant |
| Preservation.DeleteAllInv | pkg/pgjobdb/pgjobdb.sql:2826-2867 | deleting any sequence of jobs keeps the whole invariant |
| GoalPreservation.RegisterKeeps | pkg/pgjobdb/pgjobdb.sql:1549-1573 | a registration that is not refused keeps outcomes settled, the index exact and the graph acyclic |
| GoalPreservation.RescheduleInv | pkg/pgjobdb/pgjobdb.sql:2287-2418 | rescheduling keeps the whole invariant |
| GoalPreservation.SubmitInv | pkg/pgjobdb/pgjobdb.sql:1811-1957 | submission keeps the whole invariant |
| GoalPreservation.AddCandidateInv | pkg/pgjobdb/pgjobdb.sql:1642-1660 | attaching a candidate keeps the whole invariant |
| GoalPreservation.FailGoalInv | pkg/pgjobdb/pgjobdb.sql:1661-1677 | failing a goal keeps the whole invariant |
| Runs.ReachableInv | pkg/pgjobdb/goals.go:118-154 | every database reached from an empty one has exact subscriptions, settled waits and goals, owned pending waits, distinct leases and an acyclic dependency graph |
| Runs.RunLater | pkg/pgjobdb/goals.go:118-154 | facts, archived outcomes, closed goals, closed waits, decided bindings and payload revisions survive every continuation |
| Rows.RowAfter | pkg/pgjobdb/pgjobdb.sql:1811-2521 | a transaction rewrites only the row it addresses; others lose at most finished prerequisites |
| Transitions.StepTransition | pkg/pgjobdb/pgjobdb.sql:1811-2870 | per table, all that one call, committed or rolled back, can have done |
| Transitions.RunPointed | pkg/pgjobdb/pgjobdb.sql:2388-2393 | a job's current wait is always a stored row |
| Holding.ReachableGood | pkg/pgjobdb/pgjobdb.sql:690-724 | in every reachable database wait_for names other existing jobs, no active prerequisite without deadline belongs to a leased job, and no job has both a current dependency wait and a wait_for |
| Holding.NeedyStatus | pkg/pgjobdb/pgjobdb.sql:287-309 | a job that still needs a job or goal, by either kind of deadline-less wait, is unleased and offered to nobody |
| Leases.ExclusiveLease | pkg/pgjobdb/leases.go:152-169 | at any instant one identity validates per job and one job per lease id |
| Leases.NeverAgain | pkg/pgjobdb/leases.go:152-203 | an identity that stopped validating never validates again, whatever is called, late renewals included |
| Leases.SnapshotStable | pkg/pgjobdb/installer/native_lease_snapshot_test.go:80-135 | a holder that validates twice sees the same goal, policy, route, coordinates, payload and revision |
| Leases.Fenced | pkg/pgjobdb/pgjobdb.sql:2135-2205 | under a live lease nobody else's completion or reschedule, named or unheld, changes anything |
| Leases.ValidUntilExpiry | pkg/pgjobdb/leases.go:152-203 | a lease its holder leaves alone, on a job nobody cancels or deletes, validates exactly until it expires |
| Leases.RenewalReplaces | pkg/pgjobdb/pgjobdb.sql:808-870 | renewal succeeds exactly for a validating identity and one second to one day, keeps its snapshot, and shortens the lease exactly when less is asked than was left |
| Leases.LeaseSeconds | pkg/pgjobdb/leases.go:107-119 | the least whole number of seconds covering the request, within one day; a minute for no request |
| Batches.AcquireBatch | pkg/pgjobdb/runtime/internal/runtimeadapter/leases.go:16-46 | with any calls in between, no two leases of a batch on one job are ever alive at once; an error leaves this worker's lease on a job whose policy does not decode |
| Crashes.GrantsAreBounded | README.md:78-89 | without a reschedule or clear a job is granted at most threshold + 1 leases, counted down exactly from where it stands |
| CrashBound.BudgetIsSpendable | README.md:83-89 | for every positive threshold some run grants all of them and ends in CRASH_CONCERN |
| Crashes.StreakGrowsByTakeover | README.md:83-85 | only taking over an expired lease advances the counter, by one |
| Crashes.ConcernPersists | pkg/pgjobdb/installer/crash_concern_test.go:14-101 | in every continuation without a reset or an end the job stays in CRASH_CONCERN, refuses polls, targeted acquisition and claims, and its row keeps all but finished prerequisites |
| Tasks.ClaimCommits | pkg/pgjobdb/task.go:14-63 | a committed claim consumes the slot, holds a job-only lease and leaves payload and facts alone |
| Tasks.ClaimIff | pkg/pgjobdb/pgjobdb.sql:2449-2521 | a claim succeeds exactly when it names the stored slot of a ready job |
| Tasks.ExpiryIsInvisible | pkg/pgjobdb/pgjobdb.sql:287-309 | settling due waits changes no job's status |
| Tasks.SlotIsSpent | pkg/pgjobdb/runtime/integration/task_completion_recovery_test.go:89-243 | until a reschedule: no second claim, no task lease, payload and revision unchanged, only job work on the resume route |
| Tasks.StaysRecoverable | pkg/pgjobdb/runtime/integration/task_completion_recovery_test.go:89-243 | over every continuation without a reschedule an active job with nothing to wait for stays so, and whenever no lease holds it the resume route leases it unless its streak reached the threshold or it expired |
| Tasks.ClaimedJobRecovers | pkg/pgjobdb/task.go:14-63 | the same from every successful claim, with the payload and revision of before the claim |
| Tasks.OnePublisher | pkg/pgjobdb/installer/native_task_alternate_test.go:127-155 | after a claim every lease issued before it is dead for that job for good |
| Submissions.RetryIsSafe | pkg/pgjobdb/pgjobdb.sql:1811-1957 | whatever happened since, repeating a submission succeeds without a write unless its parent was deleted |
| Submissions.AcceptedIffRepeats | pkg/pgjobdb/pgjobdb.sql:1863-1937 | at any later time a submission of a taken id is accepted, without a write, exactly when it is valid, repeats every immutable part, and its parent is not deleted |
| Submissions.StaleUpdateRefused | pkg/pgjobdb/pgjobdb.sql:1795-1809 | once a payload has moved on, every later update expecting the old revision is refused |
| Submissions.CompletionPayload | pkg/pgjobdb/pgjobdb.sql:1795-1809 | an accepted completion stores its update's document at the next revision, under a lease and the expected revision; without an update it stores nothing, and no other job's payload moves |
| Submissions.ReschedulePayload | pkg/pgjobdb/pgjobdb.sql:2386-2386 | the same for a reschedule |
| Submissions.PayloadReadsBack | pkg/pgjobdb/pgjobdb.sql:2207-2238 | after a reschedule every holder sees the payload it left, through every run until the next update |
| Submissions.SubmittedPayload | pkg/pgjobdb/pgjobdb.sql:1811-1957 | until its first update a new job's payload is the submitted one, at revision 1, or 0 when there is none |
| Submissions.PayloadOutlivesJob | pkg/pgjobdb/pgjobdb.sql:2135-2175 | the payload a completion leaves never changes again |
| Submissions.RunRevisionsFit | pkg/pgjobdb/pgjobdb.sql:1805-1805 | no run takes a payload revision past the 64-bit maximum |
| Terms.RescheduleHonoured | pkg/pgjobdb/pgjobdb.sql:2386-2418 | from an accepted reschedule to the next, over every run: ready exactly when nobody holds the job, its wait is over, its prerequisites and time (or deadline) let it go, and it is neither suspect nor expired; until first leased, exactly the polls that ask for the offered route and the claims of its slot get it |
| Terms.PutOffUntil | pkg/pgjobdb/pgjobdb.sql:2402-2402 | put off to a time, it is leased by no call before that time, and from then on, with nothing else holding it, it is ready |
| Terms.ReleasedByDeadline | pkg/pgjobdb/pgjobdb.sql:2402-2403 | with the time as a deadline it is released at that time or at the end of its last prerequisite, whichever comes first, and not before |
| Terms.NextLease | pkg/pgjobdb/pgjobdb.sql:2207-2238 | the next lease shows what the reschedule asked for: its route, or from the delay to the nearest microsecond on the alternate, each coordinate of the slot, the updated payload and revision, and the job's goal, type and policy |
| Terms.LeaseShows | pkg/pgjobdb/pgjobdb.sql:2004-2040 | every later holder until the next reschedule sees that route, the alternate once it is due, or after a claim the resume route |
| Terms.SubmissionHonoured | pkg/pgjobdb/pgjobdb.sql:1935-1950 | until its first reschedule a new job is offered exactly as submitted and not before its time; its first lease shows the submitted goal, type, policy and payload |
| Terms.ExpiryHolds | pkg/pgjobdb/pgjobdb.sql:1940-1950 | the submitted expiry stays on the row through every run, reschedules included, and from that time on no call leases the job |
| OutcomeHistory.ProjectionExact | pkg/pgjobdb/goals.go:146-154 | the projected outcome equals the stored one except on due waits, and equals what settling now would store |
| OutcomeHistory.TooLate | pkg/pgjobdb/runtime/integration/goals_storage_test.go:320-338 | a wait past its deadline can only time out or be cancelled, in every continuation |
| OutcomeHistory.DecidedInTime | pkg/pgjobdb/pgjobdb.sql:1451-1451 | a wait that ends satisfied or failed was decided before its deadline |
| OutcomeHistory.ProjectionFinal | pkg/pgjobdb/pgjobdb.sql:1574-1580 | what a reader was told stays true in every continuation, but for TIMED_OUT becoming CANCELLED on a due wait |
| OutcomeHistory.DueWaitRaces | pkg/pgjobdb/pgjobdb.sql:1507-1513 | cancelling the consumer of any due wait stores CANCELLED where the projection said TIMED_OUT |
| OutcomeHistory.GoalSettlesOnce | pkg/pgjobdb/runtime/integration/goals_test.go:50-133 | revision is 1 while open and 2 ever after; winner or failure never change; the winner is a successful member; an open goal has none; what the frozen record says is the next two rows |
| OutcomeHistory.ClosingMoment | pkg/pgjobdb/pgjobdb.sql:1635-1677 | every closed goal of a run has one closing moment, and its record is for good the truth of that moment: message and time of the failing call, its members archived by then as terminal and the others as non-terminal; or the job whose success or attachment closed it |
| OutcomeHistory.FailureIsTrue | pkg/pgjobdb/runtime/integration/goals_test.go:100-133 | in every reachable database the two lists of a failed goal are disjoint, name only members, and every terminal one is archived |
| OutcomeHistory.FailGoalRetry | pkg/pgjobdb/pgjobdb.sql:1661-1668 | repeated with its message, at any later time, the call succeeds without a write; with another message it is refused |
| OutcomeHistory.ClosedMembership | pkg/pgjobdb/pgjobdb.sql:1642-1652 | once a goal is closed its members never change: no new primary job, no new candidate |
| OutcomeHistory.GoalOfSubmission | pkg/pgjobdb/pgjobdb.sql:1866-1876 | a new job is a member of the goal it named or was given, which existed open exactly when it shares it and is otherwise as old as the job |
| OutcomeHistory.WaitSettlesOnce | pkg/pgjobdb/runtime/integration/goals_storage_test.go:220-248 | a closed wait and each decided binding are kept by every continuation |
| Truths.RunTrue | pkg/pgjobdb/pgjobdb.sql:1446-1482 | every decided binding agrees with the archive and the goals in every database of every run |
| Truths.OutcomeMeansIt | pkg/pgjobdb/goals.go:146-154 | reachable outcomes mean what they say: satisfied only if each dependency holds, pending only while its open entries are undecided |
| Progress.BlockedChainEnds | pkg/pgjobdb/pgjobdb.sql:287-309 | every job that a dependency wait or a prerequisite holds back is held back, in the end, by a job that neither holds back, by an open goal whose members have all finished, or by a circle |
| Progress.BlockedSetEscapes | pkg/pgjobdb/runtime/integration/goals_test.go:135-147 | of any set of blocked jobs that reach no circle and no open goal whose members have all finished, each one reaches a job outside the set that nothing holds back |
| Progress.EndingIffSink | pkg/pgjobdb/pgjobdb.sql:287-309 | among the nodes a job reaches, runnable jobs and candidate-less goals are exactly the ones without successors |
| Progress.ReachesRunnableIff | pkg/pgjobdb/goals.go:126-135 | a job reaches a runnable one exactly when some chain from it stops at a job; wherever else a chain stops is a goal that lacks a candidate |
| Progress.CircleHasPrerequisite | pkg/pgjobdb/pgjobdb.sql:1514-1535 | dependency waits alone never form a circle: on every circle some job is held back by wait_for |
| Progress.RegistrationIff | pkg/pgjobdb/pgjobdb.sql:1549-1573 | a well-formed new wait is refused exactly when one of its open targets already depends on the consumer |
| Progress.EdgeIff | pkg/pgjobdb/pgjobdb.sql:1514-1534 | the edges the cycle check follows are an active job's undecided targets of its current wait until its deadline, and an open goal's active members; nothing else |
| Origins.StepBorn | pkg/pgjobdb/pgjobdb.sql:1536-1573 | only a submission or a reschedule makes a wait: the one it names, with the dependencies and deadline it asked for |
| Origins.RunOriginal | pkg/pgjobdb/pgjobdb.sql:1549-1573 | in every run each stored wait names no target twice and goals by success only, and the wait called submission is the job's initial dependencies without a deadline |
| Progress.CandidateIff | pkg/pgjobdb/runtime/integration/goals_storage_test.go:177-195 | a new candidate is refused exactly when it is unfinished and already depends on the goal |
| Progress.SharedCheckNeverRefuses | pkg/pgjobdb/pgjobdb.sql:1953-1953 | after the registration's own check a shared publication never closes a cycle |
| Deadlocks.StuckForever | pkg/pgjobdb/pgjobdb.sql:287-309 | jobs and goals that need each other, by wait_for, dependency waits or both, stay so in every run without one of the listed breaking calls, and no worker is given a member |
| Deadlocks.StuckIffCyclic | pkg/pgjobdb/pgjobdb.sql:287-309 | such a set exists exactly when the combined graph of deadline-less needs has a cycle |
| Deadlocks.MemberRefuses | pkg/pgjobdb/pgjobdb.sql:422-460 | nobody completes or reschedules a member |
| Closings.RescheduleClosesIff | pkg/pgjobdb/pgjobdb.sql:2386-2401 | a reschedule, by wait_for or by a dependency wait, closes a cycle exactly when something it will need already needs the job |
| Closings.SubmitClosesIff | pkg/pgjobdb/pgjobdb.sql:1811-1957 | a submission closes a cycle exactly when something the new job needs already needs the goal it joins |
| Closings.AttachClosesIff | pkg/pgjobdb/pgjobdb.sql:1642-1660 | an attachment closes a cycle exactly when the candidate is unfinished and already needs the goal |
| Closings.StepClosesIff | pkg/pgjobdb/pgjobdb.sql:1811-2870 | from a database without cycles a call leads to one exactly when it closes one: never an expiry, lease, claim, completion, cancellation or deletion |
| Closings.ReachableClosesIff | pkg/pgjobdb/pgjobdb.sql:1811-2870 | a run from an empty database stays free of cycles exactly when none of its calls met the condition its caller could have checked |
| Examples.StarvedRun | pkg/pgjobdb/pgjobdb.sql:1684-1696 | three calls after which a job is blocked and no job in the database can run |
| Examples.MutualRun | pkg/pgjobdb/pgjobdb.sql:690-724 | four calls after which two jobs list each other in wait_for, in every continuation that cancels or deletes neither |
| Examples.MixedRun | pkg/pgjobdb/pgjobdb.sql:1514-1535 | four calls after which two jobs need each other by one wait of each kind, with the checked dependency graph acyclic, in every continuation that cancels or deletes neither |
| AvailableRoutes.ListedIffLeased | pkg/pgjobdb/compact_job_lists.sql:62-67 | a job is listed under a route set exactly when a targeted acquisition with it would lease the job now, on the effective route |
| Adapter.DecodePage | pkg/pgjobdb/runtime/internal/runtimeadapter/jobs.go:104-142 | a page decodes exactly when each row does, row by row |
| Adapter.DecodesIff | pkg/pgjobdb/runtime/internal/runtimeadapter/jobs.go:160-234 | every reachable row, active or archived, promoted or not, decodes exactly when its policy is in range and, in the detail mapping, its failure history unmarshals |
| Adapter.AdapterAlwaysDecodes | pkg/pgjobdb/runtime/internal/runtimeadapter/mutations.go:15-112 | every row of every run whose submissions went through the adapter decodes in both mappings, given that a marshalled history unmarshals |
| Adapter.PolicySurvives | pkg/pgjobdb/runtime/internal/runtimeadapter/mutations.go:15-62 | the policy and the schedule occurrence with its history given at creation are what every later read returns |
| Adapter.NativeRowNeverDecodes | pkg/pgjobdb/jobs.go:14-104 | a native submission never lists exactly when its policy is out of range, and never reads in detail exactly when that or its failure history does not unmarshal |
| Adapter.NativeRowExists | pkg/pgjobdb/jobs.go:54-60 | a submission of either kind is accepted and its read fails: milliseconds above the range in both mappings, a history whose bits are a number in detail only |
| Adapter.RescheduleReadsBack | pkg/pgjobdb/runtime/internal/runtimeadapter/mutations.go:85-112 | route, coordinates and alternate route of a reschedule come back from the next read; the delay comes back as the two float conversions leave it |
| Adapter.CompletionDecodes | pkg/pgjobdb/runtime/internal/runtimeadapter/jobs.go:221-231 | a row reads as completed exactly when its job is archived, with that status |
| Adapter.CompletionReadsBack | pkg/pgjobdb/runtime/internal/runtimeadapter/jobs.go:190-250 | every read after a completion is the read from before it with the status filled in |
| Adapter.PromotionKeepsCoordinates | pkg/pgjobdb/installer/native_task_alternate_test.go:127-155 | a promoted task alternate decodes to the same slot under its own type |
| Adapter.LeaseCarriesTask | pkg/pgjobdb/runtime/internal/runtimeadapter/leases.go:109-139 | a validated lease has complete coordinates exactly on task work |
| Deletion.RoundCutoff | pkg/pgjobdb/delete_jobs.go:60-72 | a stored row lies before the rounded cutoff exactly when it lies before the nanosecond one |
| Deletion.DeletionExact | pkg/pgjobdb/pgjobdb.sql:2823-2869 | the whole selection is hidden at the time of the call and ended, as cancelled when it was active; counts agree with the dry run, other rows and earlier outcomes stay, repetition matches nothing |
| Deletion.HideAsked | pkg/pgjobdb/delete_jobs.go:29-82 | the whole call: refused unless selectors or all, exclusively; then a job is hidden exactly when it was visible, is among the ids if there are any, was created before the nanosecond cutoff if there is one, and its metadata is accepted; the counts are those of these jobs and a dry run writes nothing |
| Deletion.DeletionAsAsked | pkg/pgjobdb/pgjobdb.sql:2810-2833 | the same of every committed deletion: hidden and counted are exactly the visible jobs in the intersection of the given ids, nanosecond cutoff and metadata |
| Deletion.DeletionAtomic | pkg/pgjobdb/installer/job_deletion_test.go:14-85 | whole or not at all; an invalid selection deletes nothing |
| Deletion.DeletedHasNoNewChild | pkg/pgjobdb/pgjobdb.sql:1877-1885 | once a job is deleted, no run ever gives it another child |
| Orders.SortNormalizes | pkg/pgjobdb/list_jobs.go:145-179 | sorted forms agree exactly when the lists agree as multisets |
| Orders.CompactNormalizes | pkg/pgjobdb/list_jobs.go:189-217 | sorted and compacted forms agree exactly when the lists agree as sets |
| Pages.ReadPage | pkg/pgjobdb/list_jobs.go:272-292 | the row loop returns the first rows past the cursor and a cursor exactly when more exist |
| Pages.PageExact | pkg/pgjobdb/list_jobs.go:261-293 | a page holds exactly the matches past its cursor and up to the next one |
| Pages.ListingComplete | pkg/pgjobdb/list_jobs.go:244-293 | following tokens with any page sizes ends and lists the sorted matches exactly once |
| Pages.WalkNeverRepeats | pkg/pgjobdb/schedules.go:141-184 | with changes between requests no row repeats if keys never move on in listing order |
| Pages.WalkComplete | pkg/pgjobdb/list_jobs.go:244-293 | a finished walk lists every key that matched at each request |
| Pages.ListedIffNeverJumped | pkg/pgjobdb/schedules.go:141-184 | in a finished walk a row present at every request is listed exactly when its key was never moved past the cursor while its page was still to come |
| Listings.JobPageSize | pkg/pgjobdb/list_jobs.go:71-76 | legal sizes are 1 to 200 and are kept, 0 becomes 100 |
| Listings.JobListComplete | pkg/pgjobdb/list_jobs.go:244-293 | a static job list is returned once, newest first |
| Listings.JobWalk | pkg/pgjobdb/list_jobs.go:244-293 | under inserts, removals and status changes no job repeats and constant matches appear |
| Listings.ScheduleWalk | pkg/pgjobdb/schedules.go:141-184 | although its key moves, a schedule never repeats; unmoved ones appear |
| Listings.ScheduleListedIff | pkg/pgjobdb/schedules.go:141-184 | a schedule present throughout a finished walk is listed exactly when no update between two requests moved it past the cursor while its page was still to come |
| Listings.ScheduleSkipped | pkg/pgjobdb/schedules.go:141-184 | an update between two pages hides a schedule from the walk |
| Fingerprints.FingerprintIff | pkg/pgjobdb/list_jobs.go:145-243 | fingerprints agree exactly when seven filters agree as multisets, routes and goals as sets, the rest exactly |
| Fingerprints.TokenAccepted | pkg/pgjobdb/list_jobs.go:244-260 | an emitted token is accepted exactly for an equivalent filter and a cursor of at most 3072 bytes, and resumes at its own row |
| Fingerprints.CheckPredicates | pkg/pgjobdb/list_jobs.go:296-314 | accepts exactly predicates with a named path and valid values |
| GoalQueries.Stable | pkg/pgjobdb/goal_discovery.go:33-35 | binding further arguments never changes an earlier condition, whose placeholders stay in range |
| GoalQueries.QueryBuilder.Bind | pkg/pgjobdb/goal_discovery.go:35-35 | appends one argument and names it |
| GoalQueries.QueryBuilder.RestrictMetadata | pkg/pgjobdb/goal_discovery.go:66-78 | adds: some value of the predicate stands at its path |
| GoalQueries.QueryBuilder.CompileCandidate | pkg/pgjobdb/goal_discovery.go:58-79 | the subquery's conditions hold of exactly the members that meet every candidate condition |
| GoalQueries.QueryBuilder.CompileGoals | pkg/pgjobdb/goal_discovery.go:33-81 | for every database the WHERE under its arguments selects exactly the goals described past the cursor, all placeholders in range, the limit bound last |
| GoalQueries.BoundsExactIff | pkg/pgjobdb/goal_discovery.go:46-57 | a nanosecond bound rounded to the nearest microsecond stays exact exactly when a lower one is not rounded down and an upper one not up; whole microseconds are exact |
| Discovery.GoalCursorExact | pkg/pgjobdb/goal_discovery.go:33-35 | a page's query selects what is left of the request past its cursor |
| Discovery.GoalsListedOnce | pkg/pgjobdb/goal_discovery.go:82-115 | tokens list each described goal once, by id |
| Discovery.TwoStageExact | pkg/pgjobdb/goal_discovery.go:138-164 | stored filter then projected filter selects exactly the waits whose projected outcome matches |
| WaitQueries.AllStable | pkg/pgjobdb/goal_discovery.go:138-140 | binding a further argument changes no earlier condition of either list, whose placeholders stay in range |
| WaitQueries.WaitQuery.RestrictTarget | pkg/pgjobdb/goal_discovery.go:145-154 | adds the joined subscription to the stored conditions and the pending binding to the projected ones |
| WaitQueries.CompileWaits | pkg/pgjobdb/goal_discovery.go:138-164 | for every database the compiled query selects a wait exactly when it lies past the cursor and passes both stages, all placeholders in range, the limit bound last |
| WaitQueries.CompiledIsRemaining | pkg/pgjobdb/goal_discovery.go:138-164 | a page of the compiled query is what is left of the request past its cursor |
| Discovery.WaitPageFull | pkg/pgjobdb/runtime/integration/goal_discovery_test.go:157-185 | rows dropped by the second stage never shorten a page or hide a later match |
| Discovery.WaitsListedOnce | pkg/pgjobdb/goal_discovery.go:138-190 | tokens list each match once, by consumer and wait |
| Discovery.BlockingWaitIff | pkg/pgjobdb/goal_discovery.go:193-218 | a blocking wait is reported exactly while the status holds the job back, and is the stored one |
| ChapterWire.BodyRoundTrip | pkg/pgjobdb/runtime/integration/internal/runtimecodec/chapter.go:33-179 | any body by value or pointer decodes from its triple by value; encoding fails exactly on a missing body or outcome |
| ChapterWire.WireRoundTrip | pkg/pgjobdb/runtime/integration/internal/runtimecodec/chapter.go:33-179 | an accepted application triple re-encodes to itself, an error triple to its canonical bytes |
| ChapterMetadata.ConvertFromAny | pkg/pgjobdb/runtime/integration/internal/runtimecodec/chapter.go:342-448 | the filling loops agree with the recursive conversion |
| ChapterMetadata.AnyRoundTrip | pkg/pgjobdb/runtime/integration/internal/runtimecodec/chapter.go:342-481 | a tree of any depth comes back exactly when finite, unchanged exactly when also well formed |
| ChapterMetadata.OnePassSuffices | pkg/pgjobdb/runtime/integration/internal/runtimecodec/chapter.go:181-219 | one pass through JSON text reaches a form every further pass keeps |
| ChapterMetadata.PassChangesIff | pkg/pgjobdb/runtime/integration/internal/runtimecodec/chapter.go:421-433 | a pass changes a well-formed tree exactly when some float has the text of an int64 or some string is not valid Unicode |
| ChapterClones.CloneNode | pkg/pgjobdb/runtime/integration/internal/runtimecodec/chapter.go:494-501 | a metadata clone shows the same value through new cells only |
| ChapterClones.CloneEntries | pkg/pgjobdb/runtime/integration/internal/runtimecodec/chapter.go:483-492 | a cloned map shows the same entries through new cells only |
| ChapterClones.CloneAttr | pkg/pgjobdb/runtime/integration/internal/runtimecodec/chapter.go:530-560 | a cloned attribute, nested map, list or typed slice, shows the same elements through new objects only, and holds the same references to values of other types |
| ChapterClones.CloneBody | pkg/pgjobdb/runtime/integration/internal/runtimecodec/chapter.go:231-333 | a cloned body by value or pointer shows the same bytes, attributes, stack and reference through new objects, but for attribute values of other types; a nil pointer becomes a missing body |
| ChapterClones.CloneChapter | pkg/pgjobdb/runtime/integration/internal/runtimecodec/chapter.go:221-229 | a cloned chapter shows what its source shows at every depth, artifacts included; the objects the two have in common are exactly those behind error attributes of types the cloner does not know |
| ChapterClones.SeparateIff | pkg/pgjobdb/runtime/integration/internal/runtimecodec/chapter.go:541-560 | source and clone are wholly separate exactly when no such attribute holds a reference |
| ChapterClones.CloneThenWrite | pkg/pgjobdb/runtime/integration/internal/runtimecodec/chapter.go:221-229 | a clone taken before a cell of the source is overwritten still shows the chapter as it was |
| ChapterClones.SeenChangesIff | pkg/pgjobdb/runtime/integration/internal/runtimecodec/chapter.go:557-558 | what is read behind the shared references changes, for both alike, exactly when one of them was written |
| ChapterClones.EditShowsThrough | pkg/pgjobdb/runtime/integration/internal/runtimecodec/chapter.go:557-558 | at one such attribute a write through the source is what the clone shows |

## Left out

- Cancellation archives at once: the `cancel_requested` flag set on the way, and the maintenance call that archives flagged rows, are not modelled.
- Tasks.SlotIsSpent: speaks of who may hold the slot; the chapter store that receives the output is external code.
- Listings.ScheduleWalk: takes as given that an update moves `updated_at` forward; the schedule mutations themselves are not modelled.
- The row filter of the job listing beyond available routes: pages are taken over any set of matching keys.
- Fingerprints.FingerprintIff: takes SHA-256 as injective, filter text as valid Unicode, and times by their JSON text.
- ChapterClones.CloneChapter: equality is of what is shown; an empty typed slice or buffer is cloned to nil, which marshals as null.
- PrepareJob and its preparation row: the row enters a submission as an input, without a proof of how it was written.
- Metadata field names are taken as valid Unicode; string values are not.
- Several tenants in one database: every mutation works inside one tenant and holds its lock, so one tenant is modelled.
- Concurrent transactions inside one call: each call is one atomic step under its row and tenant locks, with one clock reading.
- Stored artifacts are taken as text, and a schedule occurrence's spec hash and run id, which SubmitJob also requires, are not modelled.
- Payload canonicalisation and merge modes: an update is given by the document it results in.
- `blockedReason`, the lease expiration total, trace events and notifications: reported, never read by any decision.
- Schedules' own life cycle, CLI, server configuration, installers and error-text translation: each settled by reading one branch.
- The validation of discovery requests and of page-token scopes lies in another module and is not part of this model.
- Adapter.RescheduleReadsBack: the delay goes through float64 seconds and back and need not come back exactly; both conversions are opaque functions here, so nothing is claimed about the delay beyond that. Other floats are carried as reals or by identity.
