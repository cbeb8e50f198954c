/** The rows one tenant owns, as pgjobdb.sql declares them. Every stored row is keyed
    by tenant first and every mutation works inside one tenant. */
module Tables {
  import opened Basics
  import opened RunPolicies

  type Time = int
  type JobId = string
  type GoalId = string
  type WaitId = string
  type LeaseId = string

  datatype WorkKind = JobKind | TaskKind

  /** jobs.route_job_type .. jobs.task_input_hash; nullable columns are options. */
  datatype RouteColumns = RouteColumns(jobType: string, kind: WorkKind, taskType: Option<string>,
                                       resumeJobType: Option<string>, inputOrdinal: Option<int64>,
                                       outputOrdinal: Option<int64>, inputHash: Option<string>)

  /** jobs.alternate_*; `after` is the delay in seconds, a double precision column. */
  datatype AlternateColumns = AlternateColumns(jobType: Option<string>, taskType: Option<string>,
                                               after: Option<real>, at: Option<Time>)

  const NO_ALTERNATE := AlternateColumns(None, None, None, None)

  /** jobs.lease_*, which every statement sets and clears together. */
  datatype LeaseColumns = LeaseColumns(id: LeaseId, worker: string, expiresAt: Time,
                                       jobType: string, kind: WorkKind, taskType: Option<string>)

  datatype Job = Job(goal: GoalId, route: RouteColumns, alternate: AlternateColumns,
                     waitFor: seq<JobId>, availableAt: Time, waitUntilIsDeadline: bool,
                     expiresAt: Option<Time>, dependencyWait: Option<WaitId>,
                     lease: Option<LeaseColumns>, streak: nat, cancelRequested: bool)

  datatype CompletionStatus = Success | FailedApp | FailedSystem | FailedTimeout | Cancelled

  datatype Archived = Archived(goal: GoalId, status: CompletionStatus, detail: string,
                               route: RouteColumns, alternate: AlternateColumns)

  /** A JSON document: an object with its fields' texts, or something else. */
  datatype Document = Object(fields: map<string, string>) | OtherJson(text: string)

  /** Immutable facts of a job; only hidden_at is ever written again. */
  datatype Facts = Facts(goal: GoalId, jobType: string, policy: StoredPolicy, metadata: string,
                         parent: Option<JobId>, createdAt: Time, expiresAt: Option<Time>,
                         dependencies: seq<Dependency>, initialPayload: Option<string>,
                         scheduleId: Option<string>, scheduleGeneration: Option<int64>,
                         scheduledAt: Option<Time>, scheduleHistory: Option<Document>, hiddenAt: Option<Time>)

  datatype Client = Client(payload: Option<string>, revision: nat)

  datatype GoalState = Open | Succeeded | Failed

  datatype Failure = GoalFailure(goal: GoalId, message: string, terminal: set<JobId>,
                                 nonTerminal: set<JobId>, failedAt: Time)
                   | JobFailure(job: JobId)

  datatype Goal = Goal(state: GoalState, revision: nat, winner: Option<JobId>, failure: Option<Failure>,
                       createdAt: Time, closedAt: Option<Time>)

  /** A dependency target, and at the same time a node of the dependency graph. */
  datatype Target = JobTarget(job: JobId) | GoalTarget(goal: GoalId)

  datatype Condition = OnSuccess | OnComplete

  datatype Dependency = Dependency(target: Target, condition: Condition)

  datatype OutcomeState = Pending | Satisfied | DidFail | TimedOut | WasCancelled

  /** One entry of a wait's outcome: its state and the binding that decided it. */
  datatype Binding = Binding(dependency: Dependency, state: OutcomeState,
                             satisfiedBy: Option<JobId>, failure: Option<Failure>)

  datatype WaitKey = WaitKey(job: JobId, wait: WaitId)

  datatype Wait = Wait(descriptor: seq<Dependency>, deadline: Option<Time>, state: OutcomeState,
                       bindings: seq<Binding>, failedIndex: Option<nat>)

  /** One tenant's database, with its clock and the lease ids handed out so far. */
  datatype Db = Db(now: Time, facts: map<JobId, Facts>, jobs: map<JobId, Job>,
                   archive: map<JobId, Archived>, clients: map<JobId, Client>,
                   goals: map<GoalId, Goal>, candidates: set<(GoalId, JobId)>,
                   waits: map<WaitKey, Wait>, targets: set<(WaitKey, Target)>,
                   issued: set<LeaseId>)

  const EMPTY := Db(0, map[], map[], map[], map[], map[], {}, map[], {}, {})
}
