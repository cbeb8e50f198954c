/** The scheduler's transactions as functions from one database to the next. Each
    reads the clock once; an Err leaves the database as it was. */
module Steps {
  import opened Basics
  import opened RunPolicies
  import opened Tables
  import opened Waits
  import Graph

  /** One second of the microsecond clock. */
  const SECOND: nat := 1_000_000
  /** The longest alternate delay in seconds, math.MaxInt32. */
  const MAX_ALTERNATE: real := 2147483647.0
  const MAX_REVISION: int := 0x7FFF_FFFF_FFFF_FFFF

  // ---- Eligibility: job_status_at, effective_native_route --------------------------

  datatype Status = Ready | PastExpiry | PendingJobs | AwaitingFuture | Active | CrashConcern | CancelRequested

  predicate Held(j: Job, now: Time) {
    j.lease.Some? && j.lease.value.expiresAt > now
  }

  predicate WaitBlocks(s: Db, id: JobId, j: Job, now: Time) {
    && j.dependencyWait.Some?
    && var k := WaitKey(id, j.dependencyWait.value);
       k in s.waits && s.waits[k].state == Pending && !Expired(s.waits[k].deadline, now)
  }

  predicate LegacyBlocks(s: Db, j: Job, now: Time) {
    && (exists d :: d in j.waitFor && d !in s.archive)
    && !(j.waitUntilIsDeadline && j.availableAt <= now)
  }

  function StatusAt(s: Db, threshold: nat, id: JobId, now: Time): Status
    requires id in s.jobs
  {
    var j := s.jobs[id];
    if Held(j, now) then Active
    else if j.cancelRequested then CancelRequested
    else if WaitBlocks(s, id, j, now) then PendingJobs
    else if !j.waitUntilIsDeadline && j.availableAt > now then AwaitingFuture
    else if LegacyBlocks(s, j, now) then PendingJobs
    else if j.streak >= threshold then CrashConcern
    else if j.expiresAt.Some? && j.expiresAt.value <= now then PastExpiry
    else Ready
  }

  datatype EffectiveRoute = EffectiveRoute(jobType: string, kind: WorkKind, taskType: Option<string>, alternateDue: bool)

  predicate AlternateDue(j: Job, now: Time) {
    j.alternate.jobType.Some? && j.alternate.at.Some? && now >= j.alternate.at.value
  }

  function Effective(j: Job, now: Time): EffectiveRoute {
    if AlternateDue(j, now)
    then EffectiveRoute(j.alternate.jobType.value,
                        if j.alternate.taskType.None? then JobKind else TaskKind, j.alternate.taskType, true)
    else EffectiveRoute(j.route.jobType, j.route.kind, j.route.taskType, false)
  }

  // ---- Leases ---------------------------------------------------------------------

  /** What a worker asks for; `accepts` is the set of metadata documents its filters admit. */
  datatype WorkRequest = WorkRequest(worker: string, jobTypes: set<string>, tasks: set<(string, string)>,
                                     accepts: Option<set<string>>, seconds: int, leaseId: LeaseId)

  predicate Selects(req: WorkRequest, r: EffectiveRoute) {
    match r.kind
    case JobKind => r.jobType in req.jobTypes
    case TaskKind => r.taskType.Some? && (r.jobType, r.taskType.value) in req.tasks
  }

  predicate Accepts(accepts: Option<set<string>>, metadata: string) {
    accepts.Some? ==> metadata in accepts.value
  }

  predicate ValidWorkRequest(req: WorkRequest) {
    req.worker != "" && 1 <= req.seconds <= 86400 && (req.jobTypes != {} || req.tasks != {})
  }

  /** get_native_work's WHERE clause for one row. */
  predicate Eligible(s: Db, threshold: nat, req: WorkRequest, id: JobId) {
    && id in s.jobs && id in s.facts && id in s.clients
    && var j := s.jobs[id];
    && StatusAt(s, threshold, id, s.now) == Ready
    && !j.cancelRequested
    && (j.expiresAt.Some? ==> j.expiresAt.value > s.now)
    && !Held(j, s.now)
    && Accepts(req.accepts, s.facts[id].metadata)
    && Selects(req, Effective(j, s.now))
  }

  function NextStreak(j: Job): nat {
    if j.lease.Some? then j.streak + 1 else 0
  }

  /** The leased row, its due alternate promoted to the primary route. */
  function Leased(j: Job, now: Time, req: WorkRequest): Job {
    var e := Effective(j, now);
    var route := if e.kind == TaskKind
                 then j.route.(jobType := e.jobType, kind := TaskKind, taskType := e.taskType)
                 else RouteColumns(e.jobType, JobKind, e.taskType, None, None, None, None);
    j.(route := route,
       alternate := if e.alternateDue then NO_ALTERNATE else j.alternate,
       lease := Some(LeaseColumns(req.leaseId, req.worker, now + req.seconds * SECOND, e.jobType, e.kind, e.taskType)),
       streak := NextStreak(j))
  }

  /** get_native_work choosing row `id`: SKIP LOCKED may leave any eligible row as the first. */
  function GetWork(s: Db, threshold: nat, req: WorkRequest, id: JobId): Result<Db> {
    if !ValidWorkRequest(req) then Err("invalid work request")
    else
      var e := ExpireWaits(s);
      if Eligible(e, threshold, req, id)
      then Ok(e.(jobs := e.jobs[id := Leased(e.jobs[id], e.now, req)], issued := e.issued + {req.leaseId}))
      else Ok(e)
  }

  /** validate_native_lease's WHERE clause. */
  predicate Validates(s: Db, id: JobId, lease: LeaseId, worker: string) {
    && id in s.jobs && id in s.facts && id in s.clients
    && var j := s.jobs[id];
    && Held(j, s.now) && j.lease.value.id == lease && j.lease.value.worker == worker
    && !j.cancelRequested
  }

  /** The row validate_native_lease returns, without its expiry. */
  datatype Snapshot = Snapshot(goal: GoalId, jobType: string, policy: StoredPolicy, client: Client,
                               leaseJobType: string, leaseKind: WorkKind, leaseTaskType: Option<string>,
                               resumeJobType: Option<string>, inputOrdinal: Option<int64>,
                               outputOrdinal: Option<int64>, inputHash: Option<string>)

  function SnapshotOf(s: Db, id: JobId): Snapshot
    requires id in s.jobs && s.jobs[id].lease.Some? && id in s.facts && id in s.clients
  {
    var j, l := s.jobs[id], s.jobs[id].lease.value;
    Snapshot(j.goal, s.facts[id].jobType, s.facts[id].policy, s.clients[id], l.jobType, l.kind, l.taskType,
             j.route.resumeJobType, j.route.inputOrdinal, j.route.outputOrdinal, j.route.inputHash)
  }

  function Renew(s: Db, id: JobId, lease: LeaseId, worker: string, seconds: int): Result<Db> {
    if seconds < 1 || seconds > 86400 then Err("additional lease duration out of range")
    else if id !in s.jobs || s.jobs[id].lease.None? || s.jobs[id].lease.value.id != lease
    then Err("native lease not found")
    else if s.jobs[id].lease.value.worker != worker then Err("native lease owner mismatch")
    else if s.jobs[id].lease.value.expiresAt <= s.now then Err("native lease not active")
    else if s.jobs[id].cancelRequested then Err("cancelled job cannot extend the lease")
    else
      var l := s.jobs[id].lease.value;
      Ok(s.(jobs := s.jobs[id := s.jobs[id].(lease := Some(l.(expiresAt := s.now + seconds * SECOND)))]))
  }

  function ClearCrash(s: Db, id: JobId): Result<Db> {
    if id !in s.jobs then Err("job does not exist")
    else if s.jobs[id].cancelRequested then Err("cancelled job cannot clear crash concern")
    else Ok(s.(jobs := s.jobs[id := s.jobs[id].(streak := 0)]))
  }

  // ---- External task claims ---------------------------------------------------------

  datatype TaskWork = TaskWork(taskType: string, resumeJobType: string, inputOrdinal: int64,
                               outputOrdinal: int64, inputHash: string)

  predicate CompleteTask(t: TaskWork) {
    t.taskType != "" && t.resumeJobType != "" && t.inputOrdinal >= 0 && t.outputOrdinal >= 0 && t.inputHash != ""
  }

  function TaskColumns(jobType: string, t: TaskWork): RouteColumns {
    RouteColumns(jobType, TaskKind, Some(t.taskType), Some(t.resumeJobType),
                 Some(t.inputOrdinal), Some(t.outputOrdinal), Some(t.inputHash))
  }

  function JobColumns(jobType: string): RouteColumns {
    RouteColumns(jobType, JobKind, None, None, None, None, None)
  }

  datatype ClaimRequest = ClaimRequest(worker: string, jobType: string, task: TaskWork, seconds: int, leaseId: LeaseId)

  predicate ValidClaim(req: ClaimRequest) {
    req.worker != "" && req.jobType != "" && CompleteTask(req.task) && 1 <= req.seconds <= 86400
  }

  predicate Claimable(s: Db, threshold: nat, req: ClaimRequest, id: JobId) {
    && id in s.jobs
    && StatusAt(s, threshold, id, s.now) == Ready
    && s.jobs[id].route == TaskColumns(req.jobType, req.task)
  }

  /** claim_native_task: lease the job on its job-only resume route. */
  function Claimed(j: Job, now: Time, req: ClaimRequest): Job {
    j.(route := JobColumns(req.task.resumeJobType), alternate := NO_ALTERNATE,
       lease := Some(LeaseColumns(req.leaseId, req.worker, now + req.seconds * SECOND,
                                  req.task.resumeJobType, JobKind, None)),
       streak := NextStreak(j))
  }

  function ClaimTask(s: Db, threshold: nat, req: ClaimRequest, id: JobId): Result<Db> {
    if !ValidClaim(req) then Err("claim task requires full route and coordinates")
    else
      var e := ExpireWaits(s);
      if !Claimable(e, threshold, req, id) then Err("waiting task conflict")
      else Ok(e.(jobs := e.jobs[id := Claimed(e.jobs[id], e.now, req)], issued := e.issued + {req.leaseId}))
  }

  // ---- Archiving: _terminal_goals, _update_waiters_for_completion ----------------------

  function Membership(s: Db): set<(GoalId, JobId)> {
    s.candidates + set j | j in s.facts :: (s.facts[j].goal, j)
  }

  function Members(s: Db, g: GoalId): set<JobId> {
    set m | m in Membership(s) && m.0 == g :: m.1
  }

  /** The open goals a success of `id` resolves: its primary goal and its candidacies. */
  function OpenGoalsOf(s: Db, id: JobId, primary: GoalId): set<GoalId> {
    set g | g in s.goals && s.goals[g].state == Open && (g == primary || (g, id) in s.candidates)
  }

  function ResolveGoals(goals: Goals, now: Time, resolved: set<GoalId>, winner: JobId): Goals {
    map g | g in goals :: if g in resolved
      then goals[g].(state := Succeeded, revision := 2, winner := Some(winner), closedAt := Some(now))
      else goals[g]
  }

  function GoalTargets(gs: set<GoalId>): set<Target> {
    set g | g in gs :: GoalTarget(g)
  }

  function Without(ids: seq<JobId>, id: JobId): (r: seq<JobId>)
    ensures forall x :: x in r <==> x in ids && x != id
  {
    if ids == [] then []
    else if ids[0] == id then Without(ids[1..], id)
    else [ids[0]] + Without(ids[1..], id)
  }

  /** A waiter loses one legacy prerequisite; the last one ends its deadline mode. */
  function Woken(j: Job, id: JobId, now: Time): Job {
    if id !in j.waitFor then j
    else
      var left := Without(j.waitFor, id);
      j.(waitFor := left,
         availableAt := if j.waitUntilIsDeadline && left == [] then now else j.availableAt,
         waitUntilIsDeadline := j.waitUntilIsDeadline && left != [])
  }

  function WakeWaiters(jobs: map<JobId, Job>, id: JobId, now: Time): map<JobId, Job> {
    map x | x in jobs && x != id :: Woken(jobs[x], id, now)
  }

  /** Move an active job to the archive: cancel its own waits, resolve its goals when it
      succeeded, settle every wait subscribed to it or to those goals, wake its waiters. */
  function ArchiveJob(s: Db, id: JobId, status: CompletionStatus, detail: string): Db
    requires id in s.jobs
  {
    var j := s.jobs[id];
    var resolved := if status == Success then OpenGoalsOf(s, id, j.goal) else {};
    var terminal := CancelWaits(s.(archive := s.archive[id := Archived(j.goal, status, detail, j.route, j.alternate)]), id, None)
                    .(goals := ResolveGoals(s.goals, s.now, resolved, id));
    var settled := Settle(terminal, {JobTarget(id)} + GoalTargets(resolved));
    settled.(jobs := WakeWaiters(s.jobs, id, s.now))
  }

  // ---- Client payloads -----------------------------------------------------------------

  /** An update under an expected revision; `payload` is the document it results in. */
  datatype PayloadUpdate = PayloadUpdate(expected: int, payload: Option<string>)

  function UpdateClient(c: Client, u: Option<PayloadUpdate>): Result<Client> {
    match u
    case None => Ok(c)
    case Some(v) =>
      if v.expected < 0 then Err("expected revision required")
      else if c.revision != v.expected || c.revision == MAX_REVISION then Err("client payload revision conflict")
      else Ok(Client(v.payload, c.revision + 1))
  }

  // ---- Terminal steps --------------------------------------------------------------------

  predicate Unheld(st: Status) {
    st == Ready || st == CrashConcern || st == PastExpiry
  }

  /** complete_native_job under a lease, complete_native_unheld_job without one. */
  function Complete(s: Db, threshold: nat, id: JobId, lease: Option<LeaseId>, worker: string,
                    status: CompletionStatus, detail: string, update: Option<PayloadUpdate>): Result<Db>
  {
    if worker == "" || id !in s.jobs || id !in s.clients || id !in s.facts then Err("native job state is missing")
    else if lease.None? then
      if update.Some? then Err("payload updates require a held completion lease")
      else if !Unheld(StatusAt(s, threshold, id, s.now)) then Err("native job is not unheld")
      else Ok(ArchiveJob(s, id, status, detail))
    else if !Validates(s, id, lease.value, worker) then Err("native lease not active")
    else
      match UpdateClient(s.clients[id], update)
      case Err(e) => Err(e)
      case Ok(c) => Ok(ArchiveJob(s.(clients := s.clients[id := c]), id, status, detail))
  }

  function Cancel(s: Db, id: JobId, worker: string, reason: string): Result<Db> {
    if worker == "" || id !in s.jobs then Err("native job not found")
    else Ok(ArchiveJob(s, id, Cancelled, reason))
  }

  // ---- Deletion ----------------------------------------------------------------------------

  function DeleteOne(s: Db, id: JobId, at: Time): Db {
    if id !in s.facts || s.facts[id].hiddenAt.Some? then s
    else
      var archived := if id in s.jobs then ArchiveJob(s, id, Cancelled, "job deleted") else s;
      archived.(facts := s.facts[id := s.facts[id].(hiddenAt := Some(at))])
  }

  function DeleteAll(s: Db, order: seq<JobId>, at: Time): Db
    decreases |order|
  {
    if order == [] then s else DeleteAll(DeleteOne(s, order[0], at), order[1..], at)
  }

  /** Selectors intersect; an empty id set and an absent cutoff or filter select everything. */
  datatype DeleteRequest = DeleteRequest(ids: set<JobId>, cutoff: Option<Time>, accepts: Option<set<string>>,
                                         all: bool, at: Time)

  predicate ValidDelete(req: DeleteRequest) {
    req.all != (req.ids != {} || req.cutoff.Some? || req.accepts.Some?)
  }

  function Selected(s: Db, req: DeleteRequest): set<JobId> {
    set j | j in s.facts && s.facts[j].hiddenAt.None?
            && (req.ids == {} || j in req.ids)
            && (req.cutoff.Some? ==> s.facts[j].createdAt < req.cutoff.value)
            && Accepts(req.accepts, s.facts[j].metadata)
  }

  predicate Enumerates(order: seq<JobId>, chosen: set<JobId>) {
    Graph.NoRepeats(order) && (forall j :: j in order ==> j in chosen) && (forall j :: j in chosen ==> j in order)
  }

  function Delete(s: Db, req: DeleteRequest, order: seq<JobId>): Result<Db> {
    if !ValidDelete(req) then Err("choose deletion selectors or all, exclusively")
    else if !Enumerates(order, Selected(s, req)) then Err("not an enumeration of the selection")
    else Ok(DeleteAll(s, order, req.at))
  }

  // ---- Dependency graph and wait registration --------------------------------------------------

  predicate LiveSubscription(s: Db, p: (WaitKey, Target)) {
    && p.0.job !in s.archive
    && p.0 in s.waits && !Expired(s.waits[p.0].deadline, s.now)
  }

  predicate LiveMember(s: Db, m: (GoalId, JobId)) {
    m.0 in s.goals && s.goals[m.0].state == Open && m.1 !in s.archive
  }

  /** A live consumer points at what it still waits for; an open goal at its live members. */
  function Edges(s: Db): set<(Target, Target)> {
    (set p | p in s.targets && LiveSubscription(s, p) :: (JobTarget(p.0.job), p.1))
    + (set m | m in Membership(s) && LiveMember(s, m) :: (GoalTarget(m.0), JobTarget(m.1)))
  }

  predicate ClosesCycle(s: Db, start: Target) {
    Graph.Walk(Edges(s), [start])
  }

  const SUBMISSION: WaitId := "submission"

  predicate ValidWaitId(id: WaitId) {
    id != "" && forall c :: c in id ==> c !in "/\\?#% "
  }

  predicate ValidDependencies(deps: seq<Dependency>) {
    && (forall i, j :: 0 <= i < j < |deps| ==> deps[i].target != deps[j].target)
    && forall i :: 0 <= i < |deps| ==>
      match deps[i].target
      case JobTarget(j) => j != ""
      case GoalTarget(g) => g != "" && deps[i].condition == OnSuccess
  }

  predicate TargetExists(s: Db, t: Target) {
    match t
    case JobTarget(j) => j in s.facts
    case GoalTarget(g) => g in s.goals
  }

  datatype WaitRequest = WaitRequest(id: WaitId, dependencies: seq<Dependency>, deadline: Option<Time>)

  function NewWait(req: WaitRequest): Wait {
    Wait(req.dependencies, req.deadline, Pending,
         seq(|req.dependencies|, i requires 0 <= i < |req.dependencies| =>
           Binding(req.dependencies[i], Pending, None, None)), None)
  }

  function SaveEvaluated(s: Db, k: WaitKey, w: Wait): Db {
    SaveWaits(s, map[k := Evaluate(s.goals, s.archive, s.now, w)])
  }

  /** _register_wait: an unchanged descriptor is evaluated again, a new one is evaluated,
      stored, and refused when it closes a cycle. */
  function RegisterWait(s: Db, job: JobId, req: WaitRequest, submission: bool): Result<Db> {
    var k := WaitKey(job, req.id);
    if !ValidWaitId(req.id) || (req.id == SUBMISSION && !submission) then Err("invalid wait id")
    else if req.dependencies == [] || !ValidDependencies(req.dependencies) then Err("invalid dependencies")
    else if k in s.waits then
      if s.waits[k].descriptor != req.dependencies || s.waits[k].deadline != req.deadline
      then Err("wait descriptor changed")
      else Ok(SaveEvaluated(s, k, s.waits[k]))
    else if exists d :: d in req.dependencies && d.target == JobTarget(job) then Err("self dependency")
    else if exists d :: d in req.dependencies && !TargetExists(s, d.target) then Err("target not found")
    else
      var saved := SaveEvaluated(s, k, NewWait(req));
      if ClosesCycle(saved, JobTarget(job)) then Err("dependency cycle") else Ok(saved)
  }

  // ---- Rescheduling -------------------------------------------------------------------------

  datatype AlternateRequest = AlternateRequest(jobType: string, taskType: string, after: real)

  datatype RescheduleRequest = RescheduleRequest(
    jobType: string, kind: WorkKind, task: Option<TaskWork>, waitFor: seq<JobId>, availableAt: Option<Time>,
    waitUntilIsDeadline: bool, alternate: Option<AlternateRequest>, update: Option<PayloadUpdate>,
    wait: Option<WaitRequest>)

  predicate ValidAlternate(kind: WorkKind, a: AlternateRequest) {
    if a.jobType == "" then a.taskType == "" && a.after == 0.0
    else (a.taskType != "" ==> kind == TaskKind) && 0.0 <= a.after <= MAX_ALTERNATE
  }

  predicate HasAlternate(req: RescheduleRequest) {
    req.alternate.Some? && req.alternate.value.jobType != ""
  }

  /** Everything rescheduleJob checks before it calls the database. */
  predicate ValidReschedule(id: JobId, req: RescheduleRequest) {
    && (req.waitUntilIsDeadline ==> req.waitFor != [] && req.availableAt.Some?)
    && req.jobType != ""
    && (match req.kind
        case JobKind => req.task.None?
        case TaskKind => req.task.Some? && CompleteTask(req.task.value))
    && (forall w :: w in req.waitFor ==> w != "" && w != id)
    && (req.alternate.Some? ==> ValidAlternate(req.kind, req.alternate.value))
    && (req.wait.Some? ==> req.waitFor == [] && req.availableAt.None? && !HasAlternate(req))
  }

  function RequestedRoute(req: RescheduleRequest): RouteColumns
    requires req.kind == TaskKind ==> req.task.Some?
  {
    if req.kind == TaskKind then TaskColumns(req.jobType, req.task.value) else JobColumns(req.jobType)
  }

  /** make_interval: seconds to the nearest microsecond. */
  function Microseconds(seconds: real): int {
    (seconds * 1000000.0 + 0.5).Floor
  }

  function RequestedAlternate(req: RescheduleRequest, now: Time): AlternateColumns
    requires req.alternate.Some? ==> ValidAlternate(req.kind, req.alternate.value)
  {
    if !HasAlternate(req) then NO_ALTERNATE
    else
      var a := req.alternate.value;
      AlternateColumns(Some(a.jobType), if a.taskType == "" then None else Some(a.taskType),
                       Some(a.after), Some(now + Microseconds(a.after)))
  }

  /** normalize_wait_for: unknown jobs are an error, archived ones are already done. */
  function NormalizeWaitFor(s: Db, ids: seq<JobId>): (r: Result<seq<JobId>>)
    ensures r.Ok? ==> forall x :: x in r.value <==> x in ids && x in s.jobs
    ensures r.Ok? <==> forall x :: x in ids ==> x in s.jobs || x in s.archive
  {
    if ids == [] then Ok([])
    else if ids[0] !in s.jobs && ids[0] !in s.archive then Err("wait_for references unknown jobs")
    else
      match NormalizeWaitFor(s, ids[1..])
      case Err(e) => Err(e)
      case Ok(rest) => Ok(if ids[0] in s.jobs then [ids[0]] + rest else rest)
  }

  lemma NormalizeOne(s: Db, x: JobId)
    requires x in s.jobs || x in s.archive
    ensures NormalizeWaitFor(s, [x]) == Ok(if x in s.jobs then [x] else [])
  {
    var ids, none: seq<JobId> := [x], [];
    assert ids[1..] == none && NormalizeWaitFor(s, none) == Ok(none);
    assert [x] + none == [x];
  }

  /** The kept ids come in the order and as often as they were given. */
  lemma {:induction false} NormalizeConcat(s: Db, a: seq<JobId>, b: seq<JobId>)
    requires NormalizeWaitFor(s, a + b).Ok?
    ensures NormalizeWaitFor(s, a).Ok? && NormalizeWaitFor(s, b).Ok?
    ensures NormalizeWaitFor(s, a + b).value == NormalizeWaitFor(s, a).value + NormalizeWaitFor(s, b).value
    decreases |a|
  {
    forall x | x in a || x in b ensures x in s.jobs || x in s.archive { assert x in a + b; }
    if a == [] {
      assert a + b == b;
    } else {
      var both, rest := a + b, a[1..] + b;
      assert both[0] == a[0] && both[1..] == rest;
      forall x | x in rest ensures x in both { }
      NormalizeConcat(s, a[1..], b);
      NormalizeStep(s, a);
      NormalizeStep(s, both);
    }
  }

  lemma NormalizeStep(s: Db, ids: seq<JobId>)
    requires ids != [] && NormalizeWaitFor(s, ids).Ok? && NormalizeWaitFor(s, ids[1..]).Ok?
    ensures ids[0] in s.jobs ==> NormalizeWaitFor(s, ids).value == [ids[0]] + NormalizeWaitFor(s, ids[1..]).value
    ensures ids[0] !in s.jobs ==> NormalizeWaitFor(s, ids).value == NormalizeWaitFor(s, ids[1..]).value
  {
  }

  function Rescheduled(j: Job, req: RescheduleRequest, waitFor: seq<JobId>, now: Time): Job
    requires req.kind == TaskKind ==> req.task.Some?
    requires req.alternate.Some? ==> ValidAlternate(req.kind, req.alternate.value)
  {
    j.(dependencyWait := if req.wait.Some? then Some(req.wait.value.id) else None,
       route := RequestedRoute(req),
       waitFor := waitFor,
       availableAt := if (req.waitUntilIsDeadline && waitFor == []) || req.availableAt.None? then now else req.availableAt.value,
       waitUntilIsDeadline := req.waitUntilIsDeadline && waitFor != [],
       alternate := RequestedAlternate(req, now),
       lease := None, streak := 0)
  }

  function Reschedule(s: Db, threshold: nat, id: JobId, lease: Option<LeaseId>, worker: string,
                      req: RescheduleRequest): Result<Db>
  {
    if worker == "" || !ValidReschedule(id, req) then Err("invalid reschedule request")
    else if id !in s.jobs || id !in s.clients || id !in s.facts then Err("native job state is missing")
    else if lease.None? && (req.update.Some? || !Unheld(StatusAt(s, threshold, id, s.now)))
    then Err("native job is not unheld")
    else if lease.Some? && !Validates(s, id, lease.value, worker) then Err("native lease not active")
    else
      match UpdateClient(s.clients[id], req.update)
      case Err(e) => Err(e)
      case Ok(c) =>
        var keep := if req.wait.Some? then Some(req.wait.value.id) else None;
        var cancelled := CancelWaits(s.(clients := s.clients[id := c]), id, keep);
        var registered := if req.wait.Some? then RegisterWait(cancelled, id, req.wait.value, false) else Ok(cancelled);
        match registered
        case Err(e) => Err(e)
        case Ok(r) =>
          match NormalizeWaitFor(r, req.waitFor)
          case Err(e) => Err(e)
          case Ok(waitFor) => Ok(r.(jobs := r.jobs[id := Rescheduled(r.jobs[id], req, waitFor, s.now)]))
  }

  // ---- Submission ------------------------------------------------------------------------------

  datatype Occurrence = Occurrence(scheduleId: string, generation: int64, scheduledAt: Time, history: Option<Document>)

  /** The preparation row a submission finds, when there is one. */
  datatype Preparation = Preparation(goal: GoalId, shareGoal: bool, dependencies: seq<Dependency>)

  datatype SubmitRequest = SubmitRequest(
    worker: string, jobType: string, policy: StoredPolicy, metadata: string, parent: Option<JobId>,
    schedule: Option<Occurrence>, waitFor: seq<JobId>, availableAt: Option<Time>, expiresAt: Option<Time>,
    payload: Option<string>, goal: Option<GoalId>, generatedGoal: GoalId, shareGoal: bool,
    preparation: Option<Preparation>, dependencies: seq<Dependency>)

  predicate ValidSubmit(id: JobId, req: SubmitRequest) {
    && id != "" && req.worker != "" && req.jobType != "" && SubmitAccepts(req.policy)
    && (req.schedule.Some? ==>
          && req.schedule.value.scheduleId != "" && req.schedule.value.generation >= 1
          && (req.schedule.value.history.Some? ==> req.schedule.value.history.value.Object?))
    && (forall w :: w in req.waitFor ==> w != "" && w != id)
    && ValidDependencies(req.dependencies)
    && (req.waitFor == [] || req.dependencies == [])
    && (req.preparation.Some? ==>
          && req.goal == Some(req.preparation.value.goal)
          && req.preparation.value.shareGoal == req.shareGoal
          && req.preparation.value.dependencies == req.dependencies)
  }

  function NewFacts(req: SubmitRequest, goal: GoalId, now: Time): Facts {
    Facts(goal, req.jobType, req.policy, req.metadata, req.parent, now, req.expiresAt, req.dependencies, req.payload,
          if req.schedule.Some? then Some(req.schedule.value.scheduleId) else None,
          if req.schedule.Some? then Some(req.schedule.value.generation) else None,
          if req.schedule.Some? then Some(req.schedule.value.scheduledAt) else None,
          if req.schedule.Some? then req.schedule.value.history else None, None)
  }

  function NewJob(req: SubmitRequest, goal: GoalId, waitFor: seq<JobId>, now: Time): Job {
    Job(goal, JobColumns(req.jobType), NO_ALTERNATE, waitFor,
        if req.availableAt.Some? then req.availableAt.value else now, false, req.expiresAt,
        if req.dependencies == [] then None else Some(SUBMISSION), None, 0, false)
  }

  /** The primary goal a submission names or is given. */
  function SubmittedGoal(req: SubmitRequest): GoalId {
    if req.goal.Some? then req.goal.value else req.generatedGoal
  }

  /** A retry names the same immutable facts. */
  predicate SameFacts(f: Facts, req: SubmitRequest) {
    NewFacts(req, f.goal, f.createdAt) == f.(hiddenAt := None)
  }

  function NewClient(req: SubmitRequest): Client {
    Client(req.payload, if req.payload.None? then 0 else 1)
  }

  predicate ParentHidden(s: Db, req: SubmitRequest) {
    req.parent.Some? && req.parent.value in s.facts && s.facts[req.parent.value].hiddenAt.Some?
  }

  /** The rows of a new job and, unless it joins an open goal, of its own goal. */
  function Inserted(s: Db, id: JobId, req: SubmitRequest, goal: GoalId, waitFor: seq<JobId>): Db {
    s.(goals := if req.shareGoal then s.goals else s.goals[goal := Goal(Open, 1, None, None, s.now, None)],
       facts := s.facts[id := NewFacts(req, goal, s.now)],
       jobs := s.jobs[id := NewJob(req, goal, waitFor, s.now)],
       clients := s.clients[id := NewClient(req)])
  }

  function Submit(s: Db, id: JobId, req: SubmitRequest): Result<Db> {
    if !ValidSubmit(id, req) then Err("invalid submission")
    else if id in s.facts then
      if req.goal.Some? && req.goal.value != s.facts[id].goal then Err("primary goal differs")
      else if ParentHidden(s, req) then Err("parent job was deleted")
      else if !SameFacts(s.facts[id], req) then Err("job id already exists with different immutable facts")
      else Ok(s)
    else
      var goal := SubmittedGoal(req);
      if req.shareGoal && (req.preparation.None? || goal !in s.goals || s.goals[goal].state != Open)
      then Err("shared goal is closed or unprepared")
      else if !req.shareGoal && goal in s.goals then Err("goal already exists")
      else if ParentHidden(s, req) then Err("parent job was deleted")
      else
        match NormalizeWaitFor(s, req.waitFor)
        case Err(e) => Err(e)
        case Ok(waitFor) =>
          var inserted := Inserted(s, id, req, goal, waitFor);
          var registered := if req.dependencies == [] then Ok(inserted)
                            else RegisterWait(inserted, id, WaitRequest(SUBMISSION, req.dependencies, None), true);
          match registered
          case Err(e) => Err(e)
          case Ok(r) =>
            if req.shareGoal && ClosesCycle(r, GoalTarget(goal)) then Err("dependency cycle") else Ok(r)
  }

  // ---- Goals ---------------------------------------------------------------------------------------

  function AddCandidate(s: Db, g: GoalId, j: JobId): Result<Db> {
    if g !in s.goals then Err("goal not found")
    else if j !in s.facts then Err("job not found")
    else if s.facts[j].goal == g || (g, j) in s.candidates then Ok(s)
    else if s.goals[g].state != Open then Err("goal is closed")
    else
      var attached := s.(candidates := s.candidates + {(g, j)});
      var settled := if j in s.archive && s.archive[j].status == Success
                     then Settle(attached.(goals := ResolveGoals(s.goals, s.now, {g}, j)), {GoalTarget(g)})
                     else attached;
      if ClosesCycle(settled, GoalTarget(g)) then Err("dependency cycle") else Ok(settled)
  }

  function FailureSnapshot(s: Db, g: GoalId, message: string): Failure {
    GoalFailure(g, message, (set m | m in Members(s, g) && m in s.archive),
                (set m | m in Members(s, g) && m !in s.archive), s.now)
  }

  function FailGoal(s: Db, g: GoalId, message: string): Result<Db> {
    if message == "" then Err("invalid failure message")
    else if g !in s.goals then Err("goal not found")
    else if s.goals[g].state == Failed && s.goals[g].failure.Some? && s.goals[g].failure.value.GoalFailure?
            && s.goals[g].failure.value.message == message then Ok(s)
    else if s.goals[g].state != Open then Err("goal is closed")
    else
      var closed := s.goals[g].(state := Failed, revision := 2, failure := Some(FailureSnapshot(s, g, message)),
                                closedAt := Some(s.now));
      Ok(Settle(s.(goals := s.goals[g := closed]), {GoalTarget(g)}))
  }

  // ---- Runs ------------------------------------------------------------------------------------------

  datatype Event =
    | SubmitJob(job: JobId, submission: SubmitRequest)
    | AcquireWork(job: JobId, request: WorkRequest)
    | RenewLease(job: JobId, lease: LeaseId, worker: string, seconds: int)
    | RescheduleJob(job: JobId, holder: Option<LeaseId>, worker: string, reschedule: RescheduleRequest)
    | ClaimWaitingTask(job: JobId, claim: ClaimRequest)
    | CompleteJob(job: JobId, holder: Option<LeaseId>, worker: string, status: CompletionStatus, detail: string,
                  update: Option<PayloadUpdate>)
    | CancelJob(job: JobId, worker: string, detail: string)
    | DeleteJobs(selection: DeleteRequest, order: seq<JobId>)
    | AttachCandidate(goal: GoalId, job: JobId)
    | CloseGoal(goal: GoalId, message: string)
    | ClearCrashConcern(job: JobId)
    | Tick(elapsed: nat)

  /** gen_random_uuid never repeats: a grant carries a lease id not issued before. */
  predicate FreshLease(s: Db, e: Event) {
    match e
    case AcquireWork(_, r) => r.leaseId !in s.issued
    case ClaimWaitingTask(_, r) => r.leaseId !in s.issued
    case _ => true
  }

  function Attempt(s: Db, threshold: nat, e: Event): Result<Db> {
    if !FreshLease(s, e) then Err("lease id already issued")
    else
      match e
      case SubmitJob(id, r) => Submit(s, id, r)
      case AcquireWork(id, r) => GetWork(s, threshold, r, id)
      case RenewLease(id, l, w, n) => Renew(s, id, l, w, n)
      case RescheduleJob(id, l, w, r) => Reschedule(s, threshold, id, l, w, r)
      case ClaimWaitingTask(id, r) => ClaimTask(s, threshold, r, id)
      case CompleteJob(id, l, w, st, d, u) => Complete(s, threshold, id, l, w, st, d, u)
      case CancelJob(id, w, d) => Cancel(s, id, w, d)
      case DeleteJobs(r, order) => Delete(s, r, order)
      case AttachCandidate(g, j) => AddCandidate(s, g, j)
      case CloseGoal(g, m) => FailGoal(s, g, m)
      case ClearCrashConcern(id) => ClearCrash(s, id)
      case Tick(n) => Ok(s.(now := s.now + n))
  }

  /** A failed call rolls back. */
  function Apply(s: Db, threshold: nat, e: Event): Db {
    match Attempt(s, threshold, e)
    case Ok(r) => r
    case Err(_) => s
  }

  function Run(s: Db, threshold: nat, es: seq<Event>): Db
    decreases |es|
  {
    if es == [] then s else Run(Apply(s, threshold, es[0]), threshold, es[1..])
  }
}
