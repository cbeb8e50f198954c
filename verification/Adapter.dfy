/** The runtime adapter's write path against its read path: what it stores it can decode. */
module Adapter {
  import opened Basics
  import opened RunPolicies
  import opened Tables
  import opened Waits
  import opened Steps
  import opened Invariants
  import opened Preservation
  import opened GoalPreservation
  import opened Runs
  import opened Rows
  import opened Transitions

  /** The columns of native_jobs that decoding can stumble over. */
  datatype Detail = Detail(route: RouteColumns, alternate: AlternateColumns, policy: StoredPolicy,
                           scheduleId: Option<string>, generation: Option<int64>, scheduledAt: Option<Time>,
                           history: Option<Document>, completion: Option<CompletionStatus>)

  datatype AlternateRoute = AlternateRoute(jobType: string, taskType: string, after: int)

  datatype ScheduleOccurrence<H> = ScheduleOccurrence(scheduleId: string, generation: int64, scheduledAt: Time, history: Option<H>)

  datatype StoredJob<H> = StoredJob(routeJobType: string, kind: WorkKind, task: Option<TaskWork>,
                                    alternate: Option<AlternateRoute>, policy: Policy,
                                    schedule: Option<ScheduleOccurrence<H>>, completion: Option<CompletionStatus>)

  /** encoding/json on failure histories, and float64 seconds to and from nanoseconds. */
  datatype Codec<!H> = Codec(write: H -> Document, read: Document -> Option<H>, seconds: int -> real, delay: real -> int)

  ghost predicate Inverse<H(!new)>(c: Codec<H>) {
    forall h :: c.write(h).Object? && c.read(c.write(h)) == Some(h)
  }

  /** A NULL text column reads as the empty string. */
  function Text(t: Option<string>): string {
    if t.None? then "" else t.value
  }

  function DetailOf(s: Db, id: JobId): Option<Detail> {
    if id !in s.facts || id !in s.clients then None
    else
      var f := s.facts[id];
      if id in s.jobs
      then Some(Detail(s.jobs[id].route, s.jobs[id].alternate, f.policy,
                       f.scheduleId, f.scheduleGeneration, f.scheduledAt, f.scheduleHistory, None))
      else if id in s.archive
      then Some(Detail(s.archive[id].route, s.archive[id].alternate, f.policy,
                       f.scheduleId, f.scheduleGeneration, f.scheduledAt, f.scheduleHistory, Some(s.archive[id].status)))
      else None
  }

  function DecodeTask(r: RouteColumns): Result<Option<TaskWork>> {
    if r.kind == JobKind then Ok(None)
    else if Text(r.taskType) == "" || Text(r.resumeJobType) == "" || r.inputOrdinal.None?
            || r.outputOrdinal.None? || Text(r.inputHash) == ""
    then Err("task route lacks coordinates")
    else Ok(Some(TaskWork(Text(r.taskType), Text(r.resumeJobType), r.inputOrdinal.value, r.outputOrdinal.value, Text(r.inputHash))))
  }

  function DecodeAlternate<H>(c: Codec<H>, a: AlternateColumns): Result<Option<AlternateRoute>> {
    if Text(a.jobType) == "" then Ok(None)
    else if a.after.None? then Err("alternate route lacks delay")
    else Ok(Some(AlternateRoute(Text(a.jobType), Text(a.taskType), c.delay(a.after.value))))
  }

  function DecodeSchedule<H>(c: Codec<H>, d: Detail): Result<Option<ScheduleOccurrence<H>>> {
    if Text(d.scheduleId) == "" then Ok(None)
    else if d.generation.None? || d.scheduledAt.None? then Err("schedule occurrence is incomplete")
    else if d.history.Some? && c.read(d.history.value).None? then Err("decode schedule failure history")
    else Ok(Some(ScheduleOccurrence(Text(d.scheduleId), d.generation.value, d.scheduledAt.value,
                                    if d.history.Some? then c.read(d.history.value) else None)))
  }

  /** storedJobFromDetail; the list mapping leaves alternate and schedule out. */
  function Decode<H>(c: Codec<H>, d: Detail, summary: bool): Result<StoredJob<H>> {
    match FromStored(d.policy)
    case Err(e) => Err(e)
    case Ok(policy) =>
      match DecodeTask(d.route)
      case Err(e) => Err(e)
      case Ok(task) =>
        match if summary then Ok(None) else DecodeAlternate(c, d.alternate)
        case Err(e) => Err(e)
        case Ok(alternate) =>
          match if summary then Ok(None) else DecodeSchedule(c, d)
          case Err(e) => Err(e)
          case Ok(schedule) =>
            Ok(StoredJob(d.route.jobType, d.route.kind, task, alternate, policy, schedule, d.completion))
  }

  /** The loop over a page of rows: one undecodable row fails the whole page. */
  method DecodePage<H>(c: Codec<H>, rows: seq<Detail>) returns (r: Result<seq<StoredJob<H>>>)
    ensures r.Ok? <==> forall i :: 0 <= i < |rows| ==> Decode(c, rows[i], true).Ok?
    ensures r.Ok? ==> |r.value| == |rows| && forall i :: 0 <= i < |rows| ==> Ok(r.value[i]) == Decode(c, rows[i], true)
  {
    var jobs: seq<StoredJob<H>> := [];
    for i := 0 to |rows|
      invariant |jobs| == i && forall k :: 0 <= k < i ==> Ok(jobs[k]) == Decode(c, rows[k], true)
    {
      match Decode(c, rows[i], true) {
        case Err(e) => return Err(e);
        case Ok(job) => jobs := jobs + [job];
      }
    }
    return Ok(jobs);
  }

  /** The facts whose history the detail read will unmarshal do unmarshal. */
  predicate HistoryReads<H>(c: Codec<H>, f: Facts) {
    Text(f.scheduleId) != "" && f.scheduleHistory.Some? ==> c.read(f.scheduleHistory.value).Some?
  }

  /** In every reachable database a row, active or archived, with its primary or a promoted
      alternate route, decodes exactly when its policy fits nanoseconds and, in the detail
      mapping, its failure history has the adapter's own shape. */
  lemma DecodesIff<H>(c: Codec<H>, s: Db, threshold: nat, id: JobId, summary: bool)
    requires Inv(s, threshold) && id in s.facts
    ensures DetailOf(s, id).Some?
    ensures Decode(c, DetailOf(s, id).value, summary).Ok? <==>
              InRange(s.facts[id].policy) && (summary || HistoryReads(c, s.facts[id]))
  {
    assert IdentityOk(s, id);
    if id in s.jobs { assert JobOk(s, threshold, id); } else { assert ArchivedOk(s, id); }
  }

  /** Every submission went through CreateJob: a converted policy, a marshalled history. */
  ghost predicate Created<H(!new)>(c: Codec<H>, req: SubmitRequest) {
    && InRange(req.policy)
    && (req.schedule.Some? && req.schedule.value.history.Some? ==> exists h :: req.schedule.value.history.value == c.write(h))
  }

  ghost predicate FromAdapter<H(!new)>(c: Codec<H>, es: seq<Event>) {
    forall e :: e in es && e.SubmitJob? ==> Created(c, e.submission)
  }

  ghost predicate FactsDecode<H>(c: Codec<H>, s: Db) {
    forall j :: j in s.facts ==> InRange(s.facts[j].policy) && HistoryReads(c, s.facts[j])
  }

  lemma CreatedDecodes<H(!new)>(c: Codec<H>, req: SubmitRequest, goal: GoalId, now: Time)
    requires Inverse(c) && Created(c, req)
    ensures InRange(NewFacts(req, goal, now).policy) && HistoryReads(c, NewFacts(req, goal, now))
  {
  }

  lemma {:induction false} AdapterFacts<H(!new)>(c: Codec<H>, s: Db, threshold: nat, es: seq<Event>)
    requires Inverse(c) && Inv(s, threshold) && FactsDecode(c, s) && FromAdapter(c, es)
    ensures FactsDecode(c, Run(s, threshold, es))
    decreases |es|
  {
    if es != [] {
      var t := Apply(s, threshold, es[0]);
      StepTransition(s, threshold, es[0]);
      assert es[0] in es;
      AdapterStep(c, s, t, threshold, es[0]);
      AdapterFacts(c, t, threshold, es[1..]);
    }
  }

  lemma AdapterStep<H(!new)>(c: Codec<H>, s: Db, t: Db, threshold: nat, e: Event)
    requires Inverse(c) && Transition(s, t, threshold, e) && FactsDecode(c, s)
    requires e.SubmitJob? ==> Created(c, e.submission)
    ensures FactsDecode(c, t)
  {
    forall j | j in t.facts ensures InRange(t.facts[j].policy) && HistoryReads(c, t.facts[j]) {
      if j in s.facts {
        assert FactLater(s, t, j);
      } else {
        assert RowStep(s, t, threshold, e, j);
        CreatedDecodes(c, e.submission, t.facts[j].goal, s.now);
      }
    }
  }

  /** What the adapter creates, reschedules, claims, completes or promotes it always reads
      back, in both mappings, given that a history it wrote reads back. */
  lemma AdapterAlwaysDecodes<H(!new)>(c: Codec<H>, threshold: nat, es: seq<Event>, id: JobId, summary: bool)
    requires Inverse(c) && FromAdapter(c, es) && id in Run(EMPTY, threshold, es).facts
    ensures var d := DetailOf(Run(EMPTY, threshold, es), id); d.Some? && Decode(c, d.value, summary).Ok?
  {
    EmptyInv(threshold);
    AdapterFacts(c, EMPTY, threshold, es);
    ReachableInv(threshold, es);
    DecodesIff(c, Run(EMPTY, threshold, es), threshold, id, summary);
  }

  lemma FactsSurvive(s: Db, threshold: nat, id: JobId, req: SubmitRequest, es: seq<Event>)
    requires Inv(s, threshold) && id !in s.facts && Submit(s, id, req).Ok?
    ensures var u := Run(Submit(s, id, req).value, threshold, es);
            && Inv(u, threshold) && id in u.facts && ValidSubmit(id, req)
            && u.facts[id].(hiddenAt := None) == NewFacts(req, u.facts[id].goal, s.now)
  {
    var t := Submit(s, id, req).value;
    SubmitInv(s, threshold, id, req);
    SubmitFacts(s, id, req);
    RunLater(t, threshold, es);
    assert FactLater(t, Run(t, threshold, es), id);
  }

  lemma DecodedParts<H>(c: Codec<H>, d: Detail, summary: bool)
    requires Decode(c, d, summary).Ok?
    ensures Ok(Decode(c, d, summary).value.policy) == FromStored(d.policy)
    ensures !summary ==> Ok(Decode(c, d, summary).value.schedule) == DecodeSchedule(c, d)
  {
  }

  lemma CreatedReads<H(!new)>(c: Codec<H>, u: Db, threshold: nat, id: JobId, req: SubmitRequest, p: Policy,
                              history: Option<H>, summary: bool)
    requires Inverse(c) && Inv(u, threshold) && id in u.facts && ToStored(p) == Ok(req.policy) && ValidSubmit(id, req)
    requires u.facts[id].(hiddenAt := None) == NewFacts(req, u.facts[id].goal, u.facts[id].createdAt)
    requires req.schedule.Some? ==> req.schedule.value.history == if history.Some? then Some(c.write(history.value)) else None
    ensures var d := DetailOf(u, id);
            && d.Some? && Decode(c, d.value, summary).Ok? && Decode(c, d.value, summary).value.policy == p
            && (!summary && req.schedule.Some? ==>
                  Decode(c, d.value, summary).value.schedule
                  == Some(ScheduleOccurrence(req.schedule.value.scheduleId, req.schedule.value.generation,
                                             req.schedule.value.scheduledAt, history)))
  {
    DecodesIff(c, u, threshold, id, summary);
    DecodedParts(c, DetailOf(u, id).value, summary);
    PolicyRoundTrip(p);
  }

  /** The policy and the schedule occurrence the adapter accepted for a new job are what
      every later read returns. */
  lemma PolicySurvives<H(!new)>(c: Codec<H>, s: Db, threshold: nat, id: JobId, req: SubmitRequest, p: Policy,
                                history: Option<H>, es: seq<Event>, summary: bool)
    requires Inverse(c) && Inv(s, threshold) && id !in s.facts && ToStored(p) == Ok(req.policy) && Submit(s, id, req).Ok?
    requires req.schedule.Some? ==> req.schedule.value.history == if history.Some? then Some(c.write(history.value)) else None
    ensures var d := DetailOf(Run(Submit(s, id, req).value, threshold, es), id);
            && d.Some? && Decode(c, d.value, summary).Ok?
            && var job := Decode(c, d.value, summary).value;
            && job.policy == p
            && (!summary && req.schedule.Some? ==>
                  job.schedule == Some(ScheduleOccurrence(req.schedule.value.scheduleId, req.schedule.value.generation,
                                                          req.schedule.value.scheduledAt, history)))
  {
    var u := Run(Submit(s, id, req).value, threshold, es);
    FactsSurvive(s, threshold, id, req, es);
    CreatedReads(c, u, threshold, id, req, p, history, summary);
  }

  /** Without the adapter the guarantee fails twice: SubmitJob has no upper bound on
      milliseconds, so a job can be stored that no adapter read decodes, ever; and it takes
      any JSON object for a failure history, so one can be stored that lists but whose
      detail never decodes. */
  lemma NativeRowNeverDecodes<H>(c: Codec<H>, s: Db, threshold: nat, id: JobId, req: SubmitRequest, es: seq<Event>)
    requires Inv(s, threshold) && id !in s.facts && Submit(s, id, req).Ok?
    ensures var d := DetailOf(Run(Submit(s, id, req).value, threshold, es), id);
            && d.Some?
            && (Decode(c, d.value, true).Err? <==> !InRange(req.policy))
            && (Decode(c, d.value, false).Err? <==>
                  || !InRange(req.policy)
                  || (req.schedule.Some? && req.schedule.value.history.Some? && c.read(req.schedule.value.history.value).None?))
  {
    var u := Run(Submit(s, id, req).value, threshold, es);
    FactsSurvive(s, threshold, id, req, es);
    DecodesIff(c, u, threshold, id, true);
    DecodesIff(c, u, threshold, id, false);
  }

  function Native(p: StoredPolicy, schedule: Option<Occurrence>): SubmitRequest {
    SubmitRequest("w", "t", p, "{}", None, schedule, [], None, None, None, None, "g", false, None, [])
  }

  const NUMERIC_BITS := Object(map["bits" := "7"])

  /** Both kinds of submission exist and are accepted: milliseconds above the range, which
      neither mapping reads; and, for a history type whose bits are text, a history with
      numeric bits, which lists and has no detail. */
  lemma NativeRowExists<H>(c: Codec<H>)
    requires c.read(NUMERIC_BITS).None?
    ensures var r := Submit(EMPTY, "a", Native(StoredPolicy(MAX_MILLIS + 1, 1.0, 0, 0, [], None, None), None));
            && r.Ok? && DetailOf(r.value, "a").Some?
            && Decode(c, DetailOf(r.value, "a").value, true).Err? && Decode(c, DetailOf(r.value, "a").value, false).Err?
    ensures var r := Submit(EMPTY, "a", Native(StoredPolicy(0, 1.0, 0, 0, [], None, None), Some(Occurrence("daily", 1, 1, Some(NUMERIC_BITS)))));
            && r.Ok? && DetailOf(r.value, "a").Some?
            && Decode(c, DetailOf(r.value, "a").value, true).Ok? && Decode(c, DetailOf(r.value, "a").value, false).Err?
  {
    var first := Native(StoredPolicy(MAX_MILLIS + 1, 1.0, 0, 0, [], None, None), None);
    var second := Native(StoredPolicy(0, 1.0, 0, 0, [], None, None), Some(Occurrence("daily", 1, 1, Some(NUMERIC_BITS))));
    EmptyInv(0);
    assert ValidSubmit("a", first) && ValidSubmit("a", second);
    NativeReads(c, first);
    NativeReads(c, second);
  }

  lemma NativeReads<H>(c: Codec<H>, req: SubmitRequest)
    requires Submit(EMPTY, "a", req).Ok?
    ensures var d := DetailOf(Submit(EMPTY, "a", req).value, "a");
            && d.Some? && (Decode(c, d.value, true).Err? <==> !InRange(req.policy))
            && (Decode(c, d.value, false).Err? <==>
                  || !InRange(req.policy)
                  || (req.schedule.Some? && req.schedule.value.history.Some? && c.read(req.schedule.value.history.value).None?))
  {
    EmptyInv(0);
    NativeRowNeverDecodes(c, EMPTY, 0, "a", req, []);
    assert Run(Submit(EMPTY, "a", req).value, 0, []) == Submit(EMPTY, "a", req).value;
  }

  /** Route, coordinates and alternate route written by a reschedule come back from the next
      read. The delay comes back as the two float conversions leave it. */
  lemma RescheduleReadsBack<H>(c: Codec<H>, s: Db, threshold: nat, id: JobId, lease: Option<LeaseId>, worker: string,
                               req: RescheduleRequest, requested: int)
    requires Inv(s, threshold) && Reschedule(s, threshold, id, lease, worker, req).Ok?
    requires id in s.facts && InRange(s.facts[id].policy) && HistoryReads(c, s.facts[id])
    requires HasAlternate(req) ==> req.alternate.value.after == c.seconds(requested)
    ensures var d := DetailOf(Reschedule(s, threshold, id, lease, worker, req).value, id);
            && d.Some? && Decode(c, d.value, false).Ok?
            && var job := Decode(c, d.value, false).value;
            && job.routeJobType == req.jobType && job.kind == req.kind && job.task == req.task
            && job.alternate == (if HasAlternate(req)
                                 then Some(AlternateRoute(req.alternate.value.jobType, req.alternate.value.taskType,
                                                          c.delay(c.seconds(requested))))
                                 else None)
  {
    var t := Reschedule(s, threshold, id, lease, worker, req).value;
    RescheduleInv(s, threshold, id, lease, worker, req);
    RescheduleFacts(s, threshold, id, lease, worker, req);
    RescheduledRoute(s, threshold, id, lease, worker, req);
    RouteReads(c, t, threshold, id, req, s.now);
  }

  lemma RouteReads<H>(c: Codec<H>, t: Db, threshold: nat, id: JobId, req: RescheduleRequest, now: Time)
    requires Inv(t, threshold) && id in t.facts && InRange(t.facts[id].policy) && HistoryReads(c, t.facts[id])
    requires ValidReschedule(id, req) && id in t.jobs
    requires t.jobs[id].route == RequestedRoute(req) && t.jobs[id].alternate == RequestedAlternate(req, now)
    ensures var d := DetailOf(t, id);
            && d.Some? && Decode(c, d.value, false).Ok?
            && var job := Decode(c, d.value, false).value;
            && job.routeJobType == req.jobType && job.kind == req.kind && job.task == req.task
            && job.alternate == (if HasAlternate(req)
                                 then Some(AlternateRoute(req.alternate.value.jobType, req.alternate.value.taskType,
                                                          c.delay(req.alternate.value.after)))
                                 else None)
  {
    DecodesIff(c, t, threshold, id, false);
  }

  lemma RescheduledRoute(s: Db, threshold: nat, id: JobId, lease: Option<LeaseId>, worker: string, req: RescheduleRequest)
    requires Reschedule(s, threshold, id, lease, worker, req).Ok?
    ensures var t := Reschedule(s, threshold, id, lease, worker, req).value;
            && ValidReschedule(id, req) && id in t.jobs
            && t.jobs[id].route == RequestedRoute(req) && t.jobs[id].alternate == RequestedAlternate(req, s.now)
  {
    var u := s.(clients := s.clients[id := UpdateClient(s.clients[id], req.update).value]);
    if req.wait.Some? {
      RegisterRows(CancelWaits(u, id, Some(req.wait.value.id)), id, req.wait.value, false);
    }
  }

  /** Leasing a due task alternate moves the row to its type and keeps the coordinates it
      was accepted with, so the promoted row decodes to the same slot. */
  lemma PromotionKeepsCoordinates(j: Job, now: Time, req: WorkRequest, issued: set<LeaseId>)
    requires RowOk(j, issued) && AlternateDue(j, now) && j.alternate.taskType.Some?
    ensures DecodeTask(j.route).Ok? && DecodeTask(j.route).value.Some?
    ensures DecodeTask(Leased(j, now, req).route)
            == Ok(Some(DecodeTask(j.route).value.value.(taskType := j.alternate.taskType.value)))
  {
  }

  /** leaseFromPgjobdb: a validated lease carries task coordinates exactly on task work. */
  lemma LeaseCarriesTask(s: Db, threshold: nat, id: JobId, lease: LeaseId, worker: string)
    requires Inv(s, threshold) && Validates(s, id, lease, worker)
    ensures var v := SnapshotOf(s, id);
            && (v.leaseKind == TaskKind <==> v.leaseTaskType.Some?)
            && (v.leaseKind == TaskKind ==> v.resumeJobType.Some? && v.inputOrdinal.Some? && v.outputOrdinal.Some? && v.inputHash.Some?)
  {
    assert JobOk(s, threshold, id);
  }

  // ---- Completion ----------------------------------------------------------------------------------

  /** A row reads as completed exactly when its job is archived, and then with its status. */
  lemma CompletionDecodes<H>(c: Codec<H>, s: Db, threshold: nat, id: JobId, summary: bool)
    requires Inv(s, threshold) && id in s.facts && DetailOf(s, id).Some? && Decode(c, DetailOf(s, id).value, summary).Ok?
    ensures Decode(c, DetailOf(s, id).value, summary).value.completion
            == if id in s.archive then Some(s.archive[id].status) else None
  {
    assert IdentityOk(s, id);
    if id in s.jobs { assert JobOk(s, threshold, id); }
  }

  lemma CompletedRow(s: Db, threshold: nat, id: JobId, lease: Option<LeaseId>, worker: string, status: CompletionStatus,
                     detail: string, update: Option<PayloadUpdate>)
    requires Complete(s, threshold, id, lease, worker, status, detail, update).Ok?
    ensures var t := Complete(s, threshold, id, lease, worker, status, detail, update).value;
            && id in s.jobs && id in t.archive && t.facts == s.facts
            && t.archive[id] == Archived(s.jobs[id].goal, status, detail, s.jobs[id].route, s.jobs[id].alternate)
  {
  }

  /** After a completion every read, whatever happens later, is the read from before with the
      status filled in: route, slot, alternate, policy and schedule are those it ended with. */
  lemma CompletionReadsBack<H>(c: Codec<H>, s: Db, threshold: nat, id: JobId, lease: Option<LeaseId>, worker: string,
                               status: CompletionStatus, detail: string, update: Option<PayloadUpdate>,
                               es: seq<Event>, summary: bool)
    requires Inv(s, threshold) && Complete(s, threshold, id, lease, worker, status, detail, update).Ok?
    requires DetailOf(s, id).Some? && Decode(c, DetailOf(s, id).value, summary).Ok?
    ensures var before, d := Decode(c, DetailOf(s, id).value, summary).value,
                             DetailOf(Run(Complete(s, threshold, id, lease, worker, status, detail, update).value, threshold, es), id);
            && before.completion.None? && d.Some?
            && Decode(c, d.value, summary) == Ok(before.(completion := Some(status)))
  {
    var t := Complete(s, threshold, id, lease, worker, status, detail, update).value;
    CompleteInv(s, threshold, id, lease, worker, status, detail, update);
    CompletedRow(s, threshold, id, lease, worker, status, detail, update);
    assert JobOk(s, threshold, id);
    RunLater(t, threshold, es);
    RunInv(t, threshold, es);
    EndedReads(c, s, t, Run(t, threshold, es), threshold, id, status, summary);
  }

  lemma EndedReads<H>(c: Codec<H>, s: Db, t: Db, u: Db, threshold: nat, id: JobId, status: CompletionStatus, summary: bool)
    requires Inv(u, threshold) && id in s.jobs && id in s.facts && id in s.clients && t.facts == s.facts && Later(t, u)
    requires id in t.archive && t.archive[id].status == status
    requires t.archive[id].route == s.jobs[id].route && t.archive[id].alternate == s.jobs[id].alternate
    ensures DetailOf(u, id) == Some(DetailOf(s, id).value.(completion := Some(status)))
    ensures Decode(c, DetailOf(s, id).value, summary).Ok? ==>
              Decode(c, DetailOf(u, id).value, summary)
              == Ok(Decode(c, DetailOf(s, id).value, summary).value.(completion := Some(status)))
  {
    assert ArchiveLater(t, u, id) && FactLater(t, u, id) && IdentityOk(u, id);
    forall j | j in u.jobs ensures j !in u.archive { assert JobOk(u, threshold, j); }
  }
}
