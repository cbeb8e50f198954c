/** What a caller asked of a job when submitting or rescheduling it, and what workers see of
    the job for as long as nobody reschedules it again. */
module Terms {
  import opened Basics
  import opened RunPolicies
  import opened Tables
  import opened Waits
  import opened Steps
  import opened Invariants
  import opened Preservation
  import opened GoalPreservation
  import opened Runs
  import opened Rows
  import opened Transitions
  import opened Tasks
  import Submissions
  import Crashes

  /** The request, whichever call made it; `since` is the time of that call. */
  datatype Terms = Terms(since: Time, waitFor: seq<JobId>, availableAt: Option<Time>, deadline: bool,
                         wait: Option<WaitId>, jobType: string, task: Option<TaskWork>,
                         alternate: Option<AlternateRequest>)

  function OfReschedule(req: RescheduleRequest, now: Time): Terms {
    Terms(now, req.waitFor, req.availableAt, req.waitUntilIsDeadline,
          if req.wait.Some? then Some(req.wait.value.id) else None,
          req.jobType, req.task, if HasAlternate(req) then req.alternate else None)
  }

  function OfSubmission(req: SubmitRequest, now: Time): Terms {
    Terms(now, req.waitFor, req.availableAt, false,
          if req.dependencies == [] then None else Some(SUBMISSION), req.jobType, None, None)
  }

  // ---- When the job is offered -------------------------------------------------------------------

  /** A job listed in wait_for has not ended. */
  predicate SomeUnfinished(t: Db, ids: seq<JobId>) {
    exists d :: d in ids && d !in t.archive
  }

  predicate NotYet(at: Option<Time>, now: Time) {
    at.Some? && now < at.value
  }

  predicate WaitOpen(t: Db, k: WaitKey) {
    k in t.waits && t.waits[k].state == Pending && !Expired(t.waits[k].deadline, t.now)
  }

  /** A time alone holds until it comes, a prerequisite until it ends, and a deadline gives up
      on prerequisites when it comes. */
  predicate HeldBack(t: Db, id: JobId, terms: Terms) {
    || (terms.wait.Some? && WaitOpen(t, WaitKey(id, terms.wait.value)))
    || (if terms.deadline then SomeUnfinished(t, terms.waitFor) && NotYet(terms.availableAt, t.now)
        else SomeUnfinished(t, terms.waitFor) || NotYet(terms.availableAt, t.now))
  }

  /** Nobody holds the job, nothing holds it back, it is not suspect and has not expired. */
  predicate Free(t: Db, threshold: nat, id: JobId, terms: Terms)
    requires id in t.jobs
  {
    && !Held(t.jobs[id], t.now) && !HeldBack(t, id, terms)
    && t.jobs[id].streak < threshold && !PastExpiryAt(t.jobs[id], t.now)
  }

  // ---- What the job is offered as ---------------------------------------------------------------

  datatype Offer = Offer(jobType: string, task: Option<TaskWork>)

  /** The delay, in seconds to the nearest microsecond, has passed. */
  predicate AlternateOpen(terms: Terms, now: Time) {
    terms.alternate.Some? && terms.alternate.value.after * 1000000.0 < (now - terms.since) as real + 0.5
  }

  /** The requested work, or from its delay on the alternate, whose task is the same slot under
      another type. */
  function Offered(terms: Terms, now: Time): Offer {
    if !AlternateOpen(terms, now) then Offer(terms.jobType, terms.task)
    else
      var a := terms.alternate.value;
      Offer(a.jobType, if a.taskType == "" || terms.task.None? then None
                       else Some(terms.task.value.(taskType := a.taskType)))
  }

  predicate AsksFor(r: WorkRequest, offer: Offer) {
    if offer.task.None? then offer.jobType in r.jobTypes else (offer.jobType, offer.task.value.taskType) in r.tasks
  }

  /** A holder of the offered work sees its type and, on a task, the slot's coordinates. */
  predicate Shows(v: Snapshot, offer: Offer) {
    && v.leaseJobType == offer.jobType
    && match offer.task
       case None => v.leaseKind == JobKind && v.leaseTaskType.None? && v.resumeJobType.None?
                    && v.inputOrdinal.None? && v.outputOrdinal.None? && v.inputHash.None?
       case Some(k) => v.leaseKind == TaskKind && v.leaseTaskType == Some(k.taskType)
                       && v.resumeJobType == Some(k.resumeJobType) && v.inputOrdinal == Some(k.inputOrdinal)
                       && v.outputOrdinal == Some(k.outputOrdinal) && v.inputHash == Some(k.inputHash)
  }

  // ---- The row under its terms ---------------------------------------------------------------------

  ghost predicate WaitStands(t: Db, id: JobId, terms: Terms) {
    && id in t.jobs && terms.since <= t.now && t.jobs[id].dependencyWait == terms.wait
    && (forall d :: d in t.jobs[id].waitFor ==> d in terms.waitFor)
    && (forall d :: d in terms.waitFor ==> d in t.jobs[id].waitFor || d in t.archive)
    && PointerOk(t, id) && TimeStands(t.jobs[id], t.now, terms)
  }

  ghost predicate TimeStands(j: Job, now: Time, terms: Terms) {
    if !terms.deadline then
      !j.waitUntilIsDeadline && j.availableAt == if terms.availableAt.Some? then terms.availableAt.value else terms.since
    else if j.waitUntilIsDeadline then terms.availableAt == Some(j.availableAt)
    else j.waitFor == [] && j.availableAt <= now
  }

  ghost predicate RouteStands(j: Job, terms: Terms) {
    && j.route == (if terms.task.None? then JobColumns(terms.jobType) else TaskColumns(terms.jobType, terms.task.value))
    && match terms.alternate
       case None => j.alternate == NO_ALTERNATE
       case Some(a) =>
         && j.alternate.jobType == Some(a.jobType) && (a.taskType != "" ==> terms.task.Some?)
         && j.alternate.taskType == (if a.taskType == "" then None else Some(a.taskType))
         && j.alternate.at == Some(terms.since + Microseconds(a.after))
  }

  /** Promoted to the alternate by an acquisition, which its delay allowed. */
  ghost predicate Promoted(j: Job, now: Time, terms: Terms) {
    && AlternateOpen(terms, now) && j.alternate == NO_ALTERNATE && (terms.alternate.value.taskType != "" ==> terms.task.Some?)
    && var o := Offered(terms, now);
       j.route == if o.task.None? then JobColumns(o.jobType) else TaskColumns(o.jobType, o.task.value)
  }

  /** Claimed from outside: job work on the slot's resume route. */
  ghost predicate Spent(j: Job, terms: Terms) {
    terms.task.Some? && j.alternate == NO_ALTERNATE && j.route == JobColumns(terms.task.value.resumeJobType)
  }

  /** As long as the job was never leased it still has the route it was given. */
  ghost predicate Stands(t: Db, id: JobId, terms: Terms) {
    && WaitStands(t, id, terms)
    && OnRoute(t.jobs[id], t.now, terms) && (t.jobs[id].lease.None? ==> RouteStands(t.jobs[id], terms))
  }

  lemma KeptStands(s: Db, t: Db, id: JobId, terms: Terms)
    requires Later(s, t) && Kept(s, t, id) && PointerOk(t, id) && Stands(s, id, terms)
    ensures Stands(t, id, terms)
  {
    assert t.jobs[id].waitFor != [] ==> t.jobs[id].waitFor[0] in t.jobs[id].waitFor;
    LaterOnRoute(t.jobs[id], s.now, t.now, terms);
    forall d | d in terms.waitFor ensures d in t.jobs[id].waitFor || d in t.archive {
      if d in s.archive { assert ArchiveLater(s, t, d); }
    }
  }

  lemma AlikeStands(s: Db, t: Db, id: JobId, terms: Terms)
    requires Later(s, t) && WaitsAlike(s, t, id) && PointerOk(t, id) && WaitStands(s, id, terms)
    ensures WaitStands(t, id, terms)
  {
    forall d | d in terms.waitFor ensures d in t.jobs[id].waitFor || d in t.archive {
      if d in s.archive { assert ArchiveLater(s, t, d); }
    }
  }

  ghost predicate OnRoute(j: Job, now: Time, terms: Terms) {
    RouteStands(j, terms) || Promoted(j, now, terms) || Spent(j, terms)
  }

  lemma OfferStands(j: Job, now: Time, terms: Terms)
    requires RouteStands(j, terms)
    ensures var e, o := Effective(j, now), Offered(terms, now);
            && e.jobType == o.jobType && (e.kind == TaskKind <==> o.task.Some?)
            && e.taskType == (if o.task.Some? then Some(o.task.value.taskType) else None)
            && (e.alternateDue <==> AlternateOpen(terms, now))
  {
  }

  /** Leasing moves the row to the effective route. */
  lemma LeasedStands(j: Job, now: Time, r: WorkRequest, issued: set<LeaseId>, terms: Terms)
    requires RowOk(j, issued) && OnRoute(j, now, terms)
    ensures OnRoute(Leased(j, now, r), now, terms)
  {
    if RouteStands(j, terms) { OfferStands(j, now, terms); }
  }

  /** Claiming moves it to the slot's resume route. */
  lemma ClaimedStands(j: Job, now: Time, c: ClaimRequest, terms: Terms)
    requires OnRoute(j, now, terms) && j.route == TaskColumns(c.jobType, c.task)
    ensures Spent(Claimed(j, now, c), terms)
  {
  }

  lemma LaterOnRoute(j: Job, now: Time, later: Time, terms: Terms)
    requires now <= later && OnRoute(j, now, terms)
    ensures OnRoute(j, later, terms)
  {
    if Promoted(j, now, terms) {
      assert (now - terms.since) as real <= (later - terms.since) as real;
      assert Offered(terms, now) == Offered(terms, later);
    }
  }

  lemma RewrittenStands(s: Db, t: Db, threshold: nat, e: Event, id: JobId, terms: Terms)
    requires Transition(s, t, threshold, e) && !Reschedules(e, id)
    requires id in s.jobs && Stands(s, id, terms) && Rewritten(s, t, threshold, e, id)
    ensures OnRoute(t.jobs[id], s.now, terms) && WaitsAlike(s, t, id)
    ensures t.jobs[id].lease.None? ==> RouteStands(t.jobs[id], terms)
  {
    assert JobOk(s, threshold, id);
    match e {
      case AcquireWork(_, r) => LeasedStands(s.jobs[id], s.now, r, s.issued, terms);
      case ClaimWaitingTask(_, c) => ClaimedStands(s.jobs[id], s.now, c, terms);
      case _ =>
    }
  }

  lemma StandsStep(s: Db, t: Db, threshold: nat, e: Event, id: JobId, terms: Terms)
    requires Transition(s, t, threshold, e) && !Reschedules(e, id)
    requires id in t.jobs && Stands(s, id, terms)
    ensures Stands(t, id, terms)
  {
    assert RowStep(s, t, threshold, e, id);
    PointerStep(s, t, threshold, e, id);
    if Kept(s, t, id) {
      KeptStands(s, t, id, terms);
    } else {
      RewrittenStands(s, t, threshold, e, id, terms);
      AlikeStands(s, t, id, terms);
      LaterOnRoute(t.jobs[id], s.now, t.now, terms);
    }
  }

  lemma {:induction false} RunStands(s: Db, threshold: nat, es: seq<Event>, id: JobId, terms: Terms)
    requires Inv(s, threshold) && Stands(s, id, terms)
    requires forall e :: e in es ==> !Reschedules(e, id)
    ensures var t := Run(s, threshold, es);
            && Inv(t, threshold) && id in t.facts && (id in t.jobs ==> Stands(t, id, terms)) && (id !in t.jobs ==> id in t.archive)
            && (id in t.jobs ==> id in s.clients && id in t.clients && t.clients[id] == s.clients[id])
    decreases |es|
  {
    assert JobOk(s, threshold, id) && IdentityOk(s, id);
    if es != [] {
      var t := Apply(s, threshold, es[0]);
      StepTransition(s, threshold, es[0]);
      assert es[0] in es && FactLater(s, t, id) && IdentityOk(t, id) && RowStep(s, t, threshold, es[0], id);
      if id in t.jobs {
        StandsStep(s, t, threshold, es[0], id, terms);
        RunStands(t, threshold, es[1..], id, terms);
      } else {
        ArchivedStays(t, threshold, es[1..], id);
        RunInv(t, threshold, es[1..]);
        RunLater(t, threshold, es[1..]);
        assert FactLater(t, Run(t, threshold, es[1..]), id);
      }
    }
  }

  // ---- What the terms mean for workers --------------------------------------------------------------

  lemma ReadyIffFree(t: Db, threshold: nat, id: JobId, terms: Terms)
    requires Inv(t, threshold) && WaitStands(t, id, terms)
    ensures StatusAt(t, threshold, id, t.now) == Ready <==> Free(t, threshold, id, terms)
    ensures Unheld(StatusAt(t, threshold, id, t.now)) <==> !Held(t.jobs[id], t.now) && !HeldBack(t, id, terms)
    ensures StatusAt(t, threshold, id, t.now) == AwaitingFuture ==> !terms.deadline && NotYet(terms.availableAt, t.now)
  {
    assert JobOk(t, threshold, id);
    var j := t.jobs[id];
    assert WaitBlocks(t, id, j, t.now) <==> terms.wait.Some? && WaitOpen(t, WaitKey(id, terms.wait.value));
    assert (exists d :: d in j.waitFor && d !in t.archive) <==> SomeUnfinished(t, terms.waitFor);
  }

  /** Every poll, targeted acquisition and external claim treats the job as its terms say, and so
      does a completion without a lease, which suspicion and expiry do not stop. */
  ghost predicate Honoured(t: Db, threshold: nat, id: JobId, terms: Terms)
    requires id in t.jobs && id in t.facts
  {
    && (StatusAt(t, threshold, id, t.now) == Ready <==> Free(t, threshold, id, terms))
    && (forall r :: Eligible(ExpireWaits(t), threshold, r, id) ==> Free(t, threshold, id, terms))
    && (forall c :: ClaimTask(t, threshold, c, id).Ok? ==> Free(t, threshold, id, terms))
    && (forall worker, status, detail :: Complete(t, threshold, id, None, worker, status, detail, None).Ok? <==>
          worker != "" && !Held(t.jobs[id], t.now) && !HeldBack(t, id, terms))
    && (t.jobs[id].lease.None? ==>
          && (forall r :: Eligible(ExpireWaits(t), threshold, r, id) <==>
                && Free(t, threshold, id, terms) && AsksFor(r, Offered(terms, t.now))
                && Accepts(r.accepts, t.facts[id].metadata))
          && (forall c :: ClaimTask(t, threshold, c, id).Ok? <==>
                && Free(t, threshold, id, terms) && ValidClaim(c)
                && c.jobType == terms.jobType && Some(c.task) == terms.task))
  }

  lemma StandsHonoured(t: Db, threshold: nat, id: JobId, terms: Terms)
    requires Inv(t, threshold) && Stands(t, id, terms)
    ensures id in t.facts && Honoured(t, threshold, id, terms)
  {
    assert JobOk(t, threshold, id) && IdentityOk(t, id);
    ReadyIffFree(t, threshold, id, terms);
    ExpiryIsInvisible(t, threshold, id);
    if t.jobs[id].lease.None? { OfferStands(t.jobs[id], t.now, terms); }
    forall c ensures ClaimTask(t, threshold, c, id).Ok? ==> Free(t, threshold, id, terms)
      ensures t.jobs[id].lease.None? ==>
        (ClaimTask(t, threshold, c, id).Ok? <==>
          && Free(t, threshold, id, terms) && ValidClaim(c)
          && c.jobType == terms.jobType && Some(c.task) == terms.task)
    {
      ClaimIff(t, threshold, c, id);
    }
  }

  lemma NoGrant(s: Db, t: Db, threshold: nat, e: Event, id: JobId)
    requires Transition(s, t, threshold, e) && id in s.facts
    requires id in s.jobs ==> StatusAt(s, threshold, id, s.now) != Ready
    ensures !Crashes.Grants(s, t, id)
  {
    assert RowStep(s, t, threshold, e, id);
    if id in s.jobs {
      assert JobOk(s, threshold, id);
      ExpiryIsInvisible(s, threshold, id);
    }
  }

  /** No call at all leases a job that is not ready. */
  lemma NotReadyGetsNoLease(s: Db, threshold: nat, id: JobId, e: Event)
    requires Inv(s, threshold) && id in s.facts
    requires id in s.jobs ==> StatusAt(s, threshold, id, s.now) != Ready
    ensures !Crashes.Grants(s, Apply(s, threshold, e), id)
  {
    StepTransition(s, threshold, e);
    NoGrant(s, Apply(s, threshold, e), threshold, e, id);
  }

  // ---- From a reschedule on ---------------------------------------------------------------------------

  lemma RescheduledStands(s: Db, threshold: nat, id: JobId, lease: Option<LeaseId>, worker: string, req: RescheduleRequest)
    requires Inv(s, threshold) && Reschedule(s, threshold, id, lease, worker, req).Ok?
    ensures var t := Reschedule(s, threshold, id, lease, worker, req).value;
            && Inv(t, threshold) && Stands(t, id, OfReschedule(req, s.now))
            && t.facts == s.facts && t.jobs[id].lease.None? && t.jobs[id].streak == 0
  {
    var t := Reschedule(s, threshold, id, lease, worker, req).value;
    RescheduleInv(s, threshold, id, lease, worker, req);
    RescheduleFacts(s, threshold, id, lease, worker, req);
    RescheduleOthers(s, threshold, id, lease, worker, req);
    RescheduleRows(s, threshold, id, lease, worker, req, id);
    RescheduledRow(s, threshold, id, lease, worker, req);
  }

  lemma RescheduledRow(s: Db, threshold: nat, id: JobId, lease: Option<LeaseId>, worker: string, req: RescheduleRequest)
    requires Reschedule(s, threshold, id, lease, worker, req).Ok?
    ensures var t := Reschedule(s, threshold, id, lease, worker, req).value;
            && id in t.jobs && RouteStands(t.jobs[id], OfReschedule(req, s.now)) && t.jobs[id].lease.None?
            && t.now == s.now && t.jobs[id].dependencyWait == OfReschedule(req, s.now).wait
            && (forall d :: d in t.jobs[id].waitFor ==> d in req.waitFor)
            && (forall d :: d in req.waitFor ==> d in t.jobs[id].waitFor || d in s.archive)
            && TimeStands(t.jobs[id], s.now, OfReschedule(req, s.now))
  {
    var u := s.(clients := s.clients[id := UpdateClient(s.clients[id], req.update).value]);
    var keep := if req.wait.Some? then Some(req.wait.value.id) else None;
    if req.wait.Some? {
      RegisterRows(CancelWaits(u, id, keep), id, req.wait.value, false);
      RegisterSaves(CancelWaits(u, id, keep), id, req.wait.value, false);
    }
  }

  /** From an accepted reschedule until the next one, whatever else happens: the job is offered
      exactly when its terms do not hold it back, nobody holds it, and it is neither suspect nor
      expired. A time given alone holds it until then; a time given as a deadline holds it no
      longer than the prerequisites do. */
  lemma RescheduleHonoured(s: Db, threshold: nat, id: JobId, lease: Option<LeaseId>, worker: string,
                           req: RescheduleRequest, es: seq<Event>)
    requires Inv(s, threshold) && Reschedule(s, threshold, id, lease, worker, req).Ok?
    requires forall e :: e in es ==> !Reschedules(e, id)
    ensures var t := Run(Reschedule(s, threshold, id, lease, worker, req).value, threshold, es);
            && id in t.facts && (id !in t.jobs ==> id in t.archive)
            && (id in t.jobs ==> Honoured(t, threshold, id, OfReschedule(req, s.now)))
  {
    var t := Reschedule(s, threshold, id, lease, worker, req).value;
    RescheduledStands(s, threshold, id, lease, worker, req);
    RunStands(t, threshold, es, id, OfReschedule(req, s.now));
    if id in Run(t, threshold, es).jobs {
      StandsHonoured(Run(t, threshold, es), threshold, id, OfReschedule(req, s.now));
    }
  }

  /** Nobody gets a lease on it before the time it was put off to, and then, if it waits for
      nothing else and was not leased before, it is ready. */
  lemma PutOffUntil(s: Db, threshold: nat, id: JobId, lease: Option<LeaseId>, worker: string,
                    req: RescheduleRequest, at: Time, es: seq<Event>, e: Event)
    requires Inv(s, threshold) && Reschedule(s, threshold, id, lease, worker, req).Ok?
    requires req.availableAt == Some(at) && !req.waitUntilIsDeadline
    requires forall x :: x in es ==> !Reschedules(x, id)
    ensures var t := Run(Reschedule(s, threshold, id, lease, worker, req).value, threshold, es);
            && (t.now < at ==> !Crashes.Grants(t, Apply(t, threshold, e), id))
            && (id in t.jobs && t.jobs[id].lease.None? && (forall d :: d in req.waitFor ==> d in t.archive) && threshold > 0
                && !PastExpiryAt(t.jobs[id], t.now) ==>
                  StatusAt(t, threshold, id, t.now) == if t.now < at then AwaitingFuture else Ready)
  {
    var u := Reschedule(s, threshold, id, lease, worker, req).value;
    var t, terms := Run(u, threshold, es), OfReschedule(req, s.now);
    RescheduledStands(s, threshold, id, lease, worker, req);
    RunStands(u, threshold, es, id, terms);
    if id in t.jobs { PutOffNow(t, threshold, id, terms); }
    if id !in t.jobs || t.now < at { NotReadyGetsNoLease(t, threshold, id, e); }
  }

  lemma PutOffNow(t: Db, threshold: nat, id: JobId, terms: Terms)
    requires Inv(t, threshold) && Stands(t, id, terms) && !terms.deadline && terms.wait.None? && terms.availableAt.Some?
    ensures t.now < terms.availableAt.value ==> StatusAt(t, threshold, id, t.now) != Ready
    ensures t.jobs[id].lease.None? && !SomeUnfinished(t, terms.waitFor) && threshold > 0 && !PastExpiryAt(t.jobs[id], t.now) ==>
              StatusAt(t, threshold, id, t.now) == if t.now < terms.availableAt.value then AwaitingFuture else Ready
  {
    assert JobOk(t, threshold, id);
    ReadyIffFree(t, threshold, id, terms);
  }

  /** With the time as a deadline it is released at that time or with the end of its last
      prerequisite, whichever comes first, and not before. */
  lemma ReleasedByDeadline(s: Db, threshold: nat, id: JobId, lease: Option<LeaseId>, worker: string,
                           req: RescheduleRequest, es: seq<Event>, e: Event)
    requires Inv(s, threshold) && Reschedule(s, threshold, id, lease, worker, req).Ok? && req.waitUntilIsDeadline
    requires forall x :: x in es ==> !Reschedules(x, id)
    ensures req.availableAt.Some? && req.waitFor != []
    ensures var t := Run(Reschedule(s, threshold, id, lease, worker, req).value, threshold, es);
            var waiting := t.now < req.availableAt.value && exists d :: d in req.waitFor && d !in t.archive;
            && (waiting ==> !Crashes.Grants(t, Apply(t, threshold, e), id))
            && (id in t.jobs && t.jobs[id].lease.None? && threshold > 0 && !PastExpiryAt(t.jobs[id], t.now) ==>
                  StatusAt(t, threshold, id, t.now) == if waiting then PendingJobs else Ready)
  {
    var u := Reschedule(s, threshold, id, lease, worker, req).value;
    var t, terms := Run(u, threshold, es), OfReschedule(req, s.now);
    RescheduledStands(s, threshold, id, lease, worker, req);
    RunStands(u, threshold, es, id, terms);
    if id in t.jobs { DeadlineNow(t, threshold, id, terms); }
    if id !in t.jobs || HeldBack(t, id, terms) { NotReadyGetsNoLease(t, threshold, id, e); }
  }

  lemma DeadlineNow(t: Db, threshold: nat, id: JobId, terms: Terms)
    requires Inv(t, threshold) && Stands(t, id, terms) && terms.deadline && terms.wait.None?
    ensures HeldBack(t, id, terms) ==> StatusAt(t, threshold, id, t.now) != Ready
    ensures t.jobs[id].lease.None? && threshold > 0 && !PastExpiryAt(t.jobs[id], t.now) ==>
              StatusAt(t, threshold, id, t.now) == if HeldBack(t, id, terms) then PendingJobs else Ready
  {
    assert JobOk(t, threshold, id);
    ReadyIffFree(t, threshold, id, terms);
  }

  // ---- What leases show ----------------------------------------------------------------------------------

  /** A poll that finds the never leased job eligible leases it, for the seconds it asked, as the
      work offered at that time: the alternate from its delay on, the requested work before. */
  lemma FirstLeaseShows(t: Db, threshold: nat, id: JobId, terms: Terms, r: WorkRequest)
    requires Inv(t, threshold) && Stands(t, id, terms) && t.jobs[id].lease.None?
    requires ValidWorkRequest(r) && Eligible(ExpireWaits(t), threshold, r, id)
    ensures GetWork(t, threshold, r, id).Ok?
    ensures var u := GetWork(t, threshold, r, id).value;
            && Validates(u, id, r.leaseId, r.worker) && u.facts == t.facts && u.clients == t.clients
            && u.jobs[id].lease.value.expiresAt == t.now + r.seconds * 1_000_000
            && Shows(SnapshotOf(u, id), Offered(terms, t.now))
  {
    OfferStands(t.jobs[id], t.now, terms);
    AcquireRows(t, threshold, r, id, id);
    assert JobOk(t, threshold, id);
    var u := GetWork(t, threshold, r, id).value;
    assert u.now == t.now && u.facts == t.facts && u.clients == t.clients;
    LeasedShows(t.jobs[id], t.now, r, terms);
  }

  lemma LeasedShows(j: Job, now: Time, r: WorkRequest, terms: Terms)
    requires RouteStands(j, terms)
    ensures var k, o := Leased(j, now, r), Offered(terms, now);
            && k.lease.value.jobType == o.jobType && (k.lease.value.kind == TaskKind <==> o.task.Some?)
            && k.lease.value.taskType == k.route.taskType
            && k.route == (if o.task.None? then JobColumns(o.jobType) else TaskColumns(o.jobType, o.task.value))
  {
    OfferStands(j, now, terms);
  }

  /** Whoever holds the job meanwhile sees the requested work, the alternate once its delay has
      passed, or, after an outside claim, the slot's resume route. */
  lemma LeaseShows(s: Db, threshold: nat, id: JobId, lease: Option<LeaseId>, worker: string, req: RescheduleRequest,
                   es: seq<Event>, held: LeaseId, holder: string)
    requires Inv(s, threshold) && Reschedule(s, threshold, id, lease, worker, req).Ok?
    requires forall e :: e in es ==> !Reschedules(e, id)
    requires Validates(Run(Reschedule(s, threshold, id, lease, worker, req).value, threshold, es), id, held, holder)
    ensures var t := Run(Reschedule(s, threshold, id, lease, worker, req).value, threshold, es);
            var v := SnapshotOf(t, id);
            || Shows(v, Offer(req.jobType, req.task))
            || (AlternateOpen(OfReschedule(req, s.now), t.now) && Shows(v, Offered(OfReschedule(req, s.now), t.now)))
            || (req.task.Some? && Shows(v, Offer(req.task.value.resumeJobType, None)))
  {
    var u := Reschedule(s, threshold, id, lease, worker, req).value;
    var t := Run(u, threshold, es);
    RescheduledStands(s, threshold, id, lease, worker, req);
    RunStands(u, threshold, es, id, OfReschedule(req, s.now));
    assert JobOk(t, threshold, id);
  }

  /** The next lease after a reschedule hands over exactly what the reschedule asked for: the
      work its time allows, with the slot's coordinates, and the updated payload, next to the
      job's own goal, type and policy. */
  lemma NextLease(s: Db, threshold: nat, id: JobId, lease: Option<LeaseId>, worker: string, req: RescheduleRequest,
                  es: seq<Event>, r: WorkRequest)
    requires Inv(s, threshold) && Reschedule(s, threshold, id, lease, worker, req).Ok?
    requires forall e :: e in es ==> !Reschedules(e, id)
    requires var t := Run(Reschedule(s, threshold, id, lease, worker, req).value, threshold, es);
             id in t.jobs && t.jobs[id].lease.None? && ValidWorkRequest(r) && Eligible(ExpireWaits(t), threshold, r, id)
    ensures var t := Run(Reschedule(s, threshold, id, lease, worker, req).value, threshold, es);
            && GetWork(t, threshold, r, id).Ok?
            && var u := GetWork(t, threshold, r, id).value;
            && Validates(u, id, r.leaseId, r.worker) && id in s.facts && id in s.clients
            && Shows(SnapshotOf(u, id), Offered(OfReschedule(req, s.now), t.now))
            && UpdatedBy(s.clients[id], SnapshotOf(u, id).client, req.update)
            && SnapshotOf(u, id).goal == s.facts[id].goal && SnapshotOf(u, id).jobType == s.facts[id].jobType
            && SnapshotOf(u, id).policy == s.facts[id].policy
  {
    var first := Reschedule(s, threshold, id, lease, worker, req).value;
    var t := Run(first, threshold, es);
    RescheduledStands(s, threshold, id, lease, worker, req);
    ReschedulePresence(s, threshold, id, lease, worker, req, id);
    RunStands(first, threshold, es, id, OfReschedule(req, s.now));
    RunLater(first, threshold, es);
    FirstLeaseShows(t, threshold, id, OfReschedule(req, s.now), r);
    LeaseCarriesFacts(first, t, threshold, id, OfReschedule(req, s.now), r);
  }

  /** The lease shows the identity its job has had since `first`. */
  lemma LeaseCarriesFacts(first: Db, t: Db, threshold: nat, id: JobId, terms: Terms, r: WorkRequest)
    requires Inv(t, threshold) && Stands(t, id, terms) && t.jobs[id].lease.None?
    requires id in first.facts && Later(first, t) && id in first.clients && id in t.clients && t.clients[id] == first.clients[id]
    requires ValidWorkRequest(r) && Eligible(ExpireWaits(t), threshold, r, id)
    ensures GetWork(t, threshold, r, id).Ok?
    ensures var u := GetWork(t, threshold, r, id).value;
            && Validates(u, id, r.leaseId, r.worker)
            && var v := SnapshotOf(u, id);
            && v.goal == first.facts[id].goal && v.jobType == first.facts[id].jobType
            && v.policy == first.facts[id].policy && v.client == first.clients[id]
  {
    FirstLeaseShows(t, threshold, id, terms, r);
    AcquireRows(t, threshold, r, id, id);
    assert JobOk(t, threshold, id) && FactLater(first, t, id);
  }

  // ---- From a submission on -------------------------------------------------------------------------------

  lemma SubmittedStands(s: Db, threshold: nat, id: JobId, req: SubmitRequest)
    requires Inv(s, threshold) && id !in s.facts && Submit(s, id, req).Ok?
    ensures var t := Submit(s, id, req).value;
            && Inv(t, threshold) && Stands(t, id, OfSubmission(req, s.now)) && id in t.facts && id in t.clients
            && t.jobs[id].lease.None? && t.jobs[id].expiresAt == req.expiresAt
            && t.clients[id].payload == req.payload && t.clients[id].revision == (if req.payload.None? then 0 else 1)
            && t.facts[id].goal == (if req.goal.Some? then req.goal.value else req.generatedGoal)
            && t.facts[id].jobType == req.jobType && t.facts[id].policy == req.policy && t.facts[id].metadata == req.metadata
            && t.facts[id].parent == req.parent && t.facts[id].createdAt == s.now && t.facts[id].hiddenAt.None?
  {
    SubmitInv(s, threshold, id, req);
    SubmitFacts(s, id, req);
    InsertRows(s, id, req);
    Submissions.SubmittedClient(s, id, req);
    SubmitOthers(s, id, req);
  }

  /** Until its first reschedule a new job is offered exactly as it was submitted, not before
      the time it asked for, and its first lease shows goal, type, policy and payload. */
  lemma SubmissionHonoured(s: Db, threshold: nat, id: JobId, req: SubmitRequest, es: seq<Event>, r: WorkRequest)
    requires Inv(s, threshold) && id !in s.facts && Submit(s, id, req).Ok?
    requires forall e :: e in es ==> !Reschedules(e, id)
    ensures var t := Run(Submit(s, id, req).value, threshold, es);
            && id in t.facts && (id !in t.jobs ==> id in t.archive)
            && (id in t.jobs ==>
                  && Honoured(t, threshold, id, OfSubmission(req, s.now))
                  && (req.availableAt.Some? && t.now < req.availableAt.value ==>
                        !Eligible(ExpireWaits(t), threshold, r, id) && t.jobs[id].lease.None?)
                  && (t.jobs[id].lease.None? && ValidWorkRequest(r) && Eligible(ExpireWaits(t), threshold, r, id) ==>
                        && GetWork(t, threshold, r, id).Ok?
                        && FirstLeaseOf(GetWork(t, threshold, r, id).value, id, req, r)))
  {
    var first, terms := Submit(s, id, req).value, OfSubmission(req, s.now);
    var t := Run(first, threshold, es);
    SubmittedStands(s, threshold, id, req);
    RunStands(first, threshold, es, id, terms);
    RunLater(first, threshold, es);
    if id in t.jobs {
      StandsHonoured(t, threshold, id, terms);
      if NotYet(req.availableAt, t.now) { NeverLeasedEarly(first, threshold, es, id, terms); }
      if t.jobs[id].lease.None? && ValidWorkRequest(r) && Eligible(ExpireWaits(t), threshold, r, id) {
        FirstLeaseShows(t, threshold, id, terms, r);
        LeaseCarriesFacts(first, t, threshold, id, terms, r);
      }
    }
  }

  ghost predicate FirstLeaseOf(u: Db, id: JobId, req: SubmitRequest, r: WorkRequest) {
    && Validates(u, id, r.leaseId, r.worker)
    && var v := SnapshotOf(u, id);
    && v.goal == (if req.goal.Some? then req.goal.value else req.generatedGoal)
    && v.jobType == req.jobType && v.policy == req.policy
    && v.client == Client(req.payload, if req.payload.None? then 0 else 1)
    && Shows(v, Offer(req.jobType, None))
  }

  /** A job that is still held back was never leased since its terms were set. */
  lemma {:induction false} NeverLeasedEarly(s: Db, threshold: nat, es: seq<Event>, id: JobId, terms: Terms)
    requires Inv(s, threshold) && Stands(s, id, terms) && s.jobs[id].lease.None?
    requires forall e :: e in es ==> !Reschedules(e, id)
    requires !terms.deadline && NotYet(terms.availableAt, Run(s, threshold, es).now)
    ensures id in Run(s, threshold, es).jobs ==> Run(s, threshold, es).jobs[id].lease.None?
    decreases |es|
  {
    if es != [] {
      var t := Apply(s, threshold, es[0]);
      StepTransition(s, threshold, es[0]);
      EarlierStill(s, threshold, es, terms);
      assert es[0] in es && JobOk(s, threshold, id) && FactLater(s, t, id) && IdentityOk(t, id);
      if id in t.jobs {
        StillUnleased(s, t, threshold, es[0], id, terms);
        NeverLeasedEarly(t, threshold, es[1..], id, terms);
      } else {
        ArchivedStays(t, threshold, es[1..], id);
      }
    }
  }

  lemma EarlierStill(s: Db, threshold: nat, es: seq<Event>, terms: Terms)
    requires Inv(s, threshold) && NotYet(terms.availableAt, Run(s, threshold, es).now)
    ensures NotYet(terms.availableAt, s.now)
  {
    RunLater(s, threshold, es);
  }

  lemma StillUnleased(s: Db, t: Db, threshold: nat, e: Event, id: JobId, terms: Terms)
    requires Transition(s, t, threshold, e) && !Reschedules(e, id)
    requires id in t.jobs && Stands(s, id, terms) && s.jobs[id].lease.None?
    requires !terms.deadline && NotYet(terms.availableAt, s.now)
    ensures Stands(t, id, terms) && t.jobs[id].lease.None?
  {
    StandsStep(s, t, threshold, e, id, terms);
    assert RowStep(s, t, threshold, e, id) && JobOk(s, threshold, id);
    ReadyIffFree(s, threshold, id, terms);
    ExpiryIsInvisible(s, threshold, id);
  }

  // ---- The expiry given at submission ----------------------------------------------------------------------

  lemma ExpiryStep(s: Db, t: Db, threshold: nat, e: Event, id: JobId)
    requires Transition(s, t, threshold, e) && id in s.jobs && id in t.jobs
    ensures t.jobs[id].expiresAt == s.jobs[id].expiresAt
  {
    assert RowStep(s, t, threshold, e, id) && JobOk(s, threshold, id);
  }

  lemma {:induction false} RunExpiry(s: Db, threshold: nat, es: seq<Event>, id: JobId)
    requires Inv(s, threshold) && id in s.jobs
    ensures var t := Run(s, threshold, es);
            Inv(t, threshold) && (id in t.jobs ==> t.jobs[id].expiresAt == s.jobs[id].expiresAt)
    decreases |es|
  {
    if es != [] {
      var t := Apply(s, threshold, es[0]);
      StepTransition(s, threshold, es[0]);
      assert JobOk(s, threshold, id) && FactLater(s, t, id) && IdentityOk(t, id);
      if id in t.jobs {
        ExpiryStep(s, t, threshold, es[0], id);
        RunExpiry(t, threshold, es[1..], id);
      } else {
        RunInv(t, threshold, es[1..]);
        ArchivedStays(t, threshold, es[1..], id);
      }
    }
  }

  /** The expiry of a submission holds for the job's whole life, through every reschedule: from
      that time on no poll, acquisition or claim gives it to anyone. */
  lemma ExpiryHolds(s: Db, threshold: nat, id: JobId, req: SubmitRequest, es: seq<Event>, e: Event)
    requires Inv(s, threshold) && id !in s.facts && Submit(s, id, req).Ok?
    ensures var t := Run(Submit(s, id, req).value, threshold, es);
            && (id in t.jobs ==> t.jobs[id].expiresAt == req.expiresAt)
            && (req.expiresAt.Some? && req.expiresAt.value <= t.now ==> !Crashes.Grants(t, Apply(t, threshold, e), id))
  {
    var first := Submit(s, id, req).value;
    SubmittedStands(s, threshold, id, req);
    ExpiredForGood(first, threshold, es, id, e);
  }

  lemma ExpiredForGood(s: Db, threshold: nat, es: seq<Event>, id: JobId, e: Event)
    requires Inv(s, threshold) && id in s.jobs
    ensures var t := Run(s, threshold, es);
            && (id in t.jobs ==> t.jobs[id].expiresAt == s.jobs[id].expiresAt)
            && (PastExpiryAt(s.jobs[id], t.now) ==> !Crashes.Grants(t, Apply(t, threshold, e), id))
  {
    var t := Run(s, threshold, es);
    RunExpiry(s, threshold, es, id);
    RunLater(s, threshold, es);
    assert JobOk(s, threshold, id) && FactLater(s, t, id);
    if PastExpiryAt(s.jobs[id], t.now) { NotReadyGetsNoLease(t, threshold, id, e); }
  }
}
