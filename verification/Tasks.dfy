/** A waiting task's slot: one claim, then a job-only row until the next reschedule. */
module Tasks {
  import opened Basics
  import opened RunPolicies
  import opened Tables
  import opened Waits
  import opened Steps
  import opened Invariants
  import opened Preservation
  import opened Runs
  import opened Rows
  import opened Transitions
  import Leases
  import Crashes

  /** The row can only be leased as job work on `resume`. */
  ghost predicate JobOnly(s: Db, id: JobId, resume: string)
    requires id in s.jobs
  {
    s.jobs[id].route == JobColumns(resume) && s.jobs[id].alternate == NO_ALTERNATE
  }

  predicate Reschedules(e: Event, id: JobId) {
    e.RescheduleJob? && e.job == id
  }

  /** A committed claim consumed the slot, holds the job and left its payload alone. */
  lemma ClaimCommits(s: Db, threshold: nat, req: ClaimRequest, id: JobId)
    requires Inv(s, threshold) && req.leaseId !in s.issued && ClaimTask(s, threshold, req, id).Ok?
    ensures var t := ClaimTask(s, threshold, req, id).value;
            && id in s.jobs && s.jobs[id].route == TaskColumns(req.jobType, req.task)
            && id in t.jobs && JobOnly(t, id, req.task.resumeJobType)
            && Validates(t, id, req.leaseId, req.worker)
            && t.jobs[id].lease.value.expiresAt == s.now + req.seconds * SECOND
            && t.clients == s.clients && t.facts == s.facts
  {
    assert JobOk(s, threshold, id) && IdentityOk(s, id);
  }

  /** A waiting task is claimed exactly when the request names the stored slot of a ready job. */
  lemma ClaimIff(s: Db, threshold: nat, req: ClaimRequest, id: JobId)
    ensures ClaimTask(s, threshold, req, id).Ok? <==>
              && ValidClaim(req) && id in s.jobs
              && StatusAt(s, threshold, id, s.now) == Ready
              && s.jobs[id].route == TaskColumns(req.jobType, req.task)
  {
    if id in s.jobs {
      ExpiryIsInvisible(s, threshold, id);
    }
  }

  /** Settling due waits changes no status: the predicate already looks at the deadline. */
  lemma ExpiryIsInvisible(s: Db, threshold: nat, id: JobId)
    requires id in s.jobs
    ensures StatusAt(ExpireWaits(s), threshold, id, s.now) == StatusAt(s, threshold, id, s.now)
  {
    var e, j := ExpireWaits(s), s.jobs[id];
    assert WaitBlocks(e, id, j, s.now) == WaitBlocks(s, id, j, s.now);
    assert LegacyBlocks(e, j, s.now) == LegacyBlocks(s, j, s.now);
  }

  lemma JobOnlyStep(s: Db, t: Db, threshold: nat, e: Event, id: JobId, resume: string)
    requires Transition(s, t, threshold, e) && !Reschedules(e, id)
    requires id in s.jobs && JobOnly(s, id, resume)
    ensures id in t.jobs ==> JobOnly(t, id, resume)
    ensures id in t.jobs ==> id in s.clients && id in t.clients && t.clients[id] == s.clients[id]
    ensures id !in t.jobs ==> id in t.archive
  {
    assert RowStep(s, t, threshold, e, id) && JobOk(s, threshold, id) && IdentityOk(s, id) && FactLater(s, t, id);
    assert IdentityOk(t, id);
  }

  lemma ArchivedStays(s: Db, threshold: nat, es: seq<Event>, id: JobId)
    requires Inv(s, threshold) && id in s.archive
    ensures var t := Run(s, threshold, es); id in t.archive && id !in t.jobs && t.archive[id] == s.archive[id]
  {
    var t := Run(s, threshold, es);
    RunLater(s, threshold, es);
    assert ArchiveLater(s, t, id);
    forall j | j in t.jobs ensures j !in t.archive { assert JobOk(t, threshold, j); }
  }

  /** What a job-only row offers: job work on its resume route, and nothing else. */
  lemma JobOnlyOffers(s: Db, threshold: nat, id: JobId, resume: string)
    requires Inv(s, threshold) && id in s.jobs && JobOnly(s, id, resume)
    ensures id in s.facts && forall req :: ClaimTask(s, threshold, req, id).Err?
    ensures s.jobs[id].lease.Some? ==> s.jobs[id].lease.value.kind == JobKind && s.jobs[id].lease.value.jobType == resume
    ensures forall req :: Eligible(ExpireWaits(s), threshold, req, id) <==>
              && StatusAt(s, threshold, id, s.now) == Ready
              && resume in req.jobTypes && Accepts(req.accepts, s.facts[id].metadata)
  {
    assert JobOk(s, threshold, id) && IdentityOk(s, id);
    ExpiryIsInvisible(s, threshold, id);
  }

  /** From a claim until the job is rescheduled, over all interleavings, expiries and
      crashes: no second claim, no task lease, payload and revision untouched, and only job
      work on the resume route. */
  lemma {:induction false} SlotIsSpent(s: Db, threshold: nat, es: seq<Event>, id: JobId, resume: string)
    requires Inv(s, threshold) && id in s.jobs && JobOnly(s, id, resume)
    requires forall e :: e in es ==> !Reschedules(e, id)
    ensures var t := Run(s, threshold, es);
            && (forall req :: ClaimTask(t, threshold, req, id).Err?)
            && (id !in t.jobs ==> id in t.archive)
            && (id in t.jobs ==>
                  && JobOnly(t, id, resume) && id in s.clients && id in t.clients && t.clients[id] == s.clients[id]
                  && id in t.facts
                  && (t.jobs[id].lease.Some? ==> t.jobs[id].lease.value.kind == JobKind)
                  && forall req :: Eligible(ExpireWaits(t), threshold, req, id) <==>
                       && StatusAt(t, threshold, id, t.now) == Ready
                       && resume in req.jobTypes && Accepts(req.accepts, t.facts[id].metadata))
    decreases |es|
  {
    assert JobOk(s, threshold, id) && IdentityOk(s, id);
    JobOnlyOffers(s, threshold, id, resume);
    if es != [] {
      var t := Apply(s, threshold, es[0]);
      StepTransition(s, threshold, es[0]);
      assert es[0] in es;
      JobOnlyStep(s, t, threshold, es[0], id, resume);
      if id in t.jobs {
        SlotIsSpent(t, threshold, es[1..], id, resume);
      } else {
        ArchivedStays(t, threshold, es[1..], id);
      }
    }
  }

  // ---- Recovery ------------------------------------------------------------------------------

  /** Nothing but its own lease, its streak and its expiry can hold the job back. */
  ghost predicate Unhindered(s: Db, id: JobId)
    requires id in s.jobs
  {
    var j := s.jobs[id];
    && PointerOk(s, id) && !WaitBlocks(s, id, j, s.now) && !LegacyBlocks(s, j, s.now)
    && (j.waitUntilIsDeadline || j.availableAt <= s.now)
  }

  predicate PastExpiryAt(j: Job, now: Time) {
    j.expiresAt.Some? && j.expiresAt.value <= now
  }

  /** An unhindered job that nobody holds is ready, crash-suspect or past its expiry. */
  lemma UnhinderedStatus(s: Db, threshold: nat, id: JobId)
    requires Inv(s, threshold) && id in s.jobs && Unhindered(s, id) && !Held(s.jobs[id], s.now)
    ensures StatusAt(s, threshold, id, s.now) ==
              if s.jobs[id].streak >= threshold then CrashConcern
              else if PastExpiryAt(s.jobs[id], s.now) then PastExpiry else Ready
  {
    assert JobOk(s, threshold, id);
  }

  /** The columns that decide what a job waits for are kept. */
  ghost predicate WaitsAlike(s: Db, t: Db, id: JobId) {
    && id in s.jobs && id in t.jobs
    && var a, b := s.jobs[id], t.jobs[id];
       b == a.(route := b.route, alternate := b.alternate, lease := b.lease, streak := b.streak)
  }

  lemma AlikeStays(s: Db, t: Db, id: JobId)
    requires Later(s, t) && WaitsAlike(s, t, id) && Unhindered(s, id)
    ensures Unhindered(t, id)
  {
    if s.jobs[id].dependencyWait.Some? {
      assert StoredLater(s, t, WaitKey(id, s.jobs[id].dependencyWait.value));
    }
    forall d | d in s.jobs[id].waitFor && d in s.archive ensures d in t.archive { assert ArchiveLater(s, t, d); }
  }

  lemma KeptStays(s: Db, t: Db, threshold: nat, e: Event, id: JobId)
    requires Transition(s, t, threshold, e) && Kept(s, t, id) && Unhindered(s, id)
    ensures Unhindered(t, id)
  {
    Crashes.UnblockedStays(s, t, id);
    Crashes.LegacyUnblockedStays(s, t, id);
    PointerStep(s, t, threshold, e, id);
  }

  lemma UnhinderedStep(s: Db, t: Db, threshold: nat, e: Event, id: JobId)
    requires Transition(s, t, threshold, e) && !Reschedules(e, id)
    requires id in s.jobs && id in t.jobs && Unhindered(s, id)
    ensures Unhindered(t, id)
  {
    assert RowStep(s, t, threshold, e, id) && JobOk(s, threshold, id);
    if Kept(s, t, id) { KeptStays(s, t, threshold, e, id); } else { AlikeStays(s, t, id); }
  }

  /** A successful claim found the job unhindered and leaves it so. */
  lemma ClaimUnhindered(s: Db, threshold: nat, req: ClaimRequest, id: JobId)
    requires Inv(s, threshold) && Pointed(s) && req.leaseId !in s.issued && ClaimTask(s, threshold, req, id).Ok?
    ensures var t := ClaimTask(s, threshold, req, id).value; id in t.jobs && Unhindered(t, id)
  {
    var e := ClaimWaitingTask(id, req);
    var t := ClaimTask(s, threshold, req, id).value;
    assert Apply(s, threshold, e) == t;
    StepTransition(s, threshold, e);
    ClaimIff(s, threshold, req, id);
    assert PointerOk(s, id);
    ClaimCommits(s, threshold, req, id);
    ClaimRows(s, threshold, req, id, id);
    AlikeStays(s, t, id);
  }

  /** What every continuation without a reschedule leaves of a claimed job. */
  ghost predicate Recoverable(t: Db, threshold: nat, id: JobId, resume: string)
    requires id in t.jobs && id in t.facts
  {
    && JobOnly(t, id, resume) && Unhindered(t, id)
    && (!Held(t.jobs[id], t.now) ==>
          forall req :: Eligible(ExpireWaits(t), threshold, req, id) <==>
            && t.jobs[id].streak < threshold && !PastExpiryAt(t.jobs[id], t.now)
            && resume in req.jobTypes && Accepts(req.accepts, t.facts[id].metadata))
  }

  lemma RecoverableNow(s: Db, threshold: nat, id: JobId, resume: string)
    requires Inv(s, threshold) && id in s.jobs && JobOnly(s, id, resume) && Unhindered(s, id)
    ensures id in s.facts && Recoverable(s, threshold, id, resume)
  {
    JobOnlyOffers(s, threshold, id, resume);
    if !Held(s.jobs[id], s.now) { UnhinderedStatus(s, threshold, id); }
  }

  /** After any crash: whatever else happens, while the job is active and not rescheduled it
      stays on its job-only route with nothing to wait for, and as soon as no lease holds it
      a worker asking for the resume route is given it, unless its crash streak has reached
      the threshold or the job has expired. Payload and revision are those of the claim. */
  lemma {:induction false} StaysRecoverable(s: Db, threshold: nat, es: seq<Event>, id: JobId, resume: string)
    requires Inv(s, threshold) && id in s.jobs && JobOnly(s, id, resume) && Unhindered(s, id)
    requires forall e :: e in es ==> !Reschedules(e, id)
    ensures var t := Run(s, threshold, es);
            && (id !in t.jobs ==> id in t.archive)
            && (id in t.jobs ==>
                  && id in t.facts && Recoverable(t, threshold, id, resume)
                  && id in s.clients && id in t.clients && t.clients[id] == s.clients[id])
    decreases |es|
  {
    assert JobOk(s, threshold, id) && IdentityOk(s, id);
    if es == [] {
      RecoverableNow(s, threshold, id, resume);
    } else {
      var t := Apply(s, threshold, es[0]);
      StepTransition(s, threshold, es[0]);
      assert es[0] in es;
      JobOnlyStep(s, t, threshold, es[0], id, resume);
      if id in t.jobs {
        UnhinderedStep(s, t, threshold, es[0], id);
        StaysRecoverable(t, threshold, es[1..], id, resume);
      } else {
        ArchivedStays(t, threshold, es[1..], id);
      }
    }
  }

  /** The same from the claim itself, in every reachable database. */
  lemma ClaimedJobRecovers(s: Db, threshold: nat, req: ClaimRequest, id: JobId, es: seq<Event>)
    requires Inv(s, threshold) && Pointed(s) && req.leaseId !in s.issued && ClaimTask(s, threshold, req, id).Ok?
    requires forall e :: e in es ==> !Reschedules(e, id)
    ensures var t := Run(ClaimTask(s, threshold, req, id).value, threshold, es);
            && (id !in t.jobs ==> id in t.archive)
            && (id in t.jobs ==>
                  && id in t.facts && Recoverable(t, threshold, id, req.task.resumeJobType)
                  && id in s.clients && id in t.clients && t.clients[id] == s.clients[id])
  {
    var t := ClaimTask(s, threshold, req, id).value;
    ClaimTaskInv(s, threshold, req, id);
    ClaimCommits(s, threshold, req, id);
    ClaimUnhindered(s, threshold, req, id);
    StaysRecoverable(t, threshold, es, id, req.task.resumeJobType);
  }

  /** Once a claim commits, every lease issued before it, task work included, is dead for
      the job: the claim's holder is the only one left who can publish the slot's output. */
  lemma {:induction false} OnePublisher(s: Db, threshold: nat, req: ClaimRequest, id: JobId, es: seq<Event>,
                                        other: LeaseId, worker: string)
    requires Inv(s, threshold) && req.leaseId !in s.issued && ClaimTask(s, threshold, req, id).Ok?
    requires other in s.issued
    ensures !Validates(Run(ClaimTask(s, threshold, req, id).value, threshold, es), id, other, worker)
  {
    var e := ClaimWaitingTask(id, req);
    var t := ClaimTask(s, threshold, req, id).value;
    assert Apply(s, threshold, e) == t;
    StepTransition(s, threshold, e);
    ClaimCommits(s, threshold, req, id);
    Leases.NeverAgain(t, threshold, es, id, other, worker);
  }
}
