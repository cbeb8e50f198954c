/** What one transaction can do to one active row. */
module Rows {
  import opened Basics
  import opened RunPolicies
  import opened Tables
  import opened Waits
  import opened Steps
  import opened Invariants
  import opened Preservation
  import Graph

  /** Only legacy prerequisites were removed from the row. */
  ghost predicate Kept(s: Db, t: Db, x: JobId) {
    && x in s.jobs && x in t.jobs
    && t.jobs[x] == s.jobs[x].(waitFor := t.jobs[x].waitFor, availableAt := t.jobs[x].availableAt,
                               waitUntilIsDeadline := t.jobs[x].waitUntilIsDeadline)
    && LegacyShrinks(s, t, x)
  }

  /** Prerequisites leave a row only by being archived; losing the last one ends a deadline. */
  ghost predicate LegacyShrinks(s: Db, t: Db, x: JobId)
    requires x in s.jobs && x in t.jobs
  {
    var a, b := s.jobs[x], t.jobs[x];
    && (forall d :: d in b.waitFor ==> d in a.waitFor)
    && (forall d :: d in a.waitFor && d !in b.waitFor ==> d in t.archive)
    && (if b.waitUntilIsDeadline == a.waitUntilIsDeadline then b.availableAt == a.availableAt
        else a.waitUntilIsDeadline && b.waitFor == [] && b.availableAt <= t.now)
  }

  /** Written anew: unleased, no streak, waiting for other active jobs or for a stored wait, not both. */
  ghost predicate Parked(t: Db, x: JobId)
    requires x in t.jobs
  {
    && t.jobs[x].lease.None? && t.jobs[x].streak == 0 && PointerOk(t, x)
    && (forall d :: d in t.jobs[x].waitFor ==> d in t.jobs && d != x)
    && (t.jobs[x].dependencyWait.Some? ==> t.jobs[x].waitFor == [])
  }

  ghost predicate PointerOk(t: Db, x: JobId)
    requires x in t.jobs
  {
    t.jobs[x].dependencyWait.Some? ==> WaitKey(x, t.jobs[x].dependencyWait.value) in t.waits
  }

  /** The addressed row afterwards, when it is not merely kept. */
  ghost predicate Rewritten(s: Db, t: Db, threshold: nat, e: Event, x: JobId) {
    && x in t.jobs
    && match e
       case SubmitJob(id, r) => x == id && x !in s.facts && Parked(t, x)
       case AcquireWork(id, r) =>
         && x == id && r.leaseId !in s.issued && x in s.jobs
         && Eligible(ExpireWaits(s), threshold, r, x)
         && t.jobs[x] == Leased(s.jobs[x], s.now, r)
       case RenewLease(id, l, w, n) =>
         && x == id && Validates(s, x, l, w)
         && t.jobs[x] == s.jobs[x].(lease := Some(s.jobs[x].lease.value.(expiresAt := s.now + n * SECOND)))
       case RescheduleJob(id, l, w, r) => x == id && x in s.jobs && Parked(t, x) && t.jobs[x].expiresAt == s.jobs[x].expiresAt
       case ClaimWaitingTask(id, r) =>
         && x == id && r.leaseId !in s.issued && x in s.jobs
         && Claimable(ExpireWaits(s), threshold, r, x)
         && t.jobs[x] == Claimed(s.jobs[x], s.now, r)
       case ClearCrashConcern(id) => x == id && x in s.jobs && t.jobs[x] == s.jobs[x].(streak := 0)
       case _ => false
  }

  lemma ArchiveRows(s: Db, id: JobId, status: CompletionStatus, detail: string, x: JobId)
    requires id in s.jobs && x in ArchiveJob(s, id, status, detail).jobs
    ensures Kept(s, ArchiveJob(s, id, status, detail), x) && x != id
  {
    var t := ArchiveJob(s, id, status, detail);
    assert t.jobs[x] == Woken(s.jobs[x], id, s.now) && id in t.archive;
  }

  lemma KeptTransitive(s: Db, t: Db, u: Db, x: JobId)
    requires Kept(s, t, x) && Kept(t, u, x) && t.now <= u.now
    requires forall j :: j in t.archive ==> j in u.archive
    ensures Kept(s, u, x)
  {
    assert u.jobs[x].waitFor != [] ==> u.jobs[x].waitFor[0] in u.jobs[x].waitFor;
  }

  lemma DeleteOneRows(s: Db, id: JobId, at: Time, x: JobId)
    requires x in DeleteOne(s, id, at).jobs
    ensures Kept(s, DeleteOne(s, id, at), x) && s.now == DeleteOne(s, id, at).now
    ensures forall j :: j in s.archive ==> j in DeleteOne(s, id, at).archive
  {
    if id in s.facts && s.facts[id].hiddenAt.None? && id in s.jobs {
      ArchiveRows(s, id, Cancelled, "job deleted", x);
    }
  }

  lemma {:induction false} DeleteAllRows(s: Db, order: seq<JobId>, at: Time, x: JobId)
    requires x in DeleteAll(s, order, at).jobs
    ensures Kept(s, DeleteAll(s, order, at), x) && s.now == DeleteAll(s, order, at).now
    ensures forall j :: j in s.archive ==> j in DeleteAll(s, order, at).archive
    decreases |order|
  {
    if order != [] {
      var t := DeleteOne(s, order[0], at);
      DeleteAllRows(t, order[1..], at, x);
      DeleteOneRows(s, order[0], at, x);
      KeptTransitive(s, t, DeleteAll(t, order[1..], at), x);
    }
  }

  lemma CompleteRows(s: Db, threshold: nat, id: JobId, lease: Option<LeaseId>, worker: string,
                     status: CompletionStatus, detail: string, update: Option<PayloadUpdate>, x: JobId)
    requires Complete(s, threshold, id, lease, worker, status, detail, update).Ok?
    requires x in Complete(s, threshold, id, lease, worker, status, detail, update).value.jobs
    ensures Kept(s, Complete(s, threshold, id, lease, worker, status, detail, update).value, x) && x != id
  {
    if lease.None? {
      ArchiveRows(s, id, status, detail, x);
    } else {
      ArchiveRows(s.(clients := s.clients[id := UpdateClient(s.clients[id], update).value]), id, status, detail, x);
    }
  }

  /** A registration that is not refused stores one evaluated wait and nothing else. */
  lemma RegisterSaves(s: Db, job: JobId, req: WaitRequest, submission: bool)
    requires RegisterWait(s, job, req, submission).Ok?
    ensures var k := WaitKey(job, req.id);
            RegisterWait(s, job, req, submission).value == SaveEvaluated(s, k, if k in s.waits then s.waits[k] else NewWait(req))
  {
  }

  lemma RegisterRows(s: Db, job: JobId, req: WaitRequest, submission: bool)
    requires RegisterWait(s, job, req, submission).Ok?
    ensures RegisterWait(s, job, req, submission).value.jobs == s.jobs
    ensures RegisterWait(s, job, req, submission).value.clients == s.clients
    ensures RegisterWait(s, job, req, submission).value.facts == s.facts
    ensures WaitKey(job, req.id) in RegisterWait(s, job, req, submission).value.waits
  {
    RegisterSaves(s, job, req, submission);
  }

  lemma RescheduleRows(s: Db, threshold: nat, id: JobId, lease: Option<LeaseId>, worker: string, r: RescheduleRequest, x: JobId)
    requires Reschedule(s, threshold, id, lease, worker, r).Ok?
    requires x in Reschedule(s, threshold, id, lease, worker, r).value.jobs
    ensures var t := Reschedule(s, threshold, id, lease, worker, r).value;
            if x == id then x in s.jobs && Parked(t, x) && t.jobs[x].expiresAt == s.jobs[x].expiresAt
            else x in s.jobs && t.jobs[x] == s.jobs[x]
  {
    var u := s.(clients := s.clients[id := UpdateClient(s.clients[id], r.update).value]);
    if r.wait.Some? {
      RegisterRows(CancelWaits(u, id, Some(r.wait.value.id)), id, r.wait.value, false);
    }
  }

  lemma InsertRows(s: Db, id: JobId, r: SubmitRequest)
    requires Submit(s, id, r).Ok? && id !in s.facts
    ensures var t := Submit(s, id, r).value;
            && NormalizeWaitFor(s, r.waitFor).Ok? && id in t.jobs && PointerOk(t, id)
            && exists goal :: t.jobs == s.jobs[id := NewJob(r, goal, NormalizeWaitFor(s, r.waitFor).value, s.now)]
  {
    var goal := SubmittedGoal(r);
    var waitFor := NormalizeWaitFor(s, r.waitFor).value;
    var t := Submit(s, id, r).value;
    var inserted := Inserted(s, id, r, goal, waitFor);
    if r.dependencies != [] {
      RegisterRows(inserted, id, WaitRequest(SUBMISSION, r.dependencies, None), true);
    }
    assert t.jobs == s.jobs[id := NewJob(r, goal, waitFor, s.now)];
  }

  lemma SubmitRows(s: Db, id: JobId, r: SubmitRequest, x: JobId)
    requires Submit(s, id, r).Ok? && x in Submit(s, id, r).value.jobs
    ensures var t := Submit(s, id, r).value;
            if x == id && id !in s.facts then Parked(t, x)
            else x in s.jobs && t.jobs[x] == s.jobs[x]
  {
    if id !in s.facts {
      InsertRows(s, id, r);
    }
  }

  lemma AcquireRows(s: Db, threshold: nat, r: WorkRequest, id: JobId, x: JobId)
    requires GetWork(s, threshold, r, id).Ok? && x in s.jobs
    ensures var t := GetWork(s, threshold, r, id).value;
            && t.jobs.Keys == s.jobs.Keys && t.archive == s.archive && t.now == s.now
            && if x == id && Eligible(ExpireWaits(s), threshold, r, x) then t.jobs[x] == Leased(s.jobs[x], s.now, r)
               else t.jobs[x] == s.jobs[x]
  {
  }

  lemma ClaimRows(s: Db, threshold: nat, r: ClaimRequest, id: JobId, x: JobId)
    requires ClaimTask(s, threshold, r, id).Ok? && x in s.jobs
    ensures var t := ClaimTask(s, threshold, r, id).value;
            && t.jobs.Keys == s.jobs.Keys && t.archive == s.archive && t.now == s.now
            && Claimable(ExpireWaits(s), threshold, r, id)
            && t.jobs[x] == if x == id then Claimed(s.jobs[x], s.now, r) else s.jobs[x]
  {
  }

  lemma RenewRows(s: Db, threshold: nat, id: JobId, l: LeaseId, w: string, n: int, x: JobId)
    requires Inv(s, threshold) && Renew(s, id, l, w, n).Ok? && x in s.jobs
    ensures var t := Renew(s, id, l, w, n).value;
            && t.jobs.Keys == s.jobs.Keys && t.archive == s.archive && t.now == s.now
            && if x == id
               then Validates(s, x, l, w)
                    && t.jobs[x] == s.jobs[x].(lease := Some(s.jobs[x].lease.value.(expiresAt := s.now + n * SECOND)))
               else t.jobs[x] == s.jobs[x]
  {
    assert JobOk(s, threshold, x) && IdentityOk(s, x);
  }

  lemma RowAfterGrant(s: Db, threshold: nat, e: Event, x: JobId)
    requires Attempt(s, threshold, e).Ok? && x in Apply(s, threshold, e).jobs
    requires e.AcquireWork? || e.ClaimWaitingTask?
    ensures Kept(s, Apply(s, threshold, e), x) || Rewritten(s, Apply(s, threshold, e), threshold, e, x)
  {
    match e {
      case AcquireWork(id, r) => AcquireRows(s, threshold, r, id, x);
      case ClaimWaitingTask(id, r) => ClaimRows(s, threshold, r, id, x);
    }
  }

  lemma RowAfterLease(s: Db, threshold: nat, e: Event, x: JobId)
    requires Inv(s, threshold) && Attempt(s, threshold, e).Ok? && x in Apply(s, threshold, e).jobs
    requires e.RenewLease? || e.ClearCrashConcern? || e.Tick?
    ensures Kept(s, Apply(s, threshold, e), x) || Rewritten(s, Apply(s, threshold, e), threshold, e, x)
  {
    match e {
      case RenewLease(id, l, w, n) => RenewRows(s, threshold, id, l, w, n, x);
      case ClearCrashConcern(id) =>
      case Tick(n) =>
    }
  }

  lemma RowAfterArchive(s: Db, threshold: nat, e: Event, x: JobId)
    requires Attempt(s, threshold, e).Ok? && x in Apply(s, threshold, e).jobs
    requires e.CompleteJob? || e.CancelJob? || e.DeleteJobs?
    ensures Kept(s, Apply(s, threshold, e), x)
  {
    match e {
      case CompleteJob(id, l, w, st, d, u) => CompleteRows(s, threshold, id, l, w, st, d, u, x);
      case CancelJob(id, w, d) => ArchiveRows(s, id, Cancelled, d, x);
      case DeleteJobs(r, order) => DeleteAllRows(s, order, r.at, x);
    }
  }

  lemma RowAfterWrite(s: Db, threshold: nat, e: Event, x: JobId)
    requires Attempt(s, threshold, e).Ok? && x in Apply(s, threshold, e).jobs
    requires e.SubmitJob? || e.RescheduleJob?
    ensures Kept(s, Apply(s, threshold, e), x) || Rewritten(s, Apply(s, threshold, e), threshold, e, x)
  {
    match e {
      case SubmitJob(id, r) => SubmitRows(s, id, r, x);
      case RescheduleJob(id, l, w, r) => RescheduleRows(s, threshold, id, l, w, r, x);
    }
  }

  lemma AttachRows(s: Db, g: GoalId, j: JobId)
    requires AddCandidate(s, g, j).Ok?
    ensures var t := AddCandidate(s, g, j).value;
            t == s.(goals := t.goals, candidates := t.candidates, waits := t.waits, targets := t.targets)
  {
  }

  lemma FailRows(s: Db, g: GoalId, message: string)
    requires FailGoal(s, g, message).Ok?
    ensures var t := FailGoal(s, g, message).value;
            t == s.(goals := t.goals, waits := t.waits, targets := t.targets)
  {
  }

  /** Goal writes touch no row, payload or fact. */
  lemma SettleRows(s: Db, threshold: nat, e: Event)
    requires e.AttachCandidate? || e.CloseGoal?
    ensures var t := Apply(s, threshold, e); t.jobs == s.jobs && t.clients == s.clients && t.facts == s.facts
  {
    if Attempt(s, threshold, e).Ok? {
      match e {
        case AttachCandidate(g, j) => AttachRows(s, g, j);
        case CloseGoal(g, m) => FailRows(s, g, m);
      }
    }
  }

  /** Every active row after a transaction was kept, or is the addressed one rewritten. */
  lemma RowAfter(s: Db, threshold: nat, e: Event, x: JobId)
    requires Inv(s, threshold) && x in Apply(s, threshold, e).jobs
    ensures Kept(s, Apply(s, threshold, e), x) || Rewritten(s, Apply(s, threshold, e), threshold, e, x)
  {
    if Attempt(s, threshold, e).Ok? {
      if e.AttachCandidate? || e.CloseGoal? {
        SettleRows(s, threshold, e);
      } else if e.CompleteJob? || e.CancelJob? || e.DeleteJobs? {
        RowAfterArchive(s, threshold, e, x);
      } else if e.SubmitJob? || e.RescheduleJob? {
        RowAfterWrite(s, threshold, e, x);
      } else if e.AcquireWork? || e.ClaimWaitingTask? {
        RowAfterGrant(s, threshold, e, x);
      } else {
        RowAfterLease(s, threshold, e, x);
      }
    }
  }
}
