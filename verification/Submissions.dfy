/** Retries and payload revisions over whole runs. */
module Submissions {
  import opened Basics
  import opened RunPolicies
  import opened Tables
  import opened Waits
  import opened Steps
  import opened Invariants
  import opened Preservation
  import opened GoalPreservation
  import opened Runs
  import opened Rows
  import opened Transitions

  /** Whatever became of a job meanwhile, completed, cancelled or deleted, submitting it again
      succeeds and writes nothing, unless its parent has been deleted. */
  lemma RetryIsSafe(s: Db, threshold: nat, id: JobId, req: SubmitRequest, es: seq<Event>)
    requires Inv(s, threshold) && id !in s.facts && Submit(s, id, req).Ok?
    ensures var u := Run(Submit(s, id, req).value, threshold, es);
            Submit(u, id, req) == if ParentHidden(u, req) then Err("parent job was deleted") else Ok(u)
  {
    var t := Submit(s, id, req).value;
    var u := Run(t, threshold, es);
    SubmitInv(s, threshold, id, req);
    NewFactsAre(s, id, req);
    RunLater(t, threshold, es);
    assert FactLater(t, u, id);
    RetryStored(u, id, req);
  }

  lemma NewFactsAre(s: Db, id: JobId, req: SubmitRequest)
    requires Submit(s, id, req).Ok? && id !in s.facts
    ensures var t := Submit(s, id, req).value;
            && id in t.facts && ValidSubmit(id, req) && (req.goal.Some? ==> t.facts[id].goal == req.goal.value)
            && t.facts[id] == NewFacts(req, t.facts[id].goal, t.facts[id].createdAt)
  {
    var goal := SubmittedGoal(req);
    var inserted := Inserted(s, id, req, goal, NormalizeWaitFor(s, req.waitFor).value);
    if req.dependencies != [] {
      RegisterRows(inserted, id, WaitRequest(SUBMISSION, req.dependencies, None), true);
    }
    assert Submit(s, id, req).value.facts == s.facts[id := NewFacts(req, goal, s.now)];
  }

  lemma RetryStored(u: Db, id: JobId, req: SubmitRequest)
    requires ValidSubmit(id, req) && id in u.facts && (req.goal.Some? ==> u.facts[id].goal == req.goal.value)
    requires u.facts[id].(hiddenAt := None) == NewFacts(req, u.facts[id].goal, u.facts[id].createdAt)
    ensures Submit(u, id, req) == if ParentHidden(u, req) then Err("parent job was deleted") else Ok(u)
  {
  }

  /** The immutable part of two submissions is the same. */
  predicate Repeats(again: SubmitRequest, req: SubmitRequest) {
    && again.jobType == req.jobType && again.policy == req.policy && again.metadata == req.metadata
    && again.parent == req.parent && again.expiresAt == req.expiresAt && again.schedule == req.schedule
    && again.dependencies == req.dependencies && again.payload == req.payload
    && (again.goal.Some? ==> again.goal.value == if req.goal.Some? then req.goal.value else req.generatedGoal)
  }

  /** An id belongs to its first submission: any later one is accepted, without a write, exactly
      when it is valid, repeats every immutable part and its parent is not deleted. Worker, times
      to wait for and sharing are not compared. */
  lemma AcceptedIffRepeats(s: Db, threshold: nat, id: JobId, req: SubmitRequest, es: seq<Event>, again: SubmitRequest)
    requires Inv(s, threshold) && id !in s.facts && Submit(s, id, req).Ok?
    ensures var u := Run(Submit(s, id, req).value, threshold, es);
            && id in u.facts && u.facts[id].createdAt == s.now
            && (Submit(u, id, again).Ok? <==> ValidSubmit(id, again) && Repeats(again, req) && !ParentHidden(u, again))
            && (Submit(u, id, again).Ok? ==> Submit(u, id, again).value == u)
  {
    var t := Submit(s, id, req).value;
    var u := Run(t, threshold, es);
    SubmitInv(s, threshold, id, req);
    SubmitFacts(s, id, req);
    RunLater(t, threshold, es);
    assert FactLater(t, u, id);
    if ValidSubmit(id, again) { RepeatStored(u, id, req, s.now, again); }
  }

  lemma RepeatStored(u: Db, id: JobId, req: SubmitRequest, at: Time, again: SubmitRequest)
    requires id in u.facts && ValidSubmit(id, req) && ValidSubmit(id, again)
    requires u.facts[id].(hiddenAt := None) == NewFacts(req, SubmittedGoal(req), at)
    ensures Submit(u, id, again).Ok? <==> Repeats(again, req) && !ParentHidden(u, again)
    ensures Submit(u, id, again).Ok? ==> Submit(u, id, again).value == u
  {
  }

  /** No update is lost: once a payload has moved on from a revision, every later attempt that
      still expects that revision is refused, over every continuation. */
  lemma StaleUpdateRefused(s: Db, threshold: nat, es: seq<Event>, id: JobId, u: PayloadUpdate, later: PayloadUpdate)
    requires Inv(s, threshold) && id in s.clients && UpdateClient(s.clients[id], Some(u)).Ok?
    requires id in Run(s, threshold, es).clients && Run(s, threshold, es).clients[id] != s.clients[id]
    requires later.expected <= u.expected
    ensures UpdateClient(Run(s, threshold, es).clients[id], Some(later)).Err?
  {
    RunLater(s, threshold, es);
    assert ClientLater(s, Run(s, threshold, es), id);
  }

  // ---- Payloads ------------------------------------------------------------------------------------

  /** A completion's update is stored as given, at the next revision, under the expected one;
      without an update nothing moves, and no other job's payload ever does. */
  lemma CompletionPayload(s: Db, threshold: nat, id: JobId, lease: Option<LeaseId>, worker: string,
                          status: CompletionStatus, detail: string, update: Option<PayloadUpdate>)
    requires Complete(s, threshold, id, lease, worker, status, detail, update).Ok?
    ensures var t := Complete(s, threshold, id, lease, worker, status, detail, update).value;
            && id in s.clients && t.clients.Keys == s.clients.Keys
            && (forall x :: x in s.clients && x != id ==> t.clients[x] == s.clients[x])
            && (update.None? ==> t.clients[id] == s.clients[id])
            && (update.Some? ==>
                  && lease.Some? && update.value.expected == s.clients[id].revision
                  && t.clients[id] == Client(update.value.payload, s.clients[id].revision + 1))
  {
    CompletePresence(s, threshold, id, lease, worker, status, detail, update);
  }

  /** The same for a reschedule. */
  lemma ReschedulePayload(s: Db, threshold: nat, id: JobId, lease: Option<LeaseId>, worker: string, req: RescheduleRequest)
    requires Reschedule(s, threshold, id, lease, worker, req).Ok?
    ensures var t := Reschedule(s, threshold, id, lease, worker, req).value;
            && id in s.clients && t.clients.Keys == s.clients.Keys
            && (forall x :: x in s.clients && x != id ==> t.clients[x] == s.clients[x])
            && (req.update.None? ==> t.clients[id] == s.clients[id])
            && (req.update.Some? ==>
                  && lease.Some? && req.update.value.expected == s.clients[id].revision
                  && t.clients[id] == Client(req.update.value.payload, s.clients[id].revision + 1))
  {
    if req.wait.Some? {
      var u := s.(clients := s.clients[id := UpdateClient(s.clients[id], req.update).value]);
      RegisterRows(CancelWaits(u, id, Some(req.wait.value.id)), id, req.wait.value, false);
    }
  }

  predicate Updates(e: Event, id: JobId) {
    || (e.RescheduleJob? && e.job == id && e.reschedule.update.Some?)
    || (e.CompleteJob? && e.job == id && e.update.Some?)
  }

  /** Nothing but an update moves a payload. */
  lemma {:induction false} PayloadUntouched(s: Db, threshold: nat, es: seq<Event>, id: JobId)
    requires Inv(s, threshold) && id in s.clients && forall e :: e in es ==> !Updates(e, id)
    ensures var t := Run(s, threshold, es); id in t.clients && t.clients[id] == s.clients[id]
    decreases |es|
  {
    if es != [] {
      var t := Apply(s, threshold, es[0]);
      StepTransition(s, threshold, es[0]);
      assert es[0] in es && RowStep(s, t, threshold, es[0], id);
      PayloadUntouched(t, threshold, es[1..], id);
    }
  }

  /** The payload a reschedule leaves is the one every later holder sees until the next update. */
  lemma PayloadReadsBack(s: Db, threshold: nat, id: JobId, lease: Option<LeaseId>, worker: string, req: RescheduleRequest,
                         es: seq<Event>)
    requires Inv(s, threshold) && Reschedule(s, threshold, id, lease, worker, req).Ok?
    requires forall e :: e in es ==> !Updates(e, id)
    ensures var t := Run(Reschedule(s, threshold, id, lease, worker, req).value, threshold, es);
            && id in s.clients && id in t.clients
            && (req.update.Some? ==> t.clients[id] == Client(req.update.value.payload, s.clients[id].revision + 1))
            && (req.update.None? ==> t.clients[id] == s.clients[id])
            && forall held, holder :: Validates(t, id, held, holder) ==> SnapshotOf(t, id).client == t.clients[id]
  {
    RescheduleInv(s, threshold, id, lease, worker, req);
    ReschedulePayload(s, threshold, id, lease, worker, req);
    PayloadUntouched(Reschedule(s, threshold, id, lease, worker, req).value, threshold, es, id);
  }

  /** A new job's payload is the one submitted, at revision 1, or 0 when there is none, until
      its first update. */
  lemma SubmittedPayload(s: Db, threshold: nat, id: JobId, req: SubmitRequest, es: seq<Event>)
    requires Inv(s, threshold) && id !in s.facts && Submit(s, id, req).Ok?
    requires forall e :: e in es ==> !Updates(e, id)
    ensures var t := Run(Submit(s, id, req).value, threshold, es);
            && id in t.clients && t.clients[id] == Client(req.payload, if req.payload.None? then 0 else 1)
            && forall held, holder :: Validates(t, id, held, holder) ==> SnapshotOf(t, id).client == t.clients[id]
  {
    SubmitInv(s, threshold, id, req);
    SubmittedClient(s, id, req);
    PayloadUntouched(Submit(s, id, req).value, threshold, es, id);
  }

  lemma SubmittedClient(s: Db, id: JobId, req: SubmitRequest)
    requires id !in s.facts && Submit(s, id, req).Ok?
    ensures var t := Submit(s, id, req).value; t.clients == s.clients[id := NewClient(req)] && t.now == s.now
  {
    if req.dependencies != [] {
      var inserted := Inserted(s, id, req, SubmittedGoal(req), NormalizeWaitFor(s, req.waitFor).value);
      RegisterRows(inserted, id, WaitRequest(SUBMISSION, req.dependencies, None), true);
      RegisterSaves(inserted, id, WaitRequest(SUBMISSION, req.dependencies, None), true);
    }
  }

  ghost predicate RevisionsFit(s: Db) {
    forall x :: x in s.clients ==> s.clients[x].revision <= MAX_REVISION
  }

  /** In every reachable database each revision fits its 64-bit column: the last one refuses. */
  lemma {:induction false} RunRevisionsFit(s: Db, threshold: nat, es: seq<Event>)
    requires Inv(s, threshold) && RevisionsFit(s)
    ensures RevisionsFit(Run(s, threshold, es))
    decreases |es|
  {
    if es != [] {
      var t := Apply(s, threshold, es[0]);
      StepTransition(s, threshold, es[0]);
      forall x | x in t.clients ensures t.clients[x].revision <= MAX_REVISION {
        assert RowStep(s, t, threshold, es[0], x);
      }
      RunRevisionsFit(t, threshold, es[1..]);
    }
  }

  /** A completion's payload is final. */
  lemma PayloadOutlivesJob(s: Db, threshold: nat, id: JobId, lease: Option<LeaseId>, worker: string,
                           status: CompletionStatus, detail: string, update: Option<PayloadUpdate>, es: seq<Event>)
    requires Inv(s, threshold) && Complete(s, threshold, id, lease, worker, status, detail, update).Ok?
    ensures var t := Run(Complete(s, threshold, id, lease, worker, status, detail, update).value, threshold, es);
            && id in s.clients && id in t.clients
            && t.clients[id] == if update.Some? then Client(update.value.payload, s.clients[id].revision + 1) else s.clients[id]
  {
    var t := Complete(s, threshold, id, lease, worker, status, detail, update).value;
    CompleteInv(s, threshold, id, lease, worker, status, detail, update);
    CompletionPayload(s, threshold, id, lease, worker, status, detail, update);
    CompletePresence(s, threshold, id, lease, worker, status, detail, update);
    assert JobOk(s, threshold, id) && IdentityOk(t, id);
    EndedPayload(t, threshold, es, id);
  }

  lemma {:induction false} EndedPayload(s: Db, threshold: nat, es: seq<Event>, id: JobId)
    requires Inv(s, threshold) && id in s.archive && id in s.clients
    ensures var t := Run(s, threshold, es); id in t.clients && t.clients[id] == s.clients[id]
    decreases |es|
  {
    if es != [] {
      var t := Apply(s, threshold, es[0]);
      StepTransition(s, threshold, es[0]);
      EndedStep(s, t, threshold, es[0], id);
      EndedPayload(t, threshold, es[1..], id);
    }
  }

  lemma EndedStep(s: Db, t: Db, threshold: nat, e: Event, id: JobId)
    requires Transition(s, t, threshold, e) && id in s.archive && id in s.clients
    ensures id in t.archive && id in t.clients && t.clients[id] == s.clients[id]
  {
    assert RowStep(s, t, threshold, e, id) && ArchiveLater(s, t, id);
    forall j | j in s.jobs ensures j !in s.archive { assert JobOk(s, threshold, j); }
    forall j | j in t.jobs ensures j !in t.archive { assert JobOk(t, threshold, j); }
  }
}
