/** One transaction seen from each table: what it can do to a row, a payload, a wait. */
module Transitions {
  import opened Basics
  import opened RunPolicies
  import opened Tables
  import opened Waits
  import opened Steps
  import opened Invariants
  import opened Preservation
  import opened GoalPreservation
  import opened Runs
  import opened Rows

  // ---- Payloads, presence, due waits ---------------------------------------------------------

  /** A payload moves only by the update of a reschedule or a completion of its job, which end
      its lease, and then to the update's document at the next revision. */
  ghost predicate PayloadStep(s: Db, t: Db, e: Event, x: JobId) {
    if x !in s.clients then x in t.clients ==> e.SubmitJob? && e.job == x && t.clients[x] == NewClient(e.submission)
    else
      && x in t.clients
      && (|| t.clients[x] == s.clients[x]
          || (&& e.RescheduleJob? && e.job == x && x in t.jobs && t.jobs[x].lease.None?
              && e.reschedule.update.Some? && MovedTo(s.clients[x], t.clients[x], e.reschedule.update.value))
          || (&& e.CompleteJob? && e.job == x && x in s.jobs && x !in t.jobs
              && e.update.Some? && MovedTo(s.clients[x], t.clients[x], e.update.value)))
  }

  ghost predicate MovedTo(before: Client, after: Client, u: PayloadUpdate) {
    after.payload == u.payload && after.revision == before.revision + 1 && before.revision != MAX_REVISION
  }

  /** What an accepted update leaves of a client's state. */
  ghost predicate UpdatedBy(before: Client, after: Client, u: Option<PayloadUpdate>) {
    if u.Some? then MovedTo(before, after, u.value) else after == before
  }

  /** A row leaves the active table only by completion, cancellation or deletion. */
  ghost predicate PresenceStep(s: Db, t: Db, e: Event, x: JobId) {
    x in s.jobs && x !in t.jobs ==> ((e.CompleteJob? || e.CancelJob?) && e.job == x) || (e.DeleteJobs? && x in e.order)
  }

  /** A wait whose deadline has come can only time out or be cancelled; before that it cannot
      time out, and only its own consumer's end or reschedule cancels it. */
  ghost predicate DueStep(s: Db, t: Db, k: WaitKey, ended: set<JobId>) {
    k in s.waits && s.waits[k].state == Pending ==>
      && k in t.waits
      && (Expired(s.waits[k].deadline, s.now) ==>
            t.waits[k] == s.waits[k] || t.waits[k] == Close(s.waits[k], TimedOut) || t.waits[k] == Close(s.waits[k], WasCancelled))
      && (t.waits[k].state == TimedOut ==> Expired(s.waits[k].deadline, s.now))
      && (t.waits[k].state == WasCancelled ==> k.job in ended)
  }

  /** The consumers whose own waits a call may cancel. */
  function Ended(e: Event): set<JobId> {
    match e
    case RescheduleJob(id, _, _, _) => {id}
    case CompleteJob(id, _, _, _, _, _) => {id}
    case CancelJob(id, _, _) => {id}
    case DeleteJobs(_, order) => set j | j in order
    case _ => {}
  }

  lemma EvaluatedDue(goals: Goals, archive: Archive, now: Time, w: Wait)
    requires w.state == Pending
    ensures var r := Evaluate(goals, archive, now, w);
            && r.state != WasCancelled && (r.state == TimedOut <==> Expired(w.deadline, now))
            && (Expired(w.deadline, now) ==> r == Close(w, TimedOut))
  {
  }

  lemma SettleDue(s: Db, changed: set<Target>, k: WaitKey)
    ensures DueStep(s, Settle(s, changed), k, {})
  {
    if k in s.waits && s.waits[k].state == Pending { EvaluatedDue(s.goals, s.archive, s.now, s.waits[k]); }
  }

  lemma CancelDue(s: Db, job: JobId, keep: Option<WaitId>, k: WaitKey)
    ensures DueStep(s, CancelWaits(s, job, keep), k, {job})
  {
  }

  lemma ExpireDue(s: Db, k: WaitKey)
    ensures DueStep(s, ExpireWaits(s), k, {})
  {
    if k in s.waits && s.waits[k].state == Pending { EvaluatedDue(s.goals, s.archive, s.now, s.waits[k]); }
  }

  lemma SaveDue(s: Db, at: WaitKey, w: Wait, k: WaitKey)
    requires at in s.waits ==> w == s.waits[at]
    ensures DueStep(s, SaveEvaluated(s, at, w), k, {})
  {
    if k in s.waits && s.waits[k].state == Pending { EvaluatedDue(s.goals, s.archive, s.now, s.waits[k]); }
  }

  lemma RegisterDue(s: Db, job: JobId, req: WaitRequest, submission: bool, k: WaitKey)
    requires RegisterWait(s, job, req, submission).Ok?
    ensures DueStep(s, RegisterWait(s, job, req, submission).value, k, {})
  {
    var at := WaitKey(job, req.id);
    RegisterSaves(s, job, req, submission);
    SaveDue(s, at, if at in s.waits then s.waits[at] else NewWait(req), k);
  }

  lemma DueTransitive(s: Db, t: Db, u: Db, k: WaitKey, first: set<JobId>, second: set<JobId>)
    requires DueStep(s, t, k, first) && DueStep(t, u, k, second) && s.now == t.now
    requires k in s.waits ==> k in t.waits && WaitLater(s.waits[k], t.waits[k])
    requires k in t.waits ==> k in u.waits && WaitLater(t.waits[k], u.waits[k])
    ensures DueStep(s, u, k, first + second)
  {
  }

  lemma TerminalDue(s: Db, threshold: nat, id: JobId, status: CompletionStatus, detail: string, k: WaitKey)
    requires Inv(s, threshold) && id in s.jobs
    ensures var t := TerminalStage(s, id, status, detail);
            DueStep(s, t, k, {id}) && s.now == t.now && (k in s.waits ==> k in t.waits && WaitLater(s.waits[k], t.waits[k]))
  {
    CancelDue(s, id, None, k);
    TerminalWaits(s, id, status, detail);
    if k in s.waits { assert Moved(s, TerminalStage(s, id, status, detail), k); }
  }

  lemma SettledDue(t: Db, changed: set<Target>, k: WaitKey)
    ensures var u := Settle(t, changed);
            DueStep(t, u, k, {}) && (k in t.waits ==> k in u.waits && WaitLater(t.waits[k], u.waits[k]))
  {
    SettleDue(t, changed, k);
    if k in t.waits { EvaluateKeeps(t.goals, t.archive, t.now, t.waits[k]); }
  }

  lemma ArchiveDue(s: Db, threshold: nat, id: JobId, status: CompletionStatus, detail: string, k: WaitKey)
    requires Inv(s, threshold) && id in s.jobs
    ensures DueStep(s, ArchiveJob(s, id, status, detail), k, {id})
  {
    var t := TerminalStage(s, id, status, detail);
    TerminalDue(s, threshold, id, status, detail, k);
    SettledDue(t, Announced(s, id, status), k);
    DueTransitive(s, t, Settle(t, Announced(s, id, status)), k, {id}, {});
    assert {id} + {} == {id};
  }

  lemma DeleteOneDue(s: Db, threshold: nat, id: JobId, at: Time, k: WaitKey)
    requires Inv(s, threshold)
    ensures DueStep(s, DeleteOne(s, id, at), k, {id})
  {
    if id in s.facts && s.facts[id].hiddenAt.None? && id in s.jobs {
      ArchiveDue(s, threshold, id, Cancelled, "job deleted", k);
    }
  }

  lemma {:induction false} DeleteAllDue(s: Db, threshold: nat, order: seq<JobId>, at: Time, k: WaitKey)
    requires Inv(s, threshold)
    ensures DueStep(s, DeleteAll(s, order, at), k, set j | j in order)
    decreases |order|
  {
    if order != [] {
      var t := DeleteOne(s, order[0], at);
      DeleteOneInv(s, threshold, order[0], at);
      DeleteOneLater(s, threshold, order[0], at);
      DeleteOneDue(s, threshold, order[0], at, k);
      DeleteAllDue(t, threshold, order[1..], at, k);
      DeleteAllLater(t, threshold, order[1..], at);
      assert k in t.waits ==> StoredLater(t, DeleteAll(t, order[1..], at), k);
      assert k in s.waits ==> StoredLater(s, t, k);
      DueTransitive(s, t, DeleteAll(t, order[1..], at), k, {order[0]}, set j | j in order[1..]);
      assert {order[0]} + (set j | j in order[1..]) == set j | j in order by {
        assert order == [order[0]] + order[1..];
      }
    }
  }

  lemma RescheduleDue(s: Db, threshold: nat, id: JobId, lease: Option<LeaseId>, worker: string, req: RescheduleRequest, k: WaitKey)
    requires Inv(s, threshold) && Reschedule(s, threshold, id, lease, worker, req).Ok?
    ensures DueStep(s, Reschedule(s, threshold, id, lease, worker, req).value, k, {id})
  {
    var u := s.(clients := s.clients[id := UpdateClient(s.clients[id], req.update).value]);
    var keep := if req.wait.Some? then Some(req.wait.value.id) else None;
    var c := CancelWaits(u, id, keep);
    CancelDue(u, id, keep, k);
    if req.wait.Some? {
      RegisterDue(c, id, req.wait.value, false, k);
      RegisterLater(c, id, req.wait.value, false);
      var r := RegisterWait(c, id, req.wait.value, false).value;
      assert k in c.waits ==> StoredLater(c, r, k);
      WaitsOkShaped(s);
      assert Shaped(u) && IndexExact(u);
      CancelAdvances(u, id, keep);
      assert k in u.waits ==> Moved(u, c, k);
      DueTransitive(u, c, r, k, {id}, {});
      assert {id} + {} == {id};
    }
  }

  lemma SubmitDue(s: Db, id: JobId, req: SubmitRequest, k: WaitKey)
    requires Submit(s, id, req).Ok?
    ensures DueStep(s, Submit(s, id, req).value, k, {})
  {
    if id !in s.facts && req.dependencies != [] {
      var goal := SubmittedGoal(req);
      var inserted := Inserted(s, id, req, goal, NormalizeWaitFor(s, req.waitFor).value);
      RegisterDue(inserted, id, WaitRequest(SUBMISSION, req.dependencies, None), true, k);
    }
  }

  lemma CompleteDue(s: Db, threshold: nat, id: JobId, lease: Option<LeaseId>, worker: string,
                    status: CompletionStatus, detail: string, update: Option<PayloadUpdate>, k: WaitKey)
    requires Inv(s, threshold) && Complete(s, threshold, id, lease, worker, status, detail, update).Ok?
    ensures DueStep(s, Complete(s, threshold, id, lease, worker, status, detail, update).value, k, {id})
  {
    if lease.None? {
      ArchiveDue(s, threshold, id, status, detail, k);
    } else {
      var c := UpdateClient(s.clients[id], update).value;
      ClientUpdateInv(s, threshold, id, c);
      ArchiveDue(s.(clients := s.clients[id := c]), threshold, id, status, detail, k);
    }
  }

  lemma AttachDue(s: Db, g: GoalId, j: JobId, k: WaitKey)
    requires AddCandidate(s, g, j).Ok?
    ensures DueStep(s, AddCandidate(s, g, j).value, k, {})
  {
    SettleDue(s.(candidates := s.candidates + {(g, j)}, goals := ResolveGoals(s.goals, s.now, {g}, j)), {GoalTarget(g)}, k);
  }

  lemma FailDue(s: Db, g: GoalId, message: string, k: WaitKey)
    requires FailGoal(s, g, message).Ok?
    ensures DueStep(s, FailGoal(s, g, message).value, k, {})
  {
    if g in s.goals {
      var closed := s.goals[g].(state := Failed, revision := 2, failure := Some(FailureSnapshot(s, g, message)),
                                closedAt := Some(s.now));
      SettleDue(s.(goals := s.goals[g := closed]), {GoalTarget(g)}, k);
    }
  }

  lemma StepDueWrites(s: Db, threshold: nat, e: Event, k: WaitKey)
    requires Inv(s, threshold) && Attempt(s, threshold, e).Ok?
    requires e.SubmitJob? || e.RescheduleJob? || e.CompleteJob? || e.CancelJob? || e.DeleteJobs?
    ensures DueStep(s, Apply(s, threshold, e), k, Ended(e))
  {
    match e {
      case SubmitJob(id, r) => SubmitDue(s, id, r, k);
      case RescheduleJob(id, l, w, r) => RescheduleDue(s, threshold, id, l, w, r, k);
      case CompleteJob(id, l, w, st, d, u) => CompleteDue(s, threshold, id, l, w, st, d, u, k);
      case CancelJob(id, w, d) => ArchiveDue(s, threshold, id, Cancelled, d, k);
      case DeleteJobs(r, order) => DeleteAllDue(s, threshold, order, r.at, k);
    }
  }

  lemma StepDueOther(s: Db, threshold: nat, e: Event, k: WaitKey)
    requires Attempt(s, threshold, e).Ok?
    requires !(e.SubmitJob? || e.RescheduleJob? || e.CompleteJob? || e.CancelJob? || e.DeleteJobs?)
    ensures DueStep(s, Apply(s, threshold, e), k, Ended(e))
  {
    match e {
      case AcquireWork(id, r) => ExpireDue(s, k);
      case ClaimWaitingTask(id, r) => ExpireDue(s, k);
      case AttachCandidate(g, j) => AttachDue(s, g, j, k);
      case CloseGoal(g, m) => FailDue(s, g, m, k);
      case RenewLease(id, l, w, n) =>
      case ClearCrashConcern(id) =>
      case Tick(n) =>
    }
  }

  lemma StepDue(s: Db, threshold: nat, e: Event, k: WaitKey)
    requires Inv(s, threshold)
    ensures DueStep(s, Apply(s, threshold, e), k, Ended(e))
  {
    if Attempt(s, threshold, e).Ok? {
      if e.SubmitJob? || e.RescheduleJob? || e.CompleteJob? || e.CancelJob? || e.DeleteJobs? {
        StepDueWrites(s, threshold, e, k);
      } else {
        StepDueOther(s, threshold, e, k);
      }
    }
  }

  lemma {:induction false} DeleteAllPresence(s: Db, order: seq<JobId>, at: Time, x: JobId)
    ensures DeleteAll(s, order, at).clients == s.clients
    ensures x in s.jobs && x !in order ==> x in DeleteAll(s, order, at).jobs
    decreases |order|
  {
    if order != [] {
      DeleteAllPresence(DeleteOne(s, order[0], at), order[1..], at, x);
    }
  }

  lemma SubmitPresence(s: Db, threshold: nat, id: JobId, req: SubmitRequest, x: JobId)
    requires Inv(s, threshold) && Submit(s, id, req).Ok?
    ensures var t := Submit(s, id, req).value;
            if x in s.clients then x in t.clients && t.clients[x] == s.clients[x]
            else x in t.clients ==> x == id && t.clients[x] == NewClient(req)
    ensures x in s.jobs ==> x in Submit(s, id, req).value.jobs
  {
    if id !in s.facts {
      var goal := SubmittedGoal(req);
      var inserted := Inserted(s, id, req, goal, NormalizeWaitFor(s, req.waitFor).value);
      if req.dependencies != [] {
        RegisterRows(inserted, id, WaitRequest(SUBMISSION, req.dependencies, None), true);
      }
    }
  }

  lemma ReschedulePresence(s: Db, threshold: nat, id: JobId, lease: Option<LeaseId>, worker: string, req: RescheduleRequest, x: JobId)
    requires Reschedule(s, threshold, id, lease, worker, req).Ok?
    ensures var t := Reschedule(s, threshold, id, lease, worker, req).value;
            && (x in s.clients ==> x in t.clients && (x != id ==> t.clients[x] == s.clients[x]))
            && (x in t.clients ==> x in s.clients)
            && id in s.clients && id in t.clients && UpdatedBy(s.clients[id], t.clients[id], req.update)
            && (x in s.jobs ==> x in t.jobs) && id in t.jobs && t.jobs[id].lease.None?
  {
    var u := s.(clients := s.clients[id := UpdateClient(s.clients[id], req.update).value]);
    if req.wait.Some? {
      RegisterRows(CancelWaits(u, id, Some(req.wait.value.id)), id, req.wait.value, false);
    }
  }

  lemma StepPresenceWrites(s: Db, threshold: nat, e: Event, x: JobId)
    requires Inv(s, threshold) && Attempt(s, threshold, e).Ok? && (e.SubmitJob? || e.RescheduleJob? || e.DeleteJobs?)
    ensures PayloadStep(s, Apply(s, threshold, e), e, x) && PresenceStep(s, Apply(s, threshold, e), e, x)
  {
    match e {
      case SubmitJob(id, r) => SubmitPresence(s, threshold, id, r, x);
      case RescheduleJob(id, l, w, r) => ReschedulePresence(s, threshold, id, l, w, r, x);
      case DeleteJobs(r, order) => DeleteAllPresence(s, order, r.at, x);
    }
  }

  lemma ArchivePresence(s: Db, id: JobId, status: CompletionStatus, detail: string)
    requires id in s.jobs
    ensures ArchiveJob(s, id, status, detail).clients == s.clients
    ensures ArchiveJob(s, id, status, detail).jobs.Keys == s.jobs.Keys - {id}
  {
  }

  lemma CompletePresence(s: Db, threshold: nat, id: JobId, lease: Option<LeaseId>, worker: string,
                         status: CompletionStatus, detail: string, update: Option<PayloadUpdate>)
    requires Complete(s, threshold, id, lease, worker, status, detail, update).Ok?
    ensures var t := Complete(s, threshold, id, lease, worker, status, detail, update).value;
            && id in s.clients && id in t.clients && t.clients == s.clients[id := t.clients[id]] && t.jobs.Keys == s.jobs.Keys - {id}
            && id in s.jobs && UpdatedBy(s.clients[id], t.clients[id], update)
  {
    if lease.None? {
      ArchivePresence(s, id, status, detail);
      assert s.clients == s.clients[id := s.clients[id]];
    } else {
      ArchivePresence(s.(clients := s.clients[id := UpdateClient(s.clients[id], update).value]), id, status, detail);
    }
  }

  lemma StepPresenceArchive(s: Db, threshold: nat, e: Event, x: JobId)
    requires Attempt(s, threshold, e).Ok? && (e.CompleteJob? || e.CancelJob?)
    ensures PayloadStep(s, Apply(s, threshold, e), e, x) && PresenceStep(s, Apply(s, threshold, e), e, x)
  {
    match e {
      case CompleteJob(id, l, w, st, d, u) => CompletePresence(s, threshold, id, l, w, st, d, u);
      case CancelJob(id, w, d) => ArchivePresence(s, id, Cancelled, d);
    }
  }

  lemma StepPresenceGrants(s: Db, threshold: nat, e: Event, x: JobId)
    requires e.AcquireWork? || e.ClaimWaitingTask? || e.RenewLease? || e.ClearCrashConcern? || e.Tick?
    ensures PayloadStep(s, Apply(s, threshold, e), e, x) && PresenceStep(s, Apply(s, threshold, e), e, x)
  {
  }

  lemma StepPresence(s: Db, threshold: nat, e: Event, x: JobId)
    requires Inv(s, threshold)
    ensures PayloadStep(s, Apply(s, threshold, e), e, x) && PresenceStep(s, Apply(s, threshold, e), e, x)
  {
    if Attempt(s, threshold, e).Ok? {
      if e.SubmitJob? || e.RescheduleJob? || e.DeleteJobs? {
        StepPresenceWrites(s, threshold, e, x);
      } else if e.CompleteJob? || e.CancelJob? {
        StepPresenceArchive(s, threshold, e, x);
      } else if e.AttachCandidate? || e.CloseGoal? {
        SettleRows(s, threshold, e);
      } else {
        StepPresenceGrants(s, threshold, e, x);
      }
    }
  }

  /** New facts come only from the submission that names them, for an open or new goal and
      under a parent that is not deleted. */
  ghost predicate FactStep(s: Db, t: Db, e: Event, x: JobId) {
    x in t.facts && x !in s.facts ==>
      && e.SubmitJob? && e.job == x && t.facts[x] == NewFacts(e.submission, SubmittedGoal(e.submission), s.now)
      && !ParentHidden(s, e.submission)
      && var g := SubmittedGoal(e.submission);
         g in s.goals ==> s.goals[g].state == Open
  }

  lemma {:induction false} DeleteAllFacts(s: Db, order: seq<JobId>, at: Time)
    ensures DeleteAll(s, order, at).facts.Keys == s.facts.Keys
    decreases |order|
  {
    if order != [] {
      var t := DeleteOne(s, order[0], at);
      assert t.facts.Keys == s.facts.Keys;
      DeleteAllFacts(t, order[1..], at);
    }
  }

  lemma SubmitFacts(s: Db, id: JobId, req: SubmitRequest)
    requires Submit(s, id, req).Ok? && id !in s.facts
    ensures Submit(s, id, req).value.facts == s.facts[id := NewFacts(req, SubmittedGoal(req), s.now)]
  {
    var goal := SubmittedGoal(req);
    var inserted := Inserted(s, id, req, goal, NormalizeWaitFor(s, req.waitFor).value);
    if req.dependencies != [] {
      RegisterRows(inserted, id, WaitRequest(SUBMISSION, req.dependencies, None), true);
    }
    assert Submit(s, id, req).value.facts == s.facts[id := NewFacts(req, goal, s.now)];
  }

  lemma RescheduleFacts(s: Db, threshold: nat, id: JobId, lease: Option<LeaseId>, worker: string, req: RescheduleRequest)
    requires Reschedule(s, threshold, id, lease, worker, req).Ok?
    ensures Reschedule(s, threshold, id, lease, worker, req).value.facts == s.facts
  {
    if req.wait.Some? {
      var u := s.(clients := s.clients[id := UpdateClient(s.clients[id], req.update).value]);
      RegisterRows(CancelWaits(u, id, Some(req.wait.value.id)), id, req.wait.value, false);
    }
  }

  lemma StepFactsWrites(s: Db, threshold: nat, e: Event, x: JobId)
    requires e.SubmitJob? || e.RescheduleJob? || e.DeleteJobs?
    ensures FactStep(s, Apply(s, threshold, e), e, x)
  {
    if Attempt(s, threshold, e).Ok? {
      match e {
        case SubmitJob(id, r) => if id !in s.facts { SubmitFacts(s, id, r); }
        case RescheduleJob(id, l, w, r) => RescheduleFacts(s, threshold, id, l, w, r);
        case DeleteJobs(r, order) => DeleteAllFacts(s, order, r.at);
      }
    }
  }

  lemma StepFactsArchive(s: Db, threshold: nat, e: Event)
    requires e.CompleteJob? || e.CancelJob?
    ensures Apply(s, threshold, e).facts == s.facts
  {
  }

  lemma StepFactsGrants(s: Db, threshold: nat, e: Event)
    requires e.AcquireWork? || e.ClaimWaitingTask? || e.RenewLease? || e.ClearCrashConcern? || e.Tick?
    ensures Apply(s, threshold, e).facts == s.facts
  {
  }

  lemma StepFacts(s: Db, threshold: nat, e: Event, x: JobId)
    ensures FactStep(s, Apply(s, threshold, e), e, x)
  {
    if e.SubmitJob? || e.RescheduleJob? || e.DeleteJobs? {
      StepFactsWrites(s, threshold, e, x);
    } else if e.CompleteJob? || e.CancelJob? {
      StepFactsArchive(s, threshold, e);
    } else if e.AttachCandidate? || e.CloseGoal? {
      SettleRows(s, threshold, e);
    } else {
      StepFactsGrants(s, threshold, e);
    }
  }

  // ---- Outcomes, goals, candidates -----------------------------------------------------------------

  /** A job is archived only by the named caller that ends it, with that call's status and detail. */
  ghost predicate OutcomeStep(s: Db, t: Db, e: Event, z: JobId) {
    z in t.archive && z !in s.archive ==>
      || (e.CompleteJob? && e.job == z && e.worker != "" && t.archive[z].status == e.status && t.archive[z].detail == e.detail)
      || (e.CancelJob? && e.job == z && e.worker != "" && t.archive[z].status == Cancelled && t.archive[z].detail == e.detail)
      || (e.DeleteJobs? && z in e.order && t.archive[z].status == Cancelled)
  }

  /** Only FailGoal fails a goal, only a success wins one, and only a submission makes one. */
  ghost predicate GoalStep(s: Db, t: Db, e: Event, g: GoalId) {
    && (g in s.goals && s.goals[g].state == Open && g in t.goals && t.goals[g].state == Failed ==>
          e.CloseGoal? && e.goal == g && FailedAs(s, t.goals[g], g, e.message))
    && (g in s.goals && s.goals[g].state == Open && g in t.goals && t.goals[g].state == Succeeded ==>
          && t.goals[g].closedAt == Some(s.now)
          && ((e.CompleteJob? && e.status == Success) || (e.AttachCandidate? && e.goal == g))
          && t.goals[g].winner == Some(e.job))
    && (g in t.goals && g !in s.goals ==>
          e.SubmitJob? && g == SubmittedGoal(e.submission) && t.goals[g].state == Open && t.goals[g].createdAt == s.now)
  }

  /** The goal was failed by a call on `s`: its record says which members had ended by then. */
  ghost predicate FailedAs(s: Db, goal: Goal, g: GoalId, message: string) {
    && goal.failure.Some? && goal.failure.value.GoalFailure? && goal.closedAt == Some(s.now)
    && var f := goal.failure.value;
    && f.goal == g && f.message == message && message != "" && f.failedAt == s.now
    && (forall m :: m in f.terminal <==> m in Members(s, g) && m in s.archive)
    && (forall m :: m in f.nonTerminal <==> m in Members(s, g) && m !in s.archive)
  }

  /** Only an attachment adds a candidate, only the one it names, and only to an open goal. */
  ghost predicate CandidateStep(s: Db, t: Db, e: Event) {
    || t.candidates == s.candidates
    || (&& e.AttachCandidate? && t.candidates <= s.candidates + {(e.goal, e.job)}
        && e.goal in s.goals && s.goals[e.goal].state == Open)
  }

  ghost predicate OthersStep(s: Db, t: Db, e: Event) {
    && (forall z {:trigger OutcomeStep(s, t, e, z)} :: OutcomeStep(s, t, e, z))
    && (forall g {:trigger GoalStep(s, t, e, g)} :: GoalStep(s, t, e, g))
    && CandidateStep(s, t, e)
  }

  ghost predicate Untouched(s: Db, t: Db) {
    t.archive == s.archive && t.goals == s.goals && t.candidates == s.candidates
  }

  lemma UntouchedOthers(s: Db, t: Db, e: Event)
    requires Untouched(s, t)
    ensures OthersStep(s, t, e)
  {
  }

  lemma ArchiveOthers(s: Db, id: JobId, status: CompletionStatus, detail: string)
    requires id in s.jobs
    ensures var t := ArchiveJob(s, id, status, detail);
            && t.candidates == s.candidates && t.goals.Keys == s.goals.Keys
            && t.archive.Keys == s.archive.Keys + {id} && t.archive[id].status == status
            && (forall z :: z in s.archive && z != id ==> t.archive[z] == s.archive[z])
            && (forall g :: g in s.goals && s.goals[g].state == Open && g in t.goals ==> t.goals[g].state != Failed)
            && (forall g :: g in t.goals && t.goals[g].state == Open ==> g in s.goals && s.goals[g].state == Open)
            && (forall g :: g in s.goals && s.goals[g].state == Open && t.goals[g].state != Open ==>
                  status == Success && t.goals[g].winner == Some(id) && t.goals[g].closedAt == Some(s.now))
            && t.archive[id].detail == detail
  {
  }

  lemma {:induction false} DeleteAllOthers(s: Db, threshold: nat, order: seq<JobId>, at: Time)
    requires Inv(s, threshold)
    ensures var t := DeleteAll(s, order, at);
            && t.candidates == s.candidates && t.goals.Keys == s.goals.Keys
            && (forall z :: z in t.archive && z !in s.archive ==> z in order && t.archive[z].status == Cancelled)
            && (forall g :: g in s.goals && s.goals[g].state == Open && g in t.goals ==> t.goals[g].state == Open)
    decreases |order|
  {
    if order != [] {
      var t := DeleteOne(s, order[0], at);
      var u := DeleteAll(t, order[1..], at);
      DeleteOneInv(s, threshold, order[0], at);
      DeleteAllOthers(t, threshold, order[1..], at);
      DeleteAllLater(t, threshold, order[1..], at);
      DeleteOneOthers(s, threshold, order[0], at);
      forall z | z in t.archive ensures z in u.archive && u.archive[z] == t.archive[z] { assert ArchiveLater(t, u, z); }
    }
  }

  lemma DeleteOneOthers(s: Db, threshold: nat, id: JobId, at: Time)
    requires Inv(s, threshold)
    ensures var t := DeleteOne(s, id, at);
            && t.candidates == s.candidates && t.goals.Keys == s.goals.Keys
            && (forall z :: z in t.archive && z !in s.archive ==> z == id && t.archive[z].status == Cancelled)
            && (forall g :: g in s.goals && s.goals[g].state == Open ==> t.goals[g].state == Open)
  {
    if id in s.facts && s.facts[id].hiddenAt.None? && id in s.jobs {
      ArchiveOthers(s, id, Cancelled, "job deleted");
      assert ResolvedBy(s, id, Cancelled) == {};
    }
  }

  lemma CompleteOthers(s: Db, threshold: nat, e: Event)
    requires e.CompleteJob? && Complete(s, threshold, e.job, e.holder, e.worker, e.status, e.detail, e.update).Ok?
    ensures OthersStep(s, Complete(s, threshold, e.job, e.holder, e.worker, e.status, e.detail, e.update).value, e)
  {
    if e.holder.None? {
      ArchiveOthers(s, e.job, e.status, e.detail);
    } else {
      var c := UpdateClient(s.clients[e.job], e.update).value;
      ArchiveOthers(s.(clients := s.clients[e.job := c]), e.job, e.status, e.detail);
    }
  }

  lemma SubmitOthers(s: Db, id: JobId, req: SubmitRequest)
    requires Submit(s, id, req).Ok?
    ensures var t := Submit(s, id, req).value;
            t.archive == s.archive && t.candidates == s.candidates && t.goals.Keys <= s.goals.Keys + {SubmittedGoal(req)}
            && (forall g :: g in s.goals && s.goals[g].state == Open ==> g in t.goals && t.goals[g].state == Open)
            && forall g :: g in t.goals && g !in s.goals ==> t.goals[g].state == Open && t.goals[g].createdAt == s.now
  {
    if id !in s.facts && req.dependencies != [] {
      var goal := SubmittedGoal(req);
      var inserted := Inserted(s, id, req, goal, NormalizeWaitFor(s, req.waitFor).value);
      RegisterSaves(inserted, id, WaitRequest(SUBMISSION, req.dependencies, None), true);
    }
  }

  lemma RescheduleOthers(s: Db, threshold: nat, id: JobId, lease: Option<LeaseId>, worker: string, req: RescheduleRequest)
    requires Reschedule(s, threshold, id, lease, worker, req).Ok?
    ensures Untouched(s, Reschedule(s, threshold, id, lease, worker, req).value)
  {
    if req.wait.Some? {
      var u := s.(clients := s.clients[id := UpdateClient(s.clients[id], req.update).value]);
      RegisterSaves(CancelWaits(u, id, Some(req.wait.value.id)), id, req.wait.value, false);
    }
  }

  lemma AttachOthers(s: Db, g: GoalId, j: JobId)
    requires AddCandidate(s, g, j).Ok?
    ensures OthersStep(s, AddCandidate(s, g, j).value, AttachCandidate(g, j))
  {
  }

  lemma FailOthers(s: Db, g: GoalId, message: string)
    requires FailGoal(s, g, message).Ok?
    ensures OthersStep(s, FailGoal(s, g, message).value, CloseGoal(g, message))
  {
  }

  lemma StepOthersEnds(s: Db, threshold: nat, e: Event)
    requires Inv(s, threshold) && Attempt(s, threshold, e).Ok? && (e.CompleteJob? || e.CancelJob? || e.DeleteJobs?)
    ensures OthersStep(s, Apply(s, threshold, e), e)
  {
    match e {
      case CompleteJob(_, _, _, _, _, _) => CompleteOthers(s, threshold, e);
      case CancelJob(id, w, d) => ArchiveOthers(s, id, Cancelled, d);
      case DeleteJobs(r, order) => DeleteAllOthers(s, threshold, order, r.at);
    }
  }

  lemma StepOthersWrites(s: Db, threshold: nat, e: Event)
    requires Attempt(s, threshold, e).Ok? && (e.SubmitJob? || e.RescheduleJob?)
    ensures OthersStep(s, Apply(s, threshold, e), e)
  {
    match e {
      case SubmitJob(id, r) => SubmitOthers(s, id, r);
      case RescheduleJob(id, l, w, r) => RescheduleOthers(s, threshold, id, l, w, r);
    }
  }

  lemma StepOthersGoals(s: Db, threshold: nat, e: Event)
    requires Attempt(s, threshold, e).Ok? && (e.AttachCandidate? || e.CloseGoal?)
    ensures OthersStep(s, Apply(s, threshold, e), e)
  {
    match e {
      case AttachCandidate(g, j) => AttachOthers(s, g, j);
      case CloseGoal(g, m) => FailOthers(s, g, m);
    }
  }

  lemma GrantsUntouched(s: Db, threshold: nat, e: Event)
    requires e.AcquireWork? || e.ClaimWaitingTask?
    ensures Untouched(s, Apply(s, threshold, e))
  {
  }

  lemma LeasesUntouched(s: Db, threshold: nat, e: Event)
    requires e.RenewLease? || e.ClearCrashConcern? || e.Tick?
    ensures Untouched(s, Apply(s, threshold, e))
  {
  }

  lemma StepOthers(s: Db, threshold: nat, e: Event)
    requires Inv(s, threshold)
    ensures OthersStep(s, Apply(s, threshold, e), e)
  {
    if Attempt(s, threshold, e).Err? {
      UntouchedOthers(s, s, e);
    } else if e.CompleteJob? || e.CancelJob? || e.DeleteJobs? {
      StepOthersEnds(s, threshold, e);
    } else if e.SubmitJob? || e.RescheduleJob? {
      StepOthersWrites(s, threshold, e);
    } else if e.AttachCandidate? || e.CloseGoal? {
      StepOthersGoals(s, threshold, e);
    } else {
      if e.AcquireWork? || e.ClaimWaitingTask? { GrantsUntouched(s, threshold, e); } else { LeasesUntouched(s, threshold, e); }
      UntouchedOthers(s, Apply(s, threshold, e), e);
    }
  }

  // ---- The whole transaction -------------------------------------------------------------------

  ghost predicate RowStep(s: Db, t: Db, threshold: nat, e: Event, x: JobId) {
    && (x in t.jobs ==> Kept(s, t, x) || Rewritten(s, t, threshold, e, x))
    && PresenceStep(s, t, e, x) && PayloadStep(s, t, e, x) && FactStep(s, t, e, x)
  }

  /** What every transaction, committed or rolled back, leaves behind. */
  ghost predicate Transition(s: Db, t: Db, threshold: nat, e: Event) {
    && Inv(s, threshold) && Inv(t, threshold) && Later(s, t)
    && (forall x {:trigger RowStep(s, t, threshold, e, x)} :: RowStep(s, t, threshold, e, x))
    && (forall k {:trigger DueStep(s, t, k, Ended(e))} :: DueStep(s, t, k, Ended(e)))
    && OthersStep(s, t, e)
  }

  lemma StepTransition(s: Db, threshold: nat, e: Event)
    requires Inv(s, threshold)
    ensures Transition(s, Apply(s, threshold, e), threshold, e)
  {
    var t := Apply(s, threshold, e);
    StepInv(s, threshold, e);
    StepLater(s, threshold, e);
    forall x ensures RowStep(s, t, threshold, e, x) {
      StepPresence(s, threshold, e, x);
      StepFacts(s, threshold, e, x);
      if x in t.jobs { RowAfter(s, threshold, e, x); }
    }
    StepOthers(s, threshold, e);
    forall k ensures DueStep(s, t, k, Ended(e)) { StepDue(s, threshold, e, k); }
  }

  lemma PointerStep(s: Db, t: Db, threshold: nat, e: Event, x: JobId)
    requires Transition(s, t, threshold, e) && x in t.jobs && (x in s.jobs ==> PointerOk(s, x))
    ensures PointerOk(t, x)
  {
    assert RowStep(s, t, threshold, e, x);
    if x in s.jobs && s.jobs[x].dependencyWait.Some? {
      assert StoredLater(s, t, WaitKey(x, s.jobs[x].dependencyWait.value));
    }
  }

  ghost predicate Pointed(s: Db) {
    forall x {:trigger PointerOk(s, x)} :: x in s.jobs ==> PointerOk(s, x)
  }

  /** In every reachable database a job's dependency wait is a stored row. */
  lemma {:induction false} RunPointed(s: Db, threshold: nat, es: seq<Event>)
    requires Inv(s, threshold) && Pointed(s)
    ensures Pointed(Run(s, threshold, es))
    decreases |es|
  {
    if es != [] {
      var t := Apply(s, threshold, es[0]);
      StepTransition(s, threshold, es[0]);
      forall x | x in t.jobs ensures PointerOk(t, x) {
        if x in s.jobs { assert PointerOk(s, x); }
        PointerStep(s, t, threshold, es[0], x);
      }
      RunPointed(t, threshold, es[1..]);
    }
  }
}
