/** No wait is ever told a wrong outcome: each decided binding agrees with the archive and
    the goals, in every reachable database. */
module Truths {
  import opened Basics
  import opened RunPolicies
  import opened Tables
  import opened Waits
  import opened Steps
  import opened Invariants
  import opened Preservation
  import opened GoalPreservation
  import opened Runs

  ghost predicate Truthful(goals: Goals, archive: Archive, b: Binding) {
    match b.state
    case Satisfied =>
      (match b.dependency.target
       case JobTarget(j) =>
         && j in archive && b.satisfiedBy == Some(j)
         && (archive[j].status == Success || b.dependency.condition == OnComplete)
       case GoalTarget(g) => g in goals && goals[g].state == Succeeded && b.satisfiedBy == goals[g].winner)
    case DidFail =>
      (match b.dependency.target
       case JobTarget(j) =>
         && j in archive && b.failure == Some(JobFailure(j))
         && archive[j].status != Success && b.dependency.condition == OnSuccess
       case GoalTarget(g) => g in goals && goals[g].state == Failed && b.failure == goals[g].failure)
    case _ => true
  }

  ghost predicate AllTruthful(goals: Goals, archive: Archive, w: Wait) {
    forall i :: 0 <= i < |w.bindings| ==> Truthful(goals, archive, w.bindings[i])
  }

  ghost predicate WaitTrue(s: Db, k: WaitKey)
    requires k in s.waits
  {
    AllTruthful(s.goals, s.archive, s.waits[k])
  }

  ghost predicate NoLies(s: Db) {
    forall k {:trigger WaitTrue(s, k)} :: k in s.waits ==> WaitTrue(s, k)
  }

  lemma EvaluateTrue(goals: Goals, archive: Archive, now: Time, w: Wait)
    requires AllTruthful(goals, archive, w)
    ensures AllTruthful(goals, archive, Evaluate(goals, archive, now, w))
  {
  }

  lemma SaveTrue(s: Db, ws: map<WaitKey, Wait>)
    requires NoLies(s) && forall k :: k in ws ==> AllTruthful(s.goals, s.archive, ws[k])
    ensures NoLies(SaveWaits(s, ws))
  {
    var t := SaveWaits(s, ws);
    forall k | k in t.waits ensures WaitTrue(t, k) {
      if k !in ws { assert WaitTrue(s, k); }
    }
  }

  lemma SettleTrue(s: Db, changed: set<Target>)
    requires NoLies(s)
    ensures NoLies(Settle(s, changed))
  {
    var ws := Touched(s, changed);
    forall k | k in ws ensures AllTruthful(s.goals, s.archive, ws[k]) {
      assert WaitTrue(s, k);
      EvaluateTrue(s.goals, s.archive, s.now, s.waits[k]);
    }
    SaveTrue(s, ws);
  }

  lemma CancelTrue(s: Db, job: JobId, keep: Option<WaitId>)
    requires NoLies(s)
    ensures NoLies(CancelWaits(s, job, keep))
  {
    var ws := CancelledWaits(s, job, keep);
    forall k | k in ws ensures AllTruthful(s.goals, s.archive, ws[k]) { assert WaitTrue(s, k); }
    SaveTrue(s, ws);
  }

  lemma ExpireTrue(s: Db)
    requires NoLies(s)
    ensures NoLies(ExpireWaits(s))
  {
    var ws := DueWaits(s);
    forall k | k in ws ensures AllTruthful(s.goals, s.archive, ws[k]) {
      assert WaitTrue(s, k);
      EvaluateTrue(s.goals, s.archive, s.now, s.waits[k]);
    }
    SaveTrue(s, ws);
  }

  /** Outcomes already given are still given. */
  ghost predicate Grown(s: Db, t: Db) {
    && (forall j :: j in s.archive ==> j in t.archive && t.archive[j] == s.archive[j])
    && (forall g :: g in s.goals && s.goals[g].state != Open ==> g in t.goals && t.goals[g] == s.goals[g])
  }

  lemma GrownTrue(s: Db, t: Db)
    requires NoLies(s) && t.waits == s.waits && Grown(s, t)
    ensures NoLies(t)
  {
    forall k | k in t.waits ensures WaitTrue(t, k) {
      assert WaitTrue(s, k);
      forall i | 0 <= i < |t.waits[k].bindings| ensures Truthful(t.goals, t.archive, t.waits[k].bindings[i]) {
        assert Truthful(s.goals, s.archive, s.waits[k].bindings[i]);
      }
    }
  }

  lemma RegisterTrue(s: Db, job: JobId, req: WaitRequest, submission: bool)
    requires NoLies(s) && RegisterWait(s, job, req, submission).Ok?
    ensures NoLies(RegisterWait(s, job, req, submission).value)
  {
    var k := WaitKey(job, req.id);
    var w := if k in s.waits then s.waits[k] else NewWait(req);
    if k in s.waits { assert WaitTrue(s, k); }
    EvaluateTrue(s.goals, s.archive, s.now, w);
    SaveTrue(s, map[k := Evaluate(s.goals, s.archive, s.now, w)]);
  }

  lemma ArchiveTrue(s: Db, threshold: nat, id: JobId, status: CompletionStatus, detail: string)
    requires Inv(s, threshold) && NoLies(s) && id in s.jobs
    ensures NoLies(ArchiveJob(s, id, status, detail))
  {
    assert JobOk(s, threshold, id);
    var j := s.jobs[id];
    var a := s.(archive := s.archive[id := Archived(j.goal, status, detail, j.route, j.alternate)]);
    GrownTrue(s, a);
    CancelTrue(a, id, None);
    var t := TerminalStage(s, id, status, detail);
    GrownTrue(CancelWaits(a, id, None), t);
    SettleTrue(t, Announced(s, id, status));
    GrownTrue(Settle(t, Announced(s, id, status)), ArchiveJob(s, id, status, detail));
  }

  lemma DeleteOneTrue(s: Db, threshold: nat, id: JobId, at: Time)
    requires Inv(s, threshold) && NoLies(s)
    ensures NoLies(DeleteOne(s, id, at))
  {
    if id in s.facts && s.facts[id].hiddenAt.None? {
      if id in s.jobs {
        ArchiveTrue(s, threshold, id, Cancelled, "job deleted");
        GrownTrue(ArchiveJob(s, id, Cancelled, "job deleted"), DeleteOne(s, id, at));
      } else {
        GrownTrue(s, DeleteOne(s, id, at));
      }
    }
  }

  lemma {:induction false} DeleteAllTrue(s: Db, threshold: nat, order: seq<JobId>, at: Time)
    requires Inv(s, threshold) && NoLies(s)
    ensures NoLies(DeleteAll(s, order, at))
    decreases |order|
  {
    if order != [] {
      DeleteOneInv(s, threshold, order[0], at);
      DeleteOneTrue(s, threshold, order[0], at);
      DeleteAllTrue(DeleteOne(s, order[0], at), threshold, order[1..], at);
    }
  }

  lemma CompleteTrue(s: Db, threshold: nat, id: JobId, lease: Option<LeaseId>, worker: string,
                     status: CompletionStatus, detail: string, update: Option<PayloadUpdate>)
    requires Inv(s, threshold) && NoLies(s) && Complete(s, threshold, id, lease, worker, status, detail, update).Ok?
    ensures NoLies(Complete(s, threshold, id, lease, worker, status, detail, update).value)
  {
    if lease.None? {
      ArchiveTrue(s, threshold, id, status, detail);
    } else {
      var c := UpdateClient(s.clients[id], update).value;
      var u := s.(clients := s.clients[id := c]);
      ClientUpdateInv(s, threshold, id, c);
      GrownTrue(s, u);
      ArchiveTrue(u, threshold, id, status, detail);
    }
  }

  lemma RescheduleTrue(s: Db, threshold: nat, id: JobId, lease: Option<LeaseId>, worker: string, req: RescheduleRequest)
    requires NoLies(s) && Reschedule(s, threshold, id, lease, worker, req).Ok?
    ensures NoLies(Reschedule(s, threshold, id, lease, worker, req).value)
  {
    var u := s.(clients := s.clients[id := UpdateClient(s.clients[id], req.update).value]);
    var keep := if req.wait.Some? then Some(req.wait.value.id) else None;
    GrownTrue(s, u);
    CancelTrue(u, id, keep);
    var r := CancelWaits(u, id, keep);
    if req.wait.Some? {
      RegisterTrue(r, id, req.wait.value, false);
      r := RegisterWait(r, id, req.wait.value, false).value;
    }
    GrownTrue(r, Reschedule(s, threshold, id, lease, worker, req).value);
  }

  lemma SubmitTrue(s: Db, threshold: nat, id: JobId, req: SubmitRequest)
    requires Inv(s, threshold) && NoLies(s) && Submit(s, id, req).Ok?
    ensures NoLies(Submit(s, id, req).value)
  {
    if id !in s.facts {
      var goal := SubmittedGoal(req);
      var inserted := Inserted(s, id, req, goal, NormalizeWaitFor(s, req.waitFor).value);
      GrownTrue(s, inserted);
      if req.dependencies != [] {
        RegisterTrue(inserted, id, WaitRequest(SUBMISSION, req.dependencies, None), true);
      }
    }
  }

  lemma AttachTrue(s: Db, g: GoalId, j: JobId)
    requires NoLies(s) && AddCandidate(s, g, j).Ok?
    ensures NoLies(AddCandidate(s, g, j).value)
  {
    var t := AddCandidate(s, g, j).value;
    if t != s {
      var attached := s.(candidates := s.candidates + {(g, j)});
      var resolved := attached.(goals := ResolveGoals(s.goals, s.now, {g}, j));
      GrownTrue(s, attached);
      GrownTrue(s, resolved);
      SettleTrue(resolved, {GoalTarget(g)});
    }
  }

  lemma FailTrue(s: Db, g: GoalId, message: string)
    requires NoLies(s) && FailGoal(s, g, message).Ok?
    ensures NoLies(FailGoal(s, g, message).value)
  {
    if FailGoal(s, g, message).value != s {
      var closed := s.goals[g].(state := Failed, revision := 2, failure := Some(FailureSnapshot(s, g, message)),
                                closedAt := Some(s.now));
      GrownTrue(s, s.(goals := s.goals[g := closed]));
      SettleTrue(s.(goals := s.goals[g := closed]), {GoalTarget(g)});
    }
  }

  lemma GrantTrue(s: Db, threshold: nat, e: Event)
    requires NoLies(s) && (e.AcquireWork? || e.ClaimWaitingTask?)
    ensures NoLies(Apply(s, threshold, e))
  {
    ExpireTrue(s);
    if Attempt(s, threshold, e).Ok? {
      GrownTrue(ExpireWaits(s), Apply(s, threshold, e));
    }
  }

  lemma StepTrueWrites(s: Db, threshold: nat, e: Event)
    requires Inv(s, threshold) && NoLies(s) && Attempt(s, threshold, e).Ok?
    requires e.SubmitJob? || e.RescheduleJob? || e.CompleteJob? || e.CancelJob? || e.DeleteJobs?
    ensures NoLies(Apply(s, threshold, e))
  {
    match e {
      case SubmitJob(id, r) => SubmitTrue(s, threshold, id, r);
      case RescheduleJob(id, l, w, r) => RescheduleTrue(s, threshold, id, l, w, r);
      case CompleteJob(id, l, w, st, d, u) => CompleteTrue(s, threshold, id, l, w, st, d, u);
      case CancelJob(id, w, d) => ArchiveTrue(s, threshold, id, Cancelled, d);
      case DeleteJobs(r, order) => DeleteAllTrue(s, threshold, order, r.at);
    }
  }

  lemma StepTrue(s: Db, threshold: nat, e: Event)
    requires Inv(s, threshold) && NoLies(s)
    ensures NoLies(Apply(s, threshold, e))
  {
    if Attempt(s, threshold, e).Ok? {
      match e {
        case AcquireWork(_, _) => GrantTrue(s, threshold, e);
        case ClaimWaitingTask(_, _) => GrantTrue(s, threshold, e);
        case AttachCandidate(g, j) => AttachTrue(s, g, j);
        case CloseGoal(g, m) => FailTrue(s, g, m);
        case RenewLease(_, _, _, _) => GrownTrue(s, Apply(s, threshold, e));
        case ClearCrashConcern(_) => GrownTrue(s, Apply(s, threshold, e));
        case Tick(_) => GrownTrue(s, Apply(s, threshold, e));
        case _ => StepTrueWrites(s, threshold, e);
      }
    }
  }

  /** Every decided binding of every reachable database is true of it. */
  lemma {:induction false} RunTrue(s: Db, threshold: nat, es: seq<Event>)
    requires Inv(s, threshold) && NoLies(s)
    ensures NoLies(Run(s, threshold, es))
    decreases |es|
  {
    if es != [] {
      StepInv(s, threshold, es[0]);
      StepTrue(s, threshold, es[0]);
      RunTrue(Apply(s, threshold, es[0]), threshold, es[1..]);
    }
  }

  /** The stored outcome of a pending or satisfied wait is decided by the database alone:
      SATISFIED only when every dependency holds, PENDING only while nothing it still waits
      for has an outcome and no decided entry failed. */
  lemma OutcomeMeansIt(threshold: nat, es: seq<Event>, k: WaitKey, i: nat)
    requires var s := Run(EMPTY, threshold, es); k in s.waits && i < |s.waits[k].descriptor|
    ensures var s := Run(EMPTY, threshold, es);
            var w, d := s.waits[k], s.waits[k].descriptor[i];
            && |w.bindings| == |w.descriptor| && w.bindings[i].dependency == d
            && Truthful(s.goals, s.archive, w.bindings[i])
            && (w.state == Satisfied ==> w.bindings[i].state == Satisfied)
            && (w.state == Pending && w.bindings[i].state == Pending ==> !Resolved(s.goals, s.archive, d.target))
            && (w.state == Pending ==> w.bindings[i].state == Pending || w.bindings[i].state == Satisfied)
  {
    var s := Run(EMPTY, threshold, es);
    EmptyInv(threshold);
    RunInv(EMPTY, threshold, es);
    RunTrue(EMPTY, threshold, es);
    assert WaitOk(s, k) && WaitSettled(s, k) && WaitTrue(s, k);
    var w := s.waits[k];
    if w.state == Pending && w.bindings[i].state == Pending {
      assert w.bindings[i] in w.bindings && w.descriptor[i].target in PendingTargets(w);
    }
  }
}
