/** Where stored dependency waits come from. */
module Origins {
  import opened Basics
  import opened RunPolicies
  import opened Tables
  import opened Waits
  import opened Steps
  import opened Invariants
  import opened Preservation
  import opened Runs
  import opened Rows
  import opened Transitions

  /** Only a submission or a reschedule makes a wait: the one it names, as it asked. */
  ghost predicate WaitBorn(s: Db, t: Db, e: Event, k: WaitKey) {
    k in t.waits && k !in s.waits ==>
      && Sound(t.waits[k].descriptor)
      && match e
         case SubmitJob(id, r) =>
           && id !in s.facts && k == WaitKey(id, "submission")
           && t.waits[k].descriptor == r.dependencies && t.waits[k].deadline.None?
         case RescheduleJob(id, _, _, r) =>
           && r.wait.Some? && k == WaitKey(id, r.wait.value.id) && k.wait != "" && k.wait != "submission"
           && t.waits[k].descriptor == r.wait.value.dependencies && t.waits[k].deadline == r.wait.value.deadline
         case _ => false
  }

  /** Something to wait for, nothing twice, and goals by success only. */
  ghost predicate Sound(deps: seq<Dependency>) {
    && deps != []
    && (forall i, j :: 0 <= i < |deps| && 0 <= j < |deps| && deps[i].target == deps[j].target ==> i == j)
    && (forall d :: d in deps && d.target.GoalTarget? ==> d.condition == OnSuccess)
  }

  lemma RegisterBorn(s: Db, job: JobId, req: WaitRequest, submission: bool, k: WaitKey)
    requires RegisterWait(s, job, req, submission).Ok?
    ensures var t := RegisterWait(s, job, req, submission).value;
            k in t.waits && k !in s.waits ==>
              && k == WaitKey(job, req.id) && req.id != "" && (req.id == SUBMISSION ==> submission) && Sound(req.dependencies)
              && t.waits[k].descriptor == req.dependencies && t.waits[k].deadline == req.deadline
  {
    RegisterSaves(s, job, req, submission);
    if WaitKey(job, req.id) !in s.waits { EvaluateKeeps(s.goals, s.archive, s.now, NewWait(req)); }
  }

  lemma SubmitBorn(s: Db, id: JobId, req: SubmitRequest, k: WaitKey)
    requires Submit(s, id, req).Ok?
    ensures var t := Submit(s, id, req).value;
            k in t.waits && k !in s.waits ==>
              && id !in s.facts && k == WaitKey(id, SUBMISSION) && Sound(req.dependencies)
              && t.waits[k].descriptor == req.dependencies && t.waits[k].deadline.None?
  {
    if id !in s.facts && req.dependencies != [] {
      var inserted := Inserted(s, id, req, SubmittedGoal(req), NormalizeWaitFor(s, req.waitFor).value);
      RegisterBorn(inserted, id, WaitRequest(SUBMISSION, req.dependencies, None), true, k);
    }
  }

  lemma RescheduleBorn(s: Db, threshold: nat, id: JobId, lease: Option<LeaseId>, worker: string, req: RescheduleRequest, k: WaitKey)
    requires Reschedule(s, threshold, id, lease, worker, req).Ok?
    ensures var t := Reschedule(s, threshold, id, lease, worker, req).value;
            k in t.waits && k !in s.waits ==>
              && req.wait.Some? && k == WaitKey(id, req.wait.value.id) && k.wait != "" && k.wait != SUBMISSION
              && Sound(req.wait.value.dependencies)
              && t.waits[k].descriptor == req.wait.value.dependencies && t.waits[k].deadline == req.wait.value.deadline
  {
    if req.wait.Some? {
      var u := s.(clients := s.clients[id := UpdateClient(s.clients[id], req.update).value]);
      RegisterBorn(CancelWaits(u, id, Some(req.wait.value.id)), id, req.wait.value, false, k);
    }
  }

  lemma ArchiveKeys(s: Db, id: JobId, status: CompletionStatus, detail: string)
    requires id in s.jobs
    ensures ArchiveJob(s, id, status, detail).waits.Keys == s.waits.Keys
  {
  }

  lemma {:induction false} DeleteAllKeys(s: Db, order: seq<JobId>, at: Time)
    ensures DeleteAll(s, order, at).waits.Keys == s.waits.Keys
    decreases |order|
  {
    if order != [] {
      DeleteAllKeys(DeleteOne(s, order[0], at), order[1..], at);
    }
  }

  lemma EndsKeepKeys(s: Db, threshold: nat, e: Event)
    requires e.CompleteJob? || e.CancelJob? || e.DeleteJobs?
    ensures Apply(s, threshold, e).waits.Keys == s.waits.Keys
  {
    if Attempt(s, threshold, e).Ok? {
      match e {
        case CompleteJob(id, l, w, st, d, u) =>
          ArchiveKeys(if l.None? then s else s.(clients := s.clients[id := UpdateClient(s.clients[id], u).value]), id, st, d);
        case CancelJob(id, w, d) => ArchiveKeys(s, id, Cancelled, d);
        case DeleteJobs(r, order) => DeleteAllKeys(s, order, r.at);
      }
    }
  }

  lemma GoalsKeepKeys(s: Db, threshold: nat, e: Event)
    requires e.AttachCandidate? || e.CloseGoal?
    ensures Apply(s, threshold, e).waits.Keys == s.waits.Keys
  {
  }

  lemma GrantsKeepKeys(s: Db, threshold: nat, e: Event)
    requires e.AcquireWork? || e.ClaimWaitingTask?
    ensures Apply(s, threshold, e).waits.Keys == s.waits.Keys
  {
  }

  lemma LeasesKeepKeys(s: Db, threshold: nat, e: Event)
    requires e.RenewLease? || e.ClearCrashConcern? || e.Tick?
    ensures Apply(s, threshold, e).waits.Keys == s.waits.Keys
  {
  }

  lemma StepBorn(s: Db, threshold: nat, e: Event, k: WaitKey)
    ensures WaitBorn(s, Apply(s, threshold, e), e, k)
  {
    if e.SubmitJob? || e.RescheduleJob? {
      if Attempt(s, threshold, e).Ok? {
        match e {
          case SubmitJob(id, r) => SubmitBorn(s, id, r, k);
          case RescheduleJob(id, l, w, r) => RescheduleBorn(s, threshold, id, l, w, r, k);
        }
      }
    } else if e.CompleteJob? || e.CancelJob? || e.DeleteJobs? {
      EndsKeepKeys(s, threshold, e);
    } else if e.AttachCandidate? || e.CloseGoal? {
      GoalsKeepKeys(s, threshold, e);
    } else if e.AcquireWork? || e.ClaimWaitingTask? {
      GrantsKeepKeys(s, threshold, e);
    } else {
      LeasesKeepKeys(s, threshold, e);
    }
  }

  /** A stored wait has a name and sound dependencies, and the one called "submission" is the
      job's own: its initial dependencies, without a deadline. */
  ghost predicate Original(s: Db, k: WaitKey)
    requires k in s.waits
  {
    && k.wait != "" && Sound(s.waits[k].descriptor)
    && (k.wait == "submission" ==>
          k.job in s.facts && s.waits[k].descriptor == s.facts[k.job].dependencies && s.waits[k].deadline.None?)
  }

  ghost predicate AllOriginal(s: Db) {
    forall k {:trigger Original(s, k)} :: k in s.waits ==> Original(s, k)
  }

  lemma OriginalStep(s: Db, t: Db, threshold: nat, e: Event, k: WaitKey)
    requires Transition(s, t, threshold, e) && WaitBorn(s, t, e, k) && k in t.waits && (k in s.waits ==> Original(s, k))
    ensures Original(t, k)
  {
    if k in s.waits {
      assert StoredLater(s, t, k);
      if k.job in s.facts { assert FactLater(s, t, k.job); }
    } else {
      assert WaitOk(t, k) && RowStep(s, t, threshold, e, k.job);
    }
  }

  /** In every reachable database no later call can replace what a submission waits for, take
      its name, or store a wait that names a target twice or a goal by completion. */
  lemma {:induction false} RunOriginal(s: Db, threshold: nat, es: seq<Event>)
    requires Inv(s, threshold) && AllOriginal(s)
    ensures AllOriginal(Run(s, threshold, es))
    decreases |es|
  {
    if es != [] {
      var t := Apply(s, threshold, es[0]);
      StepTransition(s, threshold, es[0]);
      forall k | k in t.waits ensures Original(t, k) {
        if k in s.waits { assert Original(s, k); }
        StepBorn(s, threshold, es[0], k);
        OriginalStep(s, t, threshold, es[0], k);
      }
      RunOriginal(t, threshold, es[1..]);
    }
  }
}
