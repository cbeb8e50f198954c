/** Whole runs: the invariant in every reachable database, and what never changes back. */
module Runs {
  import opened Basics
  import opened RunPolicies
  import opened Tables
  import opened Waits
  import opened Steps
  import opened Invariants
  import opened Preservation
  import opened GoalPreservation
  import Graph

  lemma StepInv(s: Db, threshold: nat, e: Event)
    requires Inv(s, threshold)
    ensures Inv(Apply(s, threshold, e), threshold)
  {
    if Attempt(s, threshold, e).Ok? {
      match e {
        case SubmitJob(id, r) => SubmitInv(s, threshold, id, r);
        case AcquireWork(id, r) => GetWorkInv(s, threshold, r, id);
        case RenewLease(id, l, w, n) => RenewInv(s, threshold, id, l, w, n);
        case RescheduleJob(id, l, w, r) => RescheduleInv(s, threshold, id, l, w, r);
        case ClaimWaitingTask(id, r) => ClaimTaskInv(s, threshold, r, id);
        case CompleteJob(id, l, w, st, d, u) => CompleteInv(s, threshold, id, l, w, st, d, u);
        case CancelJob(id, w, d) => ArchiveInv(s, threshold, id, Cancelled, d);
        case DeleteJobs(r, order) => DeleteAllInv(s, threshold, order, r.at);
        case AttachCandidate(g, j) => AddCandidateInv(s, threshold, g, j);
        case CloseGoal(g, m) => FailGoalInv(s, threshold, g, m);
        case ClearCrashConcern(id) => ClearCrashInv(s, threshold, id);
        case Tick(n) => TickInv(s, threshold, n);
      }
    }
  }

  lemma {:induction false} RunInv(s: Db, threshold: nat, es: seq<Event>)
    requires Inv(s, threshold)
    ensures Inv(Run(s, threshold, es), threshold)
    decreases |es|
  {
    if es != [] {
      StepInv(s, threshold, es[0]);
      RunInv(Apply(s, threshold, es[0]), threshold, es[1..]);
    }
  }

  /** Every database reached from an empty one satisfies the whole invariant. */
  lemma ReachableInv(threshold: nat, es: seq<Event>)
    ensures Inv(Run(EMPTY, threshold, es), threshold)
  {
    EmptyInv(threshold);
    RunInv(EMPTY, threshold, es);
  }

  lemma {:induction false} RunConcat(s: Db, threshold: nat, es: seq<Event>, fs: seq<Event>)
    ensures Run(s, threshold, es + fs) == Run(Run(s, threshold, es), threshold, fs)
    decreases |es|
  {
    if es == [] {
      assert es + fs == fs;
    } else {
      assert (es + fs)[0] == es[0] && (es + fs)[1..] == es[1..] + fs;
      RunConcat(Apply(s, threshold, es[0]), threshold, es[1..], fs);
    }
  }

  // ---- What time cannot undo ----------------------------------------------------------------

  /** Facts are immutable; visibility is lost once and for good. */
  ghost predicate FactLater(s: Db, t: Db, j: JobId)
    requires j in s.facts
  {
    && j in t.facts && t.facts[j].(hiddenAt := None) == s.facts[j].(hiddenAt := None)
    && (s.facts[j].hiddenAt.Some? ==> t.facts[j] == s.facts[j])
  }

  /** An archived outcome is final. */
  ghost predicate ArchiveLater(s: Db, t: Db, j: JobId)
    requires j in s.archive
  {
    j in t.archive && t.archive[j] == s.archive[j]
  }

  /** A goal keeps its creation time and, once closed, its winner or failure snapshot and revision. */
  ghost predicate GoalLater(s: Db, t: Db, g: GoalId)
    requires g in s.goals
  {
    && g in t.goals && t.goals[g].createdAt == s.goals[g].createdAt
    && (s.goals[g].state != Open ==> t.goals[g] == s.goals[g])
  }

  ghost predicate StoredLater(s: Db, t: Db, k: WaitKey)
    requires k in s.waits
  {
    k in t.waits && WaitLater(s.waits[k], t.waits[k])
  }

  /** A payload changes only together with its revision, which only grows. */
  ghost predicate ClientLater(s: Db, t: Db, j: JobId)
    requires j in s.clients
  {
    && j in t.clients && s.clients[j].revision <= t.clients[j].revision
    && (s.clients[j].revision == t.clients[j].revision ==> s.clients[j] == t.clients[j])
  }

  ghost predicate Later(s: Db, t: Db) {
    && s.now <= t.now && s.issued <= t.issued && s.candidates <= t.candidates
    && (forall j {:trigger FactLater(s, t, j)} :: j in s.facts ==> FactLater(s, t, j))
    && (forall j {:trigger ArchiveLater(s, t, j)} :: j in s.archive ==> ArchiveLater(s, t, j))
    && (forall g {:trigger GoalLater(s, t, g)} :: g in s.goals ==> GoalLater(s, t, g))
    && (forall k {:trigger StoredLater(s, t, k)} :: k in s.waits ==> StoredLater(s, t, k))
    && (forall j {:trigger ClientLater(s, t, j)} :: j in s.clients ==> ClientLater(s, t, j))
  }

  lemma LaterTransitive(s: Db, t: Db, u: Db)
    requires Later(s, t) && Later(t, u)
    ensures Later(s, u)
  {
    forall j | j in s.facts ensures FactLater(s, u, j) { assert FactLater(s, t, j) && FactLater(t, u, j); }
    forall j | j in s.archive ensures ArchiveLater(s, u, j) { assert ArchiveLater(s, t, j) && ArchiveLater(t, u, j); }
    forall g | g in s.goals ensures GoalLater(s, u, g) { assert GoalLater(s, t, g) && GoalLater(t, u, g); }
    forall j | j in s.clients ensures ClientLater(s, u, j) { assert ClientLater(s, t, j) && ClientLater(t, u, j); }
    forall k | k in s.waits
      ensures StoredLater(s, u, k)
    {
      assert StoredLater(s, t, k) && StoredLater(t, u, k);
      WaitLaterTransitive(s.waits[k], t.waits[k], u.waits[k]);
    }
  }

  lemma AdvancesStored(s: Db, t: Db)
    requires Advances(s, t)
    ensures forall k {:trigger StoredLater(s, t, k)} :: k in s.waits ==> StoredLater(s, t, k)
  {
    forall k | k in s.waits ensures StoredLater(s, t, k) { assert Moved(s, t, k); }
  }

  /** Waits and rows move, nothing else does. */
  lemma QuietLater(s: Db, t: Db)
    requires Advances(s, t) && s.issued <= t.issued
    requires t == s.(jobs := t.jobs, issued := t.issued, waits := t.waits, targets := t.targets)
    ensures Later(s, t)
  {
    AdvancesStored(s, t);
  }

  lemma ArchiveJobLater(s: Db, threshold: nat, id: JobId, status: CompletionStatus, detail: string)
    requires Inv(s, threshold) && id in s.jobs
    ensures Later(s, ArchiveJob(s, id, status, detail))
  {
    var t := ArchiveJob(s, id, status, detail);
    assert JobOk(s, threshold, id);
    ArchiveWaits(s, id, status, detail);
    AdvancesStored(s, t);
  }

  lemma ClientUpdateLater(s: Db, id: JobId, u: Option<PayloadUpdate>)
    requires id in s.clients && UpdateClient(s.clients[id], u).Ok?
    ensures Later(s, s.(clients := s.clients[id := UpdateClient(s.clients[id], u).value]))
  {
  }

  lemma CompleteLater(s: Db, threshold: nat, id: JobId, lease: Option<LeaseId>, worker: string,
                      status: CompletionStatus, detail: string, update: Option<PayloadUpdate>)
    requires Inv(s, threshold) && Complete(s, threshold, id, lease, worker, status, detail, update).Ok?
    ensures Later(s, Complete(s, threshold, id, lease, worker, status, detail, update).value)
  {
    if lease.None? {
      ArchiveJobLater(s, threshold, id, status, detail);
    } else {
      var c := UpdateClient(s.clients[id], update).value;
      var u := s.(clients := s.clients[id := c]);
      ClientUpdateInv(s, threshold, id, c);
      ClientUpdateLater(s, id, update);
      ArchiveJobLater(u, threshold, id, status, detail);
      LaterTransitive(s, u, ArchiveJob(u, id, status, detail));
    }
  }

  lemma HideLater(s: Db, id: JobId, at: Time)
    requires id in s.facts && s.facts[id].hiddenAt.None?
    ensures Later(s, s.(facts := s.facts[id := s.facts[id].(hiddenAt := Some(at))]))
  {
  }

  lemma DeleteOneLater(s: Db, threshold: nat, id: JobId, at: Time)
    requires Inv(s, threshold)
    ensures Later(s, DeleteOne(s, id, at))
  {
    if id in s.facts && s.facts[id].hiddenAt.None? {
      if id in s.jobs {
        var a := ArchiveJob(s, id, Cancelled, "job deleted");
        ArchiveJobLater(s, threshold, id, Cancelled, "job deleted");
        assert a.facts == s.facts;
        HideLater(a, id, at);
        LaterTransitive(s, a, DeleteOne(s, id, at));
      } else {
        HideLater(s, id, at);
      }
    }
  }

  lemma {:induction false} DeleteAllLater(s: Db, threshold: nat, order: seq<JobId>, at: Time)
    requires Inv(s, threshold)
    ensures Later(s, DeleteAll(s, order, at))
    decreases |order|
  {
    if order != [] {
      var t := DeleteOne(s, order[0], at);
      DeleteOneInv(s, threshold, order[0], at);
      DeleteOneLater(s, threshold, order[0], at);
      DeleteAllLater(t, threshold, order[1..], at);
      LaterTransitive(s, t, DeleteAll(t, order[1..], at));
    }
  }

  lemma SaveLater(s: Db, k: WaitKey, w: Wait)
    requires k in s.waits ==> WaitLater(s.waits[k], w)
    ensures Later(s, SaveWaits(s, map[k := w]))
  {
    var t := SaveWaits(s, map[k := w]);
    forall x | x in s.waits ensures StoredLater(s, t, x) { }
  }

  lemma RegisterLater(s: Db, job: JobId, req: WaitRequest, submission: bool)
    requires RegisterWait(s, job, req, submission).Ok?
    ensures Later(s, RegisterWait(s, job, req, submission).value)
  {
    var k := WaitKey(job, req.id);
    var w := if k in s.waits then s.waits[k] else NewWait(req);
    EvaluateKeeps(s.goals, s.archive, s.now, w);
    SaveLater(s, k, Evaluate(s.goals, s.archive, s.now, w));
  }

  lemma RescheduleLater(s: Db, threshold: nat, id: JobId, lease: Option<LeaseId>, worker: string, req: RescheduleRequest)
    requires Inv(s, threshold) && Reschedule(s, threshold, id, lease, worker, req).Ok?
    ensures Later(s, Reschedule(s, threshold, id, lease, worker, req).value)
  {
    var client := UpdateClient(s.clients[id], req.update).value;
    var u := s.(clients := s.clients[id := client]);
    var keep := if req.wait.Some? then Some(req.wait.value.id) else None;
    var c := CancelWaits(u, id, keep);
    ClientUpdateLater(s, id, req.update);
    WaitsOkShaped(s);
    assert Shaped(u);
    CancelAdvances(u, id, keep);
    QuietLater(u, c);
    LaterTransitive(s, u, c);
    var r := c;
    if req.wait.Some? {
      RegisterLater(c, id, req.wait.value, false);
      r := RegisterWait(c, id, req.wait.value, false).value;
      LaterTransitive(s, c, r);
    }
    RowsLater(s, r, Reschedule(s, threshold, id, lease, worker, req).value);
  }

  lemma RowsLater(s: Db, r: Db, t: Db)
    requires Later(s, r) && t == r.(jobs := t.jobs)
    ensures Later(s, t)
  {
    forall j | j in s.facts ensures FactLater(s, t, j) { assert FactLater(s, r, j); }
    forall j | j in s.archive ensures ArchiveLater(s, t, j) { assert ArchiveLater(s, r, j); }
    forall g | g in s.goals ensures GoalLater(s, t, g) { assert GoalLater(s, r, g); }
    forall k | k in s.waits ensures StoredLater(s, t, k) { assert StoredLater(s, r, k); }
    forall j | j in s.clients ensures ClientLater(s, t, j) { assert ClientLater(s, r, j); }
  }

  lemma InsertedLater(s: Db, threshold: nat, id: JobId, req: SubmitRequest, goal: GoalId, waitFor: seq<JobId>)
    requires Inv(s, threshold) && id !in s.facts && (req.shareGoal || goal !in s.goals)
    ensures Later(s, Inserted(s, id, req, goal, waitFor))
  {
    var t := Inserted(s, id, req, goal, waitFor);
    NewIdentity(s, threshold, id);
  }

  lemma SubmitLater(s: Db, threshold: nat, id: JobId, req: SubmitRequest)
    requires Inv(s, threshold) && Submit(s, id, req).Ok?
    ensures Later(s, Submit(s, id, req).value)
  {
    if id !in s.facts {
      var goal := SubmittedGoal(req);
      var inserted := Inserted(s, id, req, goal, NormalizeWaitFor(s, req.waitFor).value);
      InsertedLater(s, threshold, id, req, goal, NormalizeWaitFor(s, req.waitFor).value);
      if req.dependencies != [] {
        var wait := WaitRequest(SUBMISSION, req.dependencies, None);
        RegisterLater(inserted, id, wait, true);
        LaterTransitive(s, inserted, RegisterWait(inserted, id, wait, true).value);
      }
    }
  }

  lemma SettleLater(s: Db, a: Db, g: GoalId)
    requires Outcomes(s) && a == s.(goals := a.goals, candidates := a.candidates) && s.candidates <= a.candidates
    requires a.goals.Keys == s.goals.Keys && g in s.goals && s.goals[g].state == Open && a.goals[g].state != Open
    requires a.goals[g].createdAt == s.goals[g].createdAt
    requires forall x :: x in s.goals && x != g ==> a.goals[x] == s.goals[x]
    ensures Later(s, Settle(a, {GoalTarget(g)}))
  {
    CloseGoalOutcomes(s, a, g);
    AdvancesStored(s, Settle(a, {GoalTarget(g)}));
  }

  lemma RowOnlyLater(s: Db, t: Db)
    requires t == s.(now := t.now, jobs := t.jobs) && s.now <= t.now
    ensures Later(s, t)
  {
  }

  lemma StepLaterWrites(s: Db, threshold: nat, e: Event)
    requires Inv(s, threshold) && Attempt(s, threshold, e).Ok?
    requires e.SubmitJob? || e.RescheduleJob? || e.CompleteJob? || e.CancelJob? || e.DeleteJobs?
    ensures Later(s, Apply(s, threshold, e))
  {
    match e {
      case SubmitJob(id, r) => SubmitLater(s, threshold, id, r);
      case RescheduleJob(id, l, w, r) => RescheduleLater(s, threshold, id, l, w, r);
      case CompleteJob(id, l, w, st, d, u) => CompleteLater(s, threshold, id, l, w, st, d, u);
      case CancelJob(id, w, d) => ArchiveJobLater(s, threshold, id, Cancelled, d);
      case DeleteJobs(r, order) => DeleteAllLater(s, threshold, order, r.at);
    }
  }

  lemma StepLaterOther(s: Db, threshold: nat, e: Event)
    requires Inv(s, threshold) && Attempt(s, threshold, e).Ok?
    requires !(e.SubmitJob? || e.RescheduleJob? || e.CompleteJob? || e.CancelJob? || e.DeleteJobs?)
    ensures Later(s, Apply(s, threshold, e))
  {
    match e {
      case AcquireWork(id, r) => AcquireLater(s, threshold, r, id);
      case ClaimWaitingTask(id, r) => ClaimLater(s, threshold, r, id);
      case AttachCandidate(g, j) => AttachLater(s, threshold, g, j);
      case CloseGoal(g, m) => FailLater(s, threshold, g, m);
      case RenewLease(_, _, _, _) => RowOnlyLater(s, Attempt(s, threshold, e).value);
      case ClearCrashConcern(_) => RowOnlyLater(s, Attempt(s, threshold, e).value);
      case Tick(_) => RowOnlyLater(s, Attempt(s, threshold, e).value);
    }
  }

  lemma StepLater(s: Db, threshold: nat, e: Event)
    requires Inv(s, threshold)
    ensures Later(s, Apply(s, threshold, e))
  {
    if Attempt(s, threshold, e).Err? {
      RowOnlyLater(s, s);
    } else if e.SubmitJob? || e.RescheduleJob? || e.CompleteJob? || e.CancelJob? || e.DeleteJobs? {
      StepLaterWrites(s, threshold, e);
    } else {
      StepLaterOther(s, threshold, e);
    }
  }

  lemma AcquireLater(s: Db, threshold: nat, r: WorkRequest, id: JobId)
    requires Inv(s, threshold) && GetWork(s, threshold, r, id).Ok?
    ensures Later(s, GetWork(s, threshold, r, id).value)
  {
    var e, t := ExpireWaits(s), GetWork(s, threshold, r, id).value;
    WaitsOkShaped(s);
    ExpireAdvances(s);
    forall k | k in s.waits ensures Moved(s, t, k) { assert Moved(s, e, k); }
    QuietLater(s, t);
  }

  lemma ClaimLater(s: Db, threshold: nat, r: ClaimRequest, id: JobId)
    requires Inv(s, threshold) && ClaimTask(s, threshold, r, id).Ok?
    ensures Later(s, ClaimTask(s, threshold, r, id).value)
  {
    var e, t := ExpireWaits(s), ClaimTask(s, threshold, r, id).value;
    WaitsOkShaped(s);
    ExpireAdvances(s);
    forall k | k in s.waits ensures Moved(s, t, k) { assert Moved(s, e, k); }
    QuietLater(s, t);
  }

  lemma AttachedLater(s: Db, t: Db)
    requires t == s.(candidates := t.candidates) && s.candidates <= t.candidates
    ensures Later(s, t)
  {
  }

  lemma AttachLater(s: Db, threshold: nat, g: GoalId, j: JobId)
    requires Inv(s, threshold) && AddCandidate(s, g, j).Ok?
    ensures Later(s, AddCandidate(s, g, j).value)
  {
    var t := AddCandidate(s, g, j).value;
    var attached := s.(candidates := s.candidates + {(g, j)});
    if t == s || t == attached {
      AttachedLater(s, t);
    } else {
      SettleLater(s, attached.(goals := ResolveGoals(s.goals, s.now, {g}, j)), g);
    }
  }

  lemma FailLater(s: Db, threshold: nat, g: GoalId, message: string)
    requires Inv(s, threshold) && FailGoal(s, g, message).Ok?
    ensures Later(s, FailGoal(s, g, message).value)
  {
    var t := FailGoal(s, g, message).value;
    if t != s {
      var closed := s.goals[g].(state := Failed, revision := 2, failure := Some(FailureSnapshot(s, g, message)),
                                closedAt := Some(s.now));
      SettleLater(s, s.(goals := s.goals[g := closed]), g);
    }
  }

  /** Facts, archived outcomes, closed goals, closed waits, decided bindings and payload
      revisions survive every continuation of every run. */
  lemma {:induction false} RunLater(s: Db, threshold: nat, es: seq<Event>)
    requires Inv(s, threshold)
    ensures Later(s, Run(s, threshold, es)) && Inv(Run(s, threshold, es), threshold)
    decreases |es|
  {
    if es != [] {
      var t := Apply(s, threshold, es[0]);
      StepInv(s, threshold, es[0]);
      StepLater(s, threshold, es[0]);
      RunLater(t, threshold, es[1..]);
      LaterTransitive(s, t, Run(t, threshold, es[1..]));
    }
  }
}
