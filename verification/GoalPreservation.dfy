/** Transactions on waits, goals and membership keep the invariant; the ones that add
    edges to the dependency graph are guarded by the cycle check. */
module GoalPreservation {
  import opened Basics
  import opened RunPolicies
  import opened Tables
  import opened Waits
  import opened Steps
  import opened Invariants
  import opened Preservation
  import Graph

  // ---- Registering a wait ------------------------------------------------------------------

  /** A stored wait for `k` that is well formed and settled in `s`. */
  ghost predicate Storable(s: Db, k: WaitKey, w: Wait) {
    && k.job in s.facts && WaitShape(w) && Unresolved(s.goals, s.archive, w)
    && forall d :: d in w.descriptor ==> TargetExists(s, d.target) && d.target != JobTarget(k.job)
  }

  lemma StoreWaitOutcomes(s: Db, k: WaitKey, w: Wait)
    requires Outcomes(s) && Storable(s, k, w)
    ensures Outcomes(SaveWaits(s, map[k := w]))
  {
    var t := SaveWaits(s, map[k := w]);
    MembershipFrame(s, t);
    GoalsFrame(s, t);
    SaveKeepsIndex(s, map[k := w]);
    forall x | x in t.waits
      ensures WaitOk(t, x) && WaitSettled(t, x)
    {
      if x != k { assert WaitOk(s, x) && WaitSettled(s, x); }
    }
  }

  /** Edges out of anything but the consumer were there before. */
  lemma StoreWaitEdges(s: Db, k: WaitKey, w: Wait, e: (Target, Target))
    requires e in Edges(SaveWaits(s, map[k := w])) && e.0 != JobTarget(k.job)
    ensures e in Edges(s)
  {
    var t := SaveWaits(s, map[k := w]);
    MembershipFrame(s, t);
    if e.0.JobTarget? {
      var p :| p in t.targets && LiveSubscription(t, p) && e == (JobTarget(p.0.job), p.1);
      assert p in s.targets && LiveSubscription(s, p);
    } else {
      var m :| m in Membership(t) && LiveMember(t, m) && e == (GoalTarget(m.0), JobTarget(m.1));
      assert m in Membership(s) && LiveMember(s, m);
    }
  }

  lemma StoreWaitAcyclic(s: Db, k: WaitKey, w: Wait)
    requires Graph.Acyclic(Edges(s)) && !ClosesCycle(SaveWaits(s, map[k := w]), JobTarget(k.job))
    ensures Graph.Acyclic(Edges(SaveWaits(s, map[k := w])))
  {
    var t := SaveWaits(s, map[k := w]);
    Graph.WalkExact(Edges(t), JobTarget(k.job));
    forall e | e in Edges(t) && e.0 !in {JobTarget(k.job)}
      ensures e in Edges(s)
    {
      StoreWaitEdges(s, k, w, e);
    }
    Graph.GuardedGrowthAcyclic(Edges(s), Edges(t), {JobTarget(k.job)});
  }

  lemma NewWaitStorable(s: Db, k: WaitKey, req: WaitRequest)
    requires k.job in s.facts && req.dependencies != []
    requires forall d :: d in req.dependencies ==> TargetExists(s, d.target) && d.target != JobTarget(k.job)
    ensures Storable(s, k, Evaluate(s.goals, s.archive, s.now, NewWait(req)))
  {
    var w := NewWait(req);
    assert Fresh(w);
    EvaluateShape(s.goals, s.archive, s.now, w);
    EvaluateKeeps(s.goals, s.archive, s.now, w);
    EvaluateUnresolved(s.goals, s.archive, s.now, w);
  }

  /** What a registration leaves: one wait written, every outcome kept, no cycle closed. */
  ghost predicate Registered(s: Db, t: Db, k: WaitKey) {
    && t == s.(waits := t.waits, targets := t.targets)
    && Outcomes(t) && Graph.Acyclic(Edges(t))
    && forall x :: x in t.waits && x != k ==> x in s.waits && t.waits[x] == s.waits[x]
  }

  lemma RegisterAgain(s: Db, k: WaitKey)
    requires Outcomes(s) && Graph.Acyclic(Edges(s)) && k in s.waits
    ensures Registered(s, SaveEvaluated(s, k, s.waits[k]), k)
  {
    var w := s.waits[k];
    assert WaitOk(s, k) && WaitSettled(s, k);
    EvaluateKeeps(s.goals, s.archive, s.now, w);
    EvaluateShape(s.goals, s.archive, s.now, w);
    var ws := map[k := Evaluate(s.goals, s.archive, s.now, w)];
    var t := SaveWaits(s, ws);
    WaitsOkShaped(s);
    SaveAdvances(s, ws);
    SaveKeepsIndex(s, ws);
    MembershipFrame(s, t);
    OutcomesFrame(s, t);
    AdvanceKeepsAcyclic(s, t);
  }

  lemma RegisterNew(s: Db, k: WaitKey, req: WaitRequest)
    requires Outcomes(s) && Graph.Acyclic(Edges(s)) && k.job in s.facts && req.dependencies != []
    requires forall d :: d in req.dependencies ==> TargetExists(s, d.target) && d.target != JobTarget(k.job)
    requires !ClosesCycle(SaveEvaluated(s, k, NewWait(req)), JobTarget(k.job))
    ensures Registered(s, SaveEvaluated(s, k, NewWait(req)), k)
  {
    var w := Evaluate(s.goals, s.archive, s.now, NewWait(req));
    NewWaitStorable(s, k, req);
    StoreWaitOutcomes(s, k, w);
    StoreWaitAcyclic(s, k, w);
  }

  lemma RegisterKeeps(s: Db, job: JobId, req: WaitRequest, submission: bool)
    requires Outcomes(s) && Graph.Acyclic(Edges(s)) && job in s.facts
    requires RegisterWait(s, job, req, submission).Ok?
    ensures Registered(s, RegisterWait(s, job, req, submission).value, WaitKey(job, req.id))
  {
    var k := WaitKey(job, req.id);
    if k in s.waits {
      RegisterAgain(s, k);
    } else {
      RegisterNew(s, k, req);
    }
  }

  // ---- Rescheduling -----------------------------------------------------------------------

  lemma RescheduledRowOk(j: Job, id: JobId, req: RescheduleRequest, waitFor: seq<JobId>, now: Time, issued: set<LeaseId>)
    requires ValidReschedule(id, req) && !j.cancelRequested
    ensures RowOk(Rescheduled(j, req, waitFor, now), issued)
  {
  }

  /** After cancelling all but the kept wait, only that one can be pending. */
  ghost predicate OnlyKept(s: Db, id: JobId, keep: Option<WaitId>) {
    forall k :: k in s.waits && k.job == id && s.waits[k].state == Pending ==> Some(k.wait) == keep
  }

  lemma CancelLeavesKept(s: Db, threshold: nat, id: JobId, keep: Option<WaitId>)
    requires Inv(s, threshold)
    ensures Inv(CancelWaits(s, id, keep), threshold) && OnlyKept(CancelWaits(s, id, keep), id, keep)
  {
    WaitsOkShaped(s);
    CancelAdvances(s, id, keep);
    WaitsOnlyInv(s, CancelWaits(s, id, keep), threshold);
  }

  lemma RescheduleRow(c: Db, r: Db, threshold: nat, id: JobId, keep: Option<WaitId>, row: Job)
    requires Inv(c, threshold) && r == c.(waits := r.waits, targets := r.targets)
    requires Outcomes(r) && Graph.Acyclic(Edges(r)) && id in r.jobs
    requires forall k :: k in r.waits && k.job != id ==> k in c.waits && r.waits[k] == c.waits[k]
    requires OnlyKept(r, id, keep)
    requires row.goal == r.jobs[id].goal && row.dependencyWait == keep && row.lease.None?
    requires RowOk(row, r.issued) && StreakOk(row, threshold)
    ensures Inv(r.(jobs := r.jobs[id := row]), threshold)
  {
    var t := r.(jobs := r.jobs[id := row]);
    JobsFrame(c, r, threshold);
    RetainedFrame(c, t);
    RowUpdateJobs(r, threshold, id, row, r.issued);
    RowsDoNotMatter(r, t);
    assert t == r.(jobs := r.jobs[id := row], issued := r.issued);
    forall k | k in t.waits
      ensures WaitOwned(t, k)
    {
      if k.job != id { assert WaitOwned(c, k); }
    }
  }

  /** Cancelling and registering, before the row itself is rewritten. */
  lemma RescheduleWaits(s: Db, threshold: nat, id: JobId, wait: Option<WaitRequest>) returns (c: Db, r: Db, keep: Option<WaitId>)
    requires Inv(s, threshold) && id in s.facts
    requires wait.Some? ==> RegisterWait(CancelWaits(s, id, Some(wait.value.id)), id, wait.value, false).Ok?
    ensures keep == if wait.Some? then Some(wait.value.id) else None
    ensures c == CancelWaits(s, id, keep)
    ensures r == if wait.Some? then RegisterWait(c, id, wait.value, false).value else c
    ensures Inv(c, threshold) && r == c.(waits := r.waits, targets := r.targets)
    ensures Outcomes(r) && Graph.Acyclic(Edges(r)) && OnlyKept(r, id, keep)
    ensures forall k :: k in r.waits && k.job != id ==> k in c.waits && r.waits[k] == c.waits[k]
  {
    keep := if wait.Some? then Some(wait.value.id) else None;
    c := CancelWaits(s, id, keep);
    CancelLeavesKept(s, threshold, id, keep);
    r := c;
    if wait.Some? {
      RegisterKeeps(c, id, wait.value, false);
      r := RegisterWait(c, id, wait.value, false).value;
    }
  }

  lemma RescheduleInv(s: Db, threshold: nat, id: JobId, lease: Option<LeaseId>, worker: string, req: RescheduleRequest)
    requires Inv(s, threshold) && Reschedule(s, threshold, id, lease, worker, req).Ok?
    ensures Inv(Reschedule(s, threshold, id, lease, worker, req).value, threshold)
  {
    var client := UpdateClient(s.clients[id], req.update).value;
    ClientUpdateInv(s, threshold, id, client);
    var c, r, keep := RescheduleWaits(s.(clients := s.clients[id := client]), threshold, id, req.wait);
    var waitFor := NormalizeWaitFor(r, req.waitFor).value;
    assert JobOk(s, threshold, id);
    RescheduledRowOk(r.jobs[id], id, req, waitFor, s.now, r.issued);
    RescheduleRow(c, r, threshold, id, keep, Rescheduled(r.jobs[id], req, waitFor, s.now));
  }

  // ---- Submission ---------------------------------------------------------------------------

  /** Rows without facts do not exist. */
  lemma NewIdentity(s: Db, threshold: nat, id: JobId)
    requires Scheduling(s, threshold) && id !in s.facts
    ensures id !in s.jobs && id !in s.archive
  {
    forall j | j in s.jobs ensures j in s.facts { assert JobOk(s, threshold, j); }
    forall j | j in s.archive ensures j in s.facts { assert ArchivedOk(s, j); }
  }

  lemma InsertedMembership(s: Db, id: JobId, req: SubmitRequest, goal: GoalId, waitFor: seq<JobId>)
    requires id !in s.facts
    ensures Membership(Inserted(s, id, req, goal, waitFor)) == Membership(s) + {(goal, id)}
  {
    var t := Inserted(s, id, req, goal, waitFor);
    forall m | m in Membership(t)
      ensures m in Membership(s) + {(goal, id)}
    {
      if m !in t.candidates && m.1 != id {
        assert m == (s.facts[m.1].goal, m.1);
      }
    }
    forall m | m in Membership(s) + {(goal, id)}
      ensures m in Membership(t)
    {
      if m !in s.candidates {
        assert m.1 in t.facts && m == (t.facts[m.1].goal, m.1);
      }
    }
  }

  lemma InsertedOutcomes(s: Db, threshold: nat, id: JobId, req: SubmitRequest, goal: GoalId, waitFor: seq<JobId>)
    requires Inv(s, threshold) && id !in s.facts
    requires if req.shareGoal then goal in s.goals && s.goals[goal].state == Open else goal !in s.goals
    ensures Outcomes(Inserted(s, id, req, goal, waitFor))
  {
    var t := Inserted(s, id, req, goal, waitFor);
    InsertedMembership(s, id, req, goal, waitFor);
    forall g | g in t.goals
      ensures GoalOk(t, g)
    {
      if g in s.goals { assert GoalOk(s, g); }
    }
    NewIdentity(s, threshold, id);
    forall m | m in Membership(t)
      ensures MemberSettled(t, m)
    {
      if m in Membership(s) {
        assert MemberSettled(s, m);
        if m.0 == goal && goal !in s.goals { MemberGoalExists(s, threshold, m); }
      }
    }
    WaitsOkShaped(s);
    SameAdvances(s, t);
    AdvanceKeepsWaitsOk(s, t);
    AdvanceKeepsSettled(s, t);
  }

  lemma MemberGoalExists(s: Db, threshold: nat, m: (GoalId, JobId))
    requires Scheduling(s, threshold) && m in Membership(s)
    ensures m.0 in s.goals && m.1 in s.facts
  {
    if m in s.candidates {
      assert CandidateOk(s, m);
    } else {
      assert IdentityOk(s, m.1);
    }
  }

  lemma InsertedAcyclic(s: Db, threshold: nat, id: JobId, req: SubmitRequest, goal: GoalId, waitFor: seq<JobId>)
    requires Inv(s, threshold) && id !in s.facts
    requires if req.shareGoal then goal in s.goals && s.goals[goal].state == Open else goal !in s.goals
    ensures Graph.Acyclic(Edges(Inserted(s, id, req, goal, waitFor)))
  {
    var t := Inserted(s, id, req, goal, waitFor);
    InsertedMembership(s, id, req, goal, waitFor);
    forall e | e in Edges(t)
      ensures (e in Edges(s) || e.1 == JobTarget(id)) && e.0 != JobTarget(id)
    {
      if e.0.JobTarget? {
        var p :| p in t.targets && LiveSubscription(t, p) && e == (JobTarget(p.0.job), p.1);
        assert p in s.targets && LiveSubscription(s, p);
        assert WaitOk(s, p.0);
      } else {
        var m :| m in Membership(t) && LiveMember(t, m) && e == (GoalTarget(m.0), JobTarget(m.1));
        if m.1 != id {
          MemberGoalExists(s, threshold, m);
          assert m in Membership(s) && LiveMember(s, m);
        }
      }
    }
    Graph.EdgesIntoSinkAcyclic(Edges(s), Edges(t), JobTarget(id));
  }

  lemma InsertedScheduling(s: Db, t: Db, threshold: nat, id: JobId, req: SubmitRequest, goal: GoalId, waitFor: seq<JobId>)
    requires Scheduling(s, threshold) && id !in s.facts && ValidSubmit(id, req)
    requires req.shareGoal ==> goal in s.goals
    requires t == Inserted(s, id, req, goal, waitFor).(waits := t.waits, targets := t.targets)
    ensures Scheduling(t, threshold)
  {
    NewIdentity(s, threshold, id);
    forall j | j in t.jobs
      ensures JobOk(t, threshold, j)
    {
      if j != id { assert JobOk(s, threshold, j); }
    }
    forall a, b | a in t.jobs && b in t.jobs
      ensures LeasesApart(t, a, b)
    {
      if a != id && b != id { assert LeasesApart(s, a, b); }
    }
    forall j | j in t.archive ensures ArchivedOk(t, j) { assert ArchivedOk(s, j); }
    forall j | j in t.facts
      ensures IdentityOk(t, j)
    {
      if j != id { assert IdentityOk(s, j); }
    }
    forall c | c in t.candidates ensures CandidateOk(t, c) { assert CandidateOk(s, c); }
  }

  lemma InsertedOwned(s: Db, t: Db, threshold: nat, id: JobId, req: SubmitRequest, goal: GoalId, waitFor: seq<JobId>)
    requires Inv(s, threshold) && id !in s.facts
    requires t == Inserted(s, id, req, goal, waitFor).(waits := t.waits, targets := t.targets)
    requires forall k :: k in t.waits && !(k == WaitKey(id, SUBMISSION) && req.dependencies != []) ==>
               k in s.waits && t.waits[k] == s.waits[k]
    ensures WaitsOwned(t)
  {
    forall k | k in t.waits
      ensures WaitOwned(t, k)
    {
      if k in s.waits {
        assert WaitOwned(s, k) && WaitOk(s, k);
      }
    }
  }

  lemma SubmitInv(s: Db, threshold: nat, id: JobId, req: SubmitRequest)
    requires Inv(s, threshold) && Submit(s, id, req).Ok?
    ensures Inv(Submit(s, id, req).value, threshold)
  {
    if id !in s.facts {
      var goal := SubmittedGoal(req);
      var waitFor := NormalizeWaitFor(s, req.waitFor).value;
      var inserted := Inserted(s, id, req, goal, waitFor);
      InsertedOutcomes(s, threshold, id, req, goal, waitFor);
      InsertedAcyclic(s, threshold, id, req, goal, waitFor);
      var t := inserted;
      if req.dependencies != [] {
        RegisterKeeps(inserted, id, WaitRequest(SUBMISSION, req.dependencies, None), true);
        t := RegisterWait(inserted, id, WaitRequest(SUBMISSION, req.dependencies, None), true).value;
      }
      InsertedScheduling(s, t, threshold, id, req, goal, waitFor);
      InsertedOwned(s, t, threshold, id, req, goal, waitFor);
    }
  }

  // ---- Goals -------------------------------------------------------------------------------

  /** The graph after attaching a candidate differs from before only at the goal. */
  lemma AttachEdges(s: Db, t: Db, g: GoalId, j: JobId, e: (Target, Target))
    requires IndexExact(s) && IndexExact(t) && Advances(s, t) && t.now == s.now && t.archive == s.archive
    requires Membership(t) == Membership(s) + {(g, j)}
    requires forall x :: x in t.goals && t.goals[x].state == Open ==> x in s.goals && s.goals[x].state == Open
    requires e in Edges(t) && e.0 != GoalTarget(g)
    ensures e in Edges(s)
  {
    if e.0.JobTarget? {
      var p :| p in t.targets && LiveSubscription(t, p) && e == (JobTarget(p.0.job), p.1);
      assert Moved(s, t, p.0);
      LaterShrinksTargets(s.waits[p.0], t.waits[p.0]);
      assert p.1 in PendingTargets(t.waits[p.0]);
      assert p in s.targets && LiveSubscription(s, p);
    } else {
      var m :| m in Membership(t) && LiveMember(t, m) && e == (GoalTarget(m.0), JobTarget(m.1));
      assert m in Membership(s) && LiveMember(s, m);
    }
  }

  lemma AttachAcyclic(s: Db, t: Db, g: GoalId, j: JobId)
    requires IndexExact(s) && IndexExact(t) && Advances(s, t) && t.now == s.now && t.archive == s.archive
    requires Membership(t) == Membership(s) + {(g, j)}
    requires forall x :: x in t.goals && t.goals[x].state == Open ==> x in s.goals && s.goals[x].state == Open
    requires Graph.Acyclic(Edges(s)) && !ClosesCycle(t, GoalTarget(g))
    ensures Graph.Acyclic(Edges(t))
  {
    Graph.WalkExact(Edges(t), GoalTarget(g));
    forall e | e in Edges(t) && e.0 !in {GoalTarget(g)}
      ensures e in Edges(s)
    {
      AttachEdges(s, t, g, j, e);
    }
    Graph.GuardedGrowthAcyclic(Edges(s), Edges(t), {GoalTarget(g)});
  }

  lemma AttachMembership(s: Db, g: GoalId, j: JobId)
    ensures Membership(s.(candidates := s.candidates + {(g, j)})) == Membership(s) + {(g, j)}
  {
    var t := s.(candidates := s.candidates + {(g, j)});
    assert forall m :: m in Membership(t) <==> m in Membership(s) + {(g, j)};
  }

  /** One goal closed, everything subscribed to it settled. */
  lemma CloseGoalOutcomes(s: Db, a: Db, g: GoalId)
    requires Outcomes(s) && a == s.(goals := a.goals, candidates := a.candidates)
    requires a.goals.Keys == s.goals.Keys && g in s.goals
    requires forall x :: x in s.goals && x != g ==> a.goals[x] == s.goals[x]
    requires a.goals[g] != s.goals[g] ==> a.goals[g].state != Open
    ensures var t := Settle(a, {GoalTarget(g)});
            Advances(s, t) && IndexExact(t) && WaitsOk(t) && WaitsSettled(t)
  {
    var t := Settle(a, {GoalTarget(g)});
    WaitsOkShaped(s);
    SameAdvances(s, a);
    assert Shaped(a);
    SettleAdvances(a, {GoalTarget(g)});
    AdvancesTransitive(s, a, t);
    SettleKeepsSettled(s, a, {GoalTarget(g)});
    AdvanceKeepsWaitsOk(s, t);
  }

  lemma AttachGoals(s: Db, t: Db, g: GoalId, j: JobId)
    requires GoalShapes(s) && GoalsSettled(s) && t.archive == s.archive && g in s.goals && s.goals[g].state == Open
    requires Membership(t) == Membership(s) + {(g, j)}
    requires if j in s.archive && s.archive[j].status == Success
             then t.goals == ResolveGoals(s.goals, s.now, {g}, j) else t.goals == s.goals
    ensures GoalShapes(t) && GoalsSettled(t)
  {
    forall x | x in t.goals ensures GoalOk(t, x) { assert GoalOk(s, x); }
    forall m | m in Membership(t)
      ensures MemberSettled(t, m)
    {
      if m in Membership(s) { assert MemberSettled(s, m); }
    }
  }

  lemma AttachScheduling(s: Db, t: Db, threshold: nat, g: GoalId, j: JobId)
    requires Scheduling(s, threshold) && g in s.goals && j in s.facts
    requires t == s.(candidates := s.candidates + {(g, j)}, goals := t.goals, waits := t.waits, targets := t.targets)
    requires t.goals.Keys == s.goals.Keys
    ensures Scheduling(t, threshold)
  {
    JobsFrame(s, t, threshold);
    forall x | x in t.archive ensures ArchivedOk(t, x) { assert ArchivedOk(s, x); }
    forall x | x in t.facts ensures IdentityOk(t, x) { assert IdentityOk(s, x); }
    forall c | c in t.candidates
      ensures CandidateOk(t, c)
    {
      if c in s.candidates { assert CandidateOk(s, c); }
    }
  }

  lemma AddCandidateInv(s: Db, threshold: nat, g: GoalId, j: JobId)
    requires Inv(s, threshold) && AddCandidate(s, g, j).Ok?
    ensures Inv(AddCandidate(s, g, j).value, threshold)
  {
    var t := AddCandidate(s, g, j).value;
    if t != s {
      var attached := s.(candidates := s.candidates + {(g, j)});
      AttachMembership(s, g, j);
      WaitsOkShaped(s);
      SameAdvances(s, attached);
      if j in s.archive && s.archive[j].status == Success {
        var a := attached.(goals := ResolveGoals(s.goals, s.now, {g}, j));
        CloseGoalOutcomes(s, a, g);
        MembershipFrame(attached, t);
      } else {
        AdvanceKeepsWaitsOk(s, t);
        AdvanceKeepsSettled(s, t);
      }
      AttachGoals(s, t, g, j);
      AttachScheduling(s, t, threshold, g, j);
      AttachAcyclic(s, t, g, j);
      WaitsMovedOwned(s, t);
    }
  }

  lemma FailGoalInv(s: Db, threshold: nat, g: GoalId, message: string)
    requires Inv(s, threshold) && FailGoal(s, g, message).Ok?
    ensures Inv(FailGoal(s, g, message).value, threshold)
  {
    var t := FailGoal(s, g, message).value;
    if t != s {
      var closed := s.goals[g].(state := Failed, revision := 2, failure := Some(FailureSnapshot(s, g, message)),
                                closedAt := Some(s.now));
      var a := s.(goals := s.goals[g := closed]);
      assert t == Settle(a, {GoalTarget(g)});
      CloseGoalOutcomes(s, a, g);
      MembershipFrame(s, t);
      JobsFrame(s, t, threshold);
      RetainedFrame(s, t);
      forall x | x in t.goals ensures GoalOk(t, x) { assert GoalOk(s, x); }
      forall m | m in Membership(t) ensures MemberSettled(t, m) { assert MemberSettled(s, m); }
      AdvanceKeepsAcyclic(s, t);
      WaitsMovedOwned(s, t);
    }
  }
}
