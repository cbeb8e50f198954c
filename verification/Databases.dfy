/** The tables as mutable state, and the stored procedures that update them in place. Each
    procedure is proved to end in the database its transaction function describes. */
module Databases {
  import opened Basics
  import opened RunPolicies
  import opened Tables
  import opened Waits
  import opened Steps
  import opened Invariants
  import opened Preservation
  import opened TriggerOrder
  import opened Orders
  import Graph

  lemma ResolveNone(goals: Goals, now: Time, winner: JobId)
    ensures ResolveGoals(goals, now, {}, winner) == goals
  {
  }

  lemma ResolveOneMore(goals: Goals, now: Time, resolved: set<GoalId>, g: GoalId, winner: JobId)
    requires g in goals && g !in resolved
    ensures var some := ResolveGoals(goals, now, resolved, winner);
            && g in some
            && some[g := some[g].(state := Succeeded, revision := 2, winner := Some(winner), closedAt := Some(now))]
               == ResolveGoals(goals, now, resolved + {g}, winner)
  {
  }

  /** Right after the archive row is inserted, its own waits cancelled. */
  lemma ArchivedAnnounces(s: Db, threshold: nat, id: JobId, detail: string)
    requires Inv(s, threshold) && id in s.jobs
    ensures var j := s.jobs[id];
            var a := s.(archive := s.archive[id := Archived(j.goal, Success, detail, j.route, j.alternate)]);
            Announcing(CancelWaits(a, id, None), id)
  {
    var j := s.jobs[id];
    var a := s.(archive := s.archive[id := Archived(j.goal, Success, detail, j.route, j.alternate)]);
    var c := CancelWaits(a, id, None);
    WaitsOkShaped(s);
    assert Shaped(a) && IndexExact(a);
    CancelAdvances(a, id, None);
    forall k | k in c.waits ensures WaitShape(c.waits[k]) { assert Moved(a, c, k); }
    forall k, t | k in c.waits && t in PendingTargets(c.waits[k]) && Resolved(c.goals, c.archive, t)
      ensures t == JobTarget(id)
    {
      assert Moved(a, c, k) && WaitSettled(s, k);
      LaterShrinksTargets(a.waits[k], c.waits[k]);
    }
  }

  // ---- The order in which work is offered -------------------------------------------------------

  type WorkRank = (Time, (Time, JobId))

  /** ORDER BY available_at, created_at, job_id. */
  function Rank(s: Db, id: JobId): WorkRank {
    if id in s.jobs && id in s.facts then (s.jobs[id].availableAt, (s.facts[id].createdAt, id)) else (0, (0, id))
  }

  predicate Before(a: WorkRank, b: WorkRank) {
    Lex(IntLe, Lex(IntLe, StringLe))(a, b)
  }

  lemma BeforeIsTotal()
    ensures TotalOrder(Before)
  {
    IntOrder();
    StringOrder();
    LexOrder(IntLe, StringLe);
    LexOrder(IntLe, Lex(IntLe, StringLe));
    var le := Lex(IntLe, Lex(IntLe, StringLe));
    assert forall a, b :: Before(a, b) == le(a, b);
  }

  method Earliest(s: Db, found: set<JobId>) returns (first: JobId)
    requires found != {}
    ensures first in found && forall id :: id in found ==> Before(Rank(s, first), Rank(s, id))
  {
    BeforeIsTotal();
    first :| first in found;
    var todo := found - {first};
    while todo != {}
      invariant first in found && todo <= found
      invariant forall id :: id in found - todo ==> Before(Rank(s, first), Rank(s, id))
      decreases todo
    {
      var id :| id in todo;
      if !Before(Rank(s, first), Rank(s, id)) { first := id; }
      todo := todo - {id};
    }
  }

  /** _validate_dependencies: one pass with the targets seen so far. */
  method CheckDependencies(deps: seq<Dependency>) returns (ok: bool)
    ensures ok == ValidDependencies(deps)
  {
    var seen: set<Target> := {};
    for i := 0 to |deps|
      invariant seen == set k | 0 <= k < i :: deps[k].target
      invariant ValidDependencies(deps[..i])
    {
      var d := deps[i];
      var named := match d.target
        case JobTarget(j) => j != ""
        case GoalTarget(g) => g != "" && d.condition == OnSuccess;
      if !named || d.target in seen {
        if named {
          var k :| 0 <= k < i && deps[k].target == d.target;
          assert deps[k].target == deps[i].target;
        }
        return false;
      }
      seen := seen + {d.target};
    }
    assert deps[..|deps|] == deps;
    return true;
  }

  /** normalize_wait_for: drop what has finished, refuse what never existed. */
  method CheckWaitFor(s: Db, ids: seq<JobId>) returns (r: Result<seq<JobId>>)
    ensures r == NormalizeWaitFor(s, ids)
  {
    var kept: seq<JobId> := [];
    var i := |ids|;
    while i > 0
      invariant 0 <= i <= |ids| && NormalizeWaitFor(s, ids[i..]) == Ok(kept)
    {
      i := i - 1;
      assert ids[i..][1..] == ids[i + 1..];
      if ids[i] !in s.jobs && ids[i] !in s.archive {
        UnknownRefused(s, ids, i);
        return Err("wait_for references unknown jobs");
      }
      if ids[i] in s.jobs { kept := [ids[i]] + kept; }
    }
    return Ok(kept);
  }

  lemma {:induction false} UnknownRefused(s: Db, ids: seq<JobId>, i: nat)
    requires i < |ids| && ids[i] !in s.jobs && ids[i] !in s.archive
    ensures NormalizeWaitFor(s, ids) == Err("wait_for references unknown jobs")
  {
    if i > 0 && (ids[0] in s.jobs || ids[0] in s.archive) {
      UnknownRefused(s, ids[1..], i - 1);
    }
  }

  class Database {
    var now: Time
    var facts: map<JobId, Facts>
    var jobs: map<JobId, Job>
    var archive: map<JobId, Archived>
    var clients: map<JobId, Client>
    var goals: map<GoalId, Goal>
    var candidates: set<(GoalId, JobId)>
    var waits: map<WaitKey, Wait>
    var targets: set<(WaitKey, Target)>
    var issued: set<LeaseId>

    function View(): Db
      reads this
    {
      Db(now, facts, jobs, archive, clients, goals, candidates, waits, targets, issued)
    }

    constructor ()
      ensures View() == EMPTY
    {
      now, facts, jobs, archive, clients := 0, map[], map[], map[], map[];
      goals, candidates, waits, targets, issued := map[], {}, map[], {}, {};
    }

    /** ROLLBACK to what the transaction found. */
    method Restore(v: Db)
      modifies this
      ensures View() == v
    {
      now, facts, jobs, archive, clients := v.now, v.facts, v.jobs, v.archive, v.clients;
      goals, candidates, waits, targets, issued := v.goals, v.candidates, v.waits, v.targets, v.issued;
    }

    /** _save_wait: replace the outcome, then write its subscription rows one by one. */
    method SaveWait(k: WaitKey, w: Wait)
      modifies this`waits, this`targets
      ensures View() == SaveWaits(old(View()), map[k := w])
    {
      waits := waits[k := w];
      targets := set p | p in targets && p.0 != k;
      ghost var others := targets;
      if w.state == Pending {
        for i := 0 to |w.bindings|
          invariant waits == old(waits)[k := w]
          invariant targets == others + (set b | b in w.bindings[..i] && b.state == Pending :: (k, b.dependency.target))
        {
          assert w.bindings[..i + 1] == w.bindings[..i] + [w.bindings[i]];
          if w.bindings[i].state == Pending {
            targets := targets + {(k, w.bindings[i].dependency.target)};
          }
        }
        assert w.bindings[..|w.bindings|] == w.bindings;
      }
      SavedRows(old(View()), View(), k, w, others);
    }

    /** _settle_target: re-evaluate every wait subscribed to one target. */
    method SettleTarget(t: Target)
      modifies this`waits, this`targets
      ensures View() == Settle(old(View()), {t})
    {
      var found := waits;
      var todo := set k | k in waits && (k, t) in targets;
      ghost var before, all, done := View(), Touched(View(), {t}), map[];
      TouchedByOne(before, t);
      SaveNone(before);
      while todo != {}
        invariant View() == SaveWaits(before, done) && SavingLoop(all, done, todo)
        decreases todo
      {
        var k :| k in todo;
        var w := EvaluateWait(goals, archive, now, found[k]);
        SaveWait(k, w);
        SaveOneMore(before, done, k, w);
        done, todo := done[k := w], todo - {k};
      }
      AllSaved(all, done);
    }

    /** _cancel_waits: close the consumer's own pending waits, except the one kept. */
    method CancelOwnWaits(job: JobId, keep: Option<WaitId>)
      modifies this`waits, this`targets
      ensures View() == CancelWaits(old(View()), job, keep)
    {
      var found := waits;
      var todo := set k | k in waits && k.job == job && waits[k].state == Pending && Some(k.wait) != keep;
      ghost var before, all, done := View(), CancelledWaits(View(), job, keep), map[];
      SaveNone(before);
      while todo != {}
        invariant View() == SaveWaits(before, done) && SavingLoop(all, done, todo)
        decreases todo
      {
        var k :| k in todo;
        SaveWait(k, Close(found[k], WasCancelled));
        SaveOneMore(before, done, k, Close(found[k], WasCancelled));
        done, todo := done[k := Close(found[k], WasCancelled)], todo - {k};
      }
      AllSaved(all, done);
    }

    /** _expire_goal_waits: settle the waits whose deadline has come. */
    method ExpireGoalWaits()
      modifies this`waits, this`targets
      ensures View() == ExpireWaits(old(View()))
    {
      var found := waits;
      var todo := set k | k in waits && waits[k].state == Pending && Expired(waits[k].deadline, now);
      ghost var before, all, done := View(), DueWaits(View()), map[];
      SaveNone(before);
      while todo != {}
        invariant View() == SaveWaits(before, done) && SavingLoop(all, done, todo)
        decreases todo
      {
        var k :| k in todo;
        var w := EvaluateWait(goals, archive, now, found[k]);
        SaveWait(k, w);
        SaveOneMore(before, done, k, w);
        done, todo := done[k := w], todo - {k};
      }
      AllSaved(all, done);
    }

    /** _resolve_goal: the first success closes an open goal and settles its waiters. */
    method ResolveGoal(g: GoalId, winner: JobId)
      modifies this`goals, this`waits, this`targets
      ensures var s := old(View());
              View() == if g in s.goals && s.goals[g].state == Open
                        then Settle(s.(goals := ResolveGoals(s.goals, s.now, {g}, winner)), {GoalTarget(g)}) else s
    {
      if g in goals && goals[g].state == Open {
        ResolveNone(goals, now, winner);
        ResolveOneMore(goals, now, {}, g, winner);
        assert {} + {g} == {g};
        goals := goals[g := goals[g].(state := Succeeded, revision := 2, winner := Some(winner), closedAt := Some(now))];
        SettleTarget(GoalTarget(g));
      }
    }

    /** The loop over a successful job's primary goal and candidacies. */
    method ResolveMemberships(id: JobId, primary: GoalId, ghost terminal: Db)
      requires Announcing(terminal, id) && View() == Stage(terminal, id, {})
      modifies this`goals, this`waits, this`targets
      ensures View() == Stage(terminal, id, OpenGoalsOf(terminal, id, primary))
    {
      var todo := {primary} + set c | c in candidates && c.1 == id :: c.0;
      ghost var all, resolved := todo, {};
      while todo != {}
        invariant View() == Stage(terminal, id, resolved)
        invariant todo <= all && resolved == set g | g in all - todo && g in terminal.goals && terminal.goals[g].state == Open
        decreases todo
      {
        var g :| g in todo;
        if g in goals && goals[g].state == Open {
          OneGoalStep(terminal, id, resolved, g);
          ResolveGoal(g, id);
          resolved := resolved + {g};
        } else {
          ResolveGoal(g, id);
        }
        todo := todo - {g};
      }
      assert resolved == OpenGoalsOf(terminal, id, primary);
    }

    /** The terminal_goals trigger: cancel, settle the job, then one goal after another. */
    method TerminalGoals(id: JobId, ghost before: Db, ghost threshold: nat)
      requires Inv(before, threshold) && id in before.jobs && id in archive
      requires archive[id] == Archived(before.jobs[id].goal, archive[id].status, archive[id].detail,
                                       before.jobs[id].route, before.jobs[id].alternate)
      requires View() == before.(archive := before.archive[id := archive[id]])
      modifies this`goals, this`waits, this`targets
      ensures View() == ArchiveJob(before, id, archive[id].status, archive[id].detail).(jobs := before.jobs)
    {
      var row := archive[id];
      CancelOwnWaits(id, None);
      ghost var terminal := View();
      SettleTarget(JobTarget(id));
      FirstStage(terminal, id);
      if row.status == Success {
        ArchivedAnnounces(before, threshold, id, row.detail);
        ResolveMemberships(id, row.goal, terminal);
      }
      StageIsArchive(before, terminal, id, row.status, row.detail);
    }

    /** _complete_native_locked_job and the deletion loop: archive the row, let the trigger
        run, delete the active row,
        wake the legacy waiters. */
    method Archive(id: JobId, status: CompletionStatus, detail: string, ghost threshold: nat)
      requires Inv(View(), threshold) && id in jobs
      modifies this
      ensures View() == ArchiveJob(old(View()), id, status, detail)
    {
      ghost var before := View();
      var j := jobs[id];
      archive := archive[id := Archived(j.goal, status, detail, j.route, j.alternate)];
      TerminalGoals(id, before, threshold);
      jobs := jobs - {id};
      jobs := map x | x in jobs :: Woken(jobs[x], id, now);
      assert jobs == WakeWaiters(before.jobs, id, before.now);
    }

    // ---- Transactions ------------------------------------------------------------------------

    /** get_native_work: expire what is due, then lease the first eligible row nobody has locked. */
    method TakeWork(threshold: nat, req: WorkRequest, locked: set<JobId>) returns (ok: bool, picked: Option<JobId>)
      modifies this
      ensures ok == ValidWorkRequest(req) && (!ok ==> picked.None? && View() == old(View()))
      ensures ok && picked.None? ==> View() == ExpireWaits(old(View()))
      ensures ok ==> (picked.None? <==> forall id :: Eligible(ExpireWaits(old(View())), threshold, req, id) ==> id in locked)
      ensures picked.Some? ==>
                && Eligible(ExpireWaits(old(View())), threshold, req, picked.value) && picked.value !in locked
                && (forall id :: Eligible(ExpireWaits(old(View())), threshold, req, id) && id !in locked ==>
                      Before(Rank(ExpireWaits(old(View())), picked.value), Rank(ExpireWaits(old(View())), id)))
                && GetWork(old(View()), threshold, req, picked.value) == Ok(View())
    {
      if !ValidWorkRequest(req) { return false, None; }
      ExpireGoalWaits();
      ghost var e := View();
      var found := set id | id in jobs && id !in locked && Eligible(View(), threshold, req, id);
      assert forall id :: Eligible(e, threshold, req, id) && id !in locked ==> id in found;
      if found == {} { return true, None; }
      var id := Earliest(View(), found);
      jobs := jobs[id := Leased(jobs[id], now, req)];
      issued := issued + {req.leaseId};
      return true, Some(id);
    }

    /** claim_native_task. */
    method TakeTask(threshold: nat, req: ClaimRequest, id: JobId) returns (ok: bool)
      modifies this
      ensures var r := ClaimTask(old(View()), threshold, req, id);
              ok == r.Ok? && View() == if ok then r.value else old(View())
    {
      if !ValidClaim(req) { return false; }
      var found := View();
      ExpireGoalWaits();
      if !(id in jobs && StatusAt(View(), threshold, id, now) == Ready && jobs[id].route == TaskColumns(req.jobType, req.task)) {
        Restore(found);
        return false;
      }
      jobs := jobs[id := Claimed(jobs[id], now, req)];
      issued := issued + {req.leaseId};
      return true;
    }

    /** renew_native_lease. */
    method RenewLease(id: JobId, lease: LeaseId, worker: string, seconds: int) returns (ok: bool)
      modifies this`jobs
      ensures var r := Renew(old(View()), id, lease, worker, seconds);
              ok == r.Ok? && View() == if ok then r.value else old(View())
    {
      if seconds < 1 || seconds > 86400 || id !in jobs || jobs[id].lease.None? { return false; }
      var l := jobs[id].lease.value;
      if l.id != lease || l.worker != worker || l.expiresAt <= now || jobs[id].cancelRequested { return false; }
      jobs := jobs[id := jobs[id].(lease := Some(l.(expiresAt := now + seconds * SECOND)))];
      return true;
    }

    /** complete_native_job and complete_native_unheld_job. */
    method CompleteJob(threshold: nat, id: JobId, lease: Option<LeaseId>, worker: string,
                       status: CompletionStatus, detail: string, update: Option<PayloadUpdate>) returns (ok: bool)
      requires Inv(View(), threshold)
      modifies this
      ensures var r := Complete(old(View()), threshold, id, lease, worker, status, detail, update);
              ok == r.Ok? && View() == if ok then r.value else old(View())
    {
      if worker == "" || id !in jobs || id !in clients || id !in facts { return false; }
      if lease.None? {
        if update.Some? || !Unheld(StatusAt(View(), threshold, id, now)) { return false; }
      } else {
        if !Validates(View(), id, lease.value, worker) { return false; }
        match UpdateClient(clients[id], update) {
          case Err(_) => return false;
          case Ok(c) =>
            ClientUpdateInv(View(), threshold, id, c);
            clients := clients[id := c];
        }
      }
      Archive(id, status, detail, threshold);
      return true;
    }

    /** cancel_native_job. */
    method CancelJob(threshold: nat, id: JobId, worker: string, reason: string) returns (ok: bool)
      requires Inv(View(), threshold)
      modifies this
      ensures var r := Cancel(old(View()), id, worker, reason);
              ok == r.Ok? && View() == if ok then r.value else old(View())
    {
      if worker == "" || id !in jobs { return false; }
      Archive(id, Cancelled, reason, threshold);
      return true;
    }

    /** One turn of the deletion loop. */
    method HideOne(threshold: nat, id: JobId, at: Time)
      requires Inv(View(), threshold) && id in facts && facts[id].hiddenAt.None?
      modifies this
      ensures View() == DeleteOne(old(View()), id, at)
    {
      if id in jobs {
        Archive(id, Cancelled, "job deleted", threshold);
      }
      facts := facts[id := facts[id].(hiddenAt := Some(at))];
    }

    /** delete_native_jobs: count on a dry run, else archive and hide every match in turn. */
    method HideJobs(threshold: nat, req: DeleteRequest, dryRun: bool) returns (ok: bool, matched: nat, ghost order: seq<JobId>)
      requires Inv(View(), threshold)
      modifies this
      ensures ok == ValidDelete(req)
      ensures matched == if ok then |Selected(old(View()), req)| else 0
      ensures !ok || dryRun ==> View() == old(View())
      ensures ok && !dryRun ==> Delete(old(View()), req, order) == Ok(View())
    {
      order, matched := [], 0;
      ok := req.all != (req.ids != {} || req.cutoff.Some? || req.accepts.Some?);
      if !ok { return; }
      var todo := Selected(View(), req);
      if dryRun {
        matched := |todo|;
        return;
      }
      ghost var before, all := View(), todo;
      while todo != {}
        invariant View() == DeleteAll(before, order, req.at) && matched == |all| - |todo|
        invariant HidingLoop(before, threshold, all, order, todo, req.at)
        decreases todo
      {
        var id :| id in todo;
        HidingStep(before, threshold, all, order, todo, req.at, id);
        HideOne(threshold, id, req.at);
        order, todo, matched := order + [id], todo - {id}, matched + 1;
      }
      assert all - todo == all;
    }

    /** Each target exists and is not the consumer itself. */
    method CheckTargets(job: JobId, deps: seq<Dependency>) returns (ok: bool)
      ensures ok <==> forall d :: d in deps ==> d.target != JobTarget(job) && TargetExists(View(), d.target)
    {
      for i := 0 to |deps|
        invariant forall n :: 0 <= n < i ==> deps[n].target != JobTarget(job) && TargetExists(View(), deps[n].target)
      {
        if deps[i].target == JobTarget(job) || !TargetExists(View(), deps[i].target) {
          assert deps[i] in deps;
          return false;
        }
      }
      return true;
    }

    /** _register_wait: evaluate and store, then look for a cycle through the consumer. */
    method StoreWait(job: JobId, req: WaitRequest, submission: bool) returns (ok: bool)
      modifies this`waits, this`targets
      ensures var r := RegisterWait(old(View()), job, req, submission);
              ok == r.Ok? && View() == if ok then r.value else old(View())
    {
      var k := WaitKey(job, req.id);
      if !ValidWaitId(req.id) || (req.id == SUBMISSION && !submission) { return false; }
      var valid := CheckDependencies(req.dependencies);
      if req.dependencies == [] || !valid { return false; }
      if k in waits {
        if waits[k].descriptor != req.dependencies || waits[k].deadline != req.deadline { return false; }
        var again := EvaluateWait(goals, archive, now, waits[k]);
        SaveWait(k, again);
        return true;
      }
      var usable := CheckTargets(job, req.dependencies);
      if !usable { return false; }
      var w := EvaluateWait(goals, archive, now, NewWait(req));
      var foundWaits, foundTargets := waits, targets;
      SaveWait(k, w);
      if ClosesCycle(View(), JobTarget(job)) {
        waits, targets := foundWaits, foundTargets;
        return false;
      }
      return true;
    }

    /** The old waits give way to the new one. */
    method ReplaceWait(id: JobId, wait: Option<WaitRequest>) returns (ok: bool)
      modifies this`waits, this`targets
      ensures var c := CancelWaits(old(View()), id, if wait.Some? then Some(wait.value.id) else None);
              var r := if wait.Some? then RegisterWait(c, id, wait.value, false) else Ok(c);
              ok == r.Ok? && (ok ==> View() == r.value)
    {
      CancelOwnWaits(id, if wait.Some? then Some(wait.value.id) else None);
      ok := true;
      if wait.Some? {
        ok := StoreWait(id, wait.value, false);
      }
    }

    /** reschedule_native_job: cancel the old waits, register the new one, rewrite the row. */
    method RescheduleJob(threshold: nat, id: JobId, lease: Option<LeaseId>, worker: string, req: RescheduleRequest)
      returns (ok: bool)
      modifies this
      ensures var r := Reschedule(old(View()), threshold, id, lease, worker, req);
              ok == r.Ok? && View() == if ok then r.value else old(View())
    {
      if worker == "" || !ValidReschedule(id, req) || id !in jobs || id !in clients || id !in facts { return false; }
      if lease.None? && (req.update.Some? || !Unheld(StatusAt(View(), threshold, id, now))) { return false; }
      if lease.Some? && !Validates(View(), id, lease.value, worker) { return false; }
      var found := View();
      match UpdateClient(clients[id], req.update) {
        case Err(_) => return false;
        case Ok(c) => clients := clients[id := c];
      }
      var replaced := ReplaceWait(id, req.wait);
      if !replaced {
        Restore(found);
        return false;
      }
      var kept := CheckWaitFor(View(), req.waitFor);
      if kept.Err? {
        Restore(found);
        return false;
      }
      jobs := jobs[id := Rescheduled(jobs[id], req, kept.value, now)];
      return true;
    }

    /** The rows of a new job and, unless it joins an open goal, of its own goal. */
    method InsertJob(id: JobId, req: SubmitRequest, goal: GoalId, waitFor: seq<JobId>)
      modifies this
      ensures View() == Inserted(old(View()), id, req, goal, waitFor)
    {
      if !req.shareGoal { goals := goals[goal := Goal(Open, 1, None, None, now, None)]; }
      facts := facts[id := NewFacts(req, goal, now)];
      jobs := jobs[id := NewJob(req, goal, waitFor, now)];
      clients := clients[id := NewClient(req)];
    }

    /** submit_native_job: a retry of the same facts succeeds without a write. */
    method SubmitJob(id: JobId, req: SubmitRequest) returns (ok: bool)
      modifies this
      ensures var r := Submit(old(View()), id, req);
              ok == r.Ok? && View() == if ok then r.value else old(View())
    {
      if !ValidSubmit(id, req) { return false; }
      if id in facts {
        ok := (req.goal.None? || req.goal.value == facts[id].goal) && !ParentHidden(View(), req) && SameFacts(facts[id], req);
        return;
      }
      var goal := SubmittedGoal(req);
      if req.shareGoal && (req.preparation.None? || goal !in goals || goals[goal].state != Open) { return false; }
      if !req.shareGoal && goal in goals { return false; }
      if ParentHidden(View(), req) { return false; }
      var kept := CheckWaitFor(View(), req.waitFor);
      if kept.Err? { return false; }
      var found := View();
      InsertJob(id, req, goal, kept.value);
      if req.dependencies != [] {
        var registered := StoreWait(id, WaitRequest(SUBMISSION, req.dependencies, None), true);
        if !registered {
          Restore(found);
          return false;
        }
      }
      if req.shareGoal && ClosesCycle(View(), GoalTarget(goal)) {
        Restore(found);
        return false;
      }
      return true;
    }

    /** add_goal_candidate. */
    method AttachCandidate(g: GoalId, j: JobId) returns (ok: bool)
      modifies this
      ensures var r := AddCandidate(old(View()), g, j);
              ok == r.Ok? && View() == if ok then r.value else old(View())
    {
      if g !in goals || j !in facts { return false; }
      if facts[j].goal == g || (g, j) in candidates { return true; }
      if goals[g].state != Open { return false; }
      var found := View();
      candidates := candidates + {(g, j)};
      if j in archive && archive[j].status == Success {
        ResolveGoal(g, j);
      }
      if ClosesCycle(View(), GoalTarget(g)) {
        Restore(found);
        return false;
      }
      return true;
    }

    /** fail_goal: freeze a snapshot of the members, close, settle. */
    method CloseGoal(g: GoalId, message: string) returns (ok: bool)
      modifies this
      ensures var r := FailGoal(old(View()), g, message);
              ok == r.Ok? && View() == if ok then r.value else old(View())
    {
      if message == "" || g !in goals { return false; }
      if goals[g].state == Failed && goals[g].failure.Some? && goals[g].failure.value.GoalFailure?
         && goals[g].failure.value.message == message { return true; }
      if goals[g].state != Open { return false; }
      var snapshot := FailureSnapshot(View(), g, message);
      goals := goals[g := goals[g].(state := Failed, revision := 2, failure := Some(snapshot), closedAt := Some(now))];
      SettleTarget(GoalTarget(g));
      return true;
    }
  }

  lemma {:induction false} DeleteOneMore(s: Db, order: seq<JobId>, id: JobId, at: Time)
    ensures DeleteAll(s, order + [id], at) == DeleteOne(DeleteAll(s, order, at), id, at)
    decreases |order|
  {
    if order == [] {
      assert order + [id] == [id] && [id][1..] == [];
    } else {
      assert (order + [id])[0] == order[0] && (order + [id])[1..] == order[1..] + [id];
      DeleteOneMore(DeleteOne(s, order[0], at), order[1..], id, at);
    }
  }

  /** Deleting others leaves a visible identity visible. */
  lemma {:induction false} StillVisible(s: Db, order: seq<JobId>, at: Time, id: JobId)
    requires id !in order && id in s.facts
    ensures var t := DeleteAll(s, order, at); id in t.facts && t.facts[id] == s.facts[id]
    decreases |order|
  {
    if order != [] {
      StillVisible(DeleteOne(s, order[0], at), order[1..], at, id);
    }
  }

  /** A hiding loop has hidden `order` out of `all`, all of it visible when it began. */
  ghost predicate HidingLoop(s: Db, threshold: nat, all: set<JobId>, order: seq<JobId>, todo: set<JobId>, at: Time) {
    && Inv(DeleteAll(s, order, at), threshold) && todo <= all && Enumerates(order, all - todo)
    && forall j :: j in all ==> j in s.facts && s.facts[j].hiddenAt.None?
  }

  lemma HidingStep(s: Db, threshold: nat, all: set<JobId>, order: seq<JobId>, todo: set<JobId>, at: Time, id: JobId)
    requires HidingLoop(s, threshold, all, order, todo, at) && id in todo
    ensures var t := DeleteAll(s, order, at);
            && id in t.facts && t.facts[id].hiddenAt.None?
            && DeleteAll(s, order + [id], at) == DeleteOne(t, id, at)
            && HidingLoop(s, threshold, all, order + [id], todo - {id}, at)
  {
    var t := DeleteAll(s, order, at);
    DeleteOneInv(t, threshold, id, at);
    DeleteOneMore(s, order, id, at);
    StillVisible(s, order, at, id);
    OneMoreListed(order, all - todo, id);
    assert all - (todo - {id}) == all - todo + {id};
  }

  lemma OneMoreListed(order: seq<JobId>, listed: set<JobId>, id: JobId)
    requires Enumerates(order, listed) && id !in listed
    ensures Enumerates(order + [id], listed + {id})
  {
  }

  lemma StageIsArchive(s: Db, terminal: Db, id: JobId, status: CompletionStatus, detail: string)
    requires id in s.jobs
    requires terminal == CancelWaits(s.(archive := s.archive[id := Archived(s.jobs[id].goal, status, detail,
                                                                             s.jobs[id].route, s.jobs[id].alternate)]), id, None)
    ensures Stage(terminal, id, if status == Success then OpenGoalsOf(terminal, id, s.jobs[id].goal) else {})
            == ArchiveJob(s, id, status, detail).(jobs := s.jobs)
  {
    assert OpenGoalsOf(terminal, id, s.jobs[id].goal) == OpenGoalsOf(s, id, s.jobs[id].goal);
  }

  lemma FirstStage(s: Db, id: JobId)
    ensures Settle(s, {JobTarget(id)}) == Stage(s, id, {})
  {
    ResolveNone(s.goals, s.now, id);
    assert Announces(id, {}) == {JobTarget(id)};
  }

  lemma OneGoalStep(s: Db, id: JobId, resolved: set<GoalId>, g: GoalId)
    requires Announcing(s, id) && g !in resolved
    requires forall x :: x in resolved + {g} ==> x in s.goals && s.goals[x].state == Open
    ensures var a := Stage(s, id, resolved);
            Settle(a.(goals := ResolveGoals(a.goals, a.now, {g}, id)), {GoalTarget(g)}) == Stage(s, id, resolved + {g})
  {
    var a := Stage(s, id, resolved);
    OneGoalMore(s, id, resolved, g);
    assert ResolveGoals(a.goals, a.now, {g}, id) == ResolveGoals(s.goals, s.now, resolved + {g}, id);
  }

  /** A saving loop has stored `done` out of `all` and still has `todo` to store. */
  ghost predicate SavingLoop(all: map<WaitKey, Wait>, done: map<WaitKey, Wait>, todo: set<WaitKey>) {
    && todo == all.Keys - done.Keys
    && forall k :: k in done ==> k in all && done[k] == all[k]
  }

  lemma AllSaved(all: map<WaitKey, Wait>, done: map<WaitKey, Wait>)
    requires SavingLoop(all, done, {})
    ensures done == all
  {
    forall k | k in all ensures k in done { assert k !in all.Keys - done.Keys; }
  }

  lemma TouchedByOne(s: Db, t: Target)
    ensures Touched(s, {t}).Keys == set k | k in s.waits && (k, t) in s.targets
    ensures forall k :: k in Touched(s, {t}) ==> Touched(s, {t})[k] == Evaluate(s.goals, s.archive, s.now, s.waits[k])
  {
  }

  lemma SavedRows(s: Db, t: Db, k: WaitKey, w: Wait, others: set<(WaitKey, Target)>)
    requires t == s.(waits := s.waits[k := w], targets := t.targets)
    requires others == set p | p in s.targets && p.0 != k
    requires t.targets == others + (if w.state == Pending
                                    then set b | b in w.bindings && b.state == Pending :: (k, b.dependency.target) else {})
    ensures t == SaveWaits(s, map[k := w])
  {
    var u := SaveWaits(s, map[k := w]);
    assert t.waits == u.waits;
    forall p ensures p in t.targets <==> p in u.targets {
      SavedTarget(s, map[k := w], p);
      if p.0 == k && p.1 in PendingTargets(w) {
        var b :| b in w.bindings && b.state == Pending && b.dependency.target == p.1;
      }
    }
    assert t.targets == u.targets;
  }
}
