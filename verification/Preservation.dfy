/** Transactions on rows, leases, the archive and visibility keep the invariant. */
module Preservation {
  import opened Basics
  import opened RunPolicies
  import opened Tables
  import opened Waits
  import opened Steps
  import opened Invariants
  import Graph

  lemma EmptyInv(threshold: nat)
    ensures Inv(EMPTY, threshold)
  {
    assert Edges(EMPTY) == {};
    Graph.EmptyAcyclic<Target>();
  }

  // ---- What an unchanged part keeps -----------------------------------------------------

  lemma SameAdvances(s: Db, t: Db)
    requires t.waits == s.waits && Shaped(s)
    ensures Advances(s, t)
  {
    forall k | k in s.waits
      ensures Moved(s, t, k)
    {
    }
  }

  lemma GoalsFrame(s: Db, t: Db)
    requires GoalShapes(s) && GoalsSettled(s) && t.goals == s.goals && t.archive == s.archive
    requires Membership(t) == Membership(s)
    ensures GoalShapes(t) && GoalsSettled(t)
  {
    forall g | g in t.goals
      ensures GoalOk(t, g)
    {
      assert GoalOk(s, g);
    }
    forall m | m in Membership(t)
      ensures MemberSettled(t, m)
    {
      assert MemberSettled(s, m);
    }
  }

  /** Nothing closes, nothing is archived, waits only advance: outcomes stay as they are. */
  lemma OutcomesFrame(s: Db, t: Db)
    requires Outcomes(s) && t.goals == s.goals && t.archive == s.archive && Membership(t) == Membership(s)
    requires Advances(s, t) && IndexExact(t) && forall j :: j in s.facts ==> j in t.facts
    ensures Outcomes(t)
  {
    GoalsFrame(s, t);
    AdvanceKeepsWaitsOk(s, t);
    AdvanceKeepsSettled(s, t);
  }

  /** Outcomes and the graph read neither active rows nor client state nor issued ids. */
  lemma RowsDoNotMatter(s: Db, t: Db)
    requires t == s.(jobs := t.jobs, issued := t.issued, clients := t.clients)
    requires Outcomes(s) && Graph.Acyclic(Edges(s))
    ensures Outcomes(t) && Graph.Acyclic(Edges(t))
  {
    MembershipFrame(s, t);
    WaitsOkShaped(s);
    SameAdvances(s, t);
    OutcomesFrame(s, t);
    AdvanceKeepsAcyclic(s, t);
  }

  /** Facts, archive and candidates keep their rows when only active rows change in place. */
  lemma RetainedFrame(s: Db, t: Db)
    requires ArchivedJobs(s) && Identities(s) && Candidates(s)
    requires t.facts == s.facts && t.archive == s.archive && t.candidates == s.candidates
    requires t.goals.Keys == s.goals.Keys && t.jobs.Keys == s.jobs.Keys && t.clients.Keys == s.clients.Keys
    ensures ArchivedJobs(t) && Identities(t) && Candidates(t)
  {
    forall j | j in t.archive ensures ArchivedOk(t, j) { assert ArchivedOk(s, j); }
    forall j | j in t.facts ensures IdentityOk(t, j) { assert IdentityOk(s, j); }
    forall c | c in t.candidates ensures CandidateOk(t, c) { assert CandidateOk(s, c); }
  }

  // ---- Transactions that rewrite one active row -----------------------------------------

  /** The row may change its lease to one never issued, keep it, or drop it. */
  ghost predicate LeaseMove(s: Db, old_: Job, new_: Job) {
    new_.lease.Some? ==>
      new_.lease.value.id !in s.issued || (old_.lease.Some? && old_.lease.value.id == new_.lease.value.id)
  }

  lemma RowUpdateJobs(s: Db, threshold: nat, id: JobId, row: Job, issued: set<LeaseId>)
    requires Jobs(s, threshold) && LeasesDistinct(s) && id in s.jobs && s.issued <= issued
    requires row.goal == s.jobs[id].goal
    requires RowOk(row, issued) && StreakOk(row, threshold) && LeaseMove(s, s.jobs[id], row)
    ensures var t := s.(jobs := s.jobs[id := row], issued := issued);
            Jobs(t, threshold) && LeasesDistinct(t)
  {
    var t := s.(jobs := s.jobs[id := row], issued := issued);
    forall j | j in t.jobs
      ensures JobOk(t, threshold, j)
    {
      assert JobOk(s, threshold, j);
    }
    forall a, b | a in t.jobs && b in t.jobs
      ensures LeasesApart(t, a, b)
    {
      assert LeasesApart(s, a, b) && JobOk(s, threshold, a) && JobOk(s, threshold, b);
    }
  }

  ghost predicate NoPendingWait(s: Db, id: JobId) {
    forall k :: k in s.waits && k.job == id ==> s.waits[k].state != Pending
  }

  lemma RowUpdateOwners(s: Db, id: JobId, row: Job, issued: set<LeaseId>)
    requires WaitsOwned(s) && id in s.jobs && row.dependencyWait == s.jobs[id].dependencyWait
    requires row.lease.Some? ==> NoPendingWait(s, id)
    ensures WaitsOwned(s.(jobs := s.jobs[id := row], issued := issued))
  {
    var t := s.(jobs := s.jobs[id := row], issued := issued);
    forall k | k in t.waits
      ensures WaitOwned(t, k)
    {
      assert WaitOwned(s, k);
    }
  }

  lemma RowUpdateInv(s: Db, threshold: nat, id: JobId, row: Job, issued: set<LeaseId>)
    requires Inv(s, threshold) && id in s.jobs && s.issued <= issued
    requires row.goal == s.jobs[id].goal && row.dependencyWait == s.jobs[id].dependencyWait
    requires RowOk(row, issued) && StreakOk(row, threshold) && LeaseMove(s, s.jobs[id], row)
    requires row.lease.Some? ==> NoPendingWait(s, id)
    ensures Inv(s.(jobs := s.jobs[id := row], issued := issued), threshold)
  {
    var t := s.(jobs := s.jobs[id := row], issued := issued);
    RowsDoNotMatter(s, t);
    RowUpdateJobs(s, threshold, id, row, issued);
    RowUpdateOwners(s, id, row, issued);
    RetainedFrame(s, t);
  }

  lemma WaitsMovedOwned(s: Db, t: Db)
    requires WaitsOwned(s) && Advances(s, t) && t.jobs == s.jobs
    ensures WaitsOwned(t)
  {
    forall k | k in t.waits
      ensures WaitOwned(t, k)
    {
      assert WaitOwned(s, k) && Moved(s, t, k);
    }
  }

  lemma JobsFrame(s: Db, t: Db, threshold: nat)
    requires Jobs(s, threshold) && LeasesDistinct(s)
    requires t.jobs == s.jobs && t.facts == s.facts && t.archive == s.archive && t.issued == s.issued
    ensures Jobs(t, threshold) && LeasesDistinct(t)
  {
    forall j | j in t.jobs ensures JobOk(t, threshold, j) { assert JobOk(s, threshold, j); }
    forall a, b | a in t.jobs && b in t.jobs ensures LeasesApart(t, a, b) { assert LeasesApart(s, a, b); }
  }

  /** Only waits moved. */
  lemma WaitsOnlyInv(s: Db, t: Db, threshold: nat)
    requires Inv(s, threshold) && t == s.(waits := t.waits, targets := t.targets)
    requires Advances(s, t) && IndexExact(t)
    ensures Inv(t, threshold)
  {
    MembershipFrame(s, t);
    JobsFrame(s, t, threshold);
    RetainedFrame(s, t);
    OutcomesFrame(s, t);
    WaitsMovedOwned(s, t);
    AdvanceKeepsAcyclic(s, t);
  }

  ghost predicate NothingDue(s: Db) {
    forall k :: k in s.waits ==> !(s.waits[k].state == Pending && Expired(s.waits[k].deadline, s.now))
  }

  lemma ExpireSettlesDue(s: Db)
    ensures NothingDue(ExpireWaits(s))
  {
  }

  lemma ExpireInv(s: Db, threshold: nat)
    requires Inv(s, threshold)
    ensures Inv(ExpireWaits(s), threshold) && NothingDue(ExpireWaits(s))
  {
    WaitsOkShaped(s);
    ExpireAdvances(s);
    ExpireSettlesDue(s);
    WaitsOnlyInv(s, ExpireWaits(s), threshold);
  }

  /** After due waits are settled, a job that is not blocked has no pending wait at all. */
  lemma UnblockedHasNoPending(s: Db, id: JobId)
    requires WaitsOwned(s) && NothingDue(s) && id in s.jobs && !WaitBlocks(s, id, s.jobs[id], s.now)
    ensures NoPendingWait(s, id)
  {
    forall k | k in s.waits && k.job == id
      ensures s.waits[k].state != Pending
    {
      assert WaitOwned(s, k);
    }
  }

  lemma LeasedRowOk(j: Job, now: Time, req: WorkRequest, issued: set<LeaseId>)
    requires RowOk(j, issued) && ValidWorkRequest(req)
    ensures RowOk(Leased(j, now, req), issued + {req.leaseId})
  {
  }

  lemma GetWorkInv(s: Db, threshold: nat, req: WorkRequest, id: JobId)
    requires Inv(s, threshold) && GetWork(s, threshold, req, id).Ok? && req.leaseId !in s.issued
    ensures Inv(GetWork(s, threshold, req, id).value, threshold)
  {
    var e := ExpireWaits(s);
    ExpireInv(s, threshold);
    if Eligible(e, threshold, req, id) {
      assert JobOk(e, threshold, id);
      LeasedRowOk(e.jobs[id], e.now, req, e.issued);
      UnblockedHasNoPending(e, id);
      RowUpdateInv(e, threshold, id, Leased(e.jobs[id], e.now, req), e.issued + {req.leaseId});
    }
  }

  lemma ClaimTaskInv(s: Db, threshold: nat, req: ClaimRequest, id: JobId)
    requires Inv(s, threshold) && ClaimTask(s, threshold, req, id).Ok? && req.leaseId !in s.issued
    ensures Inv(ClaimTask(s, threshold, req, id).value, threshold)
  {
    var e := ExpireWaits(s);
    ExpireInv(s, threshold);
    assert JobOk(e, threshold, id);
    UnblockedHasNoPending(e, id);
    RowUpdateInv(e, threshold, id, Claimed(e.jobs[id], e.now, req), e.issued + {req.leaseId});
  }

  lemma LeasedHasNoPending(s: Db, id: JobId)
    requires WaitsOwned(s) && id in s.jobs && s.jobs[id].lease.Some?
    ensures NoPendingWait(s, id)
  {
    forall k | k in s.waits && k.job == id
      ensures s.waits[k].state != Pending
    {
      assert WaitOwned(s, k);
    }
  }

  lemma RenewInv(s: Db, threshold: nat, id: JobId, lease: LeaseId, worker: string, seconds: int)
    requires Inv(s, threshold) && Renew(s, id, lease, worker, seconds).Ok?
    ensures Inv(Renew(s, id, lease, worker, seconds).value, threshold)
  {
    var j := s.jobs[id];
    assert JobOk(s, threshold, id);
    LeasedHasNoPending(s, id);
    var row := j.(lease := Some(j.lease.value.(expiresAt := s.now + seconds * SECOND)));
    RowUpdateInv(s, threshold, id, row, s.issued);
    assert Renew(s, id, lease, worker, seconds).value == s.(jobs := s.jobs[id := row], issued := s.issued);
  }

  lemma ClearCrashInv(s: Db, threshold: nat, id: JobId)
    requires Inv(s, threshold) && ClearCrash(s, id).Ok?
    ensures Inv(ClearCrash(s, id).value, threshold)
  {
    assert JobOk(s, threshold, id);
    if s.jobs[id].lease.Some? {
      LeasedHasNoPending(s, id);
    }
    var row := s.jobs[id].(streak := 0);
    RowUpdateInv(s, threshold, id, row, s.issued);
    assert ClearCrash(s, id).value == s.(jobs := s.jobs[id := row], issued := s.issued);
  }

  lemma TickInv(s: Db, threshold: nat, n: nat)
    requires Inv(s, threshold)
    ensures Inv(s.(now := s.now + n), threshold)
  {
    var t := s.(now := s.now + n);
    WaitsOkShaped(s);
    SameAdvances(s, t);
    MembershipFrame(s, t);
    JobsFrame(s, t, threshold);
    RetainedFrame(s, t);
    OutcomesFrame(s, t);
    WaitsMovedOwned(s, t);
    AdvanceKeepsAcyclic(s, t);
  }

  // ---- Archiving ------------------------------------------------------------------------

  function ResolvedBy(s: Db, id: JobId, status: CompletionStatus): set<GoalId>
    requires id in s.jobs
  {
    if status == Success then OpenGoalsOf(s, id, s.jobs[id].goal) else {}
  }

  /** ArchiveJob before it settles anything: archived, own waits cancelled, goals resolved. */
  function TerminalStage(s: Db, id: JobId, status: CompletionStatus, detail: string): Db
    requires id in s.jobs
  {
    var j := s.jobs[id];
    CancelWaits(s.(archive := s.archive[id := Archived(j.goal, status, detail, j.route, j.alternate)]), id, None)
      .(goals := ResolveGoals(s.goals, s.now, ResolvedBy(s, id, status), id))
  }

  function Announced(s: Db, id: JobId, status: CompletionStatus): set<Target>
    requires id in s.jobs
  {
    {JobTarget(id)} + GoalTargets(ResolvedBy(s, id, status))
  }

  lemma TerminalWaits(s: Db, id: JobId, status: CompletionStatus, detail: string)
    requires WaitsOk(s) && IndexExact(s) && id in s.jobs
    ensures var t := TerminalStage(s, id, status, detail);
            Advances(s, t) && IndexExact(t) && Shaped(t) && NoPendingWait(t, id)
  {
    var j := s.jobs[id];
    var a := s.(archive := s.archive[id := Archived(j.goal, status, detail, j.route, j.alternate)]);
    var t := TerminalStage(s, id, status, detail);
    WaitsOkShaped(s);
    assert Shaped(a);
    CancelAdvances(a, id, None);
    forall k | k in s.waits
      ensures Moved(s, t, k)
    {
      assert Moved(a, CancelWaits(a, id, None), k);
    }
    forall k | k in t.waits
      ensures WaitShape(t.waits[k])
    {
      assert Moved(s, t, k);
    }
  }

  lemma ResolvedByTerminal(s: Db, id: JobId, status: CompletionStatus, detail: string, x: Target)
    requires id in s.jobs
    ensures var t := TerminalStage(s, id, status, detail);
            Resolved(t.goals, t.archive, x) <==> x in Announced(s, id, status) || Resolved(s.goals, s.archive, x)
  {
    if x.GoalTarget? && x.goal in ResolvedBy(s, id, status) {
      assert x == GoalTarget(x.goal);
    }
  }

  lemma ArchiveWaits(s: Db, id: JobId, status: CompletionStatus, detail: string)
    requires WaitsOk(s) && IndexExact(s) && WaitsSettled(s) && id in s.jobs
    ensures var t := ArchiveJob(s, id, status, detail);
            Advances(s, t) && IndexExact(t) && WaitsSettled(t) && NoPendingWait(t, id)
  {
    var terminal, changed := TerminalStage(s, id, status, detail), Announced(s, id, status);
    var settled := Settle(terminal, changed);
    var t := ArchiveJob(s, id, status, detail);
    assert t == settled.(jobs := WakeWaiters(s.jobs, id, s.now));
    TerminalWaits(s, id, status, detail);
    SettleAdvances(terminal, changed);
    AdvancesTransitive(s, terminal, settled);
    forall x: Target | Resolved(terminal.goals, terminal.archive, x)
      ensures x in changed || Resolved(s.goals, s.archive, x)
    {
      ResolvedByTerminal(s, id, status, detail, x);
    }
    SettleKeepsSettled(s, terminal, changed);
    forall k | k in s.waits
      ensures Moved(s, t, k) && WaitSettled(t, k) && (k.job == id ==> t.waits[k].state != Pending)
    {
      assert Moved(s, settled, k) && Moved(terminal, settled, k) && WaitSettled(settled, k);
    }
  }

  lemma ArchiveGoals(s: Db, threshold: nat, id: JobId, status: CompletionStatus, detail: string)
    requires GoalShapes(s) && GoalsSettled(s) && Jobs(s, threshold) && id in s.jobs
    ensures var t := ArchiveJob(s, id, status, detail);
            GoalShapes(t) && GoalsSettled(t)
  {
    var t := ArchiveJob(s, id, status, detail);
    MembershipFrame(s, t);
    assert JobOk(s, threshold, id);
    forall g | g in t.goals
      ensures GoalOk(t, g)
    {
      assert GoalOk(s, g);
      if t.goals[g] != s.goals[g] {
        assert (g, id) in Membership(s);
      }
    }
    forall m | m in Membership(t)
      ensures MemberSettled(t, m)
    {
      assert MemberSettled(s, m);
      if m.1 == id {
        assert m.0 == s.facts[id].goal || m in s.candidates;
      }
    }
  }

  lemma ArchiveJobs(s: Db, threshold: nat, id: JobId, status: CompletionStatus, detail: string)
    requires Jobs(s, threshold) && LeasesDistinct(s) && id in s.jobs
    ensures var t := ArchiveJob(s, id, status, detail);
            Jobs(t, threshold) && LeasesDistinct(t)
  {
    var t := ArchiveJob(s, id, status, detail);
    forall j | j in t.jobs
      ensures JobOk(t, threshold, j)
    {
      assert JobOk(s, threshold, j);
    }
    forall a, b | a in t.jobs && b in t.jobs
      ensures LeasesApart(t, a, b)
    {
      assert LeasesApart(s, a, b);
    }
  }

  lemma ArchiveRetained(s: Db, threshold: nat, id: JobId, status: CompletionStatus, detail: string)
    requires Scheduling(s, threshold) && id in s.jobs
    ensures var t := ArchiveJob(s, id, status, detail);
            ArchivedJobs(t) && Identities(t) && Candidates(t)
  {
    var t := ArchiveJob(s, id, status, detail);
    assert JobOk(s, threshold, id);
    forall j | j in t.archive
      ensures ArchivedOk(t, j)
    {
      if j != id { assert ArchivedOk(s, j); }
    }
    forall j | j in t.facts ensures IdentityOk(t, j) { assert IdentityOk(s, j); }
    forall c | c in t.candidates ensures CandidateOk(t, c) { assert CandidateOk(s, c); }
  }

  lemma ArchiveOwned(s: Db, t: Db, id: JobId)
    requires WaitsOwned(s) && Advances(s, t) && NoPendingWait(t, id) && t.jobs == WakeWaiters(s.jobs, id, s.now)
    ensures WaitsOwned(t)
  {
    forall k | k in t.waits
      ensures WaitOwned(t, k)
    {
      assert WaitOwned(s, k) && Moved(s, t, k);
    }
  }

  lemma ArchiveInv(s: Db, threshold: nat, id: JobId, status: CompletionStatus, detail: string)
    requires Inv(s, threshold) && id in s.jobs
    ensures Inv(ArchiveJob(s, id, status, detail), threshold)
  {
    var t := ArchiveJob(s, id, status, detail);
    ArchiveJobs(s, threshold, id, status, detail);
    ArchiveRetained(s, threshold, id, status, detail);
    ArchiveGoals(s, threshold, id, status, detail);
    ArchiveWaits(s, id, status, detail);
    AdvanceKeepsWaitsOk(s, t);
    MembershipFrame(s, t);
    AdvanceKeepsAcyclic(s, t);
    ArchiveOwned(s, t, id);
  }

  lemma ClientUpdateInv(s: Db, threshold: nat, id: JobId, c: Client)
    requires Inv(s, threshold) && id in s.clients
    ensures Inv(s.(clients := s.clients[id := c]), threshold)
  {
    var t := s.(clients := s.clients[id := c]);
    RowsDoNotMatter(s, t);
    JobsFrame(s, t, threshold);
    RetainedFrame(s, t);
    forall k | k in t.waits
      ensures WaitOwned(t, k)
    {
      assert WaitOwned(s, k);
    }
  }

  lemma CompleteInv(s: Db, threshold: nat, id: JobId, lease: Option<LeaseId>, worker: string,
                    status: CompletionStatus, detail: string, update: Option<PayloadUpdate>)
    requires Inv(s, threshold) && Complete(s, threshold, id, lease, worker, status, detail, update).Ok?
    ensures Inv(Complete(s, threshold, id, lease, worker, status, detail, update).value, threshold)
  {
    if lease.None? {
      ArchiveInv(s, threshold, id, status, detail);
    } else {
      var c := UpdateClient(s.clients[id], update).value;
      ClientUpdateInv(s, threshold, id, c);
      ArchiveInv(s.(clients := s.clients[id := c]), threshold, id, status, detail);
    }
  }

  // ---- Deletion ---------------------------------------------------------------------------

  lemma HideScheduling(s: Db, threshold: nat, id: JobId, at: Time)
    requires Scheduling(s, threshold) && id in s.facts && id in s.archive
    ensures Scheduling(s.(facts := s.facts[id := s.facts[id].(hiddenAt := Some(at))]), threshold)
  {
    var t := s.(facts := s.facts[id := s.facts[id].(hiddenAt := Some(at))]);
    forall j | j in t.jobs ensures JobOk(t, threshold, j) { assert JobOk(s, threshold, j); }
    forall a, b | a in t.jobs && b in t.jobs ensures LeasesApart(t, a, b) { assert LeasesApart(s, a, b); }
    forall j | j in t.archive ensures ArchivedOk(t, j) { assert ArchivedOk(s, j); }
    forall j | j in t.facts ensures IdentityOk(t, j) { assert IdentityOk(s, j); }
    forall c | c in t.candidates ensures CandidateOk(t, c) { assert CandidateOk(s, c); }
  }

  lemma HideInv(s: Db, threshold: nat, id: JobId, at: Time)
    requires Inv(s, threshold) && id in s.facts && id in s.archive
    ensures Inv(s.(facts := s.facts[id := s.facts[id].(hiddenAt := Some(at))]), threshold)
  {
    var t := s.(facts := s.facts[id := s.facts[id].(hiddenAt := Some(at))]);
    HideScheduling(s, threshold, id, at);
    MembershipFrame(s, t);
    WaitsOkShaped(s);
    SameAdvances(s, t);
    OutcomesFrame(s, t);
    WaitsMovedOwned(s, t);
    AdvanceKeepsAcyclic(s, t);
  }

  lemma DeleteOneInv(s: Db, threshold: nat, id: JobId, at: Time)
    requires Inv(s, threshold)
    ensures Inv(DeleteOne(s, id, at), threshold)
  {
    if id in s.facts && s.facts[id].hiddenAt.None? {
      if id in s.jobs {
        var archived := ArchiveJob(s, id, Cancelled, "job deleted");
        ArchiveInv(s, threshold, id, Cancelled, "job deleted");
        assert archived.facts == s.facts;
        HideInv(archived, threshold, id, at);
      } else {
        assert IdentityOk(s, id);
        HideInv(s, threshold, id, at);
      }
    }
  }

  lemma {:induction false} DeleteAllInv(s: Db, threshold: nat, order: seq<JobId>, at: Time)
    requires Inv(s, threshold)
    ensures Inv(DeleteAll(s, order, at), threshold)
    decreases |order|
  {
    if order != [] {
      DeleteOneInv(s, threshold, order[0], at);
      DeleteAllInv(DeleteOne(s, order[0], at), threshold, order[1..], at);
    }
  }
}
