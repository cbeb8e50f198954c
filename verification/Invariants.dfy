/** What every reachable database satisfies, and how stored waits may move. */
module Invariants {
  import opened Basics
  import opened RunPolicies
  import opened Tables
  import opened Waits
  import opened Steps
  import Graph

  // Each table has one predicate per row. The quantifiers over them are triggered by that
  // predicate alone, so a proof instantiates exactly the rows it names.

  // ---- Rows -------------------------------------------------------------------------

  /** constraint jobs_native_route_valid: coordinates are complete on a task, absent on a job. */
  ghost predicate RouteOk(r: RouteColumns) {
    && r.jobType != ""
    && match r.kind
       case JobKind => r == JobColumns(r.jobType)
       case TaskKind =>
         && r.taskType.Some? && r.taskType.value != ""
         && r.resumeJobType.Some? && r.resumeJobType.value != ""
         && r.inputOrdinal.Some? && r.inputOrdinal.value >= 0
         && r.outputOrdinal.Some? && r.outputOrdinal.value >= 0
         && r.inputHash.Some? && r.inputHash.value != ""
  }

  /** An alternate is absent or complete, and a task alternate borrows the primary's coordinates. */
  ghost predicate AlternateOk(r: RouteColumns, a: AlternateColumns) {
    if a.jobType.None? then a == NO_ALTERNATE
    else a.jobType.value != "" && a.after.Some? && a.at.Some?
         && (a.taskType.Some? ==> a.taskType.value != "" && r.kind == TaskKind)
  }

  /** The lease was issued, and records the route its row is on. */
  ghost predicate LeaseOk(j: Job, issued: set<LeaseId>) {
    j.lease.Some? ==>
      var l := j.lease.value;
      l.id in issued && l.worker != "" && l.jobType == j.route.jobType && l.kind == j.route.kind
      && l.taskType == j.route.taskType
  }

  ghost predicate RowOk(j: Job, issued: set<LeaseId>) {
    RouteOk(j.route) && AlternateOk(j.route, j.alternate) && LeaseOk(j, issued) && !j.cancelRequested
  }

  /** The streak counts reclaims of an expired lease and stops at the threshold. */
  ghost predicate StreakOk(j: Job, threshold: nat) {
    j.streak <= threshold && (j.lease.None? ==> j.streak == 0)
  }

  /** An active row has facts, is not archived, and keeps its goal. */
  ghost predicate JobOk(s: Db, threshold: nat, j: JobId)
    requires j in s.jobs
  {
    && j in s.facts && j !in s.archive && s.jobs[j].goal == s.facts[j].goal
    && RowOk(s.jobs[j], s.issued) && StreakOk(s.jobs[j], threshold)
  }

  ghost predicate ArchivedOk(s: Db, j: JobId)
    requires j in s.archive
  {
    && j in s.facts && s.archive[j].goal == s.facts[j].goal
    && RouteOk(s.archive[j].route) && AlternateOk(s.archive[j].route, s.archive[j].alternate)
  }

  ghost predicate FactOk(f: Facts) {
    && SubmitAccepts(f.policy)
    && (f.scheduleId.Some? ==> f.scheduleGeneration.Some? && f.scheduledAt.Some?)
  }

  /** Every identity is active or archived, has client state and a goal; only archived ones are hidden. */
  ghost predicate IdentityOk(s: Db, j: JobId)
    requires j in s.facts
  {
    && (j in s.jobs || j in s.archive) && j in s.clients && s.facts[j].goal in s.goals
    && (s.facts[j].hiddenAt.Some? ==> j in s.archive)
    && FactOk(s.facts[j])
  }

  ghost predicate CandidateOk(s: Db, c: (GoalId, JobId)) {
    c.0 in s.goals && c.1 in s.facts
  }

  ghost predicate LeasesApart(s: Db, a: JobId, b: JobId)
    requires a in s.jobs && b in s.jobs
  {
    a != b && s.jobs[a].lease.Some? && s.jobs[b].lease.Some? ==>
      s.jobs[a].lease.value.id != s.jobs[b].lease.value.id
  }

  ghost predicate Jobs(s: Db, threshold: nat) {
    forall j {:trigger JobOk(s, threshold, j)} :: j in s.jobs ==> JobOk(s, threshold, j)
  }

  ghost predicate ArchivedJobs(s: Db) {
    forall j {:trigger ArchivedOk(s, j)} :: j in s.archive ==> ArchivedOk(s, j)
  }

  ghost predicate Identities(s: Db) {
    forall j {:trigger IdentityOk(s, j)} :: j in s.facts ==> IdentityOk(s, j)
  }

  ghost predicate Candidates(s: Db) {
    forall c {:trigger CandidateOk(s, c)} :: c in s.candidates ==> CandidateOk(s, c)
  }

  ghost predicate LeasesDistinct(s: Db) {
    forall a, b {:trigger LeasesApart(s, a, b)} :: a in s.jobs && b in s.jobs ==> LeasesApart(s, a, b)
  }

  // ---- Goals ---------------------------------------------------------------------------

  /** The goals table's CHECK, with a winner that really succeeded as a member. */
  ghost predicate GoalOk(s: Db, g: GoalId)
    requires g in s.goals
  {
    var x := s.goals[g];
    match x.state
    case Open => x.revision == 1 && x.winner.None? && x.failure.None? && x.closedAt.None?
    case Succeeded =>
      && x.revision == 2 && x.failure.None? && x.closedAt.Some? && x.winner.Some?
      && x.winner.value in s.archive && s.archive[x.winner.value].status == Success
      && (g, x.winner.value) in Membership(s)
    case Failed =>
      && x.revision == 2 && x.winner.None? && x.closedAt.Some? && x.failure.Some?
      && x.failure.value.GoalFailure? && x.failure.value.goal == g
  }

  ghost predicate GoalShapes(s: Db) {
    forall g {:trigger GoalOk(s, g)} :: g in s.goals ==> GoalOk(s, g)
  }

  /** A member that succeeded has closed the goal. */
  ghost predicate MemberSettled(s: Db, m: (GoalId, JobId)) {
    m.0 in s.goals && m.1 in s.archive && s.archive[m.1].status == Success ==> s.goals[m.0].state != Open
  }

  ghost predicate GoalsSettled(s: Db) {
    forall m {:trigger MemberSettled(s, m)} :: m in Membership(s) ==> MemberSettled(s, m)
  }

  // ---- Waits ------------------------------------------------------------------------------

  ghost predicate WaitOk(s: Db, k: WaitKey)
    requires k in s.waits
  {
    && k.job in s.facts && WaitShape(s.waits[k])
    && (forall d :: d in s.waits[k].descriptor ==> TargetExists(s, d.target) && d.target != JobTarget(k.job))
  }

  ghost predicate WaitsOk(s: Db) {
    forall k {:trigger WaitOk(s, k)} :: k in s.waits ==> WaitOk(s, k)
  }

  /** The subscription table holds exactly the pending bindings of pending waits. */
  ghost predicate IndexExact(s: Db) {
    s.targets == Subscriptions(s.waits)
  }

  /** No wakeup is lost: a stored pending binding waits for something still unresolved. */
  ghost predicate WaitSettled(s: Db, k: WaitKey)
    requires k in s.waits
  {
    Unresolved(s.goals, s.archive, s.waits[k])
  }

  ghost predicate WaitsSettled(s: Db) {
    forall k {:trigger WaitSettled(s, k)} :: k in s.waits ==> WaitSettled(s, k)
  }

  /** A pending wait belongs to an active, unleased job that points at it. */
  ghost predicate WaitOwned(s: Db, k: WaitKey)
    requires k in s.waits
  {
    s.waits[k].state == Pending ==>
      k.job in s.jobs && s.jobs[k.job].dependencyWait == Some(k.wait) && s.jobs[k.job].lease.None?
  }

  ghost predicate WaitsOwned(s: Db) {
    forall k {:trigger WaitOwned(s, k)} :: k in s.waits ==> WaitOwned(s, k)
  }

  ghost predicate Scheduling(s: Db, threshold: nat) {
    && Jobs(s, threshold) && ArchivedJobs(s) && Identities(s) && Candidates(s) && LeasesDistinct(s)
    && s.clients.Keys <= s.facts.Keys
  }

  ghost predicate Outcomes(s: Db) {
    GoalShapes(s) && GoalsSettled(s) && WaitsOk(s) && IndexExact(s) && WaitsSettled(s)
  }

  ghost predicate Inv(s: Db, threshold: nat) {
    Scheduling(s, threshold) && Outcomes(s) && WaitsOwned(s) && Graph.Acyclic(Edges(s))
  }

  // ---- Moving waits forward -----------------------------------------------------------------

  ghost predicate Moved(s: Db, t: Db, k: WaitKey)
    requires k in s.waits && k in t.waits
  {
    WaitLater(s.waits[k], t.waits[k]) && WaitShape(t.waits[k])
  }

  /** The same waits, each unchanged or further along. */
  ghost predicate Advances(s: Db, t: Db) {
    && s.waits.Keys == t.waits.Keys
    && forall k {:trigger Moved(s, t, k)} :: k in s.waits ==> Moved(s, t, k)
  }

  ghost predicate Shaped(s: Db) {
    forall k :: k in s.waits ==> WaitShape(s.waits[k])
  }

  lemma WaitsOkShaped(s: Db)
    requires WaitsOk(s)
    ensures Shaped(s)
  {
    forall k | k in s.waits
      ensures WaitShape(s.waits[k])
    {
      assert WaitOk(s, k);
    }
  }

  /** A bulk save in which every stored wait only moves forward. */
  ghost predicate AdvancingSave(s: Db, ws: map<WaitKey, Wait>) {
    forall k :: k in ws ==> k in s.waits && WaitLater(s.waits[k], ws[k]) && WaitShape(ws[k])
  }

  lemma SaveKeepsIndex(s: Db, ws: map<WaitKey, Wait>)
    requires IndexExact(s)
    ensures IndexExact(SaveWaits(s, ws))
  {
    var t := SaveWaits(s, ws);
    forall p
      ensures p in t.targets <==> p in Subscriptions(t.waits)
    {
      if p.0 in ws {
        assert t.waits[p.0] == ws[p.0];
      }
    }
  }

  lemma SaveAdvances(s: Db, ws: map<WaitKey, Wait>)
    requires AdvancingSave(s, ws)
    requires Shaped(s)
    ensures Advances(s, SaveWaits(s, ws))
  {
    forall k | k in s.waits
      ensures Moved(s, SaveWaits(s, ws), k)
    {
    }
  }

  lemma AdvancesTransitive(s: Db, t: Db, u: Db)
    requires Advances(s, t) && Advances(t, u)
    ensures Advances(s, u)
  {
    forall k | k in s.waits
      ensures Moved(s, u, k)
    {
      assert Moved(s, t, k) && Moved(t, u, k);
      WaitLaterTransitive(s.waits[k], t.waits[k], u.waits[k]);
    }
  }

  lemma SettleAdvances(s: Db, changed: set<Target>)
    requires IndexExact(s) && Shaped(s)
    ensures Advances(s, Settle(s, changed)) && IndexExact(Settle(s, changed))
  {
    var ws := Touched(s, changed);
    forall k | k in ws
      ensures WaitLater(s.waits[k], ws[k]) && WaitShape(ws[k])
    {
      EvaluateKeeps(s.goals, s.archive, s.now, s.waits[k]);
      EvaluateShape(s.goals, s.archive, s.now, s.waits[k]);
    }
    SaveAdvances(s, ws);
    SaveKeepsIndex(s, ws);
  }

  lemma CancelAdvances(s: Db, job: JobId, keep: Option<WaitId>)
    requires IndexExact(s) && Shaped(s)
    ensures Advances(s, CancelWaits(s, job, keep)) && IndexExact(CancelWaits(s, job, keep))
  {
    var ws := CancelledWaits(s, job, keep);
    forall k | k in ws
      ensures WaitLater(s.waits[k], ws[k]) && WaitShape(ws[k])
    {
      CloseKeeps(s.waits[k], WasCancelled);
      CloseShape(s.waits[k], WasCancelled);
    }
    SaveAdvances(s, ws);
    SaveKeepsIndex(s, ws);
  }

  lemma ExpireAdvances(s: Db)
    requires IndexExact(s) && Shaped(s)
    ensures Advances(s, ExpireWaits(s)) && IndexExact(ExpireWaits(s))
  {
    var ws := DueWaits(s);
    forall k | k in ws
      ensures WaitLater(s.waits[k], ws[k]) && WaitShape(ws[k])
    {
      EvaluateKeeps(s.goals, s.archive, s.now, s.waits[k]);
      EvaluateShape(s.goals, s.archive, s.now, s.waits[k]);
    }
    SaveAdvances(s, ws);
    SaveKeepsIndex(s, ws);
  }

  /** When waits advance, goals close and jobs finish, the graph only loses edges. */
  lemma AdvanceShrinksEdges(s: Db, t: Db)
    requires IndexExact(s) && IndexExact(t) && Advances(s, t)
    requires s.now <= t.now && Membership(t) <= Membership(s)
    requires forall j :: j in s.archive ==> j in t.archive
    requires forall g :: g in t.goals && t.goals[g].state == Open ==> g in s.goals && s.goals[g].state == Open
    ensures Edges(t) <= Edges(s)
  {
    forall p | p in t.targets && LiveSubscription(t, p)
      ensures p in s.targets && LiveSubscription(s, p)
    {
      assert Moved(s, t, p.0);
      LaterShrinksTargets(s.waits[p.0], t.waits[p.0]);
      assert p.1 in PendingTargets(t.waits[p.0]);
    }
    forall m | m in Membership(t) && LiveMember(t, m)
      ensures m in Membership(s) && LiveMember(s, m)
    {
    }
  }

  lemma AdvanceKeepsAcyclic(s: Db, t: Db)
    requires IndexExact(s) && IndexExact(t) && Advances(s, t)
    requires s.now <= t.now && Membership(t) <= Membership(s)
    requires forall j :: j in s.archive ==> j in t.archive
    requires forall g :: g in t.goals && t.goals[g].state == Open ==> g in s.goals && s.goals[g].state == Open
    requires Graph.Acyclic(Edges(s))
    ensures Graph.Acyclic(Edges(t))
  {
    AdvanceShrinksEdges(s, t);
    Graph.SubgraphAcyclic(Edges(t), Edges(s));
  }

  lemma MembershipFrame(s: Db, t: Db)
    requires t.candidates == s.candidates
    requires forall j :: j in t.facts <==> j in s.facts
    requires forall j :: j in s.facts ==> t.facts[j].goal == s.facts[j].goal
    ensures Membership(t) == Membership(s)
  {
    forall m | m in Membership(s)
      ensures m in Membership(t)
    {
      if m !in s.candidates {
        assert m.1 in s.facts && m == (t.facts[m.1].goal, m.1);
      }
    }
    forall m | m in Membership(t)
      ensures m in Membership(s)
    {
      if m !in t.candidates {
        assert m.1 in t.facts && m == (s.facts[m.1].goal, m.1);
      }
    }
  }

  /** Waits read nothing but goals and the archive, so those alone decide settledness. */
  lemma AdvanceKeepsWaitsOk(s: Db, t: Db)
    requires WaitsOk(s) && Advances(s, t)
    requires forall j :: j in s.facts ==> j in t.facts
    requires forall g :: g in s.goals ==> g in t.goals
    ensures WaitsOk(t)
  {
    forall k | k in t.waits
      ensures WaitOk(t, k)
    {
      assert WaitOk(s, k) && Moved(s, t, k);
    }
  }

  /** Nothing newly resolved and waits only advanced: still settled. */
  lemma AdvanceKeepsSettled(s: Db, t: Db)
    requires WaitsSettled(s) && Advances(s, t)
    requires forall x: Target :: Resolved(t.goals, t.archive, x) ==> Resolved(s.goals, s.archive, x)
    ensures WaitsSettled(t)
  {
    forall k | k in t.waits
      ensures WaitSettled(t, k)
    {
      assert WaitSettled(s, k) && Moved(s, t, k);
      LaterShrinksTargets(s.waits[k], t.waits[k]);
    }
  }

  /** Settling exactly the newly resolved targets restores settledness. */
  lemma SettleKeepsSettled(before: Db, s: Db, changed: set<Target>)
    requires WaitsSettled(before) && Advances(before, s) && IndexExact(s)
    requires forall x: Target :: Resolved(s.goals, s.archive, x) ==> x in changed || Resolved(before.goals, before.archive, x)
    ensures WaitsSettled(Settle(s, changed))
  {
    var t := Settle(s, changed);
    forall k | k in t.waits
      ensures WaitSettled(t, k)
    {
      var w := s.waits[k];
      if k in Touched(s, changed) {
        EvaluateUnresolved(s.goals, s.archive, s.now, w);
      } else {
        assert WaitSettled(before, k) && Moved(before, s, k);
        LaterShrinksTargets(before.waits[k], w);
        forall x | x in PendingTargets(w)
          ensures !Resolved(s.goals, s.archive, x)
        {
          assert (k, x) in s.targets;
        }
      }
    }
  }
}
