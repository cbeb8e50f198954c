/** What holds a blocked job back, followed to its end; and exactly which registrations the
    scheduler's own cycle check refuses. */
module Progress {
  import opened Basics
  import opened RunPolicies
  import opened Tables
  import opened Waits
  import opened Steps
  import opened Invariants
  import opened Preservation
  import opened GoalPreservation
  import opened Runs
  import opened Rows
  import opened Transitions
  import opened Holding
  import Graph

  predicate Blocked(s: Db, id: JobId) {
    id in s.jobs && (WaitBlocks(s, id, s.jobs[id], s.now) || LegacyBlocks(s, s.jobs[id], s.now))
  }

  /** An active job that neither a dependency wait nor a prerequisite holds back. */
  predicate Runnable(s: Db, id: JobId) {
    id in s.jobs && !Blocked(s, id)
  }

  /** An open goal that waits for a candidate: all its members have finished. */
  predicate Starved(s: Db, g: GoalId) {
    g in s.goals && s.goals[g].state == Open && forall m :: m in Members(s, g) ==> m in s.archive
  }

  ghost predicate Ending(s: Db, n: Target) {
    match n
    case JobTarget(j) => Runnable(s, j)
    case GoalTarget(g) => Starved(s, g)
  }

  // ---- The graph of the moment -----------------------------------------------------------------

  /** What keeps a node back now: with or without a deadline, by either kind of wait. */
  function Holders(s: Db, n: Target): set<Target> {
    match n
    case JobTarget(x) =>
      if x !in s.jobs then {}
      else
        (if WaitBlocks(s, x, s.jobs[x], s.now) then PendingTargets(CurrentWait(s, x).value) else {})
        + (if LegacyBlocks(s, s.jobs[x], s.now) then set y | y in s.jobs[x].waitFor && y in s.jobs :: JobTarget(y) else {})
    case GoalTarget(g) => GoalHeads(s, g)
  }

  function HoldGraph(s: Db): set<(Target, Target)> {
    (set x, h | x in s.jobs && h in Holders(s, JobTarget(x)) :: (JobTarget(x), h))
    + (set g, h | g in s.goals && h in Holders(s, GoalTarget(g)) :: (GoalTarget(g), h))
  }

  lemma HoldsIff(s: Db, n: Target, h: Target)
    ensures (n, h) in HoldGraph(s) <==> h in Holders(s, n)
  {
    match n {
      case JobTarget(x) =>
      case GoalTarget(g) =>
    }
  }

  lemma BlockedHasHolder(s: Db, threshold: nat, id: JobId) returns (h: Target)
    requires Good(s, threshold) && Blocked(s, id)
    ensures h in Holders(s, JobTarget(id))
  {
    assert RowWaits(s, id);
    if WaitBlocks(s, id, s.jobs[id], s.now) {
      var k := WaitKey(id, s.jobs[id].dependencyWait.value);
      assert WaitOk(s, k);
      var w := s.waits[k];
      var i :| 0 <= i < |w.bindings| && w.bindings[i].state == Pending;
      assert w.bindings[i] in w.bindings;
      h := w.bindings[i].dependency.target;
    } else {
      var d :| d in s.jobs[id].waitFor && d !in s.archive;
      assert IdentityOk(s, d);
      h := JobTarget(d);
    }
  }

  /** What holds a node back still has an outcome to come. */
  lemma HolderIsOpen(s: Db, threshold: nat, n: Target, h: Target)
    requires Good(s, threshold) && h in Holders(s, n)
    ensures match h case JobTarget(j) => j in s.jobs case GoalTarget(g) => g in s.goals && s.goals[g].state == Open
  {
    match n {
      case JobTarget(x) =>
        if WaitBlocks(s, x, s.jobs[x], s.now) && h in PendingTargets(CurrentWait(s, x).value) {
          PendingIsOpen(s, threshold, WaitKey(x, s.jobs[x].dependencyWait.value), h);
        }
      case GoalTarget(g) => HeadIsOpen(s, threshold, n, h);
    }
  }

  ghost predicate IsSink(s: Db, n: Target) {
    forall e :: e in HoldGraph(s) ==> e.0 != n
  }

  lemma SinkIff(s: Db, n: Target)
    ensures IsSink(s, n) <==> Holders(s, n) == {}
  {
    if Holders(s, n) != {} {
      var h :| h in Holders(s, n);
      HoldsIff(s, n, h);
    }
    forall e | e in HoldGraph(s) && e.0 == n ensures e.1 in Holders(s, n) { HoldsIff(s, n, e.1); }
  }

  /** Active jobs and open goals end a chain exactly when nothing holds them back. */
  lemma OpenEndingIff(s: Db, threshold: nat, n: Target)
    requires Good(s, threshold)
    requires match n case JobTarget(j) => j in s.jobs case GoalTarget(g) => g in s.goals && s.goals[g].state == Open
    ensures Ending(s, n) <==> Holders(s, n) == {}
  {
    match n {
      case JobTarget(j) => if Blocked(s, j) { var h := BlockedHasHolder(s, threshold, j); }
      case GoalTarget(g) =>
        forall m | m in Members(s, g) && m !in s.archive ensures JobTarget(m) in Holders(s, n) { }
    }
  }

  lemma ReachedIsOpen(s: Db, threshold: nat, id: JobId, n: Target)
    requires Good(s, threshold) && id in s.jobs && Graph.Reaches(HoldGraph(s), JobTarget(id), n)
    ensures match n case JobTarget(j) => j in s.jobs case GoalTarget(g) => g in s.goals && s.goals[g].state == Open
  {
    var p :| Graph.IsPath(HoldGraph(s), p) && p[0] == JobTarget(id) && p[|p| - 1] == n;
    if |p| > 1 {
      assert (p[|p| - 2], p[|p| - 1]) in HoldGraph(s);
      HoldsIff(s, p[|p| - 2], n);
      HolderIsOpen(s, threshold, p[|p| - 2], n);
    }
  }

  /** Among the nodes a job reaches, runnable jobs and goals without candidates are exactly
      the ones without successors. */
  lemma EndingIffSink(s: Db, threshold: nat, id: JobId, n: Target)
    requires Good(s, threshold) && id in s.jobs && Graph.Reaches(HoldGraph(s), JobTarget(id), n)
    ensures Ending(s, n) <==> IsSink(s, n)
  {
    ReachedIsOpen(s, threshold, id, n);
    OpenEndingIff(s, threshold, n);
    SinkIff(s, n);
  }

  /** Every blocked job is held back, in the end, by a job that nothing holds back, by an open
      goal that only lacks a candidate, or by a circle. */
  lemma BlockedChainEnds(s: Db, threshold: nat, id: JobId) returns (n: Target)
    requires Good(s, threshold) && Blocked(s, id)
    ensures Graph.ReachesCycle(HoldGraph(s), JobTarget(id)) || (Graph.Reaches(HoldGraph(s), JobTarget(id), n) && Ending(s, n))
  {
    assert Graph.IsPath(HoldGraph(s), [JobTarget(id)]);
    n := Graph.SinkOrCycle(HoldGraph(s), [JobTarget(id)]);
    if !Graph.ReachesCycle(HoldGraph(s), JobTarget(id)) {
      EndingIffSink(s, threshold, id, n);
    }
  }

  ghost predicate ReachesRunnable(s: Db, id: JobId) {
    exists b :: Runnable(s, b) && Graph.Reaches(HoldGraph(s), JobTarget(id), JobTarget(b))
  }

  /** Some chain from the job stops at a job. */
  ghost predicate ReachesJobSink(s: Db, id: JobId) {
    exists b :: IsSink(s, JobTarget(b)) && Graph.Reaches(HoldGraph(s), JobTarget(id), JobTarget(b))
  }

  /** A job reaches a runnable one exactly when one of its chains stops at a job; every other
      place where a chain stops is a goal that lacks a candidate. */
  lemma ReachesRunnableIff(s: Db, threshold: nat, id: JobId)
    requires Good(s, threshold) && id in s.jobs
    ensures ReachesRunnable(s, id) <==> ReachesJobSink(s, id)
    ensures forall n :: Graph.Reaches(HoldGraph(s), JobTarget(id), n) && IsSink(s, n) && n.GoalTarget? ==> Starved(s, n.goal)
  {
    forall n | Graph.Reaches(HoldGraph(s), JobTarget(id), n) ensures Ending(s, n) <==> IsSink(s, n) {
      EndingIffSink(s, threshold, id, n);
    }
  }

  /** Of any set of blocked jobs that reach no circle and no goal without a candidate, each one
      reaches a job outside the set that nothing holds back. */
  lemma BlockedSetEscapes(s: Db, threshold: nat, blocked: set<JobId>)
    requires Good(s, threshold) && forall j :: j in blocked ==> Blocked(s, j)
    requires forall a :: a in blocked ==> !Graph.ReachesCycle(HoldGraph(s), JobTarget(a))
    requires forall a, g :: a in blocked && Graph.Reaches(HoldGraph(s), JobTarget(a), GoalTarget(g)) ==> !Starved(s, g)
    ensures forall a :: a in blocked ==>
              exists b :: b !in blocked && Runnable(s, b) && Graph.Reaches(HoldGraph(s), JobTarget(a), JobTarget(b))
  {
    forall a | a in blocked
      ensures exists b :: b !in blocked && Runnable(s, b) && Graph.Reaches(HoldGraph(s), JobTarget(a), JobTarget(b))
    {
      var n := BlockedChainEnds(s, threshold, a);
      match n {
        case JobTarget(b) => assert b !in blocked && Runnable(s, b);
        case GoalTarget(_) =>
      }
    }
  }

  // ---- Where circles come from ---------------------------------------------------------------------

  /** An edge that is not a prerequisite is an edge of the checked dependency graph. */
  lemma HeldByWait(s: Db, threshold: nat, e: (Target, Target))
    requires Good(s, threshold) && e in HoldGraph(s)
    requires e.0.JobTarget? && e.0.job in s.jobs ==> !LegacyBlocks(s, s.jobs[e.0.job], s.now)
    ensures e in Edges(s)
  {
    HoldsIff(s, e.0, e.1);
    match e.0 {
      case JobTarget(x) =>
        var k := WaitKey(x, s.jobs[x].dependencyWait.value);
        assert JobOk(s, threshold, x) && e.1 in PendingTargets(s.waits[k]);
        assert (k, e.1) in s.targets && LiveSubscription(s, (k, e.1));
      case GoalTarget(g) =>
        assert (g, e.1.job) in Membership(s) && LiveMember(s, (g, e.1.job));
    }
  }

  /** Dependency waits alone never form a circle: on every circle some job is held back by a
      prerequisite, which the cycle check does not see. */
  lemma CircleHasPrerequisite(s: Db, threshold: nat, p: seq<Target>)
    requires Good(s, threshold) && Graph.IsCycle(HoldGraph(s), p)
    ensures exists x :: JobTarget(x) in p && x in s.jobs && LegacyBlocks(s, s.jobs[x], s.now)
  {
    if forall x :: JobTarget(x) in p && x in s.jobs ==> !LegacyBlocks(s, s.jobs[x], s.now) {
      forall i | 0 <= i < |p| - 1 ensures (p[i], p[i + 1]) in Edges(s) {
        assert p[i] in p && (p[i], p[i + 1]) in HoldGraph(s);
        HeldByWait(s, threshold, (p[i], p[i + 1]));
      }
      assert Graph.IsCycle(Edges(s), p);
    }
  }

  /** A circle of deadline-less needs is a circle of the moment, until one of its calls breaks it. */
  lemma NeedsHold(s: Db, threshold: nat)
    requires Good(s, threshold)
    ensures Needs(s) <= HoldGraph(s)
  {
    forall e | e in Needs(s) ensures e in HoldGraph(s) {
      NeedsIff(s, e.0, e.1);
      HoldsIff(s, e.0, e.1);
      HeadIsOpen(s, threshold, e.0, e.1);
    }
  }

  // ---- Exactly which registrations are refused ---------------------------------------------------

  predicate WellFormedWait(s: Db, job: JobId, req: WaitRequest, submission: bool) {
    && ValidWaitId(req.id) && (req.id == SUBMISSION ==> submission)
    && req.dependencies != [] && ValidDependencies(req.dependencies)
    && (forall d :: d in req.dependencies ==> TargetExists(s, d.target) && d.target != JobTarget(job))
  }

  /** The new wait adds one edge for each target that is still open, and nothing else. */
  lemma RegisterEdges(s: Db, job: JobId, req: WaitRequest)
    requires WaitKey(job, req.id) !in s.waits && job !in s.archive && IndexExact(s)
    ensures var w := Evaluate(s.goals, s.archive, s.now, NewWait(req));
            Edges(SaveEvaluated(s, WaitKey(job, req.id), NewWait(req)))
            == Graph.Grow(Edges(s), JobTarget(job), PendingTargets(w))
  {
    var k := WaitKey(job, req.id);
    var w := Evaluate(s.goals, s.archive, s.now, NewWait(req));
    var t := SaveEvaluated(s, k, NewWait(req));
    EvaluateKeeps(s.goals, s.archive, s.now, NewWait(req));
    assert Membership(t) == Membership(s);
    forall p | p in t.targets && LiveSubscription(t, p)
      ensures (JobTarget(p.0.job), p.1) in Graph.Grow(Edges(s), JobTarget(job), PendingTargets(w))
    {
      if p.0 != k { assert p in s.targets && LiveSubscription(s, p); }
    }
    forall p | p in s.targets && LiveSubscription(s, p)
      ensures p in t.targets && LiveSubscription(t, p)
    {
    }
    forall h | h in PendingTargets(w)
      ensures (JobTarget(job), h) in Edges(t)
    {
      assert (k, h) in t.targets && t.waits[k] == w;
      assert !Expired(w.deadline, s.now);
      assert LiveSubscription(t, (k, h));
    }
    assert forall m :: LiveMember(t, m) == LiveMember(s, m);
  }

  lemma RegisterOutcome(s: Db, job: JobId, req: WaitRequest, submission: bool)
    requires WellFormedWait(s, job, req, submission) && WaitKey(job, req.id) !in s.waits
    ensures RegisterWait(s, job, req, submission).Err? <==>
              ClosesCycle(SaveEvaluated(s, WaitKey(job, req.id), NewWait(req)), JobTarget(job))
  {
  }

  /** The cycle check follows exactly the waiting there is: an active job to each undecided target
      of its current wait, as long as the wait's deadline has not come; an open goal to each of
      its active members. */
  lemma EdgeIff(s: Db, threshold: nat, e: (Target, Target))
    requires Inv(s, threshold)
    ensures e in Edges(s) <==>
              match e.0
              case JobTarget(x) =>
                && CurrentWait(s, x).Some? && e.1 in PendingTargets(CurrentWait(s, x).value)
                && !Expired(CurrentWait(s, x).value.deadline, s.now)
              case GoalTarget(g) =>
                g in s.goals && s.goals[g].state == Open && e.1.JobTarget? && e.1.job in Members(s, g) && e.1.job in s.jobs
  {
    MemberEdge(s, e);
    match e.0 {
      case JobTarget(x) =>
        forall p | p in s.targets && LiveSubscription(s, p) && e == (JobTarget(p.0.job), p.1)
          ensures CurrentWait(s, x) == Some(s.waits[p.0]) && p.1 in PendingTargets(s.waits[p.0])
        {
          assert WaitOwned(s, p.0);
        }
        if CurrentWait(s, x).Some? && e.1 in PendingTargets(CurrentWait(s, x).value) {
          assert JobOk(s, threshold, x) && (WaitKey(x, s.jobs[x].dependencyWait.value), e.1) in s.targets;
        }
      case GoalTarget(g) =>
        forall m | m in Members(s, g) ensures m in s.jobs <==> m !in s.archive {
          assert (g, m) in Membership(s);
          MemberIsOne(s, threshold, g, m);
        }
    }
  }

  lemma MemberIsOne(s: Db, threshold: nat, g: GoalId, m: JobId)
    requires Inv(s, threshold) && (g, m) in Membership(s)
    ensures m in s.jobs <==> m !in s.archive
  {
    if (g, m) in s.candidates { assert CandidateOk(s, (g, m)); }
    assert IdentityOk(s, m);
    forall j | j in s.jobs ensures j !in s.archive { assert JobOk(s, threshold, j); }
  }

  /** A well-formed new wait is refused exactly when one of its open targets already
      depends, however indirectly, on the job that would wait. */
  lemma RegistrationIff(s: Db, job: JobId, req: WaitRequest, submission: bool)
    requires WellFormedWait(s, job, req, submission) && WaitKey(job, req.id) !in s.waits && job !in s.archive
    requires IndexExact(s) && Graph.Acyclic(Edges(s))
    ensures RegisterWait(s, job, req, submission).Err? <==>
              exists h :: h in PendingTargets(Evaluate(s.goals, s.archive, s.now, NewWait(req)))
                          && Graph.Reaches(Edges(s), h, JobTarget(job))
  {
    var heads := PendingTargets(Evaluate(s.goals, s.archive, s.now, NewWait(req)));
    RegisterEdges(s, job, req);
    Graph.NewEdgesCloseCycleIff(Edges(s), JobTarget(job), heads);
    var saved := SaveEvaluated(s, WaitKey(job, req.id), NewWait(req));
    Graph.WalkExact(Edges(saved), JobTarget(job));
    RegisterOutcome(s, job, req, submission);
  }

  predicate NewCandidate(s: Db, g: GoalId, j: JobId) {
    && g in s.goals && s.goals[g].state == Open && j in s.facts
    && s.facts[j].goal != g && (g, j) !in s.candidates
  }

  lemma MemberEdge(s: Db, e: (Target, Target))
    ensures e in Edges(s) <==>
              || (e.0.JobTarget? && exists p :: p in s.targets && LiveSubscription(s, p) && e == (JobTarget(p.0.job), p.1))
              || (e.0.GoalTarget? && e.1.JobTarget? && (e.0.goal, e.1.job) in Membership(s) && LiveMember(s, (e.0.goal, e.1.job)))
  {
    if e.0.GoalTarget? && e.1.JobTarget? {
      var m := (e.0.goal, e.1.job);
      assert e == (GoalTarget(m.0), JobTarget(m.1));
    }
  }

  lemma CandidateEdge(s: Db, g: GoalId, j: JobId, e: (Target, Target))
    requires NewCandidate(s, g, j)
    ensures e in Edges(s.(candidates := s.candidates + {(g, j)})) <==>
              e in Edges(s) || (j !in s.archive && e == (GoalTarget(g), JobTarget(j)))
  {
    var t := s.(candidates := s.candidates + {(g, j)});
    AttachMembership(s, g, j);
    MemberEdge(s, e);
    MemberEdge(t, e);
    assert forall p :: LiveSubscription(t, p) == LiveSubscription(s, p);
    assert forall m :: LiveMember(t, m) == LiveMember(s, m);
  }

  lemma LiveCandidateEdges(s: Db, g: GoalId, j: JobId)
    requires NewCandidate(s, g, j)
    ensures Edges(s.(candidates := s.candidates + {(g, j)}))
            == if j in s.archive then Edges(s) else Graph.Grow(Edges(s), GoalTarget(g), {JobTarget(j)})
  {
    var a := Edges(s.(candidates := s.candidates + {(g, j)}));
    var b := if j in s.archive then Edges(s) else Graph.Grow(Edges(s), GoalTarget(g), {JobTarget(j)});
    forall e ensures e in a <==> e in b { CandidateEdge(s, g, j, e); }
  }

  lemma AcyclicNeverCloses(s: Db, n: Target)
    requires Graph.Acyclic(Edges(s))
    ensures !ClosesCycle(s, n)
  {
    Graph.WalkExact(Edges(s), n);
  }

  /** Resolving the goal at once leaves no edge out of it, so nothing is refused. */
  lemma SettledCandidateAcyclic(s: Db, threshold: nat, g: GoalId, j: JobId)
    requires Inv(s, threshold) && NewCandidate(s, g, j) && j in s.archive
    ensures var a := s.(candidates := s.candidates + {(g, j)}, goals := ResolveGoals(s.goals, s.now, {g}, j));
            Graph.Acyclic(Edges(Settle(a, {GoalTarget(g)})))
  {
    var attached := s.(candidates := s.candidates + {(g, j)});
    var a := attached.(goals := ResolveGoals(s.goals, s.now, {g}, j));
    var t := Settle(a, {GoalTarget(g)});
    CloseGoalOutcomes(s, a, g);
    AttachMembership(s, g, j);
    MembershipFrame(attached, t);
    forall e | e in Edges(t) ensures e in Edges(s) {
      assert e.0 != GoalTarget(g);
      AttachEdges(s, t, g, j, e);
    }
    Graph.SubgraphAcyclic(Edges(t), Edges(s));
  }

  /** A new candidate is refused exactly when it is unfinished and already depends,
      however indirectly, on the goal. */
  lemma CandidateIff(s: Db, threshold: nat, g: GoalId, j: JobId)
    requires Inv(s, threshold) && NewCandidate(s, g, j)
    ensures AddCandidate(s, g, j).Err? <==>
              j !in s.archive && Graph.Reaches(Edges(s), JobTarget(j), GoalTarget(g))
  {
    var attached := s.(candidates := s.candidates + {(g, j)});
    if j in s.archive && s.archive[j].status == Success {
      var t := Settle(attached.(goals := ResolveGoals(s.goals, s.now, {g}, j)), {GoalTarget(g)});
      SettledCandidateAcyclic(s, threshold, g, j);
      AcyclicNeverCloses(t, GoalTarget(g));
    } else {
      LiveCandidateEdges(s, g, j);
      Graph.WalkExact(Edges(attached), GoalTarget(g));
      if j in s.archive {
        AcyclicNeverCloses(attached, GoalTarget(g));
      } else {
        Graph.NewEdgesCloseCycleIff(Edges(s), GoalTarget(g), {JobTarget(j)});
      }
    }
  }

  /** The second cycle check of a shared publication never refuses anything: the new job
      has no dependents yet, and the first check covered its own waits. */
  lemma SharedCheckNeverRefuses(s: Db, threshold: nat, id: JobId, req: SubmitRequest, goal: GoalId, waitFor: seq<JobId>)
    requires Inv(s, threshold) && id !in s.facts
    requires if req.shareGoal then goal in s.goals && s.goals[goal].state == Open else goal !in s.goals
    ensures var inserted := Inserted(s, id, req, goal, waitFor);
            var registered := if req.dependencies == [] then Ok(inserted)
                              else RegisterWait(inserted, id, WaitRequest(SUBMISSION, req.dependencies, None), true);
            registered.Ok? ==> !ClosesCycle(registered.value, GoalTarget(goal))
  {
    var inserted := Inserted(s, id, req, goal, waitFor);
    InsertedOutcomes(s, threshold, id, req, goal, waitFor);
    InsertedAcyclic(s, threshold, id, req, goal, waitFor);
    if req.dependencies == [] {
      AcyclicNeverCloses(inserted, GoalTarget(goal));
    } else {
      var wait := WaitRequest(SUBMISSION, req.dependencies, None);
      if RegisterWait(inserted, id, wait, true).Ok? {
        RegisterKeeps(inserted, id, wait, true);
        AcyclicNeverCloses(RegisterWait(inserted, id, wait, true).value, GoalTarget(goal));
      }
    }
  }
}
