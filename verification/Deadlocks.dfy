/** Sets of jobs and goals that need each other: when they exist and how long they last. */
module Deadlocks {
  import opened Basics
  import opened RunPolicies
  import opened Tables
  import opened Waits
  import opened Steps
  import opened Invariants
  import opened GoalPreservation
  import opened Runs
  import opened Rows
  import opened Transitions
  import opened Truths
  import opened Holding
  import Graph

  /** Every member of the set needs a member of the set. */
  ghost predicate StuckNode(s: Db, stuck: set<Target>, n: Target) {
    exists h :: h in Heads(s, n) && h in stuck
  }

  ghost predicate Stuck(s: Db, stuck: set<Target>) {
    forall n {:trigger StuckNode(s, stuck, n)} :: n in stuck ==> StuckNode(s, stuck, n)
  }

  // ---- Exactly which databases contain a stuck set -------------------------------------------------

  lemma CycleIsStuck(s: Db, p: seq<Target>)
    requires Graph.IsCycle(Needs(s), p)
    ensures Stuck(s, Graph.Elements(p))
  {
    var stuck := Graph.Elements(p);
    forall n | n in stuck ensures StuckNode(s, stuck, n) {
      var i :| 0 <= i < |p| && p[i] == n;
      var k := if i == |p| - 1 then 0 else i;
      NeedsIff(s, p[k], p[k + 1]);
      assert p[k + 1] in stuck;
    }
  }

  lemma {:induction false} StuckWalk(s: Db, stuck: set<Target>, n: Target, length: nat) returns (p: seq<Target>)
    requires Stuck(s, stuck) && n in stuck
    ensures |p| == length + 1 && p[0] == n && Graph.IsPath(Needs(s), p) && forall y :: y in p ==> y in stuck
    decreases length
  {
    if length == 0 {
      p := [n];
    } else {
      assert StuckNode(s, stuck, n);
      var h :| h in Heads(s, n) && h in stuck;
      var rest := StuckWalk(s, stuck, h, length - 1);
      NeedsIff(s, n, h);
      p := [n] + rest;
    }
  }

  lemma NoRepeatsSize<N>(p: seq<N>)
    requires Graph.NoRepeats(p)
    ensures |Graph.Elements(p)| == |p|
  {
    if p != [] {
      var q := p[..|p| - 1];
      NoRepeatsSize(q);
      assert Graph.Elements(p) == Graph.Elements(q) + {p[|p| - 1]};
      assert p[|p| - 1] !in q;
    }
  }

  /** Some jobs and goals need each other exactly when the combined graph has a cycle,
      whichever kinds of wait it is made of. */
  lemma StuckIffCyclic(s: Db)
    ensures (exists stuck :: stuck != {} && Stuck(s, stuck)) <==> !Graph.Acyclic(Needs(s))
  {
    if stuck :| stuck != {} && Stuck(s, stuck) {
      var n :| n in stuck;
      var p := StuckWalk(s, stuck, n, |stuck|);
      if Graph.NoRepeats(p) {
        NoRepeatsSize(p);
        Graph.SubsetSize(Graph.Elements(p), stuck);
        assert false;
      }
      var i, j :| 0 <= i < j < |p| && p[i] == p[j];
      Graph.SubPath(Needs(s), p, i, j + 1);
      assert Graph.IsCycle(Needs(s), p[i..j + 1]);
    }
    if !Graph.Acyclic(Needs(s)) {
      var p :| Graph.IsCycle(Needs(s), p);
      CycleIsStuck(s, p);
      assert p[0] in Graph.Elements(p);
    }
  }

  // ---- What could still release a member -------------------------------------------------------------

  /** A job dependency on mere completion cannot fail. */
  predicate CanFail(d: Dependency) {
    d.condition == OnSuccess || d.target.GoalTarget?
  }

  /** Undecided targets whose failure would end the job's current wait. */
  ghost function RisksOf(s: Db, x: JobId): set<Target> {
    var w := CurrentWait(s, x);
    if w.None? || w.value.state != Pending then {}
    else set b | b in w.value.bindings && b.state == Pending && CanFail(b.dependency) :: b.dependency.target
  }

  ghost function Risks(s: Db, stuck: set<Target>): set<Target> {
    set n, t | n in stuck && n.JobTarget? && t in RisksOf(s, n.job) :: t
  }

  /** Unfinished members whose success would close a goal of the set. */
  ghost function Rescuers(s: Db, stuck: set<Target>): set<JobId> {
    set n, m | n in stuck && n.GoalTarget? && m in Members(s, n.goal) && m !in s.archive :: m
  }

  /** The calls that reach into a stuck set: a member is cancelled or deleted; a goal of the
      set is failed, joined or given a candidate; a member's other dependency fails; an
      outside member of a goal of the set succeeds. */
  ghost predicate Breaks(e: Event, stuck: set<Target>, risks: set<Target>, rescuers: set<JobId>) {
    match e
    case CancelJob(x, _, _) => JobTarget(x) in stuck + risks
    case DeleteJobs(_, order) => exists x :: x in order && JobTarget(x) in stuck + risks
    case CompleteJob(x, _, _, status, _, _) =>
      JobTarget(x) !in stuck && if status == Success then x in rescuers else JobTarget(x) in risks
    case CloseGoal(g, _) => GoalTarget(g) in stuck + risks
    case AttachCandidate(g, _) => GoalTarget(g) in stuck
    case SubmitJob(_, r) => r.shareGoal && GoalTarget(SubmittedGoal(r)) in stuck
    case _ => false
  }

  /** A call on a member that only its holder or an unheld row could make. */
  predicate Addresses(e: Event, stuck: set<Target>) {
    (e.RescheduleJob? || e.CompleteJob?) && JobTarget(e.job) in stuck
  }

  lemma MemberNeeds(s: Db, threshold: nat, stuck: set<Target>, x: JobId)
    requires Good(s, threshold) && Stuck(s, stuck) && JobTarget(x) in stuck
    ensures x in s.jobs && Heads(s, JobTarget(x)) != {} && s.jobs[x].lease.None?
    ensures StatusAt(s, threshold, x, s.now) == PendingJobs || StatusAt(s, threshold, x, s.now) == AwaitingFuture
    ensures StatusAt(ExpireWaits(s), threshold, x, s.now) != Ready
  {
    assert StuckNode(s, stuck, JobTarget(x));
    NeedyIsUnleased(s, threshold, x);
    NeedyStatus(s, threshold, x);
  }

  /** Nobody, holder or administrator, completes or reschedules a member. */
  lemma MemberRefuses(s: Db, threshold: nat, stuck: set<Target>, e: Event)
    requires Good(s, threshold) && Stuck(s, stuck) && Addresses(e, stuck)
    ensures Apply(s, threshold, e) == s
  {
    MemberNeeds(s, threshold, stuck, e.job);
  }

  lemma MemberRow(s: Db, t: Db, threshold: nat, e: Event, stuck: set<Target>, risks: set<Target>, rescuers: set<JobId>, x: JobId)
    requires Good(s, threshold) && Transition(s, t, threshold, e) && Stuck(s, stuck) && JobTarget(x) in stuck
    requires !Addresses(e, stuck) && !Breaks(e, stuck, risks, rescuers)
    ensures x in s.jobs && x in t.jobs && x !in t.archive && t.jobs[x].dependencyWait == s.jobs[x].dependencyWait
    ensures LegacyShrinks(s, t, x)
  {
    MemberNeeds(s, threshold, stuck, x);
    assert RowStep(s, t, threshold, e, x) && JobOk(s, threshold, x);
    assert JobOk(t, threshold, x);
  }

  /** What makes a goal of the set close in one step is one of the breaking calls. */
  lemma GoalStaysOpen(s: Db, t: Db, threshold: nat, e: Event, stuck: set<Target>, risks: set<Target>, rescuers: set<JobId>, g: GoalId)
    requires Good(s, threshold) && Transition(s, t, threshold, e) && Stuck(s, stuck) && GoalTarget(g) in stuck
    requires !Addresses(e, stuck) && !Breaks(e, stuck, risks, rescuers) && Rescuers(s, stuck) <= rescuers
    ensures g in s.goals && s.goals[g].state == Open && g in t.goals && t.goals[g].state == Open
  {
    assert StuckNode(s, stuck, GoalTarget(g)) && GoalLater(s, t, g) && GoalOk(t, g) && GoalStep(s, t, e, g);
    forall m | m in Members(s, g) && m !in s.archive ensures m in rescuers { assert m in Rescuers(s, stuck); }
    if t.goals[g].state == Succeeded { WinnerIsNew(s, t, threshold, e, g, t.goals[g].winner.value); }
  }

  /** A goal that succeeds in a step does so by that step's success of a member. */
  lemma WinnerIsNew(s: Db, t: Db, threshold: nat, e: Event, g: GoalId, w: JobId)
    requires Good(s, threshold) && Transition(s, t, threshold, e) && g in s.goals && s.goals[g].state == Open
    requires (g, w) in Membership(t) && w in t.archive && t.archive[w].status == Success
    requires !(e.AttachCandidate? && e.goal == g) && !(e.SubmitJob? && e.submission.shareGoal && SubmittedGoal(e.submission) == g)
    ensures w in Members(s, g) && w !in s.archive && e.CompleteJob? && e.job == w && e.status == Success
  {
    assert w in Members(t, g) && OutcomeStep(s, t, e, w);
    forall j | j in s.archive ensures j in t.archive && t.archive[j] == s.archive[j] { assert ArchiveLater(s, t, j); }
    if e.SubmitJob? && SubmittedGoal(e.submission) == g {
      SubmitKeepsMembers(s, t, threshold, e, g, w);
    } else {
      MembersShrink(s, t, threshold, e, g, w);
    }
    assert (g, w) in Membership(s) && MemberSettled(s, (g, w));
  }

  /** A submission with a goal of its own cannot name an existing one. */
  lemma SubmitKeepsMembers(s: Db, t: Db, threshold: nat, e: Event, g: GoalId, w: JobId)
    requires Transition(s, t, threshold, e) && e.SubmitJob? && w in t.archive && w in Members(t, g)
    ensures w in Members(s, g)
  {
    assert (g, w) in Membership(t) && OutcomeStep(s, t, e, w) && ArchivedOk(s, w) && FactLater(s, t, w);
    assert (g, w) in Membership(s);
  }

  lemma RiskHolds(s: Db, t: Db, threshold: nat, e: Event, stuck: set<Target>, risks: set<Target>, rescuers: set<JobId>, h: Target)
    requires Transition(s, t, threshold, e) && !Breaks(e, stuck, risks, rescuers) && !Addresses(e, stuck) && h in risks
    requires match h case JobTarget(z) => z !in s.archive case GoalTarget(g) => g in s.goals && s.goals[g].state == Open
    ensures match h
            case JobTarget(z) => z in t.archive ==> t.archive[z].status == Success
            case GoalTarget(g) => g in t.goals ==> t.goals[g].state != Failed
  {
    match h {
      case JobTarget(z) => assert OutcomeStep(s, t, e, z);
      case GoalTarget(g) => assert GoalStep(s, t, e, g);
    }
  }

  /** No binding of a member's wait fails in a step that does not break the set. */
  lemma NoRiskFails(s: Db, t: Db, threshold: nat, e: Event, stuck: set<Target>, risks: set<Target>, rescuers: set<JobId>,
                    x: JobId, k: WaitKey, b: Binding, c: Binding)
    requires Good(s, threshold) && Transition(s, t, threshold, e) && JobTarget(x) in stuck
    requires !Breaks(e, stuck, risks, rescuers) && !Addresses(e, stuck) && Risks(s, stuck) <= risks
    requires x in s.jobs && s.jobs[x].dependencyWait == Some(k.wait) && k.job == x && k in s.waits && s.waits[k].state == Pending
    requires b in s.waits[k].bindings && b.state == Pending
    requires c.dependency == b.dependency && Truthful(t.goals, t.archive, c)
    ensures c.state != DidFail
  {
    var h := b.dependency.target;
    assert h in PendingTargets(s.waits[k]);
    PendingIsOpen(s, threshold, k, h);
    if CanFail(b.dependency) {
      assert CurrentWait(s, x) == Some(s.waits[k]);
      assert h in RisksOf(s, x);
      assert h in Risks(s, stuck);
      RiskHolds(s, t, threshold, e, stuck, risks, rescuers, h);
    }
  }

  /** A wait neither timed out nor cancelled, none of whose open entries failed, is still
      pending on what is still undecided. */
  lemma StillPending(goals: Goals, archive: Archive, w: Wait, v: Wait, h: Target)
    requires WaitLater(w, v) && WaitShape(w) && WaitShape(v) && AllTruthful(goals, archive, v)
    requires v.state != TimedOut && v.state != WasCancelled
    requires h in PendingTargets(w) && !Resolved(goals, archive, h)
    requires forall i :: 0 <= i < |w.bindings| && w.bindings[i].state == Pending ==> v.bindings[i].state != DidFail
    ensures h in PendingTargets(v)
  {
    var b :| b in w.bindings && b.state == Pending && b.dependency.target == h;
    var i :| 0 <= i < |w.bindings| && w.bindings[i] == b;
    assert Truthful(goals, archive, v.bindings[i]);
    assert v.bindings[i].state != Satisfied;
    assert v.bindings[i] in v.bindings;
  }

  /** A pending wait without a deadline that still needs a member stays pending on it. */
  lemma WaitStaysPending(s: Db, t: Db, threshold: nat, e: Event, stuck: set<Target>, risks: set<Target>, rescuers: set<JobId>,
                         x: JobId, k: WaitKey, h: Target)
    requires Good(s, threshold) && Transition(s, t, threshold, e) && NoLies(t) && JobTarget(x) in stuck
    requires !Breaks(e, stuck, risks, rescuers) && !Addresses(e, stuck) && Risks(s, stuck) <= risks && x !in Ended(e)
    requires x in s.jobs && s.jobs[x].dependencyWait == Some(k.wait) && k.job == x && k in s.waits
    requires s.waits[k].deadline.None? && h in PendingTargets(s.waits[k]) && !Resolved(t.goals, t.archive, h)
    ensures k in t.waits && h in PendingTargets(t.waits[k])
  {
    assert StoredLater(s, t, k) && DueStep(s, t, k, Ended(e)) && WaitOk(s, k) && WaitOk(t, k) && WaitTrue(t, k);
    var w, v := s.waits[k], t.waits[k];
    forall i | 0 <= i < |w.bindings| && w.bindings[i].state == Pending ensures v.bindings[i].state != DidFail {
      assert w.bindings[i] in w.bindings && Truthful(t.goals, t.archive, v.bindings[i]);
      NoRiskFails(s, t, threshold, e, stuck, risks, rescuers, x, k, w.bindings[i], v.bindings[i]);
    }
    StillPending(t.goals, t.archive, w, v, h);
  }

  // ---- One step --------------------------------------------------------------------------------------

  /** A submission that would make a goal of the set its own primary goal is refused. */
  predicate Collides(e: Event, stuck: set<Target>) {
    e.SubmitJob? && !e.submission.shareGoal && GoalTarget(SubmittedGoal(e.submission)) in stuck
  }

  lemma CollisionRefused(s: Db, threshold: nat, stuck: set<Target>, e: Event)
    requires Stuck(s, stuck) && Collides(e, stuck)
    ensures Apply(s, threshold, e) == s
  {
    assert StuckNode(s, stuck, GoalTarget(SubmittedGoal(e.submission)));
  }

  ghost predicate Quiet(s: Db, e: Event, stuck: set<Target>, risks: set<Target>, rescuers: set<JobId>) {
    && !Breaks(e, stuck, risks, rescuers) && !Addresses(e, stuck) && !Collides(e, stuck)
    && Risks(s, stuck) <= risks && Rescuers(s, stuck) <= rescuers
  }

  lemma MemberUndecided(s: Db, t: Db, threshold: nat, e: Event, stuck: set<Target>, risks: set<Target>, rescuers: set<JobId>, h: Target)
    requires Good(s, threshold) && Transition(s, t, threshold, e) && Stuck(s, stuck) && Quiet(s, e, stuck, risks, rescuers) && h in stuck
    ensures !Resolved(t.goals, t.archive, h)
    ensures match h case JobTarget(y) => y in t.jobs case GoalTarget(g) => g in t.goals && t.goals[g].state == Open
  {
    match h {
      case JobTarget(y) => MemberRow(s, t, threshold, e, stuck, risks, rescuers, y);
      case GoalTarget(g) => GoalStaysOpen(s, t, threshold, e, stuck, risks, rescuers, g);
    }
  }

  lemma NotEnded(e: Event, stuck: set<Target>, risks: set<Target>, rescuers: set<JobId>, x: JobId)
    requires !Breaks(e, stuck, risks, rescuers) && !Addresses(e, stuck) && JobTarget(x) in stuck
    ensures x !in Ended(e)
  {
  }

  lemma JobNeedStays(s: Db, t: Db, threshold: nat, e: Event, stuck: set<Target>, risks: set<Target>, rescuers: set<JobId>, x: JobId, h: Target)
    requires Good(s, threshold) && Transition(s, t, threshold, e) && NoLies(t) && Stuck(s, stuck)
    requires Quiet(s, e, stuck, risks, rescuers) && JobTarget(x) in stuck && h in Heads(s, JobTarget(x)) && h in stuck
    ensures h in Heads(t, JobTarget(x))
  {
    MemberRow(s, t, threshold, e, stuck, risks, rescuers, x);
    MemberUndecided(s, t, threshold, e, stuck, risks, rescuers, h);
    if h in WaitHeads(s, x) {
      var k := WaitKey(x, s.jobs[x].dependencyWait.value);
      NotEnded(e, stuck, risks, rescuers, x);
      WaitStaysPending(s, t, threshold, e, stuck, risks, rescuers, x, k, h);
      assert StoredLater(s, t, k);
    } else {
      assert JobOk(t, threshold, h.job);
    }
  }

  lemma GoalNeedStays(s: Db, t: Db, threshold: nat, e: Event, stuck: set<Target>, risks: set<Target>, rescuers: set<JobId>, g: GoalId, h: Target)
    requires Good(s, threshold) && Transition(s, t, threshold, e) && Stuck(s, stuck)
    requires Quiet(s, e, stuck, risks, rescuers) && GoalTarget(g) in stuck && h in Heads(s, GoalTarget(g)) && h in stuck
    ensures h in Heads(t, GoalTarget(g))
  {
    MemberUndecided(s, t, threshold, e, stuck, risks, rescuers, h);
    GoalStaysOpen(s, t, threshold, e, stuck, risks, rescuers, g);
    assert JobOk(t, threshold, h.job);
    assert (g, h.job) in Membership(s);
    if (g, h.job) !in s.candidates { assert FactLater(s, t, h.job); }
    assert (g, h.job) in Membership(t);
  }

  lemma StuckStep(s: Db, t: Db, threshold: nat, e: Event, stuck: set<Target>, risks: set<Target>, rescuers: set<JobId>)
    requires Good(s, threshold) && Transition(s, t, threshold, e) && NoLies(t) && Stuck(s, stuck)
    requires Quiet(s, e, stuck, risks, rescuers)
    ensures Stuck(t, stuck)
  {
    forall n | n in stuck ensures StuckNode(t, stuck, n) {
      assert StuckNode(s, stuck, n);
      var h :| h in Heads(s, n) && h in stuck;
      match n {
        case JobTarget(x) => JobNeedStays(s, t, threshold, e, stuck, risks, rescuers, x, h);
        case GoalTarget(g) => GoalNeedStays(s, t, threshold, e, stuck, risks, rescuers, g, h);
      }
    }
  }

  lemma RisksOfShrink(s: Db, t: Db, x: JobId, r: Target)
    requires Later(s, t) && x in s.jobs && x in t.jobs && PointerOk(s, x) && t.jobs[x].dependencyWait == s.jobs[x].dependencyWait
    requires r in RisksOf(t, x)
    ensures r in RisksOf(s, x)
  {
    var k := WaitKey(x, t.jobs[x].dependencyWait.value);
    assert StoredLater(s, t, k);
    var w, v := s.waits[k], t.waits[k];
    var b :| b in v.bindings && b.state == Pending && CanFail(b.dependency) && b.dependency.target == r;
    var i :| 0 <= i < |v.bindings| && v.bindings[i] == b;
    assert w.bindings[i] in w.bindings;
  }

  /** Risks and rescuers never grow, so it is enough to look at them once. */
  lemma QuietShrinks(s: Db, t: Db, threshold: nat, e: Event, stuck: set<Target>, risks: set<Target>, rescuers: set<JobId>)
    requires Good(s, threshold) && Transition(s, t, threshold, e) && Stuck(s, stuck) && Quiet(s, e, stuck, risks, rescuers)
    ensures Risks(t, stuck) <= risks && Rescuers(t, stuck) <= rescuers
  {
    forall n, r | n in stuck && n.JobTarget? && r in RisksOf(t, n.job) ensures r in risks {
      MemberRow(s, t, threshold, e, stuck, risks, rescuers, n.job);
      assert RowWaits(s, n.job);
      RisksOfShrink(s, t, n.job, r);
      assert r in Risks(s, stuck);
    }
    forall j | j in s.archive ensures j in t.archive { assert ArchiveLater(s, t, j); }
    forall n, m | n in stuck && n.GoalTarget? && m in Members(t, n.goal) && m !in t.archive ensures m in rescuers {
      MembersShrink(s, t, threshold, e, n.goal, m);
      assert m in Rescuers(s, stuck);
    }
  }

  // ---- For ever ----------------------------------------------------------------------------------------

  lemma {:induction false} StuckRun(s: Db, threshold: nat, es: seq<Event>, stuck: set<Target>, risks: set<Target>, rescuers: set<JobId>)
    requires Good(s, threshold) && NoLies(s) && Stuck(s, stuck)
    requires Risks(s, stuck) <= risks && Rescuers(s, stuck) <= rescuers
    requires forall e :: e in es ==> !Breaks(e, stuck, risks, rescuers)
    ensures Stuck(Run(s, threshold, es), stuck) && Good(Run(s, threshold, es), threshold)
    decreases |es|
  {
    if es != [] {
      var e := es[0];
      var t := Apply(s, threshold, e);
      assert e in es;
      StepGood(s, threshold, e);
      StepTrue(s, threshold, e);
      if Addresses(e, stuck) {
        MemberRefuses(s, threshold, stuck, e);
      } else if Collides(e, stuck) {
        CollisionRefused(s, threshold, stuck, e);
      } else {
        StuckStep(s, t, threshold, e, stuck, risks, rescuers);
        QuietShrinks(s, t, threshold, e, stuck, risks, rescuers);
      }
      StuckRun(t, threshold, es[1..], stuck, risks, rescuers);
    }
  }

  /** Jobs and goals that need each other, by wait_for, by dependency waits or by both, do so
      in every run in which nobody cancels or deletes a member, intervenes in a goal of the
      set, or lets a member's other dependency fail or a goal's other member succeed. No
      worker is ever given a member. */
  lemma StuckForever(s: Db, threshold: nat, es: seq<Event>, stuck: set<Target>, x: JobId)
    requires Good(s, threshold) && NoLies(s) && Stuck(s, stuck) && JobTarget(x) in stuck
    requires forall e :: e in es ==> !Breaks(e, stuck, Risks(s, stuck), Rescuers(s, stuck))
    ensures var t := Run(s, threshold, es);
            && Stuck(t, stuck) && x in t.jobs
            && (StatusAt(t, threshold, x, t.now) == PendingJobs || StatusAt(t, threshold, x, t.now) == AwaitingFuture)
  {
    StuckRun(s, threshold, es, stuck, Risks(s, stuck), Rescuers(s, stuck));
    MemberNeeds(Run(s, threshold, es), threshold, stuck, x);
  }
}
