/** Both kinds of waiting in one picture: prerequisites listed in wait_for and dependency
    waits, seen from each job and each goal. */
module Holding {
  import opened Basics
  import opened RunPolicies
  import opened Tables
  import opened Waits
  import opened Steps
  import opened Invariants
  import opened Preservation
  import opened GoalPreservation
  import opened Runs
  import opened Rows
  import opened Transitions
  import Graph
  import Tasks

  // ---- What a row that waits looks like ------------------------------------------------------

  /** wait_for names other jobs that exist, a leased row is not held back by any of them, and a row
      waits in one way only: with a current dependency wait it has no wait_for. */
  ghost predicate RowWaits(s: Db, x: JobId)
    requires x in s.jobs
  {
    && PointerOk(s, x)
    && (forall d :: d in s.jobs[x].waitFor ==> d in s.facts && d != x)
    && OneWay(s.jobs[x])
    && (s.jobs[x].lease.Some? && !s.jobs[x].waitUntilIsDeadline ==> forall d :: d in s.jobs[x].waitFor ==> d in s.archive)
  }

  ghost predicate OneWay(j: Job) {
    j.dependencyWait.Some? ==> j.waitFor == []
  }

  ghost predicate RowsWait(s: Db) {
    forall x {:trigger RowWaits(s, x)} :: x in s.jobs ==> RowWaits(s, x)
  }

  /** The invariant together with what it says about waiting rows. */
  ghost predicate Good(s: Db, threshold: nat) {
    Inv(s, threshold) && RowsWait(s)
  }

  lemma OneWayStep(s: Db, t: Db, threshold: nat, e: Event, x: JobId)
    requires Transition(s, t, threshold, e) && x in t.jobs && (x in s.jobs ==> OneWay(s.jobs[x]))
    ensures OneWay(t.jobs[x])
  {
    assert RowStep(s, t, threshold, e, x);
    assert t.jobs[x].waitFor != [] ==> t.jobs[x].waitFor[0] in t.jobs[x].waitFor;
    if x in s.jobs { assert JobOk(s, threshold, x); }
  }

  lemma RowWaitsStep(s: Db, t: Db, threshold: nat, e: Event, x: JobId)
    requires Transition(s, t, threshold, e) && x in t.jobs && (x in s.jobs ==> RowWaits(s, x))
    ensures RowWaits(t, x)
  {
    assert RowStep(s, t, threshold, e, x);
    OneWayStep(s, t, threshold, e, x);
    PointerStep(s, t, threshold, e, x);
    forall d | d in t.jobs ensures d in t.facts { assert JobOk(t, threshold, d); }
    forall d | d in s.facts ensures d in t.facts { assert FactLater(s, t, d); }
    forall d | d in s.archive ensures d in t.archive { assert ArchiveLater(s, t, d); }
    if Rewritten(s, t, threshold, e, x) && (e.AcquireWork? || e.ClaimWaitingTask?) {
      assert !LegacyBlocks(ExpireWaits(s), s.jobs[x], s.now);
    }
  }

  lemma StepGood(s: Db, threshold: nat, e: Event)
    requires Good(s, threshold)
    ensures Transition(s, Apply(s, threshold, e), threshold, e) && Good(Apply(s, threshold, e), threshold)
  {
    var t := Apply(s, threshold, e);
    StepTransition(s, threshold, e);
    forall x | x in t.jobs ensures RowWaits(t, x) {
      if x in s.jobs { assert RowWaits(s, x); }
      RowWaitsStep(s, t, threshold, e, x);
    }
  }

  lemma {:induction false} RunGood(s: Db, threshold: nat, es: seq<Event>)
    requires Good(s, threshold)
    ensures Good(Run(s, threshold, es), threshold)
    decreases |es|
  {
    if es != [] {
      StepGood(s, threshold, es[0]);
      RunGood(Apply(s, threshold, es[0]), threshold, es[1..]);
    }
  }

  lemma ReachableGood(threshold: nat, es: seq<Event>)
    ensures Good(Run(EMPTY, threshold, es), threshold)
  {
    EmptyInv(threshold);
    RunGood(EMPTY, threshold, es);
  }

  // ---- Who needs whom ---------------------------------------------------------------------------

  /** The job's current wait, when it is stored. */
  function CurrentWait(s: Db, x: JobId): Option<Wait> {
    if x in s.jobs && s.jobs[x].dependencyWait.Some? && WaitKey(x, s.jobs[x].dependencyWait.value) in s.waits
    then Some(s.waits[WaitKey(x, s.jobs[x].dependencyWait.value)]) else None
  }

  /** Active prerequisites of a job that has no deadline for them. */
  function LegacyHeads(s: Db, x: JobId): set<Target> {
    if x !in s.jobs || s.jobs[x].waitUntilIsDeadline then {}
    else set y | y in s.jobs[x].waitFor && y in s.jobs :: JobTarget(y)
  }

  /** Pending targets of a current wait that has no deadline. */
  function WaitHeads(s: Db, x: JobId): set<Target> {
    var w := CurrentWait(s, x);
    if w.Some? && w.value.deadline.None? then PendingTargets(w.value) else {}
  }

  function GoalHeads(s: Db, g: GoalId): set<Target> {
    if g in s.goals && s.goals[g].state == Open then set m | m in Members(s, g) && m !in s.archive :: JobTarget(m) else {}
  }

  /** What has to happen first, for as long as nobody intervenes. */
  function Heads(s: Db, n: Target): set<Target> {
    match n
    case JobTarget(x) => LegacyHeads(s, x) + WaitHeads(s, x)
    case GoalTarget(g) => GoalHeads(s, g)
  }

  /** The combined graph of deadline-less waiting. */
  function Needs(s: Db): set<(Target, Target)> {
    (set x, h | x in s.jobs && h in Heads(s, JobTarget(x)) :: (JobTarget(x), h))
    + (set g, h | g in s.goals && h in Heads(s, GoalTarget(g)) :: (GoalTarget(g), h))
  }

  lemma NeedsIff(s: Db, n: Target, h: Target)
    ensures (n, h) in Needs(s) <==> h in Heads(s, n)
  {
    match n {
      case JobTarget(x) =>
      case GoalTarget(g) =>
    }
  }

  /** What is needed is there and undecided. */
  lemma HeadIsOpen(s: Db, threshold: nat, n: Target, h: Target)
    requires Good(s, threshold) && h in Heads(s, n)
    ensures match h case JobTarget(j) => j in s.jobs && j !in s.archive case GoalTarget(g) => g in s.goals && s.goals[g].state == Open
  {
    match n {
      case JobTarget(x) =>
        if h in WaitHeads(s, x) {
          PendingIsOpen(s, threshold, WaitKey(x, s.jobs[x].dependencyWait.value), h);
        } else {
          assert JobOk(s, threshold, h.job);
        }
      case GoalTarget(g) =>
        MemberGoalExists(s, threshold, (g, h.job));
        assert IdentityOk(s, h.job);
    }
  }

  lemma PendingIsOpen(s: Db, threshold: nat, k: WaitKey, h: Target)
    requires Inv(s, threshold) && k in s.waits && h in PendingTargets(s.waits[k])
    ensures match h case JobTarget(j) => j in s.jobs && j !in s.archive case GoalTarget(g) => g in s.goals && s.goals[g].state == Open
  {
    assert WaitOk(s, k) && WaitSettled(s, k);
    var w := s.waits[k];
    var b :| b in w.bindings && b.state == Pending && b.dependency.target == h;
    var i :| 0 <= i < |w.bindings| && w.bindings[i] == b;
    assert w.descriptor[i] in w.descriptor;
    if h.JobTarget? { assert IdentityOk(s, h.job); }
  }

  /** A job that needs something is not leased. */
  lemma NeedyIsUnleased(s: Db, threshold: nat, x: JobId)
    requires Good(s, threshold) && x in s.jobs && Heads(s, JobTarget(x)) != {}
    ensures s.jobs[x].lease.None?
  {
    assert RowWaits(s, x);
    var h :| h in Heads(s, JobTarget(x));
    HeadIsOpen(s, threshold, JobTarget(x), h);
    if h in WaitHeads(s, x) {
      assert WaitOwned(s, WaitKey(x, s.jobs[x].dependencyWait.value));
    }
  }

  /** It is blocked, or not yet due: no worker can have it. */
  lemma NeedyStatus(s: Db, threshold: nat, x: JobId)
    requires Good(s, threshold) && x in s.jobs && Heads(s, JobTarget(x)) != {}
    ensures StatusAt(s, threshold, x, s.now) == PendingJobs || StatusAt(s, threshold, x, s.now) == AwaitingFuture
    ensures StatusAt(ExpireWaits(s), threshold, x, s.now) != Ready
  {
    NeedyIsUnleased(s, threshold, x);
    assert JobOk(s, threshold, x);
    var h :| h in Heads(s, JobTarget(x));
    HeadIsOpen(s, threshold, JobTarget(x), h);
    Tasks.ExpiryIsInvisible(s, threshold, x);
    if h in WaitHeads(s, x) {
      assert WaitBlocks(s, x, s.jobs[x], s.now);
    } else {
      assert LegacyBlocks(s, s.jobs[x], s.now);
    }
  }

  // ---- How needs change in one transaction ---------------------------------------------------------

  /** Calls that can give a node new needs. */
  predicate Adds(e: Event, n: Target) {
    match e
    case RescheduleJob(id, _, _, _) => n == JobTarget(id)
    case SubmitJob(id, r) => n == JobTarget(id) || n == GoalTarget(SubmittedGoal(r))
    case AttachCandidate(g, _) => n == GoalTarget(g)
    case _ => false
  }

  /** A row that is not rewritten by a reschedule needs no more than before. */
  lemma JobHeadsShrink(s: Db, t: Db, threshold: nat, e: Event, x: JobId)
    requires Good(s, threshold) && Transition(s, t, threshold, e) && x in s.jobs
    requires !(e.RescheduleJob? && e.job == x)
    ensures Heads(t, JobTarget(x)) <= Heads(s, JobTarget(x))
  {
    if x in t.jobs {
      assert RowStep(s, t, threshold, e, x) && RowWaits(s, x) && JobOk(s, threshold, x);
      WaitHeadsShrink(s, t, x);
      LegacyHeadsShrink(s, t, threshold, x);
    }
  }

  lemma WaitHeadsShrink(s: Db, t: Db, x: JobId)
    requires Later(s, t) && x in s.jobs && x in t.jobs && PointerOk(s, x)
    requires t.jobs[x].dependencyWait == s.jobs[x].dependencyWait
    ensures WaitHeads(t, x) <= WaitHeads(s, x)
  {
    if s.jobs[x].dependencyWait.Some? {
      var k := WaitKey(x, s.jobs[x].dependencyWait.value);
      assert StoredLater(s, t, k);
      LaterShrinksTargets(s.waits[k], t.waits[k]);
    }
  }

  lemma LegacyHeadsShrink(s: Db, t: Db, threshold: nat, x: JobId)
    requires Inv(s, threshold) && Inv(t, threshold) && Later(s, t) && x in s.jobs && x in t.jobs && RowWaits(s, x)
    requires forall d :: d in t.jobs[x].waitFor ==> d in s.jobs[x].waitFor
    requires t.jobs[x].waitUntilIsDeadline == s.jobs[x].waitUntilIsDeadline || t.jobs[x].waitFor == []
    ensures LegacyHeads(t, x) <= LegacyHeads(s, x)
  {
    forall y | y in s.archive ensures y in t.archive { assert ArchiveLater(s, t, y); }
    forall y | y in t.jobs[x].waitFor && y in t.jobs ensures y in s.jobs { assert IdentityOk(s, y) && JobOk(t, threshold, y); }
  }

  lemma MembersShrink(s: Db, t: Db, threshold: nat, e: Event, g: GoalId, m: JobId)
    requires Transition(s, t, threshold, e) && m in Members(t, g) && !Adds(e, GoalTarget(g))
    ensures m in Members(s, g)
  {
    assert (g, m) in Membership(t) && RowStep(s, t, threshold, e, m);
    if m in s.facts { assert FactLater(s, t, m); }
    assert (g, m) in Membership(s);
  }

  lemma GoalHeadsShrink(s: Db, t: Db, threshold: nat, e: Event, g: GoalId)
    requires Transition(s, t, threshold, e) && !Adds(e, GoalTarget(g))
    ensures GoalHeads(t, g) <= GoalHeads(s, g)
  {
    assert GoalStep(s, t, e, g);
    if g in s.goals { assert GoalLater(s, t, g); }
    forall j | j in s.archive ensures j in t.archive { assert ArchiveLater(s, t, j); }
    forall m | m in Members(t, g) ensures m in Members(s, g) { MembersShrink(s, t, threshold, e, g, m); }
  }

  /** No call gives needs to a node it does not address. */
  lemma HeadsShrink(s: Db, t: Db, threshold: nat, e: Event, n: Target)
    requires Good(s, threshold) && Transition(s, t, threshold, e) && !Adds(e, n)
    ensures Heads(t, n) <= Heads(s, n)
  {
    match n {
      case JobTarget(x) =>
        if x in s.jobs {
          JobHeadsShrink(s, t, threshold, e, x);
        } else {
          assert RowStep(s, t, threshold, e, x);
        }
      case GoalTarget(g) => GoalHeadsShrink(s, t, threshold, e, g);
    }
  }
}
