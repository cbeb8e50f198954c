/** Concrete runs behind the limits stated elsewhere. */
module Examples {
  import opened Basics
  import opened RunPolicies
  import opened Tables
  import opened Waits
  import opened Steps
  import opened Invariants
  import opened Preservation
  import opened GoalPreservation
  import opened Runs
  import opened Rows
  import opened Progress
  import opened Holding
  import opened Deadlocks
  import opened Closings
  import opened Truths
  import opened Transitions
  import Graph
  import Tasks
  import TriggerOrder

  const PLAIN := StoredPolicy(0, 1.0, 0, 0, [], None, None)

  function Plain(goal: GoalId, waitFor: seq<JobId>, dependencies: seq<Dependency>): SubmitRequest {
    SubmitRequest("w", "t", PLAIN, "{}", None, None, waitFor, None, None, None, None, goal, false, None, dependencies)
  }

  const GOAL_A := Goal(Open, 1, None, None, 0, None)
  const NEEDS_A := [Dependency(GoalTarget("ga"), OnSuccess)]

  lemma FirstSubmitted() returns (s: Db)
    ensures s == Apply(EMPTY, 1, SubmitJob("a", Plain("ga", [], [])))
    ensures s == EMPTY.(goals := map["ga" := GOAL_A],
                        facts := map["a" := NewFacts(Plain("ga", [], []), "ga", 0)],
                        jobs := map["a" := NewJob(Plain("ga", [], []), "ga", [], 0)],
                        clients := map["a" := Client(None, 0)])
  {
    s := Apply(EMPTY, 1, SubmitJob("a", Plain("ga", [], [])));
    assert ValidSubmit("a", Plain("ga", [], []));
  }

  lemma FirstFailed() returns (s: Db)
    ensures s == Run(EMPTY, 1, [SubmitJob("a", Plain("ga", [], [])), CompleteJob("a", None, "w", FailedApp, "", None)])
    ensures s.jobs == map[] && s.waits == map[] && s.targets == {} && s.goals == map["ga" := GOAL_A] && s.now == 0
    ensures s.facts == map["a" := NewFacts(Plain("ga", [], []), "ga", 0)] && s.archive.Keys == {"a"} && s.candidates == {}
  {
    var es := [SubmitJob("a", Plain("ga", [], [])), CompleteJob("a", None, "w", FailedApp, "", None)];
    var s1 := FirstSubmitted();
    s := Apply(s1, 1, es[1]);
    assert StatusAt(s1, 1, "a", 0) == Ready;
    assert s == ArchiveJob(s1, "a", FailedApp, "");
    assert es[1..][1..] == [];
    assert Run(EMPTY, 1, es) == Run(s1, 1, es[1..]) == Run(s, 1, es[1..][1..]);
  }

  lemma SecondWaits(s: Db) returns (w: Wait)
    requires "ga" in s.goals && s.goals["ga"].state == Open
    ensures w == NewWait(WaitRequest(SUBMISSION, NEEDS_A, None)) == Evaluate(s.goals, s.archive, s.now, w)
    ensures PendingTargets(w) == {GoalTarget("ga")} && w.state == Pending
  {
    w := NewWait(WaitRequest(SUBMISSION, NEEDS_A, None));
    var b := Binding(NEEDS_A[0], Pending, None, None);
    assert w.bindings == [b];
    assert Bind(s.goals, s.archive, b) == b;
    assert BindAll(s.goals, s.archive, w.bindings) == w.bindings;
    assert b in w.bindings;
  }

  lemma SecondSubmitted(s: Db) returns (t: Db)
    requires Inv(s, 1) && s.jobs == map[] && s.waits == map[] && s.goals == map["ga" := GOAL_A] && s.candidates == {}
    requires s.facts.Keys == {"a"} == s.archive.Keys
    ensures Submit(s, "b", Plain("gb", [], NEEDS_A)) == Ok(t)
    ensures t.jobs.Keys == {"b"} && Blocked(t, "b") && Starved(t, "ga")
  {
    var req := Plain("gb", [], NEEDS_A);
    var inserted := Inserted(s, "b", req, "gb", []);
    InsertedOutcomes(s, 1, "b", req, "gb", []);
    InsertedAcyclic(s, 1, "b", req, "gb", []);
    InsertedMembership(s, "b", req, "gb", []);
    assert IdentityOk(s, "a");
    assert Starved(inserted, "ga") by {
      forall m | m in Members(inserted, "ga") ensures m in inserted.archive {
        assert ("ga", m) in Membership(s);
      }
    }
    var w := SecondWaits(inserted);
    SecondRegistered(inserted, WaitRequest(SUBMISSION, NEEDS_A, None), w);
    t := SaveWaits(inserted, map[WaitKey("b", SUBMISSION) := w]);
    assert Members(t, "ga") == Members(inserted, "ga");
    SecondAccepted(s, t, req, inserted);
  }

  lemma SecondAccepted(s: Db, t: Db, req: SubmitRequest, inserted: Db)
    requires s.goals == map["ga" := GOAL_A] && s.facts.Keys == {"a"} && req == Plain("gb", [], NEEDS_A)
    requires inserted == Inserted(s, "b", req, "gb", [])
    requires RegisterWait(inserted, "b", WaitRequest(SUBMISSION, NEEDS_A, None), true) == Ok(t)
    ensures Submit(s, "b", req) == Ok(t)
  {
    assert ValidSubmit("b", req);
  }

  /** A failed job leaves its goal open with nothing left to finish it: a dependent then
      waits although no job in the database can run. */
  lemma StarvedRun()
    ensures var s := Run(EMPTY, 1, [SubmitJob("a", Plain("ga", [], [])),
                                    CompleteJob("a", None, "w", FailedApp, "", None),
                                    SubmitJob("b", Plain("gb", [], NEEDS_A))]);
            && Blocked(s, "b") && Starved(s, "ga")
            && forall j :: j in s.jobs ==> !Runnable(s, j)
  {
    var es := [SubmitJob("a", Plain("ga", [], [])), CompleteJob("a", None, "w", FailedApp, "", None)];
    var s2 := FirstFailed();
    ReachableInv(1, es);
    var t := SecondSubmitted(s2);
    var third := SubmitJob("b", Plain("gb", [], NEEDS_A));
    assert es + [third] == [es[0], es[1], third];
    RunConcat(EMPTY, 1, es, [third]);
    assert Run(s2, 1, [third]) == Apply(s2, 1, third) == t;
  }

  lemma SecondRegistered(s: Db, wait: WaitRequest, w: Wait)
    requires IndexExact(s) && Graph.Acyclic(Edges(s)) && s.waits == map[] && "b" !in s.archive
    requires Starved(s, "ga") && wait == WaitRequest(SUBMISSION, NEEDS_A, None)
    requires w == NewWait(wait) == Evaluate(s.goals, s.archive, s.now, w) && PendingTargets(w) == {GoalTarget("ga")}
    ensures RegisterWait(s, "b", wait, true) == Ok(SaveWaits(s, map[WaitKey("b", SUBMISSION) := w]))
  {
    forall p: seq<Target> | Graph.IsPath(Edges(s), p) && p[0] == GoalTarget("ga")
      ensures p[|p| - 1] != JobTarget("b")
    {
      if |p| > 1 {
        assert (p[0], p[1]) in Edges(s);
        StarvedIsSink(s, "ga", (p[0], p[1]));
      }
    }
    SubmissionWellFormed(s, wait);
    RegistrationIff(s, "b", wait, true);
  }

  lemma SubmissionWellFormed(s: Db, wait: WaitRequest)
    requires "ga" in s.goals && wait == WaitRequest(SUBMISSION, NEEDS_A, None)
    ensures WellFormedWait(s, "b", wait, true)
  {
    assert TargetExists(s, GoalTarget("ga"));
  }

  lemma StarvedIsSink(s: Db, g: GoalId, e: (Target, Target))
    requires Starved(s, g) && e in Edges(s)
    ensures e.0 != GoalTarget(g)
  {
    forall m | m in Membership(s) && m.0 == g ensures m.1 in s.archive { assert m.1 in Members(s, g); }
  }

  // ---- Two jobs behind each other ------------------------------------------------------------------

  lemma SecondBehindFirst(s: Db) returns (t: Db)
    requires s == Apply(EMPTY, 1, SubmitJob("a", Plain("ga", [], [])))
    ensures t == Apply(s, 1, SubmitJob("b", Plain("gb", ["a"], [])))
    ensures t.now == 0 && t.issued == {} && t.waits == map[] && t.archive == map[] && t.jobs.Keys == {"a", "b"}
    ensures t.jobs["a"] == NewJob(Plain("ga", [], []), "ga", [], 0)
    ensures t.jobs["b"].waitFor == ["a"] && t.jobs["b"].lease.None? && !t.jobs["b"].waitUntilIsDeadline && t.jobs["b"].dependencyWait.None?
  {
    var first := FirstSubmitted();
    var req := Plain("gb", ["a"], []);
    assert ValidSubmit("b", req);
    NormalizeOne(s, "a");
    t := Inserted(s, "b", req, "gb", ["a"]);
    assert Submit(s, "b", req) == Ok(t);
  }

  const TAKE := WorkRequest("w", {"t"}, {}, None, 60, "l")

  lemma FirstTaken(s: Db)
    requires Inv(s, 1) && s.now == 0 && s.issued == {} && s.waits == map[] && s.archive == map[] && s.jobs.Keys == {"a", "b"}
    requires s.jobs["a"] == NewJob(Plain("ga", [], []), "ga", [], 0)
    ensures var t := Apply(s, 1, AcquireWork("a", TAKE));
            && Validates(t, "a", "l", "w") && t.jobs.Keys == s.jobs.Keys && t.jobs["b"] == s.jobs["b"] && t.now == 0
            && t.waits == map[]
  {
    assert JobOk(s, 1, "a") && IdentityOk(s, "a");
    assert StatusAt(s, 1, "a", 0) == Ready;
    Tasks.ExpiryIsInvisible(s, 1, "a");
    assert Eligible(ExpireWaits(s), 1, TAKE, "a");
    AcquireRows(s, 1, TAKE, "a", "a");
    AcquireRows(s, 1, TAKE, "a", "b");
  }

  lemma RunThree(s: Db, threshold: nat, a: Event, b: Event, c: Event)
    ensures Run(s, threshold, [a, b, c]) == Apply(Apply(Apply(s, threshold, a), threshold, b), threshold, c)
  {
    var s1 := Apply(s, threshold, a);
    assert [a, b, c][1..] == [b, c] && [b, c][1..] == [c] && [c][1..] == [];
    assert Run(s, threshold, [a, b, c]) == Run(s1, threshold, [b, c]);
    assert Run(s1, threshold, [b, c]) == Run(Apply(s1, threshold, b), threshold, [c]);
  }

  function Prefix(): seq<Event> {
    [SubmitJob("a", Plain("ga", [], [])), SubmitJob("b", Plain("gb", ["a"], [])), AcquireWork("a", TAKE)]
  }

  function FirstThree(last: RescheduleRequest): seq<Event> {
    Prefix() + [RescheduleJob("a", Some("l"), "w", last)]
  }

  /** The first three calls: `a` is leased, `b` waits for it. */
  ghost predicate FirstHeld(s: Db) {
    && Good(s, 1) && NoLies(s) && Validates(s, "a", "l", "w") && s.jobs.Keys == {"a", "b"} && s.waits == map[] && s.now == 0
    && s.jobs["b"].waitFor == ["a"] && !s.jobs["b"].waitUntilIsDeadline && s.jobs["b"].dependencyWait.None?
  }

  lemma PrefixState() returns (s: Db)
    ensures s == Run(EMPTY, 1, Prefix())
    ensures Validates(s, "a", "l", "w") && s.jobs.Keys == {"a", "b"} && s.waits == map[] && s.now == 0
    ensures s.jobs["b"].waitFor == ["a"] && !s.jobs["b"].waitUntilIsDeadline && s.jobs["b"].dependencyWait.None?
  {
    var es := Prefix();
    var s1 := Apply(EMPTY, 1, es[0]);
    var s2 := SecondBehindFirst(s1);
    RunThree(EMPTY, 1, es[0], es[1], es[2]);
    TwoInv(es[0], es[1]);
    FirstTaken(s2);
    s := Apply(s2, 1, es[2]);
  }

  lemma TwoInv(a: Event, b: Event)
    ensures Inv(Apply(Apply(EMPTY, 1, a), 1, b), 1)
  {
    EmptyInv(1);
    StepInv(EMPTY, 1, a);
    StepInv(Apply(EMPTY, 1, a), 1, b);
  }

  lemma ThreeCalls(last: RescheduleRequest) returns (s: Db)
    ensures FirstHeld(s)
    ensures Run(EMPTY, 1, FirstThree(last)) == Apply(s, 1, RescheduleJob("a", Some("l"), "w", last))
  {
    s := PrefixState();
    ReachableGood(1, Prefix());
    EmptyInv(1);
    RunTrue(EMPTY, 1, Prefix());
    OneMore(Prefix(), RescheduleJob("a", Some("l"), "w", last));
  }

  lemma OneMore(es: seq<Event>, e: Event)
    ensures Run(EMPTY, 1, es + [e]) == Apply(Run(EMPTY, 1, es), 1, e)
  {
    RunConcat(EMPTY, 1, es, [e]);
    assert [e][1..] == [];
    assert Run(Run(EMPTY, 1, es), 1, [e]) == Run(Apply(Run(EMPTY, 1, es), 1, e), 1, []);
  }

  const PAIR: set<Target> := {JobTarget("a"), JobTarget("b")}

  lemma PairHeads(s: Db, t: Db, req: RescheduleRequest)
    requires FirstHeld(s) && Reschedule(s, 1, "a", Some("l"), "w", req) == Ok(t) && JobTarget("b") in RescheduleHeads(s, "a", req)
    ensures JobTarget("b") in Heads(t, JobTarget("a")) && JobTarget("a") in Heads(t, JobTarget("b"))
  {
    var row := RescheduledState(s, 1, "a", Some("l"), "w", req);
    RowHeads(s, t, "a", row, req);
    HeadsFrame(s, t, "a", row, JobTarget("b"));
    assert JobTarget("a") in LegacyHeads(s, "b");
  }

  /** Rescheduling `a` so that it needs `b` leaves both needing each other. */
  lemma PairStuck(s: Db, t: Db, req: RescheduleRequest)
    requires FirstHeld(s) && Reschedule(s, 1, "a", Some("l"), "w", req) == Ok(t) && JobTarget("b") in RescheduleHeads(s, "a", req)
    ensures Stuck(t, PAIR) && Good(t, 1) && NoLies(t) && t == Apply(s, 1, RescheduleJob("a", Some("l"), "w", req))
  {
    var e := RescheduleJob("a", Some("l"), "w", req);
    assert Apply(s, 1, e) == t;
    StepGood(s, 1, e);
    StepTrue(s, 1, e);
    PairHeads(s, t, req);
    NeedEachOther(t);
  }

  lemma NeedEachOther(t: Db)
    requires JobTarget("b") in Heads(t, JobTarget("a")) && JobTarget("a") in Heads(t, JobTarget("b"))
    ensures Stuck(t, PAIR)
  {
    assert StuckNode(t, PAIR, JobTarget("a")) && StuckNode(t, PAIR, JobTarget("b"));
  }

  /** Neither of the two is cancelled or deleted. */
  predicate Spares(e: Event) {
    !(e.CancelJob? && e.job in {"a", "b"}) && !(e.DeleteJobs? && ("a" in e.order || "b" in e.order))
  }

  /** Nothing else can break the pair: their waits concern only each other. */
  lemma PairUnbroken(s: Db, e: Event)
    requires Spares(e) && RisksOf(s, "a") <= PAIR && RisksOf(s, "b") <= PAIR
    ensures !Breaks(e, PAIR, Risks(s, PAIR), Rescuers(s, PAIR))
  {
    assert Rescuers(s, PAIR) == {};
    assert Risks(s, PAIR) <= PAIR;
  }

  lemma PairForever(s: Db, t: Db, req: RescheduleRequest, more: seq<Event>)
    requires FirstHeld(s) && Reschedule(s, 1, "a", Some("l"), "w", req) == Ok(t) && JobTarget("b") in RescheduleHeads(s, "a", req)
    requires req.wait.Some? ==> req.wait.value.dependencies == [Dependency(JobTarget("b"), OnSuccess)]
    requires forall e :: e in more ==> Spares(e)
    ensures t == Apply(s, 1, RescheduleJob("a", Some("l"), "w", req)) && BothWait(Run(t, 1, more))
  {
    PairStuck(s, t, req);
    PairRisks(s, t, req);
    PairLasts(t, more);
  }

  /** Neither job is offered to any worker. */
  ghost predicate BothWait(s: Db) {
    "a" in s.jobs && "b" in s.jobs && StatusAt(s, 1, "a", s.now) != Ready && StatusAt(s, 1, "b", s.now) != Ready
  }

  lemma PairLasts(t: Db, more: seq<Event>)
    requires Good(t, 1) && NoLies(t) && Stuck(t, PAIR) && RisksOf(t, "a") <= PAIR && RisksOf(t, "b") <= PAIR
    requires forall e :: e in more ==> Spares(e)
    ensures BothWait(Run(t, 1, more))
  {
    forall x | x in more ensures !Breaks(x, PAIR, Risks(t, PAIR), Rescuers(t, PAIR)) { PairUnbroken(t, x); }
    StuckForever(t, 1, more, PAIR, "a");
    StuckForever(t, 1, more, PAIR, "b");
  }

  lemma PairRisks(s: Db, t: Db, req: RescheduleRequest)
    requires FirstHeld(s) && Reschedule(s, 1, "a", Some("l"), "w", req) == Ok(t)
    requires req.wait.Some? ==> req.wait.value.dependencies == [Dependency(JobTarget("b"), OnSuccess)]
    ensures RisksOf(t, "a") <= PAIR && RisksOf(t, "b") <= PAIR
  {
    var row := RescheduledState(s, 1, "a", Some("l"), "w", req);
    if req.wait.Some? {
      var k, w := WaitKey("a", req.wait.value.id), NewWait(req.wait.value);
      EvaluateKeeps(s.goals, s.archive, s.now, w);
      forall b | b in t.waits[k].bindings ensures b.dependency.target == JobTarget("b") {
        var i :| 0 <= i < |t.waits[k].bindings| && t.waits[k].bindings[i] == b;
        assert w.bindings[i].dependency == b.dependency;
      }
    }
  }

  const BARE := RescheduleRequest("t", JobKind, None, ["b"], None, false, None, None, None)

  /** Four calls after which two jobs list each other in wait_for, until one is cancelled or
      deleted. */
  lemma MutualRun(more: seq<Event>)
    requires forall e :: e in more ==> Spares(e)
    ensures BothWait(Run(Run(EMPTY, 1, FirstThree(BARE)), 1, more))
  {
    var s := ThreeCalls(BARE);
    BareAccepted(s);
    assert JobTarget("b") in ListedHeads(s, BARE.waitFor);
    PairForever(s, Reschedule(s, 1, "a", Some("l"), "w", BARE).value, BARE, more);
  }

  lemma BareAccepted(s: Db)
    requires FirstHeld(s)
    ensures Reschedule(s, 1, "a", Some("l"), "w", BARE).Ok?
  {
    assert ValidReschedule("a", BARE);
    var c := CancelWaits(s.(clients := s.clients["a" := s.clients["a"]]), "a", None);
    assert c.jobs == s.jobs;
    NormalizeOne(c, "b");
  }

  const ON_B := WaitRequest("w1", [Dependency(JobTarget("b"), OnSuccess)], None)
  const MIXED := RescheduleRequest("t", JobKind, None, [], None, false, None, None, Some(ON_B))

  /** Four calls after which one job waits for the other by a dependency wait and is listed in
      the other's wait_for: each kind of wait alone is free of circles, the pair is not. */
  lemma MixedRun(more: seq<Event>)
    requires forall e :: e in more ==> Spares(e)
    ensures var t := Run(EMPTY, 1, FirstThree(MIXED));
            && Graph.Acyclic(Edges(t)) && Blocked(t, "a") && Blocked(t, "b")
            && Graph.ReachesCycle(HoldGraph(t), JobTarget("a"))
    ensures BothWait(Run(Run(EMPTY, 1, FirstThree(MIXED)), 1, more))
  {
    var s := ThreeCalls(MIXED);
    MixedAccepted(s);
    var t := Reschedule(s, 1, "a", Some("l"), "w", MIXED).value;
    PairForever(s, t, MIXED, more);
    PairStuck(s, t, MIXED);
    PairHeads(s, t, MIXED);
    PairCircle(t);
  }

  lemma PendingOnB(s: Db)
    requires FirstHeld(s)
    ensures "b" in s.jobs && "b" !in s.archive
    ensures PendingTargets(Evaluate(s.goals, s.archive, s.now, NewWait(ON_B))) == {JobTarget("b")}
  {
    assert JobOk(s, 1, "b");
    var w := NewWait(ON_B);
    var b := Binding(ON_B.dependencies[0], Pending, None, None);
    assert w.bindings == [b] && Bind(s.goals, s.archive, b) == b;
    assert BindAll(s.goals, s.archive, w.bindings) == w.bindings;
    assert b in w.bindings;
  }

  /** The cycle check sees no way from `b` back to `a`. */
  lemma MixedRegistered(s: Db)
    requires FirstHeld(s)
    ensures RegisterWait(s, "a", ON_B, false).Ok?
  {
    PendingOnB(s);
    assert JobOk(s, 1, "a") && JobOk(s, 1, "b");
    assert WellFormedWait(s, "a", ON_B, false);
    forall p: seq<Target> | Graph.IsPath(Edges(s), p) && p[0] == JobTarget("b") ensures p[|p| - 1] != JobTarget("a") {
      if |p| > 1 { NoDependencyEdge(s, (p[0], p[1])); }
    }
    RegistrationIff(s, "a", ON_B, false);
  }

  lemma NothingToCancel(s: Db)
    requires FirstHeld(s)
    ensures CancelWaits(s.(clients := s.clients["a" := s.clients["a"]]), "a", Some("w1")) == s
  {
    assert s.clients["a" := s.clients["a"]] == s.clients;
    assert CancelledWaits(s, "a", Some("w1")) == map[];
    TriggerOrder.SaveNone(s);
  }

  lemma MixedAccepted(s: Db)
    requires FirstHeld(s)
    ensures Reschedule(s, 1, "a", Some("l"), "w", MIXED).Ok? && JobTarget("b") in RescheduleHeads(s, "a", MIXED)
  {
    PendingOnB(s);
    MixedRegistered(s);
    NothingToCancel(s);
    assert ValidReschedule("a", MIXED);
    assert NormalizeWaitFor(RegisterWait(s, "a", ON_B, false).value, MIXED.waitFor) == Ok([]);
  }

  lemma NoDependencyEdge(s: Db, e: (Target, Target))
    requires FirstHeld(s) && e in Edges(s)
    ensures e.0 != JobTarget("b")
  {
    assert s.targets == Subscriptions(s.waits) == {};
  }

  lemma PairCircle(t: Db)
    requires Good(t, 1) && JobTarget("b") in Heads(t, JobTarget("a")) && JobTarget("a") in Heads(t, JobTarget("b"))
    ensures Blocked(t, "a") && Blocked(t, "b") && Graph.ReachesCycle(HoldGraph(t), JobTarget("a"))
  {
    var a, b := JobTarget("a"), JobTarget("b");
    NeedsHold(t, 1);
    NeedsIff(t, a, b);
    NeedsIff(t, b, a);
    var p := [a, b, a];
    assert Graph.IsPath(HoldGraph(t), p) && Graph.IsCycle(HoldGraph(t), p);
    assert Graph.IsPath(HoldGraph(t), [a]);
    assert Graph.Reaches(HoldGraph(t), a, a);
    HoldsIff(t, a, b);
    HoldsIff(t, b, a);
  }
}
