/** Exactly which calls close a cycle of needs, one call at a time and over whole runs. */
module Closings {
  import opened Basics
  import opened RunPolicies
  import opened Tables
  import opened Waits
  import opened Steps
  import opened Invariants
  import opened GoalPreservation
  import opened Runs
  import opened Rows
  import opened Transitions
  import opened Progress
  import opened Holding
  import Graph

  // ---- What a caller can compute before the call -----------------------------------------------

  /** Prerequisites without a deadline that are still active. */
  function ListedHeads(s: Db, waitFor: seq<JobId>): set<Target> {
    set y | y in waitFor && y in s.jobs :: JobTarget(y)
  }

  /** What a deadline-less wait would still be pending on once evaluated. */
  function WaitedHeads(s: Db, id: JobId, wait: Option<WaitRequest>): set<Target> {
    if wait.None? || wait.value.deadline.Some? then {}
    else
      var k := WaitKey(id, wait.value.id);
      PendingTargets(Evaluate(s.goals, s.archive, s.now, if k in s.waits then s.waits[k] else NewWait(wait.value)))
  }

  function RescheduleHeads(s: Db, id: JobId, req: RescheduleRequest): set<Target> {
    (if req.waitUntilIsDeadline then {} else ListedHeads(s, req.waitFor)) + WaitedHeads(s, id, req.wait)
  }

  function SubmitHeads(s: Db, id: JobId, req: SubmitRequest): set<Target> {
    var inserted := Inserted(s, id, req, SubmittedGoal(req), []);
    ListedHeads(s, req.waitFor)
    + WaitedHeads(inserted, id, if req.dependencies == [] then None else Some(WaitRequest(SUBMISSION, req.dependencies, None)))
  }

  ghost predicate AnyReaches(s: Db, heads: set<Target>, n: Target) {
    exists h :: h in heads && Graph.Reaches(Needs(s), h, n)
  }

  /** The call is accepted and gives a node a need that already needs that node. */
  ghost predicate Closes(s: Db, threshold: nat, e: Event) {
    && Attempt(s, threshold, e).Ok?
    && match e
       case RescheduleJob(id, _, _, req) => AnyReaches(s, RescheduleHeads(s, id, req), JobTarget(id))
       case SubmitJob(id, req) => id !in s.facts && AnyReaches(s, SubmitHeads(s, id, req), GoalTarget(SubmittedGoal(req)))
       case AttachCandidate(g, j) => NewCandidate(s, g, j) && j !in s.archive && AnyReaches(s, {JobTarget(j)}, GoalTarget(g))
       case _ => false
  }

  // ---- Graphs ----------------------------------------------------------------------------------

  lemma NeedsSubset(s: Db, t: Db)
    requires forall n :: Heads(t, n) <= Heads(s, n)
    ensures Needs(t) <= Needs(s)
  {
    forall e | e in Needs(t) ensures e in Needs(s) {
      NeedsIff(t, e.0, e.1);
      NeedsIff(s, e.0, e.1);
    }
  }

  /** One node's needs replaced nothing and grew by `heads`. */
  lemma NeedsGrow(s: Db, t: Db, node: Target, heads: set<Target>)
    requires Heads(t, node) == Heads(s, node) + heads
    requires forall n :: n != node ==> Heads(t, n) == Heads(s, n)
    ensures Needs(t) == Graph.Grow(Needs(s), node, heads)
  {
    forall e ensures e in Needs(t) <==> e in Graph.Grow(Needs(s), node, heads) {
      NeedsIff(t, e.0, e.1);
      NeedsIff(s, e.0, e.1);
    }
  }

  lemma GrownCyclicIff<N(!new)>(old_: set<(N, N)>, node: N, heads: set<N>)
    requires Graph.Acyclic(old_)
    ensures !Graph.Acyclic(Graph.Grow(old_, node, heads)) <==> exists h :: h in heads && Graph.Reaches(old_, h, node)
  {
    var new_ := Graph.Grow(old_, node, heads);
    Graph.NewEdgesCloseCycleIff(old_, node, heads);
    if !Graph.ReachesCycle(new_, node) { Graph.GuardedGrowthAcyclic(old_, new_, {node}); }
  }

  /** A path that starts elsewhere never enters a node nothing points at. */
  lemma {:induction false} AvoidsSource<N(!new)>(edges: set<(N, N)>, source: N, p: seq<N>)
    requires Graph.IsPath(edges, p) && p[0] != source && forall e :: e in edges ==> e.1 != source
    ensures source !in p
  {
    forall i | 0 <= i < |p| ensures p[i] != source {
      if i > 0 { assert (p[i - 1], p[i]) in edges; }
    }
  }

  /** A new node with needs of its own, put under one existing node: the two growths together
      close a cycle exactly when one of its needs already reaches that node. */
  lemma NewNodeCyclicIff<N(!new)>(old_: set<(N, N)>, fresh_: N, heads: set<N>, parent: N)
    requires Graph.Acyclic(old_) && fresh_ !in heads && parent != fresh_
    requires forall e :: e in old_ ==> e.0 != fresh_ && e.1 != fresh_
    ensures !Graph.Acyclic(Graph.Grow(Graph.Grow(old_, fresh_, heads), parent, {fresh_}))
            <==> exists h :: h in heads && Graph.Reaches(old_, h, parent)
  {
    var mid := Graph.Grow(old_, fresh_, heads);
    FreshStaysAcyclic(old_, fresh_, heads);
    GrownCyclicIff(mid, parent, {fresh_});
    if Graph.Reaches(mid, fresh_, parent) { FromFresh(old_, fresh_, heads, parent); }
    if h :| h in heads && Graph.Reaches(old_, h, parent) {
      var p :| Graph.IsPath(old_, p) && p[0] == h && p[|p| - 1] == parent;
      var q := [fresh_] + p;
      assert Graph.IsPath(mid, q) && q[0] == fresh_ && q[|q| - 1] == parent;
      assert Graph.Reaches(mid, fresh_, parent);
    }
    assert (exists h :: h in {fresh_} && Graph.Reaches(mid, h, parent)) <==> Graph.Reaches(mid, fresh_, parent);
  }

  lemma FreshStaysAcyclic<N(!new)>(old_: set<(N, N)>, fresh_: N, heads: set<N>)
    requires Graph.Acyclic(old_) && fresh_ !in heads && forall e :: e in old_ ==> e.0 != fresh_ && e.1 != fresh_
    ensures Graph.Acyclic(Graph.Grow(old_, fresh_, heads))
  {
    GrownCyclicIff(old_, fresh_, heads);
    forall h | h in heads ensures !Graph.Reaches(old_, h, fresh_) {
      forall p | Graph.IsPath(old_, p) && p[0] == h ensures p[|p| - 1] != fresh_ { AvoidsSource(old_, fresh_, p); }
    }
  }

  lemma FromFresh<N(!new)>(old_: set<(N, N)>, fresh_: N, heads: set<N>, parent: N)
    requires parent != fresh_ && fresh_ !in heads && Graph.Reaches(Graph.Grow(old_, fresh_, heads), fresh_, parent)
    requires forall e :: e in old_ ==> e.0 != fresh_ && e.1 != fresh_
    ensures exists h :: h in heads && Graph.Reaches(old_, h, parent)
  {
    var mid := Graph.Grow(old_, fresh_, heads);
    var p :| Graph.IsPath(mid, p) && p[0] == fresh_ && p[|p| - 1] == parent;
    assert |p| > 1 && (p[0], p[1]) in mid;
    var h, rest := p[1], p[1..];
    assert h in heads;
    Graph.SubPath(mid, p, 1, |p|);
    AvoidsSource(mid, fresh_, rest);
    forall i | 0 <= i < |rest| - 1 ensures (rest[i], rest[i + 1]) in old_ {
      assert (rest[i], rest[i + 1]) in mid && rest[i] in rest;
    }
    assert Graph.IsPath(old_, rest);
    assert Graph.Reaches(old_, h, parent);
  }

  // ---- Reschedules -------------------------------------------------------------------------------

  /** A job that can be rescheduled needs nothing: it is leased, or unheld and unblocked. */
  lemma ReschedulableIsFree(s: Db, threshold: nat, id: JobId, lease: Option<LeaseId>, worker: string, req: RescheduleRequest)
    requires Good(s, threshold) && Reschedule(s, threshold, id, lease, worker, req).Ok?
    ensures id in s.jobs && Heads(s, JobTarget(id)) == {}
  {
    if Heads(s, JobTarget(id)) != {} {
      NeedyIsUnleased(s, threshold, id);
      NeedyStatus(s, threshold, id);
    }
  }

  /** Waits of other consumers are left alone. */
  ghost predicate OthersAlike(s: Db, t: Db, id: JobId) {
    forall k: WaitKey :: k.job != id ==> (k in t.waits <==> k in s.waits) && (k in s.waits && k in t.waits ==> t.waits[k] == s.waits[k])
  }

  lemma CancelledAlike(s: Db, id: JobId, keep: Option<WaitId>)
    ensures OthersAlike(s, CancelWaits(s, id, keep), id)
    ensures forall k :: k in s.waits && Some(k.wait) == keep ==> k in CancelWaits(s, id, keep).waits && CancelWaits(s, id, keep).waits[k] == s.waits[k]
    ensures forall k :: k in CancelWaits(s, id, keep).waits <==> k in s.waits
  {
  }

  lemma RegisteredWait(s: Db, id: JobId, req: WaitRequest, submission: bool)
    requires RegisterWait(s, id, req, submission).Ok?
    ensures var t, k := RegisterWait(s, id, req, submission).value, WaitKey(id, req.id);
            && t == s.(waits := t.waits, targets := t.targets) && OthersAlike(s, t, id) && k in t.waits
            && t.waits[k] == Evaluate(s.goals, s.archive, s.now, if k in s.waits then s.waits[k] else NewWait(req))
            && t.waits[k].deadline == req.deadline
  {
    RegisterSaves(s, id, req, submission);
    var k := WaitKey(id, req.id);
    EvaluateKeeps(s.goals, s.archive, s.now, if k in s.waits then s.waits[k] else NewWait(req));
  }

  lemma RescheduledState(s: Db, threshold: nat, id: JobId, lease: Option<LeaseId>, worker: string, req: RescheduleRequest)
    returns (row: Job)
    requires Reschedule(s, threshold, id, lease, worker, req).Ok?
    ensures var t := Reschedule(s, threshold, id, lease, worker, req).value;
            && id in s.jobs && t == s.(clients := t.clients, waits := t.waits, targets := t.targets, jobs := s.jobs[id := row])
            && OthersAlike(s, t, id)
            && (forall x :: x in row.waitFor <==> x in req.waitFor && x in s.jobs)
            && (row.waitUntilIsDeadline <==> req.waitUntilIsDeadline && row.waitFor != [])
            && row.dependencyWait == (if req.wait.Some? then Some(req.wait.value.id) else None)
            && (req.wait.Some? ==>
                  var k := WaitKey(id, req.wait.value.id);
                  && k in t.waits && t.waits[k].deadline == req.wait.value.deadline
                  && t.waits[k] == Evaluate(s.goals, s.archive, s.now, if k in s.waits then s.waits[k] else NewWait(req.wait.value)))
  {
    var c := UpdateClient(s.clients[id], req.update).value;
    var keep := if req.wait.Some? then Some(req.wait.value.id) else None;
    var u := s.(clients := s.clients[id := c]);
    var r := CancelWaits(u, id, keep);
    CancelledAlike(u, id, keep);
    if req.wait.Some? {
      RegisteredWait(r, id, req.wait.value, false);
      r := RegisterWait(r, id, req.wait.value, false).value;
    }
    row := Rescheduled(s.jobs[id], req, NormalizeWaitFor(r, req.waitFor).value, s.now);
  }

  /** Heads depend only on rows, the named waits, goals, members and the archive. */
  lemma HeadsFrame(s: Db, t: Db, id: JobId, row: Job, n: Target)
    requires id in s.jobs && t == s.(clients := t.clients, waits := t.waits, targets := t.targets, jobs := s.jobs[id := row])
    requires OthersAlike(s, t, id) && n != JobTarget(id)
    ensures Heads(t, n) == Heads(s, n)
  {
    match n {
      case JobTarget(x) => assert CurrentWait(t, x) == CurrentWait(s, x);
      case GoalTarget(g) => assert Members(t, g) == Members(s, g);
    }
  }

  lemma RescheduleNeeds(s: Db, threshold: nat, id: JobId, lease: Option<LeaseId>, worker: string, req: RescheduleRequest)
    requires Good(s, threshold) && Reschedule(s, threshold, id, lease, worker, req).Ok?
    ensures Needs(Reschedule(s, threshold, id, lease, worker, req).value)
            == Graph.Grow(Needs(s), JobTarget(id), RescheduleHeads(s, id, req))
  {
    var t := Reschedule(s, threshold, id, lease, worker, req).value;
    ReschedulableIsFree(s, threshold, id, lease, worker, req);
    var row := RescheduledState(s, threshold, id, lease, worker, req);
    forall n | n != JobTarget(id) ensures Heads(t, n) == Heads(s, n) { HeadsFrame(s, t, id, row, n); }
    RowHeads(s, t, id, row, req);
    NeedsGrow(s, t, JobTarget(id), RescheduleHeads(s, id, req));
  }

  lemma RowHeads(s: Db, t: Db, id: JobId, row: Job, req: RescheduleRequest)
    requires id in s.jobs && t.jobs == s.jobs[id := row]
    requires forall x :: x in row.waitFor <==> x in req.waitFor && x in s.jobs
    requires row.waitUntilIsDeadline <==> req.waitUntilIsDeadline && row.waitFor != []
    requires row.dependencyWait == if req.wait.Some? then Some(req.wait.value.id) else None
    requires req.wait.Some? ==>
               var k := WaitKey(id, req.wait.value.id);
               && k in t.waits && t.waits[k].deadline == req.wait.value.deadline
               && t.waits[k] == Evaluate(s.goals, s.archive, s.now, if k in s.waits then s.waits[k] else NewWait(req.wait.value))
    ensures Heads(t, JobTarget(id)) == RescheduleHeads(s, id, req)
  {
    assert WaitHeads(t, id) == WaitedHeads(s, id, req.wait);
    assert LegacyHeads(t, id) == if req.waitUntilIsDeadline then {} else ListedHeads(s, req.waitFor);
  }

  /** A reschedule, by wait_for or by a dependency wait, closes a cycle exactly when one of
      the things it will need already needs the job. */
  lemma RescheduleClosesIff(s: Db, threshold: nat, id: JobId, lease: Option<LeaseId>, worker: string, req: RescheduleRequest)
    requires Good(s, threshold) && Reschedule(s, threshold, id, lease, worker, req).Ok? && Graph.Acyclic(Needs(s))
    ensures !Graph.Acyclic(Needs(Reschedule(s, threshold, id, lease, worker, req).value))
            <==> AnyReaches(s, RescheduleHeads(s, id, req), JobTarget(id))
  {
    RescheduleNeeds(s, threshold, id, lease, worker, req);
    GrownCyclicIff(Needs(s), JobTarget(id), RescheduleHeads(s, id, req));
  }

  // ---- Submissions -------------------------------------------------------------------------------

  lemma SubmittedState(s: Db, threshold: nat, id: JobId, req: SubmitRequest) returns (waitFor: seq<JobId>)
    requires Good(s, threshold) && Submit(s, id, req).Ok? && id !in s.facts
    ensures var t, goal := Submit(s, id, req).value, SubmittedGoal(req);
            && t == Inserted(s, id, req, goal, waitFor).(waits := t.waits, targets := t.targets) && OthersAlike(s, t, id)
            && (forall x :: x in waitFor <==> x in req.waitFor && x in s.jobs)
            && (if req.shareGoal then goal in s.goals && s.goals[goal].state == Open else goal !in s.goals)
            && (req.dependencies != [] ==>
                  var k := WaitKey(id, SUBMISSION);
                  && k in t.waits && t.waits[k].deadline.None?
                  && t.waits[k] == Evaluate(t.goals, t.archive, t.now, NewWait(WaitRequest(SUBMISSION, req.dependencies, None)))
                  && forall d :: d in req.dependencies ==> d.target != JobTarget(id))
  {
    waitFor := NormalizeWaitFor(s, req.waitFor).value;
    var inserted := Inserted(s, id, req, SubmittedGoal(req), waitFor);
    if req.dependencies != [] {
      var wait := WaitRequest(SUBMISSION, req.dependencies, None);
      NoWaitsYet(s, threshold, id);
      RegisteredWait(inserted, id, wait, true);
      RegisterNotSelf(inserted, id, wait, true);
    }
  }

  lemma NoWaitsYet(s: Db, threshold: nat, id: JobId)
    requires Inv(s, threshold) && id !in s.facts
    ensures forall k :: k in s.waits ==> k.job != id
  {
    forall k | k in s.waits ensures k.job != id { assert WaitOk(s, k); }
  }

  lemma RegisterNotSelf(s: Db, id: JobId, req: WaitRequest, submission: bool)
    requires RegisterWait(s, id, req, submission).Ok? && WaitKey(id, req.id) !in s.waits
    ensures forall d :: d in req.dependencies ==> d.target != JobTarget(id)
  {
  }

  lemma SubmittedRowHeads(s: Db, t: Db, threshold: nat, id: JobId, req: SubmitRequest, waitFor: seq<JobId>)
    requires Good(s, threshold) && id !in s.facts && id !in s.jobs
    requires t == Inserted(s, id, req, SubmittedGoal(req), waitFor).(waits := t.waits, targets := t.targets)
    requires forall x :: x in waitFor <==> x in req.waitFor && x in s.jobs
    requires req.dependencies != [] ==>
               var k := WaitKey(id, SUBMISSION);
               && k in t.waits && t.waits[k].deadline.None?
               && t.waits[k] == Evaluate(t.goals, t.archive, t.now, NewWait(WaitRequest(SUBMISSION, req.dependencies, None)))
               && forall d :: d in req.dependencies ==> d.target != JobTarget(id)
    ensures Heads(t, JobTarget(id)) == SubmitHeads(s, id, req) && JobTarget(id) !in SubmitHeads(s, id, req)
  {
    NoWaitsYet(s, threshold, id);
    assert LegacyHeads(t, id) == ListedHeads(s, req.waitFor);
    if req.dependencies != [] {
      var fresh_ := NewWait(WaitRequest(SUBMISSION, req.dependencies, None));
      EvaluateKeeps(t.goals, t.archive, t.now, fresh_);
      LaterShrinksTargets(fresh_, Evaluate(t.goals, t.archive, t.now, fresh_));
    }
  }

  lemma SubmittedJobHeads(s: Db, t: Db, threshold: nat, id: JobId, req: SubmitRequest, waitFor: seq<JobId>, x: JobId)
    requires Good(s, threshold) && id !in s.facts && id !in s.jobs && x != id
    requires t == Inserted(s, id, req, SubmittedGoal(req), waitFor).(waits := t.waits, targets := t.targets) && OthersAlike(s, t, id)
    ensures Heads(t, JobTarget(x)) == Heads(s, JobTarget(x))
  {
    assert CurrentWait(t, x) == CurrentWait(s, x);
    if x in s.jobs { assert RowWaits(s, x); }
  }

  lemma SubmittedGoalHeads(s: Db, t: Db, threshold: nat, id: JobId, req: SubmitRequest, waitFor: seq<JobId>, g: GoalId)
    requires Inv(s, threshold) && id !in s.facts && id !in s.archive
    requires t == Inserted(s, id, req, SubmittedGoal(req), waitFor).(waits := t.waits, targets := t.targets)
    requires if req.shareGoal then SubmittedGoal(req) in s.goals && s.goals[SubmittedGoal(req)].state == Open
             else SubmittedGoal(req) !in s.goals
    ensures GoalHeads(t, g) == GoalHeads(s, g) + if g == SubmittedGoal(req) then {JobTarget(id)} else {}
  {
    InsertedMembers(s, t, threshold, id, req, waitFor, g);
    assert g in t.goals && t.goals[g].state == Open <==> (g in s.goals && s.goals[g].state == Open) || g == SubmittedGoal(req);
  }

  lemma SubmittedOtherHeads(s: Db, t: Db, threshold: nat, id: JobId, req: SubmitRequest, waitFor: seq<JobId>, n: Target)
    requires Good(s, threshold) && id !in s.facts && id !in s.jobs && id !in s.archive && n != JobTarget(id)
    requires t == Inserted(s, id, req, SubmittedGoal(req), waitFor).(waits := t.waits, targets := t.targets) && OthersAlike(s, t, id)
    requires if req.shareGoal then SubmittedGoal(req) in s.goals && s.goals[SubmittedGoal(req)].state == Open
             else SubmittedGoal(req) !in s.goals
    ensures Heads(t, n) == Heads(s, n) + if n == GoalTarget(SubmittedGoal(req)) then {JobTarget(id)} else {}
  {
    match n {
      case JobTarget(x) => SubmittedJobHeads(s, t, threshold, id, req, waitFor, x);
      case GoalTarget(g) => SubmittedGoalHeads(s, t, threshold, id, req, waitFor, g);
    }
  }

  lemma InsertedMembers(s: Db, t: Db, threshold: nat, id: JobId, req: SubmitRequest, waitFor: seq<JobId>, g: GoalId)
    requires Inv(s, threshold) && id !in s.facts
    requires t == Inserted(s, id, req, SubmittedGoal(req), waitFor).(waits := t.waits, targets := t.targets)
    ensures Members(t, g) == Members(s, g) + (if g == SubmittedGoal(req) then {id} else {})
    ensures g !in s.goals ==> Members(s, g) == {}
  {
    var inserted := Inserted(s, id, req, SubmittedGoal(req), waitFor);
    InsertedMembership(s, id, req, SubmittedGoal(req), waitFor);
    assert Membership(t) == Membership(inserted);
    forall m | m in Members(t, g) ensures m in Members(s, g) || (m == id && g == SubmittedGoal(req)) { assert (g, m) in Membership(t); }
    forall m | m in Members(s, g) ensures m in Members(t, g) && g in s.goals {
      assert (g, m) in Membership(s) && (g, m) in Membership(t);
      MemberGoalExists(s, threshold, (g, m));
    }
    if g == SubmittedGoal(req) { assert (g, id) in Membership(t); }
  }

  lemma NeedsGrowTwice(s: Db, t: Db, fresh_: Target, heads: set<Target>, parent: Target)
    requires parent != fresh_ && Heads(s, fresh_) == {} && Heads(t, fresh_) == heads
    requires forall n :: n != fresh_ ==> Heads(t, n) == Heads(s, n) + if n == parent then {fresh_} else {}
    ensures Needs(t) == Graph.Grow(Graph.Grow(Needs(s), fresh_, heads), parent, {fresh_})
  {
    var both := Graph.Grow(Graph.Grow(Needs(s), fresh_, heads), parent, {fresh_});
    forall e ensures e in Needs(t) <==> e in both {
      NeedsIff(t, e.0, e.1);
      NeedsIff(s, e.0, e.1);
    }
  }

  /** A submission closes a cycle exactly when something the new job needs already needs the
      goal it joins. */
  lemma SubmitClosesIff(s: Db, threshold: nat, id: JobId, req: SubmitRequest)
    requires Good(s, threshold) && Submit(s, id, req).Ok? && id !in s.facts && Graph.Acyclic(Needs(s))
    ensures !Graph.Acyclic(Needs(Submit(s, id, req).value))
            <==> AnyReaches(s, SubmitHeads(s, id, req), GoalTarget(SubmittedGoal(req)))
  {
    var t, n, parent := Submit(s, id, req).value, JobTarget(id), GoalTarget(SubmittedGoal(req));
    NewIdentity(s, threshold, id);
    var waitFor := SubmittedState(s, threshold, id, req);
    SubmittedRowHeads(s, t, threshold, id, req, waitFor);
    forall m | m != n ensures Heads(t, m) == Heads(s, m) + if m == parent then {n} else {} {
      SubmittedOtherHeads(s, t, threshold, id, req, waitFor, m);
    }
    NeedsGrowTwice(s, t, n, SubmitHeads(s, id, req), parent);
    forall e | e in Needs(s) ensures e.0 != n && e.1 != n {
      NeedsIff(s, e.0, e.1);
      HeadIsOpen(s, threshold, e.0, e.1);
    }
    NewNodeCyclicIff(Needs(s), n, SubmitHeads(s, id, req), parent);
  }

  // ---- Candidates --------------------------------------------------------------------------------

  lemma AttachedHeads(s: Db, g: GoalId, j: JobId, n: Target)
    requires NewCandidate(s, g, j)
    ensures var t := s.(candidates := s.candidates + {(g, j)});
            Heads(t, n) == Heads(s, n) + if n == GoalTarget(g) && j !in s.archive then {JobTarget(j)} else {}
  {
    var t := s.(candidates := s.candidates + {(g, j)});
    match n {
      case JobTarget(x) => assert CurrentWait(t, x) == CurrentWait(s, x);
      case GoalTarget(x) =>
        AttachMembership(s, g, j);
        forall m ensures m in Members(t, x) <==> m in Members(s, x) || (x == g && m == j) {
          assert (x, m) in Membership(t) <==> (x, m) in Membership(s) || (x, m) == (g, j);
          assert m in Members(t, x) <==> (x, m) in Membership(t);
          assert m in Members(s, x) <==> (x, m) in Membership(s);
        }
    }
  }

  lemma AttachFinished(s: Db, threshold: nat, g: GoalId, j: JobId)
    requires Good(s, threshold) && AddCandidate(s, g, j).Ok? && NewCandidate(s, g, j) && Graph.Acyclic(Needs(s)) && j in s.archive
    ensures Graph.Acyclic(Needs(AddCandidate(s, g, j).value))
  {
    var e, t := AttachCandidate(g, j), AddCandidate(s, g, j).value;
    assert Attempt(s, threshold, e) == Ok(t);
    StepTransition(s, threshold, e);
    forall n ensures Heads(t, n) <= Heads(s, n) { FinishedShrinks(s, t, threshold, g, j, n); }
    NeedsSubset(s, t);
    Graph.SubgraphAcyclic(Needs(t), Needs(s));
  }

  /** Attaching an unfinished candidate closes a cycle exactly when it already needs the goal;
      a finished one never does. */
  lemma AttachClosesIff(s: Db, threshold: nat, g: GoalId, j: JobId)
    requires Good(s, threshold) && AddCandidate(s, g, j).Ok? && NewCandidate(s, g, j) && Graph.Acyclic(Needs(s))
    ensures !Graph.Acyclic(Needs(AddCandidate(s, g, j).value)) <==>
              j !in s.archive && AnyReaches(s, {JobTarget(j)}, GoalTarget(g))
  {
    if j in s.archive {
      AttachFinished(s, threshold, g, j);
    } else {
      var t := s.(candidates := s.candidates + {(g, j)});
      forall n ensures Heads(t, n) == Heads(s, n) + if n == GoalTarget(g) then {JobTarget(j)} else {} { AttachedHeads(s, g, j, n); }
      NeedsGrow(s, t, GoalTarget(g), {JobTarget(j)});
      GrownCyclicIff(Needs(s), GoalTarget(g), {JobTarget(j)});
    }
  }

  lemma FinishedShrinks(s: Db, t: Db, threshold: nat, g: GoalId, j: JobId, n: Target)
    requires Good(s, threshold) && Transition(s, t, threshold, AttachCandidate(g, j)) && NewCandidate(s, g, j) && j in s.archive
    ensures Heads(t, n) <= Heads(s, n)
  {
    var e := AttachCandidate(g, j);
    if n != GoalTarget(g) {
      HeadsShrink(s, t, threshold, e, n);
    } else {
      assert GoalLater(s, t, g) && CandidateStep(s, t, e);
      forall z | z in s.archive ensures z in t.archive { assert ArchiveLater(s, t, z); }
      forall m | m in Members(t, g) && m !in t.archive ensures m in Members(s, g) {
        assert (g, m) in Membership(t) && RowStep(s, t, threshold, e, m);
        if m in s.facts { assert FactLater(s, t, m); }
        assert (g, m) in Membership(s);
      }
    }
  }

  // ---- Every call, every run -----------------------------------------------------------------------

  lemma QuietStep(s: Db, threshold: nat, e: Event)
    requires Good(s, threshold) && Graph.Acyclic(Needs(s)) && !(e.RescheduleJob? || e.SubmitJob? || e.AttachCandidate?)
    ensures Graph.Acyclic(Needs(Apply(s, threshold, e)))
  {
    var t := Apply(s, threshold, e);
    StepTransition(s, threshold, e);
    forall n ensures Heads(t, n) <= Heads(s, n) { HeadsShrink(s, t, threshold, e, n); }
    NeedsSubset(s, t);
    Graph.SubgraphAcyclic(Needs(t), Needs(s));
  }

  lemma UnchangedUnlessNew(s: Db, threshold: nat, e: Event)
    requires Attempt(s, threshold, e).Ok?
    ensures e.SubmitJob? && e.job in s.facts ==> Apply(s, threshold, e) == s
    ensures e.AttachCandidate? && !NewCandidate(s, e.goal, e.job) ==> Apply(s, threshold, e) == s
  {
  }

  lemma AcceptedClosesIff(s: Db, threshold: nat, e: Event)
    requires Good(s, threshold) && Graph.Acyclic(Needs(s)) && Attempt(s, threshold, e).Ok?
    requires e.RescheduleJob? || (e.SubmitJob? && e.job !in s.facts) || (e.AttachCandidate? && NewCandidate(s, e.goal, e.job))
    ensures !Graph.Acyclic(Needs(Apply(s, threshold, e))) <==> Closes(s, threshold, e)
  {
    match e {
      case RescheduleJob(id, l, w, req) => RescheduleClosesIff(s, threshold, id, l, w, req);
      case SubmitJob(id, req) => SubmitClosesIff(s, threshold, id, req);
      case AttachCandidate(g, j) => AttachClosesIff(s, threshold, g, j);
    }
  }

  /** From a database without cycles a call leads to one with a cycle exactly when it closes
      one: never an expiry, a lease, a claim, a completion, a cancellation or a deletion. */
  lemma StepClosesIff(s: Db, threshold: nat, e: Event)
    requires Good(s, threshold) && Graph.Acyclic(Needs(s))
    ensures !Graph.Acyclic(Needs(Apply(s, threshold, e))) <==> Closes(s, threshold, e)
  {
    if Attempt(s, threshold, e).Ok? {
      UnchangedUnlessNew(s, threshold, e);
      if e.RescheduleJob? || (e.SubmitJob? && e.job !in s.facts) || (e.AttachCandidate? && NewCandidate(s, e.goal, e.job)) {
        AcceptedClosesIff(s, threshold, e);
      } else if !e.SubmitJob? && !e.AttachCandidate? {
        QuietStep(s, threshold, e);
      }
    }
  }

  /** No database of the run has a cycle of needs. */
  ghost predicate AlwaysAcyclic(s: Db, threshold: nat, es: seq<Event>)
    decreases |es|
  {
    Graph.Acyclic(Needs(s)) && (es != [] ==> AlwaysAcyclic(Apply(s, threshold, es[0]), threshold, es[1..]))
  }

  /** No call of the run closes one. */
  ghost predicate NeverCloses(s: Db, threshold: nat, es: seq<Event>)
    decreases |es|
  {
    es != [] ==> !Closes(s, threshold, es[0]) && NeverCloses(Apply(s, threshold, es[0]), threshold, es[1..])
  }

  lemma {:induction false} RunClosesIff(s: Db, threshold: nat, es: seq<Event>)
    requires Good(s, threshold) && Graph.Acyclic(Needs(s))
    ensures AlwaysAcyclic(s, threshold, es) <==> NeverCloses(s, threshold, es)
    decreases |es|
  {
    if es != [] {
      var t := Apply(s, threshold, es[0]);
      StepClosesIff(s, threshold, es[0]);
      StepGood(s, threshold, es[0]);
      if Graph.Acyclic(Needs(t)) { RunClosesIff(t, threshold, es[1..]); }
    }
  }

  /** A run from an empty database stays free of cycles exactly when none of its calls met the
      condition its caller could have checked. */
  lemma ReachableClosesIff(threshold: nat, es: seq<Event>)
    ensures AlwaysAcyclic(EMPTY, threshold, es) <==> NeverCloses(EMPTY, threshold, es)
  {
    ReachableGood(threshold, []);
    assert Needs(EMPTY) == {};
    Graph.EmptyAcyclic<Target>();
    RunClosesIff(EMPTY, threshold, es);
  }
}
