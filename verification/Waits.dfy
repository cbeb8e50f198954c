/** Evaluating and storing dependency waits: _evaluate_wait, _close_wait, _save_wait. */
module Waits {
  import opened Basics
  import opened Tables

  type Goals = map<GoalId, Goal>
  type Archive = map<JobId, Archived>

  predicate Expired(deadline: Option<Time>, now: Time) {
    deadline.Some? && deadline.value <= now
  }

  /** The target has an outcome: a closed goal, an archived job. */
  predicate Resolved(goals: Goals, archive: Archive, t: Target) {
    match t
    case JobTarget(j) => j in archive
    case GoalTarget(g) => g in goals && goals[g].state != Open
  }

  function Close(w: Wait, state: OutcomeState): Wait {
    w.(state := state, bindings := seq(|w.bindings|, i requires 0 <= i < |w.bindings| =>
      if w.bindings[i].state == Pending then w.bindings[i].(state := WasCancelled) else w.bindings[i]))
  }

  /** One pass of the evaluation loop over a single pending binding. */
  function Bind(goals: Goals, archive: Archive, b: Binding): Binding {
    if b.state != Pending then b
    else
      match b.dependency.target
      case GoalTarget(g) =>
        if g !in goals || goals[g].state == Open then b
        else if goals[g].state == Succeeded then b.(state := Satisfied, satisfiedBy := goals[g].winner)
        else b.(state := DidFail, failure := goals[g].failure)
      case JobTarget(j) =>
        if j !in archive then b
        else if archive[j].status == Success || b.dependency.condition == OnComplete
        then b.(state := Satisfied, satisfiedBy := Some(j))
        else b.(state := DidFail, failure := Some(JobFailure(j)))
  }

  function BindAll(goals: Goals, archive: Archive, bs: seq<Binding>): (r: seq<Binding>)
    ensures |r| == |bs|
    ensures forall i :: 0 <= i < |bs| ==> r[i] == Bind(goals, archive, bs[i])
  {
    seq(|bs|, i requires 0 <= i < |bs| => Bind(goals, archive, bs[i]))
  }

  /** This evaluation newly fails binding i. */
  predicate FailsAt(goals: Goals, archive: Archive, bs: seq<Binding>, i: nat)
    requires i < |bs|
  {
    bs[i].state == Pending && Bind(goals, archive, bs[i]).state == DidFail
  }

  function FirstFailure(goals: Goals, archive: Archive, bs: seq<Binding>, from: nat): (r: Option<nat>)
    requires from <= |bs|
    ensures r.Some? ==> from <= r.value < |bs| && FailsAt(goals, archive, bs, r.value)
    ensures r.Some? ==> forall i :: from <= i < r.value ==> !FailsAt(goals, archive, bs, i)
    ensures r.None? ==> forall i :: from <= i < |bs| ==> !FailsAt(goals, archive, bs, i)
    decreases |bs| - from
  {
    if from == |bs| then None
    else if FailsAt(goals, archive, bs, from) then Some(from)
    else FirstFailure(goals, archive, bs, from + 1)
  }

  /** What a wait's outcome is at `now`: deadline first, then the lowest failing
      declaration index, then satisfaction of everything. */
  function Evaluate(goals: Goals, archive: Archive, now: Time, w: Wait): Wait {
    if w.state != Pending then w
    else if Expired(w.deadline, now) then Close(w, TimedOut)
    else
      var bound := BindAll(goals, archive, w.bindings);
      match FirstFailure(goals, archive, w.bindings, 0)
      case Some(i) =>
        Close(w.(bindings := bound[..i + 1] + w.bindings[i + 1..], failedIndex := Some(i)), DidFail)
      case None => Conclude(w, bound)
  }

  /** Nothing failed: the wait is satisfied unless some binding is still pending. */
  function Conclude(w: Wait, bound: seq<Binding>): Wait {
    w.(bindings := bound,
       state := if exists b :: b in bound && b.state == Pending then Pending else Satisfied)
  }

  /** The loop of _evaluate_wait, statement by statement. */
  method EvaluateWait(goals: Goals, archive: Archive, now: Time, w: Wait) returns (r: Wait)
    ensures r == Evaluate(goals, archive, now, w)
  {
    if w.state != Pending { return w; }
    if w.deadline.Some? && w.deadline.value <= now {
      return Close(w, TimedOut);
    }
    var ds := w.bindings;
    var pending := false;
    var i := 0;
    while i < |ds|
      invariant 0 <= i <= |ds| == |w.bindings|
      invariant forall k :: 0 <= k < i ==> ds[k] == Bind(goals, archive, w.bindings[k])
      invariant forall k :: i <= k < |ds| ==> ds[k] == w.bindings[k]
      invariant forall k :: 0 <= k < i ==> !FailsAt(goals, archive, w.bindings, k)
      invariant pending <==> exists k :: 0 <= k < i && ds[k].state == Pending
    {
      if ds[i].state == Pending {
        var d := Bind(goals, archive, ds[i]);
        ds := ds[i := d];
        if d.state == DidFail {
          FailureFound(goals, archive, now, w, i, ds);
          return Close(w.(bindings := ds, failedIndex := Some(i)), DidFail);
        }
        pending := pending || d.state == Pending;
      }
      i := i + 1;
    }
    assert ds == BindAll(goals, archive, w.bindings);
    assert FirstFailure(goals, archive, w.bindings, 0) == None;
    r := w.(bindings := ds, state := if pending then Pending else Satisfied);
  }

  lemma FailureFound(goals: Goals, archive: Archive, now: Time, w: Wait, i: nat, ds: seq<Binding>)
    requires w.state == Pending && !Expired(w.deadline, now)
    requires i < |w.bindings| == |ds| && FailsAt(goals, archive, w.bindings, i)
    requires forall k :: 0 <= k < i ==> !FailsAt(goals, archive, w.bindings, k)
    requires forall k :: 0 <= k <= i ==> ds[k] == Bind(goals, archive, w.bindings[k])
    requires forall k :: i < k < |ds| ==> ds[k] == w.bindings[k]
    ensures Evaluate(goals, archive, now, w) == Close(w.(bindings := ds, failedIndex := Some(i)), DidFail)
  {
    assert FirstFailure(goals, archive, w.bindings, 0) == Some(i);
    assert ds == BindAll(goals, archive, w.bindings)[..i + 1] + w.bindings[i + 1..];
  }

  /** The pending subscriptions a stored wait stands for. */
  function PendingTargets(w: Wait): set<Target> {
    if w.state != Pending then {}
    else set b | b in w.bindings && b.state == Pending :: b.dependency.target
  }

  function Subscriptions(ws: map<WaitKey, Wait>): set<(WaitKey, Target)> {
    set k, t | k in ws && t in PendingTargets(ws[k]) :: (k, t)
  }

  /** _save_wait for every wait in `ws`: store the outcome, drop that wait's
      subscription rows, insert one row per binding still pending. */
  function SaveWaits(s: Db, ws: map<WaitKey, Wait>): Db {
    s.(waits := s.waits + ws,
       targets := (set p | p in s.targets && p.0 !in ws) + Subscriptions(ws))
  }

  /** _settle_target over a set of targets: re-evaluate every subscribed wait. */
  function Touched(s: Db, changed: set<Target>): map<WaitKey, Wait> {
    map k | k in s.waits && (exists t :: t in changed && (k, t) in s.targets)
      :: Evaluate(s.goals, s.archive, s.now, s.waits[k])
  }

  function Settle(s: Db, changed: set<Target>): Db {
    SaveWaits(s, Touched(s, changed))
  }

  /** _cancel_waits: close the consumer's pending waits, except the one kept. */
  function CancelWaits(s: Db, job: JobId, keep: Option<WaitId>): Db {
    SaveWaits(s, CancelledWaits(s, job, keep))
  }

  function CancelledWaits(s: Db, job: JobId, keep: Option<WaitId>): map<WaitKey, Wait> {
    map k | k in s.waits && k.job == job && s.waits[k].state == Pending && Some(k.wait) != keep
      :: Close(s.waits[k], WasCancelled)
  }

  /** _expire_goal_waits: settle every wait whose deadline has come. */
  function ExpireWaits(s: Db): Db {
    SaveWaits(s, DueWaits(s))
  }

  function DueWaits(s: Db): map<WaitKey, Wait> {
    map k | k in s.waits && s.waits[k].state == Pending && Expired(s.waits[k].deadline, s.now)
      :: Evaluate(s.goals, s.archive, s.now, s.waits[k])
  }

  /** GetDependencyWait: the outcome a reader sees, without a write. */
  function Project(s: Db, k: WaitKey): Wait
    requires k in s.waits
  {
    Evaluate(s.goals, s.archive, s.now, s.waits[k])
  }

  // ---- What an evaluation keeps -------------------------------------------------

  /** Declared entries and decided bindings never change; a closed wait is frozen. */
  ghost predicate WaitLater(a: Wait, b: Wait) {
    && a.descriptor == b.descriptor && a.deadline == b.deadline
    && |a.bindings| == |b.bindings|
    && (a.state != Pending ==> b == a)
    && forall i :: 0 <= i < |a.bindings| ==>
      && a.bindings[i].dependency == b.bindings[i].dependency
      && (a.bindings[i].state != Pending ==> b.bindings[i] == a.bindings[i])
  }

  /** The states a wait and its bindings can be in together. */
  ghost predicate WaitShape(w: Wait) {
    && |w.bindings| == |w.descriptor|
    && (forall i :: 0 <= i < |w.bindings| ==> w.bindings[i].dependency == w.descriptor[i])
    && (w.state == Pending ==>
          && w.failedIndex.None?
          && (exists i :: 0 <= i < |w.bindings| && w.bindings[i].state == Pending)
          && forall i :: 0 <= i < |w.bindings| ==> w.bindings[i].state == Pending || w.bindings[i].state == Satisfied)
    && (w.state == Satisfied ==> forall i :: 0 <= i < |w.bindings| ==> w.bindings[i].state == Satisfied)
    && (w.state == DidFail ==>
          && w.failedIndex.Some? && w.failedIndex.value < |w.bindings|
          && w.bindings[w.failedIndex.value].state == DidFail)
    && (w.state != Pending ==> forall i :: 0 <= i < |w.bindings| ==> w.bindings[i].state != Pending)
  }

  /** A wait that starts with every entry pending, before its first evaluation. */
  ghost predicate Fresh(w: Wait) {
    && |w.bindings| == |w.descriptor| && |w.bindings| > 0
    && w.state == Pending && w.failedIndex.None?
    && forall i :: 0 <= i < |w.bindings| ==>
      w.bindings[i] == Binding(w.descriptor[i], Pending, None, None)
  }

  lemma CloseKeeps(w: Wait, state: OutcomeState)
    requires w.state == Pending && state != Pending
    ensures WaitLater(w, Close(w, state))
    ensures forall i :: 0 <= i < |w.bindings| ==> Close(w, state).bindings[i].state != Pending
  {
  }

  /** Bindings only ever move away from pending. */
  ghost predicate Bound(w: Wait, bound: seq<Binding>) {
    |bound| == |w.bindings| && forall i :: 0 <= i < |bound| ==>
      && bound[i].dependency == w.bindings[i].dependency
      && (w.bindings[i].state != Pending ==> bound[i] == w.bindings[i])
  }

  lemma ConcludeKeeps(w: Wait, bound: seq<Binding>)
    requires w.state == Pending && Bound(w, bound)
    ensures WaitLater(w, Conclude(w, bound))
  {
  }

  lemma FailedKeeps(w: Wait, bound: seq<Binding>, i: nat)
    requires w.state == Pending && Bound(w, bound) && i < |bound|
    ensures WaitLater(w, Close(w.(bindings := bound[..i + 1] + w.bindings[i + 1..], failedIndex := Some(i)), DidFail))
  {
    var failed := w.(bindings := bound[..i + 1] + w.bindings[i + 1..], failedIndex := Some(i));
    CloseKeeps(failed, DidFail);
    WaitLaterTransitive(w, failed, Close(failed, DidFail));
  }

  lemma EvaluateKeeps(goals: Goals, archive: Archive, now: Time, w: Wait)
    ensures WaitLater(w, Evaluate(goals, archive, now, w))
  {
    if w.state == Pending {
      if Expired(w.deadline, now) {
        CloseKeeps(w, TimedOut);
      } else {
        var bound := BindAll(goals, archive, w.bindings);
        match FirstFailure(goals, archive, w.bindings, 0) {
          case Some(i) => FailedKeeps(w, bound, i);
          case None => ConcludeKeeps(w, bound);
        }
      }
    }
  }

  lemma CloseShape(w: Wait, state: OutcomeState)
    requires WaitShape(w) || Fresh(w)
    requires state == TimedOut || state == WasCancelled
    ensures w.state == Pending ==> WaitShape(Close(w, state))
  {
  }

  lemma FailedShape(goals: Goals, archive: Archive, w: Wait, i: nat)
    requires WaitShape(w) || Fresh(w)
    requires i < |w.bindings| && FailsAt(goals, archive, w.bindings, i)
    ensures WaitShape(Close(w.(bindings := BindAll(goals, archive, w.bindings)[..i + 1] + w.bindings[i + 1..],
                               failedIndex := Some(i)), DidFail))
  {
  }

  lemma ConcludeShape(w: Wait, bound: seq<Binding>)
    requires |bound| == |w.descriptor| && w.failedIndex.None?
    requires forall i :: 0 <= i < |bound| ==> bound[i].dependency == w.descriptor[i]
    requires forall i :: 0 <= i < |bound| ==> bound[i].state == Pending || bound[i].state == Satisfied
    ensures WaitShape(Conclude(w, bound))
  {
    if b :| b in bound && b.state == Pending {
      var i :| 0 <= i < |bound| && bound[i] == b;
      assert Conclude(w, bound).bindings[i].state == Pending;
    } else {
      forall i | 0 <= i < |bound|
        ensures bound[i].state == Satisfied
      {
        assert bound[i] in bound;
      }
    }
  }

  lemma BoundShape(goals: Goals, archive: Archive, w: Wait)
    requires (WaitShape(w) || Fresh(w)) && w.state == Pending
    requires forall i :: 0 <= i < |w.bindings| ==> !FailsAt(goals, archive, w.bindings, i)
    ensures WaitShape(Conclude(w, BindAll(goals, archive, w.bindings)))
  {
    var bound := BindAll(goals, archive, w.bindings);
    forall i | 0 <= i < |bound|
      ensures bound[i].state == Pending || bound[i].state == Satisfied
    {
      assert !FailsAt(goals, archive, w.bindings, i);
    }
    ConcludeShape(w, bound);
  }

  lemma EvaluateShape(goals: Goals, archive: Archive, now: Time, w: Wait)
    requires WaitShape(w) || Fresh(w)
    ensures WaitShape(Evaluate(goals, archive, now, w))
  {
    if w.state == Pending {
      if Expired(w.deadline, now) {
        CloseShape(w, TimedOut);
      } else {
        match FirstFailure(goals, archive, w.bindings, 0) {
          case Some(i) => FailedShape(goals, archive, w, i);
          case None => BoundShape(goals, archive, w);
        }
      }
    }
  }

  /** A wait left pending waits only for targets that have no outcome yet. */
  ghost predicate Unresolved(goals: Goals, archive: Archive, w: Wait) {
    forall t :: t in PendingTargets(w) ==> !Resolved(goals, archive, t)
  }

  lemma EvaluateUnresolved(goals: Goals, archive: Archive, now: Time, w: Wait)
    ensures Unresolved(goals, archive, Evaluate(goals, archive, now, w)) || w.state != Pending
  {
    var r := Evaluate(goals, archive, now, w);
    if r.state == Pending && w.state == Pending {
      forall t | t in PendingTargets(r)
        ensures !Resolved(goals, archive, t)
      {
        var b :| b in r.bindings && b.state == Pending && b.dependency.target == t;
        var i :| 0 <= i < |r.bindings| && r.bindings[i] == b;
        assert b == Bind(goals, archive, w.bindings[i]);
      }
    }
  }

  lemma LaterShrinksTargets(a: Wait, b: Wait)
    requires WaitLater(a, b)
    ensures PendingTargets(b) <= PendingTargets(a)
  {
    forall t | t in PendingTargets(b)
      ensures t in PendingTargets(a)
    {
      var x :| x in b.bindings && x.state == Pending && x.dependency.target == t;
      var i :| 0 <= i < |b.bindings| && b.bindings[i] == x;
      assert a.bindings[i].dependency == x.dependency && a.bindings[i] in a.bindings;
    }
  }

  lemma WaitLaterTransitive(a: Wait, b: Wait, c: Wait)
    requires WaitLater(a, b) && WaitLater(b, c)
    ensures WaitLater(a, c)
  {
  }

  /** With every pending binding unresolved, only the deadline can move an outcome. */
  lemma ProjectionIsDeadline(goals: Goals, archive: Archive, now: Time, w: Wait)
    requires WaitShape(w) && Unresolved(goals, archive, w)
    ensures Evaluate(goals, archive, now, w) ==
            if w.state == Pending && Expired(w.deadline, now) then Close(w, TimedOut) else w
  {
    if w.state == Pending && !Expired(w.deadline, now) {
      forall i | 0 <= i < |w.bindings|
        ensures Bind(goals, archive, w.bindings[i]) == w.bindings[i]
      {
        if w.bindings[i].state == Pending {
          assert w.bindings[i].dependency.target in PendingTargets(w);
        }
      }
      assert BindAll(goals, archive, w.bindings) == w.bindings;
      var i :| 0 <= i < |w.bindings| && w.bindings[i].state == Pending;
      assert w.bindings[i] in w.bindings;
    }
  }
}
