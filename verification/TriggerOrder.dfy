/** The terminal trigger settles one target at a time. Under the invariant that is the same
    as settling everything the archived job resolved in one go. */
module TriggerOrder {
  import opened Basics
  import opened RunPolicies
  import opened Tables
  import opened Waits
  import opened Steps
  import opened Invariants
  import opened Preservation

  // ---- Saving waits one by one -------------------------------------------------------------

  lemma SavedTarget(s: Db, ws: map<WaitKey, Wait>, p: (WaitKey, Target))
    ensures p in SaveWaits(s, ws).targets <==> if p.0 in ws then p.1 in PendingTargets(ws[p.0]) else p in s.targets
  {
  }

  lemma SaveOneMoreTarget(s: Db, ws: map<WaitKey, Wait>, k: WaitKey, w: Wait, p: (WaitKey, Target))
    requires k !in ws
    ensures p in SaveWaits(SaveWaits(s, ws), map[k := w]).targets <==> p in SaveWaits(s, ws[k := w]).targets
  {
    SavedTarget(s, ws, p);
    SavedTarget(SaveWaits(s, ws), map[k := w], p);
    SavedTarget(s, ws[k := w], p);
  }

  lemma SaveOneMoreTargets(s: Db, ws: map<WaitKey, Wait>, k: WaitKey, w: Wait)
    requires k !in ws
    ensures SaveWaits(SaveWaits(s, ws), map[k := w]).targets == SaveWaits(s, ws[k := w]).targets
  {
    var a, b := SaveWaits(SaveWaits(s, ws), map[k := w]).targets, SaveWaits(s, ws[k := w]).targets;
    forall p ensures p in a <==> p in b { SaveOneMoreTarget(s, ws, k, w, p); }
  }

  lemma MapOneMore<K, V>(a: map<K, V>, b: map<K, V>, k: K, v: V)
    ensures (a + b) + map[k := v] == a + b[k := v]
  {
    var x, y := (a + b) + map[k := v], a + b[k := v];
    forall i ensures i in x <==> i in y { }
    forall i | i in x ensures x[i] == y[i] { }
  }

  lemma SaveOneMore(s: Db, ws: map<WaitKey, Wait>, k: WaitKey, w: Wait)
    requires k !in ws
    ensures SaveWaits(SaveWaits(s, ws), map[k := w]) == SaveWaits(s, ws[k := w])
  {
    SaveOneMoreTargets(s, ws, k, w);
    MapOneMore(s.waits, ws, k, w);
  }

  lemma SaveNone(s: Db)
    ensures SaveWaits(s, map[]) == s
  {
    assert SaveWaits(s, map[]).targets == s.targets;
  }

  // ---- Evaluating twice ----------------------------------------------------------------------

  /** `goals` closes some of the goals open in `before` and leaves the closed ones alone. */
  ghost predicate Closes(before: Goals, goals: Goals) {
    && before.Keys == goals.Keys
    && forall g :: g in before && before[g].state != Open ==> goals[g] == before[g]
  }

  ghost predicate NothingFails(goals: Goals, archive: Archive, w: Wait) {
    forall i :: 0 <= i < |w.bindings| ==> !FailsAt(goals, archive, w.bindings, i)
  }

  lemma BindTwice(before: Goals, goals: Goals, archive: Archive, b: Binding)
    requires Closes(before, goals)
    ensures Bind(goals, archive, Bind(before, archive, b)) == Bind(goals, archive, b)
  {
  }

  lemma ConcludeIs(goals: Goals, archive: Archive, now: Time, w: Wait)
    requires w.state == Pending && !Expired(w.deadline, now) && NothingFails(goals, archive, w)
    ensures Evaluate(goals, archive, now, w) == Conclude(w, BindAll(goals, archive, w.bindings))
  {
    assert FirstFailure(goals, archive, w.bindings, 0) == None;
  }

  /** Evaluating again after more goals closed gives what one evaluation would have given. */
  lemma EvaluateTwice(before: Goals, goals: Goals, archive: Archive, now: Time, w: Wait)
    requires Closes(before, goals) && NothingFails(before, archive, w) && NothingFails(goals, archive, w)
    requires Evaluate(before, archive, now, w).state == Pending
    ensures Evaluate(goals, archive, now, Evaluate(before, archive, now, w)) == Evaluate(goals, archive, now, w)
  {
    var first := Evaluate(before, archive, now, w);
    ConcludeIs(before, archive, now, w);
    ConcludeIs(goals, archive, now, w);
    forall i | 0 <= i < |w.bindings|
      ensures !FailsAt(goals, archive, first.bindings, i)
      ensures Bind(goals, archive, first.bindings[i]) == Bind(goals, archive, w.bindings[i])
    {
      assert !FailsAt(goals, archive, w.bindings, i);
      BindTwice(before, goals, archive, w.bindings[i]);
    }
    assert BindAll(goals, archive, first.bindings) == BindAll(goals, archive, w.bindings);
    ConcludeIs(goals, archive, now, first);
  }

  /** Closing a goal the wait does not wait for changes nothing for it. */
  lemma EvaluateFrame(before: Goals, goals: Goals, archive: Archive, now: Time, w: Wait, g: GoalId)
    requires before.Keys == goals.Keys && forall x :: x in before && x != g ==> goals[x] == before[x]
    requires GoalTarget(g) !in PendingTargets(w)
    ensures Evaluate(goals, archive, now, w) == Evaluate(before, archive, now, w)
  {
    if w.state == Pending {
      forall i | 0 <= i < |w.bindings|
        ensures Bind(goals, archive, w.bindings[i]) == Bind(before, archive, w.bindings[i])
        ensures FailsAt(goals, archive, w.bindings, i) == FailsAt(before, archive, w.bindings, i)
      {
        if w.bindings[i].state == Pending { assert w.bindings[i] in w.bindings; }
      }
      assert BindAll(goals, archive, w.bindings) == BindAll(before, archive, w.bindings);
      SameFirstFailure(before, goals, archive, w.bindings, 0);
    }
  }

  lemma {:induction false} SameFirstFailure(before: Goals, goals: Goals, archive: Archive, bs: seq<Binding>, from: nat)
    requires from <= |bs|
    requires forall i :: from <= i < |bs| ==> FailsAt(goals, archive, bs, i) == FailsAt(before, archive, bs, i)
    ensures FirstFailure(goals, archive, bs, from) == FirstFailure(before, archive, bs, from)
    decreases |bs| - from
  {
    if from < |bs| && !FailsAt(goals, archive, bs, from) {
      SameFirstFailure(before, goals, archive, bs, from + 1);
    }
  }

  // ---- One goal more ---------------------------------------------------------------------------

  /** The terminal database with only the goals in `resolved` closed and announced. */
  function Stage(s: Db, id: JobId, resolved: set<GoalId>): Db {
    Settle(s.(goals := ResolveGoals(s.goals, s.now, resolved, id)), Announces(id, resolved))
  }

  /** Before any goal is resolved: the job is archived as a success, nothing else is new. */
  ghost predicate Announcing(s: Db, id: JobId) {
    && id in s.archive && s.archive[id].status == Success && IndexExact(s) && Shaped(s)
    && forall k, t :: k in s.waits && t in PendingTargets(s.waits[k]) && Resolved(s.goals, s.archive, t) ==> t == JobTarget(id)
  }

  lemma SuccessNeverFails(s: Db, id: JobId, resolved: set<GoalId>, k: WaitKey)
    requires Announcing(s, id) && k in s.waits
    requires forall g :: g in resolved ==> g in s.goals && s.goals[g].state == Open
    ensures s.waits[k].state == Pending ==> NothingFails(ResolveGoals(s.goals, s.now, resolved, id), s.archive, s.waits[k])
  {
    var w, goals := s.waits[k], ResolveGoals(s.goals, s.now, resolved, id);
    if w.state == Pending {
      forall i | 0 <= i < |w.bindings| ensures !FailsAt(goals, s.archive, w.bindings, i) {
        var b := w.bindings[i];
        if b.state == Pending {
          var t := b.dependency.target;
          assert b in w.bindings && t in PendingTargets(w);
          assert Resolved(s.goals, s.archive, t) ==> t == JobTarget(id);
        }
      }
    }
  }

  predicate Subscribed(targets: set<(WaitKey, Target)>, changed: set<Target>, k: WaitKey) {
    exists t :: t in changed && (k, t) in targets
  }

  lemma SettleAt(s: Db, changed: set<Target>, k: WaitKey)
    requires k in s.waits
    ensures Settle(s, changed).waits[k]
            == if Subscribed(s.targets, changed, k) then Evaluate(s.goals, s.archive, s.now, s.waits[k]) else s.waits[k]
  {
  }

  function Announces(id: JobId, resolved: set<GoalId>): set<Target> {
    {JobTarget(id)} + GoalTargets(resolved)
  }

  lemma StageAt(s: Db, id: JobId, resolved: set<GoalId>, k: WaitKey)
    requires k in s.waits
    ensures var goals := ResolveGoals(s.goals, s.now, resolved, id);
            Stage(s, id, resolved).waits[k]
            == if Subscribed(s.targets, Announces(id, resolved), k) then Evaluate(goals, s.archive, s.now, s.waits[k])
               else s.waits[k]
  {
    SettleAt(s.(goals := ResolveGoals(s.goals, s.now, resolved, id)), Announces(id, resolved), k);
  }

  lemma SubscribedMore(targets: set<(WaitKey, Target)>, id: JobId, resolved: set<GoalId>, g: GoalId, k: WaitKey)
    ensures Subscribed(targets, Announces(id, resolved + {g}), k) <==>
              Subscribed(targets, Announces(id, resolved), k) || (k, GoalTarget(g)) in targets
    ensures Subscribed(targets, {GoalTarget(g)}, k) <==> (k, GoalTarget(g)) in targets
  {
    assert Announces(id, resolved + {g}) == Announces(id, resolved) + {GoalTarget(g)};
  }

  /** The wait as one more resolved goal leaves it. */
  lemma OneGoalWait(s: Db, a: Db, id: JobId, resolved: set<GoalId>, g: GoalId, k: WaitKey)
    requires Announcing(s, id) && k in s.waits && g !in resolved && k in a.waits && IndexExact(a)
    requires a == Stage(s, id, resolved)
    requires forall x :: x in resolved + {g} ==> x in s.goals && s.goals[x].state == Open
    ensures var b := a.(goals := ResolveGoals(s.goals, s.now, resolved + {g}, id));
            Settle(b, {GoalTarget(g)}).waits[k] == Stage(s, id, resolved + {g}).waits[k]
  {
    var goals1 := ResolveGoals(s.goals, s.now, resolved, id);
    var goals2 := ResolveGoals(s.goals, s.now, resolved + {g}, id);
    StageAt(s, id, resolved, k);
    StageAt(s, id, resolved + {g}, k);
    SettleAt(a.(goals := goals2), {GoalTarget(g)}, k);
    SubscribedMore(s.targets, id, resolved, g, k);
    SubscribedMore(a.targets, id, resolved, g, k);
    IndexedTarget(s, k, GoalTarget(g));
    IndexedTarget(a, k, GoalTarget(g));
    if Subscribed(s.targets, Announces(id, resolved), k) {
      OneGoalEvaluation(s, id, resolved, g, k, goals1, goals2);
    }
  }

  lemma IndexedTarget(s: Db, k: WaitKey, t: Target)
    requires IndexExact(s) && k in s.waits
    ensures (k, t) in s.targets <==> t in PendingTargets(s.waits[k])
  {
  }

  lemma OneGoalEvaluation(s: Db, id: JobId, resolved: set<GoalId>, g: GoalId, k: WaitKey, goals1: Goals, goals2: Goals)
    requires Announcing(s, id) && k in s.waits && g !in resolved
    requires forall x :: x in resolved + {g} ==> x in s.goals && s.goals[x].state == Open
    requires goals1 == ResolveGoals(s.goals, s.now, resolved, id)
    requires goals2 == ResolveGoals(s.goals, s.now, resolved + {g}, id)
    ensures var w1 := Evaluate(goals1, s.archive, s.now, s.waits[k]);
            Evaluate(goals2, s.archive, s.now, s.waits[k])
            == if GoalTarget(g) in PendingTargets(w1) then Evaluate(goals2, s.archive, s.now, w1) else w1
  {
    var w := s.waits[k];
    if GoalTarget(g) !in PendingTargets(w) {
      EvaluateFrame(goals1, goals2, s.archive, s.now, w, g);
      EvaluateKeeps(goals1, s.archive, s.now, w);
      LaterShrinksTargets(w, Evaluate(goals1, s.archive, s.now, w));
    } else {
      SuccessNeverFails(s, id, resolved, k);
      SuccessNeverFails(s, id, resolved + {g}, k);
      GoalStillPending(goals1, goals2, s.archive, s.now, w, g);
    }
  }

  lemma StageIndex(s: Db, id: JobId, resolved: set<GoalId>)
    requires IndexExact(s) && Shaped(s)
    ensures IndexExact(Stage(s, id, resolved)) && Stage(s, id, resolved).waits.Keys == s.waits.Keys
  {
    var base := s.(goals := ResolveGoals(s.goals, s.now, resolved, id));
    SettleAdvances(base, Announces(id, resolved));
  }

  /** A wait on an open goal either timed out or is still pending on it, and then a second
      evaluation catches up. */
  lemma GoalStillPending(goals1: Goals, goals2: Goals, archive: Archive, now: Time, w: Wait, g: GoalId)
    requires Closes(goals1, goals2) && g in goals1 && goals1[g].state == Open
    requires GoalTarget(g) in PendingTargets(w)
    requires NothingFails(goals1, archive, w) && NothingFails(goals2, archive, w)
    ensures var w1 := Evaluate(goals1, archive, now, w);
            if GoalTarget(g) in PendingTargets(w1)
            then Evaluate(goals2, archive, now, w1) == Evaluate(goals2, archive, now, w)
            else w1 == Evaluate(goals2, archive, now, w)
  {
    var w1 := Evaluate(goals1, archive, now, w);
    if !Expired(w.deadline, now) {
      ConcludeIs(goals1, archive, now, w);
      var b :| b in w.bindings && b.state == Pending && b.dependency.target == GoalTarget(g);
      var i :| 0 <= i < |w.bindings| && w.bindings[i] == b;
      assert w1.bindings[i] == b && w1.bindings[i] in w1.bindings;
      EvaluateTwice(goals1, goals2, archive, now, w);
    }
  }

  lemma SameByWaits(a: Db, b: Db)
    requires a == b.(waits := a.waits, targets := a.targets) && IndexExact(a) && IndexExact(b)
    requires a.waits.Keys == b.waits.Keys && forall k :: k in b.waits ==> a.waits[k] == b.waits[k]
    ensures a == b
  {
    assert a.waits == b.waits;
  }

  lemma OneGoalFrame(s: Db, a: Db, id: JobId, resolved: set<GoalId>, g: GoalId)
    requires a == Stage(s, id, resolved)
    ensures var t := Settle(a.(goals := ResolveGoals(s.goals, s.now, resolved + {g}, id)), {GoalTarget(g)});
            t == Stage(s, id, resolved + {g}).(waits := t.waits, targets := t.targets)
  {
  }

  lemma OneGoalIndex(s: Db, a: Db, id: JobId, resolved: set<GoalId>, g: GoalId)
    requires IndexExact(s) && Shaped(s) && a == Stage(s, id, resolved)
    ensures IndexExact(a) && a.waits.Keys == s.waits.Keys
    ensures var t := Settle(a.(goals := ResolveGoals(s.goals, s.now, resolved + {g}, id)), {GoalTarget(g)});
            IndexExact(t) && t.waits.Keys == s.waits.Keys
  {
    StageIndex(s, id, resolved);
    var b := a.(goals := ResolveGoals(s.goals, s.now, resolved + {g}, id));
    assert IndexExact(b);
    SaveKeepsIndex(b, Touched(b, {GoalTarget(g)}));
  }

  /** Resolving and settling one goal more, after the others, is the next stage. */
  lemma OneGoalMore(s: Db, id: JobId, resolved: set<GoalId>, g: GoalId)
    requires Announcing(s, id) && g !in resolved
    requires forall x :: x in resolved + {g} ==> x in s.goals && s.goals[x].state == Open
    ensures var a := Stage(s, id, resolved);
            Settle(a.(goals := ResolveGoals(s.goals, s.now, resolved + {g}, id)), {GoalTarget(g)})
            == Stage(s, id, resolved + {g})
  {
    var a := Stage(s, id, resolved);
    var t := Settle(a.(goals := ResolveGoals(s.goals, s.now, resolved + {g}, id)), {GoalTarget(g)});
    var u := Stage(s, id, resolved + {g});
    OneGoalFrame(s, a, id, resolved, g);
    OneGoalIndex(s, a, id, resolved, g);
    StageIndex(s, id, resolved + {g});
    forall k | k in u.waits ensures t.waits[k] == u.waits[k] { OneGoalWait(s, a, id, resolved, g, k); }
    SameByWaits(t, u);
  }
}
