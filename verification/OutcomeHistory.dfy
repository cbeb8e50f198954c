/** Goal and wait outcomes over whole runs: settled once, never late, what readers see. */
module OutcomeHistory {
  import opened Basics
  import opened RunPolicies
  import opened Tables
  import opened Waits
  import opened Steps
  import opened Invariants
  import opened Preservation
  import opened GoalPreservation
  import opened Runs
  import opened Rows
  import opened Transitions

  /** Pending in storage although its deadline has come. */
  predicate Due(s: Db, k: WaitKey) {
    k in s.waits && s.waits[k].state == Pending && Expired(s.waits[k].deadline, s.now)
  }

  /** A reader's projection differs from storage only on due waits, and is then exactly what
      settling at that instant would store. */
  lemma ProjectionExact(s: Db, threshold: nat, k: WaitKey)
    requires Inv(s, threshold) && k in s.waits
    ensures Project(s, k) == if Due(s, k) then Close(s.waits[k], TimedOut) else s.waits[k]
    ensures Project(s, k) == ExpireWaits(s).waits[k]
  {
    assert WaitOk(s, k) && WaitSettled(s, k);
    ProjectionIsDeadline(s.goals, s.archive, s.now, s.waits[k]);
  }

  ghost predicate OutOfTime(w: Wait, later: Wait) {
    later == w || later == Close(w, TimedOut) || later == Close(w, WasCancelled)
  }

  /** A success after the deadline comes too late, in every continuation. */
  lemma {:induction false} TooLate(s: Db, threshold: nat, es: seq<Event>, k: WaitKey)
    requires Inv(s, threshold) && Due(s, k)
    ensures var t := Run(s, threshold, es); k in t.waits && OutOfTime(s.waits[k], t.waits[k])
    decreases |es|
  {
    if es != [] {
      var t := Apply(s, threshold, es[0]);
      StepTransition(s, threshold, es[0]);
      assert DueStep(s, t, k, Ended(es[0]));
      if t.waits[k] == s.waits[k] {
        TooLate(t, threshold, es[1..], k);
      } else {
        RunLater(t, threshold, es[1..]);
        assert StoredLater(t, Run(t, threshold, es[1..]), k);
      }
    }
  }

  /** A wait that ends SATISFIED or FAILED did so before its deadline: at every earlier
      moment of the run it was either already settled so or still in time. */
  lemma DecidedInTime(s: Db, threshold: nat, es: seq<Event>, k: WaitKey)
    requires Inv(s, threshold) && k in s.waits && k in Run(s, threshold, es).waits
    requires Run(s, threshold, es).waits[k].state == Satisfied || Run(s, threshold, es).waits[k].state == DidFail
    ensures s.waits[k] == Run(s, threshold, es).waits[k] || !Expired(s.waits[k].deadline, s.now)
  {
    RunLater(s, threshold, es);
    assert StoredLater(s, Run(s, threshold, es), k);
    if Due(s, k) {
      TooLate(s, threshold, es, k);
    }
  }

  /** A projected outcome is final, with one exception: a due wait read as TIMED_OUT may
      still be stored as CANCELLED. Its bindings are the same either way. */
  lemma ProjectionFinal(s: Db, threshold: nat, es: seq<Event>, k: WaitKey)
    requires Inv(s, threshold) && k in s.waits && Project(s, k).state != Pending
    ensures var t := Run(s, threshold, es);
            && k in t.waits
            && (|| Project(t, k) == Project(s, k)
                || (Due(s, k) && t.waits[k] == Project(s, k).(state := WasCancelled)))
  {
    var t := Run(s, threshold, es);
    ProjectionExact(s, threshold, k);
    RunLater(s, threshold, es);
    assert StoredLater(s, t, k);
    ProjectionExact(t, threshold, k);
    if Due(s, k) {
      TooLate(s, threshold, es, k);
    }
  }

  /** The exception is real: cancelling the consumer of a due wait stores CANCELLED, while
      a poll that settles it first stores TIMED_OUT. */
  lemma DueWaitRaces(s: Db, threshold: nat, k: WaitKey, worker: string, reason: string)
    requires Inv(s, threshold) && Due(s, k) && worker != ""
    ensures Project(s, k).state == TimedOut
    ensures ExpireWaits(s).waits[k].state == TimedOut
    ensures Cancel(s, k.job, worker, reason).Ok?
    ensures k in Cancel(s, k.job, worker, reason).value.waits
    ensures Cancel(s, k.job, worker, reason).value.waits[k] == Project(s, k).(state := WasCancelled)
  {
    ProjectionExact(s, threshold, k);
    assert WaitOwned(s, k);
    ArchiveWaits(s, k.job, Cancelled, reason);
    var t := ArchiveJob(s, k.job, Cancelled, reason);
    assert Moved(s, t, k);
    var stage := TerminalStage(s, k.job, Cancelled, reason);
    assert stage.waits[k] == Close(s.waits[k], WasCancelled);
    assert t.waits[k] == stage.waits[k];
  }

  /** OPEN closes at most once, and what closed it is kept: revision 1 while open, 2 ever
      after, with the first successful member or the failure snapshot frozen. */
  lemma GoalSettlesOnce(s: Db, threshold: nat, es: seq<Event>, g: GoalId)
    requires Inv(s, threshold) && g in s.goals
    ensures var t := Run(s, threshold, es);
            && g in t.goals
            && (s.goals[g].state != Open ==> t.goals[g] == s.goals[g])
            && t.goals[g].revision == (if t.goals[g].state == Open then 1 else 2)
            && (t.goals[g].state == Succeeded ==>
                  && t.goals[g].winner.Some? && t.goals[g].winner.value in Members(t, g)
                  && t.goals[g].winner.value in t.archive && t.archive[t.goals[g].winner.value].status == Success)
            && (t.goals[g].state == Open ==>
                  forall m :: m in Members(t, g) && m in t.archive ==> t.archive[m].status != Success)
  {
    var t := Run(s, threshold, es);
    RunLater(s, threshold, es);
    assert GoalLater(s, t, g) && GoalOk(t, g);
    if t.goals[g].state == Open {
      forall m | m in Members(t, g) && m in t.archive
        ensures t.archive[m].status != Success
      {
        assert MemberSettled(t, (g, m));
      }
    }
  }

  /** The moment g left OPEN in a run: the call there, and the database it met. */
  predicate ClosedAt(s: Db, threshold: nat, es: seq<Event>, g: GoalId, i: nat) {
    && i < |es|
    && var before, after := Run(s, threshold, es[..i]), Run(s, threshold, es[..i + 1]);
    && (g in before.goals ==> before.goals[g].state == Open)
    && g in after.goals && after.goals[g].state != Open
  }

  lemma ClosedLater(s: Db, threshold: nat, es: seq<Event>, g: GoalId, i: nat)
    requires es != [] && ClosedAt(Apply(s, threshold, es[0]), threshold, es[1..], g, i)
    ensures ClosedAt(s, threshold, es, g, i + 1)
    ensures Run(s, threshold, es[..i + 1]) == Run(Apply(s, threshold, es[0]), threshold, es[1..][..i])
    ensures Run(s, threshold, es[..i + 2]) == Run(Apply(s, threshold, es[0]), threshold, es[1..][..i + 1])
    ensures es[i + 1] == es[1..][i]
  {
    assert es[..i + 1][0] == es[0] && es[..i + 1][1..] == es[1..][..i];
    assert es[..i + 2][0] == es[0] && es[..i + 2][1..] == es[1..][..i + 1];
  }

  lemma ClosedFirst(s: Db, threshold: nat, es: seq<Event>, g: GoalId)
    requires es != [] && (g in s.goals ==> s.goals[g].state == Open)
    requires var t := Apply(s, threshold, es[0]); g in t.goals && t.goals[g].state != Open
    ensures ClosedAt(s, threshold, es, g, 0)
    ensures Run(s, threshold, es[..0]) == s && Run(s, threshold, es[..1]) == Apply(s, threshold, es[0])
  {
    assert es[..1][0] == es[0] && es[..1][1..] == [];
  }

  /** What the closing call recorded: a FailGoal its message, its time and which members had
      ended by then, a success its job. Nothing after it changes the record. */
  ghost predicate ClosingRecord(before: Db, goal: Goal, g: GoalId, e: Event) {
    && g in before.goals && before.goals[g].state == Open && goal.closedAt == Some(before.now)
    && if goal.state == Failed then e.CloseGoal? && e.goal == g && FailedAs(before, goal, g, e.message)
       else goal.state == Succeeded && goal.winner.Some?
            && ((e.CompleteJob? && e.status == Success && e.job == goal.winner.value)
                || (e.AttachCandidate? && e.goal == g && e.job == goal.winner.value))
  }

  /** In every run each closed goal has its one closing moment, and its record is the truth of
      that moment: a failed goal's terminal jobs are its members archived by `failedAt`, its
      non-terminal jobs the other members, and a later change of either shows nowhere. */
  lemma {:induction false} ClosingMoment(s: Db, threshold: nat, es: seq<Event>, g: GoalId) returns (i: nat)
    requires Inv(s, threshold) && (g in s.goals ==> s.goals[g].state == Open)
    requires g in Run(s, threshold, es).goals && Run(s, threshold, es).goals[g].state != Open
    ensures i < |es| && ClosedAt(s, threshold, es, g, i)
    ensures ClosingRecord(Run(s, threshold, es[..i]), Run(s, threshold, es).goals[g], g, es[i])
    decreases |es|
  {
    assert es != [];
    var t := Apply(s, threshold, es[0]);
    StepTransition(s, threshold, es[0]);
    if g in t.goals && t.goals[g].state != Open {
      i := 0;
      ClosedFirst(s, threshold, es, g);
      ClosingStep(s, t, threshold, es[0], g);
      RunLater(t, threshold, es[1..]);
      assert GoalLater(t, Run(t, threshold, es[1..]), g);
    } else {
      var n := ClosingMoment(t, threshold, es[1..], g);
      ClosedLater(s, threshold, es, g, n);
      i := n + 1;
    }
  }

  lemma ClosingStep(s: Db, t: Db, threshold: nat, e: Event, g: GoalId)
    requires Transition(s, t, threshold, e) && (g in s.goals ==> s.goals[g].state == Open)
    requires g in t.goals && t.goals[g].state != Open
    ensures ClosingRecord(s, t.goals[g], g, e)
  {
    assert GoalStep(s, t, e, g) && GoalOk(t, g);
  }

  /** Hence in every reachable database: nobody is listed on both sides, everyone listed as
      terminal has ended, and everyone listed was or is a member. */
  lemma FailureIsTrue(threshold: nat, es: seq<Event>, g: GoalId)
    requires var t := Run(EMPTY, threshold, es); g in t.goals && t.goals[g].state == Failed
    ensures var t := Run(EMPTY, threshold, es);
            && t.goals[g].failure.Some? && t.goals[g].failure.value.GoalFailure?
            && var f := t.goals[g].failure.value;
            && f.terminal !! f.nonTerminal && f.goal == g
            && f.terminal + f.nonTerminal <= Members(t, g)
            && (forall m :: m in f.terminal ==> m in t.archive)
  {
    EmptyInv(threshold);
    var i := ClosingMoment(EMPTY, threshold, es, g);
    var before, t := Run(EMPTY, threshold, es[..i]), Run(EMPTY, threshold, es);
    assert es[..i] + es[i..] == es;
    RunConcat(EMPTY, threshold, es[..i], es[i..]);
    RunInv(EMPTY, threshold, es[..i]);
    RunLater(before, threshold, es[i..]);
    forall m | m in before.archive ensures m in t.archive { assert ArchiveLater(before, t, m); }
    forall m | m in Members(before, g) ensures m in Members(t, g) { MembersGrow(before, t, g, m); }
  }

  /** Failing a goal can be repeated: the same message changes nothing, another is refused. */
  lemma FailGoalRetry(s: Db, threshold: nat, es: seq<Event>, g: GoalId, message: string, again: string)
    requires Inv(s, threshold) && FailGoal(s, g, message).Ok?
    ensures var u := Run(FailGoal(s, g, message).value, threshold, es);
            if again == message then FailGoal(u, g, again) == Ok(u) else FailGoal(u, g, again).Err?
  {
    var t := FailGoal(s, g, message).value;
    FailGoalInv(s, threshold, g, message);
    assert t.goals[g].state == Failed && t.goals[g].failure.Some?;
    RunLater(t, threshold, es);
    assert GoalLater(t, Run(t, threshold, es), g);
  }

  lemma MembersGrow(s: Db, t: Db, g: GoalId, m: JobId)
    requires Later(s, t) && m in Members(s, g)
    ensures m in Members(t, g)
  {
    assert (g, m) in Membership(s);
    if m in s.facts { assert FactLater(s, t, m); }
    assert (g, m) in Membership(t);
  }

  /** Once a goal is closed nobody joins it, as a new primary job or as a candidate. */
  lemma {:induction false} ClosedMembership(s: Db, threshold: nat, es: seq<Event>, g: GoalId)
    requires Inv(s, threshold) && g in s.goals && s.goals[g].state != Open
    ensures Members(Run(s, threshold, es), g) == Members(s, g)
    decreases |es|
  {
    if es != [] {
      var t := Apply(s, threshold, es[0]);
      StepTransition(s, threshold, es[0]);
      ClosedMembersStep(s, t, threshold, es[0], g);
      assert GoalLater(s, t, g);
      ClosedMembership(t, threshold, es[1..], g);
    }
  }

  lemma ClosedMembersStep(s: Db, t: Db, threshold: nat, e: Event, g: GoalId)
    requires Transition(s, t, threshold, e) && g in s.goals && s.goals[g].state != Open
    ensures Members(t, g) == Members(s, g)
  {
    forall m | m in Members(s, g) ensures m in Members(t, g) { MembersGrow(s, t, g, m); }
    forall m | m in Members(t, g) ensures m in Members(s, g) {
      assert (g, m) in Membership(t) && RowStep(s, t, threshold, e, m);
      if m in s.facts { assert FactLater(s, t, m); }
      assert (g, m) in Membership(s);
    }
  }

  /** A submission's job belongs to the goal it named or was given, which is as old as the
      submission unless it was shared, for good. */
  lemma GoalOfSubmission(s: Db, threshold: nat, id: JobId, req: SubmitRequest, es: seq<Event>)
    requires Inv(s, threshold) && id !in s.facts && Submit(s, id, req).Ok?
    ensures var g, u := if req.goal.Some? then req.goal.value else req.generatedGoal,
                        Run(Submit(s, id, req).value, threshold, es);
            && id in Members(u, g) && g in u.goals
            && u.goals[g].createdAt == (if g in s.goals then s.goals[g].createdAt else s.now)
            && (req.shareGoal <==> g in s.goals) && (g in s.goals ==> s.goals[g].state == Open)
  {
    var t, e := Submit(s, id, req).value, SubmitJob(id, req);
    assert Apply(s, threshold, e) == t;
    StepTransition(s, threshold, e);
    SubmitFacts(s, id, req);
    RunLater(t, threshold, es);
    SubmittedMember(s, t, Run(t, threshold, es), threshold, id, req);
  }

  lemma SubmittedMember(s: Db, t: Db, u: Db, threshold: nat, id: JobId, req: SubmitRequest)
    requires Transition(s, t, threshold, SubmitJob(id, req)) && Later(t, u) && id !in s.facts && id in t.facts
    ensures var g := SubmittedGoal(req);
            && id in Members(u, g) && g in u.goals
            && u.goals[g].createdAt == if g in s.goals then s.goals[g].createdAt else s.now
  {
    var g := SubmittedGoal(req);
    assert RowStep(s, t, threshold, SubmitJob(id, req), id) && IdentityOk(t, id) && FactLater(t, u, id);
    assert GoalStep(s, t, SubmitJob(id, req), g) && GoalLater(t, u, g);
    if g in s.goals { assert GoalLater(s, t, g); }
    assert (g, id) in Membership(u);
  }

  /** A closed wait and each decided binding are kept as they are by every continuation. */
  lemma WaitSettlesOnce(s: Db, threshold: nat, es: seq<Event>, k: WaitKey)
    requires Inv(s, threshold) && k in s.waits
    ensures var t := Run(s, threshold, es);
            && k in t.waits && WaitLater(s.waits[k], t.waits[k]) && WaitShape(t.waits[k])
            && (t.waits[k].state == Pending ==> s.waits[k].state == Pending)
  {
    var t := Run(s, threshold, es);
    RunLater(s, threshold, es);
    assert StoredLater(s, t, k) && WaitOk(t, k);
  }
}
