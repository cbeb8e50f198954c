/** The crash-concern counter over whole runs. */
module Crashes {
  import opened Basics
  import opened RunPolicies
  import opened Tables
  import opened Waits
  import opened Steps
  import opened Invariants
  import opened Runs
  import opened Rows
  import opened Transitions

  /** The row carries a lease it did not carry before. */
  predicate Grants(s: Db, t: Db, id: JobId) {
    && id in t.jobs && t.jobs[id].lease.Some?
    && (id in s.jobs && s.jobs[id].lease.Some? ==> s.jobs[id].lease.value.id != t.jobs[id].lease.value.id)
  }

  function CountGrants(s: Db, threshold: nat, es: seq<Event>, id: JobId): nat
    decreases |es|
  {
    if es == [] then 0
    else
      var t := Apply(s, threshold, es[0]);
      (if Grants(s, t, id) then 1 else 0) + CountGrants(t, threshold, es[1..], id)
  }

  /** Leases the row may still be granted before a reschedule or a clear. */
  function Budget(s: Db, threshold: nat, id: JobId): int {
    if id !in s.jobs then (if id in s.facts then 0 else threshold + 1)
    else if s.jobs[id].lease.None? then threshold + 1
    else threshold - s.jobs[id].streak
  }

  predicate Resets(e: Event, id: JobId) {
    (e.RescheduleJob? || e.ClearCrashConcern?) && e.job == id
  }

  lemma BudgetStep(s: Db, t: Db, threshold: nat, e: Event, id: JobId)
    requires Transition(s, t, threshold, e) && !Resets(e, id)
    ensures Budget(t, threshold, id) + (if Grants(s, t, id) then 1 else 0) <= Budget(s, threshold, id)
    ensures Budget(t, threshold, id) >= 0
  {
    assert RowStep(s, t, threshold, e, id);
    if id in s.jobs { assert JobOk(s, threshold, id) && FactLater(s, t, id); }
    if id in t.jobs { assert JobOk(t, threshold, id); }
    if id in s.facts { assert FactLater(s, t, id); }
    if id in t.jobs && Rewritten(s, t, threshold, e, id) && (e.AcquireWork? || e.ClaimWaitingTask?) {
      assert s.jobs[id].lease.Some? ==> s.jobs[id].lease.value.id in s.issued;
    }
  }

  /** Without a reschedule or a clear, a job is granted at most threshold + 1 leases. */
  lemma {:induction false} GrantsAreBounded(s: Db, threshold: nat, es: seq<Event>, id: JobId)
    requires Inv(s, threshold) && forall e :: e in es ==> !Resets(e, id)
    ensures 0 <= CountGrants(s, threshold, es, id) <= Budget(s, threshold, id) <= threshold + 1
    decreases |es|
  {
    if id in s.jobs { assert JobOk(s, threshold, id); }
    if es != [] {
      var t := Apply(s, threshold, es[0]);
      StepTransition(s, threshold, es[0]);
      assert es[0] in es;
      BudgetStep(s, t, threshold, es[0], id);
      GrantsAreBounded(t, threshold, es[1..], id);
    }
  }

  /** The streak grows only when an expired lease is taken over. */
  lemma StreakGrowsByTakeover(s: Db, t: Db, threshold: nat, e: Event, id: JobId)
    requires Transition(s, t, threshold, e) && id in s.jobs && id in t.jobs
    ensures t.jobs[id].streak > s.jobs[id].streak ==>
              && (e.AcquireWork? || e.ClaimWaitingTask?) && e.job == id && Grants(s, t, id)
              && s.jobs[id].lease.Some? && !Held(s.jobs[id], s.now) && t.jobs[id].streak == s.jobs[id].streak + 1
  {
    assert RowStep(s, t, threshold, e, id) && JobOk(s, threshold, id);
  }

  /** Calls that can take a job out of CRASH_CONCERN. */
  predicate Touches(e: Event, id: JobId) {
    match e
    case RescheduleJob(j, _, _, _) => j == id
    case ClearCrashConcern(j) => j == id
    case CompleteJob(j, _, _, _, _, _) => j == id
    case CancelJob(j, _, _) => j == id
    case DeleteJobs(_, order) => id in order
    case _ => false
  }

  /** A stored wait that no longer blocks does not block later. */
  lemma UnblockedStays(s: Db, t: Db, id: JobId)
    requires Later(s, t) && Kept(s, t, id) && PointerOk(s, id)
    requires !WaitBlocks(s, id, s.jobs[id], s.now)
    ensures !WaitBlocks(t, id, t.jobs[id], t.now)
  {
    if s.jobs[id].dependencyWait.Some? {
      assert StoredLater(s, t, WaitKey(id, s.jobs[id].dependencyWait.value));
    }
  }

  lemma LegacyUnblockedStays(s: Db, t: Db, id: JobId)
    requires Later(s, t) && Kept(s, t, id)
    requires !LegacyBlocks(s, s.jobs[id], s.now)
    ensures !LegacyBlocks(t, t.jobs[id], t.now)
  {
    forall d | d in t.jobs[id].waitFor && d in s.archive
      ensures d in t.archive
    {
      assert ArchiveLater(s, t, d);
    }
  }

  lemma ConcernStep(s: Db, t: Db, threshold: nat, e: Event, id: JobId)
    requires Transition(s, t, threshold, e) && !Touches(e, id)
    requires id in s.jobs && PointerOk(s, id) && StatusAt(s, threshold, id, s.now) == CrashConcern
    ensures Kept(s, t, id) && PointerOk(t, id) && StatusAt(t, threshold, id, t.now) == CrashConcern
  {
    assert RowStep(s, t, threshold, e, id) && JobOk(s, threshold, id);
    if Rewritten(s, t, threshold, e, id) {
      ConcernRefuses(s, threshold, id);
    }
    UnblockedStays(s, t, id);
    LegacyUnblockedStays(s, t, id);
    PointerStep(s, t, threshold, e, id);
  }

  /** Polling, targeted acquisition and external claims all refuse the row. */
  lemma ConcernRefuses(s: Db, threshold: nat, id: JobId)
    requires id in s.jobs && s.jobs[id].streak >= threshold
    ensures forall req :: !Eligible(ExpireWaits(s), threshold, req, id)
    ensures forall req :: !Claimable(ExpireWaits(s), threshold, req, id)
  {
    assert StatusAt(ExpireWaits(s), threshold, id, s.now) != Ready;
  }

  /** CRASH_CONCERN is left only by a reschedule, a clear, a completion, a cancellation or
      a deletion; until then the row changes in nothing but satisfied prerequisites. */
  lemma {:induction false} ConcernPersists(s: Db, threshold: nat, es: seq<Event>, id: JobId)
    requires Inv(s, threshold) && forall e :: e in es ==> !Touches(e, id)
    requires id in s.jobs && PointerOk(s, id) && StatusAt(s, threshold, id, s.now) == CrashConcern
    ensures var t := Run(s, threshold, es);
            && Kept(s, t, id) && StatusAt(t, threshold, id, t.now) == CrashConcern
            && (forall req :: !Eligible(ExpireWaits(t), threshold, req, id))
            && (forall req :: ClaimTask(t, threshold, req, id).Err?)
    decreases |es|
  {
    if es == [] {
      ConcernRefuses(s, threshold, id);
    } else {
      var t := Apply(s, threshold, es[0]);
      StepTransition(s, threshold, es[0]);
      assert es[0] in es;
      ConcernStep(s, t, threshold, es[0], id);
      ConcernPersists(t, threshold, es[1..], id);
      RunLater(t, threshold, es[1..]);
      forall j | j in t.archive ensures j in Run(t, threshold, es[1..]).archive {
        assert ArchiveLater(t, Run(t, threshold, es[1..]), j);
      }
      KeptTransitive(s, t, Run(t, threshold, es[1..]), id);
    }
  }
}
