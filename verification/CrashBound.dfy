/** The bound on leases before CRASH_CONCERN is attained. */
module CrashBound {
  import opened Basics
  import opened RunPolicies
  import opened Tables
  import opened Waits
  import opened Steps
  import opened Invariants
  import opened Runs
  import opened Rows
  import opened Crashes
  import Tasks

  function Marks(n: nat): string {
    seq(n, _ => 'x')
  }

  /** There is always a lease id nobody has drawn yet. */
  lemma {:induction false} FreshId(used: set<LeaseId>, n: nat) returns (x: LeaseId)
    ensures x !in used && |x| >= n
    decreases |used|
  {
    x := Marks(n);
    if x in used {
      x := FreshId(used - {x}, n + 1);
      assert x != Marks(n);
    }
  }

  /** An unheld job with nothing to wait for and no route but its own. */
  ghost predicate Idle(s: Db, id: JobId) {
    && id in s.jobs
    && var j := s.jobs[id];
    && !Held(j, s.now) && j.dependencyWait.None? && j.waitFor == [] && !j.waitUntilIsDeadline
    && j.availableAt <= s.now && j.expiresAt.None? && j.alternate == NO_ALTERNATE && j.route.kind == JobKind
  }

  lemma IdleStatus(s: Db, threshold: nat, id: JobId)
    requires Inv(s, threshold) && Idle(s, id)
    ensures StatusAt(s, threshold, id, s.now) == if s.jobs[id].streak >= threshold then CrashConcern else Ready
  {
    assert JobOk(s, threshold, id);
  }

  function OneSecond(j: Job, lease: LeaseId): WorkRequest {
    WorkRequest("w", {j.route.jobType}, {}, None, 1, lease)
  }

  /** A worker takes the job and dies: a second later it is idle again, one lease poorer. */
  lemma TakeAndDie(s: Db, threshold: nat, id: JobId, lease: LeaseId)
    requires Inv(s, threshold) && Idle(s, id) && s.jobs[id].streak < threshold && lease !in s.issued
    ensures var t := Apply(s, threshold, AcquireWork(id, OneSecond(s.jobs[id], lease)));
            var u := Apply(t, threshold, Tick(SECOND));
            && Grants(s, t, id) && !Grants(t, u, id) && Inv(u, threshold) && Idle(u, id)
            && Budget(u, threshold, id) == Budget(s, threshold, id) - 1
  {
    var req := OneSecond(s.jobs[id], lease);
    var t := Apply(s, threshold, AcquireWork(id, req));
    assert JobOk(s, threshold, id) && IdentityOk(s, id);
    IdleStatus(s, threshold, id);
    Tasks.ExpiryIsInvisible(s, threshold, id);
    assert Eligible(ExpireWaits(s), threshold, req, id);
    AcquireRows(s, threshold, req, id, id);
    StepInv(s, threshold, AcquireWork(id, req));
    TickOnly(t, threshold);
  }

  lemma TickOnly(t: Db, threshold: nat)
    requires Inv(t, threshold)
    ensures Apply(t, threshold, Tick(SECOND)) == t.(now := t.now + SECOND) && Inv(t.(now := t.now + SECOND), threshold)
  {
    StepInv(t, threshold, Tick(SECOND));
  }

  /** From any idle job and for every positive threshold, some run without a reset uses the
      budget up to the last lease and ends in CRASH_CONCERN. */
  lemma {:induction false} BudgetIsSpendable(s: Db, threshold: nat, id: JobId) returns (es: seq<Event>)
    requires Inv(s, threshold) && Idle(s, id) && threshold >= 1
    ensures forall e :: e in es ==> !Resets(e, id)
    ensures CountGrants(s, threshold, es, id) == Budget(s, threshold, id)
    ensures var t := Run(s, threshold, es); id in t.jobs && StatusAt(t, threshold, id, t.now) == CrashConcern
    decreases Budget(s, threshold, id)
  {
    assert JobOk(s, threshold, id);
    if s.jobs[id].streak >= threshold {
      es := [];
      IdleStatus(s, threshold, id);
    } else {
      var lease := FreshId(s.issued, 0);
      var e := AcquireWork(id, OneSecond(s.jobs[id], lease));
      TakeAndDie(s, threshold, id, lease);
      var t := Apply(s, threshold, e);
      var u := Apply(t, threshold, Tick(SECOND));
      var rest := BudgetIsSpendable(u, threshold, id);
      es := [e, Tick(SECOND)] + rest;
      assert es[0] == e && es[1..][0] == Tick(SECOND) && es[1..][1..] == rest;
      CountTwo(s, threshold, e, rest, id);
    }
  }

  lemma CountTwo(s: Db, threshold: nat, e: Event, rest: seq<Event>, id: JobId)
    ensures var es := [e, Tick(SECOND)] + rest;
            var t := Apply(s, threshold, e);
            var u := Apply(t, threshold, Tick(SECOND));
            && Run(s, threshold, es) == Run(u, threshold, rest)
            && CountGrants(s, threshold, es, id) == (if Grants(s, t, id) then 1 else 0) + (if Grants(t, u, id) then 1 else 0)
                                                   + CountGrants(u, threshold, rest, id)
  {
    var es := [e, Tick(SECOND)] + rest;
    assert es[0] == e && es[1..][0] == Tick(SECOND) && es[1..][1..] == rest;
  }
}
