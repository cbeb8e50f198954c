/** Fencing: what holding a lease identity means over every run. */
module Leases {
  import opened Basics
  import opened RunPolicies
  import opened Tables
  import opened Waits
  import opened Steps
  import opened Invariants
  import opened Runs
  import opened Rows
  import opened Transitions

  /** One identity per job, one job per lease id. */
  lemma ExclusiveLease(s: Db, threshold: nat, a: JobId, la: LeaseId, wa: string, b: JobId, lb: LeaseId, wb: string)
    requires Inv(s, threshold) && Validates(s, a, la, wa) && Validates(s, b, lb, wb)
    ensures a == b <==> la == lb
    ensures a == b ==> wa == wb
  {
    assert LeasesApart(s, a, b);
  }

  /** An issued identity that does not validate stays dead through one transaction. */
  lemma DeadStep(s: Db, t: Db, threshold: nat, e: Event, id: JobId, lease: LeaseId, worker: string)
    requires Transition(s, t, threshold, e) && lease in s.issued && !Validates(s, id, lease, worker)
    ensures lease in t.issued && !Validates(t, id, lease, worker)
  {
    assert RowStep(s, t, threshold, e, id);
    if id in s.jobs {
      assert JobOk(s, threshold, id) && IdentityOk(s, id);
    }
  }

  /** An identity that stops validating never validates again, whatever is called and
      however late it is renewed. */
  lemma {:induction false} NeverAgain(s: Db, threshold: nat, es: seq<Event>, id: JobId, lease: LeaseId, worker: string)
    requires Inv(s, threshold) && lease in s.issued && !Validates(s, id, lease, worker)
    ensures !Validates(Run(s, threshold, es), id, lease, worker)
    decreases |es|
  {
    if es != [] {
      var t := Apply(s, threshold, es[0]);
      StepTransition(s, threshold, es[0]);
      DeadStep(s, t, threshold, es[0], id, lease, worker);
      NeverAgain(t, threshold, es[1..], id, lease, worker);
    }
  }

  lemma HeldIssued(s: Db, threshold: nat, id: JobId, lease: LeaseId, worker: string)
    requires Inv(s, threshold) && Validates(s, id, lease, worker)
    ensures lease in s.issued
  {
    assert JobOk(s, threshold, id);
  }

  lemma SnapshotStep(s: Db, t: Db, threshold: nat, e: Event, id: JobId, lease: LeaseId, worker: string)
    requires Transition(s, t, threshold, e) && Validates(s, id, lease, worker) && Validates(t, id, lease, worker)
    ensures SnapshotOf(t, id) == SnapshotOf(s, id)
  {
    HeldIssued(s, threshold, id, lease, worker);
    assert RowStep(s, t, threshold, e, id) && FactLater(s, t, id);
    assert JobOk(s, threshold, id) && IdentityOk(s, id);
  }

  /** Whatever happens around it, a holder that validates twice sees one snapshot:
      goal, policy, route, coordinates, payload and revision. */
  lemma {:induction false} SnapshotStable(s: Db, threshold: nat, es: seq<Event>, id: JobId, lease: LeaseId, worker: string)
    requires Inv(s, threshold) && Validates(s, id, lease, worker)
    requires Validates(Run(s, threshold, es), id, lease, worker)
    ensures SnapshotOf(Run(s, threshold, es), id) == SnapshotOf(s, id)
    decreases |es|
  {
    if es != [] {
      var t := Apply(s, threshold, es[0]);
      StepTransition(s, threshold, es[0]);
      HeldIssued(s, threshold, id, lease, worker);
      if !Validates(t, id, lease, worker) {
        NeverAgain(t, threshold, es[1..], id, lease, worker);
      }
      SnapshotStep(s, t, threshold, es[0], id, lease, worker);
      SnapshotStable(t, threshold, es[1..], id, lease, worker);
    }
  }

  // ---- Who can end a lease -------------------------------------------------------------------

  /** Calls that may end or move the lease: its own holder's, a cancellation, a deletion. */
  predicate Ends(e: Event, id: JobId, lease: LeaseId, worker: string) {
    match e
    case RenewLease(j, l, w, _) => j == id && l == lease && w == worker
    case RescheduleJob(j, l, w, _) => j == id && l == Some(lease) && w == worker
    case CompleteJob(j, l, w, _, _, _) => j == id && l == Some(lease) && w == worker
    case CancelJob(j, _, _) => j == id
    case DeleteJobs(_, order) => id in order
    case _ => false
  }

  /** Under a live lease the job answers no stranger, named or nameless. */
  lemma Fenced(s: Db, threshold: nat, e: Event, id: JobId, lease: LeaseId, worker: string)
    requires Validates(s, id, lease, worker) && !Ends(e, id, lease, worker)
    requires (e.RescheduleJob? || e.CompleteJob?) && e.job == id
    ensures Apply(s, threshold, e) == s
  {
  }

  lemma HolderStep(s: Db, threshold: nat, e: Event, id: JobId, lease: LeaseId, worker: string)
    requires Inv(s, threshold) && Validates(s, id, lease, worker) && !Ends(e, id, lease, worker)
    requires Apply(s, threshold, e).now < s.jobs[id].lease.value.expiresAt
    ensures Validates(Apply(s, threshold, e), id, lease, worker)
    ensures Apply(s, threshold, e).jobs[id].lease == s.jobs[id].lease
  {
    var t := Apply(s, threshold, e);
    if (e.RescheduleJob? || e.CompleteJob?) && e.job == id {
      Fenced(s, threshold, e, id, lease, worker);
    } else {
      StepTransition(s, threshold, e);
      HolderKeeps(s, t, threshold, e, id, lease, worker);
    }
  }

  lemma HolderKeeps(s: Db, t: Db, threshold: nat, e: Event, id: JobId, lease: LeaseId, worker: string)
    requires Transition(s, t, threshold, e) && Validates(s, id, lease, worker) && !Ends(e, id, lease, worker)
    requires !((e.RescheduleJob? || e.CompleteJob?) && e.job == id)
    requires t.now < s.jobs[id].lease.value.expiresAt
    ensures Validates(t, id, lease, worker) && t.jobs[id].lease == s.jobs[id].lease
  {
    assert RowStep(s, t, threshold, e, id) && FactLater(s, t, id);
    assert JobOk(s, threshold, id) && IdentityOk(s, id);
  }

  /** Nobody steals work: a lease its holder leaves alone, on a job nobody cancels or
      deletes, validates exactly until it expires. */
  lemma {:induction false} ValidUntilExpiry(s: Db, threshold: nat, es: seq<Event>, id: JobId, lease: LeaseId, worker: string)
    requires Inv(s, threshold) && Validates(s, id, lease, worker)
    requires forall e :: e in es ==> !Ends(e, id, lease, worker)
    ensures Validates(Run(s, threshold, es), id, lease, worker) <==> Run(s, threshold, es).now < s.jobs[id].lease.value.expiresAt
    decreases |es|
  {
    if es != [] {
      var t := Apply(s, threshold, es[0]);
      StepTransition(s, threshold, es[0]);
      HeldIssued(s, threshold, id, lease, worker);
      assert es[0] in es;
      if t.now < s.jobs[id].lease.value.expiresAt {
        HolderStep(s, threshold, es[0], id, lease, worker);
        ValidUntilExpiry(t, threshold, es[1..], id, lease, worker);
      } else {
        RunLater(t, threshold, es[1..]);
        ExpiredDies(s, t, threshold, es[0], id, lease, worker);
        NeverAgain(t, threshold, es[1..], id, lease, worker);
      }
    }
  }

  lemma ExpiredDies(s: Db, t: Db, threshold: nat, e: Event, id: JobId, lease: LeaseId, worker: string)
    requires Transition(s, t, threshold, e) && Validates(s, id, lease, worker) && !Ends(e, id, lease, worker)
    requires t.now >= s.jobs[id].lease.value.expiresAt
    ensures !Validates(t, id, lease, worker) && lease in t.issued
  {
    HeldIssued(s, threshold, id, lease, worker);
    assert RowStep(s, t, threshold, e, id);
  }

  /** A renewal moves the expiry to now plus the request, which is earlier than before
      exactly when the request is shorter than what was left. */
  lemma RenewalReplaces(s: Db, threshold: nat, id: JobId, lease: LeaseId, worker: string, seconds: int)
    requires Inv(s, threshold)
    ensures Renew(s, id, lease, worker, seconds).Ok? <==> Validates(s, id, lease, worker) && 1 <= seconds <= DAY
    ensures Renew(s, id, lease, worker, seconds).Ok? ==>
      && var t := Renew(s, id, lease, worker, seconds).value;
      && Validates(t, id, lease, worker) && SnapshotOf(t, id) == SnapshotOf(s, id)
      && t.jobs[id].lease.value.expiresAt == s.now + seconds * SECOND
      && (t.jobs[id].lease.value.expiresAt < s.jobs[id].lease.value.expiresAt
          <==> seconds * SECOND < s.jobs[id].lease.value.expiresAt - s.now)
  {
    if id in s.jobs {
      assert JobOk(s, threshold, id) && IdentityOk(s, id);
    }
  }

  // ---- Requested durations ----------------------------------------------------------------------

  const NANOS: int := 1_000_000_000
  const DAY: int := 86400

  /** leaseSeconds: whole seconds that cover the request, a minute when none is made. */
  function LeaseSeconds(nanos: int): (r: Result<int>)
    ensures r.Ok? <==> 0 <= nanos <= DAY * NANOS
    ensures r.Ok? ==> 1 <= r.value <= DAY
    ensures r.Ok? && nanos == 0 ==> r.value == 60
    ensures r.Ok? && nanos > 0 ==> (r.value - 1) * NANOS < nanos <= r.value * NANOS
  {
    if nanos == 0 then Ok(60)
    else if nanos < 0 || nanos > DAY * NANOS then Err("lease duration must be between 1 second and 24 hours")
    else Ok((nanos + NANOS - 1) / NANOS)
  }
}
