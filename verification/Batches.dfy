/** The adapter's batching loop, interleaved with everybody else's calls. */
module Batches {
  import opened Basics
  import opened RunPolicies
  import opened Tables
  import opened Waits
  import opened Steps
  import opened Invariants
  import opened Runs
  import opened Transitions
  import opened Rows
  import Leases

  /** What happens around one GetWork call: other transactions first, then the row the
      database picks and the lease id it draws. */
  datatype Round = Round(before: seq<Event>, pick: JobId, leaseId: LeaseId)

  datatype Grant = Grant(job: JobId, lease: LeaseId, policy: Policy)

  /** Every grant was issued, and of two grants on one job only the later can be alive. */
  ghost predicate Apart(s: Db, worker: string, gs: seq<Grant>) {
    && (forall i :: 0 <= i < |gs| ==> gs[i].lease in s.issued)
    && forall i, j :: 0 <= i < j < |gs| && gs[i].job == gs[j].job ==> !Validates(s, gs[i].job, gs[i].lease, worker)
  }

  lemma {:induction false} ApartRun(s: Db, threshold: nat, es: seq<Event>, worker: string, gs: seq<Grant>)
    requires Inv(s, threshold) && Apart(s, worker, gs)
    ensures Inv(Run(s, threshold, es), threshold) && Apart(Run(s, threshold, es), worker, gs)
  {
    RunLater(s, threshold, es);
    forall i, j | 0 <= i < j < |gs| && gs[i].job == gs[j].job
      ensures !Validates(Run(s, threshold, es), gs[i].job, gs[i].lease, worker)
    {
      Leases.NeverAgain(s, threshold, es, gs[i].job, gs[i].lease, worker);
    }
  }

  lemma Granted(s: Db, threshold: nat, req: WorkRequest, id: JobId)
    requires Inv(s, threshold) && ValidWorkRequest(req) && req.leaseId !in s.issued
    requires Eligible(ExpireWaits(s), threshold, req, id)
    ensures var t := Apply(s, threshold, AcquireWork(id, req));
            && Inv(t, threshold) && t.issued == s.issued + {req.leaseId}
            && Validates(t, id, req.leaseId, req.worker)
  {
    StepInv(s, threshold, AcquireWork(id, req));
    assert JobOk(ExpireWaits(s), threshold, id) by {
      assert ExpireWaits(s).jobs == s.jobs && JobOk(s, threshold, id);
    }
  }

  /** Taking a further grant on a job ends every earlier one in the batch. */
  lemma ApartGrow(s: Db, threshold: nat, req: WorkRequest, id: JobId, gs: seq<Grant>, g: Grant)
    requires Inv(s, threshold) && ValidWorkRequest(req) && req.leaseId !in s.issued
    requires Eligible(ExpireWaits(s), threshold, req, id)
    requires Apart(s, req.worker, gs) && g.job == id && g.lease == req.leaseId
    ensures Apart(Apply(s, threshold, AcquireWork(id, req)), req.worker, gs + [g])
  {
    var t := Apply(s, threshold, AcquireWork(id, req));
    Granted(s, threshold, req, id);
    ApartRun(s, threshold, [AcquireWork(id, req)], req.worker, gs);
    var all := gs + [g];
    forall i, j | 0 <= i < j < |all| && all[i].job == all[j].job
      ensures !Validates(t, all[i].job, all[i].lease, req.worker)
    {
      if j == |gs| && Validates(t, id, all[i].lease, req.worker) {
        Leases.ExclusiveLease(t, threshold, id, all[i].lease, req.worker, id, g.lease, req.worker);
      }
    }
  }

  lemma EarlierAreDead(s: Db, threshold: nat, worker: string, gs: seq<Grant>)
    requires Inv(s, threshold) && Apart(s, worker, gs)
    ensures forall es, i, j :: 0 <= i < j < |gs| && gs[i].job == gs[j].job ==>
              !Validates(Run(s, threshold, es), gs[i].job, gs[i].lease, worker)
  {
    forall es ensures Apart(Run(s, threshold, es), worker, gs) {
      ApartRun(s, threshold, es, worker, gs);
    }
  }

  /** Scheduler.AcquireWork. At no later moment are two of its leases on one job alive,
      even when a lease of the batch expired while the batch was still being filled. */
  method AcquireBatch(start: Db, threshold: nat, req: WorkRequest, limit: int, rounds: seq<Round>)
    returns (s: Db, trace: seq<Event>, batch: Result<seq<Grant>>)
    requires Inv(start, threshold) && |rounds| >= limit && |rounds| >= 1
    ensures s == Run(start, threshold, trace) && Inv(s, threshold)
    ensures batch.Ok? ==> |batch.value| <= if limit <= 0 then 1 else limit
    ensures batch.Ok? ==> forall es, i, j :: 0 <= i < j < |batch.value| && batch.value[i].job == batch.value[j].job ==>
              !Validates(Run(s, threshold, es), batch.value[i].job, batch.value[i].lease, req.worker)
    ensures batch.Err? && ValidWorkRequest(req) ==>
              exists id :: id in s.jobs && id in s.facts && !InRange(s.facts[id].policy)
                           && s.jobs[id].lease.Some? && s.jobs[id].lease.value.worker == req.worker
    ensures !ValidWorkRequest(req) ==> batch.Err? && s == start
  {
    s, trace := start, [];
    if !ValidWorkRequest(req) {
      batch := Err("invalid work request");
      return;
    }
    var size := if limit <= 0 then 1 else limit;
    var got: seq<Grant> := [];
    while |got| < size
      invariant |got| <= size && s == Run(start, threshold, trace) && Inv(s, threshold)
      invariant Apart(s, req.worker, got)
      decreases size - |got|
    {
      var round := rounds[|got|];
      ApartRun(s, threshold, round.before, req.worker, got);
      RunConcat(start, threshold, trace, round.before);
      s, trace := Run(s, threshold, round.before), trace + round.before;
      var call := req.(leaseId := round.leaseId);
      var e := AcquireWork(round.pick, call);
      RunConcat(start, threshold, trace, [e]);
      assert Run(s, threshold, [e]) == Apply(s, threshold, e);
      if call.leaseId in s.issued || !Eligible(ExpireWaits(s), threshold, call, round.pick) {
        ApartRun(s, threshold, [e], req.worker, got);
        s, trace := Apply(s, threshold, e), trace + [e];
        break;
      }
      Granted(s, threshold, call, round.pick);
      ghost var before := s;
      s, trace := Apply(s, threshold, e), trace + [e];
      match FromStored(s.facts[round.pick].policy) {
        case Err(m) =>
          batch := Err(m);
          return;
        case Ok(policy) =>
          var g := Grant(round.pick, call.leaseId, policy);
          ApartGrow(before, threshold, call, round.pick, got, g);
          got := got + [g];
      }
    }
    EarlierAreDead(s, threshold, req.worker, got);
    batch := Ok(got);
  }
}
