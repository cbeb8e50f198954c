/** Listing what could be leased against leasing it. */
module AvailableRoutes {
  import opened Basics
  import opened RunPolicies
  import opened Tables
  import opened Waits
  import opened Steps
  import opened Invariants
  import opened Preservation
  import opened Runs
  import opened Rows
  import Tasks

  /** A route selector; the empty task type selects job work. */
  datatype Route = Route(jobType: string, taskType: string)

  function TaskName(t: Option<string>): string {
    if t.None? then "" else t.value
  }

  /** The available-route condition of the compact job list, for one visible active row. */
  predicate Listed(s: Db, threshold: nat, routes: set<Route>, id: JobId) {
    && id in s.jobs && id in s.facts && s.facts[id].hiddenAt.None?
    && StatusAt(s, threshold, id, s.now) == Ready
    && var e := Effective(s.jobs[id], s.now);
       Route(e.jobType, TaskName(e.taskType)) in routes
  }

  function JobTypes(routes: set<Route>): set<string> {
    set r | r in routes && r.taskType == "" :: r.jobType
  }

  function TaskTypes(routes: set<Route>): set<(string, string)> {
    set r | r in routes && r.taskType != "" :: (r.jobType, r.taskType)
  }

  /** The effective route carries a nonempty task type exactly when it is task work. */
  lemma EffectiveShape(j: Job, now: Time, issued: set<LeaseId>)
    requires RowOk(j, issued)
    ensures var e := Effective(j, now);
            if e.kind == TaskKind then e.taskType.Some? && e.taskType.value != "" else e.taskType.None?
  {
  }

  lemma SelectsIff(j: Job, now: Time, issued: set<LeaseId>, routes: set<Route>, req: WorkRequest)
    requires RowOk(j, issued) && req.jobTypes == JobTypes(routes) && req.tasks == TaskTypes(routes)
    ensures var e := Effective(j, now);
            Selects(req, e) <==> Route(e.jobType, TaskName(e.taskType)) in routes
  {
    var e := Effective(j, now);
    EffectiveShape(j, now, issued);
    if e.kind == TaskKind {
      assert Route(e.jobType, e.taskType.value) in routes ==> (e.jobType, e.taskType.value) in TaskTypes(routes);
    } else {
      assert Route(e.jobType, "") in routes ==> e.jobType in JobTypes(routes);
    }
  }

  /** A job is listed under a set of routes exactly when a targeted acquisition with those
      routes would lease it at that instant, on the effective route the listing looked at. */
  lemma ListedIffLeased(s: Db, threshold: nat, routes: set<Route>, id: JobId, req: WorkRequest)
    requires Inv(s, threshold) && ValidWorkRequest(req) && req.accepts.None? && req.leaseId !in s.issued
    requires req.jobTypes == JobTypes(routes) && req.tasks == TaskTypes(routes)
    ensures var t := Apply(s, threshold, AcquireWork(id, req));
            && (Listed(s, threshold, routes, id) <==> Validates(t, id, req.leaseId, req.worker))
            && (Listed(s, threshold, routes, id) ==>
                  var e, l := Effective(s.jobs[id], s.now), t.jobs[id].lease.value;
                  && l.jobType == e.jobType && l.kind == e.kind && l.taskType == e.taskType
                  && l.expiresAt == s.now + req.seconds * SECOND)
  {
    if id in s.jobs {
      assert JobOk(s, threshold, id) && IdentityOk(s, id);
      SelectsIff(s.jobs[id], s.now, s.issued, routes, req);
      Tasks.ExpiryIsInvisible(s, threshold, id);
      AcquireRows(s, threshold, req, id, id);
    }
  }
}
