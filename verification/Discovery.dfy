/** Goal and wait discovery over the scheduler's own tables. */
module Discovery {
  import opened Basics
  import opened Tables
  import opened Waits
  import opened Steps
  import opened Invariants
  import opened Rows
  import opened Orders
  import opened Pages
  import opened GoalQueries
  import Listings
  import OutcomeHistory

  // ---- Goals -------------------------------------------------------------------------------

  /** Everything the request describes; the first page starts past the empty id. */
  ghost function GoalsAsked(s: Db, tenant: string, req: GoalsRequest, at: Extract): set<GoalId> {
    set g | g in s.goals && Described(s, tenant, req, "", g, at)
  }

  lemma PastCursor(after: string, g: string)
    requires Lt(StringLe, after, g)
    ensures Lt(StringLe, "", g)
  {
  }

  /** What a page's query selects is what is left of the request past its cursor. */
  lemma GoalCursorExact(s: Db, tenant: string, req: GoalsRequest, after: GoalId, at: Extract)
    ensures (set g | g in s.goals && Described(s, tenant, req, after, g, at))
            == Remaining(StringLe, GoalsAsked(s, tenant, req, at), Some(after))
  {
    forall g | g in s.goals && Described(s, tenant, req, after, g, at) ensures Described(s, tenant, req, "", g, at) {
      PastCursor(after, g);
    }
  }

  /** Following the tokens of an unchanging database lists each described goal once, by id. */
  lemma GoalsListedOnce(s: Db, tenant: string, req: GoalsRequest, at: Extract, sizes: nat -> nat)
    requires forall j :: sizes(j) >= 1
    ensures TotalOrder(StringLe)
    ensures var all := Listing(StringLe, GoalsAsked(s, tenant, req, at), Some(""), sizes, 0);
            Elements(all) == GoalsAsked(s, tenant, req, at) && StrictlySorted(StringLe, all)
  {
    StringOrder();
    var m := GoalsAsked(s, tenant, req, at);
    ListsAll(StringLe, m, Some(""), sizes);
    assert Remaining(StringLe, m, Some("")) == m;
  }

  // ---- Waits ---------------------------------------------------------------------------------

  /** An empty consumer or state list restricts nothing. */
  datatype WaitsRequest = WaitsRequest(consumer: JobId, target: Option<Target>, states: seq<OutcomeState>)

  /** First stage: stored rows, narrowed by the subscription index. */
  predicate StoredMatch(s: Db, req: WaitsRequest, k: WaitKey) {
    && k in s.waits && (req.consumer == "" || k.job == req.consumer)
    && (req.target.Some? ==> s.waits[k].state == Pending && (k, req.target.value) in s.targets)
  }

  /** Second stage: the outcome evaluated at the time of the query. */
  predicate ProjectedMatch(s: Db, req: WaitsRequest, k: WaitKey)
    requires k in s.waits
  {
    var w := Project(s, k);
    && (req.target.Some? ==>
          w.state == Pending && exists b :: b in w.bindings && b.state == Pending && b.dependency.target == req.target.value)
    && (req.states == [] || w.state in req.states)
  }

  function Pair(k: WaitKey): (string, string) {
    (k.job, k.wait)
  }

  function TwoStage(s: Db, req: WaitsRequest): set<(string, string)> {
    set k | k in s.waits && StoredMatch(s, req, k) && ProjectedMatch(s, req, k) :: Pair(k)
  }

  /** The request's meaning: filter by what a reader of each wait would be told. */
  function WaitsAsked(s: Db, req: WaitsRequest): set<(string, string)> {
    set k | k in s.waits && (req.consumer == "" || k.job == req.consumer) && ProjectedMatch(s, req, k) :: Pair(k)
  }

  /** The index never hides a match: a wait a reader sees pending on a target is stored
      pending on it and subscribed to it. */
  lemma IndexFindsAll(s: Db, threshold: nat, req: WaitsRequest, k: WaitKey)
    requires Inv(s, threshold) && k in s.waits && (req.consumer == "" || k.job == req.consumer)
    requires ProjectedMatch(s, req, k)
    ensures StoredMatch(s, req, k)
  {
    if req.target.Some? {
      OutcomeHistory.ProjectionExact(s, threshold, k);
      var w := s.waits[k];
      assert Project(s, k) == w;
      assert req.target.value in PendingTargets(w);
      assert (k, req.target.value) in Subscriptions(s.waits);
    }
  }

  /** The two-stage query selects exactly the waits whose projected outcome matches. */
  lemma TwoStageExact(s: Db, threshold: nat, req: WaitsRequest)
    requires Inv(s, threshold)
    ensures TwoStage(s, req) == WaitsAsked(s, req)
  {
    forall p | p in WaitsAsked(s, req) ensures p in TwoStage(s, req) {
      var k :| k in s.waits && (req.consumer == "" || k.job == req.consumer) && ProjectedMatch(s, req, k) && Pair(k) == p;
      IndexFindsAll(s, threshold, req, k);
    }
    forall p | p in TwoStage(s, req) ensures p in WaitsAsked(s, req) {
      var k :| k in s.waits && StoredMatch(s, req, k) && ProjectedMatch(s, req, k) && Pair(k) == p;
    }
  }

  /** However many stored rows the second stage drops, expired ones say, a page is full
      while matches remain, and holds the first of them. */
  lemma WaitPageFull(s: Db, threshold: nat, req: WaitsRequest, after: (string, string), size: nat)
    requires Inv(s, threshold) && TotalOrder(Listings.WaitOrder())
    ensures var left := Remaining(Listings.WaitOrder(), WaitsAsked(s, req), Some(after));
            && |Page(Listings.WaitOrder(), TwoStage(s, req), Some(after), size)| == (if |left| < size then |left| else size)
            && Page(Listings.WaitOrder(), TwoStage(s, req), Some(after), size) == Take(Ordered(Listings.WaitOrder(), left), size)
  {
    TwoStageExact(s, threshold, req);
    PageIsFull(Listings.WaitOrder(), WaitsAsked(s, req), Some(after), size);
  }

  const FIRST: (string, string) := ("", "")

  lemma PastFirst(m: set<(string, string)>)
    ensures Remaining(Listings.WaitOrder(), m, Some(FIRST)) == m - {FIRST}
  {
    forall p: (string, string) ensures Listings.WaitOrder()(FIRST, p) {
      assert StringLe("", p.0) && StringLe("", p.1);
    }
  }

  /** The tokens of an unchanging database lead through every match past the empty key once,
      by consumer and wait. */
  lemma WaitsListedOnce(s: Db, threshold: nat, req: WaitsRequest, sizes: nat -> nat)
    requires Inv(s, threshold) && TotalOrder(Listings.WaitOrder()) && forall j :: sizes(j) >= 1
    ensures var all := Listing(Listings.WaitOrder(), TwoStage(s, req), Some(FIRST), sizes, 0);
            StrictlySorted(Listings.WaitOrder(), all) && Elements(all) == WaitsAsked(s, req) - {FIRST}
  {
    TwoStageExact(s, threshold, req);
    ListsAll(Listings.WaitOrder(), TwoStage(s, req), Some(FIRST), sizes);
    PastFirst(WaitsAsked(s, req));
  }

  // ---- The wait that blocks a job -----------------------------------------------------------------

  /** BlockingDependencyWait: the job's current wait, when a reader would see it pending. */
  function BlockingWait(s: Db, id: JobId): Option<Wait> {
    if id !in s.jobs || s.jobs[id].dependencyWait.None? then None
    else
      var k := WaitKey(id, s.jobs[id].dependencyWait.value);
      if k !in s.waits || Project(s, k).state != Pending then None else Some(Project(s, k))
  }

  /** The inspection call and the scheduler agree: a blocking wait is reported exactly while
      the status predicate holds the job back, and it is the stored one. */
  lemma BlockingWaitIff(s: Db, threshold: nat, id: JobId)
    requires Inv(s, threshold) && id in s.jobs
    ensures BlockingWait(s, id).Some? <==> WaitBlocks(s, id, s.jobs[id], s.now)
    ensures BlockingWait(s, id).Some? ==>
              BlockingWait(s, id).value == s.waits[WaitKey(id, s.jobs[id].dependencyWait.value)]
  {
    if s.jobs[id].dependencyWait.Some? {
      var k := WaitKey(id, s.jobs[id].dependencyWait.value);
      if k in s.waits {
        OutcomeHistory.ProjectionExact(s, threshold, k);
      }
    }
  }
}
