/** The orders the listings page by, and what a client walking their tokens can rely on. */
module Listings {
  import opened Basics
  import opened Orders
  import opened Pages

  type Time = int
  type JobKey = (Time, (string, string))
  type ScheduleKey = (Time, string)

  /** ORDER BY created_at DESC, tenant_id DESC, job_id DESC. */
  function JobOrder(): (JobKey, JobKey) -> bool {
    Reverse(Lex(IntLe, Lex(StringLe, StringLe)))
  }

  /** ORDER BY updated_at DESC, schedule_id DESC; scheduled_at and job_id for runs. */
  function ScheduleOrder(): (ScheduleKey, ScheduleKey) -> bool {
    Reverse(Lex(IntLe, StringLe))
  }

  /** ORDER BY job_id, wait_id. */
  function WaitOrder(): ((string, string), (string, string)) -> bool {
    Lex(StringLe, StringLe)
  }

  lemma ListingOrders()
    ensures TotalOrder(JobOrder()) && TotalOrder(ScheduleOrder()) && TotalOrder(WaitOrder()) && TotalOrder(StringLe)
  {
    IntOrder();
    StringOrder();
    LexOrder(StringLe, StringLe);
    LexOrder(IntLe, Lex(StringLe, StringLe));
    ReverseOrder(Lex(IntLe, Lex(StringLe, StringLe)));
    LexOrder(IntLe, StringLe);
    ReverseOrder(Lex(IntLe, StringLe));
  }

  /** A page size between 1 and 200; 0 asks for the default of 100. */
  function JobPageSize(requested: int): (r: Result<nat>)
    ensures r.Ok? ==> 1 <= r.value <= 200
    ensures r.Ok? <==> 0 <= requested <= 200
    ensures r.Ok? ==> r.value == if requested == 0 then 100 else requested
  {
    if requested == 0 then Ok(100)
    else if requested < 1 || requested > 200 then Err("job page size must be between 1 and 200")
    else Ok(requested)
  }

  lemma NewestFirst(a: JobKey, b: JobKey)
    requires Lt(JobOrder(), a, b)
    ensures b.0 <= a.0
  {
    assert Lex(IntLe, Lex(StringLe, StringLe))(b, a);
  }

  /** A job list over an unchanging database: every match once, newest first, for any page sizes. */
  lemma JobListComplete(m: set<JobKey>, sizes: nat -> nat)
    requires forall j :: sizes(j) >= 1
    ensures TotalOrder(JobOrder())
    ensures var all := Listing(JobOrder(), m, None, sizes, 0);
            && |all| == |m| && Elements(all) == m && StrictlySorted(JobOrder(), all)
            && forall i, j :: 0 <= i < j < |all| ==> all[j].0 <= all[i].0
  {
    ListingOrders();
    ListsAll(JobOrder(), m, None, sizes);
    assert Remaining(JobOrder(), m, None) == m;
    Descending(Listing(JobOrder(), m, None, sizes, 0));
  }

  lemma Descending(all: seq<JobKey>)
    requires StrictlySorted(JobOrder(), all)
    ensures forall i, j :: 0 <= i < j < |all| ==> all[j].0 <= all[i].0
  {
    forall i, j | 0 <= i < j < |all| ensures all[j].0 <= all[i].0 { NewestFirst(all[i], all[j]); }
  }

  /** Creation times are immutable facts of a job. */
  ghost predicate CreatedBy(created: ((string, string)) -> Time, states: seq<set<JobKey>>) {
    forall i, k :: 0 <= i < |states| && k in states[i] ==> k.0 == created(k.1)
  }

  /** Jobs may be inserted, removed, hidden or change status between requests: a walk lists
      no job twice, and a finished walk lists every job that matched at each request. */
  lemma JobWalk(created: ((string, string)) -> Time, states: seq<set<JobKey>>, sizes: seq<nat>,
                pages: seq<seq<JobKey>>, cursors: seq<Option<JobKey>>)
    requires TotalOrder(JobOrder()) && Walk(JobOrder(), states, sizes, pages, cursors) && CreatedBy(created, states)
    requires |states| > 0 && cursors[0].None?
    ensures Reliable((k: JobKey) => k.1, states, pages, cursors[|states|].None?)
  {
    WalkReliable(JobOrder(), (k: JobKey) => k.1, states, sizes, pages, cursors);
  }

  /** One row per schedule, and an update only ever moves it to a later time. */
  ghost predicate UpdatedForward(states: seq<set<ScheduleKey>>) {
    && (forall i, a, b :: 0 <= i < |states| && a in states[i] && b in states[i] && a.1 == b.1 ==> a == b)
    && (forall i, j, a, b :: 0 <= i < j < |states| && a in states[i] && b in states[j] && a.1 == b.1 ==> a.0 <= b.0)
  }

  lemma UpdatedBehind(a: ScheduleKey, b: ScheduleKey)
    requires a.0 <= b.0 && a.1 == b.1
    ensures ScheduleOrder()(b, a)
  {
    StringRefl(a.1);
    var le := Lex(IntLe, StringLe);
    assert IntLe(a.0, b.0) && StringLe(a.1, b.1);
    assert le(a, b);
  }

  /** The schedule listing pages by a key that moves, yet never lists a schedule twice; the
      ones nobody updates during the walk are all listed. Schedule runs, whose scheduled time
      is a fact of the job, are the case in which no key moves. */
  lemma ScheduleWalk(states: seq<set<ScheduleKey>>, sizes: seq<nat>,
                     pages: seq<seq<ScheduleKey>>, cursors: seq<Option<ScheduleKey>>)
    requires TotalOrder(ScheduleOrder()) && Walk(ScheduleOrder(), states, sizes, pages, cursors) && UpdatedForward(states)
    requires |states| > 0 && cursors[0].None?
    ensures Reliable((k: ScheduleKey) => k.1, states, pages, cursors[|states|].None?)
  {
    var who := (k: ScheduleKey) => k.1;
    forall i, j, a, b | 0 <= i < j < |states| && a in states[i] && b in states[j] && who(a) == who(b)
      ensures ScheduleOrder()(b, a)
    {
      UpdatedBehind(a, b);
    }
    WalkReliable(ScheduleOrder(), who, states, sizes, pages, cursors);
  }

  /** A schedule that is there, under one id, at every request. */
  ghost predicate ScheduleFollowed(states: seq<set<ScheduleKey>>, keys: seq<ScheduleKey>, id: string) {
    |keys| == |states| && forall i :: 0 <= i < |keys| ==> keys[i] in states[i] && keys[i].1 == id
  }

  /** Its id is on some page. */
  ghost predicate ScheduleListed(pages: seq<seq<ScheduleKey>>, id: string) {
    exists i, k :: 0 <= i < |pages| && k in pages[i] && k.1 == id
  }

  lemma ScheduleListedAt(states: seq<set<ScheduleKey>>, sizes: seq<nat>, pages: seq<seq<ScheduleKey>>,
                         cursors: seq<Option<ScheduleKey>>, keys: seq<ScheduleKey>, id: string)
    requires TotalOrder(ScheduleOrder()) && Walk(ScheduleOrder(), states, sizes, pages, cursors) && UpdatedForward(states)
    requires ScheduleFollowed(states, keys, id)
    ensures ScheduleListed(pages, id) <==> exists i :: ListedAt(pages, keys, i)
  {
    if ScheduleListed(pages, id) {
      var i, k :| 0 <= i < |pages| && k in pages[i] && k.1 == id;
      assert WalkStep(ScheduleOrder(), states[i], sizes[i], pages[i], cursors[i], cursors[i + 1]);
      PageExact(ScheduleOrder(), states[i], cursors[i], sizes[i], k);
      assert k == keys[i];
      assert ListedAt(pages, keys, i);
    }
    if i: nat :| ListedAt(pages, keys, i) {
      assert keys[i] in pages[i] && keys[i].1 == id;
    }
  }

  /** A schedule present throughout a finished walk is listed exactly when no update moved it
      past the cursor between two requests while its page was still to come. */
  lemma ScheduleListedIff(states: seq<set<ScheduleKey>>, sizes: seq<nat>, pages: seq<seq<ScheduleKey>>,
                          cursors: seq<Option<ScheduleKey>>, keys: seq<ScheduleKey>, id: string)
    requires TotalOrder(ScheduleOrder()) && Walk(ScheduleOrder(), states, sizes, pages, cursors) && UpdatedForward(states)
    requires ScheduleFollowed(states, keys, id) && |states| > 0 && cursors[0].None? && cursors[|states|].None?
    ensures ScheduleListed(pages, id) <==> forall j :: !Jumped(ScheduleOrder(), cursors, keys, j)
  {
    var le := ScheduleOrder();
    forall i, j | 0 <= i < j < |keys| ensures le(keys[j], keys[i]) { UpdatedBehind(keys[i], keys[j]); }
    ListedIffNeverJumped(le, states, sizes, pages, cursors, keys);
    ScheduleListedAt(states, sizes, pages, cursors, keys, id);
  }

  /** An update between two requests can hide a schedule from the whole walk: it moves in
      front of the cursor before its page comes. */
  lemma ScheduleSkipped(a: string, b: string)
    requires a != b
    ensures TotalOrder(ScheduleOrder())
    ensures var states := [{(2, a), (1, b)}, {(2, a), (3, b)}];
            && UpdatedForward(states)
            && Walk(ScheduleOrder(), states, [1, 1], [[(2, a)], []], [None, Some((2, a)), None])
  {
    ListingOrders();
    FirstPage(a, b);
    SecondPage(a, b);
    TwoRequests({(2, a), (1, b)}, {(2, a), (3, b)}, [(2, a)], [], (2, a));
  }

  lemma TwoRequests(m: set<ScheduleKey>, n: set<ScheduleKey>, page: seq<ScheduleKey>, last: seq<ScheduleKey>, c: ScheduleKey)
    requires TotalOrder(ScheduleOrder())
    requires WalkStep(ScheduleOrder(), m, 1, page, None, Some(c)) && WalkStep(ScheduleOrder(), n, 1, last, Some(c), None)
    ensures Walk(ScheduleOrder(), [m, n], [1, 1], [page, last], [None, Some(c), None])
  {
  }

  lemma FirstPage(a: string, b: string)
    requires TotalOrder(ScheduleOrder())
    ensures WalkStep(ScheduleOrder(), {(2, a), (1, b)}, 1, [(2, a)], None, Some((2, a)))
  {
    var le := ScheduleOrder();
    var m: set<ScheduleKey> := {(2, a), (1, b)};
    var rows: seq<ScheduleKey> := [(2, a), (1, b)];
    assert Remaining(le, m, None) == m;
    OrderedIs(le, m);
    assert rows[0] == (2, a) && rows[1] == (1, b);
    assert Elements(rows) == m;
    assert Lex(IntLe, StringLe)((1, b), (2, a));
    assert StrictlySorted(le, rows);
    StrictUnique(le, Ordered(le, m), rows);
    assert rows[..1] == [(2, a)];
  }

  lemma SecondPage(a: string, b: string)
    requires TotalOrder(ScheduleOrder()) && a != b
    ensures WalkStep(ScheduleOrder(), {(2, a), (3, b)}, 1, [], Some((2, a)), None)
  {
    assert !Lex(IntLe, StringLe)((3, b), (2, a));
    assert Remaining(ScheduleOrder(), {(2, a), (3, b)}, Some((2, a))) == {};
  }
}
