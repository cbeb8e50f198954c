/** Deletion hides identities; it never rewrites what already happened. */
module Deletion {
  import opened Basics
  import opened RunPolicies
  import opened Tables
  import opened Waits
  import opened Steps
  import opened Invariants
  import opened Preservation
  import opened Runs
  import opened Rows
  import opened Transitions
  import Databases
  import Graph

  /** Nanoseconds in one microsecond of the stored clock. */
  const MICROSECOND: int := 1000

  /** The exclusive cutoff in whole microseconds that DeleteJobs sends: a stored row lies
      strictly before the nanosecond cutoff exactly when it lies before the rounded one. */
  method RoundCutoff(nanos: int) returns (micros: int)
    ensures forall stored: Time :: stored < micros <==> stored * MICROSECOND < nanos
  {
    micros := nanos / MICROSECOND;
    if micros * MICROSECOND < nanos {
      micros := micros + 1;
    }
  }

  lemma DeleteOneEffect(s: Db, id: JobId, at: Time, x: JobId)
    requires x in s.facts
    ensures var t := DeleteOne(s, id, at);
            && x in t.facts
            && t.facts[x] == if x == id && s.facts[x].hiddenAt.None? then s.facts[x].(hiddenAt := Some(at)) else s.facts[x]
  {
  }

  /** Exactly the listed visible identities become hidden, at the time of the call. */
  lemma {:induction false} DeleteAllEffect(s: Db, order: seq<JobId>, at: Time, x: JobId)
    requires x in s.facts
    ensures var t := DeleteAll(s, order, at);
            && x in t.facts
            && t.facts[x] == if x in order && s.facts[x].hiddenAt.None? then s.facts[x].(hiddenAt := Some(at)) else s.facts[x]
    decreases |order|
  {
    if order != [] {
      DeleteOneEffect(s, order[0], at, x);
      DeleteAllEffect(DeleteOne(s, order[0], at), order[1..], at, x);
    }
  }

  /** What a deletion reports: its matches, counted the same with and without dry run. */
  function Matched(s: Db, req: DeleteRequest): nat {
    |Selected(s, req)|
  }

  lemma {:induction false} EnumerationSize(order: seq<JobId>, chosen: set<JobId>)
    requires Enumerates(order, chosen)
    ensures |order| == |chosen|
    decreases |order|
  {
    if order == [] {
      assert chosen == {};
    } else {
      var x, rest := order[0], order[1..];
      assert x in order;
      forall j | j in chosen - {x} ensures j in rest { assert j in order; }
      forall j | j in rest ensures j in chosen - {x} { assert j in order; }
      EnumerationSize(rest, chosen - {x});
    }
  }

  /** A committed deletion hides its whole selection and nothing else, changes no other fact,
      keeps every outcome already archived, counts what the dry run counts, and leaves
      nothing for a repetition to match. */
  lemma DeletionExact(s: Db, threshold: nat, req: DeleteRequest, order: seq<JobId>)
    requires Inv(s, threshold) && Delete(s, req, order).Ok?
    ensures var t := Delete(s, req, order).value;
            && |order| == Matched(s, req) && Matched(t, req) == 0
            && Inv(t, threshold) && Later(s, t)
            && t.facts.Keys == s.facts.Keys
            && (forall j :: j in s.facts ==>
                  t.facts[j] == if j in Selected(s, req) then s.facts[j].(hiddenAt := Some(req.at)) else s.facts[j])
            && (forall j :: j in Selected(s, req) ==> j !in t.jobs && j in t.archive)
            && (forall j :: j in Selected(s, req) && j in s.jobs ==> t.archive[j].status == Cancelled)
            && (forall j :: j in s.jobs && j !in Selected(s, req) ==> j in t.jobs)
  {
    var t := Delete(s, req, order).value;
    EnumerationSize(order, Selected(s, req));
    DeleteAllInv(s, threshold, order, req.at);
    DeleteAllLater(s, threshold, order, req.at);
    DeleteAllFacts(s, order, req.at);
    forall j | j in s.facts
      ensures t.facts[j] == if j in Selected(s, req) then s.facts[j].(hiddenAt := Some(req.at)) else s.facts[j]
    {
      DeleteAllEffect(s, order, req.at, j);
    }
    assert Selected(t, req) == {};
    forall j | j in t.jobs ensures j !in t.archive { assert JobOk(t, threshold, j); }
    forall j | j in Selected(s, req) ensures j !in t.jobs && j in t.archive { assert IdentityOk(t, j); }
    forall j | j in s.jobs ensures j !in s.archive { assert JobOk(s, threshold, j); }
    DeleteAllOthers(s, threshold, order, req.at);
    forall j | j in s.jobs && j !in Selected(s, req) ensures j in t.jobs {
      DeleteAllPresence(s, order, req.at, j);
    }
  }

  /** An invalid selection deletes nothing; a deletion happens whole or not at all. */
  lemma DeletionAtomic(s: Db, threshold: nat, req: DeleteRequest, order: seq<JobId>)
    requires Inv(s, threshold)
    ensures var t := Apply(s, threshold, DeleteJobs(req, order));
            t == s || Matched(t, req) == 0
    ensures !ValidDelete(req) ==> Apply(s, threshold, DeleteJobs(req, order)) == s
  {
    if Delete(s, req, order).Ok? {
      DeletionExact(s, threshold, req, order);
    }
  }

  /** A deleted job has no more children: in every continuation its family is the one it had. */
  lemma {:induction false} DeletedHasNoNewChild(s: Db, threshold: nat, es: seq<Event>, parent: JobId, child: JobId)
    requires Inv(s, threshold) && parent in s.facts && s.facts[parent].hiddenAt.Some?
    requires child in Run(s, threshold, es).facts && Run(s, threshold, es).facts[child].parent == Some(parent)
    ensures child in s.facts
    decreases |es|
  {
    if es != [] {
      var t := Apply(s, threshold, es[0]);
      StepTransition(s, threshold, es[0]);
      assert FactLater(s, t, parent);
      DeletedHasNoNewChild(t, threshold, es[1..], parent, child);
      RunLater(t, threshold, es[1..]);
      assert FactLater(t, Run(t, threshold, es[1..]), child) && RowStep(s, t, threshold, es[0], child);
    }
  }

  // ---- The deletion call -------------------------------------------------------------------------

  /** Go's zero time in nanoseconds of the Unix epoch. */
  const ZERO_TIME: int := -62135596800 * 1_000_000_000

  /** A visible job lies in the intersection of the given selectors; the cutoff is exclusive and
      in nanoseconds. */
  predicate Asked(f: Facts, id: JobId, ids: seq<JobId>, createdBefore: Option<int>, accepts: Option<set<string>>) {
    && f.hiddenAt.None?
    && (ids == [] || id in ids)
    && (createdBefore.Some? ==> f.createdAt * MICROSECOND < createdBefore.value)
    && (accepts.Some? ==> f.metadata in accepts.value)
  }

  lemma SelectedAsAsked(s: Db, req: DeleteRequest, ids: seq<JobId>, createdBefore: Option<int>)
    requires req.ids == set id | id in ids
    requires req.cutoff.Some? <==> createdBefore.Some?
    requires req.cutoff.Some? ==> forall stored: Time :: stored < req.cutoff.value <==> stored * MICROSECOND < createdBefore.value
    ensures req.ids == {} <==> ids == []
    ensures Selected(s, req) == set j | j in s.facts && Asked(s.facts[j], j, ids, createdBefore, req.accepts)
  {
    assert req.ids == {} <==> ids == [] by {
      if ids != [] { assert ids[0] in req.ids; }
    }
  }

  /** DeleteJobs from its checks to the committed deletion: refused unless it names either
      selectors or everything, then exactly the jobs asked for are counted and, except on a dry
      run, cancelled if active and hidden at the time of the call; all others stay as they were. */
  method HideAsked(db: Databases.Database, threshold: nat, ids: seq<JobId>, createdBefore: Option<int>,
                    accepts: Option<set<string>>, all: bool, dryRun: bool, at: Time)
    returns (ok: bool, matched: nat, deleted: nat)
    requires Inv(db.View(), threshold)
    modifies db
    ensures ok <==> all != (ids != [] || createdBefore.Some? || accepts.Some?) && "" !in ids && createdBefore != Some(ZERO_TIME)
    ensures !ok || dryRun ==> db.View() == old(db.View())
    ensures var s := old(db.View());
            ok ==> matched == |set j | j in s.facts && Asked(s.facts[j], j, ids, createdBefore, accepts)|
    ensures deleted == if ok && !dryRun then matched else 0
    ensures var s, t := old(db.View()), db.View();
            ok && !dryRun ==> Hidden(s, t, ids, createdBefore, accepts, at) && Inv(t, threshold) && Later(s, t)
  {
    matched, deleted := 0, 0;
    if all == (ids != [] || createdBefore.Some? || accepts.Some?) { return false, 0, 0; }
    var chosen, cutoff;
    ok, chosen, cutoff := Selectors(ids, createdBefore);
    if !ok { return; }
    var req := DeleteRequest(chosen, cutoff, accepts, all, at);
    ghost var before := db.View();
    SelectedAsAsked(before, req, ids, createdBefore);
    ghost var order: seq<JobId>;
    ok, matched, order := db.HideJobs(threshold, req, dryRun);
    if !dryRun {
      DeletionAsAsked(before, threshold, req, order, ids, createdBefore);
      deleted := matched;
    }
  }

  /** The selectors as they are sent: no empty id, no zero cutoff. */
  method Selectors(ids: seq<JobId>, createdBefore: Option<int>) returns (ok: bool, chosen: set<JobId>, cutoff: Option<Time>)
    ensures ok <==> "" !in ids && createdBefore != Some(ZERO_TIME)
    ensures ok ==> chosen == (set id | id in ids) && (cutoff.Some? <==> createdBefore.Some?)
    ensures ok && cutoff.Some? ==> forall stored: Time :: stored < cutoff.value <==> stored * MICROSECOND < createdBefore.value
  {
    chosen, cutoff := {}, None;
    for i := 0 to |ids|
      invariant chosen == (set id | id in ids[..i]) && "" !in ids[..i]
    {
      if ids[i] == "" { return false, {}, None; }
      assert ids[..i + 1] == ids[..i] + [ids[i]];
      chosen := chosen + {ids[i]};
    }
    assert ids[..|ids|] == ids;
    if createdBefore.Some? {
      if createdBefore.value == ZERO_TIME { return false, {}, None; }
      var micros := RoundCutoff(createdBefore.value);
      cutoff := Some(micros);
    }
    ok := true;
  }

  /** Exactly the jobs asked for are hidden, at the time of the call, and no longer active. */
  ghost predicate Hidden(s: Db, t: Db, ids: seq<JobId>, createdBefore: Option<int>, accepts: Option<set<string>>, at: Time) {
    && t.facts.Keys == s.facts.Keys
    && (forall j :: j in s.facts ==>
          t.facts[j] == if Asked(s.facts[j], j, ids, createdBefore, accepts) then s.facts[j].(hiddenAt := Some(at)) else s.facts[j])
    && (forall j :: j in s.facts && Asked(s.facts[j], j, ids, createdBefore, accepts) ==>
          j !in t.jobs && j in t.archive && (j in s.jobs ==> t.archive[j].status == Cancelled))
    && (forall j :: j in s.jobs && !(j in s.facts && Asked(s.facts[j], j, ids, createdBefore, accepts)) ==> j in t.jobs)
  }

  /** The same of every committed deletion, for the request it stands for. */
  lemma DeletionAsAsked(s: Db, threshold: nat, req: DeleteRequest, order: seq<JobId>, ids: seq<JobId>, createdBefore: Option<int>)
    requires Inv(s, threshold) && Delete(s, req, order).Ok?
    requires req.ids == set id | id in ids
    requires req.cutoff.Some? <==> createdBefore.Some?
    requires req.cutoff.Some? ==> forall stored: Time :: stored < req.cutoff.value <==> stored * MICROSECOND < createdBefore.value
    ensures Hidden(s, Delete(s, req, order).value, ids, createdBefore, req.accepts, req.at)
    ensures Inv(Delete(s, req, order).value, threshold) && Later(s, Delete(s, req, order).value)
    ensures |order| == |set j | j in s.facts && Asked(s.facts[j], j, ids, createdBefore, req.accepts)|
  {
    DeletionExact(s, threshold, req, order);
    SelectedAsAsked(s, req, ids, createdBefore);
  }
}
