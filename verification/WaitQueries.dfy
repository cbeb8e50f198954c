/** ListDependencyWaits as a compiler: one argument vector shared by the stored and the
    projected conditions, whose placeholders are handed out in between each other. */
module WaitQueries {
  import opened Basics
  import opened Tables
  import opened Waits
  import opened Steps
  import opened Invariants
  import opened Orders
  import opened Discovery
  import Listings
  import Pages
  import Goals = GoalQueries

  type Value = Goals.Value

  datatype Column = WaitTenant | WaitJob | StoredState | TargetKind | TargetName

  datatype Term = Param(n: nat) | Col(column: Column) | Literal(text: string)

  datatype Cond = True
                | Eq(left: Term, right: Term)
                | KeyAfter(job: Term, wait: Term)
                | OutcomePending
                | OutcomeIn(states: Term)
                | PendingOn(target: Term)

  /** A stored wait, joined with one of its subscription rows or with none. */
  datatype Row = Row(db: Db, tenant: string, key: WaitKey, target: Option<Target>)

  function StateText(s: OutcomeState): string {
    match s
    case Pending => "PENDING"
    case Satisfied => "SATISFIED"
    case DidFail => "FAILED"
    case TimedOut => "TIMED_OUT"
    case WasCancelled => "CANCELLED"
  }

  function KindText(t: Target): string {
    match t case JobTarget(_) => "job" case GoalTarget(_) => "goal"
  }

  function NameText(t: Target): string {
    match t case JobTarget(j) => j case GoalTarget(g) => g
  }

  /** A target's JSON text: the field name tells jobs and goals apart. */
  function TargetDoc(t: Target): string {
    match t case JobTarget(j) => "j" + j case GoalTarget(g) => "g" + g
  }

  lemma TargetDocInjective(a: Target, b: Target)
    ensures TargetDoc(a) == TargetDoc(b) <==> a == b
    ensures KindText(a) == KindText(b) && NameText(a) == NameText(b) <==> a == b
  {
    assert TargetDoc(a)[1..] == NameText(a) && TargetDoc(b)[1..] == NameText(b);
    assert KindText(a)[0] == TargetDoc(a)[0] && KindText(b)[0] == TargetDoc(b)[0];
  }

  function Cell(c: Column, row: Row): Value {
    match c
    case WaitTenant => Goals.Text(row.tenant)
    case WaitJob => Goals.Text(row.key.job)
    case StoredState => if row.key in row.db.waits then Goals.Text(StateText(row.db.waits[row.key].state)) else Goals.Null
    case TargetKind => if row.target.Some? then Goals.Text(KindText(row.target.value)) else Goals.Null
    case TargetName => if row.target.Some? then Goals.Text(NameText(row.target.value)) else Goals.Null
  }

  function Meaning(t: Term, args: seq<Value>, row: Row): Value {
    match t
    case Param(n) => if 1 <= n <= |args| then args[n - 1] else Goals.Null
    case Col(c) => Cell(c, row)
    case Literal(s) => Goals.Text(s)
  }

  ghost predicate Holds(c: Cond, args: seq<Value>, row: Row)
    requires row.key in row.db.waits
  {
    var w := Project(row.db, row.key);
    match c
    case True => true
    case Eq(a, b) => Meaning(a, args, row) == Meaning(b, args, row) != Goals.Null
    case KeyAfter(job, wait) =>
      var j, k := Meaning(job, args, row), Meaning(wait, args, row);
      j.Text? && k.Text? && Lt(Listings.WaitOrder(), (j.text, k.text), Pair(row.key))
    case OutcomePending => w.state == Pending
    case OutcomeIn(states) =>
      var list := Meaning(states, args, row);
      list.Texts? && StateText(w.state) in list.texts
    case PendingOn(target) =>
      var doc := Meaning(target, args, row);
      doc.Doc? && exists b :: b in w.bindings && b.state == Pending && TargetDoc(b.dependency.target) == doc.doc
  }

  ghost predicate AllHold(cs: seq<Cond>, args: seq<Value>, row: Row)
    requires row.key in row.db.waits
  {
    forall i :: 0 <= i < |cs| ==> Holds(cs[i], args, row)
  }

  predicate TermInRange(t: Term, n: nat) {
    t.Param? ==> 1 <= t.n <= n
  }

  predicate InRange(c: Cond, n: nat) {
    match c
    case Eq(a, b) => TermInRange(a, n) && TermInRange(b, n)
    case KeyAfter(a, b) => TermInRange(a, n) && TermInRange(b, n)
    case OutcomeIn(a) => TermInRange(a, n)
    case PendingOn(a) => TermInRange(a, n)
    case _ => true
  }

  predicate AllInRange(cs: seq<Cond>, n: nat) {
    forall i :: 0 <= i < |cs| ==> InRange(cs[i], n)
  }

  lemma Stable(c: Cond, args: seq<Value>, v: Value, row: Row)
    requires InRange(c, |args|) && row.key in row.db.waits
    ensures InRange(c, |args| + 1) && Holds(c, args + [v], row) == Holds(c, args, row)
  {
  }

  /** A further argument leaves earlier conditions, in either list, as they were. */
  lemma AllStable(cs: seq<Cond>, args: seq<Value>, v: Value)
    requires AllInRange(cs, |args|)
    ensures AllInRange(cs, |args| + 1)
    ensures forall row: Row :: row.key in row.db.waits ==> AllHold(cs, args + [v], row) == AllHold(cs, args, row)
  {
    forall row: Row | row.key in row.db.waits ensures AllHold(cs, args + [v], row) == AllHold(cs, args, row) {
      forall i | 0 <= i < |cs| ensures Holds(cs[i], args + [v], row) == Holds(cs[i], args, row) {
        Stable(cs[i], args, v, row);
      }
    }
    forall i | 0 <= i < |cs| ensures InRange(cs[i], |args| + 1) { }
  }

  lemma Append(cs: seq<Cond>, c: Cond, args: seq<Value>)
    requires AllInRange(cs, |args|) && InRange(c, |args|)
    ensures AllInRange(cs + [c], |args|)
    ensures forall row: Row :: row.key in row.db.waits ==>
              (AllHold(cs + [c], args, row) <==> AllHold(cs, args, row) && Holds(c, args, row))
  {
    forall row: Row | row.key in row.db.waits
      ensures AllHold(cs + [c], args, row) <==> AllHold(cs, args, row) && Holds(c, args, row)
    {
      var all := cs + [c];
      if AllHold(all, args, row) {
        assert Holds(all[|cs|], args, row);
        forall i | 0 <= i < |cs| ensures Holds(cs[i], args, row) { assert Holds(all[i], args, row); }
      }
    }
  }

  // ---- What the two lists must mean ---------------------------------------------------------------

  /** The stored conditions on a row: cursor, consumer, and the joined subscription. */
  ghost predicate StoredMeans(tenant: string, after: (string, string), req: WaitsRequest, row: Row)
    requires row.key in row.db.waits
  {
    && row.tenant == tenant && Lt(Listings.WaitOrder(), after, Pair(row.key))
    && (req.consumer == "" || row.key.job == req.consumer)
    && (req.target.Some? ==> row.db.waits[row.key].state == Pending && row.target == req.target)
  }

  /** WITH candidates AS (stored conditions) SELECT ... WHERE projected conditions: the join
      multiplies a wait by its subscription rows, of which the conditions keep at most one. */
  ghost predicate Selects(where: seq<Cond>, projected: seq<Cond>, joined: bool, args: seq<Value>, s: Db, tenant: string, k: WaitKey)
    requires k in s.waits
  {
    && (if joined then exists t :: (k, t) in s.targets && AllHold(where, args, Row(s, tenant, k, Some(t)))
        else AllHold(where, args, Row(s, tenant, k, None)))
    && AllHold(projected, args, Row(s, tenant, k, None))
  }

  lemma StateTextIn(states: seq<OutcomeState>, s: OutcomeState)
    ensures StateText(s) in StateTexts(states) <==> s in states
  {
    if StateText(s) in StateTexts(states) {
      var i :| 0 <= i < |states| && StateText(s) == StateText(states[i]);
      assert states[i] == s;
    }
    if s in states {
      var i :| 0 <= i < |states| && states[i] == s;
      assert StateTexts(states)[i] == StateText(s);
    }
  }

  function StateTexts(states: seq<OutcomeState>): seq<string> {
    seq(|states|, i requires 0 <= i < |states| => StateText(states[i]))
  }

  lemma CursorMeans(tenant: string, after: (string, string), row: Row)
    requires row.key in row.db.waits
    ensures AllHold([Eq(Col(WaitTenant), Param(1)), KeyAfter(Param(2), Param(3))],
                    [Goals.Text(tenant), Goals.Text(after.0), Goals.Text(after.1)], row)
            <==> row.tenant == tenant && Lt(Listings.WaitOrder(), after, Pair(row.key))
  {
    var where := [Eq(Col(WaitTenant), Param(1)), KeyAfter(Param(2), Param(3))];
    var args := [Goals.Text(tenant), Goals.Text(after.0), Goals.Text(after.1)];
    assert Holds(where[0], args, row) <==> row.tenant == tenant;
    assert Holds(where[1], args, row) <==> Lt(Listings.WaitOrder(), after, Pair(row.key));
  }

  /** The slices the function grows: arguments, stored conditions, projected conditions. */
  class WaitQuery {
    var args: seq<Value>
    var where: seq<Cond>
    var projected: seq<Cond>
    var joined: bool

    ghost predicate Valid()
      reads this
    {
      AllInRange(where, |args|) && AllInRange(projected, |args|)
    }

    constructor (tenant: string, after: (string, string))
      ensures Valid() && !joined
      ensures forall row: Row :: row.key in row.db.waits ==>
                (AllHold(where, args, row) <==> row.tenant == tenant && Lt(Listings.WaitOrder(), after, Pair(row.key)))
      ensures forall row: Row :: row.key in row.db.waits ==> AllHold(projected, args, row)
    {
      args := [Goals.Text(tenant), Goals.Text(after.0), Goals.Text(after.1)];
      where := [Eq(Col(WaitTenant), Param(1)), KeyAfter(Param(2), Param(3))];
      projected := [True];
      joined := false;
      new;
      forall row: Row | row.key in row.db.waits
        ensures AllHold(where, args, row) <==> row.tenant == tenant && Lt(Listings.WaitOrder(), after, Pair(row.key))
      {
        CursorMeans(tenant, after, row);
      }
    }

    method Bind(v: Value) returns (t: Term)
      requires Valid()
      modifies this`args
      ensures Valid() && args == old(args) + [v] && t == Param(|args|)
      ensures forall row: Row :: row.key in row.db.waits ==>
                && AllHold(where, args, row) == AllHold(where, old(args), row)
                && AllHold(projected, args, row) == AllHold(projected, old(args), row)
    {
      AllStable(where, args, v);
      AllStable(projected, args, v);
      args := args + [v];
      t := Param(|args|);
    }

    method Where(c: Cond)
      requires Valid() && InRange(c, |args|)
      modifies this`where
      ensures Valid()
      ensures forall row: Row :: row.key in row.db.waits ==>
                (AllHold(where, args, row) <==> AllHold(old(where), args, row) && Holds(c, args, row))
    {
      Append(where, c, args);
      where := where + [c];
    }

    method Projected(c: Cond)
      requires Valid() && InRange(c, |args|)
      modifies this`projected
      ensures Valid()
      ensures forall row: Row :: row.key in row.db.waits ==>
                (AllHold(projected, args, row) <==> AllHold(old(projected), args, row) && Holds(c, args, row))
    {
      Append(projected, c, args);
      projected := projected + [c];
    }

    method RestrictConsumer(consumer: JobId)
      requires Valid()
      modifies this`args, this`where
      ensures Valid()
      ensures forall row: Row :: row.key in row.db.waits ==>
                && (AllHold(where, args, row) <==> AllHold(old(where), old(args), row) && (consumer == "" || row.key.job == consumer))
                && AllHold(projected, args, row) == AllHold(projected, old(args), row)
    {
      if consumer != "" {
        var p := Bind(Goals.Text(consumer));
        Where(Eq(Col(WaitJob), p));
      }
    }

    /** The stored half: pending, and joined with this target's subscription. */
    method RestrictStored(target: Target)
      requires Valid()
      modifies this`args, this`where
      ensures Valid()
      ensures forall row: Row :: row.key in row.db.waits ==>
                && (AllHold(where, args, row) <==>
                      && AllHold(old(where), old(args), row)
                      && row.db.waits[row.key].state == Pending && row.target == Some(target))
                && AllHold(projected, args, row) == AllHold(projected, old(args), row)
    {
      Where(Eq(Col(StoredState), Literal("PENDING")));
      var kind := Bind(Goals.Text(KindText(target)));
      Where(Eq(Col(TargetKind), kind));
      var name := Bind(Goals.Text(NameText(target)));
      Where(Eq(Col(TargetName), name));
      forall row: Row | row.key in row.db.waits && row.target.Some?
        ensures KindText(row.target.value) == KindText(target) && NameText(row.target.value) == NameText(target)
                <==> row.target.value == target
      {
        TargetDocInjective(row.target.value, target);
      }
    }

    /** The projected half: pending as read, on this very target. */
    method RestrictProjected(target: Target)
      requires Valid()
      modifies this`args, this`projected
      ensures Valid()
      ensures forall row: Row :: row.key in row.db.waits ==>
                && AllHold(where, args, row) == AllHold(where, old(args), row)
                && (AllHold(projected, args, row) <==>
                      && AllHold(old(projected), old(args), row)
                      && Project(row.db, row.key).state == Pending && PendingAt(row, target))
    {
      var doc := Bind(Goals.Doc(TargetDoc(target)));
      Projected(OutcomePending);
      Projected(PendingOn(doc));
      forall row: Row | row.key in row.db.waits ensures Holds(PendingOn(doc), args, row) <==> PendingAt(row, target) {
        PendingOnMeans(doc, args, row, target);
      }
    }

    method RestrictTarget(target: Target)
      requires Valid()
      modifies this
      ensures Valid() && joined
      ensures forall row: Row :: row.key in row.db.waits ==>
                && (AllHold(where, args, row) <==>
                      && AllHold(old(where), old(args), row)
                      && row.db.waits[row.key].state == Pending && row.target == Some(target))
                && (AllHold(projected, args, row) <==>
                      && AllHold(old(projected), old(args), row)
                      && Project(row.db, row.key).state == Pending && PendingAt(row, target))
    {
      joined := true;
      RestrictStored(target);
      RestrictProjected(target);
    }

    method RestrictStates(states: seq<OutcomeState>)
      requires Valid()
      modifies this`args, this`projected
      ensures Valid()
      ensures forall row: Row :: row.key in row.db.waits ==>
                && AllHold(where, args, row) == AllHold(where, old(args), row)
                && (AllHold(projected, args, row) <==>
                      AllHold(old(projected), old(args), row) && (states == [] || Project(row.db, row.key).state in states))
    {
      if |states| > 0 {
        var list := Bind(Goals.Texts(StateTexts(states)));
        Projected(OutcomeIn(list));
        forall row: Row | row.key in row.db.waits
          ensures StateText(Project(row.db, row.key).state) in StateTexts(states) <==> Project(row.db, row.key).state in states
        {
          StateTextIn(states, Project(row.db, row.key).state);
        }
      }
    }
  }

  ghost predicate PendingAt(row: Row, target: Target)
    requires row.key in row.db.waits
  {
    exists b :: b in Project(row.db, row.key).bindings && b.state == Pending && b.dependency.target == target
  }

  lemma PendingOnMeans(doc: Term, args: seq<Value>, row: Row, target: Target)
    requires row.key in row.db.waits && Meaning(doc, args, row) == Goals.Doc(TargetDoc(target))
    ensures Holds(PendingOn(doc), args, row) <==> PendingAt(row, target)
  {
    var w := Project(row.db, row.key);
    forall b | b in w.bindings ensures TargetDoc(b.dependency.target) == TargetDoc(target) <==> b.dependency.target == target {
      TargetDocInjective(b.dependency.target, target);
    }
  }

  /** ListDependencyWaits up to its query: for every database and every key, the compiled
      query selects the wait exactly when it lies past the cursor and passes both stages. */
  method CompileWaits(tenant: string, after: (string, string), req: WaitsRequest, size: nat)
    returns (q: WaitQuery, limit: Term)
    ensures fresh(q) && q.Valid() && TermInRange(limit, |q.args|)
    ensures forall row :: Meaning(limit, q.args, row) == Goals.Number(size + 1)
    ensures forall s: Db, k, owner :: k in s.waits ==>
              (Selects(q.where, q.projected, q.joined, q.args, s, owner, k) <==>
                 && owner == tenant && Lt(Listings.WaitOrder(), after, Pair(k))
                 && StoredMatch(s, req, k) && ProjectedMatch(s, req, k))
  {
    q := new WaitQuery(tenant, after);
    q.RestrictConsumer(req.consumer);
    if req.target.Some? { q.RestrictTarget(req.target.value); }
    q.RestrictStates(req.states);
    limit := q.Bind(Goals.Number(size + 1));
    forall s: Db, k, owner | k in s.waits
      ensures Selects(q.where, q.projected, q.joined, q.args, s, owner, k) <==>
                && owner == tenant && Lt(Listings.WaitOrder(), after, Pair(k))
                && StoredMatch(s, req, k) && ProjectedMatch(s, req, k)
    {
      SelectsMeans(q.where, q.projected, q.joined, q.args, s, owner, k, tenant, after, req);
    }
  }

  lemma SelectsMeans(where: seq<Cond>, projected: seq<Cond>, joined: bool, args: seq<Value>, s: Db, owner: string, k: WaitKey,
                     tenant: string, after: (string, string), req: WaitsRequest)
    requires k in s.waits && joined == req.target.Some?
    requires forall t :: AllHold(where, args, Row(s, owner, k, t)) <==> StoredMeans(tenant, after, req, Row(s, owner, k, t))
    requires AllHold(projected, args, Row(s, owner, k, None)) <==> ProjectedMatch(s, req, k)
    ensures Selects(where, projected, joined, args, s, owner, k) <==>
              && owner == tenant && Lt(Listings.WaitOrder(), after, Pair(k))
              && StoredMatch(s, req, k) && ProjectedMatch(s, req, k)
  {
    if joined {
      var t := req.target.value;
      assert (k, t) in s.targets && AllHold(where, args, Row(s, owner, k, Some(t))) <==>
             (k, t) in s.targets && StoredMeans(tenant, after, req, Row(s, owner, k, Some(t)));
    }
  }

  /** So a page of the compiled query is what is left of the request past its cursor. */
  lemma CompiledIsRemaining(s: Db, threshold: nat, after: (string, string), req: WaitsRequest)
    requires Inv(s, threshold)
    ensures (set k | k in s.waits && Lt(Listings.WaitOrder(), after, Pair(k)) && StoredMatch(s, req, k) && ProjectedMatch(s, req, k) :: Pair(k))
            == Pages.Remaining(Listings.WaitOrder(), WaitsAsked(s, req), Some(after))
  {
    forall k | k in s.waits && (req.consumer == "" || k.job == req.consumer) && ProjectedMatch(s, req, k)
      ensures StoredMatch(s, req, k)
    {
      IndexFindsAll(s, threshold, req, k);
    }
  }
}
