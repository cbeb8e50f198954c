/** ListGoals as a small compiler: a request becomes a WHERE tree over numbered placeholders
    and the argument vector that fills them. */
module GoalQueries {
  import opened Basics
  import opened Tables
  import opened Waits
  import opened Steps
  import opened Orders

  // ---- The query language --------------------------------------------------------------------

  datatype Value = Null | Text(text: string) | Texts(texts: seq<string>) | Stamp(at: Time) | Doc(doc: string) | Number(n: int)

  datatype Column = GoalTenant | GoalName | GoalStatus | GoalCreated | GoalUpdated
                  | FactTenant | FactJob | FactType | MemberJob

  datatype Term = Param(n: nat) | Col(column: Column) | MetadataAt(path: Term)

  datatype Cond = Eq(left: Term, right: Term) | Gt(left: Term, right: Term) | Ge(left: Term, right: Term)
                | Le(left: Term, right: Term) | AnyOf(left: Term, list: Term)
                | Or(cases: seq<Cond>) | ExistsMember(on: seq<Cond>)

  /** The rows a condition is evaluated on; `member` is the joined member inside EXISTS. */
  datatype Env = Env(db: Db, tenant: string, goal: GoalId, member: Option<JobId>)

  /** JSON path extraction, `#>`. */
  type Extract = (string, seq<string>) -> Option<string>

  function StateName(s: GoalState): string {
    match s case Open => "OPEN" case Succeeded => "SUCCEEDED" case Failed => "FAILED"
  }

  function UpdatedAt(g: Goal): Time {
    if g.closedAt.Some? then g.closedAt.value else g.createdAt
  }

  function Cell(c: Column, env: Env): Value {
    match c
    case GoalTenant => Text(env.tenant)
    case GoalName => Text(env.goal)
    case GoalStatus => if env.goal in env.db.goals then Text(StateName(env.db.goals[env.goal].state)) else Null
    case GoalCreated => if env.goal in env.db.goals then Stamp(env.db.goals[env.goal].createdAt) else Null
    case GoalUpdated => if env.goal in env.db.goals then Stamp(UpdatedAt(env.db.goals[env.goal])) else Null
    case FactTenant => if Joined(env) then Text(env.tenant) else Null
    case FactJob => if Joined(env) then Text(env.member.value) else Null
    case FactType => if Joined(env) then Text(env.db.facts[env.member.value].jobType) else Null
    case MemberJob => if env.member.Some? then Text(env.member.value) else Null
  }

  predicate Joined(env: Env) {
    env.member.Some? && env.member.value in env.db.facts
  }

  function Meaning(t: Term, args: seq<Value>, env: Env, at: Extract): Value {
    match t
    case Param(n) => if 1 <= n <= |args| then args[n - 1] else Null
    case Col(c) => Cell(c, env)
    case MetadataAt(path) =>
      var p := Meaning(path, args, env, at);
      if p.Texts? && Joined(env) then
        match at(env.db.facts[env.member.value].metadata, p.texts)
        case None => Null
        case Some(d) => Doc(d)
      else Null
  }

  predicate Compare(x: Value, y: Value, text: (string, string) -> bool, stamp: (Time, Time) -> bool) {
    (x.Text? && y.Text? && text(x.text, y.text)) || (x.Stamp? && y.Stamp? && stamp(x.at, y.at))
  }

  ghost predicate Holds(c: Cond, args: seq<Value>, env: Env, at: Extract)
    decreases c
  {
    match c
    case Eq(a, b) => Meaning(a, args, env, at) == Meaning(b, args, env, at) != Null
    case Gt(a, b) => Compare(Meaning(a, args, env, at), Meaning(b, args, env, at), (x, y) => Lt(StringLe, y, x), (x, y) => x > y)
    case Ge(a, b) => Compare(Meaning(a, args, env, at), Meaning(b, args, env, at), (x, y) => StringLe(y, x), (x, y) => x >= y)
    case Le(a, b) => Compare(Meaning(a, args, env, at), Meaning(b, args, env, at), StringLe, (x, y) => x <= y)
    case AnyOf(a, list) =>
      var x, y := Meaning(a, args, env, at), Meaning(list, args, env, at);
      x.Text? && y.Texts? && x.text in y.texts
    case Or(cases) => exists i :: 0 <= i < |cases| && Holds(cases[i], args, env, at)
    case ExistsMember(on) =>
      exists m :: m in Members(env.db, env.goal) && m in env.db.facts
                  && forall i :: 0 <= i < |on| ==> Holds(on[i], args, env.(member := Some(m)), at)
  }

  /** A list of conditions joined by AND. */
  ghost predicate AllHold(cs: seq<Cond>, args: seq<Value>, env: Env, at: Extract) {
    forall i :: 0 <= i < |cs| ==> Holds(cs[i], args, env, at)
  }

  // ---- Placeholders ----------------------------------------------------------------------------

  predicate TermInRange(t: Term, n: nat) {
    match t
    case Param(k) => 1 <= k <= n
    case Col(_) => true
    case MetadataAt(p) => TermInRange(p, n)
  }

  predicate InRange(c: Cond, n: nat) {
    match c
    case Eq(a, b) => TermInRange(a, n) && TermInRange(b, n)
    case Gt(a, b) => TermInRange(a, n) && TermInRange(b, n)
    case Ge(a, b) => TermInRange(a, n) && TermInRange(b, n)
    case Le(a, b) => TermInRange(a, n) && TermInRange(b, n)
    case AnyOf(a, b) => TermInRange(a, n) && TermInRange(b, n)
    case Or(cs) => forall i :: 0 <= i < |cs| ==> InRange(cs[i], n)
    case ExistsMember(cs) => forall i :: 0 <= i < |cs| ==> InRange(cs[i], n)
  }

  predicate AllInRange(cs: seq<Cond>, n: nat) {
    forall i :: 0 <= i < |cs| ==> InRange(cs[i], n)
  }

  lemma {:induction false} TermStable(t: Term, args: seq<Value>, more: seq<Value>, env: Env, at: Extract)
    requires TermInRange(t, |args|)
    ensures Meaning(t, args + more, env, at) == Meaning(t, args, env, at) && TermInRange(t, |args + more|)
  {
    if t.MetadataAt? { TermStable(t.path, args, more, env, at); }
  }

  /** Binding further arguments never changes what an earlier condition means. */
  lemma {:induction false} Stable(c: Cond, args: seq<Value>, more: seq<Value>, env: Env, at: Extract)
    requires InRange(c, |args|)
    ensures Holds(c, args + more, env, at) == Holds(c, args, env, at) && InRange(c, |args + more|)
    decreases c
  {
    match c {
      case Or(cases) => AllStable(cases, args, more, env, at);
      case ExistsMember(on) =>
        forall m: JobId
          ensures AllHold(on, args + more, env.(member := Some(m)), at) == AllHold(on, args, env.(member := Some(m)), at)
        {
          AllStable(on, args, more, env.(member := Some(m)), at);
        }
        AllStable(on, args, more, env, at);
      case AnyOf(a, b) => TermStable(a, args, more, env, at); TermStable(b, args, more, env, at);
      case Eq(a, b) => TermStable(a, args, more, env, at); TermStable(b, args, more, env, at);
      case Gt(a, b) => TermStable(a, args, more, env, at); TermStable(b, args, more, env, at);
      case Ge(a, b) => TermStable(a, args, more, env, at); TermStable(b, args, more, env, at);
      case Le(a, b) => TermStable(a, args, more, env, at); TermStable(b, args, more, env, at);
    }
  }

  lemma {:induction false} AllStable(cs: seq<Cond>, args: seq<Value>, more: seq<Value>, env: Env, at: Extract)
    requires AllInRange(cs, |args|)
    ensures AllHold(cs, args + more, env, at) == AllHold(cs, args, env, at) && AllInRange(cs, |args + more|)
    ensures forall i :: 0 <= i < |cs| ==> Holds(cs[i], args + more, env, at) == Holds(cs[i], args, env, at)
    decreases cs
  {
    forall i | 0 <= i < |cs|
      ensures Holds(cs[i], args + more, env, at) == Holds(cs[i], args, env, at) && InRange(cs[i], |args + more|)
    {
      Stable(cs[i], args, more, env, at);
    }
  }

  // ---- What a request asks for -------------------------------------------------------------------

  datatype MetadataFilter = MetadataFilter(path: seq<string>, values: seq<string>)

  datatype CandidateFilter = CandidateFilter(jobIds: seq<JobId>, jobTypes: seq<string>, metadata: seq<MetadataFilter>)

  datatype GoalsRequest = GoalsRequest(tenant: string, goalIds: seq<GoalId>, states: seq<GoalState>,
                                       createdAfter: Option<Time>, createdBefore: Option<Time>,
                                       updatedAfter: Option<Time>, updatedBefore: Option<Time>,
                                       candidate: Option<CandidateFilter>)

  ghost predicate MetadataMatches(f: MetadataFilter, metadata: string, at: Extract) {
    exists i :: 0 <= i < |f.values| && at(metadata, f.path) == Some(f.values[i])
  }

  /** One single member meets every candidate condition. */
  ghost predicate MemberMatches(s: Db, f: CandidateFilter, m: JobId, at: Extract) {
    && m in s.facts
    && (f.jobIds == [] || m in f.jobIds)
    && (f.jobTypes == [] || s.facts[m].jobType in f.jobTypes)
    && forall i :: 0 <= i < |f.metadata| ==> MetadataMatches(f.metadata[i], s.facts[m].metadata, at)
  }

  predicate NotBefore(bound: Option<Time>, t: Time) {
    bound.Some? ==> t >= bound.value
  }

  predicate NotAfter(bound: Option<Time>, t: Time) {
    bound.Some? ==> t <= bound.value
  }

  /** Nanoseconds in one microsecond of the stored clock. */
  const MICROSECOND: int := 1000

  /** A client's nanosecond bound as the server reads it: the nearest microsecond, ties either way. */
  ghost predicate Nearest(nanos: int, micros: Time) {
    -500 <= micros * MICROSECOND - nanos <= 500
  }

  /** Rounding leaves an inclusive lower bound exact, for every stored time, exactly when it
      does not go down, and an upper one exactly when it does not go up; a bound in whole
      microseconds is exact either way. */
  lemma BoundsExactIff(nanos: int, micros: Time)
    requires Nearest(nanos, micros)
    ensures (forall stored: Time :: NotBefore(Some(micros), stored) <==> stored * MICROSECOND >= nanos) <==> micros * MICROSECOND >= nanos
    ensures (forall stored: Time :: NotAfter(Some(micros), stored) <==> stored * MICROSECOND <= nanos) <==> micros * MICROSECOND <= nanos
    ensures nanos % MICROSECOND == 0 ==> micros * MICROSECOND == nanos
  {
    if forall stored: Time :: NotBefore(Some(micros), stored) <==> stored * MICROSECOND >= nanos {
      assert NotBefore(Some(micros), micros);
    }
    if forall stored: Time :: NotAfter(Some(micros), stored) <==> stored * MICROSECOND <= nanos {
      assert NotAfter(Some(micros), micros);
    }
  }

  /** The goals of the request past the cursor, bounds inclusive. */
  ghost predicate Described(s: Db, tenant: string, req: GoalsRequest, after: GoalId, g: GoalId, at: Extract)
    requires g in s.goals
  {
    && tenant == req.tenant && Lt(StringLe, after, g)
    && (req.goalIds == [] || g in req.goalIds)
    && (req.states == [] || s.goals[g].state in req.states)
    && NotBefore(req.createdAfter, s.goals[g].createdAt) && NotAfter(req.createdBefore, s.goals[g].createdAt)
    && NotBefore(req.updatedAfter, UpdatedAt(s.goals[g])) && NotAfter(req.updatedBefore, UpdatedAt(s.goals[g]))
    && (req.candidate.Some? ==> exists m :: m in Members(s, g) && MemberMatches(s, req.candidate.value, m, at))
  }

  // ---- The compiler --------------------------------------------------------------------------------

  lemma AllHoldAppend(cs: seq<Cond>, c: Cond, args: seq<Value>, env: Env, at: Extract)
    ensures AllHold(cs + [c], args, env, at) <==> AllHold(cs, args, env, at) && Holds(c, args, env, at)
  {
    var all := cs + [c];
    if AllHold(all, args, env, at) {
      assert Holds(all[|cs|], args, env, at);
      forall i | 0 <= i < |cs| ensures Holds(cs[i], args, env, at) { assert Holds(all[i], args, env, at); }
    }
  }

  lemma ExtendAt(cs: seq<Cond>, c: Cond, args: seq<Value>, v: Value, env: Env, at: Extract)
    requires AllInRange(cs, |args|) && InRange(c, |args| + 1)
    ensures AllInRange(cs + [c], |args| + 1)
    ensures AllHold(cs + [c], args + [v], env, at) <==> AllHold(cs, args, env, at) && Holds(c, args + [v], env, at)
  {
    AllStable(cs, args, [v], env, at);
    AllHoldAppend(cs, c, args + [v], env, at);
  }

  /** One argument more and one condition more. */
  lemma Extend(cs: seq<Cond>, c: Cond, args: seq<Value>, v: Value, at: Extract)
    requires AllInRange(cs, |args|) && InRange(c, |args| + 1)
    ensures AllInRange(cs + [c], |args| + 1)
    ensures forall env :: AllHold(cs + [c], args + [v], env, at) <==> AllHold(cs, args, env, at) && Holds(c, args + [v], env, at)
  {
    ExtendAt(cs, c, args, v, Env(EMPTY, "", "", None), at);
    forall env
      ensures AllHold(cs + [c], args + [v], env, at) <==> AllHold(cs, args, env, at) && Holds(c, args + [v], env, at)
    {
      ExtendAt(cs, c, args, v, env, at);
    }
  }

  /** The text or time a column shows, when it shows one. */
  ghost predicate CellIn(c: Column, env: Env, list: seq<string>) {
    list == [] || (Cell(c, env).Text? && Cell(c, env).text in list)
  }

  ghost predicate CellNotBefore(c: Column, env: Env, bound: Option<Time>) {
    bound.Some? ==> Cell(c, env).Stamp? && Cell(c, env).at >= bound.value
  }

  ghost predicate CellNotAfter(c: Column, env: Env, bound: Option<Time>) {
    bound.Some? ==> Cell(c, env).Stamp? && Cell(c, env).at <= bound.value
  }

  class QueryBuilder {
    var args: seq<Value>

    constructor (first: seq<Value>)
      ensures args == first
    {
      args := first;
    }

    /** The bind closure: append, and name the new last placeholder. */
    method Bind(v: Value) returns (t: Term)
      modifies this
      ensures args == old(args) + [v] && t == Param(|args|)
    {
      args := args + [v];
      t := Param(|args|);
    }

    method RestrictTexts(where: seq<Cond>, c: Column, list: seq<string>, ghost at: Extract) returns (r: seq<Cond>)
      requires AllInRange(where, |args|)
      modifies this
      ensures old(args) <= args && AllInRange(r, |args|)
      ensures forall env :: AllHold(r, args, env, at) <==> AllHold(where, old(args), env, at) && CellIn(c, env, list)
    {
      if |list| == 0 { return where; }
      var p := Bind(Texts(list));
      r := where + [AnyOf(Col(c), p)];
      Extend(where, AnyOf(Col(c), p), old(args), Texts(list), at);
    }

    method RestrictFrom(where: seq<Cond>, c: Column, bound: Option<Time>, ghost at: Extract) returns (r: seq<Cond>)
      requires AllInRange(where, |args|)
      modifies this
      ensures old(args) <= args && AllInRange(r, |args|)
      ensures forall env :: AllHold(r, args, env, at) <==> AllHold(where, old(args), env, at) && CellNotBefore(c, env, bound)
    {
      if bound.None? { return where; }
      var p := Bind(Stamp(bound.value));
      r := where + [Ge(Col(c), p)];
      Extend(where, Ge(Col(c), p), old(args), Stamp(bound.value), at);
    }

    method RestrictTo(where: seq<Cond>, c: Column, bound: Option<Time>, ghost at: Extract) returns (r: seq<Cond>)
      requires AllInRange(where, |args|)
      modifies this
      ensures old(args) <= args && AllInRange(r, |args|)
      ensures forall env :: AllHold(r, args, env, at) <==> AllHold(where, old(args), env, at) && CellNotAfter(c, env, bound)
    {
      if bound.None? { return where; }
      var p := Bind(Stamp(bound.value));
      r := where + [Le(Col(c), p)];
      Extend(where, Le(Col(c), p), old(args), Stamp(bound.value), at);
    }

    /** One metadata predicate: any of its values at its path. */
    method RestrictMetadata(sub: seq<Cond>, f: MetadataFilter, ghost at: Extract) returns (r: seq<Cond>)
      requires AllInRange(sub, |args|)
      modifies this
      ensures old(args) <= args && AllInRange(r, |args|)
      ensures forall env :: AllHold(r, args, env, at) <==> AllHold(sub, old(args), env, at) && ValueAt(f, |f.values|, env, at)
    {
      ghost var before := args;
      var path := Bind(Texts(f.path));
      var vals: seq<Cond> := [];
      for i := 0 to |f.values|
        invariant before + [Texts(f.path)] <= args && |vals| == i && AllInRange(vals, |args|)
        invariant forall k, env :: 0 <= k < i ==> (Holds(vals[k], args, env, at) <==> ValueIs(f, k, env, at))
      {
        ghost var bound := args;
        var p := Bind(Doc(f.values[i]));
        var c := Eq(MetadataAt(path), p);
        forall k, env | 0 <= k < i ensures Holds(vals[k], args, env, at) <==> ValueIs(f, k, env, at) {
          AllStable(vals, bound, [Doc(f.values[i])], env, at);
        }
        AllStable(vals, bound, [Doc(f.values[i])], Env(EMPTY, "", "", None), at);
        forall env ensures Holds(c, args, env, at) <==> ValueIs(f, i, env, at) {
          assert Meaning(path, args, env, at) == Texts(f.path);
          assert Meaning(p, args, env, at) == Doc(f.values[i]);
        }
        assert TermInRange(path, |args|) && InRange(c, |args|) && AllInRange(vals, |args|);
        vals := vals + [c];
      }
      r := sub + [Or(vals)];
      ghost var more := args[|before|..];
      assert args == before + more;
      forall env ensures AllHold(r, args, env, at) <==> AllHold(sub, before, env, at) && ValueAt(f, |f.values|, env, at) {
        AllStable(sub, before, more, env, at);
        AllHoldAppend(sub, Or(vals), args, env, at);
        OrMeans(vals, f, args, env, at);
      }
      AllStable(sub, before, more, Env(EMPTY, "", "", None), at);
    }

    /** The ON clause of the member subquery. */
    method CompileCandidate(f: CandidateFilter, ghost at: Extract) returns (sub: seq<Cond>)
      modifies this
      ensures old(args) <= args && AllInRange(sub, |args|)
      ensures forall env :: AllHold(sub, args, env, at) <==> Joined(env) && MemberMatches(env.db, f, env.member.value, at)
    {
      sub := [Eq(Col(FactTenant), Col(GoalTenant)), Eq(Col(FactJob), Col(MemberJob))];
      forall env ensures AllHold(sub, args, env, at) <==> Joined(env) { JoinMeans(args, env, at); }
      sub := RestrictTexts(sub, FactJob, f.jobIds, at);
      sub := RestrictTexts(sub, FactType, f.jobTypes, at);
      for i := 0 to |f.metadata|
        invariant old(args) <= args && AllInRange(sub, |args|)
        invariant forall env :: AllHold(sub, args, env, at) <==> Joined(env) && Partly(f, i, env, at)
      {
        sub := RestrictMetadata(sub, f.metadata[i], at);
        forall env ensures Partly(f, i + 1, env, at) <==> Partly(f, i, env, at) && ValueAt(f.metadata[i], |f.metadata[i].values|, env, at) { }
      }
      forall env | Joined(env) ensures Partly(f, |f.metadata|, env, at) <==> MemberMatches(env.db, f, env.member.value, at) {
        PartlyAll(f, env, at);
      }
    }

    /** The conditions on the goal row itself. */
    method CompileColumns(req: GoalsRequest, after: GoalId, ghost at: Extract) returns (where: seq<Cond>)
      requires args == [Text(req.tenant), Text(after)]
      modifies this
      ensures AllInRange(where, |args|)
      ensures forall env: Env :: env.goal in env.db.goals ==>
                (AllHold(where, args, env, at) <==> Described(env.db, env.tenant, req.(candidate := None), after, env.goal, at))
    {
      where := [Eq(Col(GoalTenant), Param(1)), Gt(Col(GoalName), Param(2))];
      forall env ensures AllHold(where, args, env, at) <==> env.tenant == req.tenant && Lt(StringLe, after, env.goal) {
        CursorMeans(req.tenant, after, env, at);
      }
      where := RestrictTexts(where, GoalName, req.goalIds, at);
      where := RestrictTexts(where, GoalStatus, StateNames(req.states), at);
      where := RestrictFrom(where, GoalCreated, req.createdAfter, at);
      where := RestrictTo(where, GoalCreated, req.createdBefore, at);
      where := RestrictFrom(where, GoalUpdated, req.updatedAfter, at);
      where := RestrictTo(where, GoalUpdated, req.updatedBefore, at);
      forall env: Env | env.goal in env.db.goals
        ensures AllHold(where, args, env, at) <==> Described(env.db, env.tenant, req.(candidate := None), after, env.goal, at)
      {
        StateNamesIn(req.states, env.db.goals[env.goal].state);
      }
    }

    /** The EXISTS condition on one member, when candidates are restricted. */
    method RestrictMembers(where: seq<Cond>, f: CandidateFilter, ghost at: Extract) returns (r: seq<Cond>)
      requires AllInRange(where, |args|)
      modifies this
      ensures old(args) <= args && AllInRange(r, |args|)
      ensures forall env :: AllHold(r, args, env, at) <==>
                AllHold(where, old(args), env, at) && exists m :: m in Members(env.db, env.goal) && MemberMatches(env.db, f, m, at)
    {
      ghost var before := args;
      var sub := CompileCandidate(f, at);
      ghost var more := args[|before|..];
      assert args == before + more;
      r := where + [ExistsMember(sub)];
      forall env: Env
        ensures AllHold(r, args, env, at) <==>
                  AllHold(where, before, env, at) && exists m :: m in Members(env.db, env.goal) && MemberMatches(env.db, f, m, at)
      {
        AllStable(where, before, more, env, at);
        AllHoldAppend(where, ExistsMember(sub), args, env, at);
        ExistsMeans(sub, f, args, env, at);
      }
      AllStable(where, before, more, Env(EMPTY, "", "", None), at);
    }

    /** ListGoals: conditions in the order the code appends them, the row limit bound last. */
    method CompileGoals(req: GoalsRequest, after: GoalId, size: nat, ghost at: Extract) returns (where: seq<Cond>, limit: Term)
      requires args == [Text(req.tenant), Text(after)]
      modifies this
      ensures AllInRange(where, |args|) && TermInRange(limit, |args|)
      ensures forall env :: Meaning(limit, args, env, at) == Number(size + 1)
      ensures forall env: Env :: env.goal in env.db.goals ==>
                (AllHold(where, args, env, at) <==> Described(env.db, env.tenant, req, after, env.goal, at))
    {
      where := CompileColumns(req, after, at);
      if req.candidate.Some? {
        where := RestrictMembers(where, req.candidate.value, at);
      }
      ghost var bound := args;
      limit := Bind(Number(size + 1));
      forall env: Env ensures AllHold(where, args, env, at) == AllHold(where, bound, env, at) {
        AllStable(where, bound, [Number(size + 1)], env, at);
      }
      AllStable(where, bound, [Number(size + 1)], Env(EMPTY, "", "", None), at);
    }
  }

  /** The candidate conditions handled after the first n metadata predicates. */
  ghost predicate Partly(f: CandidateFilter, n: nat, env: Env, at: Extract)
    requires n <= |f.metadata|
  {
    && CellIn(FactJob, env, f.jobIds) && CellIn(FactType, env, f.jobTypes)
    && forall i :: 0 <= i < n ==> ValueAt(f.metadata[i], |f.metadata[i].values|, env, at)
  }

  lemma JoinMeans(args: seq<Value>, env: Env, at: Extract)
    ensures AllHold([Eq(Col(FactTenant), Col(GoalTenant)), Eq(Col(FactJob), Col(MemberJob))], args, env, at) <==> Joined(env)
  {
    var sub := [Eq(Col(FactTenant), Col(GoalTenant)), Eq(Col(FactJob), Col(MemberJob))];
    if AllHold(sub, args, env, at) { assert Holds(sub[0], args, env, at); }
  }

  lemma CursorMeans(tenant: string, after: GoalId, env: Env, at: Extract)
    ensures AllHold([Eq(Col(GoalTenant), Param(1)), Gt(Col(GoalName), Param(2))], [Text(tenant), Text(after)], env, at)
            <==> env.tenant == tenant && Lt(StringLe, after, env.goal)
  {
    var where := [Eq(Col(GoalTenant), Param(1)), Gt(Col(GoalName), Param(2))];
    var args := [Text(tenant), Text(after)];
    assert Holds(where[0], args, env, at) <==> env.tenant == tenant;
    assert Holds(where[1], args, env, at) <==> Lt(StringLe, after, env.goal);
  }

  lemma PartlyAll(f: CandidateFilter, env: Env, at: Extract)
    requires Joined(env)
    ensures Partly(f, |f.metadata|, env, at) <==> MemberMatches(env.db, f, env.member.value, at)
  {
    var metadata := env.db.facts[env.member.value].metadata;
    forall i | 0 <= i < |f.metadata|
      ensures ValueAt(f.metadata[i], |f.metadata[i].values|, env, at) <==> MetadataMatches(f.metadata[i], metadata, at)
    {
      var p := f.metadata[i];
      if MetadataMatches(p, metadata, at) {
        var k :| 0 <= k < |p.values| && at(metadata, p.path) == Some(p.values[k]);
        assert ValueIs(p, k, env, at);
      }
    }
  }

  lemma ExistsMeans(sub: seq<Cond>, f: CandidateFilter, args: seq<Value>, env: Env, at: Extract)
    requires forall e :: AllHold(sub, args, e, at) <==> Joined(e) && MemberMatches(e.db, f, e.member.value, at)
    ensures Holds(ExistsMember(sub), args, env, at) <==> exists m :: m in Members(env.db, env.goal) && MemberMatches(env.db, f, m, at)
  {
    forall m: JobId
      ensures AllHold(sub, args, env.(member := Some(m)), at) <==> m in env.db.facts && MemberMatches(env.db, f, m, at)
    {
      var e := env.(member := Some(m));
      assert AllHold(sub, args, e, at) <==> Joined(e) && MemberMatches(e.db, f, e.member.value, at);
    }
  }

  function StateNames(states: seq<GoalState>): seq<string> {
    seq(|states|, i requires 0 <= i < |states| => StateName(states[i]))
  }

  lemma StateNamesIn(states: seq<GoalState>, s: GoalState)
    ensures StateName(s) in StateNames(states) <==> s in states
  {
    if StateName(s) in StateNames(states) {
      var i :| 0 <= i < |states| && StateName(s) == StateName(states[i]);
      assert states[i] == s;
    }
    if s in states {
      var i :| 0 <= i < |states| && states[i] == s;
      assert StateNames(states)[i] == StateName(s);
    }
  }

  ghost predicate ValueIs(f: MetadataFilter, k: nat, env: Env, at: Extract)
    requires k < |f.values|
  {
    Joined(env) && at(env.db.facts[env.member.value].metadata, f.path) == Some(f.values[k])
  }

  ghost predicate ValueAt(f: MetadataFilter, n: nat, env: Env, at: Extract)
    requires n <= |f.values|
  {
    exists k :: 0 <= k < n && ValueIs(f, k, env, at)
  }

  lemma OrMeans(vals: seq<Cond>, f: MetadataFilter, args: seq<Value>, env: Env, at: Extract)
    requires |vals| == |f.values|
    requires forall k :: 0 <= k < |vals| ==> (Holds(vals[k], args, env, at) <==> ValueIs(f, k, env, at))
    ensures Holds(Or(vals), args, env, at) <==> ValueAt(f, |f.values|, env, at)
  {
  }
}
