/** The filter fingerprint a job-list cursor carries, and which tokens a request accepts. */
module Fingerprints {
  import opened Basics
  import opened Orders

  /** What json.Marshal is given; equal texts come from equal values. */
  datatype Json = JNull | JBool(value: bool) | JNumber(digits: string) | JText(text: string) | JArray(items: seq<Json>) | JObject(fields: seq<(string, Json)>)

  type Pair = (string, string)

  /** ListJobsOptions without paging. Times are given by their JSON text. */
  datatype Filter = Filter(tenants: seq<string>, statuses: seq<string>, stores: seq<string>, jobTypes: seq<string>,
                           tasks: seq<Pair>, keys: seq<Pair>, parents: seq<string>, rootOnly: bool,
                           predicates: seq<Json>, createdAfter: Option<string>, createdBefore: Option<string>,
                           routes: seq<Pair>, includeHidden: bool, goals: seq<string>)

  function PairLe(): (Pair, Pair) -> bool {
    Lex(StringLe, StringLe)
  }

  function Texts(s: seq<string>): Json {
    JArray(seq(|s|, i requires 0 <= i < |s| => JText(s[i])))
  }

  function Object(a: string, b: string, p: Pair): Json {
    JObject([(a, JText(p.0)), (b, JText(p.1))])
  }

  function Objects(a: string, b: string, s: seq<Pair>): Json {
    JArray(seq(|s|, i requires 0 <= i < |s| => Object(a, b, s[i])))
  }

  function OptionalText(t: Option<string>): Json {
    if t.None? then JNull else JText(t.value)
  }

  /** The eleven components every request has. */
  function Base(f: Filter): seq<Json> {
    [Texts(Sort(StringLe, f.tenants)), Texts(Sort(StringLe, f.statuses)), Texts(Sort(StringLe, f.stores)),
     Texts(Sort(StringLe, f.jobTypes)), Objects("job_type", "task_type", Sort(PairLe(), f.tasks)),
     Objects("tenant_id", "job_id", Sort(PairLe(), f.keys)), Texts(Sort(StringLe, f.parents)),
     JBool(f.rootOnly), JArray(f.predicates), OptionalText(f.createdAfter), OptionalText(f.createdBefore)]
  }

  function Routes(f: Filter): seq<Pair> {
    Compact(Sort(PairLe(), f.routes))
  }

  function Goals(f: Filter): seq<string> {
    Compact(Sort(StringLe, f.goals))
  }

  function RouteTail(routes: seq<Pair>): seq<Json> {
    if routes == [] then [] else [Objects("job_type", "task_type", routes)]
  }

  function HiddenTail(hidden: bool): seq<Json> {
    if hidden then [JText("include-hidden")] else []
  }

  function GoalTail(goals: seq<string>): seq<Json> {
    if goals == [] then [] else [Texts(goals)]
  }

  /** Components appended only when they restrict something. */
  function Tail(f: Filter): seq<Json> {
    RouteTail(Routes(f)) + HiddenTail(f.includeHidden) + GoalTail(Goals(f))
  }

  function Normal(f: Filter): Json {
    JArray(Base(f) + Tail(f))
  }

  /** Building the list step by step, as listJobs does. */
  method BuildFilters(f: Filter) returns (filters: seq<Json>)
    ensures JArray(filters) == Normal(f)
  {
    filters := Base(f);
    var routes, goals := Routes(f), Goals(f);
    if |routes| > 0 { filters := filters + [Objects("job_type", "task_type", routes)]; }
    if f.includeHidden { filters := filters + [JText("include-hidden")]; }
    if |goals| > 0 { filters := filters + [Texts(goals)]; }
    assert filters == Base(f) + Tail(f);
  }

  /** The same question, asked twice. */
  ghost predicate Equivalent(a: Filter, b: Filter) {
    && multiset(a.tenants) == multiset(b.tenants) && multiset(a.statuses) == multiset(b.statuses)
    && multiset(a.stores) == multiset(b.stores) && multiset(a.jobTypes) == multiset(b.jobTypes)
    && multiset(a.tasks) == multiset(b.tasks) && multiset(a.keys) == multiset(b.keys)
    && multiset(a.parents) == multiset(b.parents)
    && a.rootOnly == b.rootOnly && a.predicates == b.predicates
    && a.createdAfter == b.createdAfter && a.createdBefore == b.createdBefore
    && Elements(a.routes) == Elements(b.routes) && a.includeHidden == b.includeHidden
    && Elements(a.goals) == Elements(b.goals)
  }

  lemma TextsInjective(a: seq<string>, b: seq<string>)
    ensures Texts(a) == Texts(b) <==> a == b
  {
    if Texts(a) == Texts(b) {
      assert |a| == |Texts(a).items| == |b|;
      forall i | 0 <= i < |a| ensures a[i] == b[i] { assert Texts(a).items[i] == Texts(b).items[i]; }
    }
  }

  lemma ObjectsInjective(x: string, y: string, a: seq<Pair>, b: seq<Pair>)
    ensures Objects(x, y, a) == Objects(x, y, b) <==> a == b
  {
    if Objects(x, y, a) == Objects(x, y, b) {
      assert |a| == |Objects(x, y, a).items| == |b|;
      forall i | 0 <= i < |a| ensures a[i] == b[i] {
        assert Objects(x, y, a).items[i] == Objects(x, y, b).items[i];
        assert Object(x, y, a[i]).fields[0] == Object(x, y, b[i]).fields[0];
        assert Object(x, y, a[i]).fields[1] == Object(x, y, b[i]).fields[1];
      }
    }
  }

  lemma SortedTexts(a: seq<string>, b: seq<string>)
    ensures Texts(Sort(StringLe, a)) == Texts(Sort(StringLe, b)) <==> multiset(a) == multiset(b)
  {
    StringOrder();
    SortNormalizes(StringLe, a, b);
    TextsInjective(Sort(StringLe, a), Sort(StringLe, b));
  }

  lemma PairOrder()
    ensures TotalOrder(PairLe())
  {
    StringOrder();
    LexOrder(StringLe, StringLe);
  }

  lemma SortedObjects(x: string, y: string, a: seq<Pair>, b: seq<Pair>)
    ensures Objects(x, y, Sort(PairLe(), a)) == Objects(x, y, Sort(PairLe(), b)) <==> multiset(a) == multiset(b)
  {
    PairOrder();
    SortNormalizes(PairLe(), a, b);
    ObjectsInjective(x, y, Sort(PairLe(), a), Sort(PairLe(), b));
  }

  ghost predicate EqualBase(a: Filter, b: Filter) {
    && Texts(Sort(StringLe, a.tenants)) == Texts(Sort(StringLe, b.tenants))
    && Texts(Sort(StringLe, a.statuses)) == Texts(Sort(StringLe, b.statuses))
    && Texts(Sort(StringLe, a.stores)) == Texts(Sort(StringLe, b.stores))
    && Texts(Sort(StringLe, a.jobTypes)) == Texts(Sort(StringLe, b.jobTypes))
    && Objects("job_type", "task_type", Sort(PairLe(), a.tasks)) == Objects("job_type", "task_type", Sort(PairLe(), b.tasks))
    && Objects("tenant_id", "job_id", Sort(PairLe(), a.keys)) == Objects("tenant_id", "job_id", Sort(PairLe(), b.keys))
    && Texts(Sort(StringLe, a.parents)) == Texts(Sort(StringLe, b.parents))
    && a.rootOnly == b.rootOnly && a.predicates == b.predicates
    && OptionalText(a.createdAfter) == OptionalText(b.createdAfter)
    && OptionalText(a.createdBefore) == OptionalText(b.createdBefore)
  }

  lemma BaseIff(a: Filter, b: Filter)
    ensures Base(a) == Base(b) <==> EqualBase(a, b)
  {
    var x, y := Base(a), Base(b);
    if x == y {
      assert x[0] == y[0] && x[1] == y[1] && x[2] == y[2] && x[3] == y[3] && x[4] == y[4] && x[5] == y[5];
      assert x[6] == y[6] && x[7] == y[7] && x[8] == y[8] && x[9] == y[9] && x[10] == y[10];
    }
  }

  lemma BaseEquivalent(a: Filter, b: Filter)
    ensures EqualBase(a, b) <==> Equivalent(a, b.(routes := a.routes, includeHidden := a.includeHidden, goals := a.goals))
  {
    SortedTexts(a.tenants, b.tenants);
    SortedTexts(a.statuses, b.statuses);
    SortedTexts(a.stores, b.stores);
    SortedTexts(a.jobTypes, b.jobTypes);
    SortedObjects("job_type", "task_type", a.tasks, b.tasks);
    SortedObjects("tenant_id", "job_id", a.keys, b.keys);
    SortedTexts(a.parents, b.parents);
  }

  /** Which optional component is which shows in its shape: objects, a string, strings. */
  lemma TailParts(r: seq<Pair>, h: bool, g: seq<string>, r': seq<Pair>, h': bool, g': seq<string>)
    requires RouteTail(r) + HiddenTail(h) + GoalTail(g) == RouteTail(r') + HiddenTail(h') + GoalTail(g')
    ensures RouteTail(r) == RouteTail(r') && h == h' && GoalTail(g) == GoalTail(g')
  {
    var t, t' := RouteTail(r) + HiddenTail(h) + GoalTail(g), RouteTail(r') + HiddenTail(h') + GoalTail(g');
    if r != [] { assert IsRoutes(t[0]); }
    if r' != [] { assert IsRoutes(t'[0]); }
    if r == [] && t != [] { assert !IsRoutes(t[0]) by { NotRoutes(h, g, t); } }
    if r' == [] && t' != [] { assert !IsRoutes(t'[0]) by { NotRoutes(h', g', t'); } }
    assert (r == []) == (r' == []);
    var n := |RouteTail(r)|;
    assert t[n..] == HiddenTail(h) + GoalTail(g) && t'[n..] == HiddenTail(h') + GoalTail(g');
    assert t[..n] == RouteTail(r) && t'[..n] == RouteTail(r');
    RestParts(h, g, h', g');
  }

  predicate IsRoutes(j: Json) {
    j.JArray? && |j.items| > 0 && j.items[0].JObject?
  }

  lemma NotRoutes(h: bool, g: seq<string>, t: seq<Json>)
    requires t == HiddenTail(h) + GoalTail(g) && t != []
    ensures !IsRoutes(t[0])
  {
  }

  lemma RestParts(h: bool, g: seq<string>, h': bool, g': seq<string>)
    requires HiddenTail(h) + GoalTail(g) == HiddenTail(h') + GoalTail(g')
    ensures h == h' && GoalTail(g) == GoalTail(g')
  {
    var t, t' := HiddenTail(h) + GoalTail(g), HiddenTail(h') + GoalTail(g');
    if t != [] { assert t[0].JText? == h; }
    if t' != [] { assert t'[0].JText? == h'; }
    assert h == h';
    var n := |HiddenTail(h)|;
    assert t[n..] == GoalTail(g) && t'[n..] == GoalTail(g');
  }

  lemma TailIff(a: Filter, b: Filter)
    ensures Tail(a) == Tail(b) <==>
              Elements(a.routes) == Elements(b.routes) && a.includeHidden == b.includeHidden && Elements(a.goals) == Elements(b.goals)
  {
    PairOrder();
    StringOrder();
    CompactNormalizes(PairLe(), a.routes, b.routes);
    CompactNormalizes(StringLe, a.goals, b.goals);
    if Tail(a) == Tail(b) {
      TailParts(Routes(a), a.includeHidden, Goals(a), Routes(b), b.includeHidden, Goals(b));
      RouteTailInjective(Routes(a), Routes(b));
      GoalTailInjective(Goals(a), Goals(b));
    }
  }

  lemma RouteTailInjective(a: seq<Pair>, b: seq<Pair>)
    requires RouteTail(a) == RouteTail(b)
    ensures a == b
  {
    if a != [] && b != [] {
      assert RouteTail(a)[0] == RouteTail(b)[0];
      ObjectsInjective("job_type", "task_type", a, b);
    }
  }

  lemma GoalTailInjective(a: seq<string>, b: seq<string>)
    requires GoalTail(a) == GoalTail(b)
    ensures a == b
  {
    if a != [] && b != [] {
      assert GoalTail(a)[0] == GoalTail(b)[0];
      TextsInjective(a, b);
    }
  }

  lemma NormalParts(a: Filter, b: Filter)
    ensures Normal(a) == Normal(b) <==> Base(a) == Base(b) && Tail(a) == Tail(b)
  {
    var x, y := Base(a) + Tail(a), Base(b) + Tail(b);
    assert x[..11] == Base(a) && x[11..] == Tail(a);
    assert y[..11] == Base(b) && y[11..] == Tail(b);
  }

  /** SHA-256 rendered in hex, taken as free of collisions. */
  ghost predicate Injective(digest: Json -> string) {
    forall x, y :: digest(x) == digest(y) ==> x == y
  }

  /** Two requests share a fingerprint exactly when they ask the same question. */
  lemma FingerprintIff(digest: Json -> string, a: Filter, b: Filter)
    requires Injective(digest)
    ensures digest(Normal(a)) == digest(Normal(b)) <==> Equivalent(a, b)
  {
    NormalParts(a, b);
    BaseIff(a, b);
    BaseEquivalent(a, b);
    TailIff(a, b);
  }

  // ---- Tokens ------------------------------------------------------------------------------

  /** The last row of a page; createdAt 0 stands for Go's zero time. */
  datatype Cursor = Cursor(filter: string, createdAt: int, tenant: string, job: string)

  /** Length of n bytes in unpadded base64url (section 5 of RFC 4648). */
  function RawLength(n: nat): nat {
    n / 3 * 4 + (if n % 3 == 0 then 0 else n % 3 + 1)
  }

  /** JSON and base64url read back what they wrote. */
  ghost predicate Codecs(marshal: Cursor -> seq<bv8>, unmarshal: seq<bv8> -> Option<Cursor>,
                         encode: seq<bv8> -> string, decode: string -> Option<seq<bv8>>)
  {
    && (forall c :: unmarshal(marshal(c)) == Some(c) && |marshal(c)| > 0)
    && (forall b :: decode(encode(b)) == Some(b) && |encode(b)| == RawLength(|b|))
  }

  /** What listJobs does with a page token: no token starts over, a good one names a row. */
  function Resume(token: string, fingerprint: string, unmarshal: seq<bv8> -> Option<Cursor>,
                  decode: string -> Option<seq<bv8>>): Result<Option<Cursor>>
  {
    if token == "" then Ok(None)
    else if |token| > 4096 then Err("invalid job page token")
    else
      match decode(token)
      case None => Err("invalid job page token")
      case Some(data) =>
        match unmarshal(data)
        case None => Err("invalid job page token")
        case Some(c) =>
          if c.filter != fingerprint || c.createdAt == 0 || c.tenant == "" || c.job == ""
          then Err("invalid job page token") else Ok(Some(c))
  }

  lemma TokenFits(n: nat)
    ensures RawLength(n) <= 4096 <==> n <= 3072
  {
  }

  /** A token emitted for one request is taken up by another exactly when both ask the same
      question and the cursor's JSON has at most 3072 bytes; it then resumes at its own row.
      Longer ones are emitted all the same and always refused. */
  lemma TokenAccepted(digest: Json -> string, marshal: Cursor -> seq<bv8>, unmarshal: seq<bv8> -> Option<Cursor>,
                      encode: seq<bv8> -> string, decode: string -> Option<seq<bv8>>,
                      a: Filter, b: Filter, row: Cursor)
    requires Injective(digest) && Codecs(marshal, unmarshal, encode, decode)
    requires row.filter == digest(Normal(a)) && row.createdAt != 0 && row.tenant != "" && row.job != ""
    ensures var r := Resume(encode(marshal(row)), digest(Normal(b)), unmarshal, decode);
            && (r.Ok? <==> Equivalent(a, b) && |marshal(row)| <= 3072)
            && (r.Ok? ==> r.value == Some(row))
  {
    TokenFits(|marshal(row)|);
    FingerprintIff(digest, a, b);
    assert |encode(marshal(row))| == RawLength(|marshal(row)|) > 0;
  }

  /** validateMetadataPredicates: a path of names and at least one JSON value each. */
  datatype Predicate = Predicate(path: seq<string>, values: seq<string>)

  ghost predicate WellFormed(valid: string -> bool, p: Predicate) {
    && p.path != [] && p.values != []
    && (forall e :: e in p.path ==> e != "") && (forall v :: v in p.values ==> valid(v))
  }

  method CheckPredicates(valid: string -> bool, ps: seq<Predicate>) returns (ok: bool)
    ensures ok <==> forall i :: 0 <= i < |ps| ==> WellFormed(valid, ps[i])
  {
    for i := 0 to |ps|
      invariant forall k :: 0 <= k < i ==> WellFormed(valid, ps[k])
    {
      var p := ps[i];
      if |p.path| == 0 || |p.values| == 0 { return false; }
      for e := 0 to |p.path|
        invariant forall k :: 0 <= k < e ==> p.path[k] != ""
      {
        if p.path[e] == "" {
          assert p.path[e] in p.path;
          return false;
        }
      }
      for v := 0 to |p.values|
        invariant forall k :: 0 <= k < v ==> valid(p.values[k])
      {
        if !valid(p.values[v]) {
          assert p.values[v] in p.values;
          return false;
        }
      }
    }
    return true;
  }
}
