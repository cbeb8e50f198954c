/** Run policies on their way into and out of millisecond storage.
    runtimeadapter/mutations.go and runtimeadapter/jobs.go. */
module RunPolicies {
  import opened Basics

  /** Go's int64: every arithmetic result below is proved to stay inside it. */
  newtype int64 = x: int | -0x8000_0000_0000_0000 <= x < 0x8000_0000_0000_0000
  newtype int32 = x: int | -0x8000_0000 <= x < 0x8000_0000

  const MAX_INT64: int64 := 0x7FFF_FFFF_FFFF_FFFF
  const MILLISECOND: int64 := 1_000_000
  /** The largest millisecond count whose nanosecond form fits an int64. */
  const MAX_MILLIS: int64 := MAX_INT64 / MILLISECOND

  /** Intervals and timeouts are durations in nanoseconds. */
  datatype Policy = Policy(initialInterval: int64, backoff: real, maximumInterval: int64,
                           maximumAttempts: int32, nonRetryable: seq<string>,
                           invocationTimeout: Option<int64>, totalTimeout: Option<int64>)

  /** The stored form: the same record in milliseconds. */
  datatype StoredPolicy = StoredPolicy(initialMillis: int64, backoff: real, maximumMillis: int64,
                                       maximumAttempts: int32, nonRetryable: seq<string>,
                                       invocationMillis: Option<int64>, totalMillis: Option<int64>)

  predicate WholeMillis(d: int64) {
    0 <= d && d % MILLISECOND == 0
  }

  predicate MillisInRange(m: int64) {
    0 <= m <= MAX_MILLIS
  }

  function DurationToMillis(d: int64): (r: Result<int64>)
    ensures r.Ok? <==> WholeMillis(d)
    ensures r.Ok? ==> MillisInRange(r.value)
  {
    if d < 0 || d % MILLISECOND != 0
    then Err("run policy duration must be a nonnegative whole number of milliseconds")
    else Ok(d / MILLISECOND)
  }

  function DurationFromMillis(m: int64): (r: Result<int64>)
    ensures r.Ok? <==> MillisInRange(m)
    ensures r.Ok? ==> r.value as int == m as int * 1_000_000
  {
    if m < 0 || m > MAX_INT64 / MILLISECOND
    then Err("run policy duration in milliseconds is out of range")
    else Ok(m * MILLISECOND)
  }

  function OptionalToMillis(d: Option<int64>): Result<Option<int64>> {
    match d
    case None => Ok(None)
    case Some(v) => match DurationToMillis(v) case Err(e) => Err(e) case Ok(m) => Ok(Some(m))
  }

  function OptionalFromMillis(m: Option<int64>): Result<Option<int64>> {
    match m
    case None => Ok(None)
    case Some(v) => match DurationFromMillis(v) case Err(e) => Err(e) case Ok(d) => Ok(Some(d))
  }

  predicate Storable(p: Policy) {
    && WholeMillis(p.initialInterval) && WholeMillis(p.maximumInterval)
    && (p.invocationTimeout.Some? ==> WholeMillis(p.invocationTimeout.value))
    && (p.totalTimeout.Some? ==> WholeMillis(p.totalTimeout.value))
  }

  predicate InRange(p: StoredPolicy) {
    && MillisInRange(p.initialMillis) && MillisInRange(p.maximumMillis)
    && (p.invocationMillis.Some? ==> MillisInRange(p.invocationMillis.value))
    && (p.totalMillis.Some? ==> MillisInRange(p.totalMillis.value))
  }

  function ToStored(p: Policy): (r: Result<StoredPolicy>)
    ensures r.Ok? <==> Storable(p)
    ensures r.Ok? ==> InRange(r.value)
  {
    match DurationToMillis(p.initialInterval)
    case Err(e) => Err(e)
    case Ok(initial) =>
      match DurationToMillis(p.maximumInterval)
      case Err(e) => Err(e)
      case Ok(maximum) =>
        match OptionalToMillis(p.invocationTimeout)
        case Err(e) => Err(e)
        case Ok(invocation) =>
          match OptionalToMillis(p.totalTimeout)
          case Err(e) => Err(e)
          case Ok(total) =>
            Ok(StoredPolicy(initial, p.backoff, maximum, p.maximumAttempts, p.nonRetryable, invocation, total))
  }

  function FromStored(p: StoredPolicy): (r: Result<Policy>)
    ensures r.Ok? <==> InRange(p)
  {
    match DurationFromMillis(p.initialMillis)
    case Err(e) => Err(e)
    case Ok(initial) =>
      match DurationFromMillis(p.maximumMillis)
      case Err(e) => Err(e)
      case Ok(maximum) =>
        match OptionalFromMillis(p.invocationMillis)
        case Err(e) => Err(e)
        case Ok(invocation) =>
          match OptionalFromMillis(p.totalMillis)
          case Err(e) => Err(e)
          case Ok(total) =>
            Ok(Policy(initial, p.backoff, maximum, p.maximumAttempts, p.nonRetryable, invocation, total))
  }

  /** What SubmitJob itself demands of a policy: no upper bound on milliseconds. */
  predicate SubmitAccepts(p: StoredPolicy) {
    && p.initialMillis >= 0 && p.maximumMillis >= 0 && p.maximumAttempts >= 0 && p.backoff >= 0.0
    && (p.invocationMillis.Some? ==> p.invocationMillis.value >= 0)
    && (p.totalMillis.Some? ==> p.totalMillis.value >= 0)
  }

  lemma MillisInverse(d: int64)
    requires WholeMillis(d)
    ensures DurationFromMillis(DurationToMillis(d).value) == Ok(d)
  {
    assert (d / MILLISECOND) * MILLISECOND == d;
  }

  lemma NanosInverse(m: int64)
    requires MillisInRange(m)
    ensures DurationToMillis(DurationFromMillis(m).value) == Ok(m)
  {
    var d := DurationFromMillis(m).value;
    assert d as int == m as int * 1_000_000 + 0;
    assert d as int % 1_000_000 == 0 && d as int / 1_000_000 == m as int;
  }

  /** Writing an accepted policy and reading it back changes nothing. */
  lemma PolicyRoundTrip(p: Policy)
    requires ToStored(p).Ok?
    ensures FromStored(ToStored(p).value) == Ok(p)
  {
    MillisInverse(p.initialInterval);
    MillisInverse(p.maximumInterval);
    if p.invocationTimeout.Some? { MillisInverse(p.invocationTimeout.value); }
    if p.totalTimeout.Some? { MillisInverse(p.totalTimeout.value); }
  }

  /** Reading a readable stored policy and writing it back changes nothing. */
  lemma StoredRoundTrip(p: StoredPolicy)
    requires FromStored(p).Ok?
    ensures ToStored(FromStored(p).value) == Ok(p)
  {
    NanosInverse(p.initialMillis);
    NanosInverse(p.maximumMillis);
    if p.invocationMillis.Some? { NanosInverse(p.invocationMillis.value); }
    if p.totalMillis.Some? { NanosInverse(p.totalMillis.value); }
  }

  /** The overflow guard is tight: one millisecond more does not fit an int64. */
  lemma GuardIsTight()
    ensures MAX_MILLIS as int * MILLISECOND as int <= MAX_INT64 as int < (MAX_MILLIS as int + 1) * MILLISECOND as int
  {
  }
}
