/** The tagged wire form of a chapter body: a chapter type, a payload kind and bytes. */
module ChapterWire {
  import opened Basics

  type Bytes = seq<bv8>

  /** A Go interface value holds a struct or a pointer to one, which may be nil. */
  datatype Form = ByValue | ByPointer | NilPointer

  datatype Outcome<A, S, T> =
    | Output(form: Form, data: Bytes)
    | AppError(form: Form, app: A)
    | SystemError(form: Form, system: S)
    | Timeout(form: Form, timeout: T)
    | NoOutcome

  datatype Body<A, S, T> =
    | Execution(form: Form, record: Bytes)
    | JobStart(form: Form, input: Bytes)
    | JobAttemptOutcome(form: Form, outcome: Outcome<A, S, T>)
    | TaskAttemptOutcome(form: Form, outcome: Outcome<A, S, T>)
    | RestartExtra(form: Form, output: Bytes)
    | NoBody

  datatype Wire = Wire(chapterType: string, payloadKind: string, data: Bytes)

  /** encoding/json on the three error payloads, and its syntax check. */
  datatype Codec<!A, !S, !T> = Codec(valid: Bytes -> bool,
                                     toApp: A -> Bytes, fromApp: Bytes -> Option<A>,
                                     toSystem: S -> Bytes, fromSystem: Bytes -> Option<S>,
                                     toTimeout: T -> Bytes, fromTimeout: Bytes -> Option<T>)

  ghost predicate Inverse<A(!new), S(!new), T(!new)>(c: Codec<A, S, T>) {
    && (forall a :: c.fromApp(c.toApp(a)) == Some(a))
    && (forall s :: c.fromSystem(c.toSystem(s)) == Some(s))
    && (forall t :: c.fromTimeout(c.toTimeout(t)) == Some(t))
  }

  function OutcomeToWire<A, S, T>(c: Codec<A, S, T>, o: Outcome<A, S, T>): Option<(string, Bytes)> {
    if o.NoOutcome? || o.form == NilPointer then None
    else
      match o
      case Output(_, data) => Some(("App", data))
      case AppError(_, e) => Some(("AppError", c.toApp(e)))
      case SystemError(_, e) => Some(("SystemError", c.toSystem(e)))
      case Timeout(_, e) => Some(("Timeout", c.toTimeout(e)))
  }

  function OutcomeFromWire<A, S, T>(c: Codec<A, S, T>, kind: string, data: Bytes): Option<Outcome<A, S, T>> {
    if kind == "App" then Some(Output(ByValue, data))
    else if kind == "AppError" then
      (match c.fromApp(data) case None => None case Some(e) => Some(AppError(ByValue, e)))
    else if kind == "SystemError" then
      (match c.fromSystem(data) case None => None case Some(e) => Some(SystemError(ByValue, e)))
    else if kind == "Timeout" then
      (match c.fromTimeout(data) case None => None case Some(e) => Some(Timeout(ByValue, e)))
    else None
  }

  function WithOutcome<A, S, T>(c: Codec<A, S, T>, chapterType: string, o: Outcome<A, S, T>): Option<Wire> {
    match OutcomeToWire(c, o)
    case None => None
    case Some(w) => Some(Wire(chapterType, w.0, w.1))
  }

  function ToWire<A, S, T>(c: Codec<A, S, T>, b: Body<A, S, T>): Option<Wire> {
    if b.NoBody? || b.form == NilPointer then None
    else
      match b
      case Execution(_, record) => Some(Wire("Execution", "App", record))
      case JobStart(_, input) => Some(Wire("JobStart", "App", input))
      case JobAttemptOutcome(_, o) => WithOutcome(c, "JobAttemptOutcome", o)
      case TaskAttemptOutcome(_, o) => WithOutcome(c, "TaskAttemptOutcome", o)
      case RestartExtra(_, output) => Some(Wire("RestartExtra", "App", output))
  }

  function FromWire<A, S, T>(c: Codec<A, S, T>, w: Wire): Option<Body<A, S, T>> {
    if w.chapterType == "Execution" then
      (if w.payloadKind != "App" || !c.valid(w.data) then None else Some(Execution(ByValue, w.data)))
    else if w.chapterType == "JobStart" then
      (if w.payloadKind != "App" then None else Some(JobStart(ByValue, w.data)))
    else if w.chapterType == "JobAttemptOutcome" then
      (match OutcomeFromWire(c, w.payloadKind, w.data) case None => None case Some(o) => Some(JobAttemptOutcome(ByValue, o)))
    else if w.chapterType == "TaskAttemptOutcome" then
      (match OutcomeFromWire(c, w.payloadKind, w.data) case None => None case Some(o) => Some(TaskAttemptOutcome(ByValue, o)))
    else if w.chapterType == "RestartExtra" then
      (if w.payloadKind != "App" then None else Some(RestartExtra(ByValue, w.data)))
    else None
  }

  function OutcomeByValue<A, S, T>(o: Outcome<A, S, T>): Outcome<A, S, T> {
    if o.NoOutcome? then o else o.(form := ByValue)
  }

  /** The same chapter with every pointer replaced by what it points to. */
  function BodyByValue<A, S, T>(b: Body<A, S, T>): Body<A, S, T> {
    match b
    case NoBody => b
    case JobAttemptOutcome(_, o) => JobAttemptOutcome(ByValue, OutcomeByValue(o))
    case TaskAttemptOutcome(_, o) => TaskAttemptOutcome(ByValue, OutcomeByValue(o))
    case Execution(_, record) => Execution(ByValue, record)
    case JobStart(_, input) => JobStart(ByValue, input)
    case RestartExtra(_, output) => RestartExtra(ByValue, output)
  }

  /** Encoding fails exactly on a missing body or outcome. */
  ghost predicate Present<A, S, T>(b: Body<A, S, T>) {
    && !b.NoBody? && b.form != NilPointer
    && (b.JobAttemptOutcome? || b.TaskAttemptOutcome? ==> !b.outcome.NoOutcome? && b.outcome.form != NilPointer)
  }

  lemma OutcomeRoundTrip<A(!new), S(!new), T(!new)>(c: Codec<A, S, T>, o: Outcome<A, S, T>)
    requires Inverse(c) && !o.NoOutcome? && o.form != NilPointer
    ensures OutcomeToWire(c, o).Some?
    ensures var w := OutcomeToWire(c, o).value; OutcomeFromWire(c, w.0, w.1) == Some(OutcomeByValue(o))
  {
  }

  /** Every body, by value or by pointer, comes back from its triple by value; an execution
      record that is not JSON is the one thing that is written but not read back. */
  lemma BodyRoundTrip<A(!new), S(!new), T(!new)>(c: Codec<A, S, T>, b: Body<A, S, T>)
    requires Inverse(c)
    ensures ToWire(c, b).Some? <==> Present(b)
    ensures Present(b) ==>
              FromWire(c, ToWire(c, b).value) == if b.Execution? && !c.valid(b.record) then None else Some(BodyByValue(b))
  {
    if Present(b) && (b.JobAttemptOutcome? || b.TaskAttemptOutcome?) {
      OutcomeRoundTrip(c, b.outcome);
    }
  }

  /** An accepted application payload is re-encoded to the very same triple; for an error
      payload the tags stay and the bytes are its canonical encoding. */
  lemma WireRoundTrip<A(!new), S(!new), T(!new)>(c: Codec<A, S, T>, w: Wire)
    requires Inverse(c) && FromWire(c, w).Some?
    ensures var r := ToWire(c, FromWire(c, w).value);
            && r.Some? && r.value.chapterType == w.chapterType && r.value.payloadKind == w.payloadKind
            && (w.payloadKind == "App" ==> r.value == w)
            && FromWire(c, r.value) == FromWire(c, w)
  {
    BodyRoundTrip(c, FromWire(c, w).value);
  }
}
