/** What the viewer shows after any run, told from the operations performed. */
module XrayLogsLaws {
  import opened Basics
  import opened XrayLogs
  import Text

  /** Where the run stands before its last operation. */
  function Before(ops: seq<LogOp>): LogView
    requires ops != []
  {
    PerformAll(INITIAL, ops[..|ops| - 1])
  }

  // ---------------------------------------------------------------------
  // Loading

  /** A read or a probe is started; a read is refused while following. */
  predicate Starts(v: LogView, op: LogOp) {
    op == StartProbe || (op == StartRead && v.ui != Following)
  }

  /** The awaited probe, with its answer: not a stale one. */
  predicate ProbeAnswers(v: LogView, op: LogOp) {
    op.ProbeDone? && v.probe == Some(v.generation)
  }

  predicate Delivers(v: LogView, op: LogOp) {
    op.Deliver? && op.event.Replace? && Relevant(v, op.event)
  }

  predicate Fails(v: LogView, op: LogOp) {
    op.Deliver? && op.event.ReadFailed? && op.event.generation == v.generation
  }

  predicate Selects(v: LogView, op: LogOp) {
    op.SelectSource? && op.kind != v.selected
  }

  /** What was awaited has come, failed, ended, or is awaited no more. */
  predicate Settles(v: LogView, op: LogOp) {
    || Delivers(v, op) || Fails(v, op) || op == WorkerGone
    || (ProbeAnswers(v, op) && (op.error.Some? || op.idle))
    || op == Reset || op == StartFollow || Selects(v, op)
  }

  /** A read or probe was started and nothing has settled it since. */
  predicate Pending(ops: seq<LogOp>) {
    ops != [] &&
    var v, op := Before(ops), ops[|ops| - 1];
    Starts(v, op) || (Pending(ops[..|ops| - 1]) && !Settles(v, op))
  }

  /** What the state of the viewer becomes with an event. */
  lemma EventState(v: LogView, e: StreamEvent)
    ensures var u := Apply(v, e);
            && u.ui == (if Delivers(v, Deliver(e)) then (if v.ui == Following then Following else Idle)
                        else if Fails(v, Deliver(e)) then Failed(e.error)
                        else if e.FollowStopped? && e.generation == v.generation && v.ui == Following then Idle
                        else v.ui)
            && u.lastError == (if Delivers(v, Deliver(e)) then None
                               else if Fails(v, Deliver(e)) then Some(e.error)
                               else v.lastError)
  {
  }

  lemma LoadingStep(v: LogView, op: LogOp)
    ensures Perform(v, op).ui == Loading <==> Starts(v, op) || (v.ui == Loading && !Settles(v, op))
  {
    if op.Deliver? {
      EventState(v, op.event);
    } else {
      OtherLoading(v, op);
    }
  }

  lemma OtherLoading(v: LogView, op: LogOp)
    requires !op.Deliver?
    ensures Perform(v, op).ui == Loading <==> Starts(v, op) || (v.ui == Loading && !Settles(v, op))
  {
  }

  /** The viewer says "loading" exactly while something is loaded. */
  lemma {:induction false} LoadingWhilePending(ops: seq<LogOp>)
    ensures PerformAll(INITIAL, ops).ui == Loading <==> Pending(ops)
  {
    if ops != [] {
      LoadingWhilePending(ops[..|ops| - 1]);
      LoadingStep(Before(ops), ops[|ops| - 1]);
    }
  }

  // ---------------------------------------------------------------------
  // Failures

  /** The failure the operation brings to the user's eyes. */
  function Complaint(v: LogView, op: LogOp): Option<LogError> {
    if Fails(v, op) then Some(op.event.error)
    else if ProbeAnswers(v, op) then op.error
    else if op == WorkerGone && v.ui == Following then
      Some(LogError(FollowSessionInterrupted, "Follow worker ended unexpectedly."))
    else if op == WorkerGone && v.ui == Loading then
      Some(LogError(RemoteReadFailed, "Log worker ended unexpectedly."))
    else None
  }

  /** A failure is forgotten with new lines, a new start, another source, or a reset. */
  predicate Forgives(v: LogView, op: LogOp) {
    Delivers(v, op) || Starts(v, op) || op == StartFollow || Selects(v, op) || op == Reset
  }

  function Grievance(ops: seq<LogOp>): Option<LogError> {
    if ops == [] then None
    else
      Next(Before(ops), ops[|ops| - 1], Grievance(ops[..|ops| - 1]))
  }

  predicate Shows(v: LogView, grievance: Option<LogError>) {
    if grievance.Some? then v.ui == Failed(grievance.value) else !v.ui.Failed?
  }

  /** The failure the user sees after the operation, given the one before. */
  function Next(v: LogView, op: LogOp, grievance: Option<LogError>): Option<LogError> {
    if Complaint(v, op).Some? then Complaint(v, op)
    else if Forgives(v, op) then None
    else grievance
  }

  lemma FailureStep(v: LogView, op: LogOp, grievance: Option<LogError>)
    requires Shows(v, grievance)
    ensures Shows(Perform(v, op), Next(v, op, grievance))
  {
    if op.Deliver? {
      EventState(v, op.event);
    } else {
      OtherFailure(v, op, grievance);
    }
  }

  lemma OtherFailure(v: LogView, op: LogOp, grievance: Option<LogError>)
    requires Shows(v, grievance) && !op.Deliver?
    ensures Shows(Perform(v, op), Next(v, op, grievance))
  {
  }

  /** The viewer shows exactly the latest failure that nothing has overtaken. */
  lemma {:induction false} FailureShown(ops: seq<LogOp>)
    ensures Shows(PerformAll(INITIAL, ops), Grievance(ops))
  {
    if ops != [] {
      FailureShown(ops[..|ops| - 1]);
      FailureStep(Before(ops), ops[|ops| - 1], Grievance(ops[..|ops| - 1]));
    }
  }

  /** The last error is that of a worker's report; a probe leaves an old one standing. */
  function ErrorOf(ops: seq<LogOp>): Option<LogError> {
    if ops == [] then None
    else
      var v, op := Before(ops), ops[|ops| - 1];
      if op != WorkerGone && Complaint(v, op).Some? then Complaint(v, op)
      else if op != StartProbe && Forgives(v, op) then None
      else ErrorOf(ops[..|ops| - 1])
  }

  lemma ErrorStep(v: LogView, op: LogOp)
    ensures Perform(v, op).lastError
            == if op != WorkerGone && Complaint(v, op).Some? then Complaint(v, op)
               else if op != StartProbe && Forgives(v, op) then None
               else v.lastError
  {
    if op.Deliver? {
      EventState(v, op.event);
    }
  }

  lemma {:induction false} LastErrorKept(ops: seq<LogOp>)
    ensures PerformAll(INITIAL, ops).lastError == ErrorOf(ops)
  {
    if ops != [] {
      LastErrorKept(ops[..|ops| - 1]);
      ErrorStep(Before(ops), ops[|ops| - 1]);
    }
  }

  /** A started follow, until it is stopped, ends, or is overtaken. */
  predicate Pursued(ops: seq<LogOp>) {
    ops != [] &&
    var v, op := Before(ops), ops[|ops| - 1];
    op == StartFollow || (Pursued(ops[..|ops| - 1]) && !Stops(v, op) && !Ends(v, op))
  }

  lemma FollowingStep(v: LogView, op: LogOp)
    requires ProbeFits(v)
    ensures Perform(v, op).ui == Following
            <==> op == StartFollow || (v.ui == Following && !Stops(v, op) && !Ends(v, op))
  {
    if op.Deliver? {
      EventState(v, op.event);
    }
  }

  /** In every run too short to exhaust the 64-bit generations. */
  lemma {:induction false} FollowingWhilePursued(ops: seq<LogOp>)
    requires |ops| <= U64_MAX
    ensures PerformAll(INITIAL, ops).ui == Following <==> Pursued(ops)
  {
    if ops != [] {
      FollowingWhilePursued(ops[..|ops| - 1]);
      HandleAlwaysFits(ops[..|ops| - 1]);
      FollowingStep(Before(ops), ops[|ops| - 1]);
    }
  }

  // ---------------------------------------------------------------------
  // Settings and generations

  function Chosen(ops: seq<LogOp>): SourceKind {
    if ops == [] then ErrorFile
    else match ops[|ops| - 1] {
      case Reset => ErrorFile
      case SelectSource(kind) => kind
      case SettingsSaved(kind) => kind
      case _ => Chosen(ops[..|ops| - 1])
    }
  }

  function Limit(ops: seq<LogOp>): LineLimit {
    if ops == [] then TwoHundred
    else match ops[|ops| - 1] {
      case Reset => TwoHundred
      case SetLimit(limit) => limit
      case _ => Limit(ops[..|ops| - 1])
    }
  }

  /** The query survives everything but another source and a reset. */
  function Query(ops: seq<LogOp>): string {
    if ops == [] then ""
    else
      var earlier := Query(ops[..|ops| - 1]);
      match ops[|ops| - 1]
      case Reset => ""
      case SetQuery(query) => query
      case SelectSource(kind) => if kind == Chosen(ops[..|ops| - 1]) then earlier else ""
      case _ => earlier
  }

  lemma {:induction false} SettingsChosen(ops: seq<LogOp>)
    ensures var v := PerformAll(INITIAL, ops);
            v.selected == Chosen(ops) && v.limit == Limit(ops) && v.search.query == Query(ops)
  {
    if ops != [] {
      SettingsChosen(ops[..|ops| - 1]);
      SettingsStep(Before(ops), ops[|ops| - 1]);
    }
  }

  lemma SettingsStep(v: LogView, op: LogOp)
    ensures var u := Perform(v, op);
            && u.selected == (match op case Reset => ErrorFile
                                       case SelectSource(kind) => kind
                                       case SettingsSaved(kind) => kind
                                       case _ => v.selected)
            && u.limit == (match op case Reset => TwoHundred case SetLimit(limit) => limit case _ => v.limit)
            && u.search.query == (match op case Reset => ""
                                            case SetQuery(query) => query
                                            case SelectSource(kind) => if kind == v.selected then v.search.query else ""
                                            case _ => v.search.query)
  {
    match op {
      case Deliver(e) =>
      case _ =>
    }
  }

  /** What makes earlier workers stale. */
  predicate Supersedes(v: LogView, op: LogOp) {
    Starts(v, op) || op == StartFollow || Selects(v, op) || op.SettingsSaved?
  }

  /** The generation counts them, up to the end of 64 bits, and starts over with a reset. */
  lemma GenerationStep(v: LogView, op: LogOp)
    ensures Perform(v, op).generation
            == if op == Reset then 0
               else if Supersedes(v, op) then Min(v.generation + 1, 0xFFFF_FFFF_FFFF_FFFF)
               else v.generation
    ensures Perform(v, op).probe
            == if op == StartProbe then Some(Perform(v, op).generation)
               else if op == Reset || op.ProbeDone? then None
               else v.probe
  {
    match op {
      case Deliver(e) =>
      case _ =>
    }
  }

  // ---------------------------------------------------------------------
  // Limits and search

  /** How many lines stay while lines are appended. */
  lemma CapValues()
    ensures Hundred.Cap() == 200 && TwoHundred.Cap() == 400 && FiveHundred.Cap() == 1000 && Thousand.Cap() == 2000
  {
  }

  /** The search finds an entry exactly if its message mentions the trimmed query, in whatever case. */
  lemma SearchFinds(entries: seq<LogEntry>, query: string, i: nat)
    ensures i in Searched(entries, query).matches
            <==> Text.Trim(query) != [] && i < |entries| && Text.Mentions(entries[i].message, Text.Trim(query))
  {
    var trimmed := Text.Trim(query);
    assert Text.LowerAll(trimmed) == [] <==> trimmed == [];
    if i < |entries| {
      Text.ContainsMeans(entries[i].message, trimmed);
    }
  }

  /** New lines and new queries highlight the first match. */
  lemma FirstHighlighted(v: LogView, op: LogOp)
    requires op.SetQuery? || (op.Deliver? && (op.event.Replace? || op.event.Append?) && Relevant(v, op.event))
    ensures var u := Perform(v, op);
            u.search.current == if u.search.matches == [] then None else Some(0)
  {
  }
}
