/**
 The log viewer: a state machine fed by worker events, with generation-based
 rejection of stale workers, a bounded buffer, a search index over the buffer
 and a stop handle for the follow worker.
 */
module XrayLogs {
  import opened Basics
  import Text

  datatype SourceKind = AccessFile | ErrorFile | Journal

  datatype LogEntry = LogEntry(timestamp: Option<string>, level: Option<string>, message: string)

  datatype LineLimit = Hundred | TwoHundred | FiveHundred | Thousand {
    function Lines(): nat {
      match this
      case Hundred => 100
      case TwoHundred => 200
      case FiveHundred => 500
      case Thousand => 1000
    }

    /** How many entries the buffer keeps while lines are appended. */
    function Cap(): nat {
      Max(Lines() * 2, 100)
    }
  }

  datatype LogErrorKind =
    NoSshConnection | LogSourceDisabled | RemoteReadFailed | FollowSessionInterrupted | OtherLogError

  datatype LogError = LogError(kind: LogErrorKind, detail: string)

  datatype UiState = Idle | Loading | Following | Failed(error: LogError)

  datatype StreamEvent =
    | Replace(generation: Generation, kind: SourceKind, entries: seq<LogEntry>)
    | Append(generation: Generation, kind: SourceKind, entries: seq<LogEntry>)
    | ReadFailed(generation: Generation, error: LogError)
    | FollowStopped(generation: Generation)

  // ---------------------------------------------------------------------
  // Search

  datatype LogSearch = LogSearch(query: string, matches: seq<nat>, current: Option<nat>)

  predicate Hit(entry: LogEntry, needle: string) {
    Text.Contains(Text.LowerAll(entry.message), needle)
  }

  /** The positions of the entries that contain `needle`, in order. */
  function Hits(entries: seq<LogEntry>, needle: string): (hits: seq<nat>)
    ensures forall i: nat :: i in hits <==> i < |entries| && Hit(entries[i], needle)
    ensures forall j, k :: 0 <= j < k < |hits| ==> hits[j] < hits[k]
  {
    if entries == [] then []
    else
      var n := |entries| - 1;
      var before := Hits(entries[..n], needle);
      assert forall j :: 0 <= j < |before| ==> before[j] in before;
      if Hit(entries[n], needle) then before + [n] else before
  }

  /** The index `recompute` builds: every matching position, the first one highlighted. */
  function Searched(entries: seq<LogEntry>, query: string): LogSearch {
    var needle := Text.LowerAll(Text.Trim(query));
    var hits := if needle == [] then [] else Hits(entries, needle);
    LogSearch(query, hits, if hits == [] then None else Some(0))
  }

  // ---------------------------------------------------------------------
  // The viewer as a value

  const U64_MAX: nat := 0xFFFF_FFFF_FFFF_FFFF

  type Generation = n: nat | n <= U64_MAX

  /** `following` says whether a stop handle is held, `probe` which source probe is awaited. */
  datatype LogView = LogView(
    selected: SourceKind,
    limit: LineLimit,
    entries: seq<LogEntry>,
    search: LogSearch,
    ui: UiState,
    following: bool,
    generation: Generation,
    lastError: Option<LogError>,
    probe: Option<Generation>)

  const INITIAL: LogView :=
    LogView(ErrorFile, TwoHundred, [], LogSearch("", [], None), Idle, false, 0, None, None)

  /** The event concerns the current worker and, when it brings lines, the selected source. */
  predicate Relevant(v: LogView, e: StreamEvent) {
    e.generation == v.generation && (e.Replace? || e.Append? ==> e.kind == v.selected)
  }

  function Apply(v: LogView, e: StreamEvent): LogView {
    if e.generation != v.generation then v
    else match e {
      case Replace(_, kind, entries) =>
        if kind != v.selected then v
        else v.(entries := entries,
                search := Searched(entries, v.search.query),
                ui := if v.ui == Following then Following else Idle,
                lastError := None)
      case Append(_, kind, entries) =>
        if kind != v.selected then v
        else
          var kept := LastN(v.entries + entries, v.limit.Cap());
          v.(entries := kept, search := Searched(kept, v.search.query))
      case ReadFailed(_, error) =>
        v.(lastError := Some(error), ui := Failed(error), following := false)
      case FollowStopped(_) =>
        v.(following := false, ui := if v.ui == Following then Idle else v.ui)
    }
  }

  function StopFollow(v: LogView): LogView {
    v.(following := false, ui := if v.ui == Following then Idle else v.ui)
  }

  /** The events in order of arrival. */
  function ApplyAll(v: LogView, events: seq<StreamEvent>): LogView {
    if events == [] then v
    else Apply(ApplyAll(v, events[..|events| - 1]), events[|events| - 1])
  }

  /**
   The channel is closed after the event: its worker failed or stopped, by its
   own word whatever its generation, or a read that is not followed is complete.
   */
  predicate Closes(v: LogView, e: StreamEvent) {
    e.ReadFailed? || e.FollowStopped? || (e.Replace? && Apply(v, e).ui != Following)
  }

  /** How many of the waiting events are taken before the channel is closed. */
  function Taken(v: LogView, events: seq<StreamEvent>): (n: nat)
    ensures n <= |events|
    decreases |events|
  {
    if events == [] then 0
    else if Closes(v, events[0]) then 1
    else 1 + Taken(Apply(v, events[0]), events[1..])
  }

  // ---------------------------------------------------------------------
  // Stale workers do not interfere

  function OnlyRelevant(v: LogView, events: seq<StreamEvent>): seq<StreamEvent> {
    if events == [] then []
    else
      var e := events[|events| - 1];
      OnlyRelevant(v, events[..|events| - 1]) + if Relevant(v, e) then [e] else []
  }

  lemma {:induction false} SettingsKept(v: LogView, events: seq<StreamEvent>)
    ensures var u := ApplyAll(v, events);
            u.selected == v.selected && u.limit == v.limit && u.generation == v.generation
            && u.search.query == v.search.query
  {
    if events != [] {
      SettingsKept(v, events[..|events| - 1]);
    }
  }

  /** Any interleaving of events of old and current workers has the effect of the relevant ones alone. */
  lemma {:induction false} StaleEventsIgnored(v: LogView, events: seq<StreamEvent>)
    ensures ApplyAll(v, events) == ApplyAll(v, OnlyRelevant(v, events))
  {
    if events != [] {
      var init, e := events[..|events| - 1], events[|events| - 1];
      StaleEventsIgnored(v, init);
      SettingsKept(v, init);
      var kept := OnlyRelevant(v, init);
      if Relevant(v, e) {
        assert OnlyRelevant(v, events) == kept + [e] && (kept + [e])[..|kept|] == kept;
      } else {
        assert OnlyRelevant(v, events) == kept;
      }
    }
  }

  // ---------------------------------------------------------------------
  // What the buffer holds

  /** The latest replacement followed by everything appended since, never cut. */
  function Uncut(start: seq<LogEntry>, events: seq<StreamEvent>): seq<LogEntry> {
    if events == [] then start
    else
      var before, e := Uncut(start, events[..|events| - 1]), events[|events| - 1];
      if e.Replace? then e.entries else if e.Append? then before + e.entries else before
  }

  /** Lines were appended after the latest replacement. */
  predicate Appended(events: seq<StreamEvent>) {
    events != [] &&
    (events[|events| - 1].Append? || (!events[|events| - 1].Replace? && Appended(events[..|events| - 1])))
  }

  /** Cutting at every append is cutting once, at the end; a replacement alone is never cut. */
  lemma {:induction false} BufferContents(v: LogView, events: seq<StreamEvent>)
    requires forall e :: e in events ==> Relevant(v, e)
    ensures ApplyAll(v, events).entries
              == if Appended(events) then LastN(Uncut(v.entries, events), v.limit.Cap())
                 else Uncut(v.entries, events)
  {
    if events != [] {
      var init, e := events[..|events| - 1], events[|events| - 1];
      BufferContents(v, init);
      SettingsKept(v, init);
      assert Relevant(v, e);
      if e.Append? {
        LastNAfterAppend(Uncut(v.entries, init), e.entries, v.limit.Cap());
      }
    }
  }

  /** The same for every stream, stale events included. */
  lemma BufferContentsOfStream(v: LogView, events: seq<StreamEvent>)
    ensures var current := OnlyRelevant(v, events);
            ApplyAll(v, events).entries
              == if Appended(current) then LastN(Uncut(v.entries, current), v.limit.Cap())
                 else Uncut(v.entries, current)
  {
    StaleEventsIgnored(v, events);
    RelevantOnly(v, events);
    BufferContents(v, OnlyRelevant(v, events));
  }

  lemma {:induction false} RelevantOnly(v: LogView, events: seq<StreamEvent>)
    ensures forall e :: e in OnlyRelevant(v, events) ==> Relevant(v, e)
  {
    if events != [] {
      RelevantOnly(v, events[..|events| - 1]);
    }
  }

  // ---------------------------------------------------------------------
  // Everything that happens to the viewer

  datatype LogOp =
    | Deliver(event: StreamEvent)
    | StopFollowing
    | Reset
    | StartProbe
    | ProbeDone(error: Option<LogError>, idle: bool) // `idle`: no stream channel is open
    | StartRead
    | StartFollow
    | SelectSource(kind: SourceKind)
    | SetLimit(limit: LineLimit)
    | SetQuery(query: string)
    | NextMatch
    | PreviousMatch
    | WorkerGone                        // the event channel closed without a last word
    | SettingsSaved(reselect: SourceKind) // the log settings were written

  function NextGeneration(v: LogView): Generation {
    Min(v.generation + 1, U64_MAX)
  }

  function Perform(v: LogView, op: LogOp): LogView {
    match op
    case Deliver(e) => Apply(v, e)
    case StopFollowing => StopFollow(v)
    case Reset => INITIAL
    case StartProbe =>
      StopFollow(v).(generation := NextGeneration(v), ui := Loading, probe := Some(NextGeneration(v)))
    case ProbeDone(error, idle) =>
      if v.probe != Some(v.generation) then v.(probe := None)
      else if error.Some? then v.(probe := None, lastError := error, ui := Failed(error.value))
      else v.(probe := None, ui := if v.ui == Loading && idle then Idle else v.ui)
    case StartRead =>
      if v.ui == Following then v
      else v.(generation := NextGeneration(v), ui := Loading, lastError := None)
    case StartFollow =>
      StopFollow(v).(generation := NextGeneration(v), following := true, ui := Following, lastError := None)
    case SelectSource(kind) =>
      if kind == v.selected then v
      else StopFollow(v).(selected := kind, entries := [], search := LogSearch("", [], None),
                          generation := NextGeneration(v), lastError := None, ui := Idle)
    case SetLimit(limit) => v.(limit := limit)
    case SetQuery(query) => v.(search := Searched(v.entries, query))
    case NextMatch => v.(search := v.search.(current := NextCurrent(v.search)))
    case PreviousMatch => v.(search := v.search.(current := PreviousCurrent(v.search)))
    case WorkerGone =>
      if v.ui == Following then
        v.(ui := Failed(LogError(FollowSessionInterrupted, "Follow worker ended unexpectedly.")), following := false)
      else if v.ui == Loading then
        v.(ui := Failed(LogError(RemoteReadFailed, "Log worker ended unexpectedly.")))
      else v
    case SettingsSaved(reselect) =>
      StopFollow(v).(entries := [], generation := NextGeneration(v), selected := reselect)
  }

  function NextCurrent(s: LogSearch): Option<nat> {
    if s.matches == [] then None
    else if s.current.Some? then Some((s.current.value + 1) % |s.matches|)
    else Some(0)
  }

  function PreviousCurrent(s: LogSearch): Option<nat> {
    if s.matches == [] then None
    else if s.current.None? || s.current.value == 0 then Some(|s.matches| - 1)
    else Some(s.current.value - 1)
  }

  lemma ModSmall(i: nat, n: nat)
    requires i <= n && n > 0
    ensures i % n == if i == n then 0 else i
  {
  }

  /** Forward goes through the matches in order and from the last to the first; back undoes forward. */
  lemma MatchesInOrder(s: LogSearch)
    requires s.current.Some? && s.current.value < |s.matches|
    ensures NextCurrent(s) == Some(if s.current.value + 1 == |s.matches| then 0 else s.current.value + 1)
    ensures PreviousCurrent(s.(current := NextCurrent(s))) == s.current
    ensures NextCurrent(s.(current := PreviousCurrent(s))) == s.current
  {
    ModSmall(s.current.value + 1, |s.matches|);
    ModSmall(s.current.value, |s.matches|);
    ModSmall(|s.matches|, |s.matches|);
  }

  /** Without a highlighted match, forward starts at the first and back at the last; without matches nothing is. */
  lemma MatchesFromNone(s: LogSearch)
    ensures s.current == None && s.matches != [] ==>
              NextCurrent(s) == Some(0) && PreviousCurrent(s) == Some(|s.matches| - 1)
    ensures s.matches == [] ==> NextCurrent(s) == None && PreviousCurrent(s) == None
  {
  }

  function PerformAll(v: LogView, ops: seq<LogOp>): LogView {
    if ops == [] then v else Perform(PerformAll(v, ops[..|ops| - 1]), ops[|ops| - 1])
  }

  // ---------------------------------------------------------------------
  // The buffer over whole runs, with the limit changing on the way

  /** What the operation adds or starts over: `None` leaves the lines alone. */
  datatype Feed = Nothing | StartOver(lines: seq<LogEntry>) | More(lines: seq<LogEntry>)

  function Fed(v: LogView, op: LogOp): Feed {
    match op
    case Deliver(e) =>
      if !Relevant(v, e) then Nothing
      else if e.Replace? then StartOver(e.entries)
      else if e.Append? then More(e.entries)
      else Nothing
    case Reset => StartOver([])
    case SelectSource(kind) => if kind == v.selected then Nothing else StartOver([])
    case SettingsSaved(_) => StartOver([])
    case _ => Nothing
  }

  /** All lines since the last start over, as if no limit existed. */
  function Everything(v: LogView, ops: seq<LogOp>): seq<LogEntry> {
    if ops == [] then v.entries
    else
      var n := |ops| - 1;
      match Fed(PerformAll(v, ops[..n]), ops[n])
      case Nothing => Everything(v, ops[..n])
      case StartOver(lines) => lines
      case More(lines) => Everything(v, ops[..n]) + lines
  }

  /** How many of them are kept: every append cuts at the limit of its moment. */
  function Room(v: LogView, ops: seq<LogOp>): nat {
    if ops == [] then |v.entries|
    else
      var n := |ops| - 1;
      var u := PerformAll(v, ops[..n]);
      match Fed(u, ops[n])
      case Nothing => Room(v, ops[..n])
      case StartOver(lines) => |lines|
      case More(lines) => Min(Room(v, ops[..n]) + |lines|, u.limit.Cap())
  }

  lemma FedEntries(v: LogView, op: LogOp)
    ensures Perform(v, op).entries
              == match Fed(v, op)
                 case Nothing => v.entries
                 case StartOver(lines) => lines
                 case More(lines) => LastN(v.entries + lines, v.limit.Cap())
  {
  }

  /** Over every run, whatever the user does: the buffer is the newest part of all lines, of exactly that length. */
  lemma {:induction false} BufferOfRun(v: LogView, ops: seq<LogOp>)
    ensures Room(v, ops) <= |Everything(v, ops)|
    ensures PerformAll(v, ops).entries == LastN(Everything(v, ops), Room(v, ops))
  {
    if ops != [] {
      var n := |ops| - 1;
      BufferOfRun(v, ops[..n]);
      var u := PerformAll(v, ops[..n]);
      FedEntries(u, ops[n]);
      BufferOfStep(v, ops, u);
    }
  }

  lemma BufferOfStep(v: LogView, ops: seq<LogOp>, u: LogView)
    requires ops != [] && u == PerformAll(v, ops[..|ops| - 1])
    requires var init := ops[..|ops| - 1];
             Room(v, init) <= |Everything(v, init)| && u.entries == LastN(Everything(v, init), Room(v, init))
    ensures Room(v, ops) <= |Everything(v, ops)|
    ensures LastN(Everything(v, ops), Room(v, ops))
              == match Fed(u, ops[|ops| - 1])
                 case Nothing => u.entries
                 case StartOver(lines) => lines
                 case More(lines) => LastN(u.entries + lines, u.limit.Cap())
  {
    var init := ops[..|ops| - 1];
    match Fed(u, ops[|ops| - 1]) {
      case Nothing =>
      case StartOver(lines) =>
      case More(lines) => LastNTwice(Everything(v, init), lines, Room(v, init), u.limit.Cap());
    }
  }

  // ---------------------------------------------------------------------
  // The stop handles over whole runs

  /** The viewer, the number of follow workers started, the one whose handle is held, and what became of the others. */
  datatype Handles = Handles(view: LogView, started: nat, held: Option<nat>, told: set<nat>, ended: set<nat>)

  const NO_HANDLES: Handles := Handles(INITIAL, 0, None, {}, {})

  /** The operation first asks the worker to stop. */
  predicate Stops(v: LogView, op: LogOp) {
    || op == StopFollowing || op == Reset || op == StartProbe || op == StartFollow || op.SettingsSaved?
    || (op.SelectSource? && op.kind != v.selected)
  }

  /** The current worker says, or its channel shows, that it has ended. */
  predicate Ends(v: LogView, op: LogOp) {
    || (op.Deliver? && op.event.generation == v.generation && (op.event.ReadFailed? || op.event.FollowStopped?))
    || (op == WorkerGone && v.ui == Following)
  }

  function Held(h: Handles): set<nat> {
    if h.held.Some? then {h.held.value} else {}
  }

  function Track(h: Handles, op: LogOp): Handles {
    Handles(
      Perform(h.view, op),
      h.started + if op == StartFollow then 1 else 0,
      if op == StartFollow then Some(h.started)
      else if Stops(h.view, op) || Ends(h.view, op) then None
      else h.held,
      if Stops(h.view, op) then h.told + Held(h) else h.told,
      if Ends(h.view, op) then h.ended + Held(h) else h.ended)
  }

  function TrackAll(ops: seq<LogOp>): Handles {
    if ops == [] then NO_HANDLES else Track(TrackAll(ops[..|ops| - 1]), ops[|ops| - 1])
  }

  predicate Accounted(h: Handles) {
    && (h.held.Some? <==> h.view.following)
    && (h.held.Some? ==> h.held.value < h.started)
    && (forall i: nat :: i < h.started ==> h.held == Some(i) || i in h.told || i in h.ended)
  }

  lemma TrackAccounts(h: Handles, op: LogOp)
    requires Accounted(h)
    ensures Accounted(Track(h, op))
  {
    var h' := Track(h, op);
    forall i: nat | i < h'.started ensures h'.held == Some(i) || i in h'.told || i in h'.ended {
      assert i < h.started ==> h.held == Some(i) || i in h.told || i in h.ended;
    }
  }

  /**
   Over every run no follow worker is forgotten: each one ever started holds the
   viewer's handle, or was told to stop, or ended by itself.
   */
  lemma {:induction false} NoWorkerForgotten(ops: seq<LogOp>)
    ensures TrackAll(ops).view == PerformAll(INITIAL, ops)
    ensures Accounted(TrackAll(ops))
  {
    if ops != [] {
      NoWorkerForgotten(ops[..|ops| - 1]);
      TrackAccounts(TrackAll(ops[..|ops| - 1]), ops[|ops| - 1]);
    }
  }

  // ---------------------------------------------------------------------
  // Invariants of whole runs

  /** A stop handle is held exactly while following. */
  predicate HandleFits(v: LogView) {
    v.following <==> v.ui == Following
  }

  /** The index is that of the current lines; the highlighted match exists whenever there is one. */
  predicate SearchFits(v: LogView) {
    && v.search.matches == Searched(v.entries, v.search.query).matches
    && (if v.search.matches == [] then v.search.current == None
        else v.search.current.Some? && v.search.current.value < |v.search.matches|)
  }

  lemma SearchedEmpty(query: string)
    ensures Searched([], query) == LogSearch(query, [], None)
  {
  }

  /** The awaited probe is not newer than the current worker, and older than a follow worker. */
  predicate ProbeFits(v: LogView) {
    v.probe.Some? ==> v.probe.value <= v.generation && (v.ui == Following ==> v.probe.value < v.generation)
  }

  lemma PerformFits(v: LogView, op: LogOp)
    requires HandleFits(v) && ProbeFits(v) && v.generation < U64_MAX
    ensures var u := Perform(v, op);
            HandleFits(u) && ProbeFits(u) && u.generation <= v.generation + 1
  {
  }

  /** In every run too short to exhaust the 64-bit generations. */
  lemma {:induction false} HandleAlwaysFits(ops: seq<LogOp>)
    requires |ops| <= U64_MAX
    ensures HandleFits(PerformAll(INITIAL, ops)) && ProbeFits(PerformAll(INITIAL, ops))
    ensures PerformAll(INITIAL, ops).generation <= |ops|
  {
    if ops != [] {
      HandleAlwaysFits(ops[..|ops| - 1]);
      PerformFits(PerformAll(INITIAL, ops[..|ops| - 1]), ops[|ops| - 1]);
    }
  }

  lemma DeliverKeepsSearch(v: LogView, e: StreamEvent)
    requires SearchFits(v)
    ensures SearchFits(Apply(v, e))
  {
  }

  lemma StepsKeepSearch(v: LogView, op: LogOp)
    requires SearchFits(v) && (op.NextMatch? || op.PreviousMatch?)
    ensures SearchFits(Perform(v, op))
  {
  }

  /** The remaining operations keep lines and index, or clear both. */
  lemma OthersKeepSearch(v: LogView, op: LogOp)
    requires !op.Deliver? && !op.SetQuery? && !op.NextMatch? && !op.PreviousMatch? && !op.SettingsSaved?
    ensures var u := Perform(v, op);
            || (u.entries == v.entries && u.search == v.search)
            || (u.entries == [] && u.search == Searched([], ""))
  {
    SearchedEmpty("");
  }

  lemma SearchedFits(v: LogView, query: string)
    requires v.search == Searched(v.entries, query)
    ensures SearchFits(v)
  {
  }

  lemma PerformKeepsSearch(v: LogView, op: LogOp)
    requires SearchFits(v) && !op.SettingsSaved?
    ensures SearchFits(Perform(v, op))
  {
    match op {
      case Deliver(e) => DeliverKeepsSearch(v, e);
      case NextMatch => StepsKeepSearch(v, op);
      case PreviousMatch => StepsKeepSearch(v, op);
      case SetQuery(query) => SearchedFits(Perform(v, op), query);
      case _ =>
        OthersKeepSearch(v, op);
        if Perform(v, op).search != v.search || Perform(v, op).entries != v.entries {
          SearchedFits(Perform(v, op), "");
        }
    }
  }

  /** Saving the log settings clears the lines but not the index over them. */
  lemma SettingsSavedSearch(v: LogView, reselect: SourceKind)
    requires SearchFits(v)
    ensures SearchFits(Perform(v, SettingsSaved(reselect))) <==> v.search.matches == []
  {
    SearchedEmpty(v.search.query);
  }

  lemma OneHit()
    ensures Text.LowerAll(Text.Trim("x")) == "x" && Hits([LogEntry(None, None, "x")], "x") == [0]
  {
    Text.TrimIsTrimmed("x");
    assert Text.Trimmed("x") && Text.LowerAll("x") == "x";
    assert Text.OccursAt("x", "x", 0);
    var entries := [LogEntry(None, None, "x")];
    assert Hit(entries[0], "x") && entries[..0] == [];
  }

  /** One line, found by its own text, and the settings saved: the index points at a line that is gone. */
  lemma SettingsSavedStale()
    ensures var line := LogEntry(None, None, "x");
            var v := INITIAL.(entries := [line], search := Searched([line], "x"));
            var u := Perform(v, SettingsSaved(ErrorFile));
            SearchFits(v) && !SearchFits(u) && u.entries == [] && u.search.matches == [0]
  {
    OneHit();
    var line := LogEntry(None, None, "x");
    var v := INITIAL.(entries := [line], search := Searched([line], "x"));
    SearchedFits(v, "x");
    SettingsSavedSearch(v, ErrorFile);
  }

  /** The index is never stale, except between saving the log settings and the next recomputation. */
  lemma {:induction false} SearchAlwaysFits(ops: seq<LogOp>)
    requires forall i :: 0 <= i < |ops| ==> !ops[i].SettingsSaved?
    ensures SearchFits(PerformAll(INITIAL, ops))
  {
    if ops == [] {
      SearchedEmpty("");
    } else {
      SearchAlwaysFits(ops[..|ops| - 1]);
      PerformKeepsSearch(PerformAll(INITIAL, ops[..|ops| - 1]), ops[|ops| - 1]);
    }
  }

  /** Any recomputation, however stale the index was, makes it fit again. */
  lemma RecomputationRepairs(v: LogView, op: LogOp)
    requires op.SetQuery? || (op.Deliver? && (op.event.Replace? || op.event.Append?) && Relevant(v, op.event))
    ensures SearchFits(Perform(v, op))
  {
  }

  /** Starting a worker makes every earlier one stale, as long as the counter has room. */
  lemma StartMakesStale(v: LogView, op: LogOp, e: StreamEvent)
    requires op == StartFollow || op == StartProbe || (op == StartRead && v.ui != Following)
    requires e.generation <= v.generation
    ensures Perform(v, op).generation != e.generation <==> e.generation < U64_MAX
  {
  }

  /** A worker once stale stays stale: without a reset the generation never comes back. */
  lemma StaleForever(v: LogView, ops: seq<LogOp>, e: StreamEvent)
    requires forall i :: 0 <= i < |ops| ==> ops[i] != Reset
    requires e.generation < v.generation
    ensures Apply(PerformAll(v, ops), e) == PerformAll(v, ops)
  {
    GenerationGrows(v, ops);
  }

  lemma {:induction false} GenerationGrows(v: LogView, ops: seq<LogOp>)
    requires forall i :: 0 <= i < |ops| ==> ops[i] != Reset
    ensures PerformAll(v, ops).generation >= v.generation
  {
    if ops != [] {
      GenerationGrows(v, ops[..|ops| - 1]);
    }
  }

  /**
   A reset starts the generations over, so the first read after it shares its
   generation with the first worker before it: that worker's lines would be
   accepted. Only the fresh event channel of each start keeps them out.
   */
  lemma ResetReusesGenerations(v: LogView, lines: seq<LogEntry>)
    ensures var restarted := Perform(Perform(v, Reset), StartRead);
            Apply(restarted, Replace(1, ErrorFile, lines)).entries == lines
  {
  }
}
