/** The log viewer as the program keeps it: one object, updated in place. */
module XrayLogsRuntime {
  import opened Basics
  import opened XrayLogs
  import Text

  /** The flag a follow worker polls; shared between the viewer and the worker. */
  class StopFlag {
    var stopped: bool

    constructor ()
      ensures !stopped
    {
      stopped := false;
    }
  }

  class Runtime {
    var selected: SourceKind
    var lineLimit: LineLimit
    var entries: seq<LogEntry>
    var search: LogSearch
    var uiState: UiState
    var followStop: StopFlag?
    var generation: Generation
    var lastError: Option<LogError>
    var probe: Option<Generation>

    function View(): LogView
      reads this
    {
      LogView(selected, lineLimit, entries, search, uiState, followStop != null, generation, lastError, probe)
    }

    constructor ()
      ensures View() == INITIAL
    {
      selected, lineLimit, entries, search := ErrorFile, TwoHundred, [], LogSearch("", [], None);
      uiState, followStop, generation, lastError, probe := Idle, null, 0, None, None;
    }

    /** Asks the follow worker to stop and drops the handle. */
    method StopFollow()
      modifies this, followStop
      ensures View() == XrayLogs.StopFollow(old(View()))
      ensures old(followStop) != null ==> old(followStop).stopped
    {
      if followStop != null {
        followStop.stopped := true;
        followStop := null;
      }
      if uiState == Following {
        uiState := Idle;
      }
    }

    method Reset()
      modifies this, followStop
      ensures View() == INITIAL
      ensures old(followStop) != null ==> old(followStop).stopped
    {
      StopFollow();
      selected, lineLimit, entries, search := ErrorFile, TwoHundred, [], LogSearch("", [], None);
      uiState, followStop, generation, lastError, probe := Idle, null, 0, None, None;
    }

    /** Starts following with a new flag; the previous worker is told to stop. */
    method StartFollow()
      modifies this, followStop
      ensures View() == Perform(old(View()), LogOp.StartFollow)
      ensures followStop != null && fresh(followStop) && !followStop.stopped
      ensures old(followStop) != null ==> old(followStop).stopped
    {
      StopFollow();
      generation := Min(generation + 1, U64_MAX);
      followStop := new StopFlag();
      uiState := Following;
      lastError := None;
    }

    /** Rebuilds the match list for `query`. */
    method Recompute(query: string)
      modifies this`search
      ensures search == Searched(entries, query)
    {
      var needle := Text.LowerAll(Text.Trim(query));
      if needle == [] {
        search := LogSearch(query, [], None);
        return;
      }
      var hits: seq<nat> := [];
      for i := 0 to |entries|
        invariant hits == Hits(entries[..i], needle)
        invariant entries == old(entries)
      {
        assert entries[..i + 1][..i] == entries[..i];
        if Hit(entries[i], needle) {
          hits := hits + [i];
        }
      }
      assert entries[..|entries|] == entries;
      search := LogSearch(query, hits, if hits == [] then None else Some(0));
    }

    /** Drops the oldest entries beyond the cap. */
    method TrimFollowBuffer()
      modifies this`entries
      ensures entries == LastN(old(entries), lineLimit.Cap())
    {
      var max := Max(lineLimit.Lines() * 2, 100);
      if |entries| > max {
        var dropCount := |entries| - max;
        entries := entries[dropCount..];
      }
    }

    /**
     Applies a worker's event when its generation is current. The handle is only
     ever dropped on the word of the current worker that it is gone.
     */
    method ApplyEvent(e: StreamEvent)
      modifies this
      ensures View() == Apply(old(View()), e)
      ensures e.Replace? && Relevant(old(View()), e) ==>
                && entries == e.entries && lastError == None
                && uiState == if old(uiState) == Following then Following else Idle
      ensures e.ReadFailed? && e.generation == old(generation) ==>
                uiState == Failed(e.error) && lastError == Some(e.error) && followStop == null
      ensures followStop == old(followStop) || followStop == null
      ensures old(followStop) != null && followStop == null ==>
                e.generation == old(generation) && (e.ReadFailed? || e.FollowStopped?)
    {
      if e.generation != generation {
        return;
      }
      match e {
        case Replace(_, kind, lines) =>
          if kind == selected {
            ReplaceLines(lines);
          }
        case Append(_, kind, lines) =>
          if kind == selected {
            AppendLines(lines);
          }
        case ReadFailed(_, error) =>
          lastError := Some(error);
          uiState := Failed(error);
          followStop := null;
        case FollowStopped(_) =>
          followStop := null;
          if uiState == Following {
            uiState := Idle;
          }
      }
    }

    method ReplaceLines(lines: seq<LogEntry>)
      modifies this
      ensures View() == Apply(old(View()), Replace(old(generation), old(selected), lines))
      ensures followStop == old(followStop)
    {
      entries := lines;
      Recompute(search.query);
      if uiState != Following {
        uiState := Idle;
      }
      lastError := None;
    }

    method AppendLines(lines: seq<LogEntry>)
      modifies this
      ensures View() == Apply(old(View()), Append(old(generation), old(selected), lines))
      ensures followStop == old(followStop)
    {
      entries := entries + lines;
      TrimFollowBuffer();
      Recompute(search.query);
    }

    /** Takes the waiting events up to the one that closes the channel, as the poll loop does. */
    method PollEvents(events: seq<StreamEvent>) returns (taken: nat, open: bool)
      modifies this
      ensures taken == Taken(old(View()), events)
      ensures View() == ApplyAll(old(View()), events[..taken])
      ensures var current := OnlyRelevant(old(View()), events[..taken]);
              entries == if Appended(current) then LastN(Uncut(old(entries), current), lineLimit.Cap())
                         else Uncut(old(entries), current)
      ensures open ==> taken == |events|
      ensures !open <==> taken > 0 && Closes(ApplyAll(old(View()), events[..taken - 1]), events[taken - 1])
    {
      taken, open := 0, true;
      while open && taken < |events|
        invariant taken <= |events|
        invariant View() == ApplyAll(old(View()), events[..taken])
        invariant Taken(old(View()), events) == taken + if open then Taken(View(), events[taken..]) else 0
        invariant !open <==> taken > 0 && Closes(ApplyAll(old(View()), events[..taken - 1]), events[taken - 1])
        decreases |events| - taken
      {
        ghost var before := View();
        var event := events[taken];
        ApplyEvent(event);
        open := !event.ReadFailed? && !event.FollowStopped? && !(event.Replace? && uiState != Following);
        assert events[..taken + 1][..taken] == events[..taken];
        assert events[taken..][1..] == events[taken + 1..];
        taken := taken + 1;
      }
      BufferContentsOfStream(old(View()), events[..taken]);
      SettingsKept(old(View()), events[..taken]);
    }
  }
}
