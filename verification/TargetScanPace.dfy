/**
 The courtesy pause between probes. Sleeping is what a napping worker does: at
 most one poll interval per step. A ledger over the actions of a run says how
 long each worker slept, and when.
 */
module TargetScanPace {
  import opened Basics
  import opened TargetScan
  import opened TargetScanRuns

  /** How long worker `w` sleeps in this action, in nanoseconds. */
  function SleptIn(s: State, a: Action, w: nat): nat {
    if a == Work(w) && w < |s.workers| && s.workers[w].Napping? then Min(s.workers[w].remaining, 250_000_000) else 0
  }

  /** How long any worker sleeps in this action. */
  function AnySleptIn(s: State, a: Action): nat {
    if a.Work? then SleptIn(s, a, a.worker) else 0
  }

  /** Worker `w` reports its progress: the action sends a progress value. */
  predicate Announces(s: State, a: Action, w: nat) {
    a == Work(w) && w < |s.workers| && s.workers[w].Counted? && s.receiver
  }

  /** How long worker `w` slept in the run `acts` from `s`. */
  ghost function SleptBy(c: Scan, s: State, acts: seq<Action>, w: nat): nat
    decreases |acts|
  {
    if acts == [] || !Enabled(c, s, acts[0]) then 0
    else SleptIn(s, acts[0], w) + SleptBy(c, Apply(c, s, acts[0]), acts[1..], w)
  }

  /** How long all workers together slept. */
  ghost function TimeSlept(c: Scan, s: State, acts: seq<Action>): nat
    decreases |acts|
  {
    if acts == [] || !Enabled(c, s, acts[0]) then 0
    else AnySleptIn(s, acts[0]) + TimeSlept(c, Apply(c, s, acts[0]), acts[1..])
  }

  /** What a worker has slept since its last progress report, if it has made one. */
  function SinceNext(s: State, a: Action, w: nat, since: Option<nat>): Option<nat> {
    if Announces(s, a, w) then Some(0)
    else if since.Some? then Some(since.value + SleptIn(s, a, w))
    else None
  }

  ghost function Since(c: Scan, s: State, acts: seq<Action>, w: nat, since: Option<nat>): Option<nat>
    decreases |acts|
  {
    if acts == [] || !Enabled(c, s, acts[0]) then since
    else Since(c, Apply(c, s, acts[0]), acts[1..], w, SinceNext(s, acts[0], w, since))
  }

  // ---------------------------------------------------------------------
  // One worker

  /** The whole pause is behind the worker, or it has not reported yet. */
  predicate Rested(c: Scan, since: Option<nat>) {
    since.Some? ==> since.value == c.pause
  }

  /** Where worker `w` stands in its pause. */
  predicate Paced(c: Scan, s: State, w: nat, since: Option<nat>) {
    if w >= |s.workers| then since == None
    else match s.workers[w] {
      case Announced => since == Some(0)
      case Pausing(r) => since.Some? && since.value + r == c.pause
      case Napping(r) => since.Some? && since.value + r == c.pause && r > 0
      case Top => (since.Some? ==> since.value <= c.pause) && (!s.cancel ==> Rested(c, since))
      case Exited => since.Some? ==> since.value <= c.pause
      case _ => Rested(c, since)
    }
  }

  lemma PacedWork(c: Scan, s: State, w: nat, since: Option<nat>)
    requires w < |s.workers| && s.workers[w] != Exited && Paced(c, s, w, since)
    ensures Paced(c, WorkerStep(c, s, w), w, SinceNext(s, Work(w), w, since))
  {
    match NextAccess(c, s.cancel, s.workers[w]) {
      case Local(next) =>
      case Claim =>
      case Count(_) =>
      case Send(_, _) =>
    }
  }

  /** What others do leaves a worker where it is. */
  lemma PacedOther(c: Scan, s: State, a: Action, w: nat, since: Option<nat>)
    requires Enabled(c, s, a) && a != Work(w) && Paced(c, s, w, since)
    ensures Paced(c, Apply(c, s, a), w, SinceNext(s, a, w, since))
  {
    var s' := Apply(c, s, a);
    if a.Work? {
      StepShape(c, s, a.worker);
    }
    assert w < |s.workers| ==> s'.workers[w] == s.workers[w];
  }

  lemma {:induction false} PacedRun(c: Scan, s: State, acts: seq<Action>, t: State, w: nat, since: Option<nat>)
    requires Leads(c, s, acts, t) && Paced(c, s, w, since)
    ensures Paced(c, t, w, Since(c, s, acts, w, since))
    decreases |acts|
  {
    if acts != [] {
      var a := acts[0];
      if a == Work(w) {
        PacedWork(c, s, w, since);
      } else {
        PacedOther(c, s, a, w, since);
      }
      PacedRun(c, Apply(c, s, a), acts[1..], t, w, SinceNext(s, a, w, since));
    }
  }

  /**
   In every reachable state, cancelled or not: a worker about to claim, or at
   work on a host, has slept exactly the pause since its last report; a sleeping
   one has slept all but what remains.
   */
  lemma PauseBetweenClaims(c: Scan, acts: seq<Action>, t: State, w: nat)
    requires Leads(c, START, acts, t) && w < |t.workers|
    ensures var since := Since(c, START, acts, w, None);
            match t.workers[w]
            case Pausing(r) => since.Some? && since.value + r == c.pause
            case Napping(r) => since.Some? && since.value + r == c.pause
            case Announced => since == Some(0)
            case Top => t.cancel || since == None || since == Some(c.pause)
            case Exited => since == None || since.value <= c.pause
            case _ => since == None || since == Some(c.pause)
  {
    PacedRun(c, START, acts, t, w, None);
  }

  /** Once the cancel flag is set a worker sleeps out the interval it is in, if any, and no more. */
  lemma {:induction false} CancelledSleep(c: Scan, s: State, acts: seq<Action>, t: State, w: nat)
    requires Leads(c, s, acts, t) && s.cancel
    ensures SleptBy(c, s, acts, w)
            <= if w < |s.workers| && s.workers[w].Napping? then Min(s.workers[w].remaining, 250_000_000) else 0
    decreases |acts|
  {
    if acts != [] {
      var a := acts[0];
      if a == Work(w) {
        CancelledNap(c, s, w);
      } else if a.Work? {
        StepShape(c, s, a.worker);
      }
      CancelledSleep(c, Apply(c, s, a), acts[1..], t, w);
    }
  }

  lemma CancelledNap(c: Scan, s: State, w: nat)
    requires w < |s.workers| && s.workers[w] != Exited && s.cancel
    ensures WorkerStep(c, s, w).cancel && !WorkerStep(c, s, w).workers[w].Napping?
  {
    match NextAccess(c, s.cancel, s.workers[w]) {
      case Local(next) =>
      case Claim =>
      case Count(_) =>
      case Send(_, _) =>
    }
  }

  // ---------------------------------------------------------------------
  // All workers

  /** What a worker will still sleep before its next claim. */
  function Owes(c: Scan): Phase -> nat {
    (p: Phase) =>
      match p
      case Announced => c.pause
      case Pausing(r) => r
      case Napping(r) => r
      case _ => 0
  }

  /** The ledger: slept and owed together are one pause per progress report; a cancel forgives debts. */
  predicate PauseLine(c: Scan, s: State, slept: nat) {
    var due := |CountsIn(s.sent)| * c.pause;
    slept + Total(s.workers, Owes(c)) <= due && (!s.cancel ==> slept + Total(s.workers, Owes(c)) == due)
  }

  lemma CountsGrow(sent: seq<ScanEvent>, e: ScanEvent)
    ensures CountsIn(sent + [e]) == CountsIn(sent) + if e.Progress? then [e.checked] else []
  {
    assert (sent + [e])[..|sent|] == sent;
  }

  lemma OneMore(n: nat, pause: nat)
    ensures (n + 1) * pause == n * pause + pause
  {
  }

  /** What a worker's step does to debt and sleep. */
  lemma OwesStep(c: Scan, s: State, w: nat)
    requires w < |s.workers| && s.workers[w] != Exited
    ensures var (s', p) := (WorkerStep(c, s, w), s.workers[w]);
            var now := SleptIn(s, Work(w), w) + Owes(c)(s'.workers[w]);
            var due := Owes(c)(p) + if Announces(s, Work(w), w) then c.pause else 0;
            now <= due && (!s.cancel ==> now == due)
  {
    match NextAccess(c, s.cancel, s.workers[w]) {
      case Local(next) =>
      case Claim =>
      case Count(_) =>
      case Send(_, _) =>
    }
  }

  /** Only a progress report adds to the progress values sent. */
  lemma CountsStep(c: Scan, s: State, w: nat)
    requires w < |s.workers| && s.workers[w] != Exited
    ensures |CountsIn(WorkerStep(c, s, w).sent)|
              == |CountsIn(s.sent)| + if Announces(s, Work(w), w) then 1 else 0
  {
    match NextAccess(c, s.cancel, s.workers[w]) {
      case Send(event, _) => CountsGrow(s.sent, event);
      case _ =>
    }
  }

  lemma PauseWork(c: Scan, s: State, w: nat, slept: nat)
    requires w < |s.workers| && s.workers[w] != Exited && PauseLine(c, s, slept)
    ensures PauseLine(c, WorkerStep(c, s, w), slept + SleptIn(s, Work(w), w))
  {
    var s' := WorkerStep(c, s, w);
    StepShape(c, s, w);
    OwesStep(c, s, w);
    CountsStep(c, s, w);
    TotalMove(s.workers, Owes(c), w, s'.workers[w]);
    OneMore(|CountsIn(s.sent)|, c.pause);
  }

  lemma PauseOther(c: Scan, s: State, a: Action, slept: nat)
    requires Enabled(c, s, a) && !a.Work? && PauseLine(c, s, slept)
    ensures PauseLine(c, Apply(c, s, a), slept)
  {
    match a {
      case Spawn => TotalSpawn(s.workers, Owes(c), Top);
      case SendDone => CountsGrow(s.sent, Done);
      case _ =>
    }
  }

  lemma {:induction false} PauseRun(c: Scan, s: State, acts: seq<Action>, t: State, slept: nat)
    requires Leads(c, s, acts, t) && PauseLine(c, s, slept)
    ensures PauseLine(c, t, slept + TimeSlept(c, s, acts))
    decreases |acts|
  {
    if acts != [] {
      var a := acts[0];
      if a.Work? {
        PauseWork(c, s, a.worker, slept);
      } else {
        PauseOther(c, s, a, slept);
      }
      PauseRun(c, Apply(c, s, a), acts[1..], t, slept + AnySleptIn(s, a));
    }
  }

  /** At no time have the workers slept more than a pause per progress report. */
  lemma PauseBounded(c: Scan, acts: seq<Action>, t: State)
    requires Leads(c, START, acts, t)
    ensures TimeSlept(c, START, acts) <= |CountsIn(t.sent)| * c.pause
  {
    PauseRun(c, START, acts, t, 0);
  }

  /** A finished, uncancelled scan with a listener has slept one whole pause per host. */
  lemma WholePause(c: Scan, acts: seq<Action>, t: State)
    requires Leads(c, START, acts, t) && t.finished && !t.cancel && t.receiver
    ensures TimeSlept(c, START, acts) == |c.hosts| * c.pause
  {
    PauseRun(c, START, acts, t, 0);
    Completeness(c, acts, t);
    AllClaimed(c, acts, t);
    NothingHeld(t.workers, Owes(c));
    SameSize(CountsIn(t.sent), seq(|c.hosts|, i => i + 1));
  }

  lemma SameSize(a: seq<nat>, b: seq<nat>)
    requires multiset(a) == multiset(b)
    ensures |a| == |b|
  {
    assert |multiset(a)| == |a| && |multiset(b)| == |b|;
  }

  /**
   The scan under an arbitrary scheduler. `schedule` names the next action; when
   it names one that is not enabled, the coordinator or the worker it waits for
   moves.
   */
  method RunTargetScan(c: Scan, schedule: State -> Action) returns (t: State, ghost acts: seq<Action>)
    ensures Leads(c, START, acts, t) && t.finished
    ensures !t.cancel && t.receiver ==>
              && multiset(RowsIn(t.sent)) == multiset(FoundBelow(c, |c.hosts|))
              && multiset(CountsIn(t.sent)) == multiset(seq(|c.hosts|, i => i + 1))
    ensures t.receiver ==> t.sent != [] && t.sent[|t.sent| - 1] == Done
    ensures !t.cancel && t.receiver ==> TimeSlept(c, START, acts) == |c.hosts| * c.pause
  {
    StartInv(c);
    t, acts := START, [];
    while !t.finished
      invariant Inv(c, t) && Leads(c, START, acts, t)
      decreases Measure(c, t)
    {
      var a := if Enabled(c, t, schedule(t)) then schedule(t) else Ready(c, t);
      MeasureDrops(c, t, a);
      LeadsSnoc(c, START, acts, t, a);
      t, acts := Apply(c, t, a), acts + [a];
    }
    if !t.cancel && t.receiver {
      Completeness(c, acts, t);
      WholePause(c, acts, t);
    }
  }
}
