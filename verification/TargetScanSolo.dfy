/** With one worker the scan is the sequential loop over the hosts. */
module TargetScanSolo {
  import opened Basics
  import opened TargetScan
  import opened TargetScanPace
  import opened TargetScanRuns

  function RowPart(c: Scan, i: nat): seq<ScanEvent>
    requires i < |c.hosts|
  {
    if c.Answer(i).Some? then [Row(c.Answer(i).value)] else []
  }

  /** What the sequential loop reports for the first `k` hosts. */
  function Sequential(c: Scan, k: nat): seq<ScanEvent>
    requires k <= |c.hosts|
  {
    if k == 0 then [] else Sequential(c, k - 1) + RowPart(c, k - 1) + [Progress(k)]
  }

  lemma {:induction false} SequentialPrefix(c: Scan, j: nat, k: nat)
    requires j <= k <= |c.hosts|
    ensures Sequential(c, j) <= Sequential(c, k)
    decreases k
  {
    if j < k {
      SequentialPrefix(c, j, k - 1);
    }
  }

  lemma RowPartPrefix(c: Scan, i: nat)
    requires i < |c.hosts|
    ensures Sequential(c, i) + RowPart(c, i) <= Sequential(c, |c.hosts|)
  {
    SequentialPrefix(c, i + 1, |c.hosts|);
    assert Sequential(c, i) + RowPart(c, i) <= Sequential(c, i + 1);
  }

  ghost predicate Agrees(s: State, claimed: nat, checked: nat, sent: seq<ScanEvent>) {
    s.nextIndex == claimed && s.checked == checked && s.sent == sent
  }

  /** Where a single worker stands in the sequential loop, as long as somebody listens. */
  ghost predicate InStep(c: Scan, s: State)
  {
    var n := s.checked;
    var len := |c.hosts|;
    if s.workers == [] then Agrees(s, 0, 0, [])
    else match s.workers[0] {
      case Claimed(i) => i < len && Agrees(s, i + 1, i, Sequential(c, i))
      case RowReady(i, row) =>
        i < len && c.Answer(i) == Some(row) && Agrees(s, i + 1, i, Sequential(c, i))
      case Reported(i) => i < len && Agrees(s, i + 1, i, Sequential(c, i) + RowPart(c, i))
      case Counted(k) => 0 < k <= len && Agrees(s, k, k, Sequential(c, k - 1) + RowPart(c, k - 1))
      case Exited =>
        && n <= len
        && s.sent == Sequential(c, n) + (if s.finished then [Done] else [])
        && ((s.nextIndex == n && s.cancel) || (n == len && s.nextIndex == len + 1))
      case _ => n <= len && Agrees(s, n, n, Sequential(c, n))
    }
  }

  ghost predicate SoloInv(c: Scan, s: State) {
    && |s.workers| <= 1
    && s.joined <= |s.workers|
    && (s.joined == 1 ==> s.workers[0] == Exited)
    && (s.finished ==> s.joined == 1)
    && (s.receiver ==> InStep(c, s))
    && (Cut(c, s.sent) || Closed(c, s.sent))
  }

  /** A beginning of the sequential reports. */
  ghost predicate Cut(c: Scan, sent: seq<ScanEvent>) {
    sent <= Sequential(c, |c.hosts|)
  }

  /** The sequential reports for some number of whole hosts, closed by `Done`. */
  ghost predicate Closed(c: Scan, sent: seq<ScanEvent>) {
    exists k: nat | k <= |c.hosts| :: sent == Sequential(c, k) + [Done]
  }

  lemma LocalInStep(c: Scan, s: State)
    requires |s.workers| == 1 && s.workers[0] != Exited && InStep(c, s) && !s.finished
    requires NextAccess(c, s.cancel, s.workers[0]).Local?
    ensures InStep(c, WorkerStep(c, s, 0))
  {
    assert s.sent + [] == s.sent;
  }

  lemma SharedInStep(c: Scan, s: State)
    requires |s.workers| == 1 && s.workers[0] != Exited && InStep(c, s) && s.receiver && !s.finished
    requires !NextAccess(c, s.cancel, s.workers[0]).Local?
    ensures InStep(c, WorkerStep(c, s, 0))
  {
    assert s.sent + [] == s.sent;
  }

  lemma InStepCut(c: Scan, s: State)
    requires |s.workers| <= 1 && InStep(c, s) && (s.finished ==> s.workers == [Exited])
    ensures Cut(c, s.sent) || Closed(c, s.sent)
  {
    if s.workers != [] {
      match s.workers[0] {
        case Claimed(i) => SequentialPrefix(c, i, |c.hosts|);
        case RowReady(i, row) => SequentialPrefix(c, i, |c.hosts|);
        case Reported(i) => RowPartPrefix(c, i);
        case Counted(k) => RowPartPrefix(c, k - 1);
        case _ => SequentialPrefix(c, s.checked, |c.hosts|);
      }
    }
  }

  lemma WorkInStep(c: Scan, s: State, w: nat)
    requires SoloInv(c, s) && Enabled(c, s, Work(w)) && s.receiver
    ensures InStep(c, Apply(c, s, Work(w)))
  {
    if NextAccess(c, s.cancel, s.workers[0]).Local? {
      LocalInStep(c, s);
    } else {
      SharedInStep(c, s);
    }
  }

  /** Whatever is not a worker's step: spawning, joining, `Done` and the environment. */
  lemma OtherInStep(c: Scan, s: State, a: Action)
    requires c.threadCount <= 1 && SoloInv(c, s) && Enabled(c, s, a) && !a.Work? && !a.DropReceiver? && s.receiver
    ensures InStep(c, Apply(c, s, a))
  {
    match a {
      case Spawn => assert s.workers == [];
      case Join => assert Apply(c, s, a).workers == s.workers;
      case SendDone => assert s.workers == [Exited];
      case Cancel => assert Apply(c, s, a).workers == s.workers;
    }
  }

  /** With nobody listening nothing is sent any more. */
  lemma DeafApply(c: Scan, s: State, a: Action)
    requires c.threadCount <= 1 && SoloInv(c, s) && Enabled(c, s, a) && (!s.receiver || a.DropReceiver?)
    ensures SoloInv(c, Apply(c, s, a))
  {
    assert Apply(c, s, a).sent == s.sent && !Apply(c, s, a).receiver;
  }

  lemma SoloThreads(c: Scan, s: State, a: Action)
    requires c.threadCount <= 1 && SoloInv(c, s) && Enabled(c, s, a)
    ensures var s' := Apply(c, s, a);
            && |s'.workers| <= 1 && s'.joined <= |s'.workers|
            && (s'.joined == 1 ==> s'.workers[0] == Exited)
            && (s'.finished ==> s'.joined == 1)
  {
  }

  lemma SoloApply(c: Scan, s: State, a: Action)
    requires c.threadCount <= 1 && SoloInv(c, s) && Enabled(c, s, a)
    ensures SoloInv(c, Apply(c, s, a))
  {
    if !s.receiver || a.DropReceiver? {
      DeafApply(c, s, a);
    } else {
      SoloThreads(c, s, a);
      match a {
        case Work(w) => WorkInStep(c, s, w);
        case _ => OtherInStep(c, s, a);
      }
      InStepCut(c, Apply(c, s, a));
    }
  }

  lemma {:induction false} SoloRun(c: Scan, s: State, acts: seq<Action>, t: State)
    requires c.threadCount <= 1 && SoloInv(c, s) && Leads(c, s, acts, t)
    ensures SoloInv(c, t)
    decreases |acts|
  {
    if acts != [] {
      SoloApply(c, s, acts[0]);
      SoloRun(c, Apply(c, s, acts[0]), acts[1..], t);
    }
  }

  /** A single worker that has not reported has sent no progress value. */
  lemma UnreportedStep(c: Scan, s: State, a: Action, since: Option<nat>)
    requires c.threadCount <= 1 && SoloInv(c, s) && Enabled(c, s, a)
    requires since.None? ==> CountsIn(s.sent) == []
    ensures SinceNext(s, a, 0, since).None? ==> CountsIn(Apply(c, s, a).sent) == []
  {
    if a.Work? && s.receiver {
      CountsStep(c, s, 0);
    } else if a.SendDone? {
      CountsGrow(s.sent, Done);
    }
  }

  lemma {:induction false} UnreportedRun(c: Scan, s: State, acts: seq<Action>, t: State, since: Option<nat>)
    requires c.threadCount <= 1 && SoloInv(c, s) && Leads(c, s, acts, t)
    requires since.None? ==> CountsIn(s.sent) == []
    ensures Since(c, s, acts, 0, since).None? ==> CountsIn(t.sent) == []
    decreases |acts|
  {
    if acts != [] {
      SoloApply(c, s, acts[0]);
      UnreportedStep(c, s, acts[0], since);
      UnreportedRun(c, Apply(c, s, acts[0]), acts[1..], t, SinceNext(s, acts[0], 0, since));
    }
  }

  lemma SequentialCounts(c: Scan, k: nat)
    requires 0 < k <= |c.hosts|
    ensures CountsIn(Sequential(c, k)) != []
  {
    CountsGrow(Sequential(c, k - 1) + RowPart(c, k - 1), Progress(k));
  }

  /**
   For `threadCount` 0 or 1, in every reachable state: the events sent are a
   beginning of the sequential reports, or those of the first `k` hosts and
   `Done`. A listener gets `Done` after whole hosts only, and after all of them
   unless the scan was cancelled.
   */
  lemma RefinesSequentialLoop(c: Scan, acts: seq<Action>, t: State)
    requires c.threadCount <= 1 && Leads(c, START, acts, t)
    ensures Cut(c, t.sent) || Closed(c, t.sent)
    ensures t.finished && t.receiver ==>
              t.checked <= |c.hosts| && t.sent == Sequential(c, t.checked) + [Done]
    ensures t.finished && t.receiver && !t.cancel ==>
              t.sent == Sequential(c, |c.hosts|) + [Done] && TimeSlept(c, START, acts) == |c.hosts| * c.pause
    ensures t.workers != [] && t.workers[0].Claimed? && t.workers[0].index > 0 && t.receiver ==>
              Since(c, START, acts, 0, None) == Some(c.pause)
  {
    SoloRun(c, START, acts, t);
    if t.finished && t.receiver && !t.cancel {
      WholePause(c, acts, t);
    }
    if t.workers != [] && t.workers[0].Claimed? && t.workers[0].index > 0 && t.receiver {
      PauseBetweenClaims(c, acts, t, 0);
      UnreportedRun(c, START, acts, t, None);
      SequentialCounts(c, t.workers[0].index);
    }
  }
}
