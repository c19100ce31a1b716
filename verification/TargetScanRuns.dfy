/** What every run of the scan guarantees, whatever the interleaving. */
module TargetScanRuns {
  import opened Basics
  import opened TargetScan

  // ---------------------------------------------------------------------
  // Claims

  lemma {:induction false} HolderCounted(ws: seq<Phase>, i: nat, w: nat)
    requires w < |ws| && ws[w].Holds(i)
    ensures Total(ws, HoldsIndex(i)) >= 1
  {
    var n := |ws| - 1;
    if w < n {
      HolderCounted(ws[..n], i, w);
    }
  }

  /** In every reachable state each claimed position has one owner and is in one place. */
  lemma ExactlyOnce(c: Scan, acts: seq<Action>, t: State, i: nat)
    requires Leads(c, START, acts, t)
    ensures |t.past.claimedBy| == t.nextIndex
    ensures Total(t.workers, HoldsIndex(i)) + t.past.counted[i] + t.past.abandoned[i]
              == if i < Min(t.nextIndex, |c.hosts|) then 1 else 0
    ensures forall w: nat :: w < |t.workers| && t.workers[w].Holds(i) ==>
              i < Min(t.nextIndex, |c.hosts|) && t.past.claimedBy[i] == w && t.past.counted[i] == 0
    ensures t.receiver ==> t.past.abandoned[i] == 0
  {
    StartInv(c);
    RunInv(c, START, acts, t);
    assert IndexLine(c, t, i);
    forall w: nat | w < |t.workers| && t.workers[w].Holds(i)
      ensures i < Min(t.nextIndex, |c.hosts|) && t.past.claimedBy[i] == w && t.past.counted[i] == 0
    {
      assert Owned(c, t, w);
      HolderCounted(t.workers, i, w);
    }
  }

  /**
   The claim counter never runs past the hosts by more than the worker count.
   Both are lengths of vectors in memory, so on a 64-bit host it cannot wrap.
   */
  lemma ClaimsBounded(c: Scan, acts: seq<Action>, t: State)
    requires Leads(c, START, acts, t)
    ensures t.nextIndex <= |c.hosts| + Max(c.threadCount, 1)
    ensures t.checked <= Min(t.nextIndex, |c.hosts|)
  {
    StartInv(c);
    RunInv(c, START, acts, t);
    ExitedCount(t.workers);
    CountedBelow(t.past.counted, Min(t.nextIndex, |c.hosts|), c, t);
  }

  lemma {:induction false} SubsetOfRange(m: multiset<nat>, n: nat)
    requires forall i: nat :: m[i] <= if i < n then 1 else 0
    ensures |m| <= n
  {
    if n == 0 {
      assert m == multiset{};
    } else {
      var rest := m[n - 1 := 0];
      SubsetOfRange(rest, n - 1);
      assert m == rest[n - 1 := m[n - 1]];
    }
  }

  lemma CountedBelow(m: multiset<nat>, n: nat, c: Scan, t: State)
    requires LedgerInv(c, t) && m == t.past.counted && n == ClaimedHosts(c, t)
    ensures |m| <= n
  {
    forall i: nat ensures m[i] <= if i < n then 1 else 0 {
      assert IndexLine(c, t, i);
    }
    SubsetOfRange(m, n);
  }

  // ---------------------------------------------------------------------
  // What is reported

  /** The rows among `events`, in order. */
  function RowsIn(events: seq<ScanEvent>): seq<ScanCandidateRow> {
    if events == [] then []
    else
      var last := events[|events| - 1];
      RowsIn(events[..|events| - 1]) + if last.Row? then [last.row] else []
  }

  /** The progress values among `events`, in order. */
  function CountsIn(events: seq<ScanEvent>): seq<nat> {
    if events == [] then []
    else
      var last := events[|events| - 1];
      CountsIn(events[..|events| - 1]) + if last.Progress? then [last.checked] else []
  }

  /** The rows found at the first `n` hosts, in host order. */
  function FoundBelow(c: Scan, n: nat): seq<ScanCandidateRow>
    requires n <= |c.hosts|
  {
    if n == 0 then []
    else FoundBelow(c, n - 1) + if c.Answer(n - 1).Some? then [c.Answer(n - 1).value] else []
  }

  lemma {:induction false} RowsSentOften(events: seq<ScanEvent>, row: ScanCandidateRow)
    ensures multiset(RowsIn(events))[row] == multiset(events)[Row(row)]
  {
    if events != [] {
      var init := events[..|events| - 1];
      RowsSentOften(init, row);
      assert events == init + [events[|events| - 1]];
    }
  }

  lemma {:induction false} CountsSentOften(events: seq<ScanEvent>, n: nat)
    ensures multiset(CountsIn(events))[n] == multiset(events)[Progress(n)]
  {
    if events != [] {
      var init := events[..|events| - 1];
      CountsSentOften(init, n);
      assert events == init + [events[|events| - 1]];
    }
  }

  lemma {:induction false} FoundOften(c: Scan, n: nat, row: ScanCandidateRow)
    requires n <= |c.hosts|
    ensures multiset(FoundBelow(c, n))[row] == TimesFound(c, n, row)
  {
    if n > 0 {
      FoundOften(c, n - 1, row);
    }
  }

  /** Whatever is cancelled or dropped: no row is invented or repeated, no progress value either. */
  lemma Soundness(c: Scan, acts: seq<Action>, t: State)
    requires Leads(c, START, acts, t)
    ensures multiset(RowsIn(t.sent)) <= multiset(FoundBelow(c, Min(t.nextIndex, |c.hosts|)))
    ensures multiset(CountsIn(t.sent)) <= multiset(seq(t.checked, i => i + 1))
  {
    StartInv(c);
    RunInv(c, START, acts, t);
    forall row: ScanCandidateRow
      ensures multiset(RowsIn(t.sent))[row] <= multiset(FoundBelow(c, Min(t.nextIndex, |c.hosts|)))[row]
    {
      assert RowLine(c, t, row);
      RowsSentOften(t.sent, row);
      FoundOften(c, ClaimedHosts(c, t), row);
    }
    forall n: nat
      ensures multiset(CountsIn(t.sent))[n] <= multiset(seq(t.checked, i => i + 1))[n]
    {
      assert CountLine(t, n);
      CountsSentOften(t.sent, n);
      OneToOften(t.checked, n);
    }
  }

  lemma {:induction false} OneToOften(k: nat, n: nat)
    ensures multiset(seq(k, i => i + 1))[n] == if 1 <= n <= k then 1 else 0
  {
    if k > 0 {
      OneToOften(k - 1, n);
      assert seq(k, i => i + 1) == seq(k - 1, i => i + 1) + [k];
    }
  }

  /**
   When the scan ends uncancelled and somebody listens, everything was reported:
   the rows are exactly those found, the progress values are 1, ..., len in some
   order, and `Done` came last.
   */
  lemma Completeness(c: Scan, acts: seq<Action>, t: State)
    requires Leads(c, START, acts, t)
    requires t.finished && !t.cancel && t.receiver
    ensures multiset(RowsIn(t.sent)) == multiset(FoundBelow(c, |c.hosts|))
    ensures multiset(CountsIn(t.sent)) == multiset(seq(|c.hosts|, i => i + 1))
    ensures t.checked == |c.hosts|
    ensures t.sent != [] && t.sent[|t.sent| - 1] == Done
  {
    AllClaimed(c, acts, t);
    AllCounted(c, t);
    AllRowsReported(c, t);
    AllCountsReported(c, t);
  }

  lemma AllRowsReported(c: Scan, t: State)
    requires LedgerInv(c, t) && t.receiver && t.nextIndex > |c.hosts|
    requires forall w :: 0 <= w < |t.workers| ==> t.workers[w].Exited?
    ensures multiset(RowsIn(t.sent)) == multiset(FoundBelow(c, |c.hosts|))
  {
    forall row: ScanCandidateRow
      ensures multiset(RowsIn(t.sent))[row] == multiset(FoundBelow(c, |c.hosts|))[row]
    {
      AllRowsSent(c, t, row);
    }
  }

  lemma AllCountsReported(c: Scan, t: State)
    requires LedgerInv(c, t) && t.receiver && t.checked == |c.hosts|
    requires forall w :: 0 <= w < |t.workers| ==> t.workers[w].Exited?
    ensures multiset(CountsIn(t.sent)) == multiset(seq(|c.hosts|, i => i + 1))
  {
    forall n: nat
      ensures multiset(CountsIn(t.sent))[n] == multiset(seq(|c.hosts|, i => i + 1))[n]
    {
      AllCountsSent(c, t, n);
    }
  }

  lemma AllClaimed(c: Scan, acts: seq<Action>, t: State)
    requires Leads(c, START, acts, t)
    requires t.finished && !t.cancel && t.receiver
    ensures LedgerInv(c, t) && ChannelInv(t)
    ensures t.nextIndex > |c.hosts|
    ensures forall w :: 0 <= w < |t.workers| ==> t.workers[w].Exited?
  {
    StartInv(c);
    RunInv(c, START, acts, t);
    ExitedCount(t.workers);
    assert t.workers[0].Exited?;
  }

  lemma AllRowsSent(c: Scan, t: State, row: ScanCandidateRow)
    requires LedgerInv(c, t) && t.receiver && t.nextIndex > |c.hosts|
    requires forall w :: 0 <= w < |t.workers| ==> t.workers[w].Exited?
    ensures multiset(RowsIn(t.sent))[row] == multiset(FoundBelow(c, |c.hosts|))[row]
  {
    assert RowLine(c, t, row);
    NothingHeld(t.workers, HoldsRow(c, row));
    RowsSentOften(t.sent, row);
    FoundOften(c, |c.hosts|, row);
  }

  lemma AllCountsSent(c: Scan, t: State, n: nat)
    requires LedgerInv(c, t) && t.receiver && t.checked == |c.hosts|
    requires forall w :: 0 <= w < |t.workers| ==> t.workers[w].Exited?
    ensures multiset(CountsIn(t.sent))[n] == multiset(seq(|c.hosts|, i => i + 1))[n]
  {
    assert CountLine(t, n);
    NothingHeld(t.workers, HoldsCount(n));
    CountsSentOften(t.sent, n);
    OneToOften(t.checked, n);
  }

  lemma {:induction false} FullRange(m: multiset<nat>, n: nat)
    requires forall i: nat :: m[i] == if i < n then 1 else 0
    ensures |m| == n
  {
    if n == 0 {
      assert m == multiset{};
    } else {
      var rest := m[n - 1 := 0];
      FullRange(rest, n - 1);
      assert m == rest[n - 1 := 1];
    }
  }

  lemma AllCounted(c: Scan, t: State)
    requires LedgerInv(c, t) && t.receiver && t.nextIndex > |c.hosts|
    requires forall w :: 0 <= w < |t.workers| ==> t.workers[w].Exited?
    ensures t.checked == |c.hosts|
  {
    forall i: nat ensures t.past.counted[i] == if i < |c.hosts| then 1 else 0 {
      assert IndexLine(c, t, i);
      NothingHeld(t.workers, HoldsIndex(i));
    }
    FullRange(t.past.counted, |c.hosts|);
  }

  /** `Done` is sent at most once, only when every worker has stopped, and nothing follows it. */
  lemma DoneIsLast(c: Scan, acts: seq<Action>, t: State, k: nat)
    requires Leads(c, START, acts, t)
    requires k < |t.sent| && t.sent[k] == Done
    ensures k == |t.sent| - 1
    ensures t.finished && |t.workers| == Max(c.threadCount, 1)
    ensures forall w :: 0 <= w < |t.workers| ==> t.workers[w] == Exited
  {
    StartInv(c);
    RunInv(c, START, acts, t);
  }

  // ---------------------------------------------------------------------
  // Cancellation

  lemma CancelWork(c: Scan, s: State, v: nat)
    requires v < |s.workers| && s.workers[v] != Exited && s.cancel
    ensures var s' := WorkerStep(c, s, v);
            s'.nextIndex + Total(s'.workers, IsClaiming()) <= s.nextIndex + Total(s.workers, IsClaiming())
  {
    var p := WorkerStep(c, s, v).workers[v];
    TotalMove(s.workers, IsClaiming(), v, p);
    match NextAccess(c, s.cancel, s.workers[v]) {
      case Local(next) =>
      case Claim =>
      case Count(_) =>
      case Send(_, _) =>
    }
  }

  lemma CancelStep(c: Scan, s: State, a: Action)
    requires Enabled(c, s, a) && s.cancel
    ensures var s' := Apply(c, s, a);
            && s'.cancel
            && s'.nextIndex + Total(s'.workers, IsClaiming()) <= s.nextIndex + Total(s.workers, IsClaiming())
  {
    match a {
      case Work(v) => CancelWork(c, s, v);
      case Spawn => TotalSpawn(s.workers, IsClaiming(), Top);
      case _ =>
    }
  }

  /** How many claims worker `w` has made, counting the one it is about to make. */
  function ClaimsOf(s: State, w: nat): nat {
    multiset(s.past.claimedBy)[w] + if w < |s.workers| && s.workers[w] == Claiming then 1 else 0
  }

  lemma CancelWorkOf(c: Scan, s: State, v: nat, w: nat)
    requires v < |s.workers| && s.workers[v] != Exited && s.cancel
    ensures ClaimsOf(WorkerStep(c, s, v), w) <= ClaimsOf(s, w)
  {
    match NextAccess(c, s.cancel, s.workers[v]) {
      case Claim => assert WorkerStep(c, s, v).past.claimedBy == s.past.claimedBy + [v];
      case _ =>
    }
  }

  lemma CancelStepOf(c: Scan, s: State, a: Action, w: nat)
    requires Enabled(c, s, a) && s.cancel
    ensures ClaimsOf(Apply(c, s, a), w) <= ClaimsOf(s, w)
  {
    if a.Work? {
      CancelWorkOf(c, s, a.worker, w);
    }
  }

  /**
   From the moment the cancel flag is set, worker `w` claims at most one more
   index, and only if it had already passed the check at the top of its loop.
   */
  lemma {:induction false} CancelBound(c: Scan, s: State, acts: seq<Action>, t: State, w: nat)
    requires Leads(c, s, acts, t) && s.cancel
    ensures t.cancel
    ensures multiset(t.past.claimedBy)[w]
              <= multiset(s.past.claimedBy)[w] + if w < |s.workers| && s.workers[w] == Claiming then 1 else 0
    ensures t.nextIndex <= s.nextIndex + Total(s.workers, IsClaiming())
  {
    CancelRun(c, s, acts, t, w);
  }

  lemma {:induction false} CancelRun(c: Scan, s: State, acts: seq<Action>, t: State, w: nat)
    requires Leads(c, s, acts, t) && s.cancel
    ensures t.cancel && ClaimsOf(t, w) <= ClaimsOf(s, w)
    ensures t.nextIndex + Total(t.workers, IsClaiming()) <= s.nextIndex + Total(s.workers, IsClaiming())
    decreases |acts|
  {
    if acts != [] {
      CancelStep(c, s, acts[0]);
      CancelStepOf(c, s, acts[0], w);
      CancelRun(c, Apply(c, s, acts[0]), acts[1..], t, w);
    }
  }

  // ---------------------------------------------------------------------
  // Nobody listens

  /** The worker is between two hosts. */
  predicate Between(p: Phase) {
    p.Announced? || p.Pausing? || p.Napping? || p.Top? || p.Claiming?
  }

  /** How many claims worker `w` has made, and one more if it is between two hosts or not yet spawned. */
  function ClaimsDue(s: State, w: nat): nat {
    multiset(s.past.claimedBy)[w] + if w >= |s.workers| || Between(s.workers[w]) then 1 else 0
  }

  lemma DropWorkOf(c: Scan, s: State, v: nat, w: nat)
    requires v < |s.workers| && s.workers[v] != Exited && !s.receiver
    ensures ClaimsDue(WorkerStep(c, s, v), w) <= ClaimsDue(s, w)
  {
    StepShape(c, s, v);
    StepClaims(c, s, v);
    if v == w {
      BetweenStep(c, s, w);
    }
  }

  /** A worker's step records a claim exactly if it makes one. */
  lemma StepClaims(c: Scan, s: State, v: nat)
    requires v < |s.workers| && s.workers[v] != Exited
    ensures WorkerStep(c, s, v).past.claimedBy == s.past.claimedBy + if s.workers[v] == Claiming then [v] else []
  {
  }

  /** With nobody listening no host leads on to another. */
  lemma BetweenStep(c: Scan, s: State, w: nat)
    requires w < |s.workers| && s.workers[w] != Exited && !s.receiver
    ensures Between(WorkerStep(c, s, w).workers[w]) ==> Between(s.workers[w]) && s.workers[w] != Claiming
  {
  }

  lemma {:induction false} DropRun(c: Scan, s: State, acts: seq<Action>, t: State, w: nat)
    requires Leads(c, s, acts, t) && !s.receiver
    ensures ClaimsDue(t, w) <= ClaimsDue(s, w)
    decreases |acts|
  {
    if acts != [] {
      if acts[0].Work? {
        StepShape(c, s, acts[0].worker);
        DropWorkOf(c, s, acts[0].worker, w);
      }
      DropRun(c, Apply(c, s, acts[0]), acts[1..], t, w);
    }
  }

  /** Once nobody listens a worker claims at most one more host, and none if it is at work on one or has stopped. */
  lemma DropBound(c: Scan, s: State, acts: seq<Action>, t: State, w: nat)
    requires Leads(c, s, acts, t) && !s.receiver
    ensures multiset(t.past.claimedBy)[w]
              <= multiset(s.past.claimedBy)[w]
                 + if w < |s.workers| && !Between(s.workers[w]) then 0 else 1
  {
    DropRun(c, s, acts, t, w);
  }

  // ---------------------------------------------------------------------
  // Termination

  function HostsLeft(c: Scan, s: State): nat {
    if s.nextIndex < |c.hosts| then |c.hosts| - s.nextIndex else 0
  }

  /** Upper bound on the steps worker loops, spawning, joining and the environment can still take. */
  function Measure(c: Scan, s: State): nat
    requires |s.workers| <= c.Threads() && s.joined <= |s.workers|
  {
    HostsLeft(c, s) * (8 + 2 * Polls(c.pause)) + Rest(c, s)
  }

  /** The part that is not for hosts still to be claimed. */
  function Rest(c: Scan, s: State): nat
    requires |s.workers| <= c.Threads() && s.joined <= |s.workers|
  {
    Total(s.workers, RankOf(c))
    + 3 * (c.Threads() - |s.workers|)
    + (c.Threads() - s.joined)
    + (if s.finished then 0 else 1)
    + (if s.cancel then 0 else 1)
    + (if s.receiver then 1 else 0)
  }

  lemma TimesOneLess(left: nat, k: nat)
    requires left > 0
    ensures left * k == (left - 1) * k + k
  {
  }

  lemma MeasureClaim(c: Scan, s: State, w: nat)
    requires Inv(c, s) && w < |s.workers| && s.workers[w] == Claiming && s.nextIndex < |c.hosts|
    requires Inv(c, WorkerStep(c, s, w))
    ensures Measure(c, WorkerStep(c, s, w)) < Measure(c, s)
  {
    var s' := WorkerStep(c, s, w);
    TotalMove(s.workers, RankOf(c), w, s'.workers[w]);
    assert s'.workers == s.workers[w := s'.workers[w]];
    TimesOneLess(HostsLeft(c, s), 8 + 2 * Polls(c.pause));
  }

  /** What a worker's step leaves alone. */
  lemma StepShape(c: Scan, s: State, w: nat)
    requires w < |s.workers| && s.workers[w] != Exited
    ensures var s' := WorkerStep(c, s, w);
            && s'.workers == s.workers[w := s'.workers[w]]
            && s'.joined == s.joined && s'.finished == s.finished
            && s'.cancel == s.cancel && s'.receiver == s.receiver
            && (s.workers[w] != Claiming ==> s'.nextIndex == s.nextIndex)
            && s'.nextIndex >= s.nextIndex
  {
  }

  lemma StepRank(c: Scan, s: State, w: nat)
    requires w < |s.workers| && s.workers[w] != Exited
    requires s.workers[w] != Claiming || s.nextIndex >= |c.hosts|
    ensures Rank(c, WorkerStep(c, s, w).workers[w]) < Rank(c, s.workers[w])
  {
    RankDrops(c, s.cancel, s.workers[w], WorkerStep(c, s, w).workers[w]);
  }

  lemma RestMoves(c: Scan, s: State, s': State, w: nat, p: Phase)
    requires |s.workers| <= c.Threads() && s.joined <= |s.workers| && w < |s.workers|
    requires s'.workers == s.workers[w := p] && Rank(c, p) < Rank(c, s.workers[w])
    requires s'.joined == s.joined && s'.finished == s.finished && s'.cancel == s.cancel && s'.receiver == s.receiver
    ensures Rest(c, s') < Rest(c, s)
  {
    TotalMove(s.workers, RankOf(c), w, p);
  }

  /** A step that claims no host. */
  lemma MeasureStep(c: Scan, s: State, w: nat)
    requires |s.workers| <= c.Threads() && s.joined <= |s.workers|
    requires w < |s.workers| && s.workers[w] != Exited
    requires s.workers[w] != Claiming || s.nextIndex >= |c.hosts|
    ensures var s' := WorkerStep(c, s, w);
            |s'.workers| == |s.workers| && s'.joined == s.joined
            && HostsLeft(c, s') == HostsLeft(c, s) && Rest(c, s') < Rest(c, s)
  {
    StepShape(c, s, w);
    StepRank(c, s, w);
    RestMoves(c, s, WorkerStep(c, s, w), w, WorkerStep(c, s, w).workers[w]);
  }

  lemma MeasureWork(c: Scan, s: State, w: nat)
    requires Inv(c, s) && w < |s.workers| && s.workers[w] != Exited && Inv(c, WorkerStep(c, s, w))
    ensures Measure(c, WorkerStep(c, s, w)) < Measure(c, s)
  {
    if s.workers[w] == Claiming && s.nextIndex < |c.hosts| {
      MeasureClaim(c, s, w);
    } else {
      MeasureStep(c, s, w);
    }
  }

  /** Sleeping one interval takes one poll off a pause. */
  lemma PollsDrop(r: nat)
    requires r > 0
    ensures Polls(r) == Polls(r - Min(r, CANCEL_POLL_INTERVAL)) + 1
  {
  }

  lemma RankDrops(c: Scan, cancel: bool, p: Phase, p': Phase)
    requires p != Exited
    requires p' == Exited || match NextAccess(c, cancel, p) {
               case Local(next) => p' == next
               case Claim => false
               case Count(_) => p'.Counted?
               case Send(_, next) => p' == next
             }
    ensures Rank(c, p') < Rank(c, p)
  {
    if p.Napping? && p.remaining > 0 {
      PollsDrop(p.remaining);
    }
  }

  lemma MeasureDrops(c: Scan, s: State, a: Action)
    requires Inv(c, s) && Enabled(c, s, a)
    ensures Inv(c, Apply(c, s, a)) && Measure(c, Apply(c, s, a)) < Measure(c, s)
  {
    ApplyInv(c, s, a);
    match a {
      case Work(w) => MeasureWork(c, s, w);
      case Spawn => TotalSpawn(s.workers, RankOf(c), Top);
      case _ =>
    }
  }

  lemma {:induction false} RunShort(c: Scan, s: State, acts: seq<Action>, t: State)
    requires Inv(c, s) && Leads(c, s, acts, t)
    ensures Inv(c, t) && |acts| + Measure(c, t) <= Measure(c, s)
    decreases |acts|
  {
    if acts != [] {
      MeasureDrops(c, s, acts[0]);
      RunShort(c, Apply(c, s, acts[0]), acts[1..], t);
    }
  }

  /** No run, under any scheduler, takes more steps than this. */
  lemma Terminates(c: Scan, acts: seq<Action>, t: State)
    requires Leads(c, START, acts, t)
    ensures |acts| <= |c.hosts| * (8 + 2 * Polls(c.pause)) + 4 * Max(c.threadCount, 1) + 3
  {
    StartInv(c);
    RunShort(c, START, acts, t);
  }

  // ---------------------------------------------------------------------
  // Stopping after a cancel

  /** Steps a worker can still take once the cancel flag is set, as an upper bound. */
  function StopRank(p: Phase): nat {
    match p
    case Exited => 0
    case Top => 1
    case Announced => 1
    case Pausing(_) => 2
    case Counted(_) => 2
    case Napping(_) => 3
    case Reported(_) => 3
    case RowReady(_, _) => 4
    case Claimed(_) => 5
    case Claiming => 6
  }

  function StopRankOf(): Phase -> nat {
    (p: Phase) => StopRank(p)
  }

  function StopMeasure(c: Scan, s: State): nat
    requires |s.workers| <= c.Threads() && s.joined <= |s.workers|
  {
    Total(s.workers, StopRankOf())
    + 2 * (c.Threads() - |s.workers|)
    + (c.Threads() - s.joined)
    + (if s.finished then 0 else 1)
    + (if s.receiver then 1 else 0)
  }

  lemma StopRankDrops(c: Scan, s: State, w: nat)
    requires w < |s.workers| && s.workers[w] != Exited && s.cancel
    ensures StopRank(WorkerStep(c, s, w).workers[w]) < StopRank(s.workers[w])
  {
    match s.workers[w] {
      case Claiming =>
      case _ =>
    }
  }

  lemma StopWork(c: Scan, s: State, w: nat)
    requires Inv(c, s) && s.cancel && Enabled(c, s, Work(w)) && Inv(c, WorkerStep(c, s, w))
    ensures StopMeasure(c, WorkerStep(c, s, w)) < StopMeasure(c, s)
  {
    StepShape(c, s, w);
    StopRankDrops(c, s, w);
    TotalMove(s.workers, StopRankOf(), w, WorkerStep(c, s, w).workers[w]);
  }

  lemma StopStep(c: Scan, s: State, a: Action)
    requires Inv(c, s) && Enabled(c, s, a) && s.cancel
    ensures var s' := Apply(c, s, a);
            Inv(c, s') && s'.cancel && StopMeasure(c, s') < StopMeasure(c, s)
  {
    ApplyInv(c, s, a);
    match a {
      case Work(w) =>
        StepShape(c, s, w);
        StopWork(c, s, w);
      case Spawn => TotalSpawn(s.workers, StopRankOf(), Top);
      case _ =>
    }
  }

  lemma {:induction false} StopRun(c: Scan, s: State, acts: seq<Action>, t: State)
    requires Inv(c, s) && Leads(c, s, acts, t) && s.cancel
    ensures |acts| <= StopMeasure(c, s)
    decreases |acts|
  {
    if acts != [] {
      StopStep(c, s, acts[0]);
      StopRun(c, Apply(c, s, acts[0]), acts[1..], t);
    }
  }

  lemma {:induction false} StopRankBound(ws: seq<Phase>)
    ensures Total(ws, StopRankOf()) <= 6 * |ws|
  {
    if ws != [] {
      StopRankBound(ws[..|ws| - 1]);
    }
  }

  /** After a cancel every run ends soon, however many hosts are left and however long the pause is. */
  lemma CancelledSoonEnds(c: Scan, before: seq<Action>, s: State, acts: seq<Action>, t: State)
    requires Leads(c, START, before, s) && s.cancel && Leads(c, s, acts, t)
    ensures |acts| <= 7 * Max(c.threadCount, 1) + 2
  {
    StartInv(c);
    RunInv(c, START, before, s);
    StopRun(c, s, acts, t);
    StopRankBound(s.workers);
  }

  /** Until `Done` has been sent, some thread of the scan itself can move. */
  function Ready(c: Scan, s: State): (a: Action)
    requires Inv(c, s) && !s.finished
    ensures Enabled(c, s, a) && !a.ByEnvironment()
  {
    if |s.workers| < c.Threads() then Spawn
    else if s.joined == c.Threads() then SendDone
    else if s.workers[s.joined] == Exited then Join
    else Work(s.joined)
  }

  /** A run that cannot be continued by the scan has sent `Done` (unless nobody listens). */
  lemma StuckIsFinished(c: Scan, acts: seq<Action>, t: State)
    requires Leads(c, START, acts, t)
    requires forall a: Action :: Enabled(c, t, a) ==> a.ByEnvironment()
    ensures t.finished
    ensures t.receiver ==> t.sent != [] && t.sent[|t.sent| - 1] == Done
  {
    StartInv(c);
    RunInv(c, START, acts, t);
    if !t.finished {
      var _ := Ready(c, t);
    }
  }

  lemma {:induction false} LeadsSnoc(c: Scan, s: State, acts: seq<Action>, t: State, a: Action)
    requires Leads(c, s, acts, t) && Enabled(c, t, a)
    ensures Leads(c, s, acts + [a], Apply(c, t, a))
    decreases |acts|
  {
    if acts != [] {
      LeadsSnoc(c, Apply(c, s, acts[0]), acts[1..], t, a);
      assert (acts + [a])[1..] == acts[1..] + [a];
    }
  }

  // ---------------------------------------------------------------------
  // The cancellable sleep on its own

  /**
   `cancelled(k)` is what poll number `k` reads. The sleep stops at the first
   poll that reads true, having slept one interval per earlier poll; otherwise
   it sleeps the whole time. So Stop waits for at most one interval.
   */
  method SleepCancellable(total: nat, cancelled: nat -> bool) returns (slept: nat, polls: nat)
    ensures forall k: nat | k < polls :: !cancelled(k)
    ensures slept == total || (cancelled(polls) && slept == polls * 250_000_000 < total)
    ensures total <= polls * 250_000_000 || cancelled(polls)
    ensures slept <= total
  {
    var remaining := total;
    polls := 0;
    while remaining > 0
      invariant remaining <= total
      invariant forall k: nat | k < polls :: !cancelled(k)
      invariant total - remaining == Min(total, polls * CANCEL_POLL_INTERVAL)
    {
      if cancelled(polls) {
        return total - remaining, polls;
      }
      var step := Min(remaining, CANCEL_POLL_INTERVAL);
      remaining := remaining - step;
      polls := polls + 1;
    }
    slept := total;
  }
}
