/**
 The AS-range candidate scan: `threadCount.max(1)` workers share a claim
 counter, a checked counter, a cancel flag and an event channel.

 The model is an interleaving transition system. One action is one access to
 shared state by one thread (an atomic load or add, a channel send) or one
 purely local step; any enabled action may come next. The coordinating thread
 spawns the workers one by one, joins them in order and then sends `Done`; the
 environment may set the cancel flag and may drop the receiver at any moment.
 */
module TargetScan {
  import opened Basics

  type Ipv4 = n: nat | n < 0x1_0000_0000

  datatype ScanCandidateRow = ScanCandidateRow(
    ip: Ipv4, domain: string, certDomains: seq<string>, alpn: string, curve: string)

  datatype ScanEvent = Row(row: ScanCandidateRow) | Progress(checked: nat) | Done

  /** 250 ms in nanoseconds. */
  const CANCEL_POLL_INTERVAL: nat := 250_000_000

  /**
   The arguments of one scan. `probe(i, ip)` is what probing the host at
   position `i` answers; positions are claimed at most once (see
   `ExactlyOnce`), so one answer per position is fully general even for an
   unstable network and repeated hosts.
   */
  datatype Scan = Scan(
    hosts: seq<Ipv4>,
    probe: (nat, Ipv4) -> Option<ScanCandidateRow>,
    threadCount: nat,
    pause: nat)
  {
    function Threads(): nat {
      Max(threadCount, 1)
    }

    function Answer(i: nat): Option<ScanCandidateRow>
      requires i < |hosts|
    {
      probe(i, hosts[i])
    }
  }

  /** Where a worker stands in its loop. */
  datatype Phase =
    | Top                                          // about to read the cancel flag
    | Claiming                                     // not cancelled; about to claim an index
    | Claimed(index: nat)                          // about to probe the host
    | RowReady(index: nat, row: ScanCandidateRow)  // about to send the row
    | Reported(index: nat)                         // about to add to the checked counter
    | Counted(count: nat)                          // about to send the progress value
    | Announced                                    // about to read the cancel flag again
    | Pausing(remaining: nat)                      // at the head of the cancellable sleep
    | Napping(remaining: nat)                      // sleeping one poll interval
    | Exited
  {
    predicate Holds(i: nat) {
      (Claimed? || RowReady? || Reported?) && index == i
    }
  }

  /**
   What happened so far; no thread reads it. `claimedBy[i]` is the worker that
   got claim number `i`; `counted` holds the positions whose host was counted;
   `abandoned` and `unsent` hold the position and the event a worker gave up
   when it found the receiver gone.
   */
  datatype History = History(
    claimedBy: seq<nat>, counted: multiset<nat>, abandoned: multiset<nat>, unsent: seq<ScanEvent>)

  /** Shared state, the position of every thread, and the history. */
  datatype State = State(
    workers: seq<Phase>,
    nextIndex: nat,
    checked: nat,
    cancel: bool,
    receiver: bool,
    sent: seq<ScanEvent>,
    joined: nat,
    finished: bool,
    past: History)

  const START: State :=
    State([], 0, 0, false, true, [], 0, false, History([], multiset{}, multiset{}, []))

  datatype Action = Spawn | Work(worker: nat) | Join | SendDone | Cancel | DropReceiver
  {
    predicate ByEnvironment() {
      Cancel? || DropReceiver?
    }
  }

  predicate Enabled(c: Scan, s: State, a: Action) {
    match a
    case Spawn => |s.workers| < c.Threads()
    case Work(w) => w < |s.workers| && s.workers[w] != Exited
    case Join => |s.workers| == c.Threads() && s.joined < c.Threads() && s.workers[s.joined] == Exited
    case SendDone => s.joined == c.Threads() && !s.finished
    case Cancel => !s.cancel
    case DropReceiver => s.receiver
  }

  function Apply(c: Scan, s: State, a: Action): State
    requires Enabled(c, s, a)
  {
    match a
    case Spawn => s.(workers := s.workers + [Top])
    case Work(w) => WorkerStep(c, s, w)
    case Join => s.(joined := s.joined + 1)
    case SendDone => s.(finished := true, sent := if s.receiver then s.sent + [Done] else s.sent)
    case Cancel => s.(cancel := true)
    case DropReceiver => s.(receiver := false)
  }

  /** What a worker does next to the shared state. */
  datatype Access =
    | Local(next: Phase)                    // nothing shared is written
    | Claim                                 // `next_index.fetch_add(1)`
    | Count(index: nat)                     // `checked.fetch_add(1)`
    | Send(event: ScanEvent, next: Phase)   // `tx.send(event)`, giving up when it fails

  /** The loop of `scan_worker`, with `sleep_cancellable` inlined as `Pausing` and `Napping`. */
  function NextAccess(c: Scan, cancel: bool, p: Phase): Access
    requires p != Exited
  {
    match p
    case Top => Local(if cancel then Exited else Claiming)
    case Claiming => Claim
    case Claimed(i) =>
      Local(if i < |c.hosts| && c.Answer(i).Some? then RowReady(i, c.Answer(i).value) else Reported(i))
    case RowReady(i, row) => Send(Row(row), Reported(i))
    case Reported(i) => Count(i)
    case Counted(n) => Send(Progress(n), Announced)
    case Announced => Local(if cancel then Exited else Pausing(c.pause))
    case Pausing(remaining) => Local(if remaining == 0 || cancel then Top else Napping(remaining))
    case Napping(remaining) => Local(Pausing(remaining - Min(remaining, CANCEL_POLL_INTERVAL)))
  }

  function WorkerStep(c: Scan, s: State, w: nat): State
    requires w < |s.workers| && s.workers[w] != Exited
  {
    Perform(c, s, w, NextAccess(c, s.cancel, s.workers[w]))
  }

  function Perform(c: Scan, s: State, w: nat, access: Access): State
    requires w < |s.workers|
  {
    match access
    case Local(next) => s.(workers := s.workers[w := next])
    case Claim =>
      var next := if s.nextIndex < |c.hosts| then Claimed(s.nextIndex) else Exited;
      s.(workers := s.workers[w := next], nextIndex := s.nextIndex + 1,
         past := s.past.(claimedBy := s.past.claimedBy + [w]))
    case Count(i) =>
      s.(workers := s.workers[w := Counted(s.checked + 1)], checked := s.checked + 1,
         past := s.past.(counted := s.past.counted + multiset{i}))
    case Send(event, next) =>
      if s.receiver then
        s.(workers := s.workers[w := next], sent := s.sent + [event])
      else
        var given := if next.Reported? then multiset{next.index} else multiset{};
        s.(workers := s.workers[w := Exited],
           past := s.past.(abandoned := s.past.abandoned + given, unsent := s.past.unsent + [event]))
  }

  /** The actions `acts`, taken in order from `s`, are all enabled and end in `t`. */
  ghost predicate Leads(c: Scan, s: State, acts: seq<Action>, t: State)
    decreases |acts|
  {
    if acts == [] then s == t
    else Enabled(c, s, acts[0]) && Leads(c, Apply(c, s, acts[0]), acts[1..], t)
  }

  // ---------------------------------------------------------------------
  // What the workers together hold

  /** Adds up what `f` says of each worker. */
  function Total(ws: seq<Phase>, f: Phase -> nat): nat {
    if ws == [] then 0 else Total(ws[..|ws| - 1], f) + f(ws[|ws| - 1])
  }

  /** Whether (0 or 1) probing position `i` yields `row`. */
  function Finds(c: Scan, i: nat, row: ScanCandidateRow): nat {
    if i < |c.hosts| && c.Answer(i) == Some(row) then 1 else 0
  }

  /** Whether (0 or 1) a worker has claimed position `i` and not yet counted it. */
  function HoldsIndex(i: nat): Phase -> nat {
    (p: Phase) => if p.Holds(i) then 1 else 0
  }

  /** Whether a worker has found `row`, or will find it by probing, and not yet sent it. */
  function HoldsRow(c: Scan, row: ScanCandidateRow): Phase -> nat {
    (p: Phase) =>
      if p.Claimed? then Finds(c, p.index, row)
      else if p.RowReady? && p.row == row then 1
      else 0
  }

  /** Whether a worker has drawn the progress value `n` and not yet sent it. */
  function HoldsCount(n: nat): Phase -> nat {
    (p: Phase) => if p.Counted? && p.count == n then 1 else 0
  }

  function IsExited(): Phase -> nat {
    (p: Phase) => if p.Exited? then 1 else 0
  }

  function IsClaiming(): Phase -> nat {
    (p: Phase) => if p.Claiming? then 1 else 0
  }

  /** How often a pause of this length looks at the cancel flag. */
  function Polls(pause: nat): nat {
    (pause + CANCEL_POLL_INTERVAL - 1) / CANCEL_POLL_INTERVAL
  }

  /** Steps a worker can still take before it must claim again, as an upper bound. */
  function Rank(c: Scan, p: Phase): nat {
    match p
    case Exited => 0
    case Claiming => 1
    case Top => 2
    case Pausing(r) => 3 + 2 * Polls(r)
    case Napping(r) => if r == 0 then 4 else 2 + 2 * Polls(r)
    case Announced => 4 + 2 * Polls(c.pause)
    case Counted(_) => 5 + 2 * Polls(c.pause)
    case Reported(_) => 6 + 2 * Polls(c.pause)
    case RowReady(_, _) => 7 + 2 * Polls(c.pause)
    case Claimed(_) => 8 + 2 * Polls(c.pause)
  }

  function RankOf(c: Scan): Phase -> nat {
    (p: Phase) => Rank(c, p)
  }

  /** Moving one worker trades its old share for its new one. */
  lemma {:induction false} TotalMove(ws: seq<Phase>, f: Phase -> nat, w: nat, p: Phase)
    requires w < |ws|
    ensures Total(ws[w := p], f) + f(ws[w]) == Total(ws, f) + f(p)
  {
    var n := |ws| - 1;
    if w == n {
      assert ws[w := p][..n] == ws[..n];
    } else {
      TotalMove(ws[..n], f, w, p);
      assert ws[w := p][..n] == ws[..n][w := p];
    }
  }

  lemma TotalSpawn(ws: seq<Phase>, f: Phase -> nat, p: Phase)
    ensures Total(ws + [p], f) == Total(ws, f) + f(p)
  {
    assert (ws + [p])[..|ws|] == ws;
  }

  lemma {:induction false} ExitedCount(ws: seq<Phase>)
    ensures Total(ws, IsExited()) <= |ws|
    ensures forall w :: 0 <= w < |ws| && ws[w].Exited? ==> Total(ws, IsExited()) > 0
  {
    if ws != [] {
      ExitedCount(ws[..|ws| - 1]);
    }
  }

  lemma {:induction false} NothingHeld(ws: seq<Phase>, f: Phase -> nat)
    requires forall w :: 0 <= w < |ws| ==> ws[w].Exited?
    requires f(Exited) == 0
    ensures Total(ws, f) == 0
  {
    if ws != [] {
      NothingHeld(ws[..|ws| - 1], f);
    }
  }

  /** At how many of the first `n` hosts probing yields `row`. */
  function TimesFound(c: Scan, n: nat, row: ScanCandidateRow): nat {
    if n == 0 then 0 else TimesFound(c, n - 1, row) + Finds(c, n - 1, row)
  }

  // ---------------------------------------------------------------------
  // The invariant of every reachable state

  /** How many hosts have been claimed. */
  function ClaimedHosts(c: Scan, s: State): nat {
    Min(s.nextIndex, |c.hosts|)
  }

  ghost predicate ThreadsInv(c: Scan, s: State) {
    && |s.workers| <= c.Threads()
    && s.joined <= |s.workers|
    && (s.joined > 0 ==> |s.workers| == c.Threads())
    && (forall w :: 0 <= w < s.joined ==> s.workers[w].Exited?)
    && (s.finished ==> s.joined == c.Threads())
  }

  /** What worker `w` holds was claimed by `w`, and its row is what the probe answered. */
  ghost predicate Owned(c: Scan, s: State, w: nat)
    requires w < |s.workers|
  {
    var p := s.workers[w];
    p.Claimed? || p.RowReady? || p.Reported? ==>
      && p.index < ClaimedHosts(c, s) && p.index < |s.past.claimedBy|
      && s.past.claimedBy[p.index] == w
      && (p.RowReady? ==> c.Answer(p.index) == Some(p.row))
  }

  ghost predicate ClaimInv(c: Scan, s: State) {
    && |s.past.claimedBy| == s.nextIndex
    && (forall i :: 0 <= i < |s.past.claimedBy| ==> s.past.claimedBy[i] < |s.workers|)
    && (forall w: nat :: w < |s.workers| ==> Owned(c, s, w))
  }

  /** Position `i`, once claimed, is held by one worker, or counted once, or abandoned once. */
  ghost predicate IndexLine(c: Scan, s: State, i: nat) {
    Total(s.workers, HoldsIndex(i)) + s.past.counted[i] + s.past.abandoned[i]
      == if i < ClaimedHosts(c, s) then 1 else 0
  }

  /** Every `row` found at a claimed host is on its way, sent, or left unsent. */
  ghost predicate RowLine(c: Scan, s: State, row: ScanCandidateRow) {
    Total(s.workers, HoldsRow(c, row)) + multiset(s.sent)[Row(row)] + multiset(s.past.unsent)[Row(row)]
      == TimesFound(c, ClaimedHosts(c, s), row)
  }

  /** The value `n`, once the checked counter took it, is on its way, sent, or left unsent. */
  ghost predicate CountLine(s: State, n: nat) {
    Total(s.workers, HoldsCount(n)) + multiset(s.sent)[Progress(n)] + multiset(s.past.unsent)[Progress(n)]
      == if 1 <= n <= s.checked then 1 else 0
  }

  ghost predicate LedgerInv(c: Scan, s: State) {
    && (forall i: nat :: IndexLine(c, s, i))
    && (forall row: ScanCandidateRow :: RowLine(c, s, row))
    && (forall n: nat :: CountLine(s, n))
    && |s.past.counted| == s.checked
    && (s.receiver ==> s.past.abandoned == multiset{} && s.past.unsent == [])
  }

  ghost predicate ExitInv(c: Scan, s: State) {
    var exited := Total(s.workers, IsExited());
    && s.nextIndex <= ClaimedHosts(c, s) + exited
    && (exited > 0 && !s.cancel && s.receiver ==> s.nextIndex > |c.hosts|)
  }

  ghost predicate ChannelInv(s: State) {
    && (forall i :: 0 <= i < |s.sent| && s.sent[i].Done? ==> s.finished && i == |s.sent| - 1)
    && (s.finished && s.receiver ==> |s.sent| > 0 && s.sent[|s.sent| - 1].Done?)
  }

  ghost predicate Inv(c: Scan, s: State) {
    ThreadsInv(c, s) && ClaimInv(c, s) && LedgerInv(c, s) && ExitInv(c, s) && ChannelInv(s)
  }

  lemma StartInv(c: Scan)
    ensures Inv(c, START)
  {
  }

  lemma IndexClaim(c: Scan, s: State, w: nat, i: nat)
    requires w < |s.workers| && s.workers[w] == Claiming && IndexLine(c, s, i)
    ensures IndexLine(c, Perform(c, s, w, Claim), i)
  {
    TotalMove(s.workers, HoldsIndex(i), w, Perform(c, s, w, Claim).workers[w]);
  }

  lemma IndexCount(c: Scan, s: State, w: nat, index: nat, i: nat)
    requires w < |s.workers| && s.workers[w] == Reported(index) && IndexLine(c, s, i)
    ensures IndexLine(c, Perform(c, s, w, Count(index)), i)
  {
    TotalMove(s.workers, HoldsIndex(i), w, Counted(s.checked + 1));
  }

  lemma IndexSend(c: Scan, s: State, w: nat, event: ScanEvent, next: Phase, i: nat)
    requires w < |s.workers| && IndexLine(c, s, i)
    requires s.workers[w] != Exited && NextAccess(c, s.cancel, s.workers[w]) == Send(event, next)
    ensures IndexLine(c, Perform(c, s, w, Send(event, next)), i)
  {
    TotalMove(s.workers, HoldsIndex(i), w, if s.receiver then next else Exited);
  }

  lemma IndexStep(c: Scan, s: State, w: nat, i: nat)
    requires w < |s.workers| && s.workers[w] != Exited && IndexLine(c, s, i)
    ensures IndexLine(c, WorkerStep(c, s, w), i)
  {
    match NextAccess(c, s.cancel, s.workers[w]) {
      case Local(next) => TotalMove(s.workers, HoldsIndex(i), w, next);
      case Claim => IndexClaim(c, s, w, i);
      case Count(index) => IndexCount(c, s, w, index, i);
      case Send(event, next) => IndexSend(c, s, w, event, next, i);
    }
  }

  lemma RowClaim(c: Scan, s: State, w: nat, row: ScanCandidateRow)
    requires w < |s.workers| && s.workers[w] == Claiming && RowLine(c, s, row)
    ensures RowLine(c, Perform(c, s, w, Claim), row)
  {
    TotalMove(s.workers, HoldsRow(c, row), w, Perform(c, s, w, Claim).workers[w]);
  }

  lemma RowCount(c: Scan, s: State, w: nat, index: nat, row: ScanCandidateRow)
    requires w < |s.workers| && s.workers[w] == Reported(index) && RowLine(c, s, row)
    ensures RowLine(c, Perform(c, s, w, Count(index)), row)
  {
    TotalMove(s.workers, HoldsRow(c, row), w, Counted(s.checked + 1));
  }

  lemma RowSend(c: Scan, s: State, w: nat, event: ScanEvent, next: Phase, row: ScanCandidateRow)
    requires w < |s.workers| && RowLine(c, s, row)
    requires s.workers[w] != Exited && NextAccess(c, s.cancel, s.workers[w]) == Send(event, next)
    ensures RowLine(c, Perform(c, s, w, Send(event, next)), row)
  {
    TotalMove(s.workers, HoldsRow(c, row), w, if s.receiver then next else Exited);
  }

  lemma RowStep(c: Scan, s: State, w: nat, row: ScanCandidateRow)
    requires w < |s.workers| && s.workers[w] != Exited && RowLine(c, s, row) && Owned(c, s, w)
    ensures RowLine(c, WorkerStep(c, s, w), row)
  {
    match NextAccess(c, s.cancel, s.workers[w]) {
      case Local(next) => TotalMove(s.workers, HoldsRow(c, row), w, next);
      case Claim => RowClaim(c, s, w, row);
      case Count(index) => RowCount(c, s, w, index, row);
      case Send(event, next) => RowSend(c, s, w, event, next, row);
    }
  }

  lemma CountCount(c: Scan, s: State, w: nat, index: nat, n: nat)
    requires w < |s.workers| && s.workers[w] == Reported(index) && CountLine(s, n)
    ensures CountLine(Perform(c, s, w, Count(index)), n)
  {
    TotalMove(s.workers, HoldsCount(n), w, Counted(s.checked + 1));
  }

  lemma CountSend(c: Scan, s: State, w: nat, event: ScanEvent, next: Phase, n: nat)
    requires w < |s.workers| && CountLine(s, n)
    requires s.workers[w] != Exited && NextAccess(c, s.cancel, s.workers[w]) == Send(event, next)
    ensures CountLine(Perform(c, s, w, Send(event, next)), n)
  {
    TotalMove(s.workers, HoldsCount(n), w, if s.receiver then next else Exited);
  }

  lemma CountStep(c: Scan, s: State, w: nat, n: nat)
    requires w < |s.workers| && s.workers[w] != Exited && CountLine(s, n)
    ensures CountLine(WorkerStep(c, s, w), n)
  {
    match NextAccess(c, s.cancel, s.workers[w]) {
      case Local(next) => TotalMove(s.workers, HoldsCount(n), w, next);
      case Claim => TotalMove(s.workers, HoldsCount(n), w, Perform(c, s, w, Claim).workers[w]);
      case Count(index) => CountCount(c, s, w, index, n);
      case Send(event, next) => CountSend(c, s, w, event, next, n);
    }
  }

  /** One count, or nothing, is added to what was counted; giving up needs a dropped receiver. */
  lemma CountedStep(c: Scan, s: State, w: nat)
    requires w < |s.workers| && s.workers[w] != Exited
    ensures var s' := WorkerStep(c, s, w);
            && (|s.past.counted| == s.checked ==> |s'.past.counted| == s'.checked)
            && s'.receiver == s.receiver
            && (s.receiver ==> s'.past.abandoned == s.past.abandoned && s'.past.unsent == s.past.unsent)
  {
  }

  lemma LedgerStep(c: Scan, s: State, w: nat)
    requires LedgerInv(c, s) && ClaimInv(c, s) && w < |s.workers| && s.workers[w] != Exited
    ensures LedgerInv(c, WorkerStep(c, s, w))
  {
    forall i: nat ensures IndexLine(c, WorkerStep(c, s, w), i) {
      IndexStep(c, s, w, i);
    }
    forall row: ScanCandidateRow ensures RowLine(c, WorkerStep(c, s, w), row) {
      assert Owned(c, s, w);
      RowStep(c, s, w, row);
    }
    forall n: nat ensures CountLine(WorkerStep(c, s, w), n) {
      CountStep(c, s, w, n);
    }
    CountedStep(c, s, w);
  }

  lemma ExitInvStep(c: Scan, s: State, w: nat)
    requires ExitInv(c, s) && w < |s.workers| && s.workers[w] != Exited
    ensures ExitInv(c, WorkerStep(c, s, w))
  {
    var s' := WorkerStep(c, s, w);
    TotalMove(s.workers, IsExited(), w, s'.workers[w]);
    assert s'.workers == s.workers[w := s'.workers[w]];
  }

  lemma OwnedStep(c: Scan, s: State, w: nat)
    requires ClaimInv(c, s) && w < |s.workers| && s.workers[w] != Exited
    ensures Owned(c, WorkerStep(c, s, w), w)
  {
    assert Owned(c, s, w);
  }

  lemma ClaimInvStep(c: Scan, s: State, w: nat)
    requires ClaimInv(c, s) && w < |s.workers| && s.workers[w] != Exited
    ensures ClaimInv(c, WorkerStep(c, s, w))
  {
    var s' := WorkerStep(c, s, w);
    OwnedStep(c, s, w);
    assert s'.workers == s.workers[w := s'.workers[w]];
    assert s.past.claimedBy <= s'.past.claimedBy;
    forall v: nat | v < |s'.workers| ensures Owned(c, s', v) {
      assert Owned(c, s, v);
    }
  }

  /** What the ledgers read: totals over the workers, the counters, the rows and counts sent, the past. */
  lemma SameLedger(c: Scan, s: State, s': State)
    requires LedgerInv(c, s)
    requires s'.nextIndex == s.nextIndex && s'.checked == s.checked && s'.past == s.past
    requires s'.receiver ==> s.receiver
    requires forall f: Phase -> nat | f(Top) == 0 :: Total(s'.workers, f) == Total(s.workers, f)
    requires forall e: ScanEvent | e != Done :: multiset(s'.sent)[e] == multiset(s.sent)[e]
    ensures LedgerInv(c, s')
  {
    forall i: nat ensures IndexLine(c, s', i) {
      assert IndexLine(c, s, i) && HoldsIndex(i)(Top) == 0;
    }
    forall row: ScanCandidateRow ensures RowLine(c, s', row) {
      assert RowLine(c, s, row) && HoldsRow(c, row)(Top) == 0;
    }
    forall n: nat ensures CountLine(s', n) {
      assert CountLine(s, n) && HoldsCount(n)(Top) == 0;
    }
  }

  lemma SpawnInv(c: Scan, s: State)
    requires Inv(c, s) && Enabled(c, s, Spawn)
    ensures Inv(c, Apply(c, s, Spawn))
  {
    var s' := Apply(c, s, Spawn);
    forall f: Phase -> nat | f(Top) == 0 ensures Total(s'.workers, f) == Total(s.workers, f) {
      TotalSpawn(s.workers, f, Top);
    }
    SameLedger(c, s, s');
    assert IsExited()(Top) == 0;
    forall v: nat | v < |s'.workers| ensures Owned(c, s', v) {
      assert v < |s.workers| ==> Owned(c, s, v);
    }
  }

  /** Actions outside the workers leave every worker, counter and claim alone. */
  lemma OutsideInv(c: Scan, s: State, a: Action)
    requires Inv(c, s) && Enabled(c, s, a) && (a.Join? || a.SendDone? || a.ByEnvironment())
    ensures LedgerInv(c, Apply(c, s, a)) && ClaimInv(c, Apply(c, s, a))
  {
    var s' := Apply(c, s, a);
    SameLedger(c, s, s');
    forall v: nat | v < |s'.workers| ensures Owned(c, s', v) {
      assert Owned(c, s, v);
    }
  }

  lemma QuietStep(c: Scan, s: State, w: nat)
    requires ThreadsInv(c, s) && ChannelInv(s) && w < |s.workers| && s.workers[w] != Exited
    ensures ThreadsInv(c, WorkerStep(c, s, w)) && ChannelInv(WorkerStep(c, s, w))
  {
    assert !s.finished;
  }

  lemma WorkInv(c: Scan, s: State, w: nat)
    requires Inv(c, s) && Enabled(c, s, Work(w))
    ensures Inv(c, Apply(c, s, Work(w)))
  {
    QuietStep(c, s, w);
    LedgerStep(c, s, w);
    ExitInvStep(c, s, w);
    ClaimInvStep(c, s, w);
  }

  lemma ApplyInv(c: Scan, s: State, a: Action)
    requires Inv(c, s) && Enabled(c, s, a)
    ensures Inv(c, Apply(c, s, a))
  {
    match a {
      case Work(w) => WorkInv(c, s, w);
      case Spawn => SpawnInv(c, s);
      case _ => OutsideInv(c, s, a);
    }
  }

  /** Every state of every run satisfies the invariant. */
  lemma {:induction false} RunInv(c: Scan, s: State, acts: seq<Action>, t: State)
    requires Inv(c, s) && Leads(c, s, acts, t)
    ensures Inv(c, t)
    decreases |acts|
  {
    if acts != [] {
      ApplyInv(c, s, acts[0]);
      RunInv(c, Apply(c, s, acts[0]), acts[1..], t);
    }
  }
}
