/** Registration and outbound belong together: what setup, regeneration and removal do to the pair. */
module WarpConsistency {
  import opened Basics
  import opened Text
  import opened Warp
  import opened WarpGuarantees

  /** The outbound with this tag carries the credentials of the registration on the host. */
  predicate Matching(env: Env, s: Remote, tag: string) {
    && s.registration.Some? && s.config.Some? && Has(s.config.value, tag)
    && s.config.value.outbounds[Find(s.config.value.outbounds, tag)].body == env.credentials(s.registration.value)
  }

  // ---------------------------------------------------------------------
  // Regeneration

  /** Regeneration gets past its backup, the point after which it may change something. */
  predicate Begins(s: Remote, f: Faults) {
    ManagedMarker(s, f).Some? && f.helperFound && BackUpRegistration(s, f).Some?
  }

  /** A copy of the old registration was made. */
  predicate Copied(s: Remote, f: Faults) {
    s.registration.Some? && f.backupProbe.Answered? && f.backup
  }

  predicate BothOld(s: Remote, s': Remote) {
    s'.registration == s.registration && s'.config == s.config
  }

  /** The live configuration is the proposal made from the registration that is there. */
  predicate BothNew(env: Env, loaded: Config, tag: string, s': Remote) {
    s'.registration.Some? && s'.config.Some?
    && ReplaceOutbound(loaded, tag, env.credentials(s'.registration.value)) == s'.config
  }

  /** The registration file was removed or written over before the operation failed. */
  predicate Touched(s: Remote, f: Faults) {
    && f.prepare && !f.probe.ProbeFailed?
    && (if Found(s, f.probe) then !f.removeOld.NotRemoved? else f.left != s.registration)
  }

  /** The old registration is not there in the end: not put back, or taken away by the attempt. */
  predicate RestoreFails(s: Remote, f: Faults) {
    if Copied(s, f) then f.restore.Displaced? || (f.restore.Undone? && Touched(s, f))
    else Touched(s, f)
  }

  /** The new registration is not there in the end, although the new outbound is. */
  predicate RestoreTears(s: Remote, f: Faults) {
    Copied(s, f) && (f.restore.Displaced? || (!f.restore.Undone? && Touched(s, f)))
  }

  /** When regeneration leaves registration and outbound torn apart. */
  predicate Tears(env: Env, s: Remote, loaded: Config, f: Faults) {
    && Begins(s, f)
    && var next := PrepareRegenerate(env, s, loaded, s.marker.value.tag, f).1;
       if next.Some? && PassesCheck(s, Some(loaded), f) then
         match f.commit
         case Done => false
         case Undone => RestoreFails(s, f)
         case DoneUnreported => RestoreTears(s, f)
         case Displaced => true
       else RestoreFails(s, f)
  }

  lemma PreparedRegenerate(env: Env, s: Remote, loaded: Config, tag: string, f: Faults)
    requires Found(s, f.probe) && f.left.Some? ==> f.left != s.registration
    ensures var (s1, next) := PrepareRegenerate(env, s, loaded, tag, f);
            && s1.config == s.config && s1.marker == s.marker
            && (s1.registration != s.registration <==> Touched(s, f))
            && (next.Some? ==> s1.registration.Some? && s1.registration == f.left
                               && next == ReplaceOutbound(loaded, tag, env.credentials(s1.registration.value)))
  {
  }

  lemma ProposalsDiffer(c: Config, tag: string, body: string, other: string)
    requires body != other && ReplaceOutbound(c, tag, body).Some?
    ensures ReplaceOutbound(c, tag, body) != ReplaceOutbound(c, tag, other)
  {
    var i := Find(c.outbounds, Trim(tag));
    assert ReplaceOutbound(c, tag, body).value.outbounds[i] == Outbound(Some(tag), body);
    assert ReplaceOutbound(c, tag, other).value.outbounds[i] == Outbound(Some(tag), other);
  }

  /**
   A registration that the helper issues is new: its credentials are neither
   those of the old one nor those in use. (The helper may also leave the file as
   it is, as it does when it finds one it was not told about.)
   */
  predicate Fresh(env: Env, s: Remote, f: Faults) {
    f.left.Some? && (f.left != s.registration || Found(s, f.probe)) ==>
      && (s.registration.Some? ==> env.credentials(f.left.value) != env.credentials(s.registration.value))
      && (Managed(s) && LiveHas(s, s.marker.value.tag) ==> LiveBody(s) != env.credentials(f.left.value))
  }

  /** The body of the marked outbound in the live configuration. */
  function LiveBody(s: Remote): string
    requires Managed(s) && LiveHas(s, s.marker.value.tag)
  {
    s.config.value.outbounds[Find(s.config.value.outbounds, s.marker.value.tag)].body
  }

  /** A state whose marked outbound carries other credentials is no proposal made from `registration`. */
  lemma NotProposal(env: Env, s: Remote, loaded: Config, body: string)
    requires Managed(s) && MarkerFits(s) && s.config.Some?
    requires LiveHas(s, s.marker.value.tag) ==> LiveBody(s) != body
    ensures ReplaceOutbound(loaded, s.marker.value.tag, body) != s.config
  {
    var tag := s.marker.value.tag;
    if ReplaceOutbound(loaded, tag, body).Some? {
      ReplacedHas(loaded, tag, body);
    }
  }

  predicate Torn(env: Env, s: Remote, loaded: Config, s': Remote) {
    !BothOld(s, s') && !(Managed(s) && BothNew(env, loaded, s.marker.value.tag, s'))
  }

  /** The operation fails before its proposal is written: only the registration may have changed. */
  lemma UnwrittenTears(env: Env, s: Remote, loaded: Config, f: Faults)
    requires MarkerFits(s) && Fresh(env, s, f) && Begins(s, f)
    requires PrepareRegenerate(env, s, loaded, s.marker.value.tag, f).1.None? || !PassesCheck(s, Some(loaded), f)
    ensures Torn(env, s, loaded, Regenerate(env, s, loaded, f).0) <==> RestoreFails(s, f)
  {
    var tag := s.marker.value.tag;
    PreparedRegenerate(env, s, loaded, tag, f);
    var s1 := PrepareRegenerate(env, s, loaded, tag, f).0;
    var s' := Regenerate(env, s, loaded, f).0;
    assert s' == RestoreRegistration(s1, f, BackUpRegistration(s, f).value);
    RestoredTears(env, s, loaded, f, s1, s');
  }

  /** From an unchanged configuration and the registration the helper left, the attempt to restore. */
  lemma RestoredTears(env: Env, s: Remote, loaded: Config, f: Faults, s1: Remote, s': Remote)
    requires MarkerFits(s) && Managed(s) && BackUpRegistration(s, f).Some?
    requires s1.config == s.config && (s1.registration != s.registration <==> Touched(s, f))
    requires s1.registration.Some? && Touched(s, f) && LiveHas(s, s.marker.value.tag) ==>
               LiveBody(s) != env.credentials(s1.registration.value)
    requires s' == RestoreRegistration(s1, f, BackUpRegistration(s, f).value)
    ensures Torn(env, s, loaded, s') <==> RestoreFails(s, f)
  {
    if s1.registration.Some? && s.config.Some? && Touched(s, f) {
      NotProposal(env, s, loaded, env.credentials(s1.registration.value));
    }
  }

  /** The proposal is written: its own success, or the way its failure ends, decides. */
  lemma WrittenTears(env: Env, s: Remote, loaded: Config, f: Faults)
    requires MarkerFits(s) && Fresh(env, s, f) && Begins(s, f) && PassesCheck(s, Some(loaded), f)
    requires PrepareRegenerate(env, s, loaded, s.marker.value.tag, f).1.Some?
    ensures Torn(env, s, loaded, Regenerate(env, s, loaded, f).0) <==> Tears(env, s, loaded, f)
  {
    var tag := s.marker.value.tag;
    PreparedRegenerate(env, s, loaded, tag, f);
    var (s1, next) := PrepareRegenerate(env, s, loaded, tag, f);
    var s' := Regenerate(env, s, loaded, f).0;
    var taken := BackUpRegistration(s, f).value;
    match f.commit {
      case Done =>
      case Displaced => assert s'.config == None;
      case Undone =>
        assert s' == RestoreRegistration(s1, f, taken);
        RestoredTears(env, s, loaded, f, s1, s');
      case DoneUnreported =>
        assert s' == RestoreRegistration(s1.(config := next), f, taken);
        LeftInPlaceTears(env, s, loaded, f, s1, next.value, s');
    }
  }

  /** The new outbound stays although a failure was reported, and the registration is restored. */
  lemma LeftInPlaceTears(env: Env, s: Remote, loaded: Config, f: Faults, s1: Remote, next: Config, s': Remote)
    requires MarkerFits(s) && Managed(s) && BackUpRegistration(s, f).Some?
    requires s1.registration.Some? && (s1.registration != s.registration <==> Touched(s, f))
    requires ReplaceOutbound(loaded, s.marker.value.tag, env.credentials(s1.registration.value)) == Some(next)
    requires Touched(s, f) && LiveHas(s, s.marker.value.tag) ==>
               LiveBody(s) != env.credentials(s1.registration.value)
    requires Touched(s, f) && s.registration.Some? ==>
               env.credentials(s.registration.value) != env.credentials(s1.registration.value)
    requires s' == RestoreRegistration(s1.(config := Some(next)), f, BackUpRegistration(s, f).value)
    ensures Torn(env, s, loaded, s') <==> RestoreTears(s, f)
  {
    var tag, body := s.marker.value.tag, env.credentials(s1.registration.value);
    if Touched(s, f) {
      if s.config.Some? {
        NotProposal(env, s, loaded, body);
      }
      if s.registration.Some? {
        ProposalsDiffer(loaded, tag, body, env.credentials(s.registration.value));
      }
    }
  }

  /**
   For every copy of the configuration and every pattern of failures: when the
   helper issues registrations with new credentials, the pair ends both old or
   both new unless a listed failure tears it. Restoring the registration is
   itself one of the ways: after a configuration write that could not be rolled
   back it undoes the wrong half.
   */
  lemma RegenerateTears(env: Env, s: Remote, loaded: Config, f: Faults)
    requires MarkerFits(s) && Fresh(env, s, f)
    ensures var s' := Regenerate(env, s, loaded, f).0;
            Tears(env, s, loaded, f)
            <==> !BothOld(s, s') && !(Managed(s) && BothNew(env, loaded, s.marker.value.tag, s'))
  {
    if Begins(s, f) {
      if PrepareRegenerate(env, s, loaded, s.marker.value.tag, f).1.Some? && PassesCheck(s, Some(loaded), f) {
        WrittenTears(env, s, loaded, f);
      } else {
        UnwrittenTears(env, s, loaded, f);
      }
    }
  }

  /** An integration in good order, and remote calls that all succeed but for the two replacements given. */
  const TIDY: Remote :=
    Remote(Some("old"), Some(Config([Outbound(Some("warp-out"), "old")], "")), Some(Marker("warp-out", true)))

  const PLAIN: Env := Env(r => r, _ => true, (_, _) => false)

  function AllWell(commit: Replacing, restore: Replacing): Faults {
    Faults(true, true, Answered, true, true, Answered, Removed, Some("new"), true, true, true, Compared,
           commit, restore, Done, true)
  }

  /** The restored registration no longer fits the outbound that could not be rolled back. */
  lemma RestoreUndoesWrongHalf()
    ensures var s' := Regenerate(PLAIN, TIDY, TIDY.config.value, AllWell(DoneUnreported, Done)).0;
            && Matching(PLAIN, TIDY, "warp-out") && !Matching(PLAIN, s', "warp-out")
            && s'.registration == Some("old") && s'.config.value.outbounds[0].body == "new"
  {
    TrimIsTrimmed("warp-out");
    assert Trimmed("warp-out");
    var s' := Regenerate(PLAIN, TIDY, TIDY.config.value, AllWell(DoneUnreported, Done)).0;
    assert s'.config.value.outbounds == [Outbound(Some("warp-out"), "new")];
  }

  /** A removal whose rollback failed: the outbound is gone, the marker still claims it. */
  lemma RemovalLeftInPlace()
    ensures var s' := RemoveIntegration(PLAIN, TIDY, TIDY.config.value, AllWell(DoneUnreported, Done)).0;
            Covered(TIDY) && !Covered(s') && s'.marker == TIDY.marker && s'.config == Some(Config([], ""))
  {
    TrimIsTrimmed("warp-out");
    assert Trimmed("warp-out");
    var outbounds := TIDY.config.value.outbounds;
    assert Tagged(outbounds[0], "warp-out");
    assert outbounds[..0] + outbounds[1..] == [];
  }

  /** An adoption from a stale copy that still has the outbound: a managed marker for nothing. */
  lemma StaleAdoption()
    ensures var s := Remote(Some("old"), Some(Config([], "")), None);
            var (s', copy) := Adopt(PLAIN, s, TIDY.config.value, Some("warp-out"), AllWell(Done, Done));
            Covered(s) && copy == TIDY.config && Managed(s') && !Covered(s')
  {
    TrimIsTrimmed("warp-out");
    assert Trimmed("warp-out");
    assert Tagged(TIDY.config.value.outbounds[0], "warp-out");
  }

  /** A setup from a stale copy, its conflict check misread away, its marker not written: the old outbound is gone. */
  lemma StaleSetup()
    ensures var f := AllWell(Done, Done).(check := MisreadAsMissing, marker := Undone);
            var s' := Setup(PLAIN, TIDY, Config([], ""), "warp-two", "f", f).0;
            Covered(TIDY) && !Covered(s') && s'.marker == TIDY.marker
            && s'.config == Some(Config([Outbound(Some("warp-two"), "old")], ""))
  {
    TrimIsTrimmed("warp-two");
    assert Trimmed("warp-two") && Trimmed("warp-out");
    assert Tagged(TIDY.config.value.outbounds[0], "warp-out");
    assert LowerAll("warp-two")[5] == 't' && LowerAll("warp-out")[5] == 'o';
    assert !Taken([], "warp-two");
    var f := AllWell(Done, Done).(check := MisreadAsMissing, marker := Undone);
    var (s1, p) := PrepareSetup(PLAIN, TIDY, Config([], ""), "warp-two", "f", f);
    assert SuggestedTag(Tags([]), "warp-two", "f") == "warp-two";
    assert p.Some? && p.value.config.outbounds == [Outbound(Some("warp-two"), "old")];
  }

  /** A setup whose probe fails on a registered host: the helper runs, and the old registration is gone. */
  lemma MisledSetup()
    ensures var f := AllWell(Done, Done).(probe := FalselyAbsent, registered := false);
            var (s', copy) := Setup(PLAIN, TIDY, TIDY.config.value, "warp-out", "f", f);
            && copy == None && s' == TIDY.(registration := Some("new"))
            && Matching(PLAIN, TIDY, "warp-out") && !Matching(PLAIN, s', "warp-out")
  {
    assert Tagged(TIDY.config.value.outbounds[0], "warp-out");
    var f := AllWell(Done, Done).(probe := FalselyAbsent, registered := false);
    assert Register(TIDY, f, false) == (TIDY.(registration := Some("new")), false);
  }

  /** Both new means matching; so a pair that matched and was not torn matches still. */
  lemma UntornMatches(env: Env, s: Remote, loaded: Config, f: Faults)
    requires MarkerFits(s) && Managed(s) && Fresh(env, s, f)
    requires Matching(env, s, s.marker.value.tag) && !Tears(env, s, loaded, f)
    ensures Matching(env, Regenerate(env, s, loaded, f).0, s.marker.value.tag)
  {
    RegenerateTears(env, s, loaded, f);
    var s' := Regenerate(env, s, loaded, f).0;
    var tag := s.marker.value.tag;
    if !BothOld(s, s') {
      ReplacedHas(loaded, tag, env.credentials(s'.registration.value));
    }
  }

  /** A success report of setup or regeneration can be trusted, whatever state it started from. */
  lemma SuccessMatches(env: Env, s: Remote, call: Call)
    requires (call.op.SetupOp? || call.op.RegenerateOp?) && OpFits(call.op) && MarkerFits(s)
    requires Step(env, s, call).1.Some?
    ensures var (s', copy) := Step(env, s, call);
            && Managed(s') && Matching(env, s', s'.marker.value.tag)
            && s'.config == copy
            && (call.op.RegenerateOp? ==> s'.marker == s.marker)
            && (call.op.SetupOp? ==> !Has(call.loaded.value, s'.marker.value.tag)
                                     && (Found(s, call.faults.probe) ==> s'.registration == s.registration))
  {
    var loaded, f := call.loaded.value, call.faults;
    match call.op {
      case SetupOp(preferred, suffix) => SetupProposal(env, s, loaded, preferred, suffix, f);
      case RegenerateOp =>
        var tag := s.marker.value.tag;
        var s1 := PrepareRegenerate(env, s, loaded, tag, f).0;
        ReplacedHas(loaded, tag, env.credentials(s1.registration.value));
    }
  }

  // ---------------------------------------------------------------------
  // Everything else stays

  /** The outbounds without this tag, in order. */
  function Others(outbounds: seq<Outbound>, tag: string): seq<Outbound> {
    if outbounds == [] then []
    else
      var n := |outbounds| - 1;
      Others(outbounds[..n], tag) + (if Tagged(outbounds[n], tag) then [] else [outbounds[n]])
  }

  lemma {:induction false} OthersConcat(a: seq<Outbound>, b: seq<Outbound>, tag: string)
    ensures Others(a + b, tag) == Others(a, tag) + Others(b, tag)
    decreases |b|
  {
    if b == [] {
      assert a + b == a;
    } else {
      var n := |b| - 1;
      OthersConcat(a, b[..n], tag);
      assert (a + b)[..|a| + n] == a + b[..n];
    }
  }

  lemma OthersOfOne(o: Outbound, tag: string)
    requires Tagged(o, tag)
    ensures Others([o], tag) == []
  {
  }

  lemma OthersAround(outbounds: seq<Outbound>, i: nat, tag: string)
    requires i < |outbounds| && Tagged(outbounds[i], tag)
    ensures Others(outbounds, tag) == Others(outbounds[..i], tag) + Others(outbounds[i + 1..], tag)
  {
    var before, it, after := outbounds[..i], [outbounds[i]], outbounds[i + 1..];
    assert outbounds == before + it + after;
    OthersConcat(before + it, after, tag);
    OthersConcat(before, it, tag);
    OthersOfOne(outbounds[i], tag);
  }

  /** `next` differs from `c` in outbounds tagged `tag` only. */
  predicate OnlyAbout(tag: string, c: Config, next: Config) {
    next.routing == c.routing && Others(next.outbounds, tag) == Others(c.outbounds, tag)
  }

  lemma AddedOnly(c: Config, tag: string, body: string)
    requires AddOutbound(c, tag, body).Some?
    ensures OnlyAbout(tag, c, AddOutbound(c, tag, body).value)
  {
    OthersConcat(c.outbounds, [Outbound(Some(tag), body)], tag);
    OthersOfOne(Outbound(Some(tag), body), tag);
  }

  lemma ReplacedOnly(c: Config, tag: string, body: string)
    requires Trimmed(tag) && ReplaceOutbound(c, tag, body).Some?
    ensures OnlyAbout(tag, c, ReplaceOutbound(c, tag, body).value)
  {
    TrimIsTrimmed(tag);
    var i, next := Find(c.outbounds, tag), ReplaceOutbound(c, tag, body).value;
    OthersAround(c.outbounds, i, tag);
    OthersAround(next.outbounds, i, tag);
    assert next.outbounds[..i] == c.outbounds[..i] && next.outbounds[i + 1..] == c.outbounds[i + 1..];
  }

  lemma RemovedOnly(env: Env, c: Config, tag: string)
    requires Trimmed(tag) && RemoveOutbound(env, c, tag).Some?
    ensures OnlyAbout(tag, c, RemoveOutbound(env, c, tag).value)
  {
    TrimIsTrimmed(tag);
    var i := Find(c.outbounds, tag);
    OthersAround(c.outbounds, i, tag);
    OthersConcat(c.outbounds[..i], c.outbounds[i + 1..], tag);
  }

  /** The tag an operation is about. */
  function Subject(s: Remote, call: Call): string {
    match call.op
    case SetupOp(preferred, suffix) =>
      if call.loaded.None? then [] else SuggestedTag(Tags(call.loaded.value.outbounds), preferred, suffix)
    case AdoptOp(wanted) => if wanted.None? then [] else Trim(wanted.value)
    case _ => if s.marker.None? then [] else s.marker.value.tag
  }

  lemma ProposalOnly(env: Env, s: Remote, call: Call)
    requires OpFits(call.op) && MarkerFits(s) && Proposed(env, s, call).Some?
    ensures OnlyAbout(Subject(s, call), call.loaded.value, Proposed(env, s, call).value)
  {
    var loaded, f := call.loaded.value, call.faults;
    match call.op {
      case SetupOp(preferred, suffix) =>
        AddedOnly(loaded, Subject(s, call), Generate(env, Register(s, f, false).0, f).value);
      case RegenerateOp =>
        ReplacedOnly(loaded, Subject(s, call), Generate(env, Register(s, f, true).0, f).value);
      case RemoveOp => RemovedOnly(env, loaded, Subject(s, call));
    }
  }

  /**
   Whatever fails, the configuration is lost, or as before, or differs from the
   client's copy in the operation's own tag at most; and that copy is the live
   configuration unless a misread switched the conflict check off.
   */
  lemma StepOnly(env: Env, s: Remote, call: Call)
    requires OpFits(call.op) && MarkerFits(s)
    ensures var s' := Step(env, s, call).0;
            s'.config != s.config ==>
              && Writes(env, s, call)
              && (s.config == call.loaded || call.faults.check.MisreadAsMissing?)
              && (if s'.config.None? then call.faults.commit.Displaced?
                  else OnlyAbout(Subject(s, call), call.loaded.value, s'.config.value))
  {
    StepConfig(env, s, call);
    if Proposed(env, s, call).Some? {
      ProposalOnly(env, s, call);
    }
  }

  /**
   Adoption and removal never touch the registration; setup on a registered host
   does exactly if the helper runs, its probe misled, and leaves another file.
   */
  lemma StepRegistration(env: Env, s: Remote, call: Call)
    requires call.op.AdoptOp? || call.op.RemoveOp? || (call.op.SetupOp? && s.registration.Some?)
    ensures var f := call.faults;
            Step(env, s, call).0.registration != s.registration
            <==> && call.op.SetupOp? && call.loaded.Some? && f.helperFound && f.prepare
                 && f.probe.FalselyAbsent? && f.left != s.registration
  {
    match call.op {
      case SetupOp(_, _) =>
      case AdoptOp(_) =>
      case RemoveOp =>
    }
  }

  /** The configuration after an operation: its proposal as far as it was written, or what it was. */
  lemma StepConfig(env: Env, s: Remote, call: Call)
    ensures Step(env, s, call).0.config
              == if Writes(env, s, call)
                 then Written(call.faults.commit, s.config, Proposed(env, s, call).value)
                 else s.config
  {
    match call.op {
      case SetupOp(_, _) =>
      case AdoptOp(_) =>
      case RegenerateOp =>
      case RemoveOp =>
    }
  }

  /** The marker an operation writes. */
  function Marking(s: Remote, call: Call): Marker {
    Marker(Subject(s, call), !call.op.RemoveOp?)
  }

  lemma SetupMarker(env: Env, s: Remote, call: Call)
    requires call.op.SetupOp?
    ensures Step(env, s, call).0.marker
              == if Writes(env, s, call) && call.faults.commit.Done?
                 then Written(call.faults.marker, s.marker, Marking(s, call))
                 else s.marker
  {
  }

  /** Except by adoption, the marker is written after the configuration and only if that was acknowledged. */
  lemma MarkerFollowsConfig(env: Env, s: Remote, call: Call)
    requires !call.op.AdoptOp?
    ensures Step(env, s, call).0.marker
              == if Writes(env, s, call) && call.faults.commit.Done?
                 then Written(call.faults.marker, s.marker, Marking(s, call))
                 else s.marker
  {
    match call.op {
      case SetupOp(preferred, suffix) => SetupMarker(env, s, call);
      case RegenerateOp =>
      case RemoveOp =>
    }
  }

  /** No marked outbound to work on, a helper or a backup missing, an outbound in use or unfit for adoption. */
  predicate Refused(env: Env, s: Remote, call: Call) {
    var f := call.faults;
    || call.loaded.None?
    || match call.op
       case SetupOp(_, _) => !f.helperFound
       case AdoptOp(wanted) =>
         var outbounds := call.loaded.value.outbounds;
         wanted.None? || !exists o | o in outbounds :: Tagged(o, Trim(wanted.value)) && env.wireguard(o.body)
       case RegenerateOp => !Managed(s) || !f.markerRead || !f.helperFound || BackUpRegistration(s, f).None?
       case RemoveOp =>
         !Managed(s) || !f.markerRead || env.referenced(call.loaded.value.routing, s.marker.value.tag)
  }

  /** A refused operation changes nothing at all, remotely or in the client's copy. */
  lemma RefusalsChangeNothing(env: Env, s: Remote, call: Call)
    requires MarkerFits(s) && Refused(env, s, call)
    ensures Step(env, s, call) == (s, None)
  {
    if s.marker.Some? {
      TrimIsTrimmed(s.marker.value.tag);
    }
    if call.loaded.Some? && call.op.AdoptOp? && call.op.wanted.Some? {
      var outbounds, tag := call.loaded.value.outbounds, Trim(call.op.wanted.value);
      assert Find(outbounds, tag) < |outbounds| ==> outbounds[Find(outbounds, tag)] in outbounds;
    }
  }

  // ---------------------------------------------------------------------
  // Tags stay distinct

  predicate Distinct(outbounds: seq<Outbound>) {
    forall i, j :: 0 <= i < j < |outbounds| && outbounds[i].tag.Some? && outbounds[j].tag.Some? ==>
      !EqIgnoreCase(outbounds[i].tag.value, outbounds[j].tag.value)
  }

  lemma StepDistinct(env: Env, s: Remote, call: Call)
    requires OpFits(call.op) && MarkerFits(s)
    requires s.config.Some? ==> Distinct(s.config.value.outbounds)
    requires call.faults.check.MisreadAsMissing? && call.loaded.Some? ==> Distinct(call.loaded.value.outbounds)
    ensures var s' := Step(env, s, call).0;
            s'.config.Some? ==> Distinct(s'.config.value.outbounds)
  {
    StepConfig(env, s, call);
    if Writes(env, s, call) {
      ProposalDistinct(env, s, call);
    }
  }

  lemma AddedDistinct(c: Config, tag: string, body: string)
    requires Trimmed(tag) && AddOutbound(c, tag, body).Some? && Distinct(c.outbounds)
    ensures Distinct(AddOutbound(c, tag, body).value.outbounds)
  {
    TrimIsTrimmed(tag);
  }

  lemma ReplacedDistinct(c: Config, tag: string, body: string)
    requires Trimmed(tag) && ReplaceOutbound(c, tag, body).Some? && Distinct(c.outbounds)
    ensures Distinct(ReplaceOutbound(c, tag, body).value.outbounds)
  {
    TrimIsTrimmed(tag);
  }

  lemma RemovedDistinct(env: Env, c: Config, tag: string)
    requires RemoveOutbound(env, c, tag).Some? && Distinct(c.outbounds)
    ensures Distinct(RemoveOutbound(env, c, tag).value.outbounds)
  {
  }

  lemma ProposalDistinct(env: Env, s: Remote, call: Call)
    requires OpFits(call.op) && MarkerFits(s) && Proposed(env, s, call).Some?
    requires Distinct(call.loaded.value.outbounds)
    ensures Distinct(Proposed(env, s, call).value.outbounds)
  {
    var loaded, f := call.loaded.value, call.faults;
    match call.op {
      case SetupOp(preferred, suffix) =>
        SuggestedTrimmed(Tags(loaded.outbounds), preferred, suffix);
        AddedDistinct(loaded, Subject(s, call), Generate(env, Register(s, f, false).0, f).value);
      case RegenerateOp =>
        ReplacedDistinct(loaded, Subject(s, call), Generate(env, Register(s, f, true).0, f).value);
      case RemoveOp => RemovedDistinct(env, loaded, Subject(s, call));
    }
  }
}
