/** What the WARP integration keeps true while any of its steps fails. */
module WarpGuarantees {
  import opened Basics
  import opened Text
  import opened Warp

  // ---------------------------------------------------------------------
  // Tags

  lemma AddedHas(c: Config, tag: string, body: string)
    requires Trimmed(tag) && AddOutbound(c, tag, body).Some?
    ensures var next := AddOutbound(c, tag, body).value;
            && Has(next, tag)
            && Find(next.outbounds, tag) == |c.outbounds|
            && (forall other: string | Has(c, other) :: Has(next, other))
  {
    TrimIsTrimmed(tag);
    var next := AddOutbound(c, tag, body).value;
    assert next.outbounds[|c.outbounds|] == Outbound(Some(tag), body);
    forall other: string | Has(c, other) ensures Has(next, other) {
      assert next.outbounds[Find(c.outbounds, other)] == c.outbounds[Find(c.outbounds, other)];
    }
  }

  lemma ReplacedHas(c: Config, tag: string, body: string)
    requires Trimmed(tag) && ReplaceOutbound(c, tag, body).Some?
    ensures var next := ReplaceOutbound(c, tag, body).value;
            && Has(next, tag)
            && next.outbounds[Find(next.outbounds, tag)].body == body
  {
    TrimIsTrimmed(tag);
    var i := Find(c.outbounds, tag);
    var next := ReplaceOutbound(c, tag, body).value;
    assert next.outbounds[i] == Outbound(Some(tag), body);
    assert forall j :: 0 <= j < i ==> next.outbounds[j] == c.outbounds[j];
  }

  lemma BaseTrimmed(preferred: string)
    ensures Trimmed(Base(preferred)) && Base(preferred) != []
  {
    TrimIsTrimmed(preferred);
  }

  lemma CandidateTrimmed(base: string, n: nat)
    requires Trimmed(base) && base != []
    ensures Trimmed(Candidate(base, n)) && Candidate(base, n) != []
  {
    DecimalValue(n);
    var c := Candidate(base, n);
    assert c[|c| - 1] == Decimal(n)[|Decimal(n)| - 1];
  }

  predicate SuffixFits(suffix: string) {
    suffix != [] && !IsWhite(suffix[|suffix| - 1])
  }

  lemma {:induction false} FreeCandidateTrimmed(existing: seq<string>, base: string, suffix: string, n: nat)
    requires Trimmed(base) && base != [] && SuffixFits(suffix)
    ensures Trimmed(FreeCandidate(existing, base, suffix, n)) && FreeCandidate(existing, base, suffix, n) != []
    decreases LAST_CANDIDATE + 1 - n
  {
    if n > LAST_CANDIDATE {
      var c := base + "-" + suffix;
      assert c[|c| - 1] == suffix[|suffix| - 1];
    } else {
      CandidateTrimmed(base, n);
      if Taken(existing, Candidate(base, n)) {
        FreeCandidateTrimmed(existing, base, suffix, n + 1);
      }
    }
  }

  lemma SuggestedTrimmed(existing: seq<string>, preferred: string, suffix: string)
    requires SuffixFits(suffix)
    ensures Trimmed(SuggestedTag(existing, preferred, suffix)) && SuggestedTag(existing, preferred, suffix) != []
  {
    BaseTrimmed(preferred);
    FreeCandidateTrimmed(existing, Base(preferred), suffix, 2);
  }

  // ---------------------------------------------------------------------
  // The marker names an outbound that exists

  predicate Managed(s: Remote) {
    s.marker.Some? && s.marker.value.managed
  }

  /** A marker of a managed outbound is backed by such an outbound. */
  predicate Covered(s: Remote) {
    Managed(s) ==> s.config.Some? && Has(s.config.value, s.marker.value.tag)
  }

  /** Every marker the program writes carries a trimmed, non-empty tag. */
  predicate MarkerFits(s: Remote) {
    s.marker.Some? ==> Trimmed(s.marker.value.tag) && s.marker.value.tag != []
  }

  predicate OpFits(op: Op) {
    op.SetupOp? ==> SuffixFits(op.suffix)
  }

  /** The configuration the operation would commit, when it gets that far. */
  function Proposed(env: Env, s: Remote, call: Call): Option<Config> {
    if call.loaded.None? then None
    else
      var loaded, f, m := call.loaded.value, call.faults, ManagedMarker(s, call.faults);
      match call.op
      case AdoptOp(_) => None
      case SetupOp(preferred, suffix) =>
        var p := PrepareSetup(env, s, loaded, preferred, suffix, f).1;
        if p.Some? then Some(p.value.config) else None
      case RegenerateOp =>
        if m.Some? && f.helperFound && BackUpRegistration(s, f).Some? then
          PrepareRegenerate(env, s, loaded, m.value.tag, f).1
        else None
      case RemoveOp =>
        if m.Some? then RemoveOutbound(env, loaded, m.value.tag) else None
  }

  /** The conflict check lets the write through: the copies agree, or the live file is misread as missing. */
  predicate PassesCheck(s: Remote, loaded: Option<Config>, f: Faults) {
    s.config.Some? && !f.check.ReadRefused? && (f.check.MisreadAsMissing? || s.config == loaded)
  }

  /** The operation reaches the write of its proposal. */
  predicate Writes(env: Env, s: Remote, call: Call) {
    Proposed(env, s, call).Some? && PassesCheck(s, call.loaded, call.faults)
  }

  /** The new configuration takes effect while the old marker stays. */
  predicate OutrunsMarker(f: Faults) {
    f.commit.DoneUnreported? || (f.commit.Done? && f.marker.Undone?)
  }

  /** The tag an adoption would mark, when it accepts the outbound in the loaded copy. */
  function Adopted(env: Env, call: Call): Option<string> {
    if call.loaded.None? || !call.op.AdoptOp? then None
    else PrepareAdoption(env, call.loaded.value, call.op.wanted)
  }

  predicate LiveHas(s: Remote, tag: string) {
    s.config.Some? && Has(s.config.value, tag)
  }

  /**
   How a marker loses its outbound, or is set without one. The configuration
   file is lost half-way through its replacement; a configuration without the
   marked outbound takes effect while the marker stays, because writing the
   marker failed or because the configuration change was reported as failed and
   could not be rolled back; or an adoption marks an outbound that only the
   loaded copy has.
   */
  predicate Exposes(env: Env, s: Remote, call: Call) {
    if call.op.AdoptOp? then
      var tag := Adopted(env, call);
      && tag.Some? && !LiveHas(s, tag.value)
      && (call.faults.marker.Done? || call.faults.marker.DoneUnreported?)
    else
      && Managed(s) && Writes(env, s, call)
      && (|| call.faults.commit.Displaced?
          || (OutrunsMarker(call.faults) && !Has(Proposed(env, s, call).value, s.marker.value.tag)))
  }

  /** How a marker without its outbound comes right: it is replaced or lost, or its outbound appears. */
  predicate Repairs(env: Env, s: Remote, call: Call) {
    if call.op.AdoptOp? then
      var tag := Adopted(env, call);
      && tag.Some? && !call.faults.marker.Undone?
      && (call.faults.marker.Displaced? || LiveHas(s, tag.value))
    else
      && Managed(s) && Writes(env, s, call)
      && (|| (call.faults.commit.Done? && !call.faults.marker.Undone?)
          || (OutrunsMarker(call.faults) && Has(Proposed(env, s, call).value, s.marker.value.tag)))
  }

  /** Setup's proposal extends the loaded copy by an outbound under the proposed tag; the rest is as before. */
  lemma SetupProposal(env: Env, s: Remote, loaded: Config, preferred: string, suffix: string, f: Faults)
    requires SuffixFits(suffix)
    ensures var (s1, p) := PrepareSetup(env, s, loaded, preferred, suffix, f);
            && s1.config == s.config && s1.marker == s.marker
            && (p.Some? ==>
                  && Trimmed(p.value.tag) && p.value.tag != [] && !Has(loaded, p.value.tag)
                  && s1.registration.Some?
                  && p.value.config.outbounds
                       == loaded.outbounds
                          + [Outbound(Some(p.value.tag), env.credentials(s1.registration.value))]
                  && Has(p.value.config, p.value.tag)
                  && Find(p.value.config.outbounds, p.value.tag) == |loaded.outbounds|
                  && (forall other: string | Has(loaded, other) :: Has(p.value.config, other)))
  {
    var (s1, p) := PrepareSetup(env, s, loaded, preferred, suffix, f);
    if p.Some? {
      SuggestedTrimmed(Tags(loaded.outbounds), preferred, suffix);
      TrimIsTrimmed(p.value.tag);
      AddedHas(loaded, p.value.tag, Generate(env, s1, f).value);
    }
  }

  /** Committing `next`, which has the tag of `m` if `m` is managed, and marking `m`. */
  lemma CommitAndMarkCovers(s: Remote, f: Faults, loaded: Config, next: Config, m: Marker)
    requires m.managed ==> Has(next, m.tag)
    ensures var s' := CommitAndMark(s, f, loaded, next, m).0;
            Covered(s')
            <==> (if !PassesCheck(s, Some(loaded), f) || f.commit.Undone? then Covered(s)
                  else || !Managed(s)
                       || (f.commit.Done? && !f.marker.Undone?)
                       || (OutrunsMarker(f) && Has(next, s.marker.value.tag)))
  {
  }

  lemma CommitAndMarkFits(s: Remote, f: Faults, loaded: Config, next: Config, m: Marker)
    requires MarkerFits(s) && Trimmed(m.tag) && m.tag != []
    ensures MarkerFits(CommitAndMark(s, f, loaded, next, m).0)
  {
  }

  /** What the exact theorem says of an operation: the form of the marker, and its outbound. */
  predicate CoversExactly(env: Env, s: Remote, call: Call) {
    var s' := Step(env, s, call).0;
    && MarkerFits(s')
    && (Covered(s') <==> if Covered(s) then !Exposes(env, s, call) else Repairs(env, s, call))
  }

  lemma SetupCovers(env: Env, s: Remote, call: Call)
    requires call.op.SetupOp? && OpFits(call.op) && MarkerFits(s) && call.loaded.Some?
    ensures CoversExactly(env, s, call)
  {
    var loaded, f := call.loaded.value, call.faults;
    SetupProposal(env, s, loaded, call.op.preferred, call.op.suffix, f);
    var (s1, p) := PrepareSetup(env, s, loaded, call.op.preferred, call.op.suffix, f);
    if p.Some? {
      CommitAndMarkCovers(s1, f, loaded, p.value.config, Marker(p.value.tag, true));
      CommitAndMarkFits(s1, f, loaded, p.value.config, Marker(p.value.tag, true));
    }
  }

  lemma AdoptCovers(env: Env, s: Remote, call: Call)
    requires call.op.AdoptOp? && MarkerFits(s)
    ensures CoversExactly(env, s, call)
  {
    if call.op.wanted.Some? {
      TrimIsTrimmed(call.op.wanted.value);
    }
  }

  lemma RegenerateCovers(env: Env, s: Remote, call: Call)
    requires call.op.RegenerateOp? && MarkerFits(s)
    ensures CoversExactly(env, s, call)
  {
    if Proposed(env, s, call).Some? {
      var loaded, f, tag := call.loaded.value, call.faults, s.marker.value.tag;
      var (s1, next) := PrepareRegenerate(env, s, loaded, tag, f);
      ReplacedHas(loaded, tag, Generate(env, s1, f).value);
      CommitAndMarkCovers(s1, f, loaded, next.value, s.marker.value);
      CommitAndMarkFits(s1, f, loaded, next.value, s.marker.value);
    }
  }

  lemma RemoveCovers(env: Env, s: Remote, call: Call)
    requires call.op.RemoveOp? && MarkerFits(s)
    ensures CoversExactly(env, s, call)
  {
    if Proposed(env, s, call).Some? {
      var loaded, f, tag := call.loaded.value, call.faults, s.marker.value.tag;
      var next := RemoveOutbound(env, loaded, tag).value;
      CommitAndMarkCovers(s, f, loaded, next, Marker(tag, false));
      CommitAndMarkFits(s, f, loaded, next, Marker(tag, false));
    }
  }

  /**
   For every state, every operation from any copy of the configuration and every
   pattern of failures: exactly when a marker has its outbound afterwards.
   */
  lemma StepCovers(env: Env, s: Remote, call: Call)
    requires OpFits(call.op) && MarkerFits(s)
    ensures CoversExactly(env, s, call)
  {
    match call.op {
      case SetupOp(preferred, suffix) =>
        if call.loaded.Some? {
          SetupCovers(env, s, call);
        }
      case AdoptOp(_) => AdoptCovers(env, s, call);
      case RegenerateOp => RegenerateCovers(env, s, call);
      case RemoveOp => RemoveCovers(env, s, call);
    }
  }

  predicate Careful(env: Env, s: Remote, calls: seq<Call>)
    decreases |calls|
  {
    calls == [] ||
    (&& OpFits(calls[0].op) && !Exposes(env, s, calls[0])
     && Careful(env, Step(env, s, calls[0]).0, calls[1..]))
  }

  /** Over all runs, whatever fails: a managed marker has its outbound, unless a step exposed it. */
  lemma {:induction false} RunCovers(env: Env, s: Remote, calls: seq<Call>)
    requires Covered(s) && MarkerFits(s) && Careful(env, s, calls)
    ensures Covered(Run(env, s, calls)) && MarkerFits(Run(env, s, calls))
    decreases |calls|
  {
    if calls != [] {
      StepCovers(env, s, calls[0]);
      RunCovers(env, Step(env, s, calls[0]).0, calls[1..]);
    }
  }

  /**
   Adoption looks at the loaded copy only: once its marker is in place, reported
   or not, what it marks exists exactly if the live file has it too.
   */
  lemma AdoptTrustsLoadedCopy(env: Env, s: Remote, call: Call)
    requires Adopted(env, call).Some? && (call.faults.marker.Done? || call.faults.marker.DoneUnreported?)
    ensures var s' := Step(env, s, call).0;
            && Managed(s') && s'.marker.value.tag == Adopted(env, call).value
            && (Covered(s') <==> LiveHas(s, Adopted(env, call).value))
  {
  }

  // ---------------------------------------------------------------------
  // A marker without its outbound

  /**
   Removal and regeneration get out of it only by writing over a live file whose
   conflict check was switched off; otherwise they change neither marker nor
   configuration.
   */
  lemma DanglingIsStuck(env: Env, s: Remote, call: Call)
    requires MarkerFits(s) && !Covered(s) && (call.op.RemoveOp? || call.op.RegenerateOp?)
    ensures Writes(env, s, call) ==> call.faults.check.MisreadAsMissing? && s.config != call.loaded
    ensures !Writes(env, s, call) ==>
              var (s', copy) := Step(env, s, call);
              && copy.None? && s'.marker == s.marker && s'.config == s.config && !Covered(s')
              && (call.op.RemoveOp? ==> s' == s)
  {
    TrimIsTrimmed(s.marker.value.tag);
  }

  /** A successful setup does, and a successful adoption of an outbound that the live file has. */
  lemma DanglingIsRepaired(env: Env, s: Remote, call: Call)
    requires OpFits(call.op) && Step(env, s, call).1.Some?
    requires call.op.SetupOp? || (call.op.AdoptOp? && LiveHas(s, Trim(call.op.wanted.value)))
    ensures Managed(Step(env, s, call).0) && Covered(Step(env, s, call).0)
  {
    if call.op.AdoptOp? {
      AdoptTrustsLoadedCopy(env, s, call);
    } else {
      SetupProposal(env, s, call.loaded.value, call.op.preferred, call.op.suffix, call.faults);
    }
  }
}
