/** Exactly when a WARP operation reports success, from the answers it gets and the state it starts from. */
module WarpResults {
  import opened Basics
  import opened Text
  import opened Warp
  import opened WarpConsistency
  import opened WarpGuarantees
  import opened WarpTags

  /** The configuration is written and the marker after it, both acknowledged, and the closing report is made. */
  predicate Concludes(s: Remote, loaded: Config, f: Faults) {
    PassesCheck(s, Some(loaded), f) && f.commit.Done? && f.marker.Done? && f.report
  }

  /** The live file is read and has the same contents as the copy, or is misread as missing. */
  lemma PassesCheckMeans(s: Remote, loaded: Config, f: Faults)
    ensures PassesCheck(s, Some(loaded), f)
            <==> s.config.Some? && match f.check
                                   case Compared => s.config == Some(loaded)
                                   case MisreadAsMissing => true
                                   case ReadRefused => false
  {
  }

  lemma ConcludesExactly(s: Remote, loaded: Config, f: Faults, next: Config, m: Marker)
    ensures var (s', _, done) := CommitAndMark(s, f, loaded, next, m);
            && (done <==> Concludes(s, loaded, f))
            && (done ==> s' == s.(config := Some(next), marker := Some(m)))
  {
  }

  // ---------------------------------------------------------------------
  // Registration

  /** Exactly when a device is registered afterwards, to the helper's or an earlier run's knowledge. */
  lemma RegisterSucceeds(s: Remote, f: Faults, force: bool)
    ensures Register(s, f, force).1
            <==> && f.prepare && !f.probe.ProbeFailed?
                 && (|| (s.registration.Some? && f.probe.Answered? && !force)
                     || (&& (s.registration.Some? && f.probe.Answered? ==> f.removeOld.Removed?)
                         && f.registered && f.chmod))
    ensures Register(s, f, force).1 ==>
              Register(s, f, force).0
              == if s.registration.Some? && f.probe.Answered? && !force then s else s.(registration := f.left)
  {
  }

  // ---------------------------------------------------------------------
  // Setup

  /** The registration setup goes on with: the one it finds, or the one the helper leaves. */
  function SetupRegistration(s: Remote, f: Faults): Option<string> {
    if s.registration.Some? && f.probe.Answered? then s.registration
    else if f.registered && f.chmod then f.left
    else None
  }

  predicate SetupWorks(s: Remote, loaded: Config, f: Faults) {
    && f.helperFound && f.prepare && !f.probe.ProbeFailed? && SetupRegistration(s, f).Some? && f.generate
    && Concludes(s, loaded, f)
  }

  /** Setup succeeds if and only if its calls do; it adds one outbound at the end and marks it. */
  lemma SetupSucceeds(env: Env, s: Remote, loaded: Config, preferred: string, suffix: string, f: Faults)
    requires |loaded.outbounds| < 10_000 && SuffixFits(suffix)
    ensures var (s', copy) := Setup(env, s, loaded, preferred, suffix, f);
            && (copy.Some? <==> SetupWorks(s, loaded, f))
            && (copy.Some? ==>
                  var tag := SuggestedTag(Tags(loaded.outbounds), preferred, suffix);
                  var body := env.credentials(SetupRegistration(s, f).value);
                  var next := Config(loaded.outbounds + [Outbound(Some(tag), body)], loaded.routing);
                  copy == Some(next) && s' == Remote(SetupRegistration(s, f), Some(next), Some(Marker(tag, true))))
  {
    RegisterSucceeds(s, f, false);
    var s1 := Register(s, f, false).0;
    var body := Generate(env, s1, f);
    if body.Some? {
      SetupNeverConflicts(loaded, preferred, suffix, body.value);
      var tag := SuggestedTag(Tags(loaded.outbounds), preferred, suffix);
      ConcludesExactly(s1, loaded, f, AddOutbound(loaded, tag, body.value).value, Marker(tag, true));
    }
  }

  /** Successful or not, setup leaves the registration it finds, or whatever the helper leaves once it has run. */
  lemma SetupLeaves(env: Env, s: Remote, loaded: Config, preferred: string, suffix: string, f: Faults)
    ensures Setup(env, s, loaded, preferred, suffix, f).0.registration
            == if f.helperFound && f.prepare && !f.probe.ProbeFailed? && !(s.registration.Some? && f.probe.Answered?)
               then f.left
               else s.registration
  {
  }

  /** The wanted tag when it is free, else the first free candidate from number two on, else the fallback. */
  lemma SuggestedMeans(existing: seq<string>, preferred: string, suffix: string)
    ensures var base := if Blank(preferred) then "warp-out" else Trim(preferred);
            var tag := SuggestedTag(existing, preferred, suffix);
            if !Used(existing, base) then tag == base
            else
              || (exists n: nat :: IsCandidate(existing, base, n, tag))
              || (&& tag == base + "-" + suffix
                  && forall n: nat | 2 <= n <= 10_000 :: Used(existing, base + "-" + Decimal(n)))
  {
    UsedMeans(existing, Base(preferred));
    if Used(existing, Base(preferred)) {
      FreeCandidateMeans(existing, Base(preferred), suffix, 2);
    }
  }

  /** Some existing tag is the same but for case. */
  predicate Used(existing: seq<string>, tag: string) {
    exists i | 0 <= i < |existing| :: SameLetters(existing[i], tag)
  }

  predicate IsCandidate(existing: seq<string>, base: string, n: nat, tag: string) {
    && 2 <= n <= 10_000 && tag == base + "-" + Decimal(n) && !Used(existing, tag)
    && forall m: nat | 2 <= m < n :: Used(existing, base + "-" + Decimal(m))
  }

  lemma UsedMeans(existing: seq<string>, tag: string)
    ensures Used(existing, tag) <==> Taken(existing, tag)
  {
    forall i | 0 <= i < |existing| ensures SameLetters(existing[i], tag) <==> EqIgnoreCase(existing[i], tag) {
      EqIgnoreCaseMeans(existing[i], tag);
    }
  }

  lemma {:induction false} FreeCandidateMeans(existing: seq<string>, base: string, suffix: string, n: nat)
    requires 2 <= n <= 10_001
    requires forall m: nat | 2 <= m < n :: Used(existing, base + "-" + Decimal(m))
    ensures var tag := FreeCandidate(existing, base, suffix, n);
            || (exists k: nat :: IsCandidate(existing, base, k, tag))
            || (&& tag == base + "-" + suffix
                && forall m: nat | 2 <= m <= 10_000 :: Used(existing, base + "-" + Decimal(m)))
    decreases 10_001 - n
  {
    if n <= 10_000 {
      UsedMeans(existing, Candidate(base, n));
      if Taken(existing, Candidate(base, n)) {
        FreeCandidateMeans(existing, base, suffix, n + 1);
      } else {
        assert IsCandidate(existing, base, n, Candidate(base, n));
      }
    }
  }

  // ---------------------------------------------------------------------
  // Adoption

  /** Position `i` is the first outbound with this tag, in whatever case. */
  predicate FirstTagged(c: Config, tag: string, i: nat) {
    && i < |c.outbounds| && CarriesTag(c.outbounds[i], tag)
    && forall j | 0 <= j < i :: !CarriesTag(c.outbounds[j], tag)
  }

  predicate CarriesTag(o: Outbound, tag: string) {
    o.tag.Some? && SameLetters(o.tag.value, tag)
  }

  lemma TaggedMeans(o: Outbound, tag: string)
    ensures Tagged(o, tag) <==> CarriesTag(o, tag)
  {
    if o.tag.Some? {
      EqIgnoreCaseMeans(o.tag.value, tag);
    }
  }

  lemma FindMeans(c: Config, tag: string, i: nat)
    ensures FirstTagged(c, tag, i) <==> i < |c.outbounds| && Find(c.outbounds, tag) == i
  {
    forall j | 0 <= j < |c.outbounds| ensures Tagged(c.outbounds[j], tag) <==> CarriesTag(c.outbounds[j], tag) {
      TaggedMeans(c.outbounds[j], tag);
    }
  }

  /** Adoption succeeds if and only if the first outbound under the tag is fit, and marker and report go through. */
  lemma AdoptSucceeds(env: Env, s: Remote, loaded: Config, wanted: string, f: Faults)
    ensures var (s', copy) := Adopt(env, s, loaded, Some(wanted), f);
            var tag := Trim(wanted);
            && (copy.Some?
                <==> && !Blank(wanted)
                     && (exists i: nat :: FirstTagged(loaded, tag, i) && env.wireguard(loaded.outbounds[i].body))
                     && f.marker.Done? && f.report)
            && (copy.Some? ==> copy == Some(loaded) && s' == s.(marker := Some(Marker(tag, true))))
  {
    var i := Find(loaded.outbounds, Trim(wanted));
    FindMeans(loaded, Trim(wanted), i);
    forall k: nat | FirstTagged(loaded, Trim(wanted), k) ensures k == i {
      FindMeans(loaded, Trim(wanted), k);
    }
  }

  // ---------------------------------------------------------------------
  // Regeneration

  /** A backup is taken, or seen to be unnecessary. */
  predicate BackupWorks(s: Remote, f: Faults) {
    !f.backupProbe.ProbeFailed? && (s.registration.Some? && f.backupProbe.Answered? ==> f.backup)
  }

  /** The old registration is out of the way and a new one is there and protected. */
  predicate ReregistrationWorks(s: Remote, f: Faults) {
    && f.prepare && !f.probe.ProbeFailed?
    && (s.registration.Some? && f.probe.Answered? ==> f.removeOld.Removed?)
    && f.registered && f.chmod && f.left.Some?
  }

  /** One outbound, and only one, carries the tag. */
  predicate OnlyTagged(c: Config, tag: string, i: nat) {
    && i < |c.outbounds| && CarriesTag(c.outbounds[i], tag)
    && forall j | 0 <= j < |c.outbounds| && j != i :: !CarriesTag(c.outbounds[j], tag)
  }

  lemma ReplaceSucceeds(c: Config, tag: string, body: string)
    requires Trimmed(tag) && tag != []
    ensures ReplaceOutbound(c, tag, body).Some? <==> exists i: nat :: OnlyTagged(c, tag, i)
    ensures forall i: nat | OnlyTagged(c, tag, i) ::
              ReplaceOutbound(c, tag, body) == Some(Config(c.outbounds[i := Outbound(Some(tag), body)], c.routing))
  {
    TrimIsTrimmed(tag);
    var i := Find(c.outbounds, tag);
    forall j | 0 <= j < |c.outbounds| ensures Tagged(c.outbounds[j], tag) <==> CarriesTag(c.outbounds[j], tag) {
      TaggedMeans(c.outbounds[j], tag);
    }
    if ReplaceOutbound(c, tag, body).Some? {
      assert OnlyTagged(c, tag, i);
    }
  }

  predicate RegenerateWorks(s: Remote, loaded: Config, f: Faults) {
    && Managed(s) && f.markerRead && f.helperFound && BackupWorks(s, f) && ReregistrationWorks(s, f) && f.generate
    && (exists i: nat | i < |loaded.outbounds| :: OnlyTagged(loaded, s.marker.value.tag, i))
    && Concludes(s, loaded, f)
  }

  /** Regeneration succeeds if and only if its calls do, with exactly one outbound to give new credentials. */
  lemma RegenerateSucceeds(env: Env, s: Remote, loaded: Config, f: Faults)
    requires MarkerFits(s)
    ensures var (s', copy) := Regenerate(env, s, loaded, f);
            && (copy.Some? <==> RegenerateWorks(s, loaded, f))
            && (copy.Some? ==>
                  forall i: nat | OnlyTagged(loaded, s.marker.value.tag, i) ::
                    var o := Outbound(Some(s.marker.value.tag), env.credentials(f.left.value));
                    var next := Config(loaded.outbounds[i := o], loaded.routing);
                    copy == Some(next) && s' == Remote(f.left, Some(next), s.marker))
  {
    RegisterSucceeds(s, f, true);
    if Managed(s) {
      var tag := s.marker.value.tag;
      var s1 := Register(s, f, true).0;
      var body := Generate(env, s1, f);
      if body.Some? {
        ReplaceSucceeds(loaded, tag, body.value);
        var next := ReplaceOutbound(loaded, tag, body.value);
        if next.Some? {
          ConcludesExactly(s1, loaded, f, next.value, s.marker.value);
        }
      }
    }
  }

  // ---------------------------------------------------------------------
  // Removal

  predicate RemoveWorks(env: Env, s: Remote, loaded: Config, f: Faults) {
    && Managed(s) && f.markerRead
    && (exists i: nat | i < |loaded.outbounds| :: FirstTagged(loaded, s.marker.value.tag, i))
    && !env.referenced(loaded.routing, s.marker.value.tag)
    && Concludes(s, loaded, f)
  }

  /** Removal succeeds if and only if its calls do and nothing refers to the outbound; it takes the first one out. */
  lemma RemoveSucceeds(env: Env, s: Remote, loaded: Config, f: Faults)
    requires MarkerFits(s)
    ensures var (s', copy) := RemoveIntegration(env, s, loaded, f);
            && (copy.Some? <==> RemoveWorks(env, s, loaded, f))
            && (copy.Some? ==>
                  forall i: nat | FirstTagged(loaded, s.marker.value.tag, i) ::
                    var next := Config(loaded.outbounds[..i] + loaded.outbounds[i + 1..], loaded.routing);
                    copy == Some(next)
                    && s' == Remote(s.registration, Some(next), Some(Marker(s.marker.value.tag, false))))
  {
    if Managed(s) {
      var tag := s.marker.value.tag;
      TrimIsTrimmed(tag);
      var i := Find(loaded.outbounds, tag);
      FindMeans(loaded, tag, i);
      forall k: nat | FirstTagged(loaded, tag, k) ensures k == i {
        FindMeans(loaded, tag, k);
      }
      var next := RemoveOutbound(env, loaded, tag);
      if next.Some? {
        ConcludesExactly(s, loaded, f, next.value, Marker(tag, false));
      }
    }
  }

  // ---------------------------------------------------------------------
  // One life of the integration

  /** Set up on a host without registration, regenerated, and removed, when every call works. */
  lemma WholeLife(loaded: Config)
    requires loaded.outbounds == []
    ensures var f := AllWell(Done, Done);
            var g := f.(left := Some("newer"));
            var (s1, c1) := Setup(PLAIN, Remote(None, Some(loaded), None), loaded, "", "f", f);
            && c1.Some? && s1.registration == Some("new") && Managed(s1) && Matching(PLAIN, s1, "warp-out")
            && var (s2, c2) := Regenerate(PLAIN, s1, c1.value, g);
               && c2.Some? && s2.registration == Some("newer") && Managed(s2) && Matching(PLAIN, s2, "warp-out")
               && var (s3, c3) := RemoveIntegration(PLAIN, s2, c2.value, f);
                  c3 == Some(loaded) && !Managed(s3) && s3.registration == Some("newer")
  {
    var f := AllWell(Done, Done);
    var s := Remote(None, Some(loaded), None);
    SetupSucceeds(PLAIN, s, loaded, "", "f", f);
    SuggestedMeans([], "", "f");
    BlankMeans("");
    var o1, o2 := Outbound(Some("warp-out"), "new"), Outbound(Some("warp-out"), "newer");
    var c1, c2 := Config([o1], loaded.routing), Config([o2], loaded.routing);
    var s1 := Setup(PLAIN, s, loaded, "", "f", f).0;
    assert loaded.outbounds + [o1] == [o1];
    assert Tags(loaded.outbounds) == [];
    assert s1 == Remote(Some("new"), Some(c1), Some(Marker("warp-out", true)));
    var g := f.(left := Some("newer"));
    RegenerateSucceeds(PLAIN, s1, c1, g);
    assert OnlyTagged(c1, "warp-out", 0);
    assert c1.outbounds[0 := o2] == [o2];
    var s2 := Regenerate(PLAIN, s1, c1, g).0;
    RemoveSucceeds(PLAIN, s2, c2, f);
    assert FirstTagged(c2, "warp-out", 0);
    assert c2.outbounds[..0] + c2.outbounds[1..] == loaded.outbounds;
  }
}
