/** The search for an outbound tag that is not taken. */
module WarpTags {
  import opened Basics
  import opened Text
  import opened Warp
  import opened WarpGuarantees

  method SuggestUniqueTag(existing: seq<string>, preferred: string, suffix: string) returns (tag: string)
    ensures tag == SuggestedTag(existing, preferred, suffix)
    ensures |existing| < LAST_CANDIDATE ==> !Taken(existing, tag)
  {
    if |existing| < LAST_CANDIDATE {
      SuggestedFree(existing, preferred, suffix);
    }
    var base := Base(preferred);
    if !Taken(existing, base) {
      return base;
    }
    var index := 2;
    while true
      invariant 2 <= index <= LAST_CANDIDATE
      invariant SuggestedTag(existing, preferred, suffix) == FreeCandidate(existing, base, suffix, index)
      decreases LAST_CANDIDATE - index
    {
      var candidate := Candidate(base, index);
      if !Taken(existing, candidate) {
        return candidate;
      }
      index := index + 1;
      if index > LAST_CANDIDATE {
        return base + "-" + suffix;
      }
    }
  }

  /** The names tried up to number `n`, in lower case. */
  function Tried(base: string, n: nat): set<string> {
    if n <= 1 then {LowerAll(base)} else Tried(base, n - 1) + {LowerAll(Candidate(base, n))}
  }

  lemma CandidateNew(base: string, n: nat, m: nat)
    requires LowerAll(Candidate(base, n)) == LowerAll(Candidate(base, m))
    ensures n == m
  {
    DecimalValue(n);
    DecimalValue(m);
    var a, b := Candidate(base, n), Candidate(base, m);
    var k := |base| + 1;
    assert a[k..] == Decimal(n) && b[k..] == Decimal(m);
    assert |a| == |LowerAll(a)| == |LowerAll(b)| == |b|;
    forall i | 0 <= i < |Decimal(n)| ensures Decimal(n)[i] == Decimal(m)[i] {
      assert LowerAll(a)[k + i] == Lower(a[k + i]) && a[k + i] == Decimal(n)[i];
      assert LowerAll(b)[k + i] == Lower(b[k + i]) && b[k + i] == Decimal(m)[i];
    }
    DecimalInjective(n, m);
  }

  lemma {:induction false} NotTriedBefore(base: string, n: nat, m: nat)
    requires m < n && 2 <= n
    ensures LowerAll(Candidate(base, n)) !in Tried(base, m)
  {
    DecimalValue(n);
    assert |LowerAll(Candidate(base, n))| > |LowerAll(base)|;
    if m >= 2 {
      NotTriedBefore(base, n, m - 1);
      if LowerAll(Candidate(base, n)) == LowerAll(Candidate(base, m)) {
        CandidateNew(base, n, m);
      }
    }
  }

  lemma {:induction false} TriedMany(base: string, n: nat)
    requires n >= 1
    ensures |Tried(base, n)| == n
  {
    if n >= 2 {
      TriedMany(base, n - 1);
      NotTriedBefore(base, n, n - 1);
    }
  }

  function LowerSet(existing: seq<string>): set<string> {
    if existing == [] then {} else LowerSet(existing[1..]) + {LowerAll(existing[0])}
  }

  lemma {:induction false} LowerSetSmall(existing: seq<string>)
    ensures |LowerSet(existing)| <= |existing|
  {
    if existing != [] {
      LowerSetSmall(existing[1..]);
    }
  }

  lemma {:induction false} TakenInSet(existing: seq<string>, tag: string)
    requires Taken(existing, tag)
    ensures LowerAll(tag) in LowerSet(existing)
  {
    if !EqIgnoreCase(existing[0], tag) {
      var i :| 0 <= i < |existing| && EqIgnoreCase(existing[i], tag);
      assert EqIgnoreCase(existing[1..][i - 1], tag);
      TakenInSet(existing[1..], tag);
    }
  }

  /** From candidate `n` on: the search finds a free tag unless as many tags exist as it tries. */
  lemma {:induction false} SearchSucceeds(existing: seq<string>, base: string, suffix: string, n: nat)
    requires 2 <= n <= LAST_CANDIDATE + 1 && |existing| < LAST_CANDIDATE
    requires Tried(base, n - 1) <= LowerSet(existing)
    ensures !Taken(existing, FreeCandidate(existing, base, suffix, n))
    decreases LAST_CANDIDATE + 1 - n
  {
    if n > LAST_CANDIDATE {
      TriedMany(base, n - 1);
      LowerSetSmall(existing);
      SubsetSmaller(Tried(base, n - 1), LowerSet(existing));
    } else if Taken(existing, Candidate(base, n)) {
      TakenInSet(existing, Candidate(base, n));
      SearchSucceeds(existing, base, suffix, n + 1);
    }
  }

  lemma SubsetSmaller(a: set<string>, b: set<string>)
    requires a <= b
    ensures |a| <= |b|
  {
    assert b == a + (b - a);
  }

  /** With fewer than ten thousand tags around, the suggested tag is free. */
  lemma SuggestedFree(existing: seq<string>, preferred: string, suffix: string)
    requires |existing| < LAST_CANDIDATE
    ensures !Taken(existing, SuggestedTag(existing, preferred, suffix))
  {
    if Taken(existing, Base(preferred)) {
      TakenInSet(existing, Base(preferred));
      SearchSucceeds(existing, Base(preferred), suffix, 2);
    }
  }

  lemma {:induction false} TagsTaken(outbounds: seq<Outbound>, tag: string)
    requires Find(outbounds, tag) < |outbounds|
    ensures Taken(Tags(outbounds), tag)
  {
    var rest := Tags(outbounds[1..]);
    if Tagged(outbounds[0], tag) {
      assert Tags(outbounds)[0] == outbounds[0].tag.value;
    } else {
      TagsTaken(outbounds[1..], tag);
      var i :| 0 <= i < |rest| && EqIgnoreCase(rest[i], tag);
      assert Tags(outbounds)[|Tags(outbounds)| - |rest| + i] == rest[i];
    }
  }

  lemma {:induction false} TagsFew(outbounds: seq<Outbound>)
    ensures |Tags(outbounds)| <= |outbounds|
  {
    if outbounds != [] {
      TagsFew(outbounds[1..]);
    }
  }

  /** Setup's own proposal is never refused as a conflict: the tag search and the conflict check agree. */
  lemma SetupNeverConflicts(loaded: Config, preferred: string, suffix: string, body: string)
    requires |loaded.outbounds| < LAST_CANDIDATE && SuffixFits(suffix)
    ensures AddOutbound(loaded, SuggestedTag(Tags(loaded.outbounds), preferred, suffix), body).Some?
  {
    var tag := SuggestedTag(Tags(loaded.outbounds), preferred, suffix);
    TagsFew(loaded.outbounds);
    SuggestedFree(Tags(loaded.outbounds), preferred, suffix);
    SuggestedTrimmed(Tags(loaded.outbounds), preferred, suffix);
    TrimIsTrimmed(tag);
    if Has(loaded, tag) {
      TagsTaken(loaded.outbounds, tag);
    }
  }
}
