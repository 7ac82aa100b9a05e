/** Selecting a PDU profile: the same precedence, found by a best-so-far scan instead of a sort. */
module PduMatch {
  import opened Wrappers
  import opened GoStrings
  import opened StableSort
  import opened SortedStrings
  import opened Profiles
  import opened Quirks
  import opened ProfileMatch

  datatype Outlets = Outlets(count: int, switchable: seq<string>)

  datatype PduProfile = PduProfile(
    id: string,
    version: string,
    source: string,
    selector: Selector,
    outlets: Outlets,
    telemetryVariables: seq<string>,
    telemetryAliases: map<string, string>,
    quirks: seq<Quirk>)

  function CanonicalPdu(p: PduProfile): PduProfile {
    p.(telemetryVariables := Sort(Less, p.telemetryVariables),
       quirks := CopyQuirks(p.quirks),
       outlets := p.outlets.(switchable := Sort(Less, p.outlets.switchable)))
  }

  predicate PduKeyLess(l: PduProfile, r: PduProfile) {
    if l.id != r.id then Less(l.id, r.id) else Less(l.version, r.version)
  }

  function NormalizePdu(profiles: seq<PduProfile>): seq<PduProfile> {
    Sort(PduKeyLess, Map(CanonicalPdu, profiles))
  }

  lemma PduKeyLessAsymmetric(a: PduProfile, b: PduProfile)
    ensures !(PduKeyLess(a, b) && PduKeyLess(b, a))
  {
    LessAsymmetric(a.id, b.id);
    LessAsymmetric(a.version, b.version);
  }

  lemma PduKeyLessNegativelyTransitive(a: PduProfile, b: PduProfile, c: PduProfile)
    requires !PduKeyLess(a, b) && !PduKeyLess(b, c)
    ensures !PduKeyLess(a, c)
  {
    assert !Less(a.id, b.id) && !Less(b.id, c.id) by { LessIrreflexive(b.id); }
    LessNegativelyTransitive(a.id, b.id, c.id);
    if a.id == c.id {
      assert !Less(a.version, b.version) && !Less(b.version, c.version) by { LessIrreflexive(b.version); }
      LessNegativelyTransitive(a.version, b.version, c.version);
    }
  }

  lemma PduKeyLessIsStrictWeak()
    ensures StrictWeak(PduKeyLess)
  {
    forall a: PduProfile ensures !PduKeyLess(a, a) { PduKeyLessAsymmetric(a, a); }
    forall a: PduProfile, b: PduProfile | PduKeyLess(a, b) ensures !PduKeyLess(b, a) { PduKeyLessAsymmetric(a, b); }
    forall a: PduProfile, b: PduProfile, c: PduProfile | !PduKeyLess(a, b) && !PduKeyLess(b, c) ensures !PduKeyLess(a, c) {
      PduKeyLessNegativelyTransitive(a, b, c);
    }
  }

  lemma NormalizedPduIsSorted(profiles: seq<PduProfile>)
    ensures Sorted(PduKeyLess, NormalizePdu(profiles)) && multiset(NormalizePdu(profiles)) == multiset(Map(CanonicalPdu, profiles))
  {
    PduKeyLessIsStrictWeak();
    SortSorted(PduKeyLess, Map(CanonicalPdu, profiles));
  }

  /** Normalization orders by id and then by version, and every profile it holds is a given one with its lists in order. */
  lemma NormalizedPduOrder(profiles: seq<PduProfile>, i: nat, j: nat)
    requires i < j < |profiles|
    ensures |NormalizePdu(profiles)| == |profiles|
    ensures var a, b := NormalizePdu(profiles)[i], NormalizePdu(profiles)[j];
            && !Less(b.id, a.id) && (a.id == b.id ==> !Less(b.version, a.version))
            && exists p :: p in profiles && CanonicalPdu(p) == a
  {
    NormalizedPduIsSorted(profiles);
    var n := NormalizePdu(profiles);
    assert !PduKeyLess(n[j], n[i]);
    LessIrreflexive(n[i].id);
    SortMapMember(PduKeyLess, CanonicalPdu, profiles, n[i]);
  }

  /** A canonical PDU profile is the same profile with its variables, its quirks and its switchable outlets sorted. */
  lemma CanonicalPduMeans(p: PduProfile)
    ensures var c := CanonicalPdu(p);
            && c.id == p.id && c.version == p.version && c.source == p.source && c.selector == p.selector
            && c.telemetryAliases == p.telemetryAliases && c.outlets.count == p.outlets.count
            && Sorted(Less, c.telemetryVariables) && multiset(c.telemetryVariables) == multiset(p.telemetryVariables)
            && Sorted(Less, c.outlets.switchable) && multiset(c.outlets.switchable) == multiset(p.outlets.switchable)
            && QuirksInOrder(c.quirks, p.quirks)
  {
    LessIsStrictWeak();
    SortSorted(Less, p.telemetryVariables);
    SortSorted(Less, p.outlets.switchable);
    CopiedQuirks(p.quirks);
  }

  // ---- validation ----

  function PduKey(p: PduProfile): string {
    p.id + ":" + p.version
  }

  /** Keys agree exactly when ids and versions do, as long as the ids carry no colon. */
  lemma PduKeyTellsApart(a: PduProfile, b: PduProfile)
    requires ':' !in a.id && ':' !in b.id
    ensures PduKey(a) == PduKey(b) <==> a.id == b.id && a.version == b.version
  {
    if PduKey(a) == PduKey(b) {
      SplitHead(a.id, a.version, ':');
      SplitHead(b.id, b.version, ':');
      var left, right := Split(PduKey(a), ':'), Split(PduKey(b), ':');
      assert PduKey(a) == a.id + [':'] + a.version && PduKey(b) == b.id + [':'] + b.version;
      assert left[0] == a.id && right[0] == b.id;
      assert PduKey(a)[|a.id| + 1..] == a.version && PduKey(b)[|b.id| + 1..] == b.version;
    }
  }

  /** Switchable outlets of a counted PDU are distinct and no more than it has. */
  ghost predicate ValidOutlets(o: Outlets) {
    o.count == 0 || o.switchable == [] || (|o.switchable| <= o.count && Distinct(o.switchable))
  }

  ghost predicate ValidPdu(p: PduProfile, glob: Glob) {
    p.id != "" && ValidOutlets(p.outlets) && ValidQuirks(p.quirks, glob)
  }

  ghost predicate ValidPduSet(profiles: seq<PduProfile>, glob: Glob) {
    && (forall i :: 0 <= i < |profiles| ==> ValidPdu(profiles[i], glob))
    && (forall i, j :: 0 <= i < j < |profiles| ==> PduKey(profiles[i]) != PduKey(profiles[j]))
    && (forall i, j :: 0 <= i < j < |profiles| ==> !(profiles[i].selector.universal && profiles[j].selector.universal))
  }

  method CheckOutlets(o: Outlets) returns (ok: bool)
    ensures ok <==> ValidOutlets(o)
  {
    if o.count == 0 || o.switchable == [] { return true; }
    if |o.switchable| > o.count { return false; }
    var seen: set<string> := {};
    for i := 0 to |o.switchable|
      invariant seen == set j | 0 <= j < i :: o.switchable[j]
      invariant forall j, k :: 0 <= j < k < i ==> o.switchable[j] != o.switchable[k]
    {
      if o.switchable[i] in seen {
        var j :| 0 <= j < i && o.switchable[j] == o.switchable[i];
        return false;
      }
      seen := seen + {o.switchable[i]};
    }
    return true;
  }

  method CheckPdu(p: PduProfile, glob: Glob) returns (ok: bool)
    ensures ok <==> ValidPdu(p, glob)
  {
    if p.id == "" { return false; }
    var outlets := CheckOutlets(p.outlets);
    var quirks := ValidateQuirkDeclarations(p.quirks, glob);
    return outlets && quirks == [];
  }

  ghost predicate UniversalBefore(profiles: seq<PduProfile>, n: nat)
    requires n <= |profiles|
  {
    exists i :: 0 <= i < n && profiles[i].selector.universal
  }

  ghost predicate KeyBefore(profiles: seq<PduProfile>, n: nat, key: string)
    requires n <= |profiles|
  {
    exists i :: 0 <= i < n && PduKey(profiles[i]) == key
  }

  lemma ValidNext(profiles: seq<PduProfile>, n: nat, glob: Glob)
    requires n < |profiles|
    ensures ValidPduSet(profiles[..n + 1], glob) <==>
            && ValidPduSet(profiles[..n], glob) && ValidPdu(profiles[n], glob) && !KeyBefore(profiles, n, PduKey(profiles[n]))
            && !(profiles[n].selector.universal && UniversalBefore(profiles, n))
  {
    var before, now := profiles[..n], profiles[..n + 1];
    assert now[n] == profiles[n] && forall i :: 0 <= i < n ==> now[i] == before[i] == profiles[i];
  }

  /** No error is found exactly when the set resolves deterministically. */
  method ValidatePduProfiles(profiles: seq<PduProfile>, glob: Glob) returns (ok: bool)
    ensures ok <==> ValidPduSet(profiles, glob)
  {
    ok := true;
    var seen: set<string> := {};
    var universals := 0;
    for i := 0 to |profiles|
      invariant universals >= 0
      invariant ok && universals <= 1 <==> ValidPduSet(profiles[..i], glob)
      invariant ok ==> forall key :: key in seen <==> KeyBefore(profiles, i, key)
      invariant ok ==> (universals > 0 <==> UniversalBefore(profiles, i))
    {
      ValidNext(profiles, i, glob);
      var p := profiles[i];
      var own := CheckPdu(p, glob);
      if own {
        if PduKey(p) in seen { ok := false; }
        seen := seen + {PduKey(p)};
        if p.selector.universal { universals := universals + 1; }
      } else {
        ok := false;
      }
    }
    assert profiles[..|profiles|] == profiles;
    if universals > 1 { ok := false; }
  }

  // ---- matching ----

  datatype PduCandidate = PduCandidate(profile: PduProfile, shared: Candidate)

  /** The identity of a PDU profile in the shape the shared precedence compares. */
  function Identity(p: PduProfile): Profile {
    Profile(p.id, p.version, p.source, Selector("", "", "", "", false), [], map[], [], [], "")
  }

  function PduCandidateFor(device: Device, p: PduProfile, glob: Glob): Option<PduCandidate> {
    match MatchTier(device, p.selector, glob)
    case None => None
    case Some(tier) =>
      Some(PduCandidate(p, Candidate(Identity(p), tier, SourceRank(p.source), ParseSemanticVersion(p.version))))
  }

  function PduCandidates(device: Device, profiles: seq<PduProfile>, glob: Glob): seq<PduCandidate> {
    if profiles == [] then []
    else
      var c := PduCandidateFor(device, profiles[|profiles| - 1], glob);
      PduCandidates(device, profiles[..|profiles| - 1], glob) + if c.Some? then [c.value] else []
  }

  predicate PduBetter(l: PduCandidate, r: PduCandidate) {
    BetterThan(l.shared, r.shared)
  }

  lemma PduBetterIsStrictWeak()
    ensures StrictWeak(PduBetter)
  {
    forall a: PduCandidate ensures !PduBetter(a, a) { BetterThanAsymmetric(a.shared, a.shared); }
    forall a: PduCandidate, b: PduCandidate | PduBetter(a, b) ensures !PduBetter(b, a) { BetterThanAsymmetric(a.shared, b.shared); }
    forall a: PduCandidate, b: PduCandidate, c: PduCandidate | !PduBetter(a, b) && !PduBetter(b, c) ensures !PduBetter(a, c) {
      BetterThanNegativelyTransitive(a.shared, b.shared, c.shared);
    }
  }

  /** The best of the candidates seen so far is the one at the given place. */
  ghost predicate BestSoFar(all: seq<PduCandidate>, best: Option<PduCandidate>, at: nat) {
    if all == [] then best.None? else FirstBest(PduBetter, all, at) && best == Some(all[at])
  }

  lemma BestSoFarStep(all: seq<PduCandidate>, best: Option<PduCandidate>, at: nat, c: PduCandidate)
    requires BestSoFar(all, best, at)
    ensures var replaced := best.None? || PduBetter(c, best.value);
            BestSoFar(all + [c], if replaced then Some(c) else best, if replaced then |all| else at)
  {
    PduBetterIsStrictWeak();
    if best.Some? { ScanStep(PduBetter, all, at, c); }
  }

  lemma BestSoFarIsHead(all: seq<PduCandidate>, best: Option<PduCandidate>, at: nat)
    requires BestSoFar(all, best, at)
    ensures best.None? <==> all == []
    ensures best.Some? ==> best.value == Sort(PduBetter, all)[0]
  {
    if best.Some? {
      PduBetterIsStrictWeak();
      var k := SortHead(PduBetter, all);
      FirstBestIsUnique(PduBetter, all, at, k);
    }
  }

  /** The scan keeps a pointer to the best candidate so far and finds the head of the stable sort. */
  method BestPdu(device: Device, profiles: seq<PduProfile>, glob: Glob) returns (best: Option<PduCandidate>)
    ensures best.None? <==> PduCandidates(device, profiles, glob) == []
    ensures best.Some? ==> best.value == Sort(PduBetter, PduCandidates(device, profiles, glob))[0]
  {
    best := None;
    ghost var at: nat := 0;
    for i := 0 to |profiles|
      invariant BestSoFar(PduCandidates(device, profiles[..i], glob), best, at)
    {
      assert profiles[..i + 1][..i] == profiles[..i];
      var current := PduCandidateFor(device, profiles[i], glob);
      if current.Some? {
        ghost var all := PduCandidates(device, profiles[..i], glob);
        BestSoFarStep(all, best, at, current.value);
        if best.None? || PduBetter(current.value, best.value) {
          best := current;
          at := |all|;
        }
      }
    }
    assert profiles[..|profiles|] == profiles;
    BestSoFarIsHead(PduCandidates(device, profiles, glob), best, at);
  }

  lemma {:induction false} PduCandidatesAreMatches(device: Device, profiles: seq<PduProfile>, glob: Glob, c: PduCandidate)
    ensures c in PduCandidates(device, profiles, glob) <==>
            exists p :: p in profiles && PduCandidateFor(device, p, glob) == Some(c)
  {
    if profiles != [] {
      var front, last := profiles[..|profiles| - 1], profiles[|profiles| - 1];
      PduCandidatesAreMatches(device, front, glob, c);
      assert profiles == front + [last];
    }
  }

  /** The layers of the precedence for the selected PDU profile, in the words of the sources and version numbers. */
  lemma PduPrecedenceIsLayered(device: Device, profiles: seq<PduProfile>, glob: Glob, p: PduProfile, tier: Tier)
    requires p in profiles && AppliesAt(device, p.selector, glob, tier)
    ensures PduCandidates(device, profiles, glob) != []
    ensures var w := Sort(PduBetter, PduCandidates(device, profiles, glob))[0];
            && w.profile in profiles && AppliesAt(device, w.profile.selector, glob, w.shared.tier) && Rank(w.shared.tier) <= Rank(tier)
            && (w.shared.tier == tier ==>
                  && (p.source == "CRD" ==> w.profile.source == "CRD")
                  && (p.source == "Bundled" ==> w.profile.source == "CRD" || w.profile.source == "Bundled")
                  && (p.source == w.profile.source ==>
                        var won, other := ParseSemanticVersion(w.profile.version), ParseSemanticVersion(p.version);
                        other.valid ==> won.valid && !Newer(other, won)))
  {
    TierIsMostSpecific(device, p.selector, glob, tier);
    var c := PduCandidateFor(device, p, glob).value;
    TierIsMostSpecific(device, p.selector, glob, c.shared.tier);
    PduCandidatesAreMatches(device, profiles, glob, c);
    var all := PduCandidates(device, profiles, glob);
    PduBetterIsStrictWeak();
    var k := SortHead(PduBetter, all);
    var w := all[k];
    PduCandidatesAreMatches(device, profiles, glob, w);
    var q :| q in profiles && PduCandidateFor(device, q, glob) == Some(w);
    TierIsMostSpecific(device, q.selector, glob, w.shared.tier);
    var j :| 0 <= j < |all| && all[j] == c;
    assert !PduBetter(all[j], all[k]);
    NewerComparesGreater(c.shared.version, w.shared.version);
  }

  datatype PduOutcome = PduRejected | PduUnmatched | PduSelected(profile: PduProfile, tier: Tier, quirks: seq<string>)

  /** A rejected set, no match, or the profile at the head of the stable sort with its quirks in force. */
  ghost function PduResult(device: Device, profiles: seq<PduProfile>, glob: Glob): PduOutcome {
    var n := NormalizePdu(profiles);
    var all := PduCandidates(device, n, glob);
    if !ValidPduSet(n, glob) then PduRejected
    else if all == [] then PduUnmatched
    else
      var best := Sort(PduBetter, all)[0];
      PduSelected(best.profile, best.shared.tier, Sort(Less, NamesInForce(device.firmware, best.profile.quirks, glob)))
  }

  method MatchPdu(device: Device, profiles: seq<PduProfile>, glob: Glob) returns (outcome: PduOutcome)
    ensures outcome == PduResult(device, profiles, glob)
  {
    var normalized := NormalizePdu(profiles);
    var ok := ValidatePduProfiles(normalized, glob);
    if !ok { return PduRejected; }
    var best := BestPdu(device, normalized, glob);
    if best.None? { return PduUnmatched; }
    var quirks := ResolveQuirks(device.firmware, best.value.profile.quirks, glob);
    return PduSelected(best.value.profile, best.value.shared.tier, quirks);
  }

  lemma ValidSetSeparates(profiles: seq<PduProfile>, glob: Glob)
    requires ValidPduSet(profiles, glob)
    ensures Separates(PduKeyLess, profiles)
  {
    forall i, j | 0 <= i < |profiles| && 0 <= j < |profiles| && profiles[i] != profiles[j]
      ensures PduKeyLess(profiles[i], profiles[j]) || PduKeyLess(profiles[j], profiles[i])
    {
      var a, b := profiles[i], profiles[j];
      assert PduKey(a) != PduKey(b);
      LessTotal(a.id, b.id);
      LessTotal(a.version, b.version);
    }
  }

  lemma ValidSetNormalizesAlike(a: seq<PduProfile>, b: seq<PduProfile>, glob: Glob)
    requires multiset(a) == multiset(b) && ValidPduSet(NormalizePdu(a), glob)
    ensures NormalizePdu(a) == NormalizePdu(b)
  {
    MapPermutes(CanonicalPdu, a, b);
    NormalizedPduIsSorted(a);
    NormalizedPduIsSorted(b);
    ValidSetSeparates(NormalizePdu(a), glob);
    SortedIsUnique(PduKeyLess, NormalizePdu(a), NormalizePdu(b));
  }

  /** Listing the same PDU profiles in another order gives the same answer. */
  lemma PduResultIgnoresOrder(device: Device, a: seq<PduProfile>, b: seq<PduProfile>, glob: Glob)
    requires multiset(a) == multiset(b)
    ensures PduResult(device, a, glob) == PduResult(device, b, glob)
  {
    if ValidPduSet(NormalizePdu(a), glob) {
      ValidSetNormalizesAlike(a, b, glob);
    } else if ValidPduSet(NormalizePdu(b), glob) {
      ValidSetNormalizesAlike(b, a, glob);
    }
  }
}
