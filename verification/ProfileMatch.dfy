/** Selecting the one profile that describes a device. */
module ProfileMatch {
  import opened Wrappers
  import opened GoStrings
  import opened StableSort
  import opened SortedStrings
  import opened Profiles
  import opened Quirks

  // ---- normalization ----

  function SortedScope(q: Quirk): Quirk {
    if q.firmware.None? then q
    else q.(firmware := Some(q.firmware.value.(matches := Sort(Less, q.firmware.value.matches))))
  }

  predicate QuirkLess(l: Quirk, r: Quirk) {
    Less(l.name, r.name)
  }

  function CopyQuirks(quirks: seq<Quirk>): seq<Quirk> {
    Sort(QuirkLess, Map(SortedScope, quirks))
  }

  /** A profile with its own lists in canonical order. */
  function Canonical(p: Profile): Profile {
    p.(telemetryVariables := Sort(Less, p.telemetryVariables),
       actuationBehaviors := Sort(Less, p.actuationBehaviors),
       quirks := CopyQuirks(p.quirks))
  }

  function CanonicalAll(profiles: seq<Profile>): seq<Profile> {
    Map(Canonical, profiles)
  }

  /** Profiles are ordered by id, then version, then source. */
  predicate KeyLess(l: Profile, r: Profile) {
    if l.id != r.id then Less(l.id, r.id)
    else if l.version != r.version then Less(l.version, r.version)
    else Less(l.source, r.source)
  }

  function Normalize(profiles: seq<Profile>): (r: seq<Profile>)
    ensures |r| == |profiles|
  {
    Sort(KeyLess, CanonicalAll(profiles))
  }

  lemma KeyLessAsymmetric(a: Profile, b: Profile)
    ensures !(KeyLess(a, b) && KeyLess(b, a))
  {
    LessAsymmetric(a.id, b.id);
    LessAsymmetric(a.version, b.version);
    LessAsymmetric(a.source, b.source);
  }

  lemma KeyLessNegativelyTransitive(a: Profile, b: Profile, c: Profile)
    requires !KeyLess(a, b) && !KeyLess(b, c)
    ensures !KeyLess(a, c)
  {
    assert !Less(a.id, b.id) && !Less(b.id, c.id) by { LessIrreflexive(b.id); }
    LessNegativelyTransitive(a.id, b.id, c.id);
    if a.id == c.id {
      assert !Less(a.version, b.version) && !Less(b.version, c.version) by { LessIrreflexive(b.version); }
      LessNegativelyTransitive(a.version, b.version, c.version);
      if a.version == c.version { LessNegativelyTransitive(a.source, b.source, c.source); }
    }
  }

  lemma KeyLessIsStrictWeak()
    ensures StrictWeak(KeyLess)
  {
    forall a: Profile ensures !KeyLess(a, a) { KeyLessAsymmetric(a, a); }
    forall a: Profile, b: Profile | KeyLess(a, b) ensures !KeyLess(b, a) { KeyLessAsymmetric(a, b); }
    forall a: Profile, b: Profile, c: Profile | !KeyLess(a, b) && !KeyLess(b, c) ensures !KeyLess(a, c) {
      KeyLessNegativelyTransitive(a, b, c);
    }
  }

  // ---- validation ----

  function Key(p: Profile): string {
    p.id + ":" + p.version + ":" + p.source
  }

  ghost predicate DistinctKeys(profiles: seq<Profile>) {
    Distinct(Map(Key, profiles))
  }

  /** Every alias has two different non-empty names, and no canonical name has two sources. */
  ghost predicate ValidAliases(aliases: map<string, string>) {
    && (forall a :: a in aliases ==> a != "" && aliases[a] != "" && a != aliases[a])
    && (forall a, b :: a in aliases && b in aliases && a != b ==> aliases[a] != aliases[b])
  }

  ghost predicate ValidProfile(p: Profile, glob: Glob) {
    && p.id != "" && p.version != ""
    && (p.selector.modelGlob != "" ==> !glob(p.selector.modelGlob, "probe").BadPattern?)
    && ValidAliases(p.telemetryAliases)
    && ValidQuirks(p.quirks, glob)
  }

  ghost predicate EachValid(profiles: seq<Profile>, glob: Glob) {
    forall p :: p in profiles ==> ValidProfile(p, glob)
  }

  ghost predicate HasUniversal(profiles: seq<Profile>) {
    exists i :: 0 <= i < |profiles| && profiles[i].selector.universal
  }

  ghost predicate ValidSet(profiles: seq<Profile>, glob: Glob) {
    && DistinctKeys(profiles)
    && EachValid(profiles, glob)
    && HasUniversal(profiles)
  }

  datatype Severity = Error | Warning

  datatype Finding = Finding(severity: Severity, reason: string, subject: string)

  ghost predicate HasError(findings: seq<Finding>) {
    exists i :: 0 <= i < |findings| && findings[i].severity.Error?
  }

  ghost predicate HasWarning(findings: seq<Finding>) {
    exists i :: 0 <= i < |findings| && findings[i].severity.Warning?
  }

  /** A well-formed alias onto a name the profile does not declare. */
  predicate UndeclaredTarget(p: Profile, a: string) {
    var aliases := p.telemetryAliases;
    a in aliases && a != "" && aliases[a] != "" && a != aliases[a] && aliases[a] !in p.telemetryVariables
  }

  /** Reports alias entries that are malformed or collide as errors, and targets the profile does not
      declare as warnings. */
  method ValidateProfileAliases(p: Profile) returns (findings: seq<Finding>)
    ensures HasError(findings) <==> !ValidAliases(p.telemetryAliases)
    ensures HasWarning(findings) <==> exists a :: UndeclaredTarget(p, a)
  {
    findings := [];
    var aliases := p.telemetryAliases;
    var sources := aliases.Keys;
    var claimed: set<string> := {};
    ghost var clean := true;
    while sources != {}
      invariant sources <= aliases.Keys
      invariant clean <==> !HasError(findings)
      invariant clean ==> forall a :: a in aliases.Keys - sources ==> a != "" && aliases[a] != "" && a != aliases[a]
      invariant clean ==> claimed == set a | a in aliases.Keys - sources :: aliases[a]
      invariant clean ==> forall a, b :: a in aliases.Keys - sources && b in aliases.Keys - sources && a != b ==> aliases[a] != aliases[b]
      invariant forall c :: c in claimed ==> exists a :: a in aliases.Keys - sources && aliases[a] == c
      invariant !clean ==> !ValidAliases(aliases)
      invariant HasWarning(findings) <==> exists a :: a !in sources && UndeclaredTarget(p, a)
    {
      var a :| a in sources;
      sources := sources - {a};
      var target := aliases[a];
      if a == "" || target == "" || a == target {
        findings := Report(findings, Finding(Error, "InvalidTelemetryAlias", p.id));
        clean := false;
      } else {
        if target in claimed {
          findings := Report(findings, Finding(Error, "CollidingTelemetryAlias", p.id));
          clean := false;
        }
        claimed := claimed + {target};
        if target !in p.telemetryVariables {
          findings := Report(findings, Finding(Warning, "AliasTargetNotDeclared", p.id));
        }
      }
    }
    assert aliases.Keys - sources == aliases.Keys;
  }

  function Report(findings: seq<Finding>, f: Finding): (r: seq<Finding>)
    ensures HasError(r) <==> HasError(findings) || f.severity.Error?
    ensures HasWarning(r) <==> HasWarning(findings) || f.severity.Warning?
  {
    var r := findings + [f];
    assert r[|findings|] == f;
    assert HasWarning(findings) ==> HasWarning(r) by {
      if HasWarning(findings) {
        var i :| 0 <= i < |findings| && findings[i].severity.Warning?;
        assert r[i].severity.Warning?;
      }
    }
    assert HasError(findings) ==> HasError(r) by {
      if HasError(findings) {
        var i :| 0 <= i < |findings| && findings[i].severity.Error?;
        assert r[i].severity.Error?;
      }
    }
    r
  }

  lemma HasErrorConcat(a: seq<Finding>, b: seq<Finding>)
    ensures HasError(a + b) <==> HasError(a) || HasError(b)
  {
    if HasError(a) {
      var i :| 0 <= i < |a| && a[i].severity.Error?;
      assert (a + b)[i].severity.Error?;
    }
    if HasError(b) {
      var i :| 0 <= i < |b| && b[i].severity.Error?;
      assert (a + b)[|a| + i].severity.Error?;
    }
  }

  /** The findings about one profile on its own. */
  method ValidateProfile(p: Profile, glob: Glob) returns (findings: seq<Finding>)
    ensures HasError(findings) <==> !ValidProfile(p, glob)
  {
    findings := [];
    if p.id == "" { findings := Report(findings, Finding(Error, "ProfileIDRequired", "")); }
    if p.version == "" { findings := Report(findings, Finding(Error, "ProfileVersionRequired", p.id)); }
    if p.selector.modelGlob != "" && glob(p.selector.modelGlob, "probe").BadPattern? {
      findings := Report(findings, Finding(Error, "InvalidModelGlob", p.id));
    }
    var aliases := ValidateProfileAliases(p);
    HasErrorConcat(findings, aliases);
    findings := findings + aliases;
    var quirks := ValidateQuirkDeclarations(p.quirks, glob);
    if quirks != [] { findings := Report(findings, Finding(Error, quirks[0], p.id)); }
  }

  /** `seen` holds the keys of the first `n` profiles. */
  ghost predicate Recorded(profiles: seq<Profile>, n: nat, seen: set<string>)
    requires n <= |profiles|
  {
    forall key :: key in seen <==> key in Map(Key, profiles[..n])
  }

  /** The first `n` profiles are valid one by one and no two share a key. */
  ghost predicate GoodPrefix(profiles: seq<Profile>, n: nat, glob: Glob)
    requires n <= |profiles|
  {
    DistinctKeys(profiles[..n]) && EachValid(profiles[..n], glob)
  }

  lemma RecordNext(profiles: seq<Profile>, n: nat, seen: set<string>)
    requires n < |profiles| && Recorded(profiles, n, seen)
    ensures Recorded(profiles, n + 1, seen + {Key(profiles[n])})
  {
    assert Map(Key, profiles[..n + 1]) == Map(Key, profiles[..n]) + [Key(profiles[n])];
  }

  lemma DistinctNext(s: seq<string>, x: string)
    ensures Distinct(s + [x]) <==> Distinct(s) && x !in s
  {
    var t := s + [x];
    assert t[|s|] == x && forall i :: 0 <= i < |s| ==> t[i] == s[i];
    if Distinct(t) {
      forall i, j | 0 <= i < j < |s| ensures s[i] != s[j] { assert t[i] != t[j]; }
      forall i | 0 <= i < |s| ensures s[i] != x { assert t[i] != t[|s|]; }
    } else {
      var i, j :| 0 <= i < j < |t| && t[i] == t[j];
      assert j < |s| ==> s[i] == s[j];
    }
  }

  lemma GoodNext(profiles: seq<Profile>, n: nat, seen: set<string>, glob: Glob)
    requires n < |profiles| && Recorded(profiles, n, seen)
    ensures GoodPrefix(profiles, n + 1, glob) <==>
            GoodPrefix(profiles, n, glob) && Key(profiles[n]) !in seen && ValidProfile(profiles[n], glob)
  {
    assert Map(Key, profiles[..n + 1]) == Map(Key, profiles[..n]) + [Key(profiles[n])];
    DistinctNext(Map(Key, profiles[..n]), Key(profiles[n]));
    assert profiles[..n + 1] == profiles[..n] + [profiles[n]];
  }

  /** A profile set is rejected exactly when it is not valid. */
  method ValidateProfiles(profiles: seq<Profile>, glob: Glob) returns (findings: seq<Finding>)
    ensures HasError(findings) <==> !ValidSet(profiles, glob)
  {
    findings := [];
    var seen: set<string> := {};
    var universal := false;
    for i := 0 to |profiles|
      invariant Recorded(profiles, i, seen)
      invariant universal <==> HasUniversal(profiles[..i])
      invariant HasError(findings) <==> !GoodPrefix(profiles, i, glob)
    {
      GoodNext(profiles, i, seen, glob);
      RecordNext(profiles, i, seen);
      UniversalNext(profiles, i);
      if Key(profiles[i]) in seen {
        findings := Report(findings, Finding(Error, "DuplicateProfile", profiles[i].id));
      }
      seen := seen + {Key(profiles[i])};
      var own := ValidateProfile(profiles[i], glob);
      HasErrorConcat(findings, own);
      findings := findings + own;
      if profiles[i].selector.universal { universal := true; }
    }
    assert profiles[..|profiles|] == profiles;
    if !universal { findings := Report(findings, Finding(Error, "UnidentifiedProfileRequired", "")); }
  }

  lemma UniversalNext(profiles: seq<Profile>, n: nat)
    requires n < |profiles|
    ensures HasUniversal(profiles[..n + 1]) <==> HasUniversal(profiles[..n]) || profiles[n].selector.universal
  {
    var before, now := profiles[..n], profiles[..n + 1];
    assert now[n] == profiles[n];
    if HasUniversal(before) {
      var i :| 0 <= i < |before| && before[i].selector.universal;
      assert now[i].selector.universal;
    }
    if HasUniversal(now) && !profiles[n].selector.universal {
      var i :| 0 <= i < |now| && now[i].selector.universal;
      assert before[i].selector.universal;
    }
  }

  // ---- matching ----

  datatype MatchResult = MatchResult(
    deviceId: string, profileId: string, profileVersion: string, profileSource: string, tier: Tier, unidentified: bool,
    telemetryVariables: seq<string>, telemetryAliases: map<string, string>, actuationBehaviors: seq<string>,
    quirks: seq<string>, runtimeEstimate: string)

  datatype Outcome = Rejected | Selected(result: MatchResult)

  /** The head of the stable sort of the candidates. */
  function Winner(device: Device, normalized: seq<Profile>, glob: Glob): Candidate
    requires Candidates(device, normalized, glob) != []
  {
    Sort(BetterThan, Candidates(device, normalized, glob))[0]
  }

  function ResultFor(device: Device, best: Candidate, quirks: seq<string>): MatchResult {
    MatchResult(device.id, best.profile.id, best.profile.version, best.profile.source, best.tier, best.tier.Unidentified?,
                best.profile.telemetryVariables, best.profile.telemetryAliases, best.profile.actuationBehaviors,
                quirks, best.profile.runtimeEstimate)
  }

  ghost function Match(device: Device, profiles: seq<Profile>, glob: Glob): Outcome {
    var normalized := Normalize(profiles);
    if !ValidSet(normalized, glob) || Candidates(device, normalized, glob) == [] then Rejected
    else
      var best := Winner(device, normalized, glob);
      Selected(ResultFor(device, best, Sort(Less, NamesInForce(device.firmware, best.profile.quirks, glob))))
  }

  method MatchingCandidates(device: Device, profiles: seq<Profile>, glob: Glob) returns (candidates: seq<Candidate>)
    ensures candidates == Candidates(device, profiles, glob)
  {
    candidates := [];
    for i := 0 to |profiles|
      invariant candidates == Candidates(device, profiles[..i], glob)
    {
      assert profiles[..i + 1][..i] == profiles[..i];
      var c := CandidateFor(device, profiles[i], glob);
      if c.Some? { candidates := candidates + [c.value]; }
    }
    assert profiles[..|profiles|] == profiles;
  }

  /** The matcher as the program runs it. */
  method MatchDevice(device: Device, profiles: seq<Profile>, glob: Glob) returns (outcome: Outcome)
    ensures outcome == Match(device, profiles, glob)
  {
    var normalized := Normalize(profiles);
    var findings := ValidateProfiles(normalized, glob);
    var rejected := AnyError(findings);
    if rejected { return Rejected; }
    var candidates := MatchingCandidates(device, normalized, glob);
    if candidates == [] { return Rejected; }
    var best := Sort(BetterThan, candidates)[0];
    var quirks := ResolveQuirks(device.firmware, best.profile.quirks, glob);
    return Selected(ResultFor(device, best, quirks));
  }

  method AnyError(findings: seq<Finding>) returns (r: bool)
    ensures r <==> HasError(findings)
  {
    for i := 0 to |findings|
      invariant forall j :: 0 <= j < i ==> !findings[j].severity.Error?
    {
      if findings[i].severity.Error? { return true; }
    }
    return false;
  }

  // ---- what the winner is ----

  ghost predicate KeyOrdered(profiles: seq<Profile>) {
    forall i, j :: 0 <= i < j < |profiles| ==> KeyLess(profiles[i], profiles[j])
  }

  /** Distinct keys leave no ties in the normalization order. */
  lemma NormalizedIsKeyOrdered(profiles: seq<Profile>)
    requires DistinctKeys(Normalize(profiles))
    ensures KeyOrdered(Normalize(profiles))
  {
    NormalizedIsSorted(profiles);
    var n := Normalize(profiles);
    forall i, j | 0 <= i < j < |n| ensures KeyLess(n[i], n[j]) {
      LessTotal(n[i].id, n[j].id);
      LessTotal(n[i].version, n[j].version);
      LessTotal(n[i].source, n[j].source);
      assert !KeyLess(n[j], n[i]) && Map(Key, n)[i] != Map(Key, n)[j];
    }
  }

  lemma {:induction false} CandidatesKeyOrdered(device: Device, profiles: seq<Profile>, glob: Glob)
    requires KeyOrdered(profiles)
    ensures var c := Candidates(device, profiles, glob);
            forall i, j :: 0 <= i < j < |c| ==> KeyLess(c[i].profile, c[j].profile)
  {
    if profiles != [] {
      var front, last := profiles[..|profiles| - 1], profiles[|profiles| - 1];
      CandidatesKeyOrdered(device, front, glob);
      var c := Candidates(device, front, glob);
      forall i | 0 <= i < |c| ensures KeyLess(c[i].profile, last) {
        CandidatesAreMatches(device, front, glob, c[i]);
        var p :| p in front && CandidateFor(device, p, glob) == Some(c[i]);
        var k :| 0 <= k < |front| && front[k] == p;
        assert profiles[k] == p;
      }
    }
  }

  /** Precedence with the normalization order as the last tiebreak. */
  predicate Beats(a: Candidate, b: Candidate) {
    BetterThan(a, b) || (!BetterThan(b, a) && KeyLess(a.profile, b.profile))
  }

  lemma BeatsAsymmetric(a: Candidate, b: Candidate)
    requires Beats(a, b)
    ensures !Beats(b, a)
  {
    BetterThanAsymmetric(a, b);
    BetterThanAsymmetric(b, a);
    KeyLessIsStrictWeak();
  }

  /** The winner is one of the candidates and beats every other one. */
  lemma WinnerBeatsAll(device: Device, profiles: seq<Profile>, glob: Glob, c: Candidate)
    requires KeyOrdered(profiles) && c in Candidates(device, profiles, glob)
    ensures var w := Winner(device, profiles, glob);
            w in Candidates(device, profiles, glob) && !BetterThan(c, w) && (c != w ==> Beats(w, c))
  {
    BetterThanIsStrictWeak();
    CandidatesKeyOrdered(device, profiles, glob);
    var all := Candidates(device, profiles, glob);
    var i := SortHead(BetterThan, all);
    var k :| 0 <= k < |all| && all[k] == c;
    assert k < i ==> BetterThan(all[i], all[k]);
  }

  lemma {:induction false} UniversalIsCandidate(device: Device, profiles: seq<Profile>, glob: Glob)
    requires HasUniversal(profiles)
    ensures Candidates(device, profiles, glob) != []
  {
    var i :| 0 <= i < |profiles| && profiles[i].selector.universal;
    var c := CandidateFor(device, profiles[i], glob);
    assert c.Some?;
    CandidatesAreMatches(device, profiles, glob, c.value);
  }

  /** A valid set always selects something: the missing-candidate rejection cannot happen. */
  lemma ValidSetSelects(device: Device, profiles: seq<Profile>, glob: Glob)
    ensures Match(device, profiles, glob).Rejected? <==> !ValidSet(Normalize(profiles), glob)
  {
    if ValidSet(Normalize(profiles), glob) {
      UniversalIsCandidate(device, Normalize(profiles), glob);
    }
  }

  // ---- order of the input ----

  lemma KeyOrderedSeparates(n: seq<Profile>)
    requires KeyOrdered(n)
    ensures Separates(KeyLess, n)
  {
    forall i, j | 0 <= i < |n| && 0 <= j < |n| && n[i] != n[j] ensures KeyLess(n[i], n[j]) || KeyLess(n[j], n[i]) {
      if i < j { assert KeyLess(n[i], n[j]); } else { assert KeyLess(n[j], n[i]); }
    }
  }

  lemma DistinctKeysNormalizeAlike(a: seq<Profile>, b: seq<Profile>)
    requires multiset(a) == multiset(b) && DistinctKeys(Normalize(a))
    ensures Normalize(a) == Normalize(b)
  {
    MapPermutes(Canonical, a, b);
    NormalizedIsKeyOrdered(a);
    KeyOrderedSeparates(Normalize(a));
    NormalizedIsSorted(a);
    NormalizedIsSorted(b);
    SortedIsUnique(KeyLess, Normalize(a), Normalize(b));
  }

  lemma NormalizedIsSorted(a: seq<Profile>)
    ensures Sorted(KeyLess, Normalize(a)) && multiset(Normalize(a)) == multiset(CanonicalAll(a))
  {
    KeyLessIsStrictWeak();
    SortSorted(KeyLess, CanonicalAll(a));
  }

  /** Listing the same profiles in another order gives the same selection, or the same rejection. */
  lemma MatchIgnoresOrder(device: Device, a: seq<Profile>, b: seq<Profile>, glob: Glob)
    requires multiset(a) == multiset(b)
    ensures Match(device, a, glob) == Match(device, b, glob)
  {
    ValidSetSelects(device, a, glob);
    ValidSetSelects(device, b, glob);
    if ValidSet(Normalize(a), glob) {
      DistinctKeysNormalizeAlike(a, b);
    } else if ValidSet(Normalize(b), glob) {
      DistinctKeysNormalizeAlike(b, a);
    }
  }

  // ---- adding a profile ----

  lemma NormalizedMember(profiles: seq<Profile>, q: Profile)
    ensures q in Normalize(profiles) <==> exists p :: p in profiles && Canonical(p) == q
  {
    SortMapMember(KeyLess, Canonical, profiles, q);
  }

  /** Every candidate of a normalized set comes from one of the profiles given. */
  lemma CandidateComesFrom(device: Device, profiles: seq<Profile>, glob: Glob, c: Candidate) returns (p: Profile)
    requires c in Candidates(device, Normalize(profiles), glob)
    ensures p in profiles && CandidateFor(device, Canonical(p), glob) == Some(c) && c.profile == Canonical(p)
  {
    CandidatesAreMatches(device, Normalize(profiles), glob, c);
    var q :| q in Normalize(profiles) && CandidateFor(device, q, glob) == Some(c);
    NormalizedMember(profiles, q);
    p :| p in profiles && Canonical(p) == q;
  }

  /** Every matching profile gives a candidate. */
  lemma MatchGivesCandidate(device: Device, profiles: seq<Profile>, glob: Glob, p: Profile, c: Candidate)
    requires p in profiles && CandidateFor(device, Canonical(p), glob) == Some(c)
    ensures c in Candidates(device, Normalize(profiles), glob)
  {
    NormalizedMember(profiles, Canonical(p));
    CandidatesAreMatches(device, Normalize(profiles), glob, c);
  }

  lemma InExtension(profiles: seq<Profile>, added: Profile, p: Profile)
    ensures p in profiles + [added] <==> p in profiles || p == added
  {
  }

  /** Candidates of a set stay candidates when a profile is added. */
  lemma CandidatesStay(device: Device, profiles: seq<Profile>, added: Profile, glob: Glob, c: Candidate)
    requires c in Candidates(device, Normalize(profiles), glob)
    ensures c in Candidates(device, Normalize(profiles + [added]), glob)
  {
    var p := CandidateComesFrom(device, profiles, glob, c);
    InExtension(profiles, added, p);
    MatchGivesCandidate(device, profiles + [added], glob, p, c);
  }

  /** The only new candidate is the added profile. */
  lemma CandidatesAreOldOrAdded(device: Device, profiles: seq<Profile>, added: Profile, glob: Glob, c: Candidate)
    requires c in Candidates(device, Normalize(profiles + [added]), glob) && c.profile != Canonical(added)
    ensures c in Candidates(device, Normalize(profiles), glob)
  {
    var p := CandidateComesFrom(device, profiles + [added], glob, c);
    InExtension(profiles, added, p);
    MatchGivesCandidate(device, profiles, glob, p, c);
  }

  /** The winner of a valid set is beaten by no other matching profile. */
  lemma WinnerIsUnbeaten(device: Device, profiles: seq<Profile>, glob: Glob, p: Profile)
    requires ValidSet(Normalize(profiles), glob) && p in profiles && CandidateFor(device, Canonical(p), glob).Some?
    ensures Candidates(device, Normalize(profiles), glob) != []
    ensures !BetterThan(CandidateFor(device, Canonical(p), glob).value, Winner(device, Normalize(profiles), glob))
  {
    var c := CandidateFor(device, Canonical(p), glob).value;
    MatchGivesCandidate(device, profiles, glob, p, c);
    NormalizedIsKeyOrdered(profiles);
    WinnerBeatsAll(device, Normalize(profiles), glob, c);
  }

  /** The layers of the precedence: nothing that matches is more specific than the winner, at the winner's tier
      nothing has a stronger source, and among equals nothing is newer or has the smaller label. */
  lemma PrecedenceIsLayered(device: Device, profiles: seq<Profile>, glob: Glob, p: Profile, tier: Tier)
    requires ValidSet(Normalize(profiles), glob) && p in profiles && AppliesAt(device, p.selector, glob, tier)
    ensures Candidates(device, Normalize(profiles), glob) != []
    ensures var w := Winner(device, Normalize(profiles), glob);
            && AppliesAt(device, w.profile.selector, glob, w.tier) && Rank(w.tier) <= Rank(tier)
            && (w.tier == tier ==>
                  var winning, other := w.profile, p;
                  var newer := CompareVersions(ParseSemanticVersion(winning.version), ParseSemanticVersion(other.version));
                  && SourceRank(winning.source) >= SourceRank(other.source)
                  && (SourceRank(winning.source) == SourceRank(other.source) ==>
                        newer >= 0 && (newer == 0 ==> !Less(Label(other), Label(winning)))))
  {
    TierIsMostSpecific(device, p.selector, glob, tier);
    WinnerIsUnbeaten(device, profiles, glob, p);
    var c := CandidateFor(device, Canonical(p), glob).value;
    var w := Winner(device, Normalize(profiles), glob);
    TierIsMostSpecific(device, p.selector, glob, c.tier);
    CompareVersionsAntisymmetric(w.version, c.version);
    WinnerIsCandidate(device, profiles, glob);
    var q := CandidateComesFrom(device, profiles, glob, w);
    TierIsMostSpecific(device, q.selector, glob, w.tier);
  }

  lemma WinnerIsCandidate(device: Device, profiles: seq<Profile>, glob: Glob)
    requires Candidates(device, Normalize(profiles), glob) != []
    ensures Winner(device, Normalize(profiles), glob) in Candidates(device, Normalize(profiles), glob)
  {
    var all := Candidates(device, Normalize(profiles), glob);
    SameElements(Sort(BetterThan, all), all);
    assert Sort(BetterThan, all)[0] in Sort(BetterThan, all);
  }

  /** Normalization orders by id, then version, then source, and gives every profile its lists in order. */
  lemma NormalizedOrder(profiles: seq<Profile>, i: nat, j: nat)
    requires i < j < |profiles|
    ensures var a, b := Normalize(profiles)[i], Normalize(profiles)[j];
            && !Less(b.id, a.id)
            && (a.id == b.id ==> !Less(b.version, a.version))
            && (a.id == b.id && a.version == b.version ==> !Less(b.source, a.source))
  {
    NormalizedIsSorted(profiles);
    var a, b := Normalize(profiles)[i], Normalize(profiles)[j];
    LessIrreflexive(a.id);
    LessIrreflexive(a.version);
    assert !KeyLess(b, a);
  }

  /** A canonical profile is the same profile with its variables, behaviours and quirks sorted. */
  lemma CanonicalMeans(p: Profile)
    ensures var c := Canonical(p);
            && c.id == p.id && c.version == p.version && c.source == p.source && c.selector == p.selector
            && c.telemetryAliases == p.telemetryAliases && c.runtimeEstimate == p.runtimeEstimate
            && Sorted(Less, c.telemetryVariables) && multiset(c.telemetryVariables) == multiset(p.telemetryVariables)
            && Sorted(Less, c.actuationBehaviors) && multiset(c.actuationBehaviors) == multiset(p.actuationBehaviors)
            && QuirksInOrder(c.quirks, p.quirks)
  {
    LessIsStrictWeak();
    SortSorted(Less, p.telemetryVariables);
    SortSorted(Less, p.actuationBehaviors);
    CopiedQuirks(p.quirks);
  }

  /** The same quirks, by name, each with its patterns in order. */
  ghost predicate QuirksInOrder(copy: seq<Quirk>, quirks: seq<Quirk>) {
    && |copy| == |quirks| && (forall i, j :: 0 <= i < j < |copy| ==> !Less(copy[j].name, copy[i].name))
    && (forall q :: q in copy <==> exists o :: o in quirks && SortedScope(o) == q)
  }

  lemma CopiedQuirks(quirks: seq<Quirk>)
    ensures QuirksInOrder(CopyQuirks(quirks), quirks)
  {
    LessIsStrictWeak();
    SortSorted(QuirkLess, Map(SortedScope, quirks));
    var copy := CopyQuirks(quirks);
    forall i, j | 0 <= i < j < |copy| ensures !Less(copy[j].name, copy[i].name) { assert !QuirkLess(copy[j], copy[i]); }
    forall q ensures q in copy <==> exists o :: o in quirks && SortedScope(o) == q {
      SortMapMember(QuirkLess, SortedScope, quirks, q);
    }
  }

  /** The copy of a quirk keeps its name and bound, and the patterns of its scope. */
  lemma SortedScopeMeans(q: Quirk)
    ensures SortedScope(q).name == q.name && SortedScope(q).firmware.Some? == q.firmware.Some?
    ensures q.firmware.Some? ==>
              var s, f := SortedScope(q).firmware.value, q.firmware.value;
              s.below == f.below && Sorted(Less, s.matches) && multiset(s.matches) == multiset(f.matches)
  {
    LessIsStrictWeak();
    if q.firmware.Some? { SortSorted(Less, q.firmware.value.matches); }
  }

  /** What a selection reports: the device, the winning profile's own fields with its lists in order, and the quirks
      in force for the device's firmware. */
  lemma SelectionReports(device: Device, profiles: seq<Profile>, glob: Glob) returns (p: Profile)
    requires ValidSet(Normalize(profiles), glob)
    ensures p in profiles && Match(device, profiles, glob).Selected?
    ensures var r := Match(device, profiles, glob).result;
            && r.deviceId == device.id && r.profileId == p.id && r.profileVersion == p.version && r.profileSource == p.source
            && AppliesAt(device, p.selector, glob, r.tier) && (r.unidentified <==> r.tier == Unidentified)
            && multiset(r.telemetryVariables) == multiset(p.telemetryVariables) && Sorted(Less, r.telemetryVariables)
            && multiset(r.actuationBehaviors) == multiset(p.actuationBehaviors) && Sorted(Less, r.actuationBehaviors)
            && r.telemetryAliases == p.telemetryAliases && r.runtimeEstimate == p.runtimeEstimate
            && r.quirks == Sort(Less, NamesInForce(device.firmware, Canonical(p).quirks, glob))
  {
    ValidSetSelects(device, profiles, glob);
    WinnerIsCandidate(device, profiles, glob);
    p := CandidateComesFrom(device, profiles, glob, Winner(device, Normalize(profiles), glob));
    CanonicalMeans(p);
    TierIsMostSpecific(device, p.selector, glob, Winner(device, Normalize(profiles), glob).tier);
  }

  /** Nothing applies more specifically than the selection says. */
  lemma SelectionIsMostSpecific(device: Device, profiles: seq<Profile>, glob: Glob, p: Profile, tier: Tier)
    requires Match(device, profiles, glob).Selected? && p in profiles && AppliesAt(device, p.selector, glob, tier)
    ensures Rank(Match(device, profiles, glob).result.tier) <= Rank(tier)
  {
    PrecedenceIsLayered(device, profiles, glob, p, tier);
  }

  /** Among equals of tier, source and version, the smaller id and version joined by a colon wins. */
  lemma SmallerLabelWins(device: Device, profiles: seq<Profile>, glob: Glob, p: Profile)
    requires ValidSet(Normalize(profiles), glob) && p in profiles && Candidates(device, Normalize(profiles), glob) != []
    requires AppliesAt(device, p.selector, glob, Winner(device, Normalize(profiles), glob).tier)
    requires var w := Winner(device, Normalize(profiles), glob).profile;
             p.source == w.source && CompareVersions(ParseSemanticVersion(w.version), ParseSemanticVersion(p.version)) == 0
    ensures var w := Winner(device, Normalize(profiles), glob).profile;
            !Less(p.id + ":" + p.version, w.id + ":" + w.version)
  {
    PrecedenceIsLayered(device, profiles, glob, p, Winner(device, Normalize(profiles), glob).tier);
  }

  /** An operator's profile takes precedence over a bundled one, and a bundled one over any other, wherever they
      apply as specifically as the winner. */
  lemma OperatorProfileWins(device: Device, profiles: seq<Profile>, glob: Glob, p: Profile)
    requires ValidSet(Normalize(profiles), glob) && p in profiles && Candidates(device, Normalize(profiles), glob) != []
    requires AppliesAt(device, p.selector, glob, Winner(device, Normalize(profiles), glob).tier)
    ensures var w := Winner(device, Normalize(profiles), glob);
            && (p.source == "CRD" ==> w.profile.source == "CRD")
            && (p.source == "Bundled" && (forall q :: q in profiles && q.source == "CRD" ==> !AppliesAt(device, q.selector, glob, w.tier)) ==>
                  w.profile.source == "Bundled")
  {
    var w := Winner(device, Normalize(profiles), glob);
    PrecedenceIsLayered(device, profiles, glob, p, w.tier);
    WinnerIsCandidate(device, profiles, glob);
    var q := CandidateComesFrom(device, profiles, glob, w);
    assert AppliesAt(device, q.selector, glob, w.tier) && q.source == w.profile.source;
  }

  /** Among profiles of the winner's tier and source none is numerically newer, and none has a version if the
      winner has not. */
  lemma NewestProfileWins(device: Device, profiles: seq<Profile>, glob: Glob, p: Profile)
    requires ValidSet(Normalize(profiles), glob) && p in profiles && Candidates(device, Normalize(profiles), glob) != []
    requires AppliesAt(device, p.selector, glob, Winner(device, Normalize(profiles), glob).tier)
    requires p.source == Winner(device, Normalize(profiles), glob).profile.source
    ensures var won, other := ParseSemanticVersion(Winner(device, Normalize(profiles), glob).profile.version), ParseSemanticVersion(p.version);
            other.valid ==> won.valid && !Newer(other, won)
  {
    var w := Winner(device, Normalize(profiles), glob);
    PrecedenceIsLayered(device, profiles, glob, p, w.tier);
    var won, other := ParseSemanticVersion(w.profile.version), ParseSemanticVersion(p.version);
    CompareVersionsAntisymmetric(won, other);
    NewerComparesGreater(other, won);
  }

  /** Adding a profile leaves the winner alone or makes the added profile the winner. */
  lemma AddingAProfile(device: Device, profiles: seq<Profile>, added: Profile, glob: Glob)
    requires ValidSet(Normalize(profiles), glob) && ValidSet(Normalize(profiles + [added]), glob)
    ensures Candidates(device, Normalize(profiles), glob) != [] && Candidates(device, Normalize(profiles + [added]), glob) != []
    ensures var w, w' := Winner(device, Normalize(profiles), glob), Winner(device, Normalize(profiles + [added]), glob);
            w' == w || w'.profile == Canonical(added)
  {
    var n, n' := Normalize(profiles), Normalize(profiles + [added]);
    UniversalIsCandidate(device, n, glob);
    UniversalIsCandidate(device, n', glob);
    NormalizedIsKeyOrdered(profiles);
    NormalizedIsKeyOrdered(profiles + [added]);
    var w, w' := Winner(device, n, glob), Winner(device, n', glob);
    WinnerBeatsAll(device, n, glob, Candidates(device, n, glob)[0]);
    WinnerBeatsAll(device, n', glob, Candidates(device, n', glob)[0]);
    if w'.profile != Canonical(added) {
      CandidatesStay(device, profiles, added, glob, w);
      CandidatesAreOldOrAdded(device, profiles, added, glob, w');
      WinnerBeatsAll(device, n, glob, w');
      WinnerBeatsAll(device, n', glob, w);
      if w != w' { BeatsAsymmetric(w, w'); }
    }
  }
}
