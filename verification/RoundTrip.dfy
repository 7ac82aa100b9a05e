/** From a device read to a draft, to a match, and back to the same read. */
module RoundTrip {
  import opened Wrappers
  import opened GoStrings
  import opened StableSort
  import opened Profiles
  import opened Quirks
  import opened ProfileMatch
  import opened Draft
  import opened DraftBuilder
  import opened Verify

  // ---- validating before or after normalization is the same ----

  lemma GlobsValid(a: seq<string>, b: seq<string>, glob: Glob)
    requires multiset(a) == multiset(b) && forall i :: 0 <= i < |a| ==> !glob(a[i], "probe").BadPattern?
    ensures forall i :: 0 <= i < |b| ==> !glob(b[i], "probe").BadPattern?
  {
    SameElements(a, b);
    forall i | 0 <= i < |b| ensures !glob(b[i], "probe").BadPattern? {
      assert b[i] in b;
      var k :| 0 <= k < |a| && a[k] == b[i];
    }
  }

  lemma SortedScopeKeepsValid(q: Quirk, glob: Glob)
    requires ValidQuirk(q, glob)
    ensures ValidQuirk(SortedScope(q), glob)
  {
    if q.firmware.Some? {
      GlobsValid(q.firmware.value.matches, Sort(Less, q.firmware.value.matches), glob);
    }
  }

  lemma CopyQuirksKeepsValid(quirks: seq<Quirk>, glob: Glob)
    requires ValidQuirks(quirks, glob)
    ensures ValidQuirks(CopyQuirks(quirks), glob)
  {
    SortMapDistinct(QuirkLess, SortedScope, NameOf, quirks);
    forall q | q in CopyQuirks(quirks) ensures ValidQuirk(q, glob) {
      SortMapMember(QuirkLess, SortedScope, quirks, q);
      var p :| p in quirks && SortedScope(p) == q;
      SortedScopeKeepsValid(p, glob);
    }
  }

  lemma CanonicalKeepsValid(p: Profile, glob: Glob)
    requires ValidProfile(p, glob)
    ensures ValidProfile(Canonical(p), glob)
  {
    CopyQuirksKeepsValid(p.quirks, glob);
  }

  lemma NormalizeKeepsKeys(profiles: seq<Profile>)
    requires DistinctKeys(profiles)
    ensures DistinctKeys(Normalize(profiles))
  {
    SortMapDistinct(KeyLess, Canonical, Key, profiles);
  }

  lemma NormalizeKeepsEachValid(profiles: seq<Profile>, glob: Glob)
    requires EachValid(profiles, glob)
    ensures EachValid(Normalize(profiles), glob)
  {
    forall q | q in Normalize(profiles) ensures ValidProfile(q, glob) {
      NormalizedMember(profiles, q);
      var p :| p in profiles && Canonical(p) == q;
      CanonicalKeepsValid(p, glob);
    }
  }

  lemma NormalizeKeepsUniversal(profiles: seq<Profile>)
    requires HasUniversal(profiles)
    ensures HasUniversal(Normalize(profiles))
  {
    var i :| 0 <= i < |profiles| && profiles[i].selector.universal;
    var k := SortMapIndex(KeyLess, Canonical, profiles, i);
    assert Normalize(profiles)[k].selector.universal;
  }

  /** A valid set stays valid through normalization, so a catalog can be judged as written. */
  lemma NormalizeKeepsValid(profiles: seq<Profile>, glob: Glob)
    requires ValidSet(profiles, glob)
    ensures ValidSet(Normalize(profiles), glob)
  {
    NormalizeKeepsKeys(profiles);
    NormalizeKeepsEachValid(profiles, glob);
    NormalizeKeepsUniversal(profiles);
  }

  // ---- the round trip ----

  /** The profile a draft is rendered as and read back from. */
  function ProfileOf(d: ProfileDraft): Profile {
    Profile(d.name, "0.1.0", CRD, Selector(d.model, "", "", "", false), d.variables, d.aliases, [], [], "")
  }

  lemma DraftNamesAreTrimmed(d: ProfileDraft, keys: set<string>, v: Vocabulary, n: string)
    requires Declares(d, keys, v) && n in d.variables
    ensures n != "" && n in ReportedNames(keys)
  {
    var k :| k in keys && IsKeptKey(k) && TrimSpace(k) == n;
  }

  lemma DraftAliasesAreValid(d: ProfileDraft, keys: set<string>, v: Vocabulary)
    requires Coherent(v) && Declares(d, keys, v)
    ensures ValidAliases(d.aliases)
  {
    forall a | a in d.nonStandard ensures a != "" && a !in v.standard { DraftNamesAreTrimmed(d, keys, v, a); }
    SuggestionsAreValid(d.aliases, v, ProductNames(keys), d.nonStandard);
  }

  lemma DraftProfileIsValid(d: ProfileDraft, glob: Glob)
    requires d.name != "" && ValidAliases(d.aliases)
    ensures ValidProfile(ProfileOf(d), glob)
  {
  }

  /** A catalog the draft can join: valid, without the draft's key, and naming its model nowhere exactly. */
  ghost predicate Joinable(catalog: seq<Profile>, d: ProfileDraft, glob: Glob) {
    && ValidSet(catalog, glob)
    && forall p :: p in catalog ==> p.selector.model != d.model && Key(p) != Key(ProfileOf(d))
  }

  lemma ExtendedKeys(catalog: seq<Profile>, x: Profile)
    requires DistinctKeys(catalog) && forall p :: p in catalog ==> Key(p) != Key(x)
    ensures DistinctKeys(catalog + [x])
  {
    var all := Map(Key, catalog + [x]);
    var keys := Map(Key, catalog);
    forall i, j | 0 <= i < j < |all| ensures all[i] != all[j] {
      assert all[i] == keys[i] && catalog[i] in catalog;
      if j < |catalog| { assert all[j] == keys[j]; }
    }
  }

  lemma ExtendedCatalogIsValid(catalog: seq<Profile>, x: Profile, glob: Glob)
    requires ValidSet(catalog, glob) && ValidProfile(x, glob) && forall p :: p in catalog ==> Key(p) != Key(x)
    ensures ValidSet(catalog + [x], glob)
  {
    ExtendedKeys(catalog, x);
    var u :| 0 <= u < |catalog| && catalog[u].selector.universal;
    assert (catalog + [x])[u].selector.universal;
  }

  lemma OtherModelIsLessExact(device: Device, p: Profile, glob: Glob, c: Candidate)
    requires p.selector.model != device.model && CandidateFor(device, Canonical(p), glob) == Some(c)
    ensures Rank(c.tier) >= 2
  {
  }

  lemma ExactModelIsCandidate(device: Device, x: Profile, glob: Glob)
    requires device.model != "" && x.selector == Selector(device.model, "", "", "", false)
    ensures CandidateFor(device, Canonical(x), glob).Some?
    ensures CandidateFor(device, Canonical(x), glob).value.tier == ExactModel
    ensures CandidateFor(device, Canonical(x), glob).value.profile == Canonical(x)
  {
  }

  /** In a valid set where only one profile names the device's model, and does so exactly, it wins. */
  lemma OnlyExactModelWins(device: Device, catalog: seq<Profile>, x: Profile, glob: Glob)
    requires ValidSet(Normalize(catalog + [x]), glob)
    requires device.model != "" && x.selector == Selector(device.model, "", "", "", false)
    requires forall p :: p in catalog ==> p.selector.model != device.model
    ensures Candidates(device, Normalize(catalog + [x]), glob) != []
    ensures Winner(device, Normalize(catalog + [x]), glob).profile == Canonical(x)
    ensures Winner(device, Normalize(catalog + [x]), glob).tier == ExactModel
  {
    var all := catalog + [x];
    ExactModelIsCandidate(device, x, glob);
    var c := CandidateFor(device, Canonical(x), glob).value;
    InExtension(catalog, x, x);
    MatchGivesCandidate(device, all, glob, x, c);
    NormalizedIsKeyOrdered(all);
    WinnerBeatsAll(device, Normalize(all), glob, c);
    UnbeatenIsExactModel(device, catalog, x, glob, c, Winner(device, Normalize(all), glob));
  }

  lemma UnbeatenIsExactModel(device: Device, catalog: seq<Profile>, x: Profile, glob: Glob, c: Candidate, w: Candidate)
    requires CandidateFor(device, Canonical(x), glob) == Some(c) && c.tier == ExactModel
    requires forall p :: p in catalog ==> p.selector.model != device.model
    requires w in Candidates(device, Normalize(catalog + [x]), glob) && !BetterThan(c, w)
    ensures w == c
  {
    var p := CandidateComesFrom(device, catalog + [x], glob, w);
    InExtension(catalog, x, p);
    if p != x {
      OtherModelIsLessExact(device, p, glob, w);
      assert false;
    }
  }

  /** The result of the match carries exactly the draft's variables and aliases. */
  ghost predicate SelectsDraft(outcome: Outcome, d: ProfileDraft) {
    && outcome.Selected?
    && outcome.result.profileId == d.name && outcome.result.profileSource == CRD
    && outcome.result.tier == ExactModel && !outcome.result.unidentified
    && outcome.result.telemetryVariables == Sort(Less, d.variables)
    && outcome.result.telemetryAliases == d.aliases
  }

  /** A draft added to a joinable catalog is accepted and selected for its model. */
  lemma DraftIsSelected(catalog: seq<Profile>, d: ProfileDraft, keys: set<string>, v: Vocabulary, device: Device, glob: Glob)
    requires Coherent(v) && Declares(d, keys, v) && Joinable(catalog, d, glob) && device.model == d.model != ""
    ensures SelectsDraft(Match(device, catalog + [ProfileOf(d)], glob), d)
  {
    DraftAliasesAreValid(d, keys, v);
    DraftProfileIsValid(d, glob);
    ExtendedCatalogIsValid(catalog, ProfileOf(d), glob);
    NormalizeKeepsValid(catalog + [ProfileOf(d)], glob);
    OnlyExactModelWins(device, catalog, ProfileOf(d), glob);
  }

  lemma NothingMissing(d: ProfileDraft, keys: set<string>, v: Vocabulary, expected: seq<string>, met: set<string>)
    requires Declares(d, keys, v) && multiset(expected) == multiset(d.variables) && ReportedNames(keys) <= met
    ensures Missing(expected, met) == []
  {
    SameElements(expected, d.variables);
    if Missing(expected, met) != [] {
      var n := Missing(expected, met)[0];
      assert n in Missing(expected, met);
      DraftNamesAreTrimmed(d, keys, v, n);
      assert false;
    }
  }

  lemma NothingUnexpected(d: ProfileDraft, keys: set<string>, v: Vocabulary, m: MatchResult, n: string)
    requires Declares(d, keys, v) && multiset(m.telemetryVariables) == multiset(d.variables) && n in ReportedNames(keys)
    ensures !IsUnexpected(n, m, v.standard)
  {
    SameElements(m.telemetryVariables, d.variables);
    if !IsDriverVariable(n) {
      var k :| k in keys && TrimSpace(k) != "" && TrimSpace(k) == n;
      assert IsKeptKey(k);
      assert n in ProductNames(keys);
    }
  }

  /** Verified against the read it came from, a selected draft shows no drift, misses nothing and leaves
      nothing unexplained. */
  lemma SelectedDraftVerifies(d: ProfileDraft, variables: map<string, string>, v: Vocabulary, outcome: Outcome, report: Verification)
    requires Declares(d, variables.Keys, v) && d.variables != [] && SelectsDraft(outcome, d)
    requires IsVerificationOf(report, outcome.result, variables, v.standard)
    ensures report.verified && !report.driftDetected && report.missing == [] && report.unexpected == []
  {
    var m, keys := outcome.result, variables.Keys;
    var reported := ReportedNames(keys);
    NothingMissing(d, keys, v, report.expected, reported + AliasTargets(m.telemetryAliases, reported));
    if report.unexpected != [] {
      assert report.unexpected[0] in report.unexpected;
      NothingUnexpected(d, keys, v, m, report.unexpected[0]);
      assert false;
    }
    DraftNamesAreTrimmed(d, keys, v, d.variables[0]);
  }

  /** A read that answers one product variable leaves a draft that declares something. */
  lemma DraftDeclaresSomething(d: ProfileDraft, keys: set<string>, v: Vocabulary, key: string)
    requires Declares(d, keys, v) && key in keys && IsKeptKey(key)
    ensures d.variables != []
  {
    assert TrimSpace(key) in ProductNames(keys);
    assert TrimSpace(key) in d.variables;
  }

  lemma ProductKeyIsKept(key: string)
    requires key != "" && key[0] == 'u' && !IsSpace(key[|key| - 1])
    ensures IsKeptKey(key)
  {
    TrimKeeps(key);
  }
}
