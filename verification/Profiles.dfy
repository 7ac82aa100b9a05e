/** Capability profiles, the devices they describe, and the precedence among them. */
module Profiles {
  import opened Wrappers
  import opened GoStrings
  import opened StableSort

  datatype Device = Device(id: string, model: string, firmware: string, driverFamily: string)

  const CRD := "CRD"
  const BUNDLED := "Bundled"

  datatype Selector = Selector(model: string, firmware: string, modelGlob: string, driverFamily: string, universal: bool)

  datatype QuirkFirmware = QuirkFirmware(matches: seq<string>, below: string)

  datatype Quirk = Quirk(name: string, firmware: Option<QuirkFirmware>)

  datatype Profile = Profile(
    id: string,
    version: string,
    source: string,
    selector: Selector,
    telemetryVariables: seq<string>,
    telemetryAliases: map<string, string>,
    actuationBehaviors: seq<string>,
    quirks: seq<Quirk>,
    runtimeEstimate: string)

  /** The answer of the glob matcher, which is a parameter of the model. */
  datatype GlobAnswer = Matched | Unmatched | BadPattern

  type Glob = (string, string) -> GlobAnswer

  datatype Tier = ExactModelFirmware | ExactModel | ModelGlob | DriverFamily | Unidentified

  /** Lower ranks are more specific. */
  function Rank(tier: Tier): nat {
    match tier
    case ExactModelFirmware => 0
    case ExactModel => 1
    case ModelGlob => 2
    case DriverFamily => 3
    case Unidentified => 4
  }

  /** The most specific tier at which a selector matches a device. */
  function MatchTier(device: Device, s: Selector, glob: Glob): Option<Tier> {
    if device.model != "" && s.model != "" && s.firmware != "" && s.model == device.model && s.firmware == device.firmware
    then Some(ExactModelFirmware)
    else if device.model != "" && s.model != "" && s.firmware == "" && s.model == device.model
    then Some(ExactModel)
    else if device.model != "" && s.modelGlob != "" && glob(s.modelGlob, device.model).Matched?
    then Some(ModelGlob)
    else if device.driverFamily != "" && s.driverFamily != "" && s.driverFamily == device.driverFamily
    then Some(DriverFamily)
    else if s.universal then Some(Unidentified)
    else None
  }

  /** What it takes to match at a tier, each tier on its own. */
  predicate AppliesAt(device: Device, s: Selector, glob: Glob, tier: Tier) {
    match tier
    case ExactModelFirmware => device.model == s.model != "" && device.firmware == s.firmware != ""
    case ExactModel => device.model == s.model != "" && s.firmware == ""
    case ModelGlob => device.model != "" && s.modelGlob != "" && glob(s.modelGlob, device.model).Matched?
    case DriverFamily => device.driverFamily == s.driverFamily != ""
    case Unidentified => s.universal
  }

  /** The tier found is the most specific one that applies, and none is found only when none applies. */
  lemma TierIsMostSpecific(device: Device, s: Selector, glob: Glob, tier: Tier)
    ensures MatchTier(device, s, glob) == Some(tier) <==>
            AppliesAt(device, s, glob, tier) && forall t :: Rank(t) < Rank(tier) ==> !AppliesAt(device, s, glob, t)
    ensures MatchTier(device, s, glob).None? ==> !AppliesAt(device, s, glob, tier)
  {
    if MatchTier(device, s, glob).Some? {
      var found := MatchTier(device, s, glob).value;
      assert AppliesAt(device, s, glob, found);
    }
  }

  function SourceRank(source: string): nat {
    if source == CRD then 2 else if source == BUNDLED then 1 else 0
  }

  // ---- versions ----

  datatype SemanticVersion = SemanticVersion(major: int, minor: int, patch: int, raw: string, valid: bool)

  /** Three dotted numbers after an optional v; everything from the first dash on is ignored. */
  function ParseSemanticVersion(raw: string): SemanticVersion {
    var trimmed := if raw != [] && raw[0] == 'v' then raw[1..] else raw;
    var parts := Split(Split(trimmed, '-')[0], '.');
    if |parts| != 3 || Atoi(parts[0]).None? || Atoi(parts[1]).None? || Atoi(parts[2]).None?
    then SemanticVersion(0, 0, 0, raw, false)
    else SemanticVersion(Atoi(parts[0]).value, Atoi(parts[1]).value, Atoi(parts[2]).value, raw, true)
  }

  function CompareStrings(a: string, b: string): int {
    if a == b then 0 else if Less(a, b) then -1 else 1
  }

  /** Positive when l is newer. A valid version is newer than an invalid one. */
  function CompareVersions(l: SemanticVersion, r: SemanticVersion): int {
    if l.valid && !r.valid then 1
    else if !l.valid && r.valid then -1
    else if !l.valid && !r.valid then CompareStrings(l.raw, r.raw)
    else if l.major != r.major then l.major - r.major
    else if l.minor != r.minor then l.minor - r.minor
    else l.patch - r.patch
  }

  lemma CompareVersionsAntisymmetric(a: SemanticVersion, b: SemanticVersion)
    ensures CompareVersions(a, b) < 0 <==> CompareVersions(b, a) > 0
    ensures CompareVersions(a, b) == 0 <==> CompareVersions(b, a) == 0
  {
    LessIsStrictTotal();
  }

  lemma CompareVersionsTransitive(a: SemanticVersion, b: SemanticVersion, c: SemanticVersion)
    requires CompareVersions(a, b) <= 0 && CompareVersions(b, c) <= 0
    ensures CompareVersions(a, c) <= 0
    ensures CompareVersions(a, c) == 0 ==> CompareVersions(a, b) == 0 && CompareVersions(b, c) == 0
  {
    if !a.valid && !b.valid && !c.valid {
      LessIsStrictTotal();
    }
  }

  /** Numerically newer: the first of major, minor and patch that differs is greater. */
  predicate Newer(a: SemanticVersion, b: SemanticVersion) {
    || a.major > b.major
    || (a.major == b.major && a.minor > b.minor)
    || (a.major == b.major && a.minor == b.minor && a.patch > b.patch)
  }

  lemma NewerComparesGreater(a: SemanticVersion, b: SemanticVersion)
    ensures a.valid && b.valid ==> (CompareVersions(a, b) > 0 <==> Newer(a, b))
    ensures a.valid && !b.valid ==> CompareVersions(a, b) > 0
    ensures !a.valid && !b.valid ==> (CompareVersions(a, b) > 0 <==> Less(b.raw, a.raw))
  {
    LessIsStrictTotal();
  }

  /** Three numbers written in decimal, with or without a v, read back as themselves. */
  lemma VersionReadsBack(major: nat, minor: nat, patch: nat, raw: string)
    requires major <= MAX_INT && minor <= MAX_INT && patch <= MAX_INT
    requires var core := Join([Decimal(major), Decimal(minor), Decimal(patch)], '.'); raw == core || raw == ['v'] + core
    ensures ParseSemanticVersion(raw) == SemanticVersion(major, minor, patch, raw, true)
  {
    var parts := [Decimal(major), Decimal(minor), Decimal(patch)];
    var core := Join(parts, '.');
    DecimalParses(major);
    DecimalParses(minor);
    DecimalParses(patch);
    SplitOfJoin(parts, '.');
    JoinOfDigits(parts);
    SplitNone(core, '-');
    assert core[0] == Decimal(major)[0];
    if raw == ['v'] + core { assert raw[1..] == core; }
  }

  /** A text is a version exactly when it has three parts and each is a number. */
  lemma VersionIsValidExactlyWhen(parts: seq<string>)
    requires parts != [] && forall i :: 0 <= i < |parts| ==> '.' !in parts[i] && '-' !in parts[i]
    requires parts[0] == "" || parts[0][0] != 'v'
    ensures ParseSemanticVersion(Join(parts, '.')).valid <==>
            |parts| == 3 && Atoi(parts[0]).Some? && Atoi(parts[1]).Some? && Atoi(parts[2]).Some?
    ensures ParseSemanticVersion(Join(parts, '.')).raw == Join(parts, '.')
  {
    SplitOfJoin(parts, '.');
    JoinAvoids(parts, '-');
    JoinHead(parts);
    ValidCore(Join(parts, '.'), parts);
  }

  lemma JoinHead(parts: seq<string>)
    requires parts != [] && (parts[0] == "" || parts[0][0] != 'v')
    ensures var core := Join(parts, '.'); core == "" || core[0] != 'v'
  {
  }

  lemma ValidCore(core: string, parts: seq<string>)
    requires '-' !in core && (core == "" || core[0] != 'v') && Split(core, '.') == parts
    ensures ParseSemanticVersion(core).valid <==>
            |parts| == 3 && Atoi(parts[0]).Some? && Atoi(parts[1]).Some? && Atoi(parts[2]).Some?
    ensures ParseSemanticVersion(core).raw == core
  {
    SplitNone(core, '-');
  }

  /** The version order is not the pre-release precedence of Semantic Versioning 2.0.0, section 11: a suffix
      after the first dash makes no difference exactly when what precedes it is a version. */
  lemma PreReleaseIsIgnored(core: string, suffix: string)
    requires '-' !in core
    ensures CompareVersions(ParseSemanticVersion(core + "-" + suffix), ParseSemanticVersion(core)) == 0 <==>
            ParseSemanticVersion(core).valid
  {
    var full := core + "-" + suffix;
    var bare := if core != [] && core[0] == 'v' then core[1..] else core;
    if core != [] && core[0] == 'v' { assert full[1..] == core[1..] + ['-'] + suffix; }
    else { assert full == core + ['-'] + suffix; }
    SplitHead(bare, suffix, '-');
    SplitNone(bare, '-');
    assert |full| > |core|;
  }

  // ---- precedence ----

  datatype Candidate = Candidate(profile: Profile, tier: Tier, sourceRank: nat, version: SemanticVersion)

  /** The final tiebreak compares id and version joined by a colon. */
  function Label(p: Profile): string {
    p.id + ":" + p.version
  }

  predicate BetterThan(l: Candidate, r: Candidate) {
    if l.tier != r.tier then Rank(l.tier) < Rank(r.tier)
    else if l.sourceRank != r.sourceRank then l.sourceRank > r.sourceRank
    else if CompareVersions(l.version, r.version) != 0 then CompareVersions(l.version, r.version) > 0
    else Less(Label(l.profile), Label(r.profile))
  }

  lemma BetterThanAsymmetric(a: Candidate, b: Candidate)
    ensures !BetterThan(a, a)
    ensures BetterThan(a, b) ==> !BetterThan(b, a)
  {
    CompareVersionsAntisymmetric(a.version, a.version);
    CompareVersionsAntisymmetric(a.version, b.version);
    LessIsStrictTotal();
  }

  lemma BetterThanNegativelyTransitive(a: Candidate, b: Candidate, c: Candidate)
    requires !BetterThan(a, b) && !BetterThan(b, c)
    ensures !BetterThan(a, c)
  {
    if a.tier == b.tier == c.tier && a.sourceRank == b.sourceRank == c.sourceRank {
      CompareVersionsTransitive(a.version, b.version, c.version);
      if CompareVersions(a.version, c.version) == 0 { LessIsStrictTotal(); }
    }
  }

  /** The precedence is a strict weak order even when valid and invalid versions mix. */
  lemma BetterThanIsStrictWeak()
    ensures StrictWeak(BetterThan)
  {
    forall a: Candidate ensures !BetterThan(a, a) { BetterThanAsymmetric(a, a); }
    forall a: Candidate, b: Candidate | BetterThan(a, b) ensures !BetterThan(b, a) { BetterThanAsymmetric(a, b); }
    forall a: Candidate, b: Candidate, c: Candidate | !BetterThan(a, b) && !BetterThan(b, c)
      ensures !BetterThan(a, c)
    {
      BetterThanNegativelyTransitive(a, b, c);
    }
  }

  function CandidateFor(device: Device, p: Profile, glob: Glob): Option<Candidate> {
    match MatchTier(device, p.selector, glob)
    case None => None
    case Some(tier) => Some(Candidate(p, tier, SourceRank(p.source), ParseSemanticVersion(p.version)))
  }

  /** The candidates among the first `n` profiles, in order. */
  function Candidates(device: Device, profiles: seq<Profile>, glob: Glob): (r: seq<Candidate>)
    ensures |r| <= |profiles|
  {
    if profiles == [] then []
    else
      var front := Candidates(device, profiles[..|profiles| - 1], glob);
      var c := CandidateFor(device, profiles[|profiles| - 1], glob);
      if c.Some? then front + [c.value] else front
  }

  lemma {:induction false} CandidatesAreMatches(device: Device, profiles: seq<Profile>, glob: Glob, c: Candidate)
    ensures c in Candidates(device, profiles, glob) <==>
            exists p :: p in profiles && CandidateFor(device, p, glob) == Some(c)
  {
    if profiles != [] {
      var front, last := profiles[..|profiles| - 1], profiles[|profiles| - 1];
      CandidatesAreMatches(device, front, glob, c);
      assert profiles == front + [last];
    }
  }
}
