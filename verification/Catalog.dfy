/** The bundled catalog, and the whole path from a read of a device to its verified draft. */
module Catalog {
  import opened Wrappers
  import opened GoStrings
  import opened StableSort
  import opened Profiles
  import opened Quirks
  import opened ProfileMatch
  import opened Draft
  import opened DraftBuilder
  import opened Verify
  import opened RoundTrip

  const COMMON_VARIABLES: seq<string> := [
    "battery.charge", "battery.charge.low", "battery.low", "battery.runtime", "battery.voltage", "input.frequency",
    "input.transfer.high", "input.transfer.low", "input.voltage", "input.voltage.nominal", "output.current",
    "output.frequency", "output.power", "output.power.nominal", "output.voltage", "ups.id", "ups.load", "ups.mfr",
    "ups.model", "ups.serial", "ups.status", "ups.test.date", "ups.test.interval", "ups.test.result", "ups.type"]

  const COMMON_ALIASES: map<string, string> := map["battery.low" := "battery.charge.low"]

  /** Defects observed on one build, and one fixed in a later build; the others have no known fix. */
  function CommonQuirks(observedOn: string, fixedIn: string): seq<Quirk> {
    [Quirk("built-in-nut-server" + "-not-reachable", Some(QuirkFirmware([observedOn], ""))),
     Quirk("snmpv3-only" + "-no-community-string", Some(QuirkFirmware([observedOn], ""))),
     Quirk("nut-protocol" + "-response-bugs", Some(QuirkFirmware([], fixedIn))),
     Quirk("instant-commands" + "-not-confirmed", None),
     Quirk("reports-battery.low" + "-instead-of-battery.charge.low", None),
     Quirk("credentialed-upsc" + "-reads-may-require-client-config", None)]
  }

  function TowerQuirks(observedOn: string, fixedIn: string): seq<Quirk> {
    CommonQuirks(observedOn, fixedIn) + [Quirk("tower-output-power" + "-and-current-may-be-firmware-or-load-dependent", None)]
  }

  function UnidentifiedDevice(): Profile {
    Profile("nut-bundled-unidentified-device", "1.0.0", BUNDLED, Selector("", "", "", "", true), ["ups.status"], map[], [], [], "")
  }

  function Tower(observedOn: string, fixedIn: string): Profile {
    Profile("ubiquiti-unifi-ups-tower", "1.0.0", BUNDLED, Selector("", "", "TOWER_*VA_*V", "", false),
            COMMON_VARIABLES + ["ups.temperature"], COMMON_ALIASES, [], TowerQuirks(observedOn, fixedIn), "")
  }

  function RackMount(observedOn: string, fixedIn: string): Profile {
    Profile("ubiquiti-unifi-ups-2u", "1.0.0", BUNDLED, Selector("", "", "2U_*VA_*V", "", false),
            COMMON_VARIABLES, COMMON_ALIASES, [], CommonQuirks(observedOn, fixedIn), "")
  }

  function CatalogOf(observedOn: string, fixedIn: string): seq<Profile> {
    [UnidentifiedDevice(), Tower(observedOn, fixedIn), RackMount(observedOn, fixedIn)]
  }

  function BundledProfiles(): seq<Profile> {
    CatalogOf("1.6.1", "1.4.18")
  }

  /** The patterns of the catalog are well-formed globs. */
  ghost predicate KnowsCatalogPatterns(glob: Glob, observedOn: string) {
    && !glob(observedOn, "probe").BadPattern?
    && !glob("TOWER_*VA_*V", "probe").BadPattern?
    && !glob("2U_*VA_*V", "probe").BadPattern?
  }

  lemma DigitFacts(c: char)
    requires IsDigit(c)
    ensures !IsSpace(c) && c != '.' && c != '-' && c != '+' && 0 <= c as int - '0' as int <= 9
  {
  }

  lemma ShortNumberParses(s: string)
    requires 1 <= |s| <= 2 && forall c :: c in s ==> IsDigit(c)
    ensures Atoi(s).Some? && Atoi(s).value >= 0
  {
    DigitFacts(s[0]);
    DigitFacts(s[|s| - 1]);
    if |s| == 2 {
      assert s[..1][..0] == [] && s[..1][0] == s[0];
      assert Digits(s[..1]) <= 9;
    } else {
      assert s[..0] == [];
    }
    assert Digits(s) <= 99;
  }

  lemma ThreePartVersion(a: string, b: string, c: string)
    requires 1 <= |a| <= 2 && 1 <= |b| <= 2 && 1 <= |c| <= 2
    requires forall x :: x in a + b + c ==> IsDigit(x)
    ensures ParseDottedVersion(a + ['.'] + (b + ['.'] + c)).Some?
  {
    var raw := a + ['.'] + (b + ['.'] + c);
    forall x | x in a || x in b || x in c ensures IsDigit(x) { assert x in a + b + c; }
    assert raw[0] == a[0] && raw[|raw| - 1] == c[|c| - 1];
    DigitFacts(a[0]);
    DigitFacts(c[|c| - 1]);
    TrimKeeps(raw);
    SplitHead(a, b + ['.'] + c, '.');
    SplitHead(b, c, '.');
    SplitNone(c, '.');
    assert Split(raw, '.') == [a, b, c];
    ShortNumberParses(a);
    ShortNumberParses(b);
    ShortNumberParses(c);
    PartsParse([a, b, c]);
  }

  lemma {:induction false} PartsParse(parts: seq<string>)
    requires forall i :: 0 <= i < |parts| ==> Atoi(parts[i]).Some? && Atoi(parts[i]).value >= 0
    ensures ParseParts(parts).Some?
  {
    if parts != [] {
      PartsParse(parts[1..]);
    }
  }

  lemma BoundParses()
    ensures ParseDottedVersion("1.4.18").Some?
  {
    BoundParsesAs("1.4.18");
  }

  lemma BoundParsesAs(raw: string)
    requires raw == "1.4.18"
    ensures ParseDottedVersion(raw).Some?
  {
    var a, b, c := "1", "4", "18";
    assert raw == a + ['.'] + (b + ['.'] + c);
    ThreePartVersion(a, b, c);
  }

  /** The quirk names start with seven different letters. */
  lemma Initials(observedOn: string, fixedIn: string)
    ensures var q := TowerQuirks(observedOn, fixedIn);
            && |q| == 7 && (forall i :: 0 <= i < 7 ==> q[i].name != "")
            && q[0].name[0] == 'b' && q[1].name[0] == 's' && q[2].name[0] == 'n' && q[3].name[0] == 'i'
            && q[4].name[0] == 'r' && q[5].name[0] == 'c' && q[6].name[0] == 't'
  {
  }

  lemma EachQuirkIsValid(observedOn: string, fixedIn: string, glob: Glob, j: nat)
    requires !glob(observedOn, "probe").BadPattern? && ParseDottedVersion(fixedIn).Some? && j < 7
    ensures ValidQuirk(TowerQuirks(observedOn, fixedIn)[j], glob)
  {
    Initials(observedOn, fixedIn);
    var q := TowerQuirks(observedOn, fixedIn)[j];
    if j <= 1 {
      assert q.firmware == Some(QuirkFirmware([observedOn], ""));
    } else if j == 2 {
      assert q.firmware == Some(QuirkFirmware([], fixedIn));
    } else {
      assert q.firmware == None;
    }
  }

  lemma NamesDiffer(observedOn: string, fixedIn: string, j: nat, k: nat)
    requires j < k < 7
    ensures TowerQuirks(observedOn, fixedIn)[j].name != TowerQuirks(observedOn, fixedIn)[k].name
  {
    Initials(observedOn, fixedIn);
  }

  lemma TowerQuirksAreValid(observedOn: string, fixedIn: string, glob: Glob)
    requires !glob(observedOn, "probe").BadPattern? && ParseDottedVersion(fixedIn).Some?
    ensures ValidQuirks(TowerQuirks(observedOn, fixedIn), glob)
  {
    var q := TowerQuirks(observedOn, fixedIn);
    Initials(observedOn, fixedIn);
    forall j | 0 <= j < |q| ensures ValidQuirk(q[j], glob) { EachQuirkIsValid(observedOn, fixedIn, glob, j); }
    forall j, k | 0 <= j < k < |q| ensures q[j].name != q[k].name { NamesDiffer(observedOn, fixedIn, j, k); }
    FreshNames(q, glob);
  }

  lemma CommonQuirksAreValid(observedOn: string, fixedIn: string, glob: Glob)
    requires ValidQuirks(TowerQuirks(observedOn, fixedIn), glob)
    ensures ValidQuirks(CommonQuirks(observedOn, fixedIn), glob)
  {
    FrontIsValid(CommonQuirks(observedOn, fixedIn), TowerQuirks(observedOn, fixedIn), glob);
  }

  lemma FrontIsValid(front: seq<Quirk>, all: seq<Quirk>, glob: Glob)
    requires ValidQuirks(all, glob) && front <= all
    ensures ValidQuirks(front, glob)
  {
    forall q | q in front ensures q in all {
      var i :| 0 <= i < |front| && front[i] == q;
      assert all[i] == q;
    }
    var names, allNames := Map(NameOf, front), Map(NameOf, all);
    forall i, j | 0 <= i < j < |names| ensures names[i] != names[j] {
      assert allNames[i] == names[i] && allNames[j] == names[j];
    }
  }

  lemma CommonAliasesAreValid()
    ensures ValidAliases(COMMON_ALIASES)
  {
    assert |"battery.low"| == 11 && |"battery.charge.low"| == 18;
  }

  lemma KeysDiffer(observedOn: string, fixedIn: string)
    ensures DistinctKeys(CatalogOf(observedOn, fixedIn))
  {
    var tower, rack := Tower(observedOn, fixedIn), RackMount(observedOn, fixedIn);
    var keys := Map(Key, CatalogOf(observedOn, fixedIn));
    assert |keys[0]| == |UnidentifiedDevice().id| + 1 + 5 + 1 + 7;
    assert |keys[1]| == |tower.id| + 1 + 5 + 1 + 7;
    assert |keys[2]| == |rack.id| + 1 + 5 + 1 + 7;
    assert |UnidentifiedDevice().id| == 31 && |tower.id| == 24 && |rack.id| == 21;
  }

  lemma CatalogIsValid(observedOn: string, fixedIn: string, glob: Glob)
    requires KnowsCatalogPatterns(glob, observedOn) && ParseDottedVersion(fixedIn).Some?
    ensures ValidSet(CatalogOf(observedOn, fixedIn), glob)
  {
    TowerQuirksAreValid(observedOn, fixedIn, glob);
    CommonQuirksAreValid(observedOn, fixedIn, glob);
    CommonAliasesAreValid();
    KeysDiffer(observedOn, fixedIn);
    assert ValidProfile(UnidentifiedDevice(), glob);
    assert ValidProfile(Tower(observedOn, fixedIn), glob);
    assert ValidProfile(RackMount(observedOn, fixedIn), glob);
    assert CatalogOf(observedOn, fixedIn)[0].selector.universal;
  }

  /** The bundled catalog is a valid profile set. */
  lemma BundledIsValid(glob: Glob)
    requires KnowsCatalogPatterns(glob, "1.6.1")
    ensures ValidSet(BundledProfiles(), glob)
  {
    BoundParses();
    CatalogIsValid("1.6.1", "1.4.18", glob);
  }

  lemma SourcesTellKeysApart(p: Profile, x: Profile)
    requires p.source == BUNDLED && x.source == CRD
    ensures Key(p) != Key(x)
  {
    assert Key(p)[|Key(p)| - 1] == 'd' && Key(x)[|Key(x)| - 1] == 'D';
  }

  /** Every draft with a model can join the bundled catalog. */
  lemma BundledIsJoinable(d: ProfileDraft, glob: Glob)
    requires KnowsCatalogPatterns(glob, "1.6.1") && d.model != ""
    ensures Joinable(BundledProfiles(), d, glob)
  {
    BundledIsValid(glob);
    forall p | p in BundledProfiles() ensures p.selector.model != d.model && Key(p) != Key(ProfileOf(d)) {
      assert p.source == BUNDLED && p.selector.model == "";
      SourcesTellKeysApart(p, ProfileOf(d));
    }
  }

  lemma ModelIsAnswered(d: ProfileDraft, variables: map<string, string>)
    requires IsIdentityOf(d, variables) && d.model != ""
    ensures "ups.model" in variables
  {
  }

  lemma ReadDeclares(d: ProfileDraft, variables: map<string, string>, v: Vocabulary)
    requires IsIdentityOf(d, variables) && Declares(d, variables.Keys, v) && d.model != ""
    ensures d.variables != []
  {
    ModelIsAnswered(d, variables);
    AnsweredKeyDeclares(d, variables, v, "ups.model");
  }

  lemma LetterIsNotSpace(c: char)
    requires 'a' <= c <= 'z'
    ensures !IsSpace(c)
  {
  }

  lemma AnsweredKeyDeclares(d: ProfileDraft, variables: map<string, string>, v: Vocabulary, key: string)
    requires Declares(d, variables.Keys, v) && key in variables
    requires key != "" && key[0] == 'u' && 'a' <= key[|key| - 1] <= 'z'
    ensures d.variables != []
  {
    LetterIsNotSpace(key[|key| - 1]);
    ProductKeyIsKept(key);
    DraftDeclaresSomething(d, variables.Keys, v, key);
  }

  /** The whole path: read a device, draft a profile, add it to the bundled catalog, match the device and
      verify it against the same read. With a model in the read, nothing is wrong at the end. */
  method DraftAndVerify(variables: map<string, string>, nameOption: string, lower: char -> char, v: Vocabulary,
                        id: string, driverFamily: string, glob: Glob)
    returns (d: ProfileDraft, outcome: Outcome, report: Option<Verification>)
    requires Coherent(v) && KnowsCatalogPatterns(glob, "1.6.1")
    ensures IsIdentityOf(d, variables)
    ensures outcome == Match(Device(id, d.model, d.firmware, driverFamily), BundledProfiles() + [ProfileOf(d)], glob)
    ensures d.model != "" ==>
              && SelectsDraft(outcome, d) && report.Some?
              && report.value.verified && !report.value.driftDetected && report.value.missing == [] && report.value.unexpected == []
  {
    d := BuildDraft(variables, nameOption, lower, v);
    var device := Device(id, d.model, d.firmware, driverFamily);
    outcome := MatchDevice(device, BundledProfiles() + [ProfileOf(d)], glob);
    report := None;
    if outcome.Selected? {
      var r := VerifyMatch(outcome.result, variables, v.standard);
      report := Some(r);
    }
    if d.model != "" {
      RoundTripHolds(d, variables, v, device, glob, outcome);
      SelectedDraftVerifies(d, variables, v, outcome, report.value);
    }
  }

  /** The round trip with the program's own vocabulary. */
  method DraftAndVerifyWithNut(variables: map<string, string>, nameOption: string, lower: char -> char,
                               id: string, driverFamily: string, glob: Glob)
    returns (d: ProfileDraft, outcome: Outcome, report: Option<Verification>)
    requires KnowsCatalogPatterns(glob, "1.6.1")
    ensures IsIdentityOf(d, variables)
    ensures outcome == Match(Device(id, d.model, d.firmware, driverFamily), BundledProfiles() + [ProfileOf(d)], glob)
    ensures d.model != "" ==>
              && SelectsDraft(outcome, d) && report.Some?
              && report.value.verified && !report.value.driftDetected && report.value.missing == [] && report.value.unexpected == []
  {
    NutIsCoherent();
    d, outcome, report := DraftAndVerify(variables, nameOption, lower, NUT, id, driverFamily, glob);
  }

  lemma RoundTripHolds(d: ProfileDraft, variables: map<string, string>, v: Vocabulary, device: Device, glob: Glob, outcome: Outcome)
    requires Coherent(v) && KnowsCatalogPatterns(glob, "1.6.1")
    requires IsIdentityOf(d, variables) && Declares(d, variables.Keys, v)
    requires device.model == d.model != "" && outcome == Match(device, BundledProfiles() + [ProfileOf(d)], glob)
    ensures SelectsDraft(outcome, d) && d.variables != []
  {
    BundledIsJoinable(d, glob);
    DraftIsSelected(BundledProfiles(), d, variables.Keys, v, device, glob);
    ReadDeclares(d, variables, v);
  }

  /** The device's model matches the pattern. */
  predicate ModelMatches(device: Device, pattern: string, glob: Glob) {
    device.model != "" && glob(pattern, device.model).Matched?
  }

  /** What the bundled catalog selects: a tower or a rack mount by the pattern its model matches, and the profile of
      unidentified devices for everything else. */
  lemma BundledSelection(device: Device, glob: Glob)
    requires KnowsCatalogPatterns(glob, "1.6.1")
    ensures SelectsByPattern(device, Match(device, BundledProfiles(), glob),
                             "ubiquiti-unifi-ups-tower", "TOWER_*VA_*V", "ubiquiti-unifi-ups-2u", "2U_*VA_*V", glob)
  {
    BundledIsValid(glob);
    NormalizeKeepsValid(BundledProfiles(), glob);
    CatalogSelection("1.6.1", "1.4.18", device, glob);
  }

  lemma CatalogSelection(observedOn: string, fixedIn: string, device: Device, glob: Glob)
    requires ValidSet(Normalize(CatalogOf(observedOn, fixedIn)), glob)
    ensures var t, k := Tower(observedOn, fixedIn), RackMount(observedOn, fixedIn);
            SelectsByPattern(device, Match(device, CatalogOf(observedOn, fixedIn), glob),
                             t.id, t.selector.modelGlob, k.id, k.selector.modelGlob, glob)
  {
    CatalogIds(observedOn, fixedIn);
    var all, t, k := CatalogOf(observedOn, fixedIn), Tower(observedOn, fixedIn), RackMount(observedOn, fixedIn);
    CatalogMembers(observedOn, fixedIn);
    PatternSelection(device, all, UnidentifiedDevice(), t, k, glob);
  }

  lemma CatalogMembers(observedOn: string, fixedIn: string)
    ensures var all, u := CatalogOf(observedOn, fixedIn), UnidentifiedDevice();
            var t, k := Tower(observedOn, fixedIn), RackMount(observedOn, fixedIn);
            t in all && k in all && forall p :: p in all ==> p == u || p == t || p == k
  {
    var all := CatalogOf(observedOn, fixedIn);
    assert all[1] == Tower(observedOn, fixedIn) && all[2] == RackMount(observedOn, fixedIn);
  }

  lemma CatalogIds(observedOn: string, fixedIn: string)
    ensures var u, t, k := UnidentifiedDevice(), Tower(observedOn, fixedIn), RackMount(observedOn, fixedIn);
            && u.id != t.id && u.id != k.id && t.id != k.id
            && u.selector == Selector("", "", "", "", true) && ByPattern(t.selector) && ByPattern(k.selector)
  {
    assert |UnidentifiedDevice().id| == 31 && |Tower(observedOn, fixedIn).id| == 24 && |RackMount(observedOn, fixedIn).id| == 21;
  }

  /** A selector that matches by one pattern and nothing else. */
  predicate ByPattern(s: Selector) {
    s == Selector("", "", s.modelGlob, "", false) && s.modelGlob != ""
  }

  lemma PatternApplies(device: Device, s: Selector, glob: Glob, tier: Tier)
    requires ByPattern(s)
    ensures AppliesAt(device, s, glob, tier) <==> tier == ModelGlob && ModelMatches(device, s.modelGlob, glob)
  {
  }

  lemma FallbackApplies(device: Device, s: Selector, glob: Glob, tier: Tier)
    requires s == Selector("", "", "", "", true)
    ensures AppliesAt(device, s, glob, tier) <==> tier == Unidentified
  {
  }

  /** The outcome is the profile whose pattern matches, or neither. */
  predicate SelectsByPattern(device: Device, outcome: Outcome, idT: string, patternT: string, idK: string, patternK: string, glob: Glob) {
    var byT, byK := ModelMatches(device, patternT, glob), ModelMatches(device, patternK, glob);
    && outcome.Selected? && (outcome.result.unidentified <==> !byT && !byK)
    && (outcome.result.profileId == idT ==> byT) && (outcome.result.profileId == idK ==> byK)
  }

  /** The selection among a fallback and two profiles that match by pattern. */
  lemma PatternSelection(device: Device, all: seq<Profile>, u: Profile, t: Profile, k: Profile, glob: Glob)
    requires ValidSet(Normalize(all), glob) && t in all && k in all && (forall p :: p in all ==> p == u || p == t || p == k)
    requires u.selector == Selector("", "", "", "", true) && ByPattern(t.selector) && ByPattern(k.selector)
    requires u.id != t.id && u.id != k.id && t.id != k.id
    ensures SelectsByPattern(device, Match(device, all, glob), t.id, t.selector.modelGlob, k.id, k.selector.modelGlob, glob)
  {
    var p := SelectionReports(device, all, glob);
    TierOfPattern(device, all, t, glob);
    TierOfPattern(device, all, k, glob);
    PatternDecides(device, u, t, k, glob, p, Match(device, all, glob).result);
  }

  lemma TierOfPattern(device: Device, all: seq<Profile>, t: Profile, glob: Glob)
    requires Match(device, all, glob).Selected? && t in all
    ensures AppliesAt(device, t.selector, glob, ModelGlob) ==> Rank(Match(device, all, glob).result.tier) <= 2
  {
    if AppliesAt(device, t.selector, glob, ModelGlob) { SelectionIsMostSpecific(device, all, glob, t, ModelGlob); }
  }

  lemma PatternDecides(device: Device, u: Profile, t: Profile, k: Profile, glob: Glob, p: Profile, r: MatchResult)
    requires u.selector == Selector("", "", "", "", true) && ByPattern(t.selector) && ByPattern(k.selector)
    requires u.id != t.id && u.id != k.id && t.id != k.id && (p == u || p == t || p == k)
    requires r.profileId == p.id && AppliesAt(device, p.selector, glob, r.tier) && (r.unidentified <==> r.tier == Unidentified)
    requires AppliesAt(device, t.selector, glob, ModelGlob) || AppliesAt(device, k.selector, glob, ModelGlob) ==> Rank(r.tier) <= 2
    ensures var byT, byK := ModelMatches(device, t.selector.modelGlob, glob), ModelMatches(device, k.selector.modelGlob, glob);
            (r.unidentified <==> !byT && !byK) && (r.profileId == t.id ==> byT) && (r.profileId == k.id ==> byK)
  {
    FallbackApplies(device, u.selector, glob, r.tier);
    PatternApplies(device, t.selector, glob, r.tier);
    PatternApplies(device, k.selector, glob, r.tier);
    PatternApplies(device, t.selector, glob, ModelGlob);
    PatternApplies(device, k.selector, glob, ModelGlob);
  }
}
