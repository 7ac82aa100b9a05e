/** The draft itself: what one read of a device proposes. */
module DraftBuilder {
  import opened Wrappers
  import opened GoStrings
  import opened StableSort
  import opened SortedStrings
  import opened Profiles
  import opened ProfileMatch
  import opened Draft

  // ---- names ----

  const UNNAMED := "unnamed-ups-profile"

  predicate IsAlnum(c: char) {
    'a' <= c <= 'z' || '0' <= c <= '9'
  }

  function Alnum(s: string): string {
    if s == [] then [] else Alnum(s[..|s| - 1]) + if IsAlnum(s[|s| - 1]) then [s[|s| - 1]] else []
  }

  /** Lower-case letters and digits in groups joined by single dashes, neither leading nor trailing. */
  predicate WellFormedName(s: string) {
    && (forall i :: 0 <= i < |s| ==> IsAlnum(s[i]) || s[i] == '-')
    && (forall i :: 0 <= i < |s| - 1 ==> !(s[i] == '-' && s[i + 1] == '-'))
    && (s != "" ==> s[0] != '-')
  }

  predicate ValidName(s: string) {
    s != "" && WellFormedName(s) && s[|s| - 1] != '-'
  }

  lemma UnnamedIsValid()
    ensures ValidName(UNNAMED)
  {
    assert |UNNAMED| == 19;
  }

  function TrimDashes(s: string): string
    decreases |s|
  {
    if s != "" && s[0] == '-' then TrimDashes(s[1..])
    else if s != "" && s[|s| - 1] == '-' then TrimDashes(s[..|s| - 1])
    else s
  }

  lemma TrimWellFormed(s: string)
    requires WellFormedName(s)
    ensures TrimDashes(s) == "" || ValidName(TrimDashes(s))
    ensures Alnum(TrimDashes(s)) == Alnum(s)
  {
    if s != "" && s[|s| - 1] == '-' {
      var front := s[..|s| - 1];
      assert front != "" ==> front[|front| - 1] == s[|s| - 2];
      assert TrimDashes(front) == front;
      assert Alnum(s) == Alnum(front) + [];
    }
  }

  lemma AppendLetter(builder: string, c: char)
    requires WellFormedName(builder) && IsAlnum(c)
    ensures WellFormedName(builder + [c]) && Alnum(builder + [c]) == Alnum(builder) + [c]
  {
    assert (builder + [c])[..|builder|] == builder;
  }

  lemma AppendDash(builder: string)
    requires WellFormedName(builder) && builder != "" && builder[|builder| - 1] != '-'
    ensures WellFormedName(builder + ['-']) && Alnum(builder + ['-']) == Alnum(builder)
  {
    assert (builder + ['-'])[..|builder|] == builder;
    assert Alnum(builder) + [] == Alnum(builder);
  }

  lemma AlnumSnoc(text: string, i: nat)
    requires i < |text|
    ensures Alnum(text[..i + 1]) == Alnum(text[..i]) + if IsAlnum(text[i]) then [text[i]] else []
  {
    assert text[..i + 1][..i] == text[..i];
  }

  /** Letters and digits kept in order, every other run collapsed to one dash. */
  method Slug(text: string) returns (builder: string)
    ensures WellFormedName(builder) && Alnum(builder) == Alnum(text)
  {
    builder := "";
    var lastDash := false;
    for i := 0 to |text|
      invariant WellFormedName(builder)
      invariant lastDash <==> builder != "" && builder[|builder| - 1] == '-'
      invariant Alnum(builder) == Alnum(text[..i])
    {
      AlnumSnoc(text, i);
      if IsAlnum(text[i]) {
        AppendLetter(builder, text[i]);
        builder, lastDash := builder + [text[i]], false;
      } else if !lastDash && builder != "" {
        AppendDash(builder);
        builder, lastDash := builder + ['-'], true;
      }
    }
    assert text[..|text|] == text;
  }

  /** A profile name from the manufacturer and model: a valid name that keeps their letters and digits in
      order. Lower-casing is a parameter. */
  method DerivedProfileName(manufacturer: string, model: string, lower: char -> char) returns (name: string)
    ensures ValidName(name)
    ensures var text := Map(lower, TrimSpace(manufacturer + " " + model));
            if Alnum(text) == "" then name == UNNAMED else Alnum(name) == Alnum(text)
  {
    UnnamedIsValid();
    var text := Map(lower, TrimSpace(manufacturer + " " + model));
    if text == "" { return UNNAMED; }
    var builder := Slug(text);
    TrimWellFormed(builder);
    name := TrimDashes(builder);
    if name == "" { return UNNAMED; }
    assert Alnum(name) != "";
  }

  // ---- the draft ----

  datatype ProfileDraft = ProfileDraft(
    name: string, manufacturer: string, model: string, firmware: string,
    variables: seq<string>, nonStandard: seq<string>, aliases: map<string, string>, dropped: nat)

  function Reading(variables: map<string, string>, name: string): string {
    if name in variables then variables[name] else ""
  }

  predicate IsDriverKey(key: string) {
    TrimSpace(key) != "" && IsDriverVariable(TrimSpace(key))
  }

  predicate IsKeptKey(key: string) {
    TrimSpace(key) != "" && !IsDriverVariable(TrimSpace(key))
  }

  function KeptKeys(keys: set<string>): set<string> {
    set k | k in keys && IsKeptKey(k)
  }

  function DriverKeys(keys: set<string>): set<string> {
    set k | k in keys && IsDriverKey(k)
  }

  /** The product variables a read reported, trimmed. */
  function ProductNames(keys: set<string>): set<string> {
    set k | k in keys && IsKeptKey(k) :: TrimSpace(k)
  }

  /** The identity a draft reads off the device. */
  predicate IsIdentityOf(d: ProfileDraft, variables: map<string, string>) {
    && d.manufacturer == TrimSpace(Reading(variables, "ups.mfr"))
    && d.model == TrimSpace(Reading(variables, "ups.model"))
    && d.firmware == TrimSpace(Reading(variables, "ups.firmware"))
  }

  /** The draft declares exactly what the device reported about the product, names included twice only if
      reported twice, and counts what it left out. */
  ghost predicate Declares(d: ProfileDraft, keys: set<string>, v: Vocabulary) {
    && d.name != ""
    && (forall n :: n in d.variables <==> n in ProductNames(keys))
    && (forall n :: n in d.nonStandard <==> n in d.variables && n !in v.standard)
    && |d.variables| == |KeptKeys(keys)|
    && d.dropped == |DriverKeys(keys)|
    && Sorted(Less, d.variables) && Sorted(Less, d.nonStandard)
    && GoodSuggestions(d.aliases, v.targets, ProductNames(keys), d.nonStandard)
  }

  lemma NamesGrow(done: set<string>, key: string)
    ensures ProductNames(done + {key}) == ProductNames(done) + if IsKeptKey(key) then {TrimSpace(key)} else {}
  {
  }

  lemma KeptGrow(done: set<string>, key: string)
    requires key !in done
    ensures |KeptKeys(done + {key})| == |KeptKeys(done)| + if IsKeptKey(key) then 1 else 0
  {
    if IsKeptKey(key) {
      assert KeptKeys(done + {key}) == KeptKeys(done) + {key};
    } else {
      assert KeptKeys(done + {key}) == KeptKeys(done);
    }
  }

  lemma DriversGrow(done: set<string>, key: string)
    requires key !in done
    ensures |DriverKeys(done + {key})| == |DriverKeys(done)| + if IsDriverKey(key) then 1 else 0
  {
    if IsDriverKey(key) {
      assert DriverKeys(done + {key}) == DriverKeys(done) + {key};
    } else {
      assert DriverKeys(done + {key}) == DriverKeys(done);
    }
  }

  /** Sorts the trimmed names of one read into product, non-standard and driver names. */
  method CollectNames(keys: set<string>, standard: set<string>) returns (names: seq<string>, nonStandard: seq<string>, dropped: nat)
    ensures forall n :: n in names <==> n in ProductNames(keys)
    ensures forall n :: n in nonStandard <==> n in names && n !in standard
    ensures |names| == |KeptKeys(keys)| && dropped == |DriverKeys(keys)|
  {
    names, nonStandard, dropped := [], [], 0;
    var left := keys;
    ghost var done: set<string> := {};
    while left != {}
      invariant done + left == keys && done !! left
      invariant forall n :: n in names <==> n in ProductNames(done)
      invariant forall n :: n in nonStandard <==> n in names && n !in standard
      invariant |names| == |KeptKeys(done)| && dropped == |DriverKeys(done)|
    {
      var key :| key in left;
      NamesGrow(done, key);
      KeptGrow(done, key);
      DriversGrow(done, key);
      left := left - {key};
      done := done + {key};
      var name := TrimSpace(key);
      if name != "" {
        if IsDriverVariable(name) {
          dropped := dropped + 1;
        } else {
          names := names + [name];
          if name !in standard { nonStandard := nonStandard + [name]; }
        }
      }
    }
    assert done == keys;
  }

  lemma NamesAsSet(names: seq<string>, keys: set<string>)
    requires forall n :: n in names <==> n in ProductNames(keys)
    ensures (set n | n in names) == ProductNames(keys)
  {
  }

  /** A proposed profile from one read of a device. */
  method BuildDraft(variables: map<string, string>, nameOption: string, lower: char -> char, v: Vocabulary)
    returns (d: ProfileDraft)
    requires Distinct(v.targets)
    ensures IsIdentityOf(d, variables) && Declares(d, variables.Keys, v)
    ensures if nameOption != "" then d.name == nameOption else ValidName(d.name)
  {
    var manufacturer := TrimSpace(Reading(variables, "ups.mfr"));
    var model := TrimSpace(Reading(variables, "ups.model"));
    var firmware := TrimSpace(Reading(variables, "ups.firmware"));
    var names, nonStandard, dropped := CollectNames(variables.Keys, v.standard);
    SortedNames(names);
    SortedNames(nonStandard);
    NamesAsSet(names, variables.Keys);
    var aliases := SuggestAliases(v.targets, (set n | n in names), Sort(Less, nonStandard));
    var name := nameOption;
    if name == "" { name := DerivedProfileName(manufacturer, model, lower); }
    d := ProfileDraft(name, manufacturer, model, firmware, Sort(Less, names), Sort(Less, nonStandard), aliases, dropped);
  }
}

/** Checking a matched profile against what a device reports. */
module Verify {
  import opened Wrappers
  import opened GoStrings
  import opened StableSort
  import opened SortedStrings
  import opened Profiles
  import opened ProfileMatch
  import opened Draft
  import opened DraftBuilder

  datatype Verification = Verification(
    verified: bool, driftDetected: bool, expected: seq<string>, missing: seq<string>, unexpected: seq<string>)

  /** The trimmed non-empty names of a read. */
  function ReportedNames(observed: set<string>): set<string> {
    set k | k in observed && TrimSpace(k) != "" :: TrimSpace(k)
  }

  /** The canonical names a read delivers through the profile's aliases. */
  function AliasTargets(aliases: map<string, string>, reported: set<string>): set<string> {
    TargetsOf(aliases, aliases.Keys, reported)
  }

  function TargetsOf(aliases: map<string, string>, sources: set<string>, reported: set<string>): set<string>
    requires sources <= aliases.Keys
  {
    set a | a in sources && TrimSpace(a) in reported && TrimSpace(aliases[a]) != "" :: TrimSpace(aliases[a])
  }

  lemma TargetsGrow(aliases: map<string, string>, done: set<string>, a: string, reported: set<string>)
    requires done + {a} <= aliases.Keys
    ensures TargetsOf(aliases, done + {a}, reported) ==
            TargetsOf(aliases, done, reported) +
            if TrimSpace(a) in reported && TrimSpace(aliases[a]) != "" then {TrimSpace(aliases[a])} else {}
  {
    var before, after := TargetsOf(aliases, done, reported), TargetsOf(aliases, done + {a}, reported);
    forall t | t in before ensures t in after {
      var b :| b in done && TrimSpace(b) in reported && TrimSpace(aliases[b]) != "" && t == TrimSpace(aliases[b]);
      assert b in done + {a};
    }
    forall t | t in after && t !in before ensures t == TrimSpace(aliases[a]) {
      var b :| b in done + {a} && TrimSpace(b) in reported && TrimSpace(aliases[b]) != "" && t == TrimSpace(aliases[b]);
    }
  }

  /** The expected names that are not met, in order. */
  function Missing(expected: seq<string>, met: set<string>): (r: seq<string>)
    ensures forall n :: n in r <==> n in expected && n !in met
  {
    if expected == [] then []
    else
      var last := expected[|expected| - 1];
      assert expected == expected[..|expected| - 1] + [last];
      Missing(expected[..|expected| - 1], met) + if last !in met then [last] else []
  }

  /** A name nobody accounts for: neither the driver's, standard, declared nor an alias source. */
  predicate IsUnexpected(name: string, m: MatchResult, standard: set<string>) {
    !IsDriverVariable(name) && name !in standard && name !in m.telemetryVariables && name !in m.telemetryAliases
  }

  /** The whole outcome of a verification. */
  ghost predicate IsVerificationOf(v: Verification, m: MatchResult, observed: map<string, string>, standard: set<string>) {
    var reported := ReportedNames(observed.Keys);
    && v.expected == Sort(Less, m.telemetryVariables)
    && v.missing == Missing(v.expected, reported + AliasTargets(m.telemetryAliases, reported))
    && (forall n :: n in v.unexpected <==> n in reported && IsUnexpected(n, m, standard))
    && Sorted(Less, v.unexpected)
    && (v.driftDetected <==> !m.unidentified && v.missing != [])
    && (v.verified <==> !m.unidentified && reported != {} && v.missing == [])
  }

  method CollectReported(observed: set<string>) returns (reported: set<string>)
    ensures reported == ReportedNames(observed)
  {
    reported := {};
    var left := observed;
    while left != {}
      invariant left <= observed && reported == ReportedNames(observed - left)
    {
      var key :| key in left;
      ghost var done := observed - left;
      left := left - {key};
      assert observed - left == done + {key};
      if TrimSpace(key) != "" { reported := reported + {TrimSpace(key)}; }
    }
    assert observed - left == observed;
  }

  method CollectAliasTargets(aliases: map<string, string>, reported: set<string>) returns (targets: set<string>)
    ensures targets == AliasTargets(aliases, reported)
  {
    targets := {};
    var left := aliases.Keys;
    ghost var done: set<string> := {};
    while left != {}
      invariant done + left == aliases.Keys && targets == TargetsOf(aliases, done, reported)
    {
      var key :| key in left;
      TargetsGrow(aliases, done, key, reported);
      left := left - {key};
      done := done + {key};
      if TrimSpace(key) in reported && TrimSpace(aliases[key]) != "" { targets := targets + {TrimSpace(aliases[key])}; }
    }
    assert done == aliases.Keys;
  }

  method CollectMissing(expected: seq<string>, met: set<string>) returns (missing: seq<string>)
    ensures missing == Missing(expected, met)
  {
    missing := [];
    for i := 0 to |expected|
      invariant missing == Missing(expected[..i], met)
    {
      assert expected[..i + 1][..i] == expected[..i];
      if expected[i] !in met { missing := missing + [expected[i]]; }
    }
    assert expected[..|expected|] == expected;
  }

  method CollectUnexpected(reported: set<string>, m: MatchResult, standard: set<string>) returns (unexpected: seq<string>)
    ensures forall n :: n in unexpected <==> n in reported && IsUnexpected(n, m, standard)
  {
    unexpected := [];
    var left := reported;
    while left != {}
      invariant left <= reported
      invariant forall n :: n in unexpected <==> n in reported - left && IsUnexpected(n, m, standard)
    {
      var name :| name in left;
      left := left - {name};
      if IsUnexpected(name, m, standard) { unexpected := unexpected + [name]; }
    }
  }

  /** Compares a device read against the profile the device matched. */
  method VerifyMatch(m: MatchResult, observed: map<string, string>, standard: set<string>) returns (v: Verification)
    ensures IsVerificationOf(v, m, observed, standard)
  {
    var expected := Sort(Less, m.telemetryVariables);
    var reported := CollectReported(observed.Keys);
    var targets := CollectAliasTargets(m.telemetryAliases, reported);
    var missing := CollectMissing(expected, reported + targets);
    var unexpected := CollectUnexpected(reported, m, standard);
    SortedNames(unexpected);
    unexpected := Sort(Less, unexpected);
    v := Verification(!m.unidentified && reported != {} && missing == [], !m.unidentified && missing != [], expected, missing, unexpected);
  }

  /** Drift means a broken promise: some declared variable is neither reported nor delivered by an alias. */
  lemma DriftIsABrokenPromise(v: Verification, m: MatchResult, observed: map<string, string>, standard: set<string>)
    requires IsVerificationOf(v, m, observed, standard) && !m.unidentified
    ensures v.driftDetected <==>
            exists n :: n in m.telemetryVariables && n !in ReportedNames(observed.Keys) &&
              n !in AliasTargets(m.telemetryAliases, ReportedNames(observed.Keys))
  {
    SameElements(v.expected, m.telemetryVariables);
    if v.missing != [] {
      assert v.missing[0] in v.missing;
    }
  }
}
