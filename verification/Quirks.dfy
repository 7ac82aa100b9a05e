/** Firmware-scoped device defects: which of a profile's quirks are in force for one device. */
module Quirks {
  import opened Wrappers
  import opened GoStrings
  import opened StableSort
  import opened Profiles

  // ---- dotted versions ----

  /** The numbers of a purely dotted-numeric firmware string. */
  function ParseParts(parts: seq<string>): (r: Option<seq<nat>>)
    ensures r.Some? ==> |r.value| == |parts|
  {
    if parts == [] then Some([])
    else
      var head, tail := Atoi(parts[0]), ParseParts(parts[1..]);
      if head.None? || head.value < 0 || tail.None? then None
      else Some([head.value as nat] + tail.value)
  }

  function ParseDottedVersion(raw: string): Option<seq<nat>> {
    var trimmed := TrimSpace(raw);
    if trimmed == "" then None else ParseParts(Split(trimmed, '.'))
  }

  /** Numbers written in decimal and joined by dots read back as themselves. */
  lemma DottedReadsBack(numbers: seq<nat>)
    requires numbers != [] && forall i :: 0 <= i < |numbers| ==> numbers[i] <= MAX_INT
    ensures ParseDottedVersion(Join(Map(Decimal, numbers), '.')) == Some(numbers)
  {
    var parts := Map(Decimal, numbers);
    var raw := Join(parts, '.');
    forall i | 0 <= i < |parts| ensures '.' !in parts[i] { DecimalParses(numbers[i]); }
    SplitOfJoin(parts, '.');
    JoinEnds(parts);
    TrimKeeps(raw);
    PartsReadBack(numbers);
  }

  lemma {:induction false} PartsReadBack(numbers: seq<nat>)
    requires forall i :: 0 <= i < |numbers| ==> numbers[i] <= MAX_INT
    ensures ParseParts(Map(Decimal, numbers)) == Some(numbers)
  {
    if numbers != [] {
      DecimalParses(numbers[0]);
      PartsReadBack(numbers[1..]);
      assert Map(Decimal, numbers)[1..] == Map(Decimal, numbers[1..]);
      assert numbers == [numbers[0]] + numbers[1..];
    }
  }

  lemma {:induction false} JoinEnds(parts: seq<string>)
    requires parts != [] && forall i :: 0 <= i < |parts| ==> parts[i] != [] && forall c :: c in parts[i] ==> IsDigit(c)
    ensures var raw := Join(parts, '.'); raw != [] && IsDigit(raw[0]) && IsDigit(raw[|raw| - 1])
    ensures var raw := Join(parts, '.'); !IsSpace(raw[0]) && !IsSpace(raw[|raw| - 1])
  {
    assert parts[0][0] in parts[0];
    if |parts| > 1 {
      JoinEnds(parts[1..]);
    } else {
      assert parts[0][|parts[0]| - 1] in parts[0];
    }
  }

  /** A missing component reads as zero. */
  function Part(v: seq<nat>, i: nat): nat {
    if i < |v| then v[i] else 0
  }

  /** The versions agree before component i. */
  ghost predicate AgreeBelow(a: seq<nat>, b: seq<nat>, i: nat) {
    forall j: nat :: j < i ==> Part(a, j) == Part(b, j)
  }

  /** a is below b: they first differ at a component where a is smaller. */
  ghost predicate Below(a: seq<nat>, b: seq<nat>) {
    exists i: nat :: AgreeBelow(a, b, i) && Part(a, i) < Part(b, i)
  }

  /** Equal up to trailing zeros. */
  ghost predicate SameVersion(a: seq<nat>, b: seq<nat>) {
    forall i: nat :: Part(a, i) == Part(b, i)
  }

  /** The sign of the comparison with zero padding. */
  method CompareDottedVersions(left: seq<nat>, right: seq<nat>) returns (r: int)
    ensures r in {-1, 0, 1}
    ensures r < 0 <==> Below(left, right)
    ensures r > 0 <==> Below(right, left)
    ensures r == 0 <==> SameVersion(left, right)
  {
    var longest := if |right| > |left| then |right| else |left|;
    var i := 0;
    while i < longest
      invariant 0 <= i <= longest && AgreeBelow(left, right, i)
    {
      var l, r' := Part(left, i), Part(right, i);
      if l != r' {
        FirstDifferenceDecides(left, right, i);
        return if l < r' then -1 else 1;
      }
      i := i + 1;
    }
    assert SameVersion(left, right);
    return 0;
  }

  lemma FirstDifferenceDecides(a: seq<nat>, b: seq<nat>, i: nat)
    requires AgreeBelow(a, b, i) && Part(a, i) != Part(b, i)
    ensures Below(a, b) <==> Part(a, i) < Part(b, i)
    ensures Below(b, a) <==> Part(b, i) < Part(a, i)
    ensures !SameVersion(a, b)
  {
    if Below(a, b) {
      var k: nat :| AgreeBelow(a, b, k) && Part(a, k) < Part(b, k);
      assert k == i;
    }
    if Below(b, a) {
      var k: nat :| AgreeBelow(b, a, k) && Part(b, k) < Part(a, k);
      assert k == i;
    }
  }

  /** Any two versions are ordered one way, the other way, or equal. */
  lemma DottedTrichotomy(a: seq<nat>, b: seq<nat>)
    ensures Below(a, b) || Below(b, a) || SameVersion(a, b)
    ensures !(Below(a, b) && Below(b, a))
    ensures SameVersion(a, b) ==> !Below(a, b) && !Below(b, a)
  {
    if !SameVersion(a, b) {
      var i := FirstDifference(a, b);
      FirstDifferenceDecides(a, b, i);
    }
  }

  lemma FirstDifference(a: seq<nat>, b: seq<nat>) returns (i: nat)
    requires !SameVersion(a, b)
    ensures AgreeBelow(a, b, i) && Part(a, i) != Part(b, i)
  {
    var k: nat :| Part(a, k) != Part(b, k);
    i := 0;
    while Part(a, i) == Part(b, i)
      invariant i <= k && AgreeBelow(a, b, i)
      decreases k - i
    {
      i := i + 1;
    }
  }

  lemma BelowTransitive(a: seq<nat>, b: seq<nat>, c: seq<nat>)
    requires Below(a, b) && (Below(b, c) || SameVersion(b, c))
    ensures Below(a, c)
  {
    var i: nat :| AgreeBelow(a, b, i) && Part(a, i) < Part(b, i);
    if Below(b, c) {
      var k: nat :| AgreeBelow(b, c, k) && Part(b, k) < Part(c, k);
      var m := if i < k then i else k;
      assert AgreeBelow(a, c, m) && Part(a, m) < Part(c, m);
    } else {
      assert AgreeBelow(a, c, i) && Part(a, i) < Part(c, i);
    }
  }

  /** At or below: below, or the same version. */
  ghost predicate AtOrBelow(a: seq<nat>, b: seq<nat>) {
    Below(a, b) || SameVersion(a, b)
  }

  /** At-or-below is a total preorder, and padding with zeros never changes a version's place. */
  lemma DottedOrderIsTotalPreorder(a: seq<nat>, b: seq<nat>, c: seq<nat>, zeros: nat)
    ensures AtOrBelow(a, b) || AtOrBelow(b, a)
    ensures AtOrBelow(a, b) && AtOrBelow(b, c) ==> AtOrBelow(a, c)
    ensures SameVersion(a, a + seq(zeros, _ => 0))
    ensures Below(a + seq(zeros, _ => 0), b) <==> Below(a, b)
    ensures Below(b, a + seq(zeros, _ => 0)) <==> Below(b, a)
  {
    DottedTrichotomy(a, b);
    if Below(a, b) && AtOrBelow(b, c) { BelowTransitive(a, b, c); }
    if SameVersion(a, b) && Below(b, c) { SameThenBelow(a, b, c); }
    var padded := a + seq(zeros, _ => 0);
    assert SameVersion(a, padded);
    if Below(padded, b) { SameThenBelow(a, padded, b); }
    if Below(a, b) { SameThenBelow(padded, a, b); }
    if Below(b, padded) { BelowTransitive(b, padded, a); }
    if Below(b, a) { BelowTransitive(b, a, padded); }
  }

  lemma SameThenBelow(a: seq<nat>, b: seq<nat>, c: seq<nat>)
    requires SameVersion(a, b) && Below(b, c)
    ensures Below(a, c)
  {
    var k: nat :| AgreeBelow(b, c, k) && Part(b, k) < Part(c, k);
    assert AgreeBelow(a, c, k) && Part(a, k) < Part(c, k);
  }

  // ---- scope ----

  datatype Warning = NoWarning | QuirkFirmwareUnknown | QuirkFirmwareNotComparable

  datatype Verdict = Verdict(applies: bool, warning: Warning)

  ghost predicate MatchesFirmware(patterns: seq<string>, firmware: string, glob: Glob) {
    exists i :: 0 <= i < |patterns| && patterns[i] != "" && glob(patterns[i], firmware).Matched?
  }

  ghost predicate Unscoped(q: Quirk) {
    q.firmware.None? || (q.firmware.value.matches == [] && q.firmware.value.below == "")
  }

  /** A quirk is in force: it has no scope, the firmware is unknown, a pattern matches, or the firmware is
      below the bound or cannot be placed against it. */
  ghost predicate InForce(firmware: string, q: Quirk, glob: Glob) {
    || Unscoped(q)
    || firmware == ""
    || MatchesFirmware(q.firmware.value.matches, firmware, glob)
    || (q.firmware.value.below != "" && UnderBound(firmware, q.firmware.value.below))
  }

  method AnyPatternMatches(patterns: seq<string>, firmware: string, glob: Glob) returns (r: bool)
    ensures r <==> MatchesFirmware(patterns, firmware, glob)
  {
    for i := 0 to |patterns|
      invariant forall j :: 0 <= j < i ==> patterns[j] == "" || !glob(patterns[j], firmware).Matched?
    {
      if patterns[i] != "" && glob(patterns[i], firmware).Matched? { return true; }
    }
    return false;
  }

  /** The firmware is below the bound, or one of the two is not dotted-numeric. */
  ghost predicate UnderBound(firmware: string, below: string) {
    var device, bound := ParseDottedVersion(firmware), ParseDottedVersion(below);
    device.None? || bound.None? || Below(device.value, bound.value)
  }

  method CheckBound(firmware: string, below: string) returns (v: Verdict)
    ensures v.applies <==> UnderBound(firmware, below)
    ensures v.warning.QuirkFirmwareNotComparable? <==> ParseDottedVersion(firmware).None? || ParseDottedVersion(below).None?
    ensures !v.warning.QuirkFirmwareUnknown?
  {
    var device, bound := ParseDottedVersion(firmware), ParseDottedVersion(below);
    if device.None? || bound.None? { return Verdict(true, QuirkFirmwareNotComparable); }
    var c := CompareDottedVersions(device.value, bound.value);
    return Verdict(c < 0, NoWarning);
  }

  method QuirkAppliesToFirmware(firmware: string, q: Quirk, glob: Glob) returns (v: Verdict)
    ensures v.applies <==> InForce(firmware, q, glob)
    ensures v.warning.QuirkFirmwareUnknown? <==> !Unscoped(q) && firmware == ""
    ensures v.warning.QuirkFirmwareNotComparable? <==>
            && !Unscoped(q) && firmware != "" && !MatchesFirmware(q.firmware.value.matches, firmware, glob)
            && q.firmware.value.below != ""
            && (ParseDottedVersion(firmware).None? || ParseDottedVersion(q.firmware.value.below).None?)
  {
    if q.firmware.None? { return Verdict(true, NoWarning); }
    var scope := q.firmware.value;
    if scope.matches == [] && scope.below == "" { return Verdict(true, NoWarning); }
    if firmware == "" { return Verdict(true, QuirkFirmwareUnknown); }
    var matched := AnyPatternMatches(scope.matches, firmware, glob);
    if matched { return Verdict(true, NoWarning); }
    if scope.below == "" { return Verdict(false, NoWarning); }
    v := CheckBound(firmware, scope.below);
  }

  /** The names of the named quirks in force, before sorting. */
  ghost function NamesInForce(firmware: string, quirks: seq<Quirk>, glob: Glob): seq<string> {
    if quirks == [] then []
    else
      var q := quirks[|quirks| - 1];
      NamesInForce(firmware, quirks[..|quirks| - 1], glob) + if q.name != "" && InForce(firmware, q, glob) then [q.name] else []
  }

  /** The sorted names of the quirks in force for a device. */
  method ResolveQuirks(firmware: string, quirks: seq<Quirk>, glob: Glob) returns (names: seq<string>)
    ensures names == Sort(Less, NamesInForce(firmware, quirks, glob))
  {
    names := [];
    for i := 0 to |quirks|
      invariant names == NamesInForce(firmware, quirks[..i], glob)
    {
      assert quirks[..i + 1][..i] == quirks[..i];
      if quirks[i].name != "" {
        var v := QuirkAppliesToFirmware(firmware, quirks[i], glob);
        if v.applies { names := names + [quirks[i].name]; }
      }
    }
    assert quirks[..|quirks|] == quirks;
    names := Sort(Less, names);
  }

  lemma {:induction false} NamedInForce(firmware: string, quirks: seq<Quirk>, glob: Glob, name: string)
    ensures name in NamesInForce(firmware, quirks, glob) <==>
            name != "" && exists q :: q in quirks && q.name == name && InForce(firmware, q, glob)
  {
    if quirks != [] {
      var front, last := quirks[..|quirks| - 1], quirks[|quirks| - 1];
      NamedInForce(firmware, front, glob, name);
      assert quirks == front + [last];
    }
  }

  /** What is resolved: exactly the names of quirks in force. */
  lemma ResolvedExactly(firmware: string, quirks: seq<Quirk>, glob: Glob, name: string)
    ensures name in Sort(Less, NamesInForce(firmware, quirks, glob)) <==>
            name != "" && exists q :: q in quirks && q.name == name && InForce(firmware, q, glob)
  {
    SameElements(Sort(Less, NamesInForce(firmware, quirks, glob)), NamesInForce(firmware, quirks, glob));
    NamedInForce(firmware, quirks, glob, name);
  }

  lemma PatternScope(name: string, pattern: string, firmware: string, glob: Glob)
    requires firmware != "" && pattern != ""
    ensures InForce(firmware, Quirk(name, Some(QuirkFirmware([pattern], ""))), glob) <==> glob(pattern, firmware).Matched?
  {
    var patterns := [pattern];
    assert patterns[0] == pattern;
  }

  /** A quirk of a known firmware scoped by one pattern is in force exactly when the pattern matches, and one scoped by
      a bound exactly when the firmware is numerically below it. */
  lemma ScopeMeans(name: string, pattern: string, firmware: seq<nat>, bound: seq<nat>, glob: Glob, f: string, b: string)
    requires firmware != [] && bound != [] && (forall i :: 0 <= i < |firmware| ==> firmware[i] <= MAX_INT)
    requires (forall i :: 0 <= i < |bound| ==> bound[i] <= MAX_INT) && pattern != ""
    requires f == Join(Map(Decimal, firmware), '.') && b == Join(Map(Decimal, bound), '.')
    ensures InForce(f, Quirk(name, Some(QuirkFirmware([pattern], ""))), glob) <==> glob(pattern, f).Matched?
    ensures InForce(f, Quirk(name, Some(QuirkFirmware([], b))), glob) <==> Below(firmware, bound)
  {
    DottedReadsBack(firmware);
    DottedReadsBack(bound);
    BoundScope(name, f, b, glob);
    PatternScope(name, pattern, f, glob);
  }

  lemma BoundScope(name: string, firmware: string, below: string, glob: Glob)
    requires ParseDottedVersion(firmware).Some? && ParseDottedVersion(below).Some?
    ensures firmware != ""
    ensures InForce(firmware, Quirk(name, Some(QuirkFirmware([], below))), glob) <==>
            Below(ParseDottedVersion(firmware).value, ParseDottedVersion(below).value)
  {
    ComparableIsNotEmpty(firmware);
    ComparableIsNotEmpty(below);
  }

  lemma ComparableIsNotEmpty(raw: string)
    requires ParseDottedVersion(raw).Some?
    ensures raw != ""
  {
  }

  /** A quirk scoped only by a bound that afflicts one comparable firmware afflicts every comparable
      firmware at or under it, so a fix never reverts below the bound. */
  lemma BoundIsDownwardClosed(older: string, newer: string, q: Quirk, glob: Glob)
    requires q.firmware.Some? && q.firmware.value.matches == [] && q.firmware.value.below != ""
    requires ParseDottedVersion(older).Some? && ParseDottedVersion(newer).Some?
    requires AtOrBelow(ParseDottedVersion(older).value, ParseDottedVersion(newer).value)
    requires InForce(newer, q, glob)
    ensures InForce(older, q, glob)
  {
    if ParseDottedVersion(q.firmware.value.below).Some? {
      var o, n, b := ParseDottedVersion(older).value, ParseDottedVersion(newer).value, ParseDottedVersion(q.firmware.value.below).value;
      assert Below(n, b);
      if Below(o, n) { BelowTransitive(o, n, b); } else { SameThenBelow(o, n, b); }
    }
  }

  /** A device that reports no firmware carries every quirk any firmware would carry, as often. */
  lemma {:induction false} UnknownFirmwareCarriesAll(firmware: string, quirks: seq<Quirk>, glob: Glob)
    ensures multiset(Sort(Less, NamesInForce(firmware, quirks, glob))) <= multiset(Sort(Less, NamesInForce("", quirks, glob)))
  {
    if quirks != [] {
      UnknownFirmwareCarriesAll(firmware, quirks[..|quirks| - 1], glob);
    }
  }

  // ---- declarations ----

  ghost predicate ValidScope(f: QuirkFirmware, glob: Glob) {
    && (forall i :: 0 <= i < |f.matches| ==> !glob(f.matches[i], "probe").BadPattern?)
    && (f.below != "" ==> ParseDottedVersion(f.below).Some?)
  }

  ghost predicate ValidQuirk(q: Quirk, glob: Glob) {
    q.name != "" && (q.firmware.Some? ==> ValidScope(q.firmware.value, glob))
  }

  function NameOf(q: Quirk): string {
    q.name
  }

  /** Every quirk is evaluable and no two share a name. */
  ghost predicate ValidQuirks(quirks: seq<Quirk>, glob: Glob) {
    Distinct(Map(NameOf, quirks)) && forall q :: q in quirks ==> ValidQuirk(q, glob)
  }

  lemma RepeatedName(quirks: seq<Quirk>, glob: Glob, i: nat, j: nat)
    requires j < i < |quirks| && quirks[j].name == quirks[i].name
    ensures !ValidQuirks(quirks, glob)
  {
    var names := Map(NameOf, quirks);
    assert names[j] == names[i];
  }

  lemma FreshNames(quirks: seq<Quirk>, glob: Glob)
    requires forall j :: 0 <= j < |quirks| ==> ValidQuirk(quirks[j], glob)
    requires forall j, k :: 0 <= j < k < |quirks| ==> quirks[j].name != quirks[k].name
    ensures ValidQuirks(quirks, glob)
  {
    var names := Map(NameOf, quirks);
    forall j, k | 0 <= j < k < |names| ensures names[j] != names[k] {
      assert quirks[j].name != quirks[k].name;
    }
  }

  lemma InvalidMember(quirks: seq<Quirk>, glob: Glob, i: nat)
    requires i < |quirks| && !ValidQuirk(quirks[i], glob)
    ensures !ValidQuirks(quirks, glob)
  {
    assert quirks[i] in quirks;
  }

  /** The first n quirks are evaluable and no two of them share a name. */
  ghost predicate FreshUpTo(quirks: seq<Quirk>, n: nat, glob: Glob)
    requires n <= |quirks|
  {
    && (forall j :: 0 <= j < n ==> ValidQuirk(quirks[j], glob))
    && (forall j, k :: 0 <= j < k < n ==> quirks[j].name != quirks[k].name)
  }

  ghost predicate NameBefore(quirks: seq<Quirk>, n: nat, name: string)
    requires n <= |quirks|
  {
    exists j :: 0 <= j < n && quirks[j].name == name
  }

  /** What the check knows after n quirks: the names it has seen, and whether it has found an error. */
  ghost predicate CheckedUpTo(quirks: seq<Quirk>, n: nat, glob: Glob, seen: set<string>, clean: bool)
    requires n <= |quirks|
  {
    && (forall name :: name in seen <==> name != "" && NameBefore(quirks, n, name))
    && (if clean then FreshUpTo(quirks, n, glob) else !ValidQuirks(quirks, glob))
  }

  lemma SeenNext(quirks: seq<Quirk>, n: nat, name: string)
    requires n < |quirks|
    ensures NameBefore(quirks, n + 1, name) <==> NameBefore(quirks, n, name) || quirks[n].name == name
  {
  }

  lemma FreshNext(quirks: seq<Quirk>, n: nat, glob: Glob)
    requires n < |quirks| && FreshUpTo(quirks, n, glob) && ValidQuirk(quirks[n], glob) && !NameBefore(quirks, n, quirks[n].name)
    ensures FreshUpTo(quirks, n + 1, glob)
  {
  }

  lemma CheckedNext(quirks: seq<Quirk>, n: nat, glob: Glob, seen: set<string>, clean: bool)
    requires n < |quirks| && CheckedUpTo(quirks, n, glob, seen, clean)
    ensures var q := quirks[n];
            CheckedUpTo(quirks, n + 1, glob, if q.name != "" then seen + {q.name} else seen,
                        clean && ValidQuirk(q, glob) && !(q.name != "" && q.name in seen))
  {
    forall name ensures NameBefore(quirks, n + 1, name) <==> NameBefore(quirks, n, name) || quirks[n].name == name {
      SeenNext(quirks, n, name);
    }
    if !ValidQuirk(quirks[n], glob) {
      InvalidMember(quirks, glob, n);
    } else if NameBefore(quirks, n, quirks[n].name) {
      var j :| 0 <= j < n && quirks[j].name == quirks[n].name;
      RepeatedName(quirks, glob, n, j);
    } else if clean {
      FreshNext(quirks, n, glob);
    }
  }

  /** Reports every quirk scope that cannot be evaluated; only errors are reported. */
  method ValidateQuirkDeclarations(quirks: seq<Quirk>, glob: Glob) returns (errors: seq<string>)
    ensures errors == [] <==> ValidQuirks(quirks, glob)
  {
    errors := [];
    var seen: set<string> := {};
    for i := 0 to |quirks|
      invariant CheckedUpTo(quirks, i, glob, seen, errors == [])
    {
      CheckedNext(quirks, i, glob, seen, errors == []);
      var q := quirks[i];
      if q.name != "" && q.name in seen {
        errors := errors + ["DuplicateQuirk"];
      }
      if q.name != "" { seen := seen + {q.name}; }
      var own := QuirkErrors(q, glob);
      errors := errors + own;
    }
    if errors == [] { FreshNames(quirks, glob); }
  }

  method QuirkErrors(q: Quirk, glob: Glob) returns (errors: seq<string>)
    ensures errors == [] <==> ValidQuirk(q, glob)
  {
    errors := [];
    if q.name == "" { return ["QuirkNameRequired"]; }
    if q.firmware.Some? { errors := ScopeErrors(q.firmware.value, glob); }
  }

  ghost predicate PatternsUpTo(matches: seq<string>, n: nat, glob: Glob)
    requires n <= |matches|
  {
    forall j :: 0 <= j < n ==> !glob(matches[j], "probe").BadPattern?
  }

  method ScopeErrors(f: QuirkFirmware, glob: Glob) returns (errors: seq<string>)
    ensures errors == [] <==> ValidScope(f, glob)
  {
    errors := [];
    for i := 0 to |f.matches|
      invariant errors == [] <==> PatternsUpTo(f.matches, i, glob)
    {
      if glob(f.matches[i], "probe").BadPattern? { errors := errors + ["InvalidQuirkFirmwareGlob"]; }
    }
    assert errors == [] <==> PatternsUpTo(f.matches, |f.matches|, glob);
    if f.below != "" && ParseDottedVersion(f.below).None? { errors := errors + ["InvalidQuirkFirmwareBound"]; }
  }
}
