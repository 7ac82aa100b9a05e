/** Turning one device read into a proposed profile. */
module Draft {
  import opened Wrappers
  import opened GoStrings
  import opened StableSort
  import opened Profiles
  import opened ProfileMatch

  // ---- variable names ----

  const STANDARD: set<string> := {
    "ambient.humidity", "ambient.temperature",
    "battery.charge", "battery.charge.low", "battery.charge.restart", "battery.charge.warning", "battery.current",
    "battery.date", "battery.mfr.date", "battery.packs", "battery.runtime", "battery.runtime.low",
    "battery.temperature", "battery.type", "battery.voltage", "battery.voltage.high", "battery.voltage.low",
    "battery.voltage.nominal",
    "device.mfr", "device.model", "device.serial", "device.type",
    "driver.name", "driver.version", "driver.version.data", "driver.version.internal",
    "input.current", "input.frequency", "input.frequency.nominal", "input.sensitivity", "input.transfer.high",
    "input.transfer.low", "input.transfer.reason", "input.voltage", "input.voltage.maximum", "input.voltage.minimum",
    "input.voltage.nominal",
    "outlet.count", "outlet.switchable",
    "output.current", "output.current.nominal", "output.frequency", "output.frequency.nominal", "output.power",
    "output.power.nominal", "output.voltage", "output.voltage.nominal",
    "ups.beeper.status", "ups.delay.shutdown", "ups.delay.start", "ups.firmware", "ups.firmware.aux", "ups.id",
    "ups.load", "ups.load.high", "ups.mfr", "ups.mfr.date", "ups.model", "ups.power", "ups.power.nominal",
    "ups.productid", "ups.realpower", "ups.realpower.nominal", "ups.serial", "ups.shutdown", "ups.start.auto",
    "ups.status", "ups.temperature", "ups.test.date", "ups.test.interval", "ups.test.result", "ups.timer.reboot",
    "ups.timer.shutdown", "ups.timer.start", "ups.type", "ups.vendorid"
  }

  /** Names that describe the driver rather than the product. */
  predicate IsDriverVariable(name: string) {
    "driver." <= name
  }

  /** The canonical names worth recovering from a non-standard one. */
  const TARGETS: seq<string> := ["battery.charge", "battery.charge.low", "battery.runtime", "ups.load", "ups.status"]

  /** The names a draft and a verification go by: the standard ones, and the canonical ones worth recovering. */
  datatype Vocabulary = Vocabulary(standard: set<string>, targets: seq<string>)

  const NUT := Vocabulary(STANDARD, TARGETS)

  /** Targets are distinct standard names. */
  ghost predicate Coherent(v: Vocabulary) {
    && (forall i :: 0 <= i < |v.targets| ==> v.targets[i] in v.standard && v.targets[i] != "")
    && Distinct(v.targets)
  }

  lemma NutIsCoherent()
    ensures Coherent(NUT)
  {
    forall i, j | 0 <= i < j < |TARGETS| ensures TARGETS[i] != TARGETS[j] { TargetsAreDistinct(i, j); }
  }

  lemma TargetsAreDistinct(i: nat, j: nat)
    requires i < j < |TARGETS|
    ensures TARGETS[i] != TARGETS[j]
  {
    assert |TARGETS[0]| == 14 && |TARGETS[1]| == 18 && |TARGETS[2]| == 15 && |TARGETS[3]| == 8 && |TARGETS[4]| == 10;
  }

  // ---- short forms ----

  function ExpandSegment(segment: string): string {
    if segment == "batt" || segment == "bat" then "battery"
    else if segment == "pct" || segment == "percent" then "charge"
    else if segment == "stat" then "status"
    else segment
  }

  function ExpandShortForms(name: string): string {
    Join(Map(ExpandSegment, Split(name, '.')), '.')
  }

  /** The short forms, and that nothing else is changed. */
  lemma ShortForms(segment: string)
    ensures ExpandSegment("batt") == ExpandSegment("bat") == "battery"
    ensures ExpandSegment("pct") == ExpandSegment("percent") == "charge"
    ensures ExpandSegment("stat") == "status"
    ensures segment !in {"batt", "bat", "pct", "percent", "stat"} ==> ExpandSegment(segment) == segment
  {
    assert |"batt"| == 4 && |"bat"| == 3 && |"pct"| == 3 && |"percent"| == 7 && |"stat"| == 4;
    assert "bat"[0] == 'b' && "pct"[0] == 'p' && "batt"[0] == 'b' && "stat"[0] == 's';
  }

  /** The segments compared are the expanded segments of the reported name. */
  lemma SegmentsOfExpanded(name: string)
    ensures Split(ExpandShortForms(name), '.') == Map(ExpandSegment, Split(name, '.'))
  {
    SplitPieces(name, '.');
    SplitOfJoin(Map(ExpandSegment, Split(name, '.')), '.');
  }

  /** A strictly increasing choice of positions in ys that spells xs. */
  ghost predicate Embeds(f: seq<nat>, xs: seq<string>, ys: seq<string>) {
    && |f| == |xs|
    && (forall i :: 0 <= i < |f| ==> f[i] < |ys| && ys[f[i]] == xs[i])
    && (forall i, j :: 0 <= i < j < |f| ==> f[i] < f[j])
  }

  ghost predicate Subsequence(xs: seq<string>, ys: seq<string>) {
    exists f :: Embeds(f, xs, ys)
  }

  /** A reported name abbreviates a canonical one: same first segment, all segments in order. */
  ghost predicate Abbreviates(reported: string, canonical: string) {
    var xs, ys := Map(ExpandSegment, Split(reported, '.')), Split(canonical, '.');
    xs[0] == ys[0] && Subsequence(xs, ys)
  }

  lemma {:induction false} EmbeddingFits(f: seq<nat>, xs: seq<string>, ys: seq<string>)
    requires Embeds(f, xs, ys)
    ensures |xs| <= |ys|
    ensures forall i :: 0 <= i < |f| ==> i <= f[i]
  {
    if |f| > 0 {
      var n := |f| - 1;
      assert Embeds(f[..n], xs[..n], ys);
      EmbeddingFits(f[..n], xs[..n], ys);
      if n > 0 { assert f[..n][n - 1] == f[n - 1] && f[n - 1] < f[n]; }
      forall i | 0 <= i < |f| ensures i <= f[i] {
        if i < n { assert f[..n][i] == f[i]; }
      }
      assert n <= f[n] < |ys|;
    }
  }

  lemma EmbedsSnoc(f: seq<nat>, xs: seq<string>, ys: seq<string>, at: nat, x: string)
    requires Embeds(f, xs, ys) && at < |ys| && ys[at] == x
    requires f == [] || f[|f| - 1] < at
    ensures Embeds(f + [at], xs + [x], ys)
  {
  }

  lemma EmbedsFront(f: seq<nat>, xs: seq<string>, ys: seq<string>, n: nat)
    requires Embeds(f, xs, ys) && n <= |xs|
    ensures Embeds(f[..n], xs[..n], ys)
  {
  }

  /** Every embedding of the first n segments reaches at least as far as the greedy scan. */
  ghost predicate GreedyIsLeast(xs: seq<string>, ys: seq<string>, n: nat, next: nat)
    requires n <= |xs|
  {
    forall f :: Embeds(f, xs[..n], ys) ==> n == 0 || f[n - 1] + 1 >= next
  }

  lemma EmbeddingReaches(f: seq<nat>, xs: seq<string>, ys: seq<string>, n: nat, next: nat)
    requires n < |xs| && GreedyIsLeast(xs, ys, n, next) && (n == 0 ==> next == 0) && Embeds(f, xs, ys)
    ensures next <= f[n] < |ys| && ys[f[n]] == xs[n]
  {
    EmbedsFront(f, xs, ys, n);
    if n > 0 { assert f[..n][n - 1] == f[n - 1] && f[n - 1] < f[n]; }
  }

  lemma GreedyStuck(xs: seq<string>, ys: seq<string>, n: nat, next: nat)
    requires n < |xs| && GreedyIsLeast(xs, ys, n, next) && (n == 0 ==> next == 0)
    requires forall k :: next <= k < |ys| ==> ys[k] != xs[n]
    ensures !Subsequence(xs, ys)
  {
    if f :| Embeds(f, xs, ys) {
      EmbeddingReaches(f, xs, ys, n, next);
      assert false;
    }
  }

  lemma TooLong(xs: seq<string>, ys: seq<string>)
    requires |xs| > |ys|
    ensures !Subsequence(xs, ys)
  {
    if f :| Embeds(f, xs, ys) {
      EmbeddingFits(f, xs, ys);
      assert false;
    }
  }

  lemma GreedyAdvances(xs: seq<string>, ys: seq<string>, n: nat, next: nat, at: nat)
    requires n < |xs| && GreedyIsLeast(xs, ys, n, next) && (n == 0 ==> next == 0)
    requires next <= at < |ys| && ys[at] == xs[n] && forall k :: next <= k < at ==> ys[k] != xs[n]
    ensures GreedyIsLeast(xs, ys, n + 1, at + 1)
  {
    assert xs[..n + 1][..n] == xs[..n];
    forall f | Embeds(f, xs[..n + 1], ys) ensures f[n] + 1 >= at + 1 {
      EmbeddingReaches(f, xs[..n + 1], ys, n, next);
    }
  }

  /** The first position from `next` on that holds `segment`, or the end. */
  method FindFrom(ys: seq<string>, segment: string, next: nat) returns (at: nat)
    requires next <= |ys|
    ensures next <= at <= |ys| && (at < |ys| ==> ys[at] == segment)
    ensures forall k :: next <= k < at ==> ys[k] != segment
  {
    at := next;
    while at < |ys| && ys[at] != segment
      invariant next <= at <= |ys|
      invariant forall k :: next <= k < at ==> ys[k] != segment
    {
      at := at + 1;
    }
  }

  /** The greedy scan finds an embedding exactly when there is one. */
  method GreedyScan(xs: seq<string>, ys: seq<string>) returns (r: bool)
    ensures r <==> Subsequence(xs, ys)
  {
    var next := 0;
    ghost var f: seq<nat> := [];
    for n := 0 to |xs|
      invariant next <= |ys| && (n == 0 ==> next == 0)
      invariant Embeds(f, xs[..n], ys) && (n > 0 ==> f[n - 1] + 1 == next)
      invariant GreedyIsLeast(xs, ys, n, next)
    {
      var at := FindFrom(ys, xs[n], next);
      if at == |ys| {
        GreedyStuck(xs, ys, n, next);
        return false;
      }
      GreedyAdvances(xs, ys, n, next, at);
      EmbedsSnoc(f, xs[..n], ys, at, xs[n]);
      assert xs[..n] + [xs[n]] == xs[..n + 1];
      f := f + [at];
      next := at + 1;
    }
    assert xs[..|xs|] == xs;
    return true;
  }

  /** The scan of the expanded segments decides abbreviation exactly. */
  method PlausibleAlias(reported: string, canonical: string) returns (r: bool)
    ensures r <==> Abbreviates(reported, canonical)
  {
    SegmentsOfExpanded(reported);
    var xs, ys := Split(ExpandShortForms(reported), '.'), Split(canonical, '.');
    if |xs| > |ys| {
      TooLong(xs, ys);
      return false;
    }
    if xs[0] != ys[0] { return false; }
    r := GreedyScan(xs, ys);
  }

  // ---- alias suggestions ----

  ghost predicate OneToOne(m: map<string, string>) {
    forall a, b :: a in m && b in m && a != b ==> m[a] != m[b]
  }

  /** Every suggestion maps a non-standard name onto an unreported target it abbreviates, no target twice,
      and a target is left unserved only when every name that could carry it is taken. */
  ghost predicate GoodSuggestions(m: map<string, string>, targets: seq<string>, reported: set<string>, nonStandard: seq<string>) {
    && (forall a :: a in m ==> a in nonStandard && m[a] in targets && m[a] !in reported && Abbreviates(a, m[a]))
    && OneToOne(m)
    && (forall t, a :: t in targets && t !in reported && t !in m.Values && a in nonStandard && Abbreviates(a, t) ==> a in m)
  }

  /** The first name not yet taken that abbreviates the target. */
  method FindCarrier(target: string, taken: set<string>, nonStandard: seq<string>) returns (r: Option<string>)
    ensures r.Some? ==> r.value in nonStandard && r.value !in taken && Abbreviates(r.value, target)
    ensures r.None? ==> forall a :: a in nonStandard && Abbreviates(a, target) ==> a in taken
  {
    for i := 0 to |nonStandard|
      invariant forall j :: 0 <= j < i && Abbreviates(nonStandard[j], target) ==> nonStandard[j] in taken
    {
      if nonStandard[i] !in taken {
        var plausible := PlausibleAlias(nonStandard[i], target);
        if plausible { return Some(nonStandard[i]); }
      }
    }
    return None;
  }

  lemma SuggestOneMore(m: map<string, string>, targets: seq<string>, target: string, reported: set<string>, nonStandard: seq<string>, carrier: string)
    requires GoodSuggestions(m, targets, reported, nonStandard)
    requires target !in targets && target !in reported && carrier in nonStandard && carrier !in m && Abbreviates(carrier, target)
    ensures GoodSuggestions(m[carrier := target], targets + [target], reported, nonStandard)
  {
    var m' := m[carrier := target];
    forall a | a in m' ensures a in nonStandard && m'[a] in targets + [target] && m'[a] !in reported && Abbreviates(a, m'[a]) {
      if a != carrier { assert m'[a] == m[a]; }
    }
    forall t | t in m.Values ensures t in m'.Values {
      var a :| a in m && m[a] == t;
      assert m'[a] == t;
    }
    assert m'[carrier] == target;
  }

  /** Serves the targets in order, each with the first free name that abbreviates it. */
  method SuggestAliases(targets: seq<string>, reported: set<string>, nonStandard: seq<string>) returns (m: map<string, string>)
    requires Distinct(targets)
    ensures GoodSuggestions(m, targets, reported, nonStandard)
  {
    m := map[];
    for i := 0 to |targets|
      invariant GoodSuggestions(m, targets[..i], reported, nonStandard)
    {
      assert targets[..i + 1] == targets[..i] + [targets[i]];
      if targets[i] !in reported {
        var carrier := FindCarrier(targets[i], m.Keys, nonStandard);
        if carrier.Some? {
          SuggestOneMore(m, targets[..i], targets[i], reported, nonStandard, carrier.value);
          m := m[carrier.value := targets[i]];
        }
      }
    }
    assert targets[..|targets|] == targets;
  }

  /** Suggested aliases never fail alias validation. */
  lemma SuggestionsAreValid(m: map<string, string>, v: Vocabulary, reported: set<string>, nonStandard: seq<string>)
    requires Coherent(v) && GoodSuggestions(m, v.targets, reported, nonStandard)
    requires forall a :: a in nonStandard ==> a != "" && a !in v.standard
    ensures ValidAliases(m)
  {
    forall a | a in m ensures a != "" && m[a] != "" && a != m[a] {
      assert m[a] in v.targets;
    }
  }
}
