/** Whether a plan whose budget is recomputed before every wave keeps the reserve of its first budget. */
module PlanReserve {
  import opened Wrappers
  import opened AdaptiveParameters
  import opened TimingBudget

  /** The declared durations of the waves. */
  function Declared(waves: seq<Wave>): (r: seq<int>)
    ensures |r| == |waves| && forall i :: 0 <= i < |r| ==> r[i] == waves[i].declared
  {
    seq(|waves|, i requires 0 <= i < |waves| => waves[i].declared)
  }

  function Total(plan: seq<nat>): nat {
    if plan == [] then 0 else plan[0] + Total(plan[1..])
  }

  lemma {:induction false} RemainingIsTotal(waves: seq<Wave>, plan: seq<nat>)
    requires Declared(waves) == plan
    ensures Remaining(waves) == Total(plan)
  {
    if waves != [] {
      assert Declared(waves[1..]) == plan[1..];
      RemainingIsTotal(waves[1..], plan[1..]);
    }
  }

  /** A disciplined run of a plan from a first reading. */
  ghost predicate RunOf(p: Parameters, o: PowerObservation, plan: seq<nat>, readings: seq<PowerObservation>, waves: seq<Wave>) {
    Disciplined(p, readings, waves) && readings[0] == o && Declared(waves) == plan
  }

  /** In every disciplined run the runtime figure never falls below `bound`. */
  ghost predicate StaysAbove(p: Parameters, o: PowerObservation, plan: seq<nat>, bound: real) {
    forall readings, waves, k :: RunOf(p, o, plan, readings, waves) && 0 <= k < |readings| ==>
      RuntimeFigure(p, readings[k]) as real >= bound
  }

  ghost predicate KeepsReserve(p: Parameters, o: PowerObservation, plan: seq<nat>) {
    StaysAbove(p, o, plan, Reserve(p, o))
  }

  /** A plan on battery that fits at its first reading, under filled parameters that leave something available. */
  ghost predicate Fitting(p: Parameters, r: int, plan: seq<nat>) {
    && Filled(p) && p.reserveFraction < 1.0 && r > 0
    && Fits(Kept(r, p.reserveFraction), Total(plan), p.minimumCompression)
  }

  // ---- the worst run ----

  /** Readings report whole seconds, or stand for the assumed runtime. */
  predicate Attainable(p: Parameters, figure: int) {
    figure % SECOND == 0 || figure == p.assumedRuntimeUnknown
  }

  function CeilSecond(x: int): (r: int)
    ensures x <= r < x + SECOND && r % SECOND == 0
    ensures forall y :: y % SECOND == 0 && y >= x ==> y >= r
  {
    assert forall y :: y % SECOND == 0 && y >= x ==> y / SECOND >= (x + SECOND - 1) / SECOND;
    (x + SECOND - 1) / SECOND * SECOND
  }

  /** The lowest figure a reading can give that is not below `x`. */
  function Lowest(p: Parameters, x: int): (r: int)
    ensures x <= r < x + SECOND && Attainable(p, r)
    ensures forall y :: Attainable(p, y) && y >= x ==> y >= r
  {
    var s := CeilSecond(x);
    if x <= p.assumedRuntimeUnknown < s then p.assumedRuntimeUnknown else s
  }

  function ReadingOf(p: Parameters, figure: int): (o: PowerObservation)
    requires Attainable(p, figure)
    ensures !o.OnMains() && RuntimeFigure(p, o) == figure
  {
    if figure % SECOND == 0 then OnBatteryReading(figure / SECOND)
    else PowerObservation(true, false, None, false)
  }

  /** What the first wave of a plan may take. */
  function Allowance(p: Parameters, r: int, plan: seq<nat>): int
    requires plan != []
  {
    Scaled(plan[0], Compression(Kept(r, p.reserveFraction), Total(plan), p.minimumCompression))
  }

  /** The lowest figure after the first wave. */
  function StepDown(p: Parameters, r: int, plan: seq<nat>): int
    requires plan != []
  {
    Lowest(p, r - Allowance(p, r, plan))
  }

  /** The figure after a run in which every wave takes its whole allowance and every reading is the lowest it
      can be: what a caller can compute before the first wave. */
  function Worst(p: Parameters, r: int, plan: seq<nat>): int
    decreases plan
  {
    if plan == [] then r else Worst(p, StepDown(p, r, plan), plan[1..])
  }

  lemma KeptIsNonNegative(r: int, rho: real)
    requires r >= 0 && rho < 1.0
    ensures Kept(r, rho) == (r as real * (1.0 - rho)).Floor >= 0
  {
    Scale(0.0, r as real, 1.0 - rho);
  }

  lemma AllowanceIsAvailable(a: int, d: nat, rest: nat, least: real)
    requires a >= 0 && least > 0.0 && Fits(a, d + rest, least)
    ensures 0 <= Scaled(d, Compression(a, d + rest, least)) <= a
  {
    ScaledShortens(d, Compression(a, d + rest, least));
    if d + rest > 0 { WaveKeepsRatio(a, a, d, rest, Scaled(d, Compression(a, d + rest, least)), least); }
  }

  /** One wave of the worst run leaves runtime, no less than the reserve's share of what there was. */
  lemma StepLeavesRuntime(p: Parameters, r: int, plan: seq<nat>)
    requires Fitting(p, r, plan) && plan != []
    ensures var r' := StepDown(p, r, plan);
            && r' > 0 && r' as real >= p.reserveFraction * r as real
            && 0 <= Allowance(p, r, plan) && Kept(r', p.reserveFraction) >= Kept(r, p.reserveFraction) - Allowance(p, r, plan)
  {
    KeptIsNonNegative(r, p.reserveFraction);
    AllowanceIsAvailable(Kept(r, p.reserveFraction), plan[0], Total(plan[1..]), p.minimumCompression);
    LowestLeavesRuntime(p, r, Allowance(p, r, plan));
  }

  lemma LowestLeavesRuntime(p: Parameters, r: int, t: int)
    requires 0.0 < p.reserveFraction < 1.0 && r > 0 && 0 <= t <= Kept(r, p.reserveFraction)
    ensures var r' := Lowest(p, r - t);
            && r' > 0 && r' as real >= p.reserveFraction * r as real
            && Kept(r', p.reserveFraction) >= Kept(r, p.reserveFraction) - t
  {
    var r' := Lowest(p, r - t);
    AvailableKeepsReserve(r, r', t, p.reserveFraction);
    AvailableFallsByTimeSpent(r, r', t, p.reserveFraction);
  }

  /** One wave of the worst run: the plan still fits, and is compressed no harder. */
  lemma StepKeepsFitting(p: Parameters, r: int, plan: seq<nat>)
    requires Fitting(p, r, plan) && plan != []
    ensures var r' := StepDown(p, r, plan);
            && Fitting(p, r', plan[1..])
            && Compression(Kept(r', p.reserveFraction), Total(plan[1..]), p.minimumCompression) >=
               Compression(Kept(r, p.reserveFraction), Total(plan), p.minimumCompression)
  {
    var r', rho, least := StepDown(p, r, plan), p.reserveFraction, p.minimumCompression;
    StepLeavesRuntime(p, r, plan);
    if Total(plan) > 0 {
      WaveKeepsRatio(Kept(r, rho), Kept(r', rho), plan[0], Total(plan[1..]), Allowance(p, r, plan), least);
    }
  }

  lemma StepFalls(p: Parameters, r: int, plan: seq<nat>)
    requires Attainable(p, r) && plan != []
    ensures Attainable(p, StepDown(p, r, plan)) && StepDown(p, r, plan) <= r
  {
    ScaledShortens(plan[0], Compression(Kept(r, p.reserveFraction), Total(plan), p.minimumCompression));
  }

  lemma {:induction false} WorstFalls(p: Parameters, r: int, plan: seq<nat>)
    requires Attainable(p, r)
    ensures Worst(p, r, plan) <= r
    decreases plan
  {
    if plan != [] {
      StepFalls(p, r, plan);
      WorstFalls(p, StepDown(p, r, plan), plan[1..]);
    }
  }

  // ---- the worst run is a run, and no run goes lower ----

  lemma {:induction false} WorstIsAttained(p: Parameters, o: PowerObservation, plan: seq<nat>)
    returns (readings: seq<PowerObservation>, waves: seq<Wave>)
    requires !o.OnMains() && Fitting(p, RuntimeFigure(p, o), plan)
    ensures RunOf(p, o, plan, readings, waves)
    ensures RuntimeFigure(p, readings[|readings| - 1]) == Worst(p, RuntimeFigure(p, o), plan)
    decreases plan
  {
    if plan == [] {
      readings, waves := [o], [];
    } else {
      var r := RuntimeFigure(p, o);
      var t := Allowance(p, r, plan);
      var o' := ReadingOf(p, StepDown(p, r, plan));
      StepKeepsFitting(p, r, plan);
      ScaledShortens(plan[0], Compression(Kept(r, p.reserveFraction), Total(plan), p.minimumCompression));
      var rs, ws := WorstIsAttained(p, o', plan[1..]);
      readings, waves := [o] + rs, [Wave(plan[0], t)] + ws;
      assert Declared(waves) == plan;
      RemainingIsTotal(waves, plan);
      PrependWave(p, o, Wave(plan[0], t), rs, ws);
    }
  }

  lemma PrependWave(p: Parameters, o: PowerObservation, wave: Wave, readings: seq<PowerObservation>, waves: seq<Wave>)
    requires Paced(p, readings, waves) && wave.declared >= 0
    requires 0 <= wave.spent <= ScaleDuration(wave.declared, FilledBudget(p, o, Remaining([wave] + waves)))
    requires RuntimeFigure(p, readings[0]) >= RuntimeFigure(p, o) - wave.spent
    ensures Paced(p, [o] + readings, [wave] + waves)
    ensures Disciplined(p, readings, waves) && (o.OnMains() ==> RuntimeFigure(p, readings[0]) >= RuntimeFigure(p, o)) ==>
              Disciplined(p, [o] + readings, [wave] + waves)
  {
    var rs, ws := [o] + readings, [wave] + waves;
    forall k | 0 <= k < |ws|
      ensures ws[k].declared >= 0 && 0 <= ws[k].spent <= ScaleDuration(ws[k].declared, BudgetAt(p, rs, ws, k))
      ensures RuntimeFigure(p, rs[k + 1]) >= RuntimeFigure(p, rs[k]) - ws[k].spent
    {
      if k > 0 { assert ws[k..] == waves[k - 1..]; } else { assert ws[0..] == ws; }
    }
  }

  lemma RestOfBudgets(p: Parameters, readings: seq<PowerObservation>, waves: seq<Wave>, k: nat)
    requires |readings| == |waves| + 1 && k + 1 < |waves|
    ensures BudgetAt(p, readings[1..], waves[1..], k) == BudgetAt(p, readings, waves, k + 1)
  {
    assert waves[1..][k..] == waves[k + 1..];
  }

  lemma RestIsPaced(p: Parameters, readings: seq<PowerObservation>, waves: seq<Wave>)
    requires Paced(p, readings, waves) && waves != []
    ensures Paced(p, readings[1..], waves[1..])
    ensures Disciplined(p, readings, waves) ==> Disciplined(p, readings[1..], waves[1..])
    ensures 0 <= waves[0].spent <= ScaleDuration(waves[0].declared, FilledBudget(p, readings[0], Remaining(waves)))
    ensures RuntimeFigure(p, readings[1]) >= RuntimeFigure(p, readings[0]) - waves[0].spent
  {
    assert waves[0..] == waves;
    forall k: nat | k + 1 < |waves|
      ensures BudgetAt(p, readings[1..], waves[1..], k) == BudgetAt(p, readings, waves, k + 1)
    {
      RestOfBudgets(p, readings, waves, k);
    }
  }

  lemma ShareGrowsBy(d: int, a: int, a': int, plan: int)
    requires 0 <= d <= plan && plan > 0 && a <= a'
    ensures d as real * Ratio(a', plan) <= d as real * Ratio(a, plan) + (a' - a) as real
  {
    RatioTimesPlan(a, plan);
    RatioTimesPlan(a', plan);
    var q, q', s := Ratio(a, plan), Ratio(a', plan), plan as real;
    RatioGrows(a, a', plan);
    assert (q' - q) * s == q' * s - q * s;
    Scale(d as real, s, q' - q);
    assert d as real * (q' - q) == d as real * q' - d as real * q;
  }

  lemma RateGrowsBy(d: int, a: int, a': int, plan: int, least: real)
    requires 0 <= d <= plan && plan > 0 && a <= a' && least > 0.0 && Fits(a, plan, least) && Fits(a', plan, least)
    ensures d as real * Compression(a', plan, least) <= d as real * Compression(a, plan, least) + (a' - a) as real
  {
    RatioTimesPlan(a, plan);
    RatioTimesPlan(a', plan);
    if a < plan {
      var b := if a' < plan then a' else plan;
      RatioTimesPlan(b, plan);
      ShareGrowsBy(d, a, b, plan);
    }
  }

  lemma ScaledGrowsBy(d: int, c: real, c': real, n: int)
    requires d >= 0 && 0.0 < c <= 1.0 && 0.0 < c' <= 1.0 && n >= 0 && d as real * c' <= d as real * c + n as real
    ensures Scaled(d, c') - Scaled(d, c) <= n
  {
    ScaledIsFloor(d, c);
    ScaledIsFloor(d, c');
    FloorMonotone(d as real * c', d as real * c + n as real);
  }

  lemma ScaledIsFloor(d: int, c: real)
    requires d >= 0 && 0.0 < c <= 1.0
    ensures Scaled(d, c) == (d as real * c).Floor
  {
    Scale(0.0, d as real, c);
  }

  /** One more nanosecond available lengthens an allowance by at most one. */
  lemma AllowanceGrowsBy(d: int, a: int, a': int, plan: nat, least: real)
    requires 0 <= d <= plan && a <= a' && least > 0.0 && Fits(a, plan, least) && Fits(a', plan, least)
    ensures Scaled(d, Compression(a', plan, least)) - Scaled(d, Compression(a, plan, least)) <= a' - a
  {
    FittingCompression(a, plan, least);
    FittingCompression(a', plan, least);
    if plan > 0 {
      RateGrowsBy(d, a, a', plan, least);
      ScaledGrowsBy(d, Compression(a, plan, least), Compression(a', plan, least), a' - a);
    }
  }

  lemma FloorMonotone(x: real, y: real)
    requires x <= y
    ensures x.Floor <= y.Floor
  {
  }

  lemma KeptMonotone(r: int, r': int, rho: real)
    requires 0 <= r <= r' && rho < 1.0
    ensures 0 <= Kept(r, rho) <= Kept(r', rho)
  {
    KeptIsNonNegative(r, rho);
    KeptIsNonNegative(r', rho);
    var keep := 1.0 - rho;
    Scale(r as real, r' as real, keep);
    FloorMonotone(r as real * keep, r' as real * keep);
  }

  lemma FitsGrows(a: int, a': int, plan: int, least: real)
    requires a <= a' && Fits(a, plan, least)
    ensures Fits(a', plan, least)
  {
    if plan > 0 {
      RatioTimesPlan(a, plan);
      RatioTimesPlan(a', plan);
      Cancel(Ratio(a', plan), Ratio(a, plan), plan as real);
    }
  }

  /** The higher figure stays the higher one across a wave, however much longer the wave may then take. */
  lemma HigherStaysHigher(p: Parameters, r: int, f: int, plan: seq<nat>)
    requires Fitting(p, r, plan) && plan != [] && r <= f
    ensures r - Allowance(p, r, plan) <= f - Allowance(p, f, plan)
  {
    var rho, least := p.reserveFraction, p.minimumCompression;
    KeptMonotone(r, f, rho);
    AvailableFallsByTimeSpent(f, r, f - r, rho);
    FitsGrows(Kept(r, rho), Kept(f, rho), Total(plan), least);
    AllowanceGrowsBy(plan[0], Kept(r, rho), Kept(f, rho), Total(plan), least);
  }

  lemma FigureIsAttainable(p: Parameters, o: PowerObservation)
    ensures Attainable(p, RuntimeFigure(p, o))
  {
  }

  lemma {:induction false} RunStaysAboveWorst(p: Parameters, r: int, plan: seq<nat>, readings: seq<PowerObservation>, waves: seq<Wave>, k: nat)
    requires Attainable(p, r) && Fitting(p, r, plan) && Disciplined(p, readings, waves) && Declared(waves) == plan
    requires RuntimeFigure(p, readings[0]) >= r && k < |readings|
    ensures RuntimeFigure(p, readings[k]) >= Worst(p, r, plan)
    decreases plan
  {
    WorstFalls(p, r, plan);
    if k > 0 {
      var f, f' := RuntimeFigure(p, readings[0]), RuntimeFigure(p, readings[1]);
      RestIsPaced(p, readings, waves);
      FigureIsAttainable(p, readings[1]);
      StepFalls(p, r, plan);
      if !readings[0].OnMains() {
        RemainingIsTotal(waves, plan);
        HigherStaysHigher(p, r, f, plan);
        assert f' >= f - Allowance(p, f, plan);
      }
      StepKeepsFitting(p, r, plan);
      assert Declared(waves[1..]) == plan[1..];
      RunStaysAboveWorst(p, StepDown(p, r, plan), plan[1..], readings[1..], waves[1..], k - 1);
    }
  }

  /** Exactly when every disciplined run of a fitting plan stays above a bound: when its worst run, computed from
      the declared durations and the first reading alone, does. */
  lemma StaysAboveExactlyWhen(p: Parameters, o: PowerObservation, plan: seq<nat>, bound: real)
    requires !o.OnMains() && Fitting(p, RuntimeFigure(p, o), plan)
    ensures StaysAbove(p, o, plan, bound) <==> Worst(p, RuntimeFigure(p, o), plan) as real >= bound
  {
    FigureIsAttainable(p, o);
    if Worst(p, RuntimeFigure(p, o), plan) as real >= bound {
      forall readings, waves, k | RunOf(p, o, plan, readings, waves) && 0 <= k < |readings|
        ensures RuntimeFigure(p, readings[k]) as real >= bound
      {
        RunStaysAboveWorst(p, RuntimeFigure(p, o), plan, readings, waves, k);
      }
    } else {
      var readings, waves := WorstIsAttained(p, o, plan);
      assert RunOf(p, o, plan, readings, waves) && 0 <= |readings| - 1 < |readings|;
    }
  }

  /** The same from a first reading on mains: its wave costs nothing, and the worst run starts after it. */
  lemma StaysAboveFromMainsExactlyWhen(p: Parameters, o: PowerObservation, plan: seq<nat>, bound: real)
    requires o.OnMains() && plan != [] && Fitting(p, RuntimeFigure(p, o), plan[1..])
    ensures StaysAbove(p, o, plan, bound) <==> Worst(p, RuntimeFigure(p, o), plan[1..]) as real >= bound
  {
    var r := RuntimeFigure(p, o);
    FigureIsAttainable(p, o);
    WorstFalls(p, r, plan[1..]);
    if Worst(p, r, plan[1..]) as real >= bound {
      forall readings, waves, k | RunOf(p, o, plan, readings, waves) && 0 <= k < |readings|
        ensures RuntimeFigure(p, readings[k]) as real >= bound
      {
        if k > 0 { MainsStartStaysAboveWorst(p, o, plan, readings, waves, k); }
      }
    } else {
      var readings, waves := MainsStartIsAttained(p, o, plan);
      assert RunOf(p, o, plan, readings, waves) && 0 <= |readings| - 1 < |readings|;
    }
  }

  lemma MainsStartStaysAboveWorst(p: Parameters, o: PowerObservation, plan: seq<nat>, readings: seq<PowerObservation>, waves: seq<Wave>, k: nat)
    requires o.OnMains() && plan != [] && Fitting(p, RuntimeFigure(p, o), plan[1..])
    requires RunOf(p, o, plan, readings, waves) && 0 < k < |readings|
    ensures RuntimeFigure(p, readings[k]) >= Worst(p, RuntimeFigure(p, o), plan[1..])
  {
    FigureIsAttainable(p, o);
    RestIsPaced(p, readings, waves);
    assert Declared(waves[1..]) == plan[1..];
    RunStaysAboveWorst(p, RuntimeFigure(p, o), plan[1..], readings[1..], waves[1..], k - 1);
  }

  lemma MainsStartIsAttained(p: Parameters, o: PowerObservation, plan: seq<nat>)
    returns (readings: seq<PowerObservation>, waves: seq<Wave>)
    requires o.OnMains() && plan != [] && Fitting(p, RuntimeFigure(p, o), plan[1..])
    ensures RunOf(p, o, plan, readings, waves)
    ensures RuntimeFigure(p, readings[|readings| - 1]) == Worst(p, RuntimeFigure(p, o), plan[1..])
  {
    FigureIsAttainable(p, o);
    var wave := Wave(plan[0], 0);
    var rs, ws := WorstIsAttained(p, ReadingOf(p, RuntimeFigure(p, o)), plan[1..]);
    readings, waves := [o] + rs, [wave] + ws;
    assert Declared(waves) == plan;
    PrependWave(p, o, wave, rs, ws);
  }

  // ---- the declared durations alone decide, up to rounding ----

  /** At most one wave declares a duration. */
  predicate OneWave(plan: seq<nat>) {
    forall i, j :: 0 <= i < j < |plan| ==> plan[i] == 0 || plan[j] == 0
  }

  function Lesser(x: real, y: real): real {
    if x <= y then x else y
  }

  /** How far the allowances of a compressed plan add up to more than was available at first: the reserve's share
      of the first wave's allowance, released to the later waves, or all they were short of if that is less. */
  function Excess(rho: real, a: int, plan: seq<nat>): real
    decreases plan
  {
    if plan == [] then 0.0
    else if plan[0] == 0 then Excess(rho, a, plan[1..])
    else if Total(plan) <= a then 0.0
    else
      var c := Ratio(a, Total(plan));
      var rest := Total(plan[1..]) as real;
      Lesser(rho * (plan[0] as real * c), rest - rest * c)
  }

  /** What rounding can hide: a second per wave, as readings report whole seconds, and the truncations. */
  function Rounding(plan: seq<nat>): real {
    (|plan| * SECOND + 2) as real
  }

  lemma {:induction false} NothingDeclared(plan: seq<nat>)
    ensures Total(plan) == 0 <==> forall i :: 0 <= i < |plan| ==> plan[i] == 0
  {
    if plan != [] {
      NothingDeclared(plan[1..]);
      assert plan == [plan[0]] + plan[1..];
    }
  }

  lemma OneWaveStep(plan: seq<nat>)
    requires plan != []
    ensures OneWave(plan) <==> if plan[0] == 0 then OneWave(plan[1..]) else Total(plan[1..]) == 0
  {
    var rest := plan[1..];
    NothingDeclared(rest);
    assert forall i :: 0 <= i < |rest| ==> rest[i] == plan[i + 1];
    if OneWave(plan) && plan[0] > 0 {
      forall i | 0 <= i < |rest| ensures rest[i] == 0 { assert plan[0] == 0 || plan[i + 1] == 0; }
    }
    if plan[0] == 0 && OneWave(rest) {
      forall i, j | 0 <= i < j < |plan| ensures plan[i] == 0 || plan[j] == 0 {
        if i > 0 { assert rest[i - 1] == 0 || rest[j - 1] == 0; }
      }
    }
    if OneWave(plan) {
      forall i, j | 0 <= i < j < |rest| ensures rest[i] == 0 || rest[j] == 0 { assert plan[i + 1] == 0 || plan[j + 1] == 0; }
    }
  }

  lemma Positive(x: real, y: real)
    requires x > 0.0 && y > 0.0
    ensures x * y > 0.0
  {
  }

  lemma RatioIsProper(a: int, plan: int)
    requires 0 < a < plan
    ensures 0.0 < Ratio(a, plan) < 1.0
  {
    RatioTimesPlan(a, plan);
  }

  lemma ExcessStep(rho: real, a: int, plan: seq<nat>)
    requires rho > 0.0 && plan != [] && plan[0] > 0 && 0 < a < Total(plan)
    ensures Excess(rho, a, plan) >= 0.0
    ensures Excess(rho, a, plan) == 0.0 <==> Total(plan[1..]) == 0
  {
    ExcessOf(rho, a, plan[0], Total(plan[1..]));
  }

  /** Nothing is spent beyond what was available exactly when the plan starts uncompressed or is a single wave. */
  lemma {:induction false} ExcessMeans(rho: real, a: int, plan: seq<nat>)
    requires rho > 0.0 && a >= 0 && (Total(plan) > 0 ==> a > 0)
    ensures Excess(rho, a, plan) >= 0.0
    ensures Excess(rho, a, plan) == 0.0 <==> Total(plan) <= a || OneWave(plan)
    decreases plan
  {
    if plan != [] {
      OneWaveStep(plan);
      if plan[0] == 0 {
        ExcessMeans(rho, a, plan[1..]);
      } else if Total(plan) > a {
        ExcessStep(rho, a, plan);
      }
    }
  }

  lemma ExcessOf(rho: real, a: int, d: nat, rest: nat)
    requires 0.0 < rho && d > 0 && 0 < a < d + rest
    ensures var c := Ratio(a, d + rest);
            var excess := Lesser(rho * (d as real * c), rest as real - rest as real * c);
            excess >= 0.0 && (excess == 0.0 <==> rest == 0)
  {
    RatioIsProper(a, d + rest);
    var c := Ratio(a, d + rest);
    Positive(d as real, c);
    Positive(rho, d as real * c);
    if rest > 0 { Positive(rest as real, 1.0 - c); }
    assert rest as real * (1.0 - c) == rest as real - rest as real * c;
  }

  lemma ScaledFloor(d: nat, c: real)
    requires 0.0 < c <= 1.0
    ensures Scaled(d, c) as real >= d as real * c - 1.0
  {
    if d > 0 && c < 1.0 { Scale(0.0, d as real, c); }
  }

  lemma FittingCompression(a: int, plan: nat, least: real)
    requires Fits(a, plan, least) && least > 0.0
    ensures 0.0 < Compression(a, plan, least) <= 1.0
  {
  }

  lemma SpentOnWave(x: int, x': int, t: int, d: nat, c: real, c': real)
    requires 0.0 < c <= c' && t as real >= d as real * c' - 1.0 && x' <= x - t + SECOND - 1
    ensures (x - x') as real >= d as real * c - SECOND as real
  {
    Scale(c, c', d as real);
  }

  lemma LowestIsNear(p: Parameters, r: int, plan: seq<nat>)
    requires plan != []
    ensures StepDown(p, r, plan) <= r - Allowance(p, r, plan) + SECOND - 1
  {
  }

  lemma AllowanceFloor(a: int, d: nat, plan: nat, least: real)
    requires Fits(a, plan, least) && least > 0.0
    ensures Scaled(d, Compression(a, plan, least)) as real >= d as real * Compression(a, plan, least) - 1.0
  {
    FittingCompression(a, plan, least);
    ScaledFloor(d, Compression(a, plan, least));
  }

  /** The rate at which a budget lets the first wave of a plan proceed. */
  function Rate(p: Parameters, r: int, plan: seq<nat>): real {
    Compression(Kept(r, p.reserveFraction), Total(plan), p.minimumCompression)
  }

  /** Every budget of the worst run fits and compresses to no less than `c`. */
  ghost predicate Proceeds(p: Parameters, r: int, plan: seq<nat>, c: real)
    decreases plan
  {
    plan != [] ==>
      && Fits(Kept(r, p.reserveFraction), Total(plan), p.minimumCompression)
      && c <= Rate(p, r, plan)
      && Proceeds(p, StepDown(p, r, plan), plan[1..], c)
  }

  lemma {:induction false} FittingProceeds(p: Parameters, r: int, plan: seq<nat>, c: real)
    requires Fitting(p, r, plan) && c <= Rate(p, r, plan)
    ensures Proceeds(p, r, plan, c)
    decreases plan
  {
    if plan != [] {
      StepKeepsFitting(p, r, plan);
      FittingProceeds(p, StepDown(p, r, plan), plan[1..], c);
    }
  }

  /** What the worst run spends on one wave, less the second its reading can hide. */
  lemma StepSpends(p: Parameters, r: int, plan: seq<nat>, c: real)
    requires plan != [] && p.minimumCompression > 0.0 && 0.0 < c <= Rate(p, r, plan)
    requires Fits(Kept(r, p.reserveFraction), Total(plan), p.minimumCompression)
    ensures (r - StepDown(p, r, plan)) as real >= plan[0] as real * c - SECOND as real
  {
    AllowanceFloor(Kept(r, p.reserveFraction), plan[0], Total(plan), p.minimumCompression);
    LowestIsNear(p, r, plan);
    SpentOnWave(r, StepDown(p, r, plan), Allowance(p, r, plan), plan[0], c, Rate(p, r, plan));
  }

  /** The time a plan takes at a rate. */
  function Shares(plan: seq<nat>, c: real): real {
    if plan == [] then 0.0 else plan[0] as real * c + Shares(plan[1..], c)
  }

  lemma {:induction false} SharesOfTotal(plan: seq<nat>, c: real)
    ensures Shares(plan, c) == Total(plan) as real * c
  {
    if plan != [] {
      SharesOfTotal(plan[1..], c);
      AddShares(plan[0] as real, Total(plan[1..]) as real, c);
    }
  }

  /** The worst run spends at least the plan at its first compression. */
  lemma {:induction false} WorstSpends(p: Parameters, r: int, plan: seq<nat>, c: real)
    requires p.minimumCompression > 0.0 && 0.0 < c && Proceeds(p, r, plan, c)
    ensures (r - Worst(p, r, plan)) as real >= Shares(plan, c) - (|plan| * SECOND) as real
    decreases plan
  {
    if plan != [] {
      StepSpends(p, r, plan, c);
      WorstSpends(p, StepDown(p, r, plan), plan[1..], c);
    }
  }

  lemma KeptShare(x: real, x': real, s: real, rho: real)
    requires x' >= x - s && rho < 1.0
    ensures x' * (1.0 - rho) >= x * (1.0 - rho) - (s - rho * s)
  {
    Scale(x - s, x', 1.0 - rho);
    assert (x - s) * (1.0 - rho) == x * (1.0 - rho) - (s - rho * s);
  }

  lemma FloorsDiffer(x: real, y: real, z: real)
    requires y >= x - z
    ensures y.Floor as real >= x.Floor as real - z - 1.0
  {
  }

  /** A wave that takes `s` lowers what is available by no more than the share of `s` not held in reserve. */
  lemma SecondBudget(rho: real, r: int, r': int, t: int, s: real)
    requires 0.0 < rho < 1.0 && r > 0 && r' > 0 && t as real <= s && r' >= r - t
    ensures Kept(r', rho) as real >= Kept(r, rho) as real - (s - rho * s) - 1.0
  {
    KeptIsNonNegative(r, rho);
    KeptIsNonNegative(r', rho);
    KeptShare(r as real, r' as real, s, rho);
    FloorsDiffer(r as real * (1.0 - rho), r' as real * (1.0 - rho), s - rho * s);
  }

  /** A compressed plan with more to come after a first wave with a duration. */
  ghost predicate StartsCompressed(p: Parameters, r: int, plan: seq<nat>) {
    plan != [] && plan[0] > 0 && Total(plan[1..]) > 0 && Total(plan) > Kept(r, p.reserveFraction)
  }

  /** The first rate, and the shares it gives the first wave and the rest. */
  lemma FirstRate(p: Parameters, r: int, plan: seq<nat>) returns (c: real, s: real, q: real)
    requires StartsCompressed(p, r, plan) && p.minimumCompression > 0.0
    requires Fits(Kept(r, p.reserveFraction), Total(plan), p.minimumCompression)
    ensures c == Rate(p, r, plan) > 0.0 && s == plan[0] as real * c
    ensures Kept(r, p.reserveFraction) as real == s + q
    ensures Allowance(p, r, plan) as real <= s
    ensures Excess(p.reserveFraction, Kept(r, p.reserveFraction), plan) == Lesser(p.reserveFraction * s, Total(plan[1..]) as real - q)
  {
    var a := Kept(r, p.reserveFraction);
    FittingIsPositive(a, Total(plan), p.minimumCompression);
    c, s, q := ExcessShares(p.reserveFraction, a, plan, p.minimumCompression);
    ScaledShare(plan[0], c);
  }

  lemma ExcessShares(rho: real, a: int, plan: seq<nat>, least: real) returns (c: real, s: real, q: real)
    requires plan != [] && plan[0] > 0 && 0 < a < Total(plan) && Fits(a, Total(plan), least)
    ensures c == Compression(a, Total(plan), least) && 0.0 < c < 1.0 && s == plan[0] as real * c && a as real == s + q
    ensures Excess(rho, a, plan) == Lesser(rho * s, Total(plan[1..]) as real - q)
  {
    c, s, q := SharesOfRatio(a, plan[0], Total(plan[1..]));
  }

  lemma SharesOfRatio(a: int, d: nat, rest: nat) returns (c: real, s: real, q: real)
    requires 0 < a < d + rest
    ensures c == Ratio(a, d + rest) && 0.0 < c < 1.0 && s == d as real * c && q == rest as real * c && a as real == s + q
  {
    c := Ratio(a, d + rest);
    s, q := d as real * c, rest as real * c;
    RatioIsProper(a, d + rest);
    RatioTimesPlan(a, d + rest);
    AddShares(d as real, rest as real, c);
  }

  /** The first wave in plain numbers: its share, what the rate leaves the rest, and what its reserve releases. */
  lemma FirstWave(p: Parameters, r: int, plan: seq<nat>) returns (s: real, q: real, released: real)
    requires Fitting(p, r, plan) && StartsCompressed(p, r, plan)
    ensures Kept(r, p.reserveFraction) as real == s + q
    ensures Excess(p.reserveFraction, Kept(r, p.reserveFraction), plan) == Lesser(released, Total(plan[1..]) as real - q)
    ensures (r - StepDown(p, r, plan)) as real >= s - SECOND as real
    ensures Kept(StepDown(p, r, plan), p.reserveFraction) as real >= Kept(r, p.reserveFraction) as real - s + released - 1.0
  {
    var c;
    c, s, q := FirstRate(p, r, plan);
    released := p.reserveFraction * s;
    FirstWaveReleases(p, r, plan, s);
    FirstWaveSpends(p, r, plan, c);
  }

  lemma FirstWaveReleases(p: Parameters, r: int, plan: seq<nat>, s: real)
    requires Fitting(p, r, plan) && plan != [] && Allowance(p, r, plan) as real <= s
    ensures Kept(StepDown(p, r, plan), p.reserveFraction) as real >=
            Kept(r, p.reserveFraction) as real - (s - p.reserveFraction * s) - 1.0
  {
    StepIsPositive(p, r, plan);
    SecondBudget(p.reserveFraction, r, StepDown(p, r, plan), Allowance(p, r, plan), s);
  }

  lemma StepIsPositive(p: Parameters, r: int, plan: seq<nat>)
    requires Fitting(p, r, plan) && plan != []
    ensures StepDown(p, r, plan) > 0 && StepDown(p, r, plan) >= r - Allowance(p, r, plan)
  {
    StepLeavesRuntime(p, r, plan);
  }

  lemma FirstWaveSpends(p: Parameters, r: int, plan: seq<nat>, c: real)
    requires Fitting(p, r, plan) && plan != [] && 0.0 < c <= Rate(p, r, plan)
    ensures (r - StepDown(p, r, plan)) as real >= plan[0] as real * c - SECOND as real
  {
    FittingProceeds(p, r, plan, c);
    StepSpends(p, r, plan, c);
  }

  /** The remaining waves in plain numbers: all they declare, or all that is available, less the rounding. */
  lemma OtherWaves(p: Parameters, r: int, plan: seq<nat>) returns (q: real)
    requires Fitting(p, r, plan) && Total(plan) > 0
    ensures q == Total(plan) as real || q == Kept(r, p.reserveFraction) as real
    ensures (r - Worst(p, r, plan)) as real >= q - (|plan| * SECOND) as real
  {
    q := Shares(plan, Rate(p, r, plan));
    SharesAtRate(p, r, plan);
    OtherWavesSpend(p, r, plan);
  }

  lemma SharesAtRate(p: Parameters, r: int, plan: seq<nat>)
    requires Fits(Kept(r, p.reserveFraction), Total(plan), p.minimumCompression) && p.minimumCompression > 0.0 && Total(plan) > 0
    ensures var q := Shares(plan, Rate(p, r, plan)); q == Total(plan) as real || q == Kept(r, p.reserveFraction) as real
  {
    SharesOfTotal(plan, Rate(p, r, plan));
    CompressedRatio(Kept(r, p.reserveFraction), Total(plan), p.minimumCompression);
  }

  lemma OtherWavesSpend(p: Parameters, r: int, plan: seq<nat>)
    requires Fitting(p, r, plan)
    ensures (r - Worst(p, r, plan)) as real >= Shares(plan, Rate(p, r, plan)) - (|plan| * SECOND) as real
  {
    FittingCompression(Kept(r, p.reserveFraction), Total(plan), p.minimumCompression);
    FittingProceeds(p, r, plan, Rate(p, r, plan));
    WorstSpends(p, r, plan, Rate(p, r, plan));
  }

  lemma CompressedRatio(a: int, plan: nat, least: real)
    requires plan > 0 && least > 0.0 && Fits(a, plan, least)
    ensures Compression(a, plan, least) == 1.0 || plan as real * Compression(a, plan, least) == a as real
  {
    RatioTimesPlan(a, plan);
  }

  lemma CompressedStartSpends(p: Parameters, r: int, plan: seq<nat>)
    requires Fitting(p, r, plan) && StartsCompressed(p, r, plan)
    ensures (r - Worst(p, r, plan)) as real >=
            Kept(r, p.reserveFraction) as real + Excess(p.reserveFraction, Kept(r, p.reserveFraction), plan) - 1.0 - (|plan| * SECOND) as real
  {
    StepKeepsFitting(p, r, plan);
    var s, q, released := FirstWave(p, r, plan);
    var q' := OtherWaves(p, StepDown(p, r, plan), plan[1..]);
  }

  /** A compressed plan of several waves spends, in its worst run, what was available and the excess. */
  lemma {:induction false} ExcessIsSpent(p: Parameters, r: int, plan: seq<nat>)
    requires Attainable(p, r) && Fitting(p, r, plan) && Excess(p.reserveFraction, Kept(r, p.reserveFraction), plan) > 0.0
    ensures (r - Worst(p, r, plan)) as real >=
            Kept(r, p.reserveFraction) as real + Excess(p.reserveFraction, Kept(r, p.reserveFraction), plan) - 1.0 - (|plan| * SECOND) as real
    decreases plan
  {
    KeptIsNonNegative(r, p.reserveFraction);
    if Total(plan) > 0 { FittingIsPositive(Kept(r, p.reserveFraction), Total(plan), p.minimumCompression); }
    ExcessMeans(p.reserveFraction, Kept(r, p.reserveFraction), plan);
    if plan[0] == 0 {
      ZeroWaveStandsStill(p, r, plan);
      ExcessIsSpent(p, r, plan[1..]);
    } else {
      OneWaveStep(plan);
      CompressedStartSpends(p, r, plan);
    }
  }

  lemma ZeroWaveStandsStill(p: Parameters, r: int, plan: seq<nat>)
    requires Attainable(p, r) && plan != [] && plan[0] == 0
    ensures StepDown(p, r, plan) == r
  {
  }

  lemma {:induction false} WorstStandsStill(p: Parameters, r: int, plan: seq<nat>)
    requires Attainable(p, r) && Total(plan) == 0
    ensures Worst(p, r, plan) == r
    decreases plan
  {
    if plan != [] {
      ZeroWaveStandsStill(p, r, plan);
      WorstStandsStill(p, r, plan[1..]);
    }
  }

  lemma {:induction false} OneWaveSpends(p: Parameters, r: int, plan: seq<nat>)
    requires Attainable(p, r) && Fitting(p, r, plan) && OneWave(plan)
    ensures Worst(p, r, plan) >= r - Kept(r, p.reserveFraction)
    decreases plan
  {
    KeptIsNonNegative(r, p.reserveFraction);
    if plan != [] {
      OneWaveStep(plan);
      if plan[0] == 0 {
        ZeroWaveStandsStill(p, r, plan);
        StepKeepsFitting(p, r, plan);
        OneWaveSpends(p, r, plan[1..]);
      } else {
        AllowanceIsAvailable(Kept(r, p.reserveFraction), plan[0], Total(plan[1..]), p.minimumCompression);
        WorstStandsStill(p, StepDown(p, r, plan), plan[1..]);
      }
    }
  }

  lemma UncompressedKeeps(p: Parameters, o: PowerObservation, plan: seq<nat>)
    requires Fitting(p, RuntimeFigure(p, o), plan) && Total(plan) <= Available(p, o)
    ensures KeepsReserve(p, o, plan)
  {
    forall readings, waves, k | RunOf(p, o, plan, readings, waves) && 0 <= k < |readings|
      ensures RuntimeFigure(p, readings[k]) as real >= Reserve(p, o)
    {
      RemainingIsTotal(waves, plan);
      UncompressedPlanKeepsReserve(p, readings, waves, k);
    }
  }

  lemma OneWaveKeeps(p: Parameters, o: PowerObservation, plan: seq<nat>, bound: real)
    requires !o.OnMains() && Fitting(p, RuntimeFigure(p, o), plan) && OneWave(plan)
    requires bound <= (RuntimeFigure(p, o) - Kept(RuntimeFigure(p, o), p.reserveFraction)) as real
    ensures StaysAbove(p, o, plan, bound)
  {
    FigureIsAttainable(p, o);
    OneWaveSpends(p, RuntimeFigure(p, o), plan);
    StaysAboveExactlyWhen(p, o, plan, bound);
  }

  lemma ExcessLoses(p: Parameters, o: PowerObservation, plan: seq<nat>, bound: real)
    requires !o.OnMains() && Fitting(p, RuntimeFigure(p, o), plan) && Excess(p.reserveFraction, Available(p, o), plan) >= Rounding(plan)
    requires bound > (RuntimeFigure(p, o) - Kept(RuntimeFigure(p, o), p.reserveFraction)) as real - 1.0
    ensures !StaysAbove(p, o, plan, bound)
  {
    FigureIsAttainable(p, o);
    ExcessIsSpent(p, RuntimeFigure(p, o), plan);
    StaysAboveExactlyWhen(p, o, plan, bound);
  }

  /** What is not available is the reserve, to the nanosecond. */
  lemma ReserveIsTheRest(r: int, rho: real)
    requires r > 0 && 0.0 < rho < 1.0
    ensures (r - Kept(r, rho)) as real - 1.0 < rho * r as real <= (r - Kept(r, rho)) as real
  {
    KeptIsNonNegative(r, rho);
    assert r as real * (1.0 - rho) == r as real - rho * r as real;
  }

  lemma ReserveAt(p: Parameters, o: PowerObservation)
    requires RuntimeFigure(p, o) > 0 && 0.0 < p.reserveFraction < 1.0
    ensures (RuntimeFigure(p, o) - Kept(RuntimeFigure(p, o), p.reserveFraction)) as real - 1.0 < Reserve(p, o)
    ensures Reserve(p, o) <= (RuntimeFigure(p, o) - Kept(RuntimeFigure(p, o), p.reserveFraction)) as real
  {
    ReserveIsTheRest(RuntimeFigure(p, o), p.reserveFraction);
  }

  lemma KeepsOrLoses(p: Parameters, o: PowerObservation, plan: seq<nat>, bound: real)
    requires !o.OnMains() && Fitting(p, RuntimeFigure(p, o), plan)
    requires var r := RuntimeFigure(p, o);
             (r - Kept(r, p.reserveFraction)) as real - 1.0 < bound <= (r - Kept(r, p.reserveFraction)) as real
    ensures OneWave(plan) ==> StaysAbove(p, o, plan, bound)
    ensures Excess(p.reserveFraction, Available(p, o), plan) >= Rounding(plan) ==> !StaysAbove(p, o, plan, bound)
  {
    if OneWave(plan) { OneWaveKeeps(p, o, plan, bound); }
    if Excess(p.reserveFraction, Available(p, o), plan) >= Rounding(plan) { ExcessLoses(p, o, plan, bound); }
  }

  /** The same in terms of the plan and the first reading: a fitting plan keeps the first reserve if it starts
      uncompressed or only one wave declares a duration. Otherwise there is an excess, and once that is more than
      rounding can hide some disciplined run loses the reserve. */
  lemma ReserveIsKeptExactlyWhen(p: Parameters, o: PowerObservation, plan: seq<nat>)
    requires !o.OnMains() && Fitting(p, RuntimeFigure(p, o), plan)
    ensures Total(plan) <= Available(p, o) || OneWave(plan) ==> KeepsReserve(p, o, plan)
    ensures Excess(p.reserveFraction, Available(p, o), plan) == 0.0 <==> Total(plan) <= Available(p, o) || OneWave(plan)
    ensures Excess(p.reserveFraction, Available(p, o), plan) >= Rounding(plan) ==> !KeepsReserve(p, o, plan)
  {
    KeptIsNonNegative(RuntimeFigure(p, o), p.reserveFraction);
    if Total(plan) > 0 { FittingIsPositive(Available(p, o), Total(plan), p.minimumCompression); }
    ExcessMeans(p.reserveFraction, Available(p, o), plan);
    ReserveAt(p, o);
    KeepsOrLoses(p, o, plan, Reserve(p, o));
    if Total(plan) <= Available(p, o) { UncompressedKeeps(p, o, plan); }
  }
}
