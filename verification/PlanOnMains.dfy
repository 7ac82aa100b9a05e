/** Plans that run through a return of mains: there waves take all they declared, whatever the battery holds. */
module PlanOnMains {
  import opened Wrappers
  import opened AdaptiveParameters
  import opened TimingBudget
  import opened PlanReserve

  /** A paced run of a plan from a first reading. Waves started on mains may cost as much runtime as others. */
  ghost predicate PacedRunOf(p: Parameters, o: PowerObservation, plan: seq<nat>, readings: seq<PowerObservation>, waves: seq<Wave>) {
    Paced(p, readings, waves) && readings[0] == o && Declared(waves) == plan
  }

  /** In every paced run every budget reports that the rest of the plan fits. */
  ghost predicate AlwaysFits(p: Parameters, o: PowerObservation, plan: seq<nat>) {
    forall readings, waves, k :: PacedRunOf(p, o, plan, readings, waves) && 0 <= k < |readings| ==>
      BudgetAt(p, readings, waves, k).fits
  }

  /** The plan fits at a figure, and at every figure it can be left with if all its waves run on mains. */
  predicate SurvivesMains(p: Parameters, r: int, plan: seq<nat>)
    decreases plan
  {
    && Fits(Kept(r, p.reserveFraction), Total(plan), p.minimumCompression)
    && (plan != [] ==> SurvivesMains(p, Lowest(p, r - plan[0]), plan[1..]))
  }

  /** The lowest figure after the first wave. */
  function AfterFirst(p: Parameters, o: PowerObservation, plan: seq<nat>): int
    requires plan != []
  {
    Lowest(p, RuntimeFigure(p, o) - if o.OnMains() then plan[0] else Allowance(p, RuntimeFigure(p, o), plan))
  }

  /** The first budget fits, and so does every later one should mains return after the first wave and fail again. */
  predicate Survives(p: Parameters, o: PowerObservation, plan: seq<nat>) {
    && (o.OnMains() || Fits(Available(p, o), Total(plan), p.minimumCompression))
    && (plan != [] ==> SurvivesMains(p, AfterFirst(p, o, plan), plan[1..]))
  }

  lemma TruncateMonotone(x: real, y: real)
    requires x <= y
    ensures Truncate(x) <= Truncate(y)
  {
    if y < 0.0 { FloorMonotone(-y, -x); } else if x >= 0.0 { FloorMonotone(x, y); }
  }

  lemma KeptGrows(r: int, f: int, rho: real)
    requires rho < 1.0 && r <= f
    ensures Kept(r, rho) <= Kept(f, rho)
  {
    var keep := 1.0 - rho;
    Scale(r as real, f as real, keep);
    TruncateMonotone(r as real * keep, f as real * keep);
  }

  lemma FitsAtHigher(p: Parameters, r: int, f: int, total: int)
    requires p.reserveFraction < 1.0 && r <= f && Fits(Kept(r, p.reserveFraction), total, p.minimumCompression)
    ensures Fits(Kept(f, p.reserveFraction), total, p.minimumCompression)
  {
    KeptGrows(r, f, p.reserveFraction);
    FitsGrows(Kept(r, p.reserveFraction), Kept(f, p.reserveFraction), total, p.minimumCompression);
  }

  lemma {:induction false} SurvivingRunFits(p: Parameters, r: int, plan: seq<nat>, readings: seq<PowerObservation>, waves: seq<Wave>, k: nat)
    requires p.reserveFraction < 1.0 && SurvivesMains(p, r, plan)
    requires Paced(p, readings, waves) && Declared(waves) == plan && RuntimeFigure(p, readings[0]) >= r && k < |readings|
    ensures BudgetAt(p, readings, waves, k).fits
    decreases plan
  {
    if k == 0 {
      assert waves[0..] == waves;
      RemainingIsTotal(waves, plan);
      FitsAtHigher(p, r, RuntimeFigure(p, readings[0]), Total(plan));
    } else {
      RestIsPaced(p, readings, waves);
      ScaledShortens(waves[0].declared, FilledBudget(p, readings[0], Remaining(waves)).compression);
      FigureIsAttainable(p, readings[1]);
      assert Declared(waves[1..]) == plan[1..];
      SurvivingRunFits(p, Lowest(p, r - plan[0]), plan[1..], readings[1..], waves[1..], k - 1);
      assert waves[1..][k - 1..] == waves[k..];
    }
  }

  /** A run in which nothing takes any time. */
  lemma IdleRun(p: Parameters, o: PowerObservation, plan: seq<nat>) returns (readings: seq<PowerObservation>, waves: seq<Wave>)
    ensures PacedRunOf(p, o, plan, readings, waves)
  {
    readings, waves := seq(|plan| + 1, _ => o), seq(|plan|, i requires 0 <= i < |plan| => Wave(plan[i], 0));
    forall k | 0 <= k < |waves| ensures 0 <= ScaleDuration(waves[k].declared, BudgetAt(p, readings, waves, k)) {
      ScaledShortens(waves[k].declared, BudgetAt(p, readings, waves, k).compression);
    }
  }

  lemma UnfitAtOnce(p: Parameters, o: PowerObservation, plan: seq<nat>) returns (readings: seq<PowerObservation>, waves: seq<Wave>)
    requires !o.OnMains() && !Fits(Available(p, o), Total(plan), p.minimumCompression)
    ensures PacedRunOf(p, o, plan, readings, waves) && !BudgetAt(p, readings, waves, 0).fits
  {
    readings, waves := IdleRun(p, o, plan);
    assert waves[0..] == waves;
    RemainingIsTotal(waves, plan);
  }

  function MainsReading(p: Parameters, figure: int): (o: PowerObservation)
    requires Attainable(p, figure)
    ensures o.OnMains() && RuntimeFigure(p, o) == figure
  {
    if figure % SECOND == 0 then PowerObservation(false, false, Some(figure / SECOND), true)
    else PowerObservation(false, false, None, false)
  }

  /** A run that goes on from its first reading as a given one does. */
  lemma PrependRun(p: Parameters, o: PowerObservation, plan: seq<nat>, spent: nat, readings: seq<PowerObservation>, waves: seq<Wave>, k: nat)
    returns (rs: seq<PowerObservation>, ws: seq<Wave>)
    requires plan != [] && Paced(p, readings, waves) && Declared(waves) == plan[1..] && k < |readings|
    requires spent <= ScaleDuration(plan[0], FilledBudget(p, o, Total(plan)))
    requires RuntimeFigure(p, readings[0]) >= RuntimeFigure(p, o) - spent
    ensures PacedRunOf(p, o, plan, rs, ws) && k + 1 < |rs|
    ensures BudgetAt(p, rs, ws, k + 1) == BudgetAt(p, readings, waves, k)
  {
    var wave := Wave(plan[0], spent);
    rs, ws := [o] + readings, [wave] + waves;
    assert Declared(ws) == plan;
    RemainingIsTotal(ws, plan);
    PrependWave(p, o, wave, readings, waves);
    assert ws[k + 1..] == waves[k..];
  }

  /** Where the plan does not survive, mains readings lead down to a reading on battery whose budget does not fit. */
  lemma {:induction false} UnfitRun(p: Parameters, r: int, plan: seq<nat>) returns (readings: seq<PowerObservation>, waves: seq<Wave>, k: nat)
    requires Attainable(p, r) && !SurvivesMains(p, r, plan)
    ensures Paced(p, readings, waves) && Declared(waves) == plan && RuntimeFigure(p, readings[0]) == r
    ensures k < |readings| && !BudgetAt(p, readings, waves, k).fits
    decreases plan
  {
    if !Fits(Kept(r, p.reserveFraction), Total(plan), p.minimumCompression) {
      readings, waves := UnfitAtOnce(p, ReadingOf(p, r), plan);
      k := 0;
    } else {
      var rs, ws, j := UnfitRun(p, Lowest(p, r - plan[0]), plan[1..]);
      readings, waves := PrependRun(p, MainsReading(p, r), plan, plan[0], rs, ws, j);
      k := j + 1;
    }
  }

  lemma UnfitFrom(p: Parameters, o: PowerObservation, plan: seq<nat>) returns (readings: seq<PowerObservation>, waves: seq<Wave>, k: nat)
    requires !Survives(p, o, plan)
    ensures PacedRunOf(p, o, plan, readings, waves) && k < |readings| && !BudgetAt(p, readings, waves, k).fits
  {
    if !o.OnMains() && !Fits(Available(p, o), Total(plan), p.minimumCompression) {
      readings, waves := UnfitAtOnce(p, o, plan);
      k := 0;
    } else {
      var rs, ws, j := UnfitRun(p, AfterFirst(p, o, plan), plan[1..]);
      var spent := if o.OnMains() then plan[0] else Allowance(p, RuntimeFigure(p, o), plan);
      ScaledShortens(plan[0], FilledBudget(p, o, Total(plan)).compression);
      readings, waves := PrependRun(p, o, plan, spent, rs, ws, j);
      k := j + 1;
    }
  }

  lemma SurvivorFits(p: Parameters, o: PowerObservation, plan: seq<nat>, readings: seq<PowerObservation>, waves: seq<Wave>, k: nat)
    requires p.reserveFraction < 1.0 && Survives(p, o, plan) && PacedRunOf(p, o, plan, readings, waves) && k < |readings|
    ensures BudgetAt(p, readings, waves, k).fits
  {
    RemainingIsTotal(waves, plan);
    if k == 0 {
      assert waves[0..] == waves;
    } else {
      RestIsPaced(p, readings, waves);
      ScaledShortens(waves[0].declared, FilledBudget(p, o, Remaining(waves)).compression);
      FigureIsAttainable(p, readings[1]);
      assert Declared(waves[1..]) == plan[1..];
      SurvivingRunFits(p, AfterFirst(p, o, plan), plan[1..], readings[1..], waves[1..], k - 1);
      assert waves[1..][k - 1..] == waves[k..];
    }
  }

  /** Exactly when a plan keeps fitting in every paced run, through any returns of mains: when it survives, which
      the declared durations and the first reading decide. */
  lemma FitsThroughMainsExactlyWhen(p: Parameters, o: PowerObservation, plan: seq<nat>)
    requires p.reserveFraction < 1.0
    ensures AlwaysFits(p, o, plan) <==> Survives(p, o, plan)
  {
    if Survives(p, o, plan) {
      forall readings, waves, k | PacedRunOf(p, o, plan, readings, waves) && 0 <= k < |readings|
        ensures BudgetAt(p, readings, waves, k).fits
      {
        SurvivorFits(p, o, plan, readings, waves, k);
      }
    } else {
      var readings, waves, k := UnfitFrom(p, o, plan);
      assert PacedRunOf(p, o, plan, readings, waves);
    }
  }

  /** A plan can fit on battery and not survive: with 1000 s of runtime, 1980 s of plan fit; if mains returns, a
      wave of 980 s runs in full, and should mains fail again 20 s are left for 1000 s of plan. */
  lemma MainsCanUnfund()
    ensures var o, plan := OnBatteryReading(1000), [0, 980 * SECOND, 1000 * SECOND];
            Funded(DEFAULTS, o, Total(plan)) && !Survives(DEFAULTS, o, plan)
  {
    var p, o := DEFAULTS, OnBatteryReading(1000);
    var last: seq<nat> := [1000 * SECOND];
    var rest: seq<nat> := [980 * SECOND, 1000 * SECOND];
    var plan: seq<nat> := [0, 980 * SECOND, 1000 * SECOND];
    assert last[1..] == [] && rest[1..] == last && plan[1..] == rest;
    assert Total(last) == 1000 * SECOND;
    assert Total(rest) == 1980 * SECOND;
    assert Total(plan) == 1980 * SECOND;
    assert Kept(1000 * SECOND, 0.20) == 800 * SECOND && Kept(20 * SECOND, 0.20) == 16 * SECOND;
    assert AfterFirst(p, o, plan) == 1000 * SECOND;
    assert Lowest(p, 20 * SECOND) == 20 * SECOND;
    assert !Fits(16 * SECOND, 1000 * SECOND, 0.10);
    assert !SurvivesMains(p, 20 * SECOND, last);
    assert !SurvivesMains(p, 1000 * SECOND, rest);
  }
}
