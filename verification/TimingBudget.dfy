/** How far the remaining plan is compressed to fit the runtime left. */
module TimingBudget {
  import opened Wrappers
  import opened AdaptiveParameters

  datatype Budget = Budget(compression: real, available: int, required: int, fits: bool, measured: bool)

  /** Conversion of a fractional duration to an integer one: truncation towards zero. */
  function Truncate(x: real): int {
    if x >= 0.0 then x.Floor else -((-x).Floor)
  }

  /** The runtime a budget is derived from: the trusted figure, or the assumed one. */
  function RuntimeFigure(p: Parameters, o: PowerObservation): int {
    if o.Measured() then o.runtimeSeconds.value * SECOND else p.assumedRuntimeUnknown
  }

  /** What is left of a runtime figure once the reserve is held back. */
  function Kept(r: int, rho: real): int {
    Truncate(r as real * (1.0 - rho))
  }

  function Available(p: Parameters, o: PowerObservation): int {
    Kept(RuntimeFigure(p, o), p.reserveFraction)
  }

  /** The share of a reading's runtime held back from the plan. */
  function Reserve(p: Parameters, o: PowerObservation): real {
    p.reserveFraction * RuntimeFigure(p, o) as real
  }

  function Ratio(available: int, plan: int): real
    requires plan > 0
  {
    available as real / plan as real
  }

  /** Nothing declared a duration, or the plan need not be compressed past the minimum. */
  predicate Fits(available: int, plan: int, least: real) {
    plan <= 0 || Ratio(available, plan) >= least
  }

  function Compression(available: int, plan: int, least: real): real {
    if plan <= 0 then 1.0
    else if Ratio(available, plan) > 1.0 then 1.0
    else if !Fits(available, plan, least) then least
    else Ratio(available, plan)
  }

  function FilledBudget(p: Parameters, o: PowerObservation, remainingPlan: int): Budget {
    if o.OnMains() then Budget(1.0, RuntimeFigure(p, o), remainingPlan, true, o.Measured())
    else
      var available := Available(p, o);
      Budget(Compression(available, remainingPlan, p.minimumCompression), available, remainingPlan,
             Fits(available, remainingPlan, p.minimumCompression), o.Measured())
  }

  function BudgetFor(p: Parameters, o: PowerObservation, remainingPlan: int): Budget {
    FilledBudget(WithDefaults(p), o, remainingPlan)
  }

  /** A declared duration under a compression; no declared duration means no limit and stays zero. */
  function Scaled(declared: int, compression: real): int {
    if declared <= 0 then 0
    else if compression <= 0.0 || compression >= 1.0 then declared
    else Truncate(declared as real * compression)
  }

  function ScaleDuration(declared: int, b: Budget): int {
    Scaled(declared, b.compression)
  }

  // ---- one budget ----

  lemma ScaledShortens(declared: int, c: real)
    ensures 0 <= Scaled(declared, c) <= if declared <= 0 then 0 else declared
  {
    if declared > 0 && 0.0 < c < 1.0 {
      var x := declared as real;
      assert 0.0 <= x * c <= x * 1.0;
    }
  }

  /** For accepted parameters the compression lies in the closed range from the minimum to one, so
      adaptation only ever shortens a declared duration. */
  lemma CompressionOnlyShortens(p: Parameters, o: PowerObservation, remainingPlan: int, declared: int)
    requires Accepted(WithDefaults(p))
    ensures WithDefaults(p).minimumCompression <= BudgetFor(p, o, remainingPlan).compression <= 1.0
    ensures 0 <= ScaleDuration(declared, BudgetFor(p, o, remainingPlan)) <= if declared <= 0 then 0 else declared
  {
    AcceptedMeans(WithDefaults(p));
    ScaledShortens(declared, BudgetFor(p, o, remainingPlan).compression);
  }

  /** A budget reports the plan it was asked about and whether the figure was measured. On mains all of the figure is
      available and nothing is compressed; on battery the reserve is held back. */
  lemma BudgetReports(p: Parameters, o: PowerObservation, remainingPlan: int)
    ensures var b, q := BudgetFor(p, o, remainingPlan), WithDefaults(p);
            var measured := o.runtimeSeconds.Some? && o.runtimeTrusted;
            var figure := if measured then o.runtimeSeconds.value * SECOND else q.assumedRuntimeUnknown;
            && b.required == remainingPlan && b.measured == measured
            && (if !o.onBattery && !o.lowBattery then b.available == figure && b.fits && b.compression == 1.0
                else b.available == Kept(figure, q.reserveFraction))
  {
  }

  /** What the reserve leaves of a figure, to the nanosecond. */
  lemma KeptBounds(r: int, rho: real)
    requires r >= 0 && rho <= 1.0
    ensures Kept(r, rho) as real <= r as real * (1.0 - rho) < Kept(r, rho) as real + 1.0
  {
    Scale(0.0, r as real, 1.0 - rho);
  }

  /** The allowance of a wave: nothing for no declared duration, all of it outside a proper compression, and the
      compressed duration to the nanosecond within one. */
  lemma ScaledExactly(declared: int, c: real)
    ensures declared <= 0 ==> Scaled(declared, c) == 0
    ensures declared > 0 && (c <= 0.0 || c >= 1.0) ==> Scaled(declared, c) == declared
    ensures declared > 0 && 0.0 < c < 1.0 ==> Scaled(declared, c) as real <= declared as real * c < Scaled(declared, c) as real + 1.0
  {
    if declared > 0 && 0.0 < c < 1.0 { Scale(0.0, declared as real, c); }
  }

  /** The defaults in figures: a fifth of the runtime is held back, a plan fits up to eight times the runtime, and
      without a figure five minutes are assumed. */
  lemma DefaultBudget(o: PowerObservation, plan: nat)
    requires o.onBattery && o.Measured() && o.runtimeSeconds.value >= 0 && plan > 0
    ensures var b, r := BudgetFor(DEFAULTS, o, plan), o.runtimeSeconds.value * SECOND;
            5 * b.available == 4 * r && (b.fits <==> plan <= 8 * r)
    ensures RuntimeFigure(DEFAULTS, PowerObservation(true, false, None, true)) == 300 * SECOND
  {
    var r := o.runtimeSeconds.value * SECOND;
    DefaultAvailable(o.runtimeSeconds.value);
    FitsMeans(Kept(r, 0.20), plan, 0.10);
  }

  lemma DefaultAvailable(seconds: nat)
    ensures Kept(seconds * SECOND, 0.20) == seconds * 800_000_000
  {
    var x := (seconds * SECOND) as real * (1.0 - 0.20);
    assert x == (seconds * 800_000_000) as real;
  }

  // ---- whole plans ----

  /** One wave of the plan: what it declared it needs and what it took. */
  datatype Wave = Wave(declared: int, spent: int)

  /** The sum of the declared durations of the waves not yet run. */
  function Remaining(waves: seq<Wave>): int {
    if waves == [] then 0 else waves[0].declared + Remaining(waves[1..])
  }

  /** The budget computed before wave `k`, for parameters whose defaults are filled in. */
  function BudgetAt(p: Parameters, readings: seq<PowerObservation>, waves: seq<Wave>, k: nat): Budget
    requires k < |readings| && k <= |waves|
  {
    FilledBudget(p, readings[k], Remaining(waves[k..]))
  }

  /** A plan executed with the budget recomputed before every wave, on battery or on mains: each wave keeps to its
      scaled duration, and the figure the next budget reads falls by at most the time spent. */
  ghost predicate Paced(p: Parameters, readings: seq<PowerObservation>, waves: seq<Wave>) {
    && |readings| == |waves| + 1
    && (forall k :: 0 <= k < |waves| ==>
          && waves[k].declared >= 0
          && 0 <= waves[k].spent <= ScaleDuration(waves[k].declared, BudgetAt(p, readings, waves, k))
          && RuntimeFigure(p, readings[k + 1]) >= RuntimeFigure(p, readings[k]) - waves[k].spent)
  }

  /** The same, and a wave that starts on mains does not cost runtime. */
  ghost predicate Disciplined(p: Parameters, readings: seq<PowerObservation>, waves: seq<Wave>) {
    && Paced(p, readings, waves)
    && (forall k :: 0 <= k < |waves| && readings[k].OnMains() ==> RuntimeFigure(p, readings[k + 1]) >= RuntimeFigure(p, readings[k]))
  }

  /** The remaining plan fits what is available at a reading; on battery, what the budget reports. */
  predicate Funded(p: Parameters, o: PowerObservation, rest: int) {
    Fits(Available(p, o), rest, p.minimumCompression)
  }

  /** The compression a reading on battery gives the remaining plan. */
  function Pace(p: Parameters, o: PowerObservation, rest: int): real {
    Compression(Available(p, o), rest, p.minimumCompression)
  }

  lemma {:induction false} RemainingNonNegative(waves: seq<Wave>)
    requires forall k :: 0 <= k < |waves| ==> waves[k].declared >= 0
    ensures Remaining(waves) >= 0
  {
    if waves != [] {
      RemainingNonNegative(waves[1..]);
    }
  }

  lemma Scale(x: real, y: real, k: real)
    requires x <= y && k >= 0.0
    ensures x * k <= y * k
  {
  }

  lemma FloorShift(x: real, y: real, n: int)
    requires y >= x - n as real
    ensures Truncate(y) >= x.Floor - n
  {
    assert y.Floor >= x.Floor - n;
  }

  /** Spending t nanoseconds costs the available time at most t, truncation included. */
  lemma AvailableFallsByTimeSpent(r: int, r': int, t: int, rho: real)
    requires t >= 0 && r' >= r - t && r > 0 && 0.0 < rho < 1.0
    ensures Kept(r', rho) >= Kept(r, rho) - t
  {
    var keep := 1.0 - rho;
    Distribute(r as real, r' as real, t as real, keep);
    FloorShift(r as real * keep, r' as real * keep, t);
  }

  lemma Linear(a: real, b: real, c: real, t: real)
    requires a >= b - c && c <= t
    ensures a >= b - t
  {
  }

  lemma Distribute(r: real, r': real, t: real, keep: real)
    requires t >= 0.0 && r' >= r - t && r >= 0.0 && 0.0 < keep < 1.0
    ensures r' * keep >= r * keep - t
    ensures r * keep >= 0.0
  {
    Scale(r - t, r', keep);
    assert (r - t) * keep == r * keep - t * keep;
    Scale(keep, 1.0, t);
    Linear(r' * keep, r * keep, t * keep, t);
    Scale(0.0, r, keep);
  }

  lemma ShareOf(rho: real, r: int)
    requires 0.0 < rho < 1.0 && r > 0
    ensures 0.0 < rho * r as real <= r as real
  {
    Scale(rho, 1.0, r as real);
  }

  /** Spending no more than the available time leaves the reserve's share of the figure. */
  lemma AvailableKeepsReserve(r: int, r': int, t: int, rho: real)
    requires 0.0 < rho < 1.0 && r > 0 && r' >= r - t
    requires t <= Kept(r, rho) || t <= 0
    ensures r' as real >= rho * r as real
    ensures r' > 0
  {
    ShareOf(rho, r);
    var x := r as real * (1.0 - rho);
    assert x == r as real - rho * r as real;
  }

  lemma RatioTimesPlan(a: int, plan: int)
    requires plan > 0
    ensures Ratio(a, plan) * plan as real == a as real
    ensures Ratio(a, plan) > 1.0 <==> a > plan
    ensures Ratio(a, plan) >= 1.0 <==> a >= plan
  {
  }

  lemma Cancel(x: real, y: real, s: real)
    requires s > 0.0 && x * s >= y * s
    ensures x >= y
  {
  }

  /** The time a plan takes if every wave uses its whole allowance. */
  function ScaledTotal(waves: seq<Wave>, c: real): int {
    if waves == [] then 0 else Scaled(waves[0].declared, c) + ScaledTotal(waves[1..], c)
  }

  lemma ScaledShare(d: int, c: real)
    requires d >= 0 && 0.0 < c <= 1.0
    ensures Scaled(d, c) as real <= d as real * c
  {
    if d > 0 && c < 1.0 { Scale(0.0, d as real, c); }
  }

  lemma {:induction false} ScaledTotalShare(waves: seq<Wave>, c: real)
    requires 0.0 < c <= 1.0 && forall k :: 0 <= k < |waves| ==> waves[k].declared >= 0
    ensures ScaledTotal(waves, c) as real <= Remaining(waves) as real * c
  {
    if waves != [] {
      ScaledTotalShare(waves[1..], c);
      ScaledShare(waves[0].declared, c);
      AddShares(waves[0].declared as real, Remaining(waves[1..]) as real, c);
    }
  }

  lemma AddShares(x: real, y: real, c: real)
    ensures (x + y) * c == x * c + y * c
  {
  }

  lemma FitsMeans(a: int, plan: int, least: real)
    requires plan > 0
    ensures Fits(a, plan, least) <==> least * plan as real <= a as real
  {
    RatioTimesPlan(a, plan);
    if Fits(a, plan, least) { Scale(least, Ratio(a, plan), plan as real); }
    if least * plan as real <= a as real { Cancel(Ratio(a, plan), least, plan as real); }
  }

  /** The minimum compression is reached: on battery exactly when what is available is no more than the plan at
      that compression. The range of compressions is closed at both ends. */
  lemma MinimumIsReachedExactlyWhen(p: Parameters, o: PowerObservation, plan: int)
    requires Accepted(WithDefaults(p)) && !o.OnMains() && plan > 0
    ensures BudgetFor(p, o, plan).compression == WithDefaults(p).minimumCompression <==>
            BudgetFor(p, o, plan).available as real <= WithDefaults(p).minimumCompression * plan as real
    ensures BudgetFor(p, o, plan).compression == 1.0 <==> plan <= BudgetFor(p, o, plan).available
  {
    AcceptedMeans(WithDefaults(p));
    LeastIsReached(Available(WithDefaults(p), o), plan, WithDefaults(p).minimumCompression);
    CompressionIsTight(Available(WithDefaults(p), o), plan, WithDefaults(p).minimumCompression);
  }

  lemma LeastIsReached(a: int, plan: int, least: real)
    requires plan > 0 && 0.0 < least < 1.0
    ensures Compression(a, plan, least) == least <==> a as real <= least * plan as real
  {
    RatioTimesPlan(a, plan);
    FitsMeans(a, plan, least);
    if Ratio(a, plan) == least { assert least * plan as real == a as real; }
    if a as real == least * plan as real { Cancel(Ratio(a, plan), least, plan as real); Cancel(least, Ratio(a, plan), plan as real); }
  }

  // ---- a lost figure ----

  /** A reading that has lost its figure or its trust is budgeted on the assumed runtime, which is no larger exactly
      when the figure was at least that. Otherwise the budget is the more generous for knowing less. */
  lemma LostFigureIsSafeExactlyWhen(p: Parameters, o: PowerObservation, lost: PowerObservation, rest: int)
    requires Filled(p) && Accepted(p) && o.Measured() && !lost.Measured()
    ensures RuntimeFigure(p, lost) <= RuntimeFigure(p, o) <==> o.runtimeSeconds.value * SECOND >= p.assumedRuntimeUnknown
    ensures RuntimeFigure(p, lost) > RuntimeFigure(p, o) > 0 ==>
              Pace(p, lost, rest) >= Pace(p, o, rest) && (Funded(p, o, rest) ==> Funded(p, lost, rest))
  {
    AcceptedMeans(p);
    if RuntimeFigure(p, lost) > RuntimeFigure(p, o) > 0 { HigherFigureIsGenerous(p, o, lost, rest); }
  }

  lemma HigherFigureIsGenerous(p: Parameters, o: PowerObservation, o': PowerObservation, rest: int)
    requires 0.0 < p.reserveFraction < 1.0 && 0.0 < p.minimumCompression < 1.0 && RuntimeFigure(p, o') >= RuntimeFigure(p, o) > 0
    ensures Pace(p, o', rest) >= Pace(p, o, rest) && (Funded(p, o, rest) ==> Funded(p, o', rest))
  {
    AvailableFallsByTimeSpent(RuntimeFigure(p, o), RuntimeFigure(p, o'), 0, p.reserveFraction);
    CompressionGrows(Available(p, o), Available(p, o'), rest, p.minimumCompression);
  }

  lemma CompressionGrows(a: int, a': int, plan: int, least: real)
    requires a <= a' && 0.0 < least < 1.0
    ensures Compression(a, plan, least) <= Compression(a', plan, least) && (Fits(a, plan, least) ==> Fits(a', plan, least))
  {
    if plan > 0 { RatioGrows(a, a', plan); }
  }

  lemma RatioGrows(a: int, a': int, plan: int)
    requires plan > 0 && a <= a'
    ensures Ratio(a, plan) <= Ratio(a', plan)
  {
    RatioTimesPlan(a, plan);
    RatioTimesPlan(a', plan);
    Cancel(Ratio(a', plan), Ratio(a, plan), plan as real);
  }

  /** What a budget on battery promises: the plan is left alone exactly when it needs no more than is available,
      it fits exactly when the minimum compression would make it, and a plan that fits, run at its allowances
      from start to end, stays within what is available. */
  lemma BudgetIsTight(p: Parameters, o: PowerObservation, waves: seq<Wave>)
    requires Accepted(WithDefaults(p)) && !o.OnMains() && Remaining(waves) > 0
    requires forall k :: 0 <= k < |waves| ==> waves[k].declared >= 0
    ensures var b := BudgetFor(p, o, Remaining(waves));
            && (b.compression == 1.0 <==> Remaining(waves) <= b.available)
            && (b.fits <==> WithDefaults(p).minimumCompression * Remaining(waves) as real <= b.available as real)
            && (b.fits ==> ScaledTotal(waves, b.compression) <= b.available)
  {
    AcceptedMeans(WithDefaults(p));
    PlanIsTight(Available(WithDefaults(p), o), waves, WithDefaults(p).minimumCompression);
  }

  lemma PlanIsTight(a: int, waves: seq<Wave>, least: real)
    requires 0.0 < least < 1.0 && Remaining(waves) > 0 && forall k :: 0 <= k < |waves| ==> waves[k].declared >= 0
    ensures var c := Compression(a, Remaining(waves), least);
            && (c == 1.0 <==> Remaining(waves) <= a)
            && (Fits(a, Remaining(waves), least) <==> least * Remaining(waves) as real <= a as real)
            && (Fits(a, Remaining(waves), least) ==> ScaledTotal(waves, c) <= a)
  {
    CompressionIsTight(a, Remaining(waves), least);
    FitsMeans(a, Remaining(waves), least);
    if Fits(a, Remaining(waves), least) { AllowancesFit(a, waves, Compression(a, Remaining(waves), least)); }
  }

  lemma CompressionIsTight(a: int, plan: int, least: real)
    requires plan > 0 && 0.0 < least < 1.0
    ensures Compression(a, plan, least) == 1.0 <==> plan <= a
    ensures 0.0 < Compression(a, plan, least) <= 1.0
    ensures Fits(a, plan, least) ==> plan as real * Compression(a, plan, least) <= a as real
  {
    RatioTimesPlan(a, plan);
  }

  lemma AllowancesFit(a: int, waves: seq<Wave>, c: real)
    requires 0.0 < c <= 1.0 && Remaining(waves) as real * c <= a as real
    requires forall k :: 0 <= k < |waves| ==> waves[k].declared >= 0
    ensures ScaledTotal(waves, c) <= a
  {
    ScaledTotalShare(waves, c);
  }

  /** A wave that keeps to its compressed duration pays no more than its share of the available time. */
  lemma ShareOfAvailable(a: int, plan: int, d: int, t: int)
    requires 0 < a < plan && 0 <= d <= plan
    requires 0 <= t <= Scaled(d, Ratio(a, plan))
    ensures t * plan <= d * a
  {
    if d > 0 {
      RatioTimesPlan(a, plan);
      var c := Ratio(a, plan);
      var product := d as real * c;
      assert c > 0.0;
      assert t as real <= product;
      assert t as real * plan as real <= product * plan as real;
      assert product * plan as real == d as real * (c * plan as real);
      IntProduct(t, plan);
      IntProduct(d, a);
    }
  }

  lemma IntProduct(x: int, y: int)
    ensures (x * y) as real == x as real * y as real
  {
  }

  lemma IntScale(x: int, y: int, k: int)
    requires x <= y && k >= 0
    ensures x * k <= y * k
  {
  }

  lemma IntCancel(x: int, y: int, k: int)
    requires k > 0 && x * k <= y * k
    ensures x <= y
  {
  }

  lemma IntDistribute(a: int, t: int, d: int, plan: int)
    requires t * plan <= d * a
    ensures (a - t) * plan >= a * (plan - d)
  {
  }

  /** The ratio of available time to remaining plan does not fall across a wave. */
  lemma RatioDoesNotFall(a: int, plan: int, d: int, t: int, a': int)
    requires a > 0 && plan > 0 && 0 <= d < plan && t >= 0 && a' >= a - t
    requires if a < plan then t * plan <= d * a else t <= d
    ensures Ratio(a', plan - d) >= Ratio(a, plan)
  {
    IntScale(a - t, a', plan);
    if a >= plan {
      IntScale(t, d, plan);
      IntScale(plan, a, d);
    }
    IntDistribute(a, t, d, plan);
    CrossMultiply(a', plan - d, a, plan);
  }

  lemma CrossMultiply(a': int, plan': int, a: int, plan: int)
    requires plan > 0 && plan' > 0 && a' * plan >= a * plan'
    ensures Ratio(a', plan') >= Ratio(a, plan)
  {
    RatioTimesPlan(a, plan);
    RatioTimesPlan(a', plan');
    var q, q' := Ratio(a, plan), Ratio(a', plan');
    var s := plan as real * plan' as real;
    assert q' * s == (q' * plan' as real) * plan as real;
    assert q * s == (q * plan as real) * plan' as real;
    IntProduct(a', plan);
    IntProduct(a, plan');
    Cancel(q', q, s);
  }

  lemma FittingIsPositive(a: int, plan: int, least: real)
    requires plan > 0 && least > 0.0 && Fits(a, plan, least)
    ensures a > 0
  {
    RatioTimesPlan(a, plan);
  }

  /** One wave, in the available time alone: the wave stays within it, a fitting plan still fits and
      is compressed no harder. */
  lemma WaveKeepsRatio(a: int, a': int, d: int, rest: int, t: int, least: real)
    requires d >= 0 && rest >= 0 && d + rest > 0 && least > 0.0
    requires Fits(a, d + rest, least) && 0 <= t <= Scaled(d, Compression(a, d + rest, least))
    ensures a > 0 && t <= a
    ensures a' >= a - t ==>
              Fits(a', rest, least) && Compression(a', rest, least) >= Compression(a, d + rest, least)
  {
    var plan := d + rest;
    FittingIsPositive(a, plan, least);
    RatioTimesPlan(a, plan);
    if a < plan {
      ShareOfAvailable(a, plan, d, t);
      IntScale(d, plan, a);
      IntCancel(t, a, plan);
    }
    if a' >= a - t && rest > 0 {
      RatioDoesNotFall(a, plan, d, t, a');
    }
  }

  /** One wave started on battery within its budget, with the figure falling by at most the time spent. */
  ghost predicate WaveRun(p: Parameters, o: PowerObservation, o': PowerObservation, wave: Wave, rest: int) {
    && !o.OnMains()
    && wave.declared >= 0 && rest >= 0
    && 0 <= wave.spent <= ScaleDuration(wave.declared, FilledBudget(p, o, wave.declared + rest))
    && RuntimeFigure(p, o') >= RuntimeFigure(p, o) - wave.spent
  }

  /** One wave: a fitting plan stays within the available time. */
  lemma WaveStaysWithinAvailable(p: Parameters, o: PowerObservation, o': PowerObservation, wave: Wave, rest: int)
    requires Filled(p) && WaveRun(p, o, o', wave, rest) && Funded(p, o, wave.declared + rest)
    ensures wave.spent <= Available(p, o) || wave.spent <= 0
  {
    if wave.declared + rest > 0 {
      WaveKeepsRatio(Available(p, o), 0, wave.declared, rest, wave.spent, p.minimumCompression);
    }
  }

  /** One wave: a fitting plan still fits and is compressed no harder. */
  lemma WaveKeepsFit(p: Parameters, o: PowerObservation, o': PowerObservation, wave: Wave, rest: int)
    requires Filled(p) && WaveRun(p, o, o', wave, rest) && Funded(p, o, wave.declared + rest)
    requires Available(p, o') >= Available(p, o) - wave.spent
    ensures Funded(p, o', rest) && Pace(p, o', rest) >= Pace(p, o, wave.declared + rest)
  {
    if wave.declared + rest > 0 {
      WaveKeepsRatio(Available(p, o), Available(p, o'), wave.declared, rest, wave.spent, p.minimumCompression);
    }
  }

  /** A wave that costs no runtime: the same, whatever it took. */
  lemma FreeWaveKeepsFit(p: Parameters, o: PowerObservation, o': PowerObservation, declared: int, rest: int)
    requires Filled(p) && p.reserveFraction < 1.0 && declared >= 0 && rest >= 0 && Funded(p, o, declared + rest)
    requires RuntimeFigure(p, o') >= RuntimeFigure(p, o) > 0
    ensures Funded(p, o', rest) && Pace(p, o', rest) >= Pace(p, o, declared + rest)
  {
    AvailableFallsByTimeSpent(RuntimeFigure(p, o), RuntimeFigure(p, o'), 0, p.reserveFraction);
    if declared + rest > 0 {
      ScaledShortens(declared, Pace(p, o, declared + rest));
      WaveKeepsRatio(Available(p, o), Available(p, o'), declared, rest, 0, p.minimumCompression);
    }
  }

  lemma SpendingAvailableKeepsReserve(p: Parameters, o: PowerObservation, o': PowerObservation, t: int)
    requires Filled(p) && p.reserveFraction < 1.0 && RuntimeFigure(p, o) > 0
    requires t <= Available(p, o) || t <= 0
    requires RuntimeFigure(p, o') >= RuntimeFigure(p, o) - t
    ensures RuntimeFigure(p, o') as real >= Reserve(p, o)
    ensures RuntimeFigure(p, o') > 0
  {
    AvailableKeepsReserve(RuntimeFigure(p, o), RuntimeFigure(p, o'), t, p.reserveFraction);
  }

  /** One wave of a fitting plan leaves at least the reserve's share of the runtime it started with. */
  lemma WaveLeavesReserve(p: Parameters, o: PowerObservation, o': PowerObservation, wave: Wave, rest: int)
    requires Filled(p) && p.reserveFraction < 1.0 && RuntimeFigure(p, o) > 0
    requires WaveRun(p, o, o', wave, rest) && Funded(p, o, wave.declared + rest)
    ensures RuntimeFigure(p, o') as real >= Reserve(p, o)
    ensures RuntimeFigure(p, o') > 0
  {
    WaveStaysWithinAvailable(p, o, o', wave, rest);
    SpendingAvailableKeepsReserve(p, o, o', wave.spent);
  }

  lemma WaveLeavesRuntime(p: Parameters, o: PowerObservation, o': PowerObservation, wave: Wave, rest: int)
    requires Filled(p) && p.reserveFraction < 1.0 && RuntimeFigure(p, o) > 0
    requires WaveRun(p, o, o', wave, rest) && Funded(p, o, wave.declared + rest)
    ensures RuntimeFigure(p, o') > 0
    ensures Available(p, o') >= Available(p, o) - wave.spent
  {
    WaveLeavesReserve(p, o, o', wave, rest);
    AvailableFallsByTimeSpent(RuntimeFigure(p, o), RuntimeFigure(p, o'), wave.spent, p.reserveFraction);
  }

  lemma PacedWave(p: Parameters, readings: seq<PowerObservation>, waves: seq<Wave>, k: nat)
    requires Paced(p, readings, waves) && k < |waves|
    ensures Remaining(waves[k..]) == waves[k].declared + Remaining(waves[k + 1..]) && Remaining(waves[k + 1..]) >= 0
    ensures !readings[k].OnMains() ==> WaveRun(p, readings[k], readings[k + 1], waves[k], Remaining(waves[k + 1..]))
  {
    assert waves[k..][1..] == waves[k + 1..];
    RemainingNonNegative(waves[k + 1..]);
  }

  /** The rest of the plan is funded at reading `k`, and there is runtime. */
  ghost predicate FundedAt(p: Parameters, readings: seq<PowerObservation>, waves: seq<Wave>, k: nat)
    requires k < |readings| && k <= |waves|
  {
    Funded(p, readings[k], Remaining(waves[k..])) && RuntimeFigure(p, readings[k]) > 0
  }

  function PaceAt(p: Parameters, readings: seq<PowerObservation>, waves: seq<Wave>, k: nat): real
    requires k < |readings| && k <= |waves|
  {
    Pace(p, readings[k], Remaining(waves[k..]))
  }

  lemma NextWaveIsFunded(p: Parameters, readings: seq<PowerObservation>, waves: seq<Wave>, k: nat)
    requires Filled(p) && p.reserveFraction < 1.0 && Disciplined(p, readings, waves) && k < |waves|
    requires FundedAt(p, readings, waves, k)
    ensures FundedAt(p, readings, waves, k + 1) && PaceAt(p, readings, waves, k) <= PaceAt(p, readings, waves, k + 1)
  {
    var o, o', wave, rest := readings[k], readings[k + 1], waves[k], Remaining(waves[k + 1..]);
    PacedWave(p, readings, waves, k);
    if o.OnMains() {
      FreeWaveKeepsFit(p, o, o', wave.declared, rest);
    } else {
      WaveLeavesRuntime(p, o, o', wave, rest);
      WaveKeepsFit(p, o, o', wave, rest);
    }
  }

  lemma {:induction false} PlanStaysFunded(p: Parameters, readings: seq<PowerObservation>, waves: seq<Wave>, k: nat)
    requires Filled(p) && p.reserveFraction < 1.0 && Disciplined(p, readings, waves) && k <= |waves|
    requires FundedAt(p, readings, waves, 0)
    ensures FundedAt(p, readings, waves, k)
  {
    if k > 0 {
      PlanStaysFunded(p, readings, waves, k - 1);
      NextWaveIsFunded(p, readings, waves, k - 1);
    }
  }

  lemma {:induction false} Climbs(paces: seq<real>, j: nat, k: nat)
    requires j <= k < |paces| && forall i :: 0 <= i < |paces| - 1 ==> paces[i] <= paces[i + 1]
    ensures paces[j] <= paces[k]
  {
    if j < k {
      Climbs(paces, j, k - 1);
      assert paces[k - 1] <= paces[k - 1 + 1];
    }
  }

  lemma PaceNeverFalls(p: Parameters, readings: seq<PowerObservation>, waves: seq<Wave>, j: nat, k: nat)
    requires Filled(p) && p.reserveFraction < 1.0 && Disciplined(p, readings, waves) && j <= k <= |waves|
    requires FundedAt(p, readings, waves, 0)
    ensures PaceAt(p, readings, waves, j) <= PaceAt(p, readings, waves, k)
  {
    var paces := seq(|readings|, i requires 0 <= i < |readings| => PaceAt(p, readings, waves, i));
    forall i | 0 <= i < |paces| - 1 ensures paces[i] <= paces[i + 1] {
      PlanStaysFunded(p, readings, waves, i);
      NextWaveIsFunded(p, readings, waves, i);
    }
    Climbs(paces, j, k);
  }

  /** Main result: a plan that fits at its first wave fits at every later one, on battery or on mains, no later
      budget is below an earlier one on battery, and runtime is left after every wave. */
  lemma FittingPlanStaysFunded(p: Parameters, readings: seq<PowerObservation>, waves: seq<Wave>, j: nat, k: nat)
    requires Filled(p) && p.reserveFraction < 1.0 && Disciplined(p, readings, waves) && j <= k <= |waves|
    requires RuntimeFigure(p, readings[0]) > 0 && Funded(p, readings[0], Remaining(waves))
    ensures BudgetAt(p, readings, waves, k).fits && Funded(p, readings[k], Remaining(waves[k..]))
    ensures !readings[j].OnMains() ==> BudgetAt(p, readings, waves, j).compression <= BudgetAt(p, readings, waves, k).compression
    ensures RuntimeFigure(p, readings[k]) > 0
  {
    assert waves[0..] == waves;
    PlanStaysFunded(p, readings, waves, k);
    PaceNeverFalls(p, readings, waves, j, k);
    assert FilledBudget(p, readings[k], Remaining(waves[k..])).compression >= PaceAt(p, readings, waves, k) by {
      PaceIsAtMostOne(p, readings[k], Remaining(waves[k..]));
    }
  }

  lemma PaceIsAtMostOne(p: Parameters, o: PowerObservation, rest: int)
    requires Funded(p, o, rest)
    ensures Pace(p, o, rest) <= 1.0
  {
  }

  // ---- what happens to the reserve over a whole plan ----

  function Spent(waves: seq<Wave>): int {
    if waves == [] then 0 else Spent(waves[..|waves| - 1]) + waves[|waves| - 1].spent
  }

  lemma {:induction false} SpentWithinDeclared(p: Parameters, readings: seq<PowerObservation>, waves: seq<Wave>, k: nat)
    requires Paced(p, readings, waves) && k <= |waves|
    ensures Spent(waves[..k]) <= Remaining(waves) - Remaining(waves[k..])
    ensures RuntimeFigure(p, readings[k]) >= RuntimeFigure(p, readings[0]) - Spent(waves[..k])
  {
    if k > 0 {
      SpentWithinDeclared(p, readings, waves, k - 1);
      assert waves[..k][..k - 1] == waves[..k - 1];
      assert waves[k - 1..][1..] == waves[k..];
      ScaledShortens(waves[k - 1].declared, BudgetAt(p, readings, waves, k - 1).compression);
    } else {
      assert waves[0..] == waves;
    }
  }

  ghost predicate StartsUncompressed(p: Parameters, readings: seq<PowerObservation>, waves: seq<Wave>) {
    && Paced(p, readings, waves)
    && RuntimeFigure(p, readings[0]) > 0
    && Remaining(waves) <= Available(p, readings[0])
  }

  lemma UncompressedPlanSpends(p: Parameters, readings: seq<PowerObservation>, waves: seq<Wave>, k: nat) returns (t: int)
    requires StartsUncompressed(p, readings, waves) && k <= |waves|
    ensures t <= Available(p, readings[0])
    ensures RuntimeFigure(p, readings[k]) >= RuntimeFigure(p, readings[0]) - t
  {
    t := Spent(waves[..k]);
    SpentWithinDeclared(p, readings, waves, k);
    RemainingNonNegative(waves[k..]);
  }

  /** A plan that starts uncompressed keeps the reserve of the first reading to the end. */
  lemma UncompressedPlanKeepsReserve(p: Parameters, readings: seq<PowerObservation>, waves: seq<Wave>, k: nat)
    requires Filled(p) && p.reserveFraction < 1.0 && k <= |waves|
    requires StartsUncompressed(p, readings, waves)
    ensures RuntimeFigure(p, readings[k]) as real >= Reserve(p, readings[0])
  {
    var t := UncompressedPlanSpends(p, readings, waves, k);
    SpendingAvailableKeepsReserve(p, readings[0], readings[k], t);
  }
}
