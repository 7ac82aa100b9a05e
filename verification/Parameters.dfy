/** Values shared by every module: an optional value. */
module Wrappers {
  datatype Option<+T> = None | Some(value: T)
}

/** The tunables of adaptive execution and the power reading they judge.
    Durations are integer nanoseconds, fractions are reals. */
module AdaptiveParameters {
  import opened Wrappers

  const SECOND := 1_000_000_000

  /** The power state at one decision point. */
  datatype PowerObservation = PowerObservation(
    onBattery: bool,
    lowBattery: bool,
    runtimeSeconds: Option<int>,
    runtimeTrusted: bool)
  {
    predicate OnMains() {
      !onBattery && !lowBattery
    }

    /** The runtime figure is present and responds to load. */
    predicate Measured() {
      runtimeSeconds.Some? && runtimeTrusted
    }
  }

  /** A trusted figure on battery. */
  function OnBatteryReading(seconds: int): PowerObservation {
    PowerObservation(true, false, Some(seconds), true)
  }

  datatype Parameters = Parameters(
    escalateAfter: int,
    relaxAfter: int,
    relaxMargin: real,
    urgentSeconds: int,
    nominalSeconds: int,
    idleCadence: int,
    activeCadence: int,
    reserveFraction: real,
    minimumCompression: real,
    assumedRuntimeUnknown: int)

  const DEFAULTS := Parameters(1, 3, 0.10, 300, 900, 60 * SECOND, 10 * SECOND, 0.20, 0.10, 300 * SECOND)

  /** Every field carries a usable value. */
  predicate Filled(p: Parameters) {
    && p.escalateAfter >= 1
    && p.relaxAfter >= 1
    && p.relaxMargin > 0.0
    && p.urgentSeconds >= 1
    && p.nominalSeconds >= 1
    && p.idleCadence >= 1
    && p.activeCadence >= 1
    && p.reserveFraction > 0.0
    && p.minimumCompression > 0.0
    && p.assumedRuntimeUnknown >= 1
  }

  function Or(value: int, fallback: int): (r: int)
    ensures fallback >= 1 ==> r >= 1
    ensures value >= 1 ==> r == value
  {
    if value <= 0 then fallback else value
  }

  function OrReal(value: real, fallback: real): (r: real)
    ensures fallback > 0.0 ==> r > 0.0
    ensures value > 0.0 ==> r == value
  {
    if value <= 0.0 then fallback else value
  }

  /** Fills unset (zero or negative) fields; the assumed runtime follows the urgent threshold. */
  function WithDefaults(p: Parameters): (r: Parameters)
    ensures Filled(r)
    ensures Filled(p) ==> r == p
  {
    var d := DEFAULTS;
    var urgent := Or(p.urgentSeconds, d.urgentSeconds);
    Parameters(
      Or(p.escalateAfter, d.escalateAfter),
      Or(p.relaxAfter, d.relaxAfter),
      OrReal(p.relaxMargin, d.relaxMargin),
      urgent,
      Or(p.nominalSeconds, d.nominalSeconds),
      Or(p.idleCadence, d.idleCadence),
      Or(p.activeCadence, d.activeCadence),
      OrReal(p.reserveFraction, d.reserveFraction),
      OrReal(p.minimumCompression, d.minimumCompression),
      Or(p.assumedRuntimeUnknown, urgent * SECOND))
  }

  /** A set field is kept; an unset one takes the fallback. */
  predicate Takes(value: int, fallback: int, result: int) {
    (value >= 1 ==> result == value) && (value <= 0 ==> result == fallback)
  }

  predicate TakesReal(value: real, fallback: real, result: real) {
    (value > 0.0 ==> result == value) && (value <= 0.0 ==> result == fallback)
  }

  /** Every field is filled on its own, and an unset assumed runtime is the urgent threshold in force. */
  lemma DefaultsFillOnlyGaps(p: Parameters)
    ensures var d, r := DEFAULTS, WithDefaults(p);
            && Takes(p.escalateAfter, d.escalateAfter, r.escalateAfter)
            && Takes(p.relaxAfter, d.relaxAfter, r.relaxAfter)
            && TakesReal(p.relaxMargin, d.relaxMargin, r.relaxMargin)
            && Takes(p.urgentSeconds, d.urgentSeconds, r.urgentSeconds)
            && Takes(p.nominalSeconds, d.nominalSeconds, r.nominalSeconds)
            && Takes(p.idleCadence, d.idleCadence, r.idleCadence)
            && Takes(p.activeCadence, d.activeCadence, r.activeCadence)
            && TakesReal(p.reserveFraction, d.reserveFraction, r.reserveFraction)
            && TakesReal(p.minimumCompression, d.minimumCompression, r.minimumCompression)
            && Takes(p.assumedRuntimeUnknown, r.urgentSeconds * SECOND, r.assumedRuntimeUnknown)
    ensures WithDefaults(WithDefaults(p)) == WithDefaults(p)
  {
  }

  datatype Severity = Error | Warning
  datatype Finding = Finding(severity: Severity, reason: string)

  function When(condition: bool, finding: Finding): seq<Finding> {
    if condition then [finding] else []
  }

  /** Parameter combinations that cannot behave as intended, every finding at once. */
  function Validate(p: Parameters): seq<Finding> {
    When(p.urgentSeconds >= p.nominalSeconds, Finding(Error, "TimingThresholdsInverted")) +
    When(p.relaxAfter <= p.escalateAfter, Finding(Warning, "HysteresisNotAsymmetric")) +
    When(p.relaxMargin >= 1.0, Finding(Error, "ImprovementMarginUnreachable")) +
    When(p.activeCadence > p.idleCadence, Finding(Warning, "CadenceSlowerDuringFlow")) +
    When(p.reserveFraction >= 1.0, Finding(Error, "ReserveConsumesAllRuntime")) +
    When(p.minimumCompression >= 1.0, Finding(Error, "MinimumCompressionRejectsEveryPlan"))
  }

  /** No finding with severity Error. */
  ghost predicate Accepted(p: Parameters) {
    forall f :: f in Validate(p) ==> f.severity != Error
  }

  /** The facts an accepted parameter set gives the timing proofs. */
  lemma AcceptedMeans(p: Parameters)
    ensures Accepted(p) <==>
            p.urgentSeconds < p.nominalSeconds && p.relaxMargin < 1.0 &&
            p.reserveFraction < 1.0 && p.minimumCompression < 1.0
  {
  }

  /** Every finding, and exactly when it is reported. */
  lemma FindingsMean(p: Parameters, f: Finding)
    ensures f in Validate(p) <==>
            || (f == Finding(Error, "TimingThresholdsInverted") && p.nominalSeconds <= p.urgentSeconds)
            || (f == Finding(Warning, "HysteresisNotAsymmetric") && p.relaxAfter <= p.escalateAfter)
            || (f == Finding(Error, "ImprovementMarginUnreachable") && 1.0 <= p.relaxMargin)
            || (f == Finding(Warning, "CadenceSlowerDuringFlow") && p.idleCadence < p.activeCadence)
            || (f == Finding(Error, "ReserveConsumesAllRuntime") && 1.0 <= p.reserveFraction)
            || (f == Finding(Error, "MinimumCompressionRejectsEveryPlan") && 1.0 <= p.minimumCompression)
  {
  }
}
