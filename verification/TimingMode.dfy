/** How much time a flow allows at each step: an asymmetric hysteresis over power readings. */
module TimingMode {
  import opened Wrappers
  import opened AdaptiveParameters

  /** `Unset` is the empty mode of a fresh or persisted state. */
  datatype Mode = Unset | Relaxed | Nominal | Urgent
  {
    /** Higher is more urgent. */
    function Urgency(): nat {
      match this
      case Urgent => 2
      case Nominal => 1
      case _ => 0
    }
  }

  datatype TimingState = TimingState(mode: Mode, pendingMode: Mode, pendingCount: int)

  datatype Transition = Transition(from: Mode, to: Mode, changed: bool, reason: string)

  /** The mode a reading points at, before hysteresis. */
  function IndicatedMode(o: PowerObservation, parameters: Parameters): Mode {
    var p := WithDefaults(parameters);
    if o.OnMains() then Relaxed
    else if o.lowBattery then Urgent
    else if !o.Measured() then Urgent
    else if o.runtimeSeconds.value <= p.urgentSeconds then Urgent
    else if o.runtimeSeconds.value <= p.nominalSeconds then Nominal
    else Relaxed
  }

  /** A threshold raised by the improvement margin. */
  function WithMargin(threshold: int, p: Parameters): real {
    threshold as real * (1.0 + p.relaxMargin)
  }

  /** An improving reading clears the threshold it leaves behind by the configured margin. */
  predicate RelaxationEarned(o: PowerObservation, indicated: Mode, p: Parameters) {
    if o.OnMains() then true
    else if !o.Measured() then false
    else if !indicated.Nominal? && !indicated.Relaxed? then false
    else
      var threshold := if indicated.Nominal? then p.urgentSeconds else p.nominalSeconds;
      o.runtimeSeconds.value as real >= WithMargin(threshold, p)
  }

  function Cleared(s: TimingState): TimingState {
    s.(pendingMode := Unset, pendingCount := 0)
  }

  function Accumulate(s: TimingState, indicated: Mode, threshold: int, reason: string): (TimingState, Transition) {
    var count := if s.pendingMode != indicated then 1 else s.pendingCount + 1;
    if count < threshold then
      (s.(pendingMode := indicated, pendingCount := count), Transition(s.mode, s.mode, false, reason + "Pending"))
    else
      (TimingState(indicated, Unset, 0), Transition(s.mode, indicated, true, reason))
  }

  /** The decision for a reading that indicates a mode and did or did not earn a relaxation to it. */
  function Decide(s: TimingState, indicated: Mode, earned: bool, p: Parameters): (TimingState, Transition) {
    if indicated == s.mode then
      (Cleared(s), Transition(s.mode, s.mode, false, "ModeUnchanged"))
    else if indicated.Urgency() > s.mode.Urgency() then
      if p.escalateAfter <= 1 then
        (Cleared(s).(mode := indicated), Transition(s.mode, indicated, true, "Escalated"))
      else
        Accumulate(s, indicated, p.escalateAfter, "Escalated")
    else if !earned then
      (Cleared(s), Transition(s.mode, s.mode, false, "ImprovementWithinMargin"))
    else
      Accumulate(s, indicated, p.relaxAfter, "Relaxed")
  }

  /** Folds one reading into the state. */
  function Observe(state: TimingState, o: PowerObservation, parameters: Parameters): (TimingState, Transition) {
    var p := WithDefaults(parameters);
    var s := if state.mode.Unset? then state.(mode := Relaxed) else state;
    var indicated := IndicatedMode(o, p);
    Decide(s, indicated, RelaxationEarned(o, indicated, p), p)
  }

  const START := TimingState(Relaxed, Unset, 0)

  /** The state after a run of readings. */
  function After(s: TimingState, run: seq<PowerObservation>, p: Parameters): TimingState {
    if run == [] then s
    else Observe(After(s, run[..|run| - 1], p), run[|run| - 1], p).0
  }

  /** What the reading at index `k` decided. */
  function TransitionAt(s: TimingState, run: seq<PowerObservation>, p: Parameters, k: nat): Transition
    requires k < |run|
  {
    Observe(After(s, run[..k], p), run[k], p).1
  }

  /** What a transition reports: the modes before and after, whether they differ, and why. */
  lemma TransitionReports(s: TimingState, o: PowerObservation, p: Parameters)
    requires s.pendingCount >= 0
    ensures var (next, t) := Observe(s, o, p);
            && t.from == (if s.mode.Unset? then Relaxed else s.mode) && t.to == next.mode
            && (t.changed <==> t.from != t.to)
            && (t.changed ==> t.reason == if t.to.Urgency() > t.from.Urgency() then "Escalated" else "Relaxed")
            && (!t.changed && next.pendingCount > 0 ==>
                  t.reason == if next.pendingMode.Urgency() > t.from.Urgency() then "Escalated" + "Pending" else "Relaxed" + "Pending")
            && (!t.changed && next.pendingCount == 0 ==>
                  t.reason == if IndicatedMode(o, p) == t.from then "ModeUnchanged" else "ImprovementWithinMargin")
  {
  }

  // ---- two runs: losing data never makes the flow less urgent ----

  /** `d` is `o` with the runtime figure, its trust, both or neither deleted. */
  predicate Degrades(o: PowerObservation, d: PowerObservation) {
    && d.onBattery == o.onBattery
    && d.lowBattery == o.lowBattery
    && (d.runtimeSeconds.None? || d.runtimeSeconds == o.runtimeSeconds)
    && (d.runtimeTrusted ==> o.runtimeTrusted)
  }

  predicate RunDegrades(run: seq<PowerObservation>, degraded: seq<PowerObservation>) {
    |run| == |degraded| && forall k :: 0 <= k < |run| ==> Degrades(run[k], degraded[k])
  }

  /** Simulation relation. A relaxation the degraded flow is counting towards has either
      already happened in the original flow, or is at least as far along there. */
  predicate Dominates(s: TimingState, d: TimingState) {
    && s.pendingCount >= 0
    && d.mode.Urgency() >= s.mode.Urgency()
    && (!d.pendingMode.Unset? ==>
          || s.mode.Urgency() <= d.pendingMode.Urgency()
          || (s.pendingMode == d.pendingMode && s.pendingCount >= d.pendingCount))
  }

  /** A degraded reading indicates Urgent, or says exactly what the original said. */
  lemma DegradedIndication(o: PowerObservation, od: PowerObservation, p: Parameters)
    requires Degrades(o, od) && Filled(p)
    ensures || IndicatedMode(od, p).Urgent?
            || (IndicatedMode(od, p) == IndicatedMode(o, p) &&
                RelaxationEarned(od, IndicatedMode(od, p), p) == RelaxationEarned(o, IndicatedMode(o, p), p))
  {
  }

  lemma DominatesDecision(s: TimingState, d: TimingState, indicated: Mode, earned: bool, indicatedD: Mode, earnedD: bool, p: Parameters)
    requires Dominates(s, d) && !s.mode.Unset? && !d.mode.Unset? && !indicated.Unset? && p.escalateAfter == 1 && p.relaxAfter >= 1
    requires indicatedD.Urgent? || (indicatedD == indicated && earnedD == earned)
    ensures Dominates(Decide(s, indicated, earned, p).0, Decide(d, indicatedD, earnedD, p).0)
  {
  }

  lemma DominatesStep(s: TimingState, d: TimingState, o: PowerObservation, od: PowerObservation, p: Parameters)
    requires Dominates(s, d) && Degrades(o, od) && WithDefaults(p).escalateAfter == 1
    ensures Dominates(Observe(s, o, p).0, Observe(d, od, p).0)
  {
    var q := WithDefaults(p);
    DegradedIndication(o, od, q);
    var s', d' := if s.mode.Unset? then s.(mode := Relaxed) else s, if d.mode.Unset? then d.(mode := Relaxed) else d;
    DominatesDecision(s', d', IndicatedMode(o, q), RelaxationEarned(o, IndicatedMode(o, q), q),
                      IndicatedMode(od, q), RelaxationEarned(od, IndicatedMode(od, q), q), q);
  }

  lemma {:induction false} DegradedRunDominates(s: TimingState, run: seq<PowerObservation>, degraded: seq<PowerObservation>, p: Parameters)
    requires RunDegrades(run, degraded) && WithDefaults(p).escalateAfter == 1 && s.pendingCount >= 0
    ensures Dominates(After(s, run, p), After(s, degraded, p))
  {
    if run != [] {
      var n := |run| - 1;
      DegradedRunDominates(s, run[..n], degraded[..n], p);
      DominatesStep(After(s, run[..n], p), After(s, degraded[..n], p), run[n], degraded[n], p);
    }
  }

  /** With the thresholds inverted no reading indicates Nominal, and both flows stay in step
      however slowly escalation counts. */
  predicate InvertedRelated(s: TimingState, d: TimingState) {
    && s.mode in {Relaxed, Urgent} && d.mode in {Relaxed, Urgent}
    && s.pendingCount >= 0 && d.pendingCount >= 0
    && (s.pendingMode.Unset? <==> s.pendingCount == 0)
    && (d.pendingMode.Unset? <==> d.pendingCount == 0)
    && s.pendingMode in {Unset, Relaxed, Urgent} - {s.mode}
    && d.pendingMode in {Unset, Relaxed, Urgent} - {d.mode}
    && (s.mode.Urgent? ==> d.mode.Urgent?)
    && (s.mode == d.mode == Relaxed ==> s.pendingCount <= d.pendingCount)
    && (s.mode == d.mode == Urgent ==> d.pendingCount <= s.pendingCount)
  }

  lemma InvertedDecision(s: TimingState, d: TimingState, indicated: Mode, earned: bool, indicatedD: Mode, earnedD: bool, p: Parameters)
    requires InvertedRelated(s, d) && indicated in {Relaxed, Urgent} && p.escalateAfter >= 1 && p.relaxAfter >= 1
    requires indicatedD.Urgent? || (indicatedD == indicated && earnedD == earned)
    ensures InvertedRelated(Decide(s, indicated, earned, p).0, Decide(d, indicatedD, earnedD, p).0)
  {
  }

  lemma InvertedStep(s: TimingState, d: TimingState, o: PowerObservation, od: PowerObservation, p: Parameters)
    requires InvertedRelated(s, d) && Degrades(o, od)
    requires WithDefaults(p).nominalSeconds <= WithDefaults(p).urgentSeconds
    ensures InvertedRelated(Observe(s, o, p).0, Observe(d, od, p).0)
  {
    var q := WithDefaults(p);
    DegradedIndication(o, od, q);
    InvertedDecision(s, d, IndicatedMode(o, q), RelaxationEarned(o, IndicatedMode(o, q), q),
                     IndicatedMode(od, q), RelaxationEarned(od, IndicatedMode(od, q), q), q);
  }

  lemma {:induction false} InvertedRun(run: seq<PowerObservation>, degraded: seq<PowerObservation>, p: Parameters)
    requires RunDegrades(run, degraded)
    requires WithDefaults(p).nominalSeconds <= WithDefaults(p).urgentSeconds
    ensures InvertedRelated(After(START, run, p), After(START, degraded, p))
  {
    if run != [] {
      var n := |run| - 1;
      InvertedRun(run[..n], degraded[..n], p);
      InvertedStep(After(START, run[..n], p), After(START, degraded[..n], p), run[n], degraded[n], p);
    }
  }

  /** Losing data is safe for these parameters: in no run does deleting figures or trust from
      any readings leave the flow less urgent at the end (hence, prefixes being runs, at any step). */
  ghost predicate LosingDataIsSafe(p: Parameters) {
    forall run, degraded :: RunDegrades(run, degraded) ==>
      After(START, degraded, p).mode.Urgency() >= After(START, run, p).mode.Urgency()
  }

  function Repeat(o: PowerObservation, n: nat): (run: seq<PowerObservation>)
    ensures |run| == n && forall k :: 0 <= k < n ==> run[k] == o
  {
    seq(n, _ => o)
  }

  lemma NominalStep(s: TimingState, o: PowerObservation, p: Parameters)
    requires s.mode.Relaxed? && IndicatedMode(o, p).Nominal? && WithDefaults(p).escalateAfter > 1
    ensures var count := if s.pendingMode.Nominal? then s.pendingCount + 1 else 1;
            Observe(s, o, p).0 ==
            if count < WithDefaults(p).escalateAfter then TimingState(Relaxed, Nominal, count) else TimingState(Nominal, Unset, 0)
  {
  }

  lemma {:induction false} SlowEscalationCounts(p: Parameters, n: nat, nominal: PowerObservation)
    requires WithDefaults(p).escalateAfter > 1 && 1 <= n <= WithDefaults(p).escalateAfter
    requires IndicatedMode(nominal, p).Nominal?
    ensures After(START, Repeat(nominal, n), p) ==
            if n < WithDefaults(p).escalateAfter then TimingState(Relaxed, Nominal, n) else TimingState(Nominal, Unset, 0)
  {
    assert Repeat(nominal, n)[..n - 1] == Repeat(nominal, n - 1);
    if n > 1 { SlowEscalationCounts(p, n - 1, nominal); }
    NominalStep(After(START, Repeat(nominal, n - 1), p), nominal, p);
  }

  /** The failing family: with slow escalation, one lost reading delays Nominal by one step. */
  lemma {:induction false} LostReadingDelays(p: Parameters, n: nat, nominal: PowerObservation)
    requires WithDefaults(p).escalateAfter > 1 && 1 <= n <= WithDefaults(p).escalateAfter
    requires IndicatedMode(nominal, p).Nominal? && nominal.onBattery && !nominal.lowBattery
    ensures var lost := nominal.(runtimeSeconds := None);
            After(START, [lost] + Repeat(nominal, n - 1), p) ==
            if n == 1 then TimingState(Relaxed, Urgent, 1) else TimingState(Relaxed, Nominal, n - 1)
  {
    var lost := nominal.(runtimeSeconds := None);
    var degraded := [lost] + Repeat(nominal, n - 1);
    if n == 1 {
      assert degraded[..0] == [] && IndicatedMode(lost, p).Urgent?;
    } else {
      LostReadingDelays(p, n - 1, nominal);
      assert degraded[..n - 1] == [lost] + Repeat(nominal, n - 2);
      NominalStep(After(START, degraded[..n - 1], p), nominal, p);
    }
  }

  /** Exactly which parameters make losing data safe: those that escalate on one reading,
      or whose thresholds leave no room for Nominal. */
  lemma LosingDataIsSafeExactlyWhen(p: Parameters)
    ensures LosingDataIsSafe(p) <==>
            WithDefaults(p).escalateAfter == 1 || WithDefaults(p).nominalSeconds <= WithDefaults(p).urgentSeconds
  {
    var q := WithDefaults(p);
    if q.escalateAfter == 1 || q.nominalSeconds <= q.urgentSeconds {
      forall run, degraded | RunDegrades(run, degraded)
        ensures After(START, degraded, p).mode.Urgency() >= After(START, run, p).mode.Urgency()
      {
        if q.escalateAfter == 1 { DegradedRunDominates(START, run, degraded, p); } else { InvertedRun(run, degraded, p); }
      }
    } else {
      var nominal := OnBatteryReading(q.nominalSeconds);
      SlowEscalationCounts(p, q.escalateAfter, nominal);
      LostReadingDelays(p, q.escalateAfter, nominal);
      assert RunDegrades(Repeat(nominal, q.escalateAfter),
                         [nominal.(runtimeSeconds := None)] + Repeat(nominal, q.escalateAfter - 1));
    }
  }

  // ---- steady readings: the mode they point at is reached, and exactly when ----

  /** The readings a change from one mode to another must be seen in. */
  function Needed(mode: Mode, m: Mode, p: Parameters): int {
    if m.Urgency() > mode.Urgency() then p.escalateAfter else p.relaxAfter
  }

  /** The reading indicates `m`, and counts for a change to it. */
  predicate PointsAt(mode: Mode, m: Mode, o: PowerObservation, p: Parameters) {
    IndicatedMode(o, p) == m && (m.Urgency() > mode.Urgency() || RelaxationEarned(o, m, WithDefaults(p)))
  }

  /** The readings towards `m` already counted. */
  function Head(s: TimingState, m: Mode): int {
    if s.pendingMode == m then s.pendingCount else 0
  }

  lemma SteadyStep(s: TimingState, m: Mode, o: PowerObservation, p: Parameters)
    requires s.pendingCount >= 0 && !m.Unset? && m.Urgency() != s.mode.Urgency() && PointsAt(s.mode, m, o, p)
    ensures var next := Observe(s, o, p).0;
            if Head(s, m) + 1 >= Needed(s.mode, m, WithDefaults(p)) then next.mode == m
            else next.mode.Urgency() == s.mode.Urgency() && next.pendingMode == m && next.pendingCount == Head(s, m) + 1
  {
  }

  lemma {:induction false} SteadyRun(s: TimingState, m: Mode, run: seq<PowerObservation>, p: Parameters)
    requires s.pendingCount >= 0 && !m.Unset? && m.Urgency() != s.mode.Urgency() && run != []
    requires forall k :: 0 <= k < |run| ==> PointsAt(s.mode, m, run[k], p)
    ensures var r := After(s, run, p);
            if Head(s, m) + |run| >= Needed(s.mode, m, WithDefaults(p)) then r.mode == m
            else r.mode.Urgency() == s.mode.Urgency() && r.pendingMode == m && r.pendingCount == Head(s, m) + |run|
  {
    var front, last := run[..|run| - 1], run[|run| - 1];
    if front == [] {
      SteadyStep(s, m, last, p);
    } else {
      SteadyRun(s, m, front, p);
      var r := After(s, front, p);
      if r.mode != m { SteadyStep(r, m, last, p); }
    }
  }

  /** Readings that keep pointing at another mode reach it, and do so exactly with the reading that completes
      the count. */
  lemma SteadyReadingsSettle(s: TimingState, m: Mode, run: seq<PowerObservation>, p: Parameters)
    requires s.pendingCount >= 0 && !m.Unset? && m.Urgency() != s.mode.Urgency()
    requires forall k :: 0 <= k < |run| ==> PointsAt(s.mode, m, run[k], p)
    ensures After(s, run, p).mode == m <==> run != [] && Head(s, m) + |run| >= Needed(s.mode, m, WithDefaults(p))
  {
    if run != [] { SteadyRun(s, m, run, p); }
  }

  /** Mains back for the relaxation count relaxes any flow, whatever figures come with it. */
  lemma MainsRestores(s: TimingState, run: seq<PowerObservation>, p: Parameters)
    requires (s.mode.Nominal? || s.mode.Urgent?) && s.pendingCount >= 0
    requires |run| >= WithDefaults(p).relaxAfter && forall k :: 0 <= k < |run| ==> run[k].OnMains()
    ensures After(s, run, p).mode.Relaxed?
  {
    SteadyReadingsSettle(s, Relaxed, run, p);
  }

  /** A low battery, or no trusted figure on battery, makes any flow Urgent within the escalation count. */
  lemma BlindOrLowIsUrgent(s: TimingState, run: seq<PowerObservation>, p: Parameters)
    requires !s.mode.Urgent? && s.pendingCount >= 0 && |run| >= WithDefaults(p).escalateAfter
    requires forall k :: 0 <= k < |run| ==> run[k].lowBattery || (run[k].onBattery && !run[k].Measured())
    ensures After(s, run, p).mode.Urgent?
  {
    SteadyReadingsSettle(s, Urgent, run, p);
  }

  /** The reading keeps the mode: it indicates it, or an improvement that is not earned. */
  predicate Keeps(mode: Mode, o: PowerObservation, p: Parameters) {
    var m := IndicatedMode(o, p);
    m == mode || (m.Urgency() < mode.Urgency() && !RelaxationEarned(o, m, WithDefaults(p)))
  }

  lemma {:induction false} KeepingRun(s: TimingState, o: PowerObservation, p: Parameters, n: nat)
    requires !s.mode.Unset? && Keeps(s.mode, o, p)
    ensures After(s, Repeat(o, n), p).mode == s.mode
  {
    if n > 0 {
      assert Repeat(o, n)[..n - 1] == Repeat(o, n - 1);
      KeepingRun(s, o, p, n - 1);
    }
  }

  /** Where a flow ends that keeps reading `seconds` of trusted runtime on battery: from the start, after as many
      readings as escalation needs. */
  lemma EscalatesExactlyWhen(seconds: int, p: Parameters)
    ensures var q, r := WithDefaults(p), seconds;
            var mode := After(START, Repeat(OnBatteryReading(r), q.escalateAfter), p).mode;
            && (mode.Urgent? <==> r <= q.urgentSeconds)
            && (mode.Nominal? <==> q.urgentSeconds < r <= q.nominalSeconds)
            && (mode.Relaxed? <==> r > q.urgentSeconds && r > q.nominalSeconds)
  {
    var q, o := WithDefaults(p), OnBatteryReading(seconds);
    if seconds > q.urgentSeconds && seconds > q.nominalSeconds {
      KeepingRun(START, o, p, q.escalateAfter);
    } else {
      SteadyReadingsSettle(START, if seconds <= q.urgentSeconds then Urgent else Nominal, Repeat(o, q.escalateAfter), p);
    }
  }

  /** From an escalated mode, after as many readings as relaxation needs: the margin decides. */
  lemma RelaxesExactlyWhen(seconds: int, p: Parameters)
    ensures var q, r := WithDefaults(p), seconds;
            var mode := After(TimingState(Urgent, Unset, 0), Repeat(OnBatteryReading(r), q.relaxAfter), p).mode;
            && (mode.Nominal? <==> q.urgentSeconds as real * (1.0 + q.relaxMargin) <= r as real && q.urgentSeconds < r <= q.nominalSeconds)
            && (mode.Relaxed? <==> q.nominalSeconds as real * (1.0 + q.relaxMargin) <= r as real && r > q.nominalSeconds && r > q.urgentSeconds)
    ensures var q, r := WithDefaults(p), seconds;
            var mode := After(TimingState(Nominal, Unset, 0), Repeat(OnBatteryReading(r), q.relaxAfter), p).mode;
            mode.Relaxed? <==> q.nominalSeconds as real * (1.0 + q.relaxMargin) <= r as real && r > q.nominalSeconds && r > q.urgentSeconds
  {
    var q := WithDefaults(p);
    var clearUrgent, clearNominal, fromUrgent, fromNominal := RelaxedFrom(seconds, p);
    RelaxedByThresholds(seconds, q.urgentSeconds, q.nominalSeconds, clearUrgent, clearNominal,
                        IndicatedMode(OnBatteryReading(seconds), p), fromUrgent, fromNominal);
  }

  /** The thresholds with their margin, and the modes reached from Urgent and from Nominal. */
  lemma RelaxedFrom(seconds: int, p: Parameters) returns (clearUrgent: real, clearNominal: real, fromUrgent: Mode, fromNominal: Mode)
    ensures var q := WithDefaults(p);
            && clearUrgent == q.urgentSeconds as real * (1.0 + q.relaxMargin)
            && clearNominal == q.nominalSeconds as real * (1.0 + q.relaxMargin)
    ensures var q, o := WithDefaults(p), OnBatteryReading(seconds);
            && fromUrgent == After(TimingState(Urgent, Unset, 0), Repeat(o, q.relaxAfter), p).mode
            && fromNominal == After(TimingState(Nominal, Unset, 0), Repeat(o, q.relaxAfter), p).mode
    ensures var q, m := WithDefaults(p), IndicatedMode(OnBatteryReading(seconds), p);
            var earned := (m.Nominal? && clearUrgent <= seconds as real) || (m.Relaxed? && clearNominal <= seconds as real);
            && (m == if seconds <= q.urgentSeconds then Urgent else if seconds <= q.nominalSeconds then Nominal else Relaxed)
            && Settles(Urgent, m, earned, fromUrgent) && Settles(Nominal, m, earned, fromNominal)
  {
    var q, o := WithDefaults(p), OnBatteryReading(seconds);
    IndicatedOnBattery(seconds, p);
    clearUrgent, clearNominal := ClearOnBattery(seconds, IndicatedMode(o, p), q);
    fromUrgent := RelaxesFrom(Urgent, IndicatedMode(o, p), o, p);
    fromNominal := RelaxesFrom(Nominal, IndicatedMode(o, p), o, p);
  }

  lemma IndicatedOnBattery(seconds: int, p: Parameters)
    ensures var q := WithDefaults(p);
            IndicatedMode(OnBatteryReading(seconds), p) ==
            if seconds <= q.urgentSeconds then Urgent else if seconds <= q.nominalSeconds then Nominal else Relaxed
  {
  }

  /** The same over plain numbers: the thresholds, the thresholds with their margin, and the two modes reached. */
  lemma RelaxedByThresholds(seconds: int, urgent: int, nominal: int, clearUrgent: real, clearNominal: real,
                            m: Mode, fromUrgent: Mode, fromNominal: Mode)
    requires m == if seconds <= urgent then Urgent else if seconds <= nominal then Nominal else Relaxed
    requires var earned := (m.Nominal? && clearUrgent <= seconds as real) || (m.Relaxed? && clearNominal <= seconds as real);
             Settles(Urgent, m, earned, fromUrgent) && Settles(Nominal, m, earned, fromNominal)
    ensures fromUrgent.Nominal? <==> clearUrgent <= seconds as real && urgent < seconds <= nominal
    ensures fromUrgent.Relaxed? <==> clearNominal <= seconds as real && seconds > nominal && seconds > urgent
    ensures fromNominal.Relaxed? <==> clearNominal <= seconds as real && seconds > nominal && seconds > urgent
  {
  }

  /** Where a run of one reading that indicates m leaves a flow. */
  ghost predicate Settles(mode: Mode, m: Mode, earned: bool, reached: Mode) {
    && (m.Urgency() < mode.Urgency() && earned ==> reached == m)
    && (m == mode || (m.Urgency() < mode.Urgency() && !earned) ==> reached == mode)
    && (m.Urgency() > mode.Urgency() ==> reached == mode || reached == m)
  }

  lemma ClearOnBattery(seconds: int, m: Mode, q: Parameters) returns (clearUrgent: real, clearNominal: real)
    ensures clearUrgent == q.urgentSeconds as real * (1.0 + q.relaxMargin)
    ensures clearNominal == q.nominalSeconds as real * (1.0 + q.relaxMargin)
    ensures RelaxationEarned(OnBatteryReading(seconds), m, q) <==>
            (m.Nominal? && clearUrgent <= seconds as real) || (m.Relaxed? && clearNominal <= seconds as real)
  {
    clearUrgent, clearNominal := WithMargin(q.urgentSeconds, q), WithMargin(q.nominalSeconds, q);
  }

  /** The defaults in seconds: one reading of up to 300 s on battery makes a flow Urgent, up to 900 s Nominal, and
      three readings of at least 990 s relax it again. */
  lemma DefaultThresholds(seconds: int)
    ensures var once := After(START, [OnBatteryReading(seconds)], DEFAULTS).mode;
            (once.Urgent? <==> seconds <= 300) && (once.Nominal? <==> 300 < seconds <= 900)
    ensures var thrice := After(TimingState(Urgent, Unset, 0), Repeat(OnBatteryReading(seconds), 3), DEFAULTS).mode;
            (thrice.Nominal? <==> 330 <= seconds <= 900) && (thrice.Relaxed? <==> 990 <= seconds)
  {
    EscalatesExactlyWhen(seconds, DEFAULTS);
    assert Repeat(OnBatteryReading(seconds), 1) == [OnBatteryReading(seconds)];
    RelaxesExactlyWhen(seconds, DEFAULTS);
  }

  lemma RelaxesFrom(mode: Mode, m: Mode, o: PowerObservation, p: Parameters) returns (reached: Mode)
    requires mode.Urgent? || mode.Nominal?
    requires !m.Unset? && IndicatedMode(o, p) == m
    ensures reached == After(TimingState(mode, Unset, 0), Repeat(o, WithDefaults(p).relaxAfter), p).mode
    ensures Settles(mode, m, RelaxationEarned(o, m, WithDefaults(p)), reached)
  {
    reached := After(TimingState(mode, Unset, 0), Repeat(o, WithDefaults(p).relaxAfter), p).mode;
    var s, n := TimingState(mode, Unset, 0), WithDefaults(p).relaxAfter;
    if Keeps(mode, o, p) {
      KeepingRun(s, o, p, n);
    } else {
      SteadyRun(s, m, Repeat(o, n), p);
    }
  }

  // ---- one run: how often the mode can move, and on what evidence ----

  function Relaxations(s: TimingState, run: seq<PowerObservation>, p: Parameters): nat {
    if run == [] then 0
    else
      var t := TransitionAt(s, run, p, |run| - 1);
      Relaxations(s, run[..|run| - 1], p) + if t.changed && t.to.Urgency() < t.from.Urgency() then 1 else 0
  }

  function Escalations(s: TimingState, run: seq<PowerObservation>, p: Parameters): nat {
    if run == [] then 0
    else
      var t := TransitionAt(s, run, p, |run| - 1);
      Escalations(s, run[..|run| - 1], p) + if t.changed && t.to.Urgency() > t.from.Urgency() then 1 else 0
  }

  /** One reading adds at most one to the count, and a change spends a full count. */
  lemma StepCost(s: TimingState, o: PowerObservation, p: Parameters)
    requires s.pendingCount >= 0
    ensures var q := WithDefaults(p);
            var (next, t) := Observe(s, o, p);
            next.pendingCount >= 0 &&
            if !t.changed then next.pendingCount <= s.pendingCount + 1
            else
              next.pendingCount == 0 && t.to.Urgency() != t.from.Urgency() &&
              (if t.to.Urgency() < t.from.Urgency() then q.relaxAfter else q.escalateAfter) <= s.pendingCount + 1
  {
  }

  lemma Spend(relaxAfter: nat, escalateAfter: nat, r: nat, e: nat, c: int, n: nat, r': nat, e': nat, c': int)
    requires relaxAfter * r + escalateAfter * e + c <= n
    requires || (r' == r && e' == e && c' <= c + 1)
             || (r' == r + 1 && e' == e && c' == 0 && relaxAfter <= c + 1)
             || (r' == r && e' == e + 1 && c' == 0 && escalateAfter <= c + 1)
    ensures relaxAfter * r' + escalateAfter * e' + c' <= n + 1
  {
    assert relaxAfter * (r + 1) == relaxAfter * r + relaxAfter;
    assert escalateAfter * (e + 1) == escalateAfter * e + escalateAfter;
  }

  /** Every mode change is paid for by its own readings: relaxations and escalations together
      cannot outnumber what the run supplied. */
  lemma {:induction false} ChangesArePaidFor(run: seq<PowerObservation>, p: Parameters)
    ensures After(START, run, p).pendingCount >= 0
    ensures WithDefaults(p).relaxAfter * Relaxations(START, run, p) +
            WithDefaults(p).escalateAfter * Escalations(START, run, p) + After(START, run, p).pendingCount <= |run|
  {
    if run != [] {
      var n := |run| - 1;
      ChangesArePaidFor(run[..n], p);
      var s := After(START, run[..n], p);
      StepCost(s, run[n], p);
      Spend(WithDefaults(p).relaxAfter, WithDefaults(p).escalateAfter,
            Relaxations(START, run[..n], p), Escalations(START, run[..n], p), s.pendingCount, n,
            Relaxations(START, run, p), Escalations(START, run, p), After(START, run, p).pendingCount);
    }
  }

  lemma StepLevel(s: TimingState, o: PowerObservation, p: Parameters)
    ensures var (next, t) := Observe(s, o, p);
            if !t.changed then next.mode.Urgency() == s.mode.Urgency()
            else
              && next.mode.Urgency() == t.to.Urgency() && s.mode.Urgency() == t.from.Urgency()
              && t.to.Urgency() != t.from.Urgency()
  {
  }

  /** The mode climbs at most two levels between relaxations. */
  lemma {:induction false} EscalationsBounded(run: seq<PowerObservation>, p: Parameters)
    ensures Escalations(START, run, p) <=
            After(START, run, p).mode.Urgency() + 2 * Relaxations(START, run, p) <=
            2 + 2 * Relaxations(START, run, p)
  {
    if run != [] {
      EscalationsBounded(run[..|run| - 1], p);
      StepLevel(After(START, run[..|run| - 1], p), run[|run| - 1], p);
    }
  }

  /** The readings a pending count stands for: the last `pendingCount` readings all indicate the
      pending mode, and a pending relaxation also cleared the margin every time. */
  ghost predicate PendingIsWitnessed(s: TimingState, run: seq<PowerObservation>, p: Parameters) {
    && 0 <= s.pendingCount <= |run|
    && (s.pendingCount > 0 ==> !s.pendingMode.Unset? && s.pendingMode != s.mode)
    && forall k :: |run| - s.pendingCount <= k < |run| ==>
         && IndicatedMode(run[k], p) == s.pendingMode
         && (s.pendingMode.Urgency() < s.mode.Urgency() ==> RelaxationEarned(run[k], s.pendingMode, WithDefaults(p)))
  }

  lemma {:induction false} PendingWitnessed(run: seq<PowerObservation>, p: Parameters)
    ensures PendingIsWitnessed(After(START, run, p), run, p)
  {
    if run != [] {
      PendingWitnessed(run[..|run| - 1], p);
    }
  }

  /** A relaxation to mode m is preceded by `relaxAfter` consecutive readings, ending with the one
      that decided it, all indicating m and all clearing the margin. */
  lemma RelaxationIsEvidenced(run: seq<PowerObservation>, p: Parameters, k: nat)
    requires k < |run|
    requires var t := TransitionAt(START, run, p, k); t.changed && t.to.Urgency() < t.from.Urgency()
    ensures var q := WithDefaults(p);
            var m := TransitionAt(START, run, p, k).to;
            q.relaxAfter <= k + 1 &&
            forall j :: k + 1 - q.relaxAfter <= j <= k ==> IndicatedMode(run[j], p) == m && RelaxationEarned(run[j], m, q)
  {
    PendingWitnessed(run[..k], p);
    var s := After(START, run[..k], p);
    var q := WithDefaults(p);
    var m := TransitionAt(START, run, p, k).to;
    assert m == IndicatedMode(run[k], p);
    forall j | k + 1 - q.relaxAfter <= j <= k
      ensures IndicatedMode(run[j], p) == m && RelaxationEarned(run[j], m, q)
    {
      if j < k {
        assert run[..k][j] == run[j];
      }
    }
  }

  // ---- dead bands ----

  /** On battery, and either untrusted or below `bound` seconds. */
  predicate BelowOrUntrusted(o: PowerObservation, bound: real) {
    o.onBattery && (o.Measured() ==> o.runtimeSeconds.value as real < bound)
  }

  lemma MarginIsMonotone(p: Parameters)
    requires Filled(p) && p.urgentSeconds <= p.nominalSeconds
    ensures WithMargin(p.urgentSeconds, p) <= WithMargin(p.nominalSeconds, p)
  {
  }

  lemma UrgentHolds(s: TimingState, o: PowerObservation, p: Parameters)
    requires s.mode.Urgent? && WithDefaults(p).urgentSeconds <= WithDefaults(p).nominalSeconds
    requires BelowOrUntrusted(o, WithMargin(WithDefaults(p).urgentSeconds, WithDefaults(p)))
    ensures Observe(s, o, p).0.mode.Urgent?
  {
    MarginIsMonotone(WithDefaults(p));
    assert !RelaxationEarned(o, Nominal, WithDefaults(p)) && !RelaxationEarned(o, Relaxed, WithDefaults(p));
  }

  lemma NotRelaxedHolds(s: TimingState, o: PowerObservation, p: Parameters)
    requires s.mode.Nominal? || s.mode.Urgent?
    requires BelowOrUntrusted(o, WithMargin(WithDefaults(p).nominalSeconds, WithDefaults(p)))
    ensures Observe(s, o, p).0.mode.Nominal? || Observe(s, o, p).0.mode.Urgent?
  {
    assert !RelaxationEarned(o, Relaxed, WithDefaults(p));
  }

  /** No run of readings under Urgent x (1 + margin) ever leaves Urgent. */
  lemma {:induction false} UrgentDeadBand(s: TimingState, run: seq<PowerObservation>, p: Parameters, bound: real)
    requires s.mode.Urgent? && WithDefaults(p).urgentSeconds <= WithDefaults(p).nominalSeconds
    requires bound == WithMargin(WithDefaults(p).urgentSeconds, WithDefaults(p))
    requires forall k :: 0 <= k < |run| ==> BelowOrUntrusted(run[k], bound)
    ensures After(s, run, p).mode.Urgent?
  {
    if run != [] {
      UrgentDeadBand(s, run[..|run| - 1], p, bound);
      UrgentHolds(After(s, run[..|run| - 1], p), run[|run| - 1], p);
    }
  }

  /** No run of readings under Nominal x (1 + margin) ever returns to Relaxed, whatever the
      order of the two thresholds. */
  lemma {:induction false} RelaxedDeadBand(s: TimingState, run: seq<PowerObservation>, p: Parameters, bound: real)
    requires s.mode.Nominal? || s.mode.Urgent?
    requires bound == WithMargin(WithDefaults(p).nominalSeconds, WithDefaults(p))
    requires forall k :: 0 <= k < |run| ==> BelowOrUntrusted(run[k], bound)
    ensures After(s, run, p).mode.Nominal? || After(s, run, p).mode.Urgent?
  {
    if run != [] {
      RelaxedDeadBand(s, run[..|run| - 1], p, bound);
      NotRelaxedHolds(After(s, run[..|run| - 1], p), run[|run| - 1], p);
    }
  }

  lemma IntegerAbove(x: real, y: real, k: nat)
    requires x >= 0.0 && y >= 0.0
    ensures (x * y).Floor >= 0
    ensures ((x * y).Floor + k + 1) as real >= x * y
  {
    assert x * y >= 0.0;
  }

  /** At every margin some trusted reading on battery clears it. */
  lemma RelaxingReading(p: Parameters) returns (o: PowerObservation)
    ensures o.onBattery && o.Measured()
    ensures IndicatedMode(o, p).Relaxed? && RelaxationEarned(o, Relaxed, WithDefaults(p))
  {
    var q := WithDefaults(p);
    var above := q.nominalSeconds + q.urgentSeconds;
    IntegerAbove(q.nominalSeconds as real, 1.0 + q.relaxMargin, above);
    o := OnBatteryReading((q.nominalSeconds as real * (1.0 + q.relaxMargin)).Floor + above + 1);
  }

  /** A margin of 100% or more is not unreachable, contrary to the finding `Validate` reports for it:
      at every margin some reading on battery, repeated, relaxes any escalated flow completely. */
  lemma EveryMarginIsReachable(s: TimingState, p: Parameters) returns (o: PowerObservation)
    requires (s.mode.Nominal? || s.mode.Urgent?) && s.pendingCount >= 0
    ensures o.onBattery && o.Measured()
    ensures After(s, Repeat(o, WithDefaults(p).relaxAfter), p).mode.Relaxed?
  {
    o := RelaxingReading(p);
    SteadyReadingsSettle(s, Relaxed, Repeat(o, WithDefaults(p).relaxAfter), p);
  }
}
