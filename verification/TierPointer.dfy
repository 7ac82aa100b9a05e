/** Where a shutdown flow has progressed to. Tiers count down: descending lowers the number. */
module TierPointer {

  datatype PointerState = PointerState(tier: int, deepest: int, started: bool, halted: bool)

  datatype Direction = Descended | Ascended | Held

  datatype Movement = Movement(from: int, to: int, direction: Direction, reexecution: bool)

  function Hold(s: PointerState): Movement {
    Movement(s.tier, s.tier, Held, false)
  }

  /** Repairs a persisted state whose deepest tier was never set or drifted above the tier. */
  function Normalize(s: PointerState): PointerState {
    if !s.started then s.(deepest := 0)
    else if s.deepest <= 0 || s.deepest > s.tier then s.(deepest := s.tier)
    else s
  }

  function Descend(state: PointerState, finalTier: int): (PointerState, Movement) {
    var s := Normalize(state);
    if s.halted then (s, Hold(s))
    else if !s.started then
      (s.(started := true, deepest := s.tier), Movement(s.tier, s.tier, Descended, false))
    else if s.tier <= finalTier then (s, Hold(s))
    else
      var tier := s.tier - 1;
      (s.(tier := tier, deepest := if tier < s.deepest then tier else s.deepest),
       Movement(s.tier, tier, Descended, tier >= s.deepest))
  }

  function Ascend(state: PointerState, startTier: int): (PointerState, Movement) {
    var s := Normalize(state);
    if s.halted || !s.started || s.tier >= startTier then (s, Hold(s))
    else (s.(tier := s.tier + 1), Movement(s.tier, s.tier + 1, Ascended, false))
  }

  function Halt(s: PointerState): PointerState {
    s.(halted := true)
  }

  /** A persisted state is repaired before use: an unstarted flow has no depth; a started one keeps a depth that is
      set and not above its tier, and takes its tier otherwise. Nothing else changes. */
  lemma NormalizeRepairs(s: PointerState, bound: int)
    ensures var r := Normalize(s);
            && r.tier == s.tier && r.started == s.started && r.halted == s.halted
            && r.deepest == (if !s.started then 0 else if 1 <= s.deepest <= s.tier then s.deepest else s.tier)
    ensures Descend(s, bound) == Descend(Normalize(s), bound) && Ascend(s, bound) == Ascend(Normalize(s), bound)
  {
  }

  // ---- whole flows ----

  datatype Step = StepDescend(finalTier: int) | StepAscend(startTier: int) | StepHalt

  function Take(s: PointerState, step: Step): (PointerState, Movement) {
    match step
    case StepDescend(f) => Descend(s, f)
    case StepAscend(t) => Ascend(s, t)
    case StepHalt => (Halt(s), Hold(s))
  }

  function Initial(start: int): PointerState {
    PointerState(start, 0, false, false)
  }

  /** The state after a flow that starts at tier `start`. */
  function After(start: int, steps: seq<Step>): PointerState {
    if steps == [] then Initial(start)
    else Take(After(start, steps[..|steps| - 1]), steps[|steps| - 1]).0
  }

  /** What step `k` of the flow decided. */
  function MovementAt(start: int, steps: seq<Step>, k: nat): Movement
    requires k < |steps|
  {
    Take(After(start, steps[..k]), steps[k]).1
  }

  /** The tiers a flow executed: those it entered by descending. */
  ghost function Executed(start: int, steps: seq<Step>): set<int> {
    set k | 0 <= k < |steps| && MovementAt(start, steps, k).direction == Descended ::
      MovementAt(start, steps, k).to
  }

  /** A flow that starts at tier 1 or above, descends to final tiers of at least `floor` and records ascents up
      to at most `top`. */
  predicate Within(start: int, floor: int, top: int, steps: seq<Step>) {
    && start >= 1
    && forall k :: 0 <= k < |steps| ==>
         match steps[k]
         case StepDescend(f) => f >= floor
         case StepAscend(t) => t <= top
         case StepHalt => true
  }

  /** Descents stop above tier 0, and an ascent passes the start tier by at most one, unless it stays where no
      descent can leave from. */
  predicate Sound(start: int, floor: int, top: int) {
    floor >= 1 && (top <= start + 1 || top <= floor)
  }

  lemma ExecutedGrows(start: int, steps: seq<Step>, step: Step)
    ensures var m := Take(After(start, steps), step).1;
            Executed(start, steps + [step]) ==
            Executed(start, steps) + (if m.direction == Descended then {m.to} else {})
  {
    var all := steps + [step];
    assert all[..|steps|] == steps;
    forall k | 0 <= k < |steps|
      ensures MovementAt(start, all, k) == MovementAt(start, steps, k)
    {
      assert all[..k] == steps[..k];
    }
    var m := Take(After(start, steps), step).1;
    assert MovementAt(start, all, |steps|) == m;
    forall t | t in Executed(start, steps)
      ensures t in Executed(start, all)
    {
      var k :| 0 <= k < |steps| && MovementAt(start, steps, k).direction == Descended &&
               MovementAt(start, steps, k).to == t;
      assert MovementAt(start, all, k).to == t;
    }
  }

  lemma AfterSnoc(start: int, steps: seq<Step>, step: Step)
    ensures After(start, steps + [step]) == Take(After(start, steps), step).0
  {
    assert (steps + [step])[..|steps|] == steps;
  }

  /** Main invariant: the executed tiers are exactly the interval from the deepest tier
      reached up to the tier the flow started from. */
  lemma {:induction false} ExecutedIsInterval(start: int, floor: int, top: int, steps: seq<Step>)
    requires Within(start, floor, top, steps) && Sound(start, floor, top)
    ensures var s := After(start, steps);
            if s.started then
              && 1 <= s.deepest <= start && s.deepest <= s.tier && (s.tier <= start + 1 || s.tier <= top <= floor)
              && (forall t :: t in Executed(start, steps) <==> s.deepest <= t <= start)
            else
              s.tier == start && s.deepest == 0 && Executed(start, steps) == {}
  {
    if steps != [] {
      var front, last := steps[..|steps| - 1], steps[|steps| - 1];
      assert steps == front + [last];
      ExecutedIsInterval(start, floor, top, front);
      ExecutedGrows(start, front, last);
    }
  }

  /** Step `k` is reported as re-execution exactly when it descends to a tier executed before. */
  ghost predicate ReportsExactly(start: int, steps: seq<Step>, k: nat)
    requires k < |steps|
  {
    MovementAt(start, steps, k).reexecution <==>
      MovementAt(start, steps, k).direction == Descended && MovementAt(start, steps, k).to in Executed(start, steps[..k])
  }

  lemma ReexecutionIsExact(start: int, floor: int, top: int, steps: seq<Step>, k: nat)
    requires Within(start, floor, top, steps) && Sound(start, floor, top) && k < |steps|
    ensures ReportsExactly(start, steps, k)
  {
    ExecutedIsInterval(start, floor, top, steps[..k]);
  }

  /** The flow descends at this step: to the tier it starts from, or one down while above the final tier. */
  predicate GoesDown(s: PointerState, step: Step) {
    step.StepDescend? && !s.halted && (!s.started || s.tier > step.finalTier)
  }

  /** The flow ascends at this step: one up while below the bound. */
  predicate GoesUp(s: PointerState, step: Step) {
    step.StepAscend? && !s.halted && s.started && s.tier < step.startTier
  }

  /** Exactly when and where a step of any flow moves, and what it reports. */
  lemma MovesExactlyWhen(start: int, steps: seq<Step>, k: nat)
    requires k < |steps|
    ensures var s, step, s', m := After(start, steps[..k]), steps[k], After(start, steps[..k + 1]), MovementAt(start, steps, k);
            && (m.direction == Descended <==> GoesDown(s, step))
            && (m.direction == Ascended <==> GoesUp(s, step))
            && m.from == s.tier && m.to == s'.tier
            && s'.tier == (if GoesDown(s, step) && s.started then s.tier - 1 else if GoesUp(s, step) then s.tier + 1 else s.tier)
            && (s'.started <==> s.started || GoesDown(s, step))
            && (s'.halted <==> s.halted || step.StepHalt?)
  {
    assert steps[..k + 1] == steps[..k] + [steps[k]];
    AfterSnoc(start, steps[..k], steps[k]);
  }

  // ---- flows that leave the bounds ----

  function Repeat(step: Step, n: nat): seq<Step> {
    seq(n, _ => step)
  }

  lemma RepeatSnoc(step: Step, n: nat)
    ensures Repeat(step, n + 1) == Repeat(step, n) + [step]
  {
  }

  /** Descending to tier 0 and once more up: the depth is recorded as 0. */
  function ToZeroAndUp(start: nat): seq<Step> {
    Repeat(StepDescend(0), start + 1) + [StepAscend(1)]
  }

  /** Descents make progress: each one after the first goes one tier down, until the final tier. After
      `start - final + 1` of them the flow has executed exactly the tiers from `final` to `start`. */
  lemma {:induction false} DescentsReach(start: int, final: int, n: nat)
    requires 0 <= final && n <= start - final && start >= 1
    ensures After(start, Repeat(StepDescend(final), n + 1)) == PointerState(start - n, start - n, true, false)
    ensures var executed := Executed(start, Repeat(StepDescend(final), n + 1));
            forall t :: t in executed <==> start - n <= t <= start
  {
    var front, step := Repeat(StepDescend(final), n), StepDescend(final);
    RepeatSnoc(step, n);
    AfterSnoc(start, front, step);
    ExecutedGrows(start, front, step);
    if n == 0 {
      assert front == [];
      assert Take(Initial(start), step).1.to == start;
    } else {
      DescentsReach(start, final, n - 1);
      assert Take(After(start, front), step) == (PointerState(start - n, start - n, true, false), Movement(start - n + 1, start - n, Descended, false));
    }
  }

  lemma BackUpFromZero(start: int)
    requires start >= 1
    ensures After(start, ToZeroAndUp(start)) == PointerState(1, 0, true, false)
    ensures 0 in Executed(start, ToZeroAndUp(start))
  {
    DescentsReach(start, 0, start);
    AfterSnoc(start, Repeat(StepDescend(0), start + 1), StepAscend(1));
    ExecutedGrows(start, Repeat(StepDescend(0), start + 1), StepAscend(1));
  }

  /** A flow that may target tier 0 reads its own depth back as unset and reports a second visit as a first. */
  lemma TargetingTierZeroMisreports(start: int, floor: int, top: int) returns (steps: seq<Step>, k: nat)
    requires top >= start >= 1 && floor <= 0
    ensures Within(start, floor, top, steps) && k < |steps| && !ReportsExactly(start, steps, k)
  {
    var front := ToZeroAndUp(start);
    BackUpFromZero(start);
    steps, k := front + [StepDescend(0)], |front|;
    assert steps[..k] == front;
  }

  /** The first tier executed, then nothing but ascents. */
  function UpTo(top: int, final: int, n: nat): seq<Step> {
    [StepDescend(final)] + Repeat(StepAscend(top), n)
  }

  lemma {:induction false} AscendingFromStart(start: int, final: int, top: int, n: nat)
    requires 1 <= start && start + n <= top
    ensures After(start, UpTo(top, final, n)) == PointerState(start + n, start, true, false)
    ensures Executed(start, UpTo(top, final, n)) == {start}
  {
    if n == 0 {
      assert UpTo(top, final, 0) == [] + [StepDescend(final)];
      AfterSnoc(start, [], StepDescend(final));
      ExecutedGrows(start, [], StepDescend(final));
    } else {
      RepeatSnoc(StepAscend(top), n - 1);
      assert UpTo(top, final, n) == UpTo(top, final, n - 1) + [StepAscend(top)];
      AscendingFromStart(start, final, top, n - 1);
      AfterSnoc(start, UpTo(top, final, n - 1), StepAscend(top));
      ExecutedGrows(start, UpTo(top, final, n - 1), StepAscend(top));
    }
  }

  /** A flow that may ascend two tiers above its start, and descend from there, reports a tier it never executed
      as re-execution. */
  lemma AscendingAboveStartMisreports(start: int, floor: int, top: int) returns (steps: seq<Step>, k: nat)
    requires top >= start + 2 && start >= 1 && floor < top
    ensures Within(start, floor, top, steps) && k < |steps| && !ReportsExactly(start, steps, k)
  {
    var final := if floor < 1 then 1 else floor;
    var front := UpTo(top, final, top - start);
    AscendingFromStart(start, final, top, top - start);
    steps, k := front + [StepDescend(final)], |front|;
    assert steps[..k] == front;
  }

  ghost predicate AlwaysReportsExactly(start: int, floor: int, top: int) {
    forall steps, k: nat :: Within(start, floor, top, steps) && k < |steps| ==> ReportsExactly(start, steps, k)
  }

  /** Exactly which bounds a caller may use: every flow within them reports re-execution exactly if and only if
      no descent targets tier 0, and no ascent passes the start by two tiers and can be descended from. */
  lemma ReexecutionIsExactExactlyWhen(start: int, floor: int, top: int)
    requires top >= start >= 1
    ensures AlwaysReportsExactly(start, floor, top) <==> Sound(start, floor, top)
  {
    if Sound(start, floor, top) {
      forall steps, k: nat | Within(start, floor, top, steps) && k < |steps| ensures ReportsExactly(start, steps, k) {
        ReexecutionIsExact(start, floor, top, steps, k);
      }
    } else if floor <= 0 {
      var steps, k := TargetingTierZeroMisreports(start, floor, top);
    } else {
      var steps, k := AscendingAboveStartMisreports(start, floor, top);
    }
  }

  // ---- depth and halting, whatever the ascents ----

  lemma {:induction false} DepthIsSet(start: int, floor: int, top: int, steps: seq<Step>)
    requires Within(start, floor, top, steps) && floor >= 1
    ensures var s := After(start, steps);
            if s.started then 1 <= s.deepest <= s.tier else s.tier == start && s.deepest == 0
  {
    if steps != [] {
      DepthIsSet(start, floor, top, steps[..|steps| - 1]);
    }
  }

  /** Once a flow has started, the deepest tier never rises again. */
  lemma {:induction false} DeepestNeverRises(start: int, floor: int, top: int, steps: seq<Step>, k: nat)
    requires Within(start, floor, top, steps) && floor >= 1 && k <= |steps|
    requires After(start, steps[..k]).started
    ensures After(start, steps).started
    ensures After(start, steps).deepest <= After(start, steps[..k]).deepest
  {
    if k < |steps| {
      var front := steps[..|steps| - 1];
      assert front[..k] == steps[..k];
      DeepestNeverRises(start, floor, top, front, k);
      DepthIsSet(start, floor, top, front);
    } else {
      assert steps[..k] == steps;
    }
  }

  ghost predicate DepthNeverRises(start: int, floor: int, top: int) {
    forall steps, k: nat :: Within(start, floor, top, steps) && k <= |steps| && After(start, steps[..k]).started ==>
      After(start, steps).deepest <= After(start, steps[..k]).deepest
  }

  /** Exactly which bounds keep the record of how far a flow got: those that exclude tier 0. */
  lemma DepthIsKeptExactlyWhen(start: int, floor: int, top: int)
    requires top >= start >= 1
    ensures DepthNeverRises(start, floor, top) <==> floor >= 1
  {
    if floor >= 1 {
      forall steps, k: nat | Within(start, floor, top, steps) && k <= |steps| && After(start, steps[..k]).started
        ensures After(start, steps).deepest <= After(start, steps[..k]).deepest
      {
        DeepestNeverRises(start, floor, top, steps, k);
      }
    } else {
      var steps, k := TargetingTierZeroForgetsDepth(start, floor, top);
    }
  }

  /** After a visit to tier 0 the next ascent overwrites the recorded depth. */
  lemma TargetingTierZeroForgetsDepth(start: int, floor: int, top: int) returns (steps: seq<Step>, k: nat)
    requires top >= start >= 1 && floor <= 0
    ensures Within(start, floor, top, steps) && k <= |steps| && After(start, steps[..k]).started
    ensures After(start, steps).deepest > After(start, steps[..k]).deepest
  {
    var front := ToZeroAndUp(start);
    steps, k := front + [StepAscend(1)], |front|;
    BackUpFromZero(start);
    AfterSnoc(start, front, StepAscend(1));
    assert steps[..k] == front;
  }

  /** Abort is a one-way latch, whatever the flow: after it every step holds and the tier is frozen. */
  lemma {:induction false} NothingMovesAfterHalt(start: int, steps: seq<Step>, k: nat)
    requires k <= |steps| && After(start, steps[..k]).halted
    ensures var s, s' := After(start, steps[..k]), After(start, steps);
            s'.halted && s'.tier == s.tier && s'.started == s.started
    ensures k < |steps| ==> MovementAt(start, steps, |steps| - 1).direction == Held
  {
    if k < |steps| {
      var front := steps[..|steps| - 1];
      assert front[..k] == steps[..k];
      NothingMovesAfterHalt(start, front, k);
    } else {
      assert steps[..k] == steps;
    }
  }

  lemma {:induction false} HaltFreezesState(start: int, floor: int, top: int, steps: seq<Step>, k: nat)
    requires Within(start, floor, top, steps) && floor >= 1
    requires k <= |steps| && After(start, steps[..k]).halted
    ensures After(start, steps) == After(start, steps[..k])
  {
    if k < |steps| {
      var front := steps[..|steps| - 1];
      assert front[..k] == steps[..k];
      HaltFreezesState(start, floor, top, front, k);
      DepthIsSet(start, floor, top, front);
    } else {
      assert steps[..k] == steps;
    }
  }
}
