/** The node actuator: which signals it acts on, and what it remembers across restarts. */
module Actuator {
  import opened Wrappers
  import opened GoStrings
  import opened StableSort
  import opened ActuatedKeys

  /** What inspecting one signal path found. */
  datatype SignalStatus = SignalStatus(path: string, active: bool, fromFuture: bool, key: string, flow: string)

  /** An active signal whose flow this agent belongs to; an agent that declares no flow accepts any. */
  predicate Accepts(flow: string, s: SignalStatus) {
    s.active && (flow == "" || s.flow == flow)
  }

  /** The first accepted status, or the end of the list. */
  function FirstAccepted(flow: string, statuses: seq<SignalStatus>): (i: nat)
    ensures i <= |statuses|
    ensures i < |statuses| ==> Accepts(flow, statuses[i])
    ensures forall j :: 0 <= j < i ==> !Accepts(flow, statuses[j])
  {
    if statuses == [] || Accepts(flow, statuses[0]) then 0 else 1 + FirstAccepted(flow, statuses[1..])
  }

  /** The key a pass offers for actuation, if any. */
  function Offered(flow: string, statuses: seq<SignalStatus>): Option<string> {
    var i := FirstAccepted(flow, statuses);
    if i < |statuses| then Some(statuses[i].key) else None
  }

  function Skewed(statuses: seq<SignalStatus>, n: nat): seq<string>
    requires n <= |statuses|
  {
    if n == 0 then []
    else Skewed(statuses, n - 1) + if !statuses[n - 1].active && statuses[n - 1].fromFuture then [statuses[n - 1].path] else []
  }

  /** One process: the keys it has seen, and the state file it keeps beside it. */
  class Watcher {
    var seen: set<string>
    var recorded: seq<string>
    var actuations: seq<string>
    var saved: bool

    constructor ()
      ensures Abstract() == FRESH
    {
      seen, recorded, actuations, saved := {}, [], [], true;
    }

    /** The process as a state of the runs below. */
    ghost function Abstract(): State
      reads this
    {
      State(seen, ToSet(recorded), actuations, saved)
    }

    /** One turn of the watch loop. */
    method RunPass(flow: string, statuses: seq<SignalStatus>, writable: bool) returns (clockSkewed: seq<string>)
      modifies this
      ensures Abstract() == Next(old(Abstract()), Pass(Offered(flow, statuses), writable))
    {
      clockSkewed := ScanSignalPaths(flow, statuses);
      RecordState(writable);
    }

    /** One pass over the signal paths: at most one actuation, of the first accepted signal, and only if its
        key has not been seen. */
    method ScanSignalPaths(flow: string, statuses: seq<SignalStatus>) returns (clockSkewed: seq<string>)
      modifies this
      ensures recorded == old(recorded) && saved == old(saved)
      ensures var offered := Offered(flow, statuses);
              if offered.None? then seen == old(seen) && actuations == old(actuations)
              else
                && seen == old(seen) + {offered.value}
                && actuations == old(actuations) + if offered.value in old(seen) then [] else [offered.value]
      ensures clockSkewed == Skewed(statuses, FirstAccepted(flow, statuses))
    {
      clockSkewed := [];
      for i := 0 to |statuses|
        invariant seen == old(seen) && actuations == old(actuations) && recorded == old(recorded) && saved == old(saved)
        invariant clockSkewed == Skewed(statuses, i)
        invariant forall j :: 0 <= j < i ==> !Accepts(flow, statuses[j])
      {
        var s := statuses[i];
        if !s.active {
          if s.fromFuture { clockSkewed := clockSkewed + [s.path]; }
        } else if flow == "" || s.flow == flow {
          assert FirstAccepted(flow, statuses) == i;
          if s.key !in seen {
            seen := seen + {s.key};
            actuations := actuations + [s.key];
          }
          return;
        }
      }
      assert FirstAccepted(flow, statuses) == |statuses|;
    }

    /** Writes the state file at the end of a pass, if the volume can be written. */
    method RecordState(writable: bool)
      modifies this
      ensures seen == old(seen) && actuations == old(actuations) && saved == writable
      ensures if writable then ToSet(recorded) == Top(seen, MAX_ACTUATED_KEYS) else recorded == old(recorded)
    {
      saved := writable;
      if writable { recorded := RenderActuatedKeys(seen); }
    }

    /** A container restart: memory is lost and seeded again from the state file, if that can be read. */
    method Restart(readable: bool)
      modifies this
      ensures Abstract() == Next(old(Abstract()), Step.Restart(readable))
    {
      seen := {};
      if !readable { return; }
      for i := 0 to |recorded|
        invariant recorded == old(recorded) && actuations == old(actuations) && saved == old(saved)
        invariant seen == ToSet(recorded[..i])
      {
        assert recorded[..i + 1] == recorded[..i] + [recorded[i]];
        seen := seen + {recorded[i]};
      }
      assert recorded[..|recorded|] == recorded;
    }
  }

  // ---- runs of passes and restarts ----

  /** `file` holds the recorded keys; `saved` says the last pass was written down. */
  datatype State = State(seen: set<string>, file: set<string>, log: seq<string>, saved: bool)

  datatype Step = Pass(offered: Option<string>, writable: bool) | Restart(readable: bool)

  const FRESH := State({}, {}, [], true)

  function Seen(s: State, offered: Option<string>): set<string> {
    if offered.Some? then s.seen + {offered.value} else s.seen
  }

  function Next(s: State, step: Step): State {
    match step
    case Pass(offered, writable) =>
      var seen := Seen(s, offered);
      State(seen, if writable then Top(seen, MAX_ACTUATED_KEYS) else s.file,
            if offered.Some? && offered.value !in s.seen then s.log + [offered.value] else s.log, writable)
    case Restart(readable) => s.(seen := if readable then s.file else {})
  }

  function After(steps: seq<Step>): State {
    if steps == [] then FRESH else Next(After(steps[..|steps| - 1]), steps[|steps| - 1])
  }

  /** The process only stops between passes, once the last pass has been written down, and reads it back. */
  ghost predicate StopsSaved(steps: seq<Step>) {
    forall k :: 0 <= k < |steps| && steps[k].Restart? ==> After(steps[..k]).saved && steps[k].readable
  }

  /** Memory, file and history agree on the greatest keys. */
  ghost predicate Remembers(s: State) {
    && s.seen <= ToSet(s.log)
    && Top(s.seen, MAX_ACTUATED_KEYS) == Top(ToSet(s.log), MAX_ACTUATED_KEYS)
    && (s.saved ==> s.file == Top(s.seen, MAX_ACTUATED_KEYS))
  }

  lemma TopIsIdempotent(keys: set<string>)
    ensures Top(Top(keys, MAX_ACTUATED_KEYS), MAX_ACTUATED_KEYS) == Top(keys, MAX_ACTUATED_KEYS)
  {
    TopOfUnion(keys, {}, MAX_ACTUATED_KEYS);
    assert Top(keys, MAX_ACTUATED_KEYS) + {} == Top(keys, MAX_ACTUATED_KEYS) && keys + {} == keys;
  }

  lemma LogGrows(s: State, k: string)
    requires s.seen <= ToSet(s.log)
    ensures ToSet(if k !in s.seen then s.log + [k] else s.log) == ToSet(s.log) + {k}
  {
  }

  lemma NextRemembers(s: State, step: Step)
    requires Remembers(s) && (step.Restart? ==> s.saved && step.readable)
    ensures Remembers(Next(s, step))
  {
    match step
    case Restart(_) => TopIsIdempotent(s.seen);
    case Pass(offered, _) =>
      if offered.Some? {
        LogGrows(s, offered.value);
        TopOfUnion(s.seen, {offered.value}, MAX_ACTUATED_KEYS);
        TopOfUnion(ToSet(s.log), {offered.value}, MAX_ACTUATED_KEYS);
      }
  }

  lemma {:induction false} RunRemembers(steps: seq<Step>)
    requires StopsSaved(steps)
    ensures Remembers(After(steps))
  {
    if steps != [] {
      var front, last := steps[..|steps| - 1], steps[|steps| - 1];
      forall k | 0 <= k < |front| && front[k].Restart? ensures After(front[..k]).saved && front[k].readable {
        assert front[..k] == steps[..k] && steps[k].Restart?;
      }
      RunRemembers(front);
      NextRemembers(After(front), last);
    }
  }

  /** Main result: over any run that stops saved, a key acted on before is acted on again only if at least
      64 greater keys have been acted on. */
  lemma RepeatNeedsManyGreaterKeys(steps: seq<Step>, k: string)
    requires StopsSaved(steps) && k in After(steps).log
    requires Next(After(steps), Pass(Some(k), true)).log != After(steps).log
    ensures |Greater(ToSet(After(steps).log), k)| >= 64
  {
    RunRemembers(steps);
    var s := After(steps);
    assert k !in s.seen;
    assert k !in Top(s.seen, MAX_ACTUATED_KEYS);
  }

  /** Exactly when a key just acted on survives a restart: fewer than 64 seen keys are greater. */
  lemma SurvivesRestartExactlyWhen(s: State, k: string)
    ensures k in Next(Next(s, Pass(Some(k), true)), Restart(true)).seen <==> |Greater(s.seen, k)| < 64
  {
    LessIrreflexive(k);
    assert Greater(s.seen + {k}, k) == Greater(s.seen, k);
  }

  /** From any state, a stop before a new actuation is written down, or a file that cannot be read back, repeats
      that actuation on the next pass. */
  lemma UnsavedStopRepeats(s: State, k: string, writable: bool, readable: bool)
    requires k !in s.seen && k !in s.file && !(writable && readable)
    ensures Next(Next(Next(s, Pass(Some(k), writable)), Restart(readable)), Pass(Some(k), true)).log == s.log + [k, k]
  {
    var stopped := Next(Next(s, Pass(Some(k), writable)), Restart(readable));
    assert stopped.log == s.log + [k] && k !in stopped.seen;
    assert s.log + [k] + [k] == s.log + [k, k];
  }

  // ---- whose signals are acted on ----

  /** An active status that speaks to an agent: of its flow, or of any flow if it declares none. */
  predicate Speaks(flow: string, s: SignalStatus) {
    s.active && (flow == "" || s.flow == flow)
  }

  /** The statuses of one flow, in order. */
  function OfFlow(flow: string, statuses: seq<SignalStatus>): seq<SignalStatus> {
    if statuses == [] then []
    else (if statuses[0].flow == flow then [statuses[0]] else []) + OfFlow(flow, statuses[1..])
  }

  /** Signals of other flows make no difference: deleting them all changes neither what is seen nor what is acted on. */
  lemma {:induction false} OtherFlowsAreIgnored(flow: string, statuses: seq<SignalStatus>)
    requires flow != ""
    ensures Offered(flow, OfFlow(flow, statuses)) == Offered(flow, statuses)
  {
    if statuses != [] {
      OtherFlowsAreIgnored(flow, statuses[1..]);
      if statuses[0].flow == flow {
        var own := OfFlow(flow, statuses);
        assert own[0] == statuses[0] && own[1..] == OfFlow(flow, statuses[1..]);
      } else {
        assert OfFlow(flow, statuses) == OfFlow(flow, statuses[1..]);
      }
    }
  }

  /** A pass acts at most once, on the key of the first status that speaks to the agent, and then exactly if that
      key is new; without such a status nothing changes. */
  lemma PassActsExactlyWhen(s: State, flow: string, statuses: seq<SignalStatus>, writable: bool, i: nat)
    requires i <= |statuses| && (i < |statuses| ==> Speaks(flow, statuses[i]))
    requires forall j :: 0 <= j < i ==> !Speaks(flow, statuses[j])
    ensures var s' := Next(s, Pass(Offered(flow, statuses), writable));
            if i == |statuses| then s'.log == s.log && s'.seen == s.seen
            else
              && s'.seen == s.seen + {statuses[i].key}
              && s'.log == if statuses[i].key in s.seen then s.log else s.log + [statuses[i].key]
  {
    var first := FirstAccepted(flow, statuses);
    if i < first {
      assert false;
    } else if first < i {
      assert false;
    }
  }

  /** A turn of the watch loop or a restart, in terms of what the paths held. */
  datatype Watch = Look(statuses: seq<SignalStatus>, writable: bool) | Reboot(readable: bool)

  function StepOf(flow: string, w: Watch): Step {
    match w
    case Look(statuses, writable) => Pass(Offered(flow, statuses), writable)
    case Reboot(readable) => Restart(readable)
  }

  function Watched(flow: string, ws: seq<Watch>): seq<Step> {
    if ws == [] then [] else Watched(flow, ws[..|ws| - 1]) + [StepOf(flow, ws[|ws| - 1])]
  }

  ghost predicate Carries(flow: string, w: Watch, key: string) {
    w.Look? && exists i :: 0 <= i < |w.statuses| && Speaks(flow, w.statuses[i]) && w.statuses[i].key == key
  }

  lemma OfferedIsCarried(flow: string, statuses: seq<SignalStatus>, writable: bool)
    requires Offered(flow, statuses).Some?
    ensures Carries(flow, Look(statuses, writable), Offered(flow, statuses).value)
  {
    var i := FirstAccepted(flow, statuses);
    assert Speaks(flow, statuses[i]);
  }

  /** Over any run, every key ever acted on came with an active signal that speaks to the agent. */
  lemma {:induction false} ActsOnOwnSignals(flow: string, ws: seq<Watch>, key: string)
    requires key in After(Watched(flow, ws)).log
    ensures exists k :: 0 <= k < |ws| && Carries(flow, ws[k], key)
  {
    if ws != [] {
      var front, last := ws[..|ws| - 1], ws[|ws| - 1];
      AfterSnoc(Watched(flow, front), StepOf(flow, last));
      if key in After(Watched(flow, front)).log {
        ActsOnOwnSignals(flow, front, key);
        var k :| 0 <= k < |front| && Carries(flow, front[k], key);
        assert ws[k] == front[k];
      } else {
        OfferedIsCarried(flow, last.statuses, last.writable);
        assert ws[|ws| - 1] == last;
      }
    }
  }

  lemma AfterSnoc(steps: seq<Step>, step: Step)
    ensures After(steps + [step]) == Next(After(steps), step)
  {
    assert (steps + [step])[..|steps|] == steps;
  }

  /** The paths reported as skewed are exactly those of inactive statuses from the future. */
  lemma {:induction false} SkewedExactly(statuses: seq<SignalStatus>, n: nat, path: string)
    requires n <= |statuses|
    ensures path in Skewed(statuses, n) <==>
            exists i :: 0 <= i < n && !statuses[i].active && statuses[i].fromFuture && statuses[i].path == path
  {
    if n > 0 { SkewedExactly(statuses, n - 1, path); }
  }
}
