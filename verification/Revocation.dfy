/** Withdrawing shutdown signals whose authorization has ended. */
module Revocation {
  import opened Wrappers

  /** A signal payload; `None` written means it does not parse or lacks a field an actuator needs. */
  datatype Signal = Signal(flow: string, execution: nat, written: Option<int>)

  /** A flow's last execution record. A running record carries no completion time. */
  datatype Execution = Execution(id: nat, completedAt: Option<int>, triggerActive: bool)

  /** What the operator sees of the flow a signal names: nothing, or its last execution if any. */
  datatype FlowView = NotFound | Found(last: Option<Execution>)

  predicate StillAuthorized(s: Signal, flow: FlowView, ttl: int, now: int) {
    if s.written.None? then false
    else if flow.NotFound? then now - s.written.value <= ttl
    else if flow.last.None? then true
    else if flow.last.value.completedAt.None? || s.written.value > flow.last.value.completedAt.value then true
    else flow.last.value.id == s.execution && flow.last.value.triggerActive
  }

  const MARKER := "delivery-channel"

  datatype Entry = Channel(value: string) | Payload(signal: Signal)

  /** The signal an entry carries; a marker value read as a signal is malformed. */
  function SignalOf(e: Entry): Signal {
    if e.Payload? then e.signal else Signal("", 0, None)
  }

  function Revoked(data: map<string, Entry>, views: string -> FlowView, ttl: int, now: int): set<string> {
    set k | k in data && k != MARKER && !StillAuthorized(SignalOf(data[k]), views(SignalOf(data[k]).flow), ttl, now)
  }

  /** The Secret projected to the nodes. */
  class SignalSecret {
    var data: map<string, Entry>

    constructor ()
      ensures data == map[]
    {
      data := map[];
    }

    /** The keys whose signals may no longer sit in the Secret, judged from one read. */
    method RevokedSignalKeys(views: string -> FlowView, ttl: int, now: int) returns (revoked: set<string>)
      ensures revoked == Revoked(data, views, ttl, now)
    {
      revoked := {};
      var left := data.Keys;
      while left != {}
        invariant left <= data.Keys
        invariant revoked == set k | k in data.Keys - left && k != MARKER &&
                    !StillAuthorized(SignalOf(data[k]), views(SignalOf(data[k]).flow), ttl, now)
      {
        var name :| name in left;
        left := left - {name};
        if name != MARKER {
          var payload := SignalOf(data[name]);
          if !StillAuthorized(payload, views(payload.flow), ttl, now) { revoked := revoked + {name}; }
        }
      }
    }

    /** Deletes the judged keys by name and keeps the delivery marker in place. */
    method Withdraw(revoked: set<string>, generation: string)
      modifies this
      ensures data == (old(data) - revoked)[MARKER := Channel(generation)]
      ensures MARKER in data && forall k :: k in old(data) && k !in revoked && k != MARKER ==> k in data && data[k] == old(data)[k]
    {
      var left := revoked;
      ghost var done: set<string> := {};
      while left != {}
        invariant done + left == revoked && data == old(data) - done
      {
        var key :| key in left;
        left := left - {key};
        done := done + {key};
        data := data - {key};
      }
      assert done == revoked;
      data := data[MARKER := Channel(generation)];
    }
  }

  /** An entry no actuator could read is revoked whatever the flows, and the delivery marker never is. */
  lemma UnreadableIsRevoked(data: map<string, Entry>, views: string -> FlowView, ttl: int, now: int, key: string)
    requires key in data
    ensures key != "delivery-channel" && (data[key].Channel? || data[key].signal.written.None?) ==> key in Revoked(data, views, ttl, now)
    ensures key == "delivery-channel" ==> key !in Revoked(data, views, ttl, now)
  {
  }

  // ---- executions, signals and two-step revocation ----

  /** One flow: the execution in flight, the last record, and the latest completion time ever recorded. */
  datatype Flow = Flow(running: Option<nat>, last: Option<Execution>, lastCompleted: int)

  /** The keys judged but not yet deleted, and what they were judged by: the flows visible, the lifetime of
      signals and the time. */
  datatype Verdict = Verdict(keys: set<string>, visible: set<string>, ttl: int, at: int)

  datatype State = State(
    now: int, flows: map<string, Flow>, secret: map<string, Signal>, verdict: Option<Verdict>, nextId: nat)

  datatype Step =
    | Begin(flow: string, progress: bool)              // an execution starts; progress writes a running record
    | Write(flow: string, node: string, at: int)       // it writes a node's signal
    | Complete(flow: string, at: int, stamped: int)    // it ends; the recorded time may be truncated
    | Deactivate(flow: string)                         // the trigger clears
    | Judge(visible: set<string>, ttl: int)
    | Delete

  function Initial(flows: set<string>): State {
    State(0, map f | f in flows :: Flow(None, None, -1), map[], None, 0)
  }

  function View(s: State, visible: set<string>, flow: string): FlowView {
    if flow in visible && flow in s.flows then Found(s.flows[flow].last) else NotFound
  }

  /** The keys of the Secret whose signals are no longer authorized. */
  function Judged(s: State, visible: set<string>, ttl: int): set<string> {
    set k | k in s.secret && !StillAuthorized(s.secret[k], View(s, visible, s.secret[k].flow), ttl, s.now)
  }

  function Next(s: State, step: Step): State {
    match step
    case Begin(f, progress) =>
      if f in s.flows && s.flows[f].running.None? then
        var flow := s.flows[f].(running := Some(s.nextId));
        s.(flows := s.flows[f := if progress then flow.(last := Some(Execution(s.nextId, None, true))) else flow],
           nextId := s.nextId + 1)
      else s
    case Write(f, node, at) =>
      if f in s.flows && s.flows[f].running.Some? && at > s.now then
        s.(secret := s.secret[node := Signal(f, s.flows[f].running.value, Some(at))], now := at)
      else s
    case Complete(f, at, stamped) =>
      if f in s.flows && s.flows[f].running.Some? && at >= s.now && s.flows[f].lastCompleted <= stamped <= at then
        s.(flows := s.flows[f := Flow(None, Some(Execution(s.flows[f].running.value, Some(stamped), true)), stamped)], now := at)
      else s
    case Deactivate(f) =>
      if f in s.flows && s.flows[f].last.Some? then
        s.(flows := s.flows[f := s.flows[f].(last := Some(s.flows[f].last.value.(triggerActive := false)))])
      else s
    case Judge(visible, ttl) =>
      s.(verdict := Some(Verdict(Judged(s, visible, ttl), visible, ttl, s.now)))
    case Delete =>
      if s.verdict.Some? then s.(secret := s.secret - s.verdict.value.keys, verdict := None) else s
  }

  function After(flows: set<string>, steps: seq<Step>): State {
    if steps == [] then Initial(flows) else Next(After(flows, steps[..|steps| - 1]), steps[|steps| - 1])
  }

  /** The execution that wrote the signal is still in flight. */
  predicate Live(s: State, x: Signal) {
    x.flow in s.flows && s.flows[x.flow].running == Some(x.execution)
  }

  ghost predicate FlowWellFormed(s: State, f: Flow) {
    && (f.running.Some? ==> f.running.value < s.nextId)
    && f.lastCompleted <= s.now
    && (f.last.Some? ==>
          && f.last.value.id < s.nextId
          && (f.last.value.completedAt.Some? ==>
                f.last.value.completedAt.value == f.lastCompleted && f.running != Some(f.last.value.id)))
  }

  /** Signals in the Secret come from executions already begun; those of an execution in flight were
      written after the flow's last recorded completion. */
  ghost predicate WellFormed(s: State) {
    && (forall f :: f in s.flows ==> FlowWellFormed(s, s.flows[f]))
    && (forall k :: k in s.secret ==> SignalWellFormed(s, s.secret[k]))
  }

  ghost predicate SignalWellFormed(s: State, x: Signal) {
    && x.flow in s.flows && x.execution < s.nextId && x.written.Some?
    && (Live(s, x) ==> x.written.value > s.flows[x.flow].lastCompleted)
  }

  lemma NextKeepsFlows(s: State, step: Step)
    requires WellFormed(s)
    ensures var s' := Next(s, step);
            && (forall f :: f in s.flows <==> f in s'.flows)
            && (forall f :: f in s'.flows ==> FlowWellFormed(s', s'.flows[f]))
            && s.now <= s'.now && s.nextId <= s'.nextId
            && (forall f :: f in s.flows ==> s.flows[f].lastCompleted <= s'.flows[f].lastCompleted)
  {
  }

  lemma SignalStaysWellFormed(s: State, step: Step, x: Signal)
    requires WellFormed(s) && SignalWellFormed(s, x)
    ensures SignalWellFormed(Next(s, step), x)
  {
  }

  lemma NextKeepsWellFormed(s: State, step: Step)
    requires WellFormed(s)
    ensures WellFormed(Next(s, step))
  {
    NextKeepsFlows(s, step);
    var s' := Next(s, step);
    forall k | k in s'.secret ensures SignalWellFormed(s', s'.secret[k]) {
      if k in s.secret && s'.secret[k] == s.secret[k] { SignalStaysWellFormed(s, step, s.secret[k]); }
    }
  }

  lemma {:induction false} RunIsWellFormed(flows: set<string>, steps: seq<Step>)
    ensures WellFormed(After(flows, steps))
  {
    if steps != [] {
      RunIsWellFormed(flows, steps[..|steps| - 1]);
      NextKeepsWellFormed(After(flows, steps[..|steps| - 1]), steps[|steps| - 1]);
    }
  }

  /** The signal of an execution still in flight is kept exactly when its flow can be seen or it is within its
      lifetime. */
  lemma LiveSignalIsAuthorized(s: State, x: Signal, visible: set<string>, ttl: int, now: int)
    requires WellFormed(s) && SignalWellFormed(s, x) && Live(s, x)
    ensures StillAuthorized(x, View(s, visible, x.flow), ttl, now) <==> x.flow in visible || now - x.written.value <= ttl
  {
  }

  // ---- never withdraw a live signal ----

  /** The step writes a signal to a node's key. */
  predicate Writes(s: State, step: Step, key: string) {
    step.Write? && step.node == key && step.flow in s.flows && s.flows[step.flow].running.Some? && step.at > s.now
  }

  /** No node's key is overwritten while its old signal is judged but not yet deleted. */
  ghost predicate NoOverwrite(flows: set<string>, steps: seq<Step>) {
    forall k, key :: 0 <= k < |steps| && Writes(After(flows, steps[..k]), steps[k], key) && After(flows, steps[..k]).verdict.Some? ==>
      key !in After(flows, steps[..k]).verdict.value.keys
  }

  /** The judgement could not know the signal to be current: its flow was out of sight and its lifetime over. */
  predicate OutOfSight(v: Verdict, x: Signal) {
    x.flow !in v.visible && x.written.Some? && v.at - x.written.value > v.ttl
  }

  /** Every judged key holds a signal that is not live, unless it was out of sight of the judgement. */
  ghost predicate VerdictIsSafe(s: State) {
    s.verdict.Some? ==>
      forall k :: k in s.verdict.value.keys && k in s.secret && !OutOfSight(s.verdict.value, s.secret[k]) ==> !Live(s, s.secret[k])
  }

  /** An execution that is not in flight never comes back. */
  lemma EndedStaysEnded(s: State, step: Step, x: Signal)
    requires WellFormed(s) && SignalWellFormed(s, x) && !Live(s, x)
    ensures !Live(Next(s, step), x)
  {
  }

  lemma NextKeepsVerdictSafe(s: State, step: Step)
    requires WellFormed(s) && VerdictIsSafe(s)
    requires step.Write? && Writes(s, step, step.node) && s.verdict.Some? ==> step.node !in s.verdict.value.keys
    ensures VerdictIsSafe(Next(s, step))
  {
    var s' := Next(s, step);
    if s'.verdict.Some? {
      forall k | k in s'.verdict.value.keys && k in s'.secret && !OutOfSight(s'.verdict.value, s'.secret[k])
        ensures !Live(s', s'.secret[k])
      {
        assert s'.secret[k] == s.secret[k];
        var x := s.secret[k];
        if step.Judge? {
          if Live(s, x) { LiveSignalIsAuthorized(s, x, step.visible, step.ttl, s.now); }
        } else {
          EndedStaysEnded(s, step, x);
        }
      }
    }
  }

  lemma {:induction false} RunKeepsVerdictSafe(flows: set<string>, steps: seq<Step>)
    requires NoOverwrite(flows, steps)
    ensures VerdictIsSafe(After(flows, steps))
  {
    if steps != [] {
      var front, last := steps[..|steps| - 1], steps[|steps| - 1];
      forall k, key | 0 <= k < |front| && Writes(After(flows, front[..k]), front[k], key) && After(flows, front[..k]).verdict.Some?
        ensures key !in After(flows, front[..k]).verdict.value.keys
      {
        assert front[..k] == steps[..k] && front[k] == steps[k];
      }
      RunKeepsVerdictSafe(flows, front);
      RunIsWellFormed(flows, front);
      NextKeepsVerdictSafe(After(flows, front), last);
    }
  }

  /** Main result: without an overwrite, a deletion withdraws the signal of an execution still in flight only if
      the judgement could not see its flow and its lifetime was over. */
  lemma LiveSignalIsNeverWithdrawn(flows: set<string>, steps: seq<Step>, k: string)
    requires NoOverwrite(flows, steps)
    requires var s := After(flows, steps); k in s.secret && k !in Next(s, Delete).secret
    ensures var s := After(flows, steps);
            s.verdict.Some? && (Live(s, s.secret[k]) ==> OutOfSight(s.verdict.value, s.secret[k]))
  {
    RunKeepsVerdictSafe(flows, steps);
  }

  // ---- what a deletion withdraws ----

  lemma StepWritesInThePast(s: State, step: Step, key: string)
    requires key in Next(s, step).secret && (key in s.secret ==> s.secret[key].written.Some? && s.secret[key].written.value <= s.now)
    ensures var s' := Next(s, step); s'.secret[key].written.Some? && s'.secret[key].written.value <= s'.now
  {
  }

  /** Every signal was written at or before the present. */
  lemma {:induction false} WrittenInThePast(flows: set<string>, steps: seq<Step>, key: string)
    requires key in After(flows, steps).secret
    ensures var s := After(flows, steps); s.secret[key].written.Some? && s.secret[key].written.value <= s.now
  {
    var s := After(flows, steps[..|steps| - 1]);
    if key in s.secret { WrittenInThePast(flows, steps[..|steps| - 1], key); }
    StepWritesInThePast(s, steps[|steps| - 1], key);
  }

  /** The judgement at step `j` is the last one, and nothing has been deleted since. */
  predicate LastJudged(steps: seq<Step>, j: nat) {
    j < |steps| && steps[j].Judge? && forall k :: j < k < |steps| ==> !steps[k].Judge? && !steps[k].Delete?
  }

  /** Some step after the judgement at `j` writes to the key. */
  ghost predicate Overwritten(flows: set<string>, steps: seq<Step>, j: nat, key: string)
    decreases steps
  {
    |steps| > j + 1 &&
    var front, last := steps[..|steps| - 1], steps[|steps| - 1];
    Overwritten(flows, front, j, key) || Writes(After(flows, front), last, key)
  }

  /** From the judgement on, the verdict stands, the key is present, and its signal is the judged one or one
      written since. */
  ghost predicate SinceJudged(judged: State, s: State, key: string, overwritten: bool)
    requires key in judged.secret && judged.secret[key].written.Some?
  {
    && s.verdict == judged.verdict && key in s.secret && s.secret[key].written.Some? && judged.now <= s.now
    && (if overwritten then s.secret[key].written.value > judged.now
        else s.secret[key] == judged.secret[key] && (Live(s, s.secret[key]) ==> Live(judged, s.secret[key])))
  }

  lemma SinceJudgedNext(judged: State, s: State, step: Step, key: string, overwritten: bool)
    requires key in judged.secret && judged.secret[key].written.Some?
    requires WellFormed(s) && SinceJudged(judged, s, key, overwritten) && !step.Judge? && !step.Delete?
    ensures SinceJudged(judged, Next(s, step), key, overwritten || Writes(s, step, key))
  {
    NextKeepsFlows(s, step);
    if !Live(s, s.secret[key]) { EndedStaysEnded(s, step, s.secret[key]); }
  }

  lemma {:induction false} JudgedUntilOverwritten(flows: set<string>, steps: seq<Step>, j: nat, key: string)
    requires LastJudged(steps, j) && key in After(flows, steps[..j + 1]).secret
    requires After(flows, steps[..j + 1]).secret[key].written.Some?
    ensures SinceJudged(After(flows, steps[..j + 1]), After(flows, steps), key, Overwritten(flows, steps, j, key))
  {
    if |steps| == j + 1 {
      assert steps[..j + 1] == steps;
    } else {
      var front, last := steps[..|steps| - 1], steps[|steps| - 1];
      assert front[..j + 1] == steps[..j + 1];
      JudgedUntilOverwritten(flows, front, j, key);
      RunIsWellFormed(flows, front);
      SinceJudgedNext(After(flows, steps[..j + 1]), After(flows, front), last, key, Overwritten(flows, front, j, key));
    }
  }

  /** Exactly when a deletion withdraws what was judged: for a judged key, when no execution wrote to it between the
      last judgement and the deletion; that signal is live only if it was out of sight.
      Otherwise the deletion withdraws a signal written since, which nobody judged. */
  lemma WithdrawsJudgedExactlyWhen(flows: set<string>, steps: seq<Step>, j: nat, key: string)
    requires LastJudged(steps, j) && After(flows, steps[..j + 1]).verdict.Some? && key in After(flows, steps[..j + 1]).verdict.value.keys
    ensures var judged, s := After(flows, steps[..j + 1]), After(flows, steps);
            && key in judged.secret && key in s.secret && key !in Next(s, Delete).secret
            && (s.secret[key] == judged.secret[key] <==> !Overwritten(flows, steps, j, key))
            && (Overwritten(flows, steps, j, key) ==> s.secret[key].written.Some? && s.secret[key].written.value > judged.now)
            && (!Overwritten(flows, steps, j, key) && Live(s, s.secret[key]) ==> OutOfSight(judged.verdict.value, s.secret[key]))
  {
    var now := steps[..j + 1];
    assert now[..j] == steps[..j] && now[j] == steps[j];
    assert key in After(flows, now).secret;
    WrittenInThePast(flows, now, key);
    RunIsWellFormed(flows, now);
    var judged := After(flows, now);
    if Live(judged, judged.secret[key]) {
      LiveSignalIsAuthorized(judged, judged.secret[key], judged.verdict.value.visible, judged.verdict.value.ttl, judged.now);
    }
    JudgedUntilOverwritten(flows, steps, j, key);
  }

  /** A judged key that a running execution rewrites before the deletion loses its live signal. */
  lemma OverwriteLosesLiveSignal(s: State, flow: string, node: string, at: int)
    requires flow in s.flows && s.flows[flow].running.Some? && at > s.now
    requires s.verdict.Some? && node in s.verdict.value.keys
    ensures var written := Next(s, Write(flow, node, at));
            Live(written, written.secret[node]) && node !in Next(written, Delete).secret
  {
  }

  // ---- spent stays spent ----

  /** The signal speaks for an execution that ended and has no active trigger. */
  ghost predicate Spent(s: State, x: Signal) {
    && x.flow in s.flows && x.execution < s.nextId && x.written.Some? && !Live(s, x)
    && x.written.value <= s.flows[x.flow].lastCompleted && s.flows[x.flow].last.Some?
    && (s.flows[x.flow].last.value.id == x.execution ==> !s.flows[x.flow].last.value.triggerActive)
  }

  lemma UnauthorizedIsSpent(s: State, x: Signal, visible: set<string>, ttl: int, now: int)
    requires WellFormed(s) && SignalWellFormed(s, x) && x.flow in visible
    requires !StillAuthorized(x, View(s, visible, x.flow), ttl, now)
    ensures Spent(s, x)
  {
  }

  lemma SpentStaysSpent(s: State, step: Step, x: Signal)
    requires WellFormed(s) && Spent(s, x)
    ensures Spent(Next(s, step), x)
  {
  }

  lemma {:induction false} SpentForever(flows: set<string>, steps: seq<Step>, k: nat, x: Signal)
    requires k <= |steps| && Spent(After(flows, steps[..k]), x)
    ensures Spent(After(flows, steps), x)
  {
    if k < |steps| {
      var front := steps[..|steps| - 1];
      assert front[..k] == steps[..k];
      SpentForever(flows, front, k, x);
      RunIsWellFormed(flows, front);
      SpentStaysSpent(After(flows, front), steps[|steps| - 1], x);
    } else {
      assert steps[..k] == steps;
    }
  }

  /** Once a signal is unauthorized with its flow visible, a later judgement that sees the flow authorizes it
      exactly while the flow's record carries no completion time. */
  lemma UnauthorizedStaysSo(flows: set<string>, steps: seq<Step>, k: nat, key: string, visible: set<string>, ttl: int, now: int, visible': set<string>, ttl': int, now': int)
    requires k <= |steps|
    requires var s := After(flows, steps[..k]);
             key in s.secret && s.secret[key].flow in visible * visible' &&
             !StillAuthorized(s.secret[key], View(s, visible, s.secret[key].flow), ttl, now)
    ensures var x := After(flows, steps[..k]).secret[key];
            var s' := After(flows, steps);
            && x.flow in s'.flows && s'.flows[x.flow].last.Some?
            && (StillAuthorized(x, View(s', visible', x.flow), ttl', now') <==> s'.flows[x.flow].last.value.completedAt.None?)
  {
    var s := After(flows, steps[..k]);
    var x := s.secret[key];
    RunIsWellFormed(flows, steps[..k]);
    UnauthorizedIsSpent(s, x, visible, ttl, now);
    SpentForever(flows, steps, k, x);
    RunIsWellFormed(flows, steps);
  }

  /** Exactly when one judgement and deletion withdraw a signal whose flow records a completion, other than a
      completion of its own execution with the trigger still active: when it was written no later than the
      recorded time. A signal of a finished execution written after its truncated stamp stays. */
  lemma WithdrawnExactlyWhen(flows: set<string>, steps: seq<Step>, key: string, visible: set<string>, ttl: int)
    requires var s := After(flows, steps);
             key in s.secret && s.secret[key].flow in visible && s.secret[key].flow in s.flows &&
             s.flows[s.secret[key].flow].last.Some? &&
             var last := s.flows[s.secret[key].flow].last.value;
             last.completedAt.Some? && !(last.id == s.secret[key].execution && last.triggerActive)
    ensures var s := After(flows, steps);
            var x := s.secret[key];
            key !in Next(Next(s, Judge(visible, ttl)), Delete).secret <==>
              x.written.Some? && x.written.value <= s.flows[x.flow].last.value.completedAt.value
  {
    RunIsWellFormed(flows, steps);
  }

  /** Why the completion time matters: the running record of a new execution makes every readable signal of
      its flow authorized again, spent ones included. */
  lemma RunningRecordRevivesSignals(s: State, x: Signal, visible: set<string>, ttl: int, now: int)
    requires x.flow in s.flows && x.flow in visible && s.flows[x.flow].running.None? && x.written.Some?
    ensures StillAuthorized(x, View(Next(s, Begin(x.flow, true)), visible, x.flow), ttl, now)
  {
  }

  /** One judgement that sees the flow, and the deletion that follows. */
  function Swept(s: State, visible: set<string>, ttl: int): State {
    Next(Next(s, Judge(visible, ttl)), Delete)
  }

  /** One execution from beginning to end, after any run: its signal is live from the moment it is written until the
      execution completes, survives every sweep until the trigger clears, and is then withdrawn exactly when it was
      written no later than the recorded completion. */
  lemma OneExecution(flows: set<string>, steps: seq<Step>, f: string, progress: bool, node: string,
                     at: int, end: int, stamped: int, visible: set<string>, ttl: int)
    requires var s := After(flows, steps);
             f in s.flows && s.flows[f].running.None? && f in visible && s.now < at <= end && s.flows[f].lastCompleted <= stamped <= end
    ensures var s := After(flows, steps);
            var written := Next(Next(s, Begin(f, progress)), Write(f, node, at));
            var ended := Next(written, Complete(f, end, stamped));
            var cleared := Next(ended, Deactivate(f));
            && node in written.secret && written.secret[node] == Signal(f, s.nextId, Some(at)) && Live(written, written.secret[node])
            && ended.flows[f].running.None? && ended.secret == written.secret && cleared.secret == written.secret
            && node in Swept(written, visible, ttl).secret && node in Swept(ended, visible, ttl).secret
            && (node in Swept(cleared, visible, ttl).secret <==> stamped < at)
  {
    var s := After(flows, steps);
    var begun := Next(s, Begin(f, progress));
    var written := Next(begun, Write(f, node, at));
    var ended := Next(written, Complete(f, end, stamped));
    RunIsWellFormed(flows, steps);
    NextKeepsWellFormed(s, Begin(f, progress));
    NextKeepsWellFormed(begun, Write(f, node, at));
    LiveSignalIsAuthorized(written, written.secret[node], visible, ttl, written.now);
    assert ended.flows[f] == Flow(None, Some(Execution(s.nextId, Some(stamped), true)), stamped);
    var cleared := Next(ended, Deactivate(f));
    assert cleared.flows[f].last == Some(Execution(s.nextId, Some(stamped), false));
    SweepKeepsExactlyWhen(written, visible, ttl, node);
    SweepKeepsExactlyWhen(ended, visible, ttl, node);
    SweepKeepsExactlyWhen(cleared, visible, ttl, node);
  }

  lemma SweepKeepsExactlyWhen(s: State, visible: set<string>, ttl: int, node: string)
    requires node in s.secret
    ensures node in Swept(s, visible, ttl).secret <==>
            StillAuthorized(s.secret[node], View(s, visible, s.secret[node].flow), ttl, s.now)
  {
  }
}
