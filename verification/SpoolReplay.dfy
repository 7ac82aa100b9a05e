/** One drain of the journal as the program runs it: a loop over the snapshot while writers append. */
module SpoolReplay {
  import opened Wrappers
  import opened AuditStore
  import opened SpoolJournal
  import opened SpoolProtocol

  /** The primary store behind the record methods. */
  class PrimaryStore {
    var db: Database

    constructor (db: Database)
      ensures this.db == db
    {
      this.db := db;
    }

    /** Inserts a row; a conflict is ignored or overwrites the progress columns, by kind. */
    method Insert(r: Record)
      modifies this
      ensures db == Apply(old(db), r)
    {
      var id := IdOf(r);
      if id !in db {
        db := db[id := r.row];
      } else if Progresses(r.kind) {
        db := db[id := db[id].(progress := r.row.progress)];
      } else {
        assert db == db[id := db[id]];
      }
    }
  }

  datatype Stats = Stats(read: nat, replayed: nat, skipped: nat)

  predicate Lands(replay: Replay) {
    replay.Applied? || replay == Failed(true)
  }

  /** The records among the first `n` lines that reached the store, in order. */
  function Landed(lines: seq<Line>, replays: nat -> Replay, n: nat): (r: seq<Record>)
    requires n <= |lines|
    ensures forall x :: x in r ==> x in Records(lines)
  {
    if n == 0 then []
    else
      assert Records(lines)[n - 1] == lines[n - 1].record;
      Landed(lines, replays, n - 1) + if Lands(replays(n - 1)) then [lines[n - 1].record] else []
  }

  function CountIf(replays: nat -> Replay, kind: Replay, n: nat): nat {
    if n == 0 then 0 else CountIf(replays, kind, n - 1) + if replays(n - 1) == kind then 1 else 0
  }

  /** The lines other writers appended before line `n` was replayed. */
  function Arrived(arrivals: nat -> seq<Line>, n: nat): seq<Line> {
    if n == 0 then [] else Arrived(arrivals, n - 1) + arrivals(n - 1)
  }

  ghost predicate AllApplied(replays: nat -> Replay, n: nat) {
    forall i: nat :: i < n ==> replays(i).Applied?
  }

  /** The file after other writers appended `more` to it. */
  function Extended(file: File, more: seq<Line>, modTime: int): File {
    if more == [] then file else file.(lines := file.lines + more, modTime := modTime)
  }

  /** What keeps a drain from starting, or from removing the journal at its end. */
  datatype Obstacle = Clear | AnotherDrain | Cancelled | CannotOpen | CannotStat | CannotRemove

  /** How many lines a drain reaches before its context ends or the scan fails. */
  function Reached(total: nat, cancelAt: Option<nat>): nat {
    if cancelAt.Some? && cancelAt.value < total then cancelAt.value else total
  }

  ghost predicate AnyFailed(replays: nat -> Replay, n: nat) {
    exists i: nat :: i < n && replays(i).Failed?
  }

  /** The scanner loop: `arrivals(i)` lands while line i is awaited, `replays(i)` is how the store
      answers line i. */
  method ReplayLines(journal: Journal, store: PrimaryStore, snapshot: File, replays: nat -> Replay,
                     arrivals: nat -> seq<Line>, modTime: int, cancelAt: Option<nat>)
    returns (stats: Stats, failed: bool)
    requires journal.file == Some(snapshot)
    modifies journal, store
    ensures var n := Reached(|snapshot.lines|, cancelAt);
            && stats == Stats(n, CountIf(replays, Applied, n), CountIf(replays, Skipped, n))
            && (failed <==> AnyFailed(replays, n))
            && store.db == ApplyAll(old(store.db), Landed(snapshot.lines, replays, n))
            && journal.file == Some(Extended(snapshot, Arrived(arrivals, n + 1), modTime))
  {
    var i, replayed, skipped := 0, 0, 0;
    failed := false;
    ghost var db := store.db;
    while i < Reached(|snapshot.lines|, cancelAt)
      invariant 0 <= i <= Reached(|snapshot.lines|, cancelAt)
      invariant replayed == CountIf(replays, Applied, i) && skipped == CountIf(replays, Skipped, i)
      invariant failed <==> AnyFailed(replays, i)
      invariant store.db == ApplyAll(db, Landed(snapshot.lines, replays, i))
      invariant journal.file == Some(Extended(snapshot, Arrived(arrivals, i), modTime))
    {
      Interfere(journal, snapshot, arrivals, i, modTime);
      var line := snapshot.lines[i];
      LandedGrows(db, snapshot.lines, replays, i);
      if Lands(replays(i)) {
        store.Insert(line.record);
      }
      match replays(i) {
        case Applied => replayed := replayed + 1;
        case Skipped => skipped := skipped + 1;
        case Failed(_) => failed := true;
      }
      i := i + 1;
    }
    stats := Stats(i, replayed, skipped);
    Interfere(journal, snapshot, arrivals, i, modTime);
  }

  /** The journal and the database after a drain that reached `n` lines of a file. The journal goes only when
      every line was applied, nothing arrived meanwhile and it can be removed; otherwise all of it stays. */
  ghost function Drained(file: File, db: Database, replays: nat -> Replay, arrivals: nat -> seq<Line>, modTime: int, n: nat, removes: bool): (Option<File>, Database)
    requires n <= |file.lines|
  {
    var arrived := Arrived(arrivals, n + 1);
    (if removes && n == |file.lines| && AllApplied(replays, n) && arrived == [] then None else Some(Extended(file, arrived, modTime)),
     ApplyAll(db, Landed(file.lines, replays, n)))
  }

  predicate Removes(obstacle: Obstacle) {
    !obstacle.CannotStat? && !obstacle.CannotRemove?
  }

  /** Drains a snapshot of the journal into the store. */
  method ReplaySpool(journal: Journal, store: PrimaryStore, replays: nat -> Replay, arrivals: nat -> seq<Line>,
                     modTime: int, cancelAt: Option<nat>, obstacle: Obstacle)
    returns (stats: Stats, failed: bool)
    requires forall i: nat :: NonEmptyLines(arrivals(i))
    requires journal.file.Some? ==> NonEmptyLines(journal.file.value.lines)
    modifies journal, store
    ensures obstacle in {AnotherDrain, Cancelled, CannotOpen} || old(journal.file).None? ==>
              && journal.file == old(journal.file) && store.db == old(store.db) && stats == Stats(0, 0, 0)
              && (failed <==> obstacle in {Cancelled, CannotOpen})
    ensures obstacle !in {AnotherDrain, Cancelled, CannotOpen} && old(journal.file).Some? ==>
              var file := old(journal.file).value;
              var n := Reached(|file.lines|, cancelAt);
              && stats == Stats(n, CountIf(replays, Applied, n), CountIf(replays, Skipped, n))
              && (failed <==>
                    || n < |file.lines| || AnyFailed(replays, n)
                    || (AllApplied(replays, n) && obstacle.CannotStat?)
                    || (AllApplied(replays, n) && obstacle.CannotRemove? && Arrived(arrivals, n + 1) == []))
              && (journal.file, store.db) == Drained(file, old(store.db), replays, arrivals, modTime, n, Removes(obstacle))
  {
    if obstacle.Cancelled? { return Stats(0, 0, 0), true; }
    if obstacle.AnotherDrain? { return Stats(0, 0, 0), false; }
    if obstacle.CannotOpen? { return Stats(0, 0, 0), true; }
    var found := journal.OpenSnapshot();
    if found.None? { return Stats(0, 0, 0), false; }
    var snapshot := found.value;
    stats, failed := ReplayLines(journal, store, snapshot, replays, arrivals, modTime, cancelAt);
    if stats.read < |snapshot.lines| { return stats, true; }
    CleanMeansAllApplied(replays, stats.read);
    ArrivedNonEmpty(arrivals, stats.read + 1);
    ExtendedKeepsSize(snapshot, Arrived(arrivals, stats.read + 1), modTime);
    if !failed && stats.skipped == 0 {
      if obstacle.CannotStat? { return stats, true; }
      if obstacle.CannotRemove? { return stats, Unchanged(snapshot, journal.file.value); }
      var _ := journal.RemoveUnchanged(snapshot);
    }
  }

  // ---- one drain is a run of the protocol ----

  type Stepper = (State, Step) -> State

  function RunWith(next: Stepper, s: State, steps: seq<Step>): State {
    if steps == [] then s else next(RunWith(next, s, steps[..|steps| - 1]), steps[|steps| - 1])
  }

  function Run(s: State, steps: seq<Step>): State {
    RunWith(Next, s, steps)
  }

  lemma {:induction false} RunConcat(next: Stepper, s: State, xs: seq<Step>, ys: seq<Step>)
    ensures RunWith(next, s, xs + ys) == RunWith(next, RunWith(next, s, xs), ys)
  {
    if ys == [] {
      assert xs + ys == xs;
    } else {
      var front := ys[..|ys| - 1];
      assert (xs + ys)[..|xs + ys| - 1] == xs + front;
      RunConcat(next, s, xs, front);
    }
  }

  /** Running on from a reachable state is a longer run of the protocol. */
  lemma {:induction false} RunIsAfter(db: Database, steps: seq<Step>, more: seq<Step>)
    ensures Run(SpoolProtocol.After(db, steps), more) == SpoolProtocol.After(db, steps + more)
  {
    if more == [] {
      assert steps + more == steps;
    } else {
      var front := more[..|more| - 1];
      assert (steps + more)[..|steps + more| - 1] == steps + front;
      RunIsAfter(db, steps, front);
    }
  }

  /** The call that appends a line. */
  function Appending(line: Line, modTime: int): Step {
    Call(line.record, line.bytes, false, 0, NoFault, File(0, [], modTime))
  }

  function Calls(lines: seq<Line>, modTime: int): seq<Step> {
    if lines == [] then [] else Calls(lines[..|lines| - 1], modTime) + [Appending(lines[|lines| - 1], modTime)]
  }

  /** Lines are numbered by the calls that wrote them. */
  predicate Numbered(lines: seq<Line>, from: nat) {
    forall i :: 0 <= i < |lines| ==> lines[i].serial == from + i
  }

  lemma RunSnoc(next: Stepper, s: State, xs: seq<Step>, step: Step)
    ensures RunWith(next, s, xs + [step]) == next(RunWith(next, s, xs), step)
  {
    assert (xs + [step])[..|xs|] == xs;
  }

  /** Between two states only the journal grew. */
  predicate Grown(s: State, s': State, more: seq<Line>, modTime: int) {
    && s.journal.Some? && s'.journal == Some(Extended(s.journal.value, more, modTime))
    && s'.db == s.db && s'.drain == s.drain && s'.tally.calls == s.tally.calls + |more|
  }

  lemma AppendingGrows(s: State, line: Line, modTime: int)
    requires s.journal.Some? && line.serial == s.tally.calls
    ensures Grown(s, Next(s, Appending(line, modTime)), [line], modTime)
  {
  }

  lemma GrownTwice(s: State, s': State, s'': State, xs: seq<Line>, ys: seq<Line>, modTime: int)
    requires Grown(s, s', xs, modTime) && Grown(s', s'', ys, modTime)
    ensures Grown(s, s'', xs + ys, modTime)
  {
    ExtendedTwice(s.journal.value, xs, ys, modTime);
  }

  lemma {:induction false} CallsGrow(s: State, lines: seq<Line>, modTime: int)
    requires s.journal.Some? && Numbered(lines, s.tally.calls)
    ensures Grown(s, Run(s, Calls(lines, modTime)), lines, modTime)
  {
    if lines != [] {
      var front, last := lines[..|lines| - 1], lines[|lines| - 1];
      CallsGrow(s, front, modTime);
      var s' := Run(s, Calls(front, modTime));
      RunSnoc(Next, s, Calls(front, modTime), Appending(last, modTime));
      AppendingGrows(s', last, modTime);
      GrownTwice(s, s', Next(s', Appending(last, modTime)), front, [last], modTime);
      assert lines == front + [last];
    }
  }

  /** The steps of the scan of `n` lines. */
  function Rounds(replays: nat -> Replay, arrivals: nat -> seq<Line>, modTime: int, n: nat): seq<Step> {
    if n == 0 then []
    else Rounds(replays, arrivals, modTime, n - 1) + Calls(arrivals(n - 1), modTime) + [ReplayLine(replays(n - 1))]
  }

  /** A whole drain of a file of `total` lines that reached `n` of them. */
  function DrainSteps(replays: nat -> Replay, arrivals: nat -> seq<Line>, modTime: int, n: nat, total: nat, removes: bool): seq<Step> {
    [OpenDrain] + Rounds(replays, arrivals, modTime, n) + Calls(arrivals(n), modTime) +
    [if n == total && removes then FinishDrain else AbandonDrain]
  }

  lemma ExtendedTwice(file: File, xs: seq<Line>, ys: seq<Line>, modTime: int)
    ensures Extended(Extended(file, xs, modTime), ys, modTime) == Extended(file, xs + ys, modTime)
  {
    assert xs + [] == xs && [] + ys == ys;
    assert file.lines + (xs + ys) == file.lines + xs + ys;
  }

  /** The state of the protocol when `i` lines are scanned and `arrived` came in meanwhile. */
  ghost predicate Scanned(s: State, s': State, replays: nat -> Replay, i: nat, arrived: seq<Line>, modTime: int)
    requires s.journal.Some? && i <= |Lines(s)|
  {
    && s'.journal == Some(Extended(s.journal.value, arrived, modTime))
    && s'.db == ApplyAll(s.db, Landed(Lines(s), replays, i))
    && s'.drain == Some(Drain(s.journal.value, i, AllApplied(replays, i)))
    && s'.tally.calls == s.tally.calls + |arrived|
  }

  lemma ArrivalsScanned(s: State, s': State, replays: nat -> Replay, i: nat, arrived: seq<Line>, more: seq<Line>, modTime: int)
    requires s.journal.Some? && i <= |Lines(s)| && Scanned(s, s', replays, i, arrived, modTime)
    requires Numbered(more, s'.tally.calls)
    ensures Scanned(s, Run(s', Calls(more, modTime)), replays, i, arrived + more, modTime)
  {
    CallsGrow(s', more, modTime);
    ExtendedTwice(s.journal.value, arrived, more, modTime);
  }

  lemma LineScanned(s: State, s': State, replays: nat -> Replay, i: nat, arrived: seq<Line>, modTime: int)
    requires s.journal.Some? && i < |Lines(s)| && Scanned(s, s', replays, i, arrived, modTime)
    ensures Scanned(s, Next(s', ReplayLine(replays(i))), replays, i + 1, arrived, modTime)
  {
    LandedGrows(s.db, Lines(s), replays, i);
    AllAppliedGrows(replays, i);
  }

  lemma NumberedPart(xs: seq<Line>, ys: seq<Line>, from: nat)
    requires Numbered(xs + ys, from)
    ensures Numbered(xs, from) && Numbered(ys, from + |xs|)
  {
    forall i | 0 <= i < |xs| ensures xs[i].serial == from + i { assert (xs + ys)[i] == xs[i]; }
    forall i | 0 <= i < |ys| ensures ys[i].serial == from + |xs| + i { assert (xs + ys)[|xs| + i] == ys[i]; }
  }

  lemma RoundScanned(s: State, e: State, replays: nat -> Replay, i: nat, arrived: seq<Line>, more: seq<Line>, modTime: int)
    requires s.journal.Some? && i < |Lines(s)| && Scanned(s, e, replays, i, arrived, modTime)
    requires Numbered(more, s.tally.calls + |arrived|)
    ensures Scanned(s, Round(Next, e, more, modTime, replays(i)), replays, i + 1, arrived + more, modTime)
  {
    ArrivalsScanned(s, e, replays, i, arrived, more, modTime);
    LineScanned(s, Run(e, Calls(more, modTime)), replays, i, arrived + more, modTime);
  }

  /** Calls that arrive, then one line. */
  function Round(next: Stepper, e: State, more: seq<Line>, modTime: int, replay: Replay): State {
    next(RunWith(next, e, Calls(more, modTime)), ReplayLine(replay))
  }

  lemma RunRound(next: Stepper, begun: State, before: seq<Step>, more: seq<Line>, modTime: int, replay: Replay)
    ensures RunWith(next, begun, before + Calls(more, modTime) + [ReplayLine(replay)]) ==
            Round(next, RunWith(next, begun, before), more, modTime, replay)
  {
    RunConcat(next, begun, before, Calls(more, modTime));
    RunSnoc(next, begun, before + Calls(more, modTime), ReplayLine(replay));
  }

  function Fold(f: (State, nat) -> State, s: State, n: nat): State {
    if n == 0 then s else f(Fold(f, s, n - 1), n - 1)
  }

  /** The `i`th round as a function of the state. */
  function RoundOf(next: Stepper, replays: nat -> Replay, arrivals: nat -> seq<Line>, modTime: int): (State, nat) -> State {
    (e: State, i: nat) => Round(next, e, arrivals(i), modTime, replays(i))
  }

  lemma {:induction false} RoundsAreFold(next: Stepper, begun: State, replays: nat -> Replay, arrivals: nat -> seq<Line>, modTime: int, n: nat)
    ensures RunWith(next, begun, Rounds(replays, arrivals, modTime, n)) == Fold(RoundOf(next, replays, arrivals, modTime), begun, n)
  {
    if n > 0 {
      RoundsAreFold(next, begun, replays, arrivals, modTime, n - 1);
      RunRound(next, begun, Rounds(replays, arrivals, modTime, n - 1), arrivals(n - 1), modTime, replays(n - 1));
    }
  }

  lemma {:induction false} ArrivalNumbered(arrivals: nat -> seq<Line>, i: nat, n: nat, from: nat)
    requires i < n && Numbered(Arrived(arrivals, n), from)
    ensures Numbered(arrivals(i), from + |Arrived(arrivals, i)|)
  {
    NumberedPart(Arrived(arrivals, n - 1), arrivals(n - 1), from);
    if i < n - 1 { ArrivalNumbered(arrivals, i, n - 1, from); }
  }

  lemma OpenScanned(s: State, replays: nat -> Replay, modTime: int)
    requires s.journal.Some? && s.drain.None?
    ensures Scanned(s, Next(s, OpenDrain), replays, 0, [], modTime)
  {
  }

  /** A step function each of whose rounds keeps the scan's state. */
  ghost predicate KeepsScanning(f: (State, nat) -> State, s: State, replays: nat -> Replay, arrivals: nat -> seq<Line>, modTime: int, n: nat)
    requires s.journal.Some? && n <= |Lines(s)|
  {
    forall e: State, i: nat :: i < n && Scanned(s, e, replays, i, Arrived(arrivals, i), modTime) ==>
      Scanned(s, f(e, i), replays, i + 1, Arrived(arrivals, i + 1), modTime)
  }

  lemma RoundKeepsScanning(s: State, e: State, replays: nat -> Replay, arrivals: nat -> seq<Line>, modTime: int, i: nat, n: nat)
    requires s.journal.Some? && i < n <= |Lines(s)| && Numbered(Arrived(arrivals, n), s.tally.calls)
    requires Scanned(s, e, replays, i, Arrived(arrivals, i), modTime)
    ensures Scanned(s, Round(Next, e, arrivals(i), modTime, replays(i)), replays, i + 1, Arrived(arrivals, i + 1), modTime)
  {
    ArrivalNumbered(arrivals, i, n, s.tally.calls);
    RoundScanned(s, e, replays, i, Arrived(arrivals, i), arrivals(i), modTime);
  }

  lemma RoundsKeepScanning(s: State, replays: nat -> Replay, arrivals: nat -> seq<Line>, modTime: int, n: nat)
    requires s.journal.Some? && n <= |Lines(s)| && Numbered(Arrived(arrivals, n), s.tally.calls)
    ensures KeepsScanning(RoundOf(Next, replays, arrivals, modTime), s, replays, arrivals, modTime, n)
  {
    var f := RoundOf(Next, replays, arrivals, modTime);
    forall e: State, i: nat | i < n && Scanned(s, e, replays, i, Arrived(arrivals, i), modTime)
      ensures Scanned(s, f(e, i), replays, i + 1, Arrived(arrivals, i + 1), modTime)
    {
      RoundKeepsScanning(s, e, replays, arrivals, modTime, i, n);
    }
  }

  lemma {:induction false} FoldScans(f: (State, nat) -> State, s: State, begun: State, replays: nat -> Replay, arrivals: nat -> seq<Line>, modTime: int, i: nat, n: nat)
    requires s.journal.Some? && i <= n <= |Lines(s)| && KeepsScanning(f, s, replays, arrivals, modTime, n)
    requires Scanned(s, begun, replays, 0, [], modTime)
    ensures Scanned(s, Fold(f, begun, i), replays, i, Arrived(arrivals, i), modTime)
  {
    if i > 0 {
      FoldScans(f, s, begun, replays, arrivals, modTime, i - 1, n);
      assert Fold(f, begun, i) == f(Fold(f, begun, i - 1), i - 1);
    }
  }

  lemma AllAppliedGrows(replays: nat -> Replay, n: nat)
    ensures AllApplied(replays, n + 1) <==> AllApplied(replays, n) && replays(n).Applied?
  {
  }

  lemma ScanEnds(s: State, s': State, replays: nat -> Replay, n: nat, arrived: seq<Line>, modTime: int)
    requires s.journal.Some? && n == |Lines(s)| && Scanned(s, s', replays, n, arrived, modTime)
    requires NonEmptyLines(Lines(s)) && NonEmptyLines(arrived)
    ensures var e := Next(s', FinishDrain);
            && e.db == s'.db && e.drain.None?
            && e.journal == if AllApplied(replays, n) && arrived == [] then None else s'.journal
  {
    ExtendedKeepsSize(s.journal.value, arrived, modTime);
  }

  lemma DrainRuns(s: State, replays: nat -> Replay, arrivals: nat -> seq<Line>, modTime: int, n: nat)
    requires s.journal.Some? && s.drain.None? && n <= |Lines(s)| && Numbered(Arrived(arrivals, n + 1), s.tally.calls)
    ensures Scanned(s, Run(s, [OpenDrain] + Rounds(replays, arrivals, modTime, n) + Calls(arrivals(n), modTime)),
                    replays, n, Arrived(arrivals, n + 1), modTime)
  {
    var begun, scan, late := Next(s, OpenDrain), Rounds(replays, arrivals, modTime, n), Calls(arrivals(n), modTime);
    NumberedPart(Arrived(arrivals, n), arrivals(n), s.tally.calls);
    RunSnoc(Next, s, [], OpenDrain);
    assert [] + [OpenDrain] == [OpenDrain];
    RunConcat(Next, s, [OpenDrain], scan);
    OpenScanned(s, replays, modTime);
    RoundsKeepScanning(s, replays, arrivals, modTime, n);
    FoldScans(RoundOf(Next, replays, arrivals, modTime), s, begun, replays, arrivals, modTime, n, n);
    RoundsAreFold(Next, begun, replays, arrivals, modTime, n);
    RunConcat(Next, s, [OpenDrain] + scan, late);
    ArrivalsScanned(s, Run(begun, scan), replays, n, Arrived(arrivals, n), arrivals(n), modTime);
  }

  /** One drain as the program runs it is an interleaving of the protocol's steps: opening, the scanned lines with
      the calls that arrived among them, and the end. What is proved of every interleaving holds of it. */
  lemma DrainIsInterleaving(s: State, replays: nat -> Replay, arrivals: nat -> seq<Line>, modTime: int, n: nat, removes: bool)
    requires s.journal.Some? && s.drain.None? && n <= |Lines(s)| && NonEmptyLines(Lines(s))
    requires Numbered(Arrived(arrivals, n + 1), s.tally.calls) && forall i: nat :: NonEmptyLines(arrivals(i))
    ensures var s' := Run(s, DrainSteps(replays, arrivals, modTime, n, |Lines(s)|, removes));
            (s'.journal, s'.db) == Drained(s.journal.value, s.db, replays, arrivals, modTime, n, removes) && s'.drain.None?
  {
    var steps := [OpenDrain] + Rounds(replays, arrivals, modTime, n) + Calls(arrivals(n), modTime);
    var total := |Lines(s)|;
    DrainRuns(s, replays, arrivals, modTime, n);
    ArrivedNonEmpty(arrivals, n + 1);
    if n == total && removes {
      assert DrainSteps(replays, arrivals, modTime, n, total, removes) == steps + [FinishDrain];
      FinishedDrain(s, steps, replays, arrivals, modTime, n);
    } else {
      assert DrainSteps(replays, arrivals, modTime, n, total, removes) == steps + [AbandonDrain];
      AbandonedDrain(s, steps, replays, arrivals, modTime, n);
    }
  }

  lemma {:induction false} CallsAreLegal(lines: seq<Line>, modTime: int)
    requires NonEmptyLines(lines)
    ensures Legal(Calls(lines, modTime))
  {
    if lines != [] { CallsAreLegal(lines[..|lines| - 1], modTime); }
  }

  lemma {:induction false} RoundsAreLegal(replays: nat -> Replay, arrivals: nat -> seq<Line>, modTime: int, n: nat)
    requires forall i: nat :: NonEmptyLines(arrivals(i))
    ensures Legal(Rounds(replays, arrivals, modTime, n))
  {
    if n > 0 {
      RoundsAreLegal(replays, arrivals, modTime, n - 1);
      CallsAreLegal(arrivals(n - 1), modTime);
    }
  }

  /** A drain from any reachable state leads to a reachable state, in which nothing spooled is lost. */
  lemma DrainStaysReachable(db: Database, steps: seq<Step>, replays: nat -> Replay, arrivals: nat -> seq<Line>, modTime: int, n: nat, removes: bool)
    requires Legal(steps) && forall i: nat :: NonEmptyLines(arrivals(i))
    requires var s := SpoolProtocol.After(db, steps);
             s.journal.Some? && s.drain.None? && n <= |Lines(s)| && Numbered(Arrived(arrivals, n + 1), s.tally.calls)
    ensures var s := SpoolProtocol.After(db, steps);
            var s' := SpoolProtocol.After(db, steps + DrainSteps(replays, arrivals, modTime, n, |Lines(s)|, removes));
            (s'.journal, s'.db) == Drained(s.journal.value, s.db, replays, arrivals, modTime, n, removes) && Safe(s')
  {
    var s := SpoolProtocol.After(db, steps);
    var more := DrainSteps(replays, arrivals, modTime, n, |Lines(s)|, removes);
    SpooledIsNeverLost(db, steps);
    DrainIsInterleaving(s, replays, arrivals, modTime, n, removes);
    RunIsAfter(db, steps, more);
    DrainStepsAreLegal(replays, arrivals, modTime, n, |Lines(s)|, removes);
    LegalConcat(steps, more);
    SpooledIsNeverLost(db, steps + more);
  }

  lemma LegalConcat(xs: seq<Step>, ys: seq<Step>)
    requires Legal(xs) && Legal(ys)
    ensures Legal(xs + ys)
  {
  }

  lemma DrainStepsAreLegal(replays: nat -> Replay, arrivals: nat -> seq<Line>, modTime: int, n: nat, total: nat, removes: bool)
    requires forall i: nat :: NonEmptyLines(arrivals(i))
    ensures Legal(DrainSteps(replays, arrivals, modTime, n, total, removes))
  {
    var scan, late := Rounds(replays, arrivals, modTime, n), Calls(arrivals(n), modTime);
    RoundsAreLegal(replays, arrivals, modTime, n);
    CallsAreLegal(arrivals(n), modTime);
    LegalConcat([OpenDrain], scan);
    LegalConcat([OpenDrain] + scan, late);
    LegalConcat([OpenDrain] + scan + late, [if n == total && removes then FinishDrain else AbandonDrain]);
  }

  lemma FinishedDrain(s: State, steps: seq<Step>, replays: nat -> Replay, arrivals: nat -> seq<Line>, modTime: int, n: nat)
    requires s.journal.Some? && n == |Lines(s)| && Scanned(s, Run(s, steps), replays, n, Arrived(arrivals, n + 1), modTime)
    requires NonEmptyLines(Lines(s)) && NonEmptyLines(Arrived(arrivals, n + 1))
    ensures var s' := Run(s, steps + [FinishDrain]);
            (s'.journal, s'.db) == Drained(s.journal.value, s.db, replays, arrivals, modTime, n, true) && s'.drain.None?
  {
    RunSnoc(Next, s, steps, FinishDrain);
    ScanEnds(s, Run(s, steps), replays, n, Arrived(arrivals, n + 1), modTime);
  }

  lemma AbandonedDrain(s: State, steps: seq<Step>, replays: nat -> Replay, arrivals: nat -> seq<Line>, modTime: int, n: nat)
    requires s.journal.Some? && n <= |Lines(s)| && Scanned(s, Run(s, steps), replays, n, Arrived(arrivals, n + 1), modTime)
    ensures var s' := Run(s, steps + [AbandonDrain]);
            && s'.journal == Some(Extended(s.journal.value, Arrived(arrivals, n + 1), modTime))
            && s'.db == ApplyAll(s.db, Landed(Lines(s), replays, n)) && s'.drain.None?
  {
    RunSnoc(Next, s, steps, AbandonDrain);
    ScanStops(s, Run(s, steps), replays, n, Arrived(arrivals, n + 1), modTime);
  }

  lemma ScanStops(s: State, s': State, replays: nat -> Replay, n: nat, arrived: seq<Line>, modTime: int)
    requires s.journal.Some? && n <= |Lines(s)| && Scanned(s, s', replays, n, arrived, modTime)
    ensures var e := Next(s', AbandonDrain); e.db == s'.db && e.drain.None? && e.journal == s'.journal
  {
  }

  /** Other writers append while the drain holds no file lock. */
  method Interfere(journal: Journal, snapshot: File, arrivals: nat -> seq<Line>, i: nat, modTime: int)
    requires journal.file == Some(Extended(snapshot, Arrived(arrivals, i), modTime))
    modifies journal
    ensures journal.file == Some(Extended(snapshot, Arrived(arrivals, i + 1), modTime))
  {
    var current := journal.file.value;
    journal.file := Some(Extended(current, arrivals(i), modTime));
    assert Arrived(arrivals, i) + [] == Arrived(arrivals, i);
    assert [] + arrivals(i) == arrivals(i);
    assert snapshot.lines + (Arrived(arrivals, i) + arrivals(i)) == snapshot.lines + Arrived(arrivals, i) + arrivals(i);
  }

  lemma ExtendedKeepsSize(file: File, more: seq<Line>, modTime: int)
    requires NonEmptyLines(file.lines) && NonEmptyLines(more)
    ensures Unchanged(file, Extended(file, more, modTime)) <==> more == []
  {
    SameSizePrefix(file.lines, file.lines + more);
  }

  lemma {:induction false} ArrivedNonEmpty(arrivals: nat -> seq<Line>, n: nat)
    requires forall i: nat :: NonEmptyLines(arrivals(i))
    ensures NonEmptyLines(Arrived(arrivals, n))
  {
    if n > 0 {
      ArrivedNonEmpty(arrivals, n - 1);
    }
  }

  lemma LandedGrows(db: Database, lines: seq<Line>, replays: nat -> Replay, i: nat)
    requires i < |lines|
    ensures ApplyAll(db, Landed(lines, replays, i + 1)) ==
            if Lands(replays(i)) then Apply(ApplyAll(db, Landed(lines, replays, i)), lines[i].record)
            else ApplyAll(db, Landed(lines, replays, i))
  {
    ApplySnoc(db, Landed(lines, replays, i), lines[i].record);
    assert Landed(lines, replays, i) + [] == Landed(lines, replays, i);
  }

  /** A line is applied, skipped or failed; a drain is clean exactly when all were applied. */
  lemma {:induction false} CleanMeansAllApplied(replays: nat -> Replay, n: nat)
    ensures CountIf(replays, Skipped, n) == 0 && !AnyFailed(replays, n) <==> AllApplied(replays, n)
  {
    if n > 0 {
      CleanMeansAllApplied(replays, n - 1);
    }
  }
}
