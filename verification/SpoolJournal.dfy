/** The fallback journal: one append by one writer, and the file that all writers share. */
module SpoolJournal {
  import opened Wrappers
  import opened AuditStore

  /** One journal line. `serial` tells apart two lines that carry equal records. */
  datatype Line = Line(serial: nat, record: Record, bytes: nat)

  datatype File = File(inode: nat, lines: seq<Line>, modTime: int)

  function Size(lines: seq<Line>): nat {
    if lines == [] then 0 else Size(lines[..|lines| - 1]) + lines[|lines| - 1].bytes
  }

  function Records(lines: seq<Line>): (r: seq<Record>)
    ensures |r| == |lines| && forall i :: 0 <= i < |r| ==> r[i] == lines[i].record
  {
    seq(|lines|, i requires 0 <= i < |lines| => lines[i].record)
  }

  /** Every line is at least its newline. */
  predicate NonEmptyLines(lines: seq<Line>) {
    forall i :: 0 <= i < |lines| ==> lines[i].bytes >= 1
  }

  lemma SizeSnoc(lines: seq<Line>, line: Line)
    ensures Size(lines + [line]) == Size(lines) + line.bytes
  {
    assert (lines + [line])[..|lines|] == lines;
  }

  /** A file that only grew and kept its size did not change. */
  lemma {:induction false} SameSizePrefix(before: seq<Line>, after: seq<Line>)
    requires before <= after && NonEmptyLines(after)
    ensures Size(before) <= Size(after)
    ensures Size(before) == Size(after) ==> before == after
  {
    if before != after {
      var n := |after| - 1;
      assert before <= after[..n];
      SameSizePrefix(before, after[..n]);
    }
  }

  /** The step of an append that fails, if any. */
  datatype Fault =
    | NoFault | ContextDone | EncodeFailed | MkdirFailed | OpenFailed | StatFailed
    | WriteFailed | SyncFailed | CloseFailed

  datatype Outcome =
    | Written                  // in the journal and counted
    | Dropped(closed: bool)    // refused at the cap; `closed` is false when closing the file then failed
    | Errored                  // returned to the caller as an error

  /** The file as O_CREATE leaves it. */
  function Opened(file: Option<File>, stamp: File): File {
    if file.Some? then file.value else stamp.(lines := [])
  }

  predicate AtCap(file: File, maxBytes: nat, line: Line) {
    maxBytes > 0 && Size(file.lines) + line.bytes > maxBytes
  }

  /** One append: the file afterwards and what the writer reports. A write is all or nothing; a line
      whose sync or close fails is in the file although the caller gets an error. `stamp` supplies the
      inode of a created file and the modification time of a written one. */
  function Append(file: Option<File>, maxBytes: nat, line: Line, fault: Fault, stamp: File): (r: (Option<File>, Outcome))
    ensures r.0.Some? && file.Some? ==> r.0.value.inode == file.value.inode && file.value.lines <= r.0.value.lines
    ensures file.Some? ==> r.0.Some?
    ensures r.1.Written? ==> r.0.Some? && |r.0.value.lines| > 0 && r.0.value.lines[|r.0.value.lines| - 1] == line
  {
    if fault in {ContextDone, EncodeFailed, MkdirFailed, OpenFailed} then (file, Errored)
    else
      var file' := Opened(file, stamp);
      if fault.StatFailed? then (Some(file'), Errored)
      else if AtCap(file', maxBytes, line) then (Some(file'), Dropped(!fault.CloseFailed?))
      else if fault.WriteFailed? then (Some(file'), Errored)
      else
        var written := file'.(lines := file'.lines + [line], modTime := stamp.modTime);
        (Some(written), if fault.NoFault? then Written else Errored)
  }

  /** Refusing at the cap keeps the file within it. */
  lemma AppendKeepsCap(file: Option<File>, maxBytes: nat, line: Line, fault: Fault, stamp: File, cap: nat)
    requires 0 < maxBytes <= cap
    requires file.Some? ==> Size(file.value.lines) <= cap
    ensures var after := Append(file, maxBytes, line, fault, stamp).0;
            after.Some? ==> Size(after.value.lines) <= cap
  {
    SizeSnoc(Opened(file, stamp).lines, line);
  }

  function LinesOf(file: Option<File>): seq<Line> {
    if file.Some? then file.value.lines else []
  }

  /** What becomes of a record, in sizes: without a fault it is written exactly when there is no cap or it still
      fits, and dropped otherwise. */
  lemma WrittenExactlyWhen(file: Option<File>, maxBytes: nat, line: Line, stamp: File)
    ensures var (after, outcome) := Append(file, maxBytes, line, NoFault, stamp);
            && (outcome == Written || outcome == Dropped(true)) && after.Some?
            && (outcome == Written <==> maxBytes == 0 || Size(LinesOf(file)) + line.bytes <= maxBytes)
            && LinesOf(after) == if outcome == Written then LinesOf(file) + [line] else LinesOf(file)
  {
  }

  /** Faults that strike before the file is written leave its lines alone; a failing sync or close comes too late
      for a line that fits, which is in the file although the caller sees an error. */
  lemma FaultExactlyWhen(file: Option<File>, maxBytes: nat, line: Line, fault: Fault, stamp: File)
    requires !fault.NoFault?
    ensures var (after, outcome) := Append(file, maxBytes, line, fault, stamp);
            var fits := maxBytes == 0 || Size(LinesOf(file)) + line.bytes <= maxBytes;
            var late := fault.SyncFailed? || fault.CloseFailed?;
            var reached := late || fault.WriteFailed?;
            && LinesOf(after) == (if late && fits then LinesOf(file) + [line] else LinesOf(file))
            && outcome == if reached && !fits then Dropped(!fault.CloseFailed?) else Errored
  {
  }

  /** The shared journal path. */
  class Journal {
    var file: Option<File>

    constructor ()
      ensures file == None
    {
      file := None;
    }

    /** The file and its identity at this moment, if the journal exists. */
    method OpenSnapshot() returns (snapshot: Option<File>)
      ensures snapshot == file
    {
      snapshot := file;
    }

    /** Removes the journal unless it is a different file, or has another size or modification time. */
    method RemoveUnchanged(snapshot: File) returns (removed: bool)
      modifies this
      ensures removed <==> old(file).Some? && Unchanged(snapshot, old(file).value)
      ensures removed ==>
                var now := old(file).value;
                snapshot.inode == now.inode && Size(snapshot.lines) == Size(now.lines) && snapshot.modTime == now.modTime
      ensures file == if removed then None else old(file)
    {
      removed := file.Some? && Unchanged(snapshot, file.value);
      if removed { file := None; }
    }
  }

  predicate Unchanged(snapshot: File, current: File) {
    snapshot.inode == current.inode && Size(snapshot.lines) == Size(current.lines) && snapshot.modTime == current.modTime
  }

  /** A journal that was replaced, grew or was touched since the snapshot does not pass for unchanged. */
  lemma ChangeIsNoticed(snapshot: File, current: File, line: Line)
    ensures snapshot.inode != current.inode ==> !Unchanged(snapshot, current)
    ensures snapshot.modTime != current.modTime ==> !Unchanged(snapshot, current)
    ensures line.bytes >= 1 ==> !Unchanged(snapshot, snapshot.(lines := snapshot.lines + [line]))
    ensures Unchanged(snapshot, snapshot)
  {
    SizeSnoc(snapshot.lines, line);
  }

  /** A writer that falls back to the journal when the primary fails. */
  class SpoolWriter {
    const maxBytes: nat
    var fallbackWrites: nat
    var droppedWrites: nat
    var journalBytes: nat

    constructor (maxBytes: nat)
      ensures this.maxBytes == maxBytes && fallbackWrites == 0 && droppedWrites == 0 && journalBytes == 0
    {
      this.maxBytes := maxBytes;
      fallbackWrites, droppedWrites, journalBytes := 0, 0, 0;
    }

    /** Tries the primary, then the journal. A refused record is counted, not returned as an error. */
    method Record(journal: Journal, primaryAccepts: bool, line: Line, fault: Fault, stamp: File) returns (ok: bool)
      modifies this, journal
      ensures primaryAccepts ==> ok && unchanged(this) && unchanged(journal)
      ensures !primaryAccepts ==>
                var (after, outcome) := Append(old(journal.file), maxBytes, line, fault, stamp);
                && journal.file == after
                && (ok <==> outcome.Written? || outcome == Dropped(true))
                && fallbackWrites == old(fallbackWrites) + (if outcome.Written? then 1 else 0)
                && droppedWrites == old(droppedWrites) + (if outcome.Dropped? then 1 else 0)
                && (if outcome.Written? || outcome.Dropped? then journalBytes == Size(after.value.lines)
                    else journalBytes == old(journalBytes))
    {
      if primaryAccepts { return true; }
      if fault in {ContextDone, EncodeFailed, MkdirFailed, OpenFailed} { return false; }
      var file := Opened(journal.file, stamp);
      journal.file := Some(file);
      if fault.StatFailed? { return false; }
      if AtCap(file, maxBytes, line) {
        droppedWrites := droppedWrites + 1;
        journalBytes := Size(file.lines);
        return !fault.CloseFailed?;
      }
      if fault.WriteFailed? { return false; }
      journal.file := Some(file.(lines := file.lines + [line], modTime := stamp.modTime));
      if fault.SyncFailed? || fault.CloseFailed? { return false; }
      fallbackWrites := fallbackWrites + 1;
      SizeSnoc(file.lines, line);
      journalBytes := Size(file.lines) + line.bytes;
      return true;
    }
  }
}

/** Any number of writers and one drain at a time over the shared journal and the primary store. */
module SpoolProtocol {
  import opened Wrappers
  import opened AuditStore
  import opened SpoolJournal

  /** What replaying one line came to. A failed line may have reached the database all the same. */
  datatype Replay = Applied | Skipped | Failed(landed: bool)

  /** A drain in progress over the lines its snapshot covers. */
  datatype Drain = Drain(snapshot: File, next: nat, clean: bool)

  datatype Tally = Tally(calls: nat, primary: nat, fallback: nat, dropped: nat, errors: nat, refusedUnclosed: nat)

  /** `counted` holds the serials of lines reported as spooled, `accepted` those the primary took in a
      drain; `history` is every record that was spooled or written directly, in order. */
  datatype State = State(
    journal: Option<File>, drain: Option<Drain>, db: Database,
    counted: set<nat>, accepted: set<nat>, history: seq<Record>, tally: Tally)

  datatype Step =
    | Call(record: Record, bytes: nat, primaryAccepts: bool, maxBytes: nat, fault: Fault, stamp: File)
    | OpenDrain
    | ReplayLine(replay: Replay)
    | FinishDrain
    | AbandonDrain   // cancelled context, unreadable journal or a restarted process

  function Initial(db: Database): State {
    State(None, None, db, {}, {}, [], Tally(0, 0, 0, 0, 0, 0))
  }

  function Lines(s: State): seq<Line> {
    if s.journal.Some? then s.journal.value.lines else []
  }

  function CallStep(s: State, step: Step): State
    requires step.Call?
  {
    var t := s.tally.(calls := s.tally.calls + 1);
    if step.primaryAccepts then
      s.(db := Apply(s.db, step.record), history := s.history + [step.record], tally := t.(primary := t.primary + 1))
    else
      var line := Line(s.tally.calls, step.record, step.bytes);
      var (file, outcome) := Append(s.journal, step.maxBytes, line, step.fault, step.stamp);
      var grown := s.(journal := file,
                      history := s.history + (if |Lines(s.(journal := file))| > |Lines(s)| then [step.record] else []));
      match outcome
      case Written => grown.(counted := s.counted + {line.serial}, tally := t.(fallback := t.fallback + 1))
      case Dropped(closed) =>
        if closed then grown.(tally := t.(dropped := t.dropped + 1))
        else grown.(tally := t.(dropped := t.dropped + 1, errors := t.errors + 1, refusedUnclosed := t.refusedUnclosed + 1))
      case Errored => grown.(tally := t.(errors := t.errors + 1))
  }

  function ReplayStep(s: State, replay: Replay): State {
    if s.drain.None? || s.drain.value.next >= |s.drain.value.snapshot.lines| then s
    else
      var d := s.drain.value;
      var line := d.snapshot.lines[d.next];
      var moved := s.(drain := Some(d.(next := d.next + 1, clean := d.clean && replay.Applied?)));
      match replay
      case Applied => moved.(db := Apply(s.db, line.record), accepted := s.accepted + {line.serial})
      case Skipped => moved
      case Failed(landed) => if landed then moved.(db := Apply(s.db, line.record)) else moved
  }

  /** The end of a drain that read its whole snapshot. */
  function FinishStep(s: State): State {
    if s.drain.None? || s.drain.value.next < |s.drain.value.snapshot.lines| then s
    else if s.drain.value.clean && s.journal.Some? && Unchanged(s.drain.value.snapshot, s.journal.value) then
      s.(journal := None, drain := None)
    else s.(drain := None)
  }

  function Next(s: State, step: Step): State {
    match step
    case Call(_, _, _, _, _, _) => CallStep(s, step)
    case OpenDrain =>
      if s.drain.None? && s.journal.Some? then s.(drain := Some(Drain(s.journal.value, 0, true))) else s
    case ReplayLine(replay) => ReplayStep(s, replay)
    case FinishDrain => FinishStep(s)
    case AbandonDrain => s.(drain := None)
  }

  function After(db: Database, steps: seq<Step>): State {
    if steps == [] then Initial(db) else Next(After(db, steps[..|steps| - 1]), steps[|steps| - 1])
  }

  /** A written line carries at least its newline. */
  predicate Legal(steps: seq<Step>) {
    forall k :: 0 <= k < |steps| ==> steps[k].Call? ==> steps[k].bytes >= 1
  }

  // ---- evidence is never lost ----

  ghost predicate DrainMatches(s: State) {
    s.drain.Some? ==>
      var d := s.drain.value;
      && s.journal.Some?
      && d.snapshot.inode == s.journal.value.inode
      && d.snapshot.lines <= s.journal.value.lines
      && d.next <= |d.snapshot.lines|
      && (d.clean ==> forall i :: 0 <= i < d.next ==> d.snapshot.lines[i].serial in s.accepted)
  }

  ghost predicate Held(s: State, serial: nat) {
    serial in s.accepted || exists i :: 0 <= i < |Lines(s)| && Lines(s)[i].serial == serial
  }

  ghost predicate Safe(s: State) {
    && NonEmptyLines(Lines(s))
    && DrainMatches(s)
    && forall serial :: serial in s.counted ==> Held(s, serial)
  }

  lemma HeldGrows(s: State, s': State, serial: nat)
    requires Held(s, serial) && Lines(s) <= Lines(s') && s.accepted <= s'.accepted
    ensures Held(s', serial)
  {
    if serial !in s.accepted {
      var i :| 0 <= i < |Lines(s)| && Lines(s)[i].serial == serial;
      assert Lines(s')[i].serial == serial;
    }
  }

  lemma RecordKeepsSafe(s: State, step: Step)
    requires Safe(s) && step.Call? && step.bytes >= 1
    ensures Safe(CallStep(s, step))
    ensures Lines(s) <= Lines(CallStep(s, step))
  {
    var s' := CallStep(s, step);
    forall serial | serial in s'.counted ensures Held(s', serial) {
      if serial in s.counted { HeldGrows(s, s', serial); }
      else { assert Lines(s')[|Lines(s')| - 1].serial == serial; }
    }
  }

  /** A drain removes the journal only when it has read, and the primary has accepted, every line in it. */
  lemma FinishRemovesOnlyWhatWasRead(s: State)
    requires Safe(s) && s.journal.Some? && FinishStep(s).journal.None?
    ensures s.drain.value.snapshot.lines == Lines(s) && s.drain.value.next == |Lines(s)|
    ensures forall i :: 0 <= i < |Lines(s)| ==> Lines(s)[i].serial in s.accepted
  {
    SameSizePrefix(s.drain.value.snapshot.lines, Lines(s));
  }

  lemma NextKeepsSafe(s: State, step: Step)
    requires Safe(s) && (step.Call? ==> step.bytes >= 1)
    ensures Safe(Next(s, step))
  {
    var s' := Next(s, step);
    if step.Call? {
      RecordKeepsSafe(s, step);
    } else {
      if step.FinishDrain? && s.journal.Some? && s'.journal.None? { FinishRemovesOnlyWhatWasRead(s); }
      forall serial | serial in s'.counted ensures Held(s', serial) {
        if Lines(s) <= Lines(s') { HeldGrows(s, s', serial); } else { assert Held(s, serial); }
      }
    }
  }

  /** In every interleaving, a record counted as spooled is in the journal or accepted by the primary. */
  lemma {:induction false} SpooledIsNeverLost(db: Database, steps: seq<Step>)
    requires Legal(steps)
    ensures Safe(After(db, steps))
  {
    if steps != [] {
      SpooledIsNeverLost(db, steps[..|steps| - 1]);
      NextKeepsSafe(After(db, steps[..|steps| - 1]), steps[|steps| - 1]);
    }
  }

  // ---- conservation and the cap ----

  predicate Balanced(t: Tally) {
    t.calls + t.refusedUnclosed == t.primary + t.fallback + t.dropped + t.errors
  }

  lemma CallBalances(s: State, step: Step)
    requires step.Call? && Balanced(s.tally)
    ensures Balanced(CallStep(s, step).tally)
  {
  }

  /** Every call ends in exactly one of four ways, except that a record refused at the cap whose file
      then fails to close is counted both as dropped and as an error. */
  lemma {:induction false} CallsAreConserved(db: Database, steps: seq<Step>)
    ensures Balanced(After(db, steps).tally)
  {
    if steps != [] {
      CallsAreConserved(db, steps[..|steps| - 1]);
      if steps[|steps| - 1].Call? { CallBalances(After(db, steps[..|steps| - 1]), steps[|steps| - 1]); }
    }
  }

  /** How many of the steps are calls, or calls the primary accepts. */
  function Calls(steps: seq<Step>, accepted: bool): nat {
    if steps == [] then 0
    else
      var last := steps[|steps| - 1];
      Calls(steps[..|steps| - 1], accepted) + if last.Call? && (accepted ==> last.primaryAccepts) then 1 else 0
  }

  /** Every call is counted once, and as primary exactly if the primary accepted it. */
  lemma {:induction false} CallsAreCounted(db: Database, steps: seq<Step>)
    ensures var t := After(db, steps).tally; t.calls == Calls(steps, false) && t.primary == Calls(steps, true)
  {
    if steps != [] {
      CallsAreCounted(db, steps[..|steps| - 1]);
    }
  }

  /** If closing never fails the four counts add up to the calls. */
  lemma {:induction false} CallsAddUpWhenClosingWorks(db: Database, steps: seq<Step>)
    requires forall k :: 0 <= k < |steps| && steps[k].Call? ==> !steps[k].fault.CloseFailed?
    ensures var t := After(db, steps).tally;
            t.refusedUnclosed == 0 && t.calls == t.primary + t.fallback + t.dropped + t.errors
  {
    CallsAreConserved(db, steps);
    if steps != [] {
      CallsAddUpWhenClosingWorks(db, steps[..|steps| - 1]);
      var last := steps[|steps| - 1];
      assert last.Call? ==> !last.fault.CloseFailed?;
    }
  }

  /** The call is refused at the cap and its file then fails to close. */
  predicate RefusedUnclosed(s: State, step: Step) {
    && step.Call? && !step.primaryAccepts && step.fault.CloseFailed?
    && AtCap(Opened(s.journal, step.stamp), step.maxBytes, Line(s.tally.calls, step.record, step.bytes))
  }

  lemma CountsRefused(s: State, step: Step)
    ensures Next(s, step).tally.refusedUnclosed == s.tally.refusedUnclosed + if RefusedUnclosed(s, step) then 1 else 0
  {
  }

  /** No call of the run is. */
  ghost predicate NoneRefusedUnclosed(db: Database, steps: seq<Step>) {
    steps != [] ==>
      var front, last := steps[..|steps| - 1], steps[|steps| - 1];
      NoneRefusedUnclosed(db, front) && !RefusedUnclosed(After(db, front), last)
  }

  lemma {:induction false} RefusedExactlyWhen(db: Database, steps: seq<Step>)
    ensures After(db, steps).tally.refusedUnclosed == 0 <==> NoneRefusedUnclosed(db, steps)
  {
    if steps != [] {
      var front, last := steps[..|steps| - 1], steps[|steps| - 1];
      RefusedExactlyWhen(db, front);
      CountsRefused(After(db, front), last);
    }
  }

  /** Exactly when the four counts add up to the calls: when no call is refused at the cap with a failing close. */
  lemma CallsAddUpExactlyWhen(db: Database, steps: seq<Step>)
    ensures var t := After(db, steps).tally;
            t.calls == t.primary + t.fallback + t.dropped + t.errors <==> NoneRefusedUnclosed(db, steps)
  {
    CallsAreConserved(db, steps);
    RefusedExactlyWhen(db, steps);
  }

  /** One such call is counted twice. */
  lemma RefusedCallIsCountedTwice(db: Database, record: Record, stamp: File)
    ensures var t := After(db, [Call(record, 2, false, 1, CloseFailed, stamp)]).tally;
            t.calls == 1 && t.dropped == 1 && t.errors == 1
  {
    var steps := [Call(record, 2, false, 1, CloseFailed, stamp)];
    assert steps[..0] == [];
    assert After(db, steps) == CallStep(Initial(db), steps[0]);
  }

  /** Over any run: a call the primary refuses and no fault strikes is dropped exactly when adding its line would
      pass its writer's cap, and otherwise its line is added and counted. */
  lemma CallIsDroppedExactlyWhen(db: Database, steps: seq<Step>, k: nat)
    requires k < |steps| && steps[k].Call? && !steps[k].primaryAccepts && steps[k].fault.NoFault?
    ensures var s, s', c := After(db, steps[..k]), After(db, steps[..k + 1]), steps[k];
            var line := Line(s.tally.calls, c.record, c.bytes);
            var dropped := c.maxBytes > 0 && Size(Lines(s)) + c.bytes > c.maxBytes;
            && s'.tally.dropped == s.tally.dropped + (if dropped then 1 else 0)
            && s'.tally.fallback == s.tally.fallback + (if dropped then 0 else 1)
            && Lines(s') == (if dropped then Lines(s) else Lines(s) + [line])
            && s'.counted == (if dropped then s.counted else s.counted + {line.serial})
            && s'.history == (if dropped then s.history else s.history + [c.record])
            && s'.db == s.db && s'.tally.errors == s.tally.errors && s'.tally.primary == s.tally.primary
  {
    var s, c := After(db, steps[..k]), steps[k];
    assert steps[..k + 1][..k] == steps[..k];
    WrittenExactlyWhen(s.journal, c.maxBytes, Line(s.tally.calls, c.record, c.bytes), c.stamp);
  }

  /** The shared journal never outgrows the largest cap of the writers that share it. */
  lemma {:induction false} JournalStaysWithinCap(db: Database, steps: seq<Step>, cap: nat)
    requires forall k :: 0 <= k < |steps| && steps[k].Call? ==> 0 < steps[k].maxBytes <= cap
    ensures Size(Lines(After(db, steps))) <= cap
  {
    if steps != [] {
      var s, last := After(db, steps[..|steps| - 1]), steps[|steps| - 1];
      JournalStaysWithinCap(db, steps[..|steps| - 1], cap);
      if last.Call? {
        AppendKeepsCap(s.journal, last.maxBytes, Line(s.tally.calls, last.record, last.bytes), last.fault, last.stamp, cap);
      }
    }
  }

  // ---- what the database plus the journal stand for ----

  /** No record is written directly ahead of a spooled version of it that says something else. */
  ghost predicate DirectWritesAreTimely(db: Database, steps: seq<Step>) {
    forall k :: 0 <= k < |steps| && steps[k].Call? && steps[k].primaryAccepts ==>
      Timely(Records(Lines(After(db, steps[..k]))), steps[k].record)
  }

  /** Replaying what is pending gives the database of the whole history, and a clean drain need not replay
      again the lines it passed. */
  ghost predicate Denotes(db: Database, s: State) {
    && (forall x :: x in Records(Lines(s)) ==> x in s.history)
    && ApplyAll(s.db, Records(Lines(s))) == ApplyAll(db, s.history)
    && (s.drain.Some? && s.drain.value.clean ==> PassedIsDone(s))
  }

  ghost predicate PassedIsDone(s: State)
    requires s.drain.Some?
  {
    s.drain.value.next <= |Lines(s)| &&
    ApplyAll(s.db, Records(Lines(s))[s.drain.value.next..]) == ApplyAll(s.db, Records(Lines(s)))
  }

  lemma ConsistentPart(whole: seq<Record>, part: seq<Record>)
    requires Consistent(whole) && forall x :: x in part ==> x in whole
    ensures Consistent(part)
  {
  }

  lemma ApplySnoc(db: Database, records: seq<Record>, r: Record)
    ensures ApplyAll(db, records + [r]) == Apply(ApplyAll(db, records), r)
  {
    ApplyAllConcat(db, records, [r]);
    assert [r][1..] == [];
  }

  lemma DirectWriteDenotes(db: Database, s: State, step: Step)
    requires Denotes(db, s) && step.Call? && step.primaryAccepts && Consistent(s.history + [step.record])
    requires Timely(Records(Lines(s)), step.record)
    ensures Denotes(db, CallStep(s, step))
  {
    var r, pending := step.record, Records(Lines(s));
    ConsistentPart(s.history + [r], pending + [r]);
    EarlyWriteCommutesExactlyWhen(s.db, pending, r);
    ApplySnoc(db, s.history, r);
    if s.drain.Some? && s.drain.value.clean {
      var rest := pending[s.drain.value.next..];
      TimelyForRest(pending, s.drain.value.next, r);
      ConsistentPart(s.history + [r], rest + [r]);
      EarlyWriteCommutesExactlyWhen(s.db, rest, r);
    }
  }

  /** A direct write keeps the database plus the journal standing for the history if and only if it is timely. */
  lemma DirectWriteDenotesExactlyWhen(db: Database, s: State, step: Step)
    requires Denotes(db, s) && step.Call? && step.primaryAccepts && Consistent(s.history + [step.record])
    ensures Denotes(db, CallStep(s, step)) <==> Timely(Records(Lines(s)), step.record)
  {
    var r, pending := step.record, Records(Lines(s));
    if Timely(pending, r) {
      DirectWriteDenotes(db, s, step);
    } else {
      ConsistentPart(s.history + [r], pending + [r]);
      EarlyWriteCommutesExactlyWhen(s.db, pending, r);
      ApplySnoc(db, s.history, r);
    }
  }

  /** A spooled call touches neither the database nor the drain, and adds at most its own line. */
  lemma SpoolGrows(s: State, step: Step)
    requires step.Call? && !step.primaryAccepts
    ensures var s' := CallStep(s, step);
            && s'.db == s.db && s'.drain == s.drain
            && (|| (Lines(s') == Lines(s) && s'.history == s.history)
                || (Lines(s') == Lines(s) + [Line(s.tally.calls, step.record, step.bytes)] && s'.history == s.history + [step.record]))
  {
  }

  lemma SpoolDenotes(db: Database, s: State, s': State, line: Line)
    requires Denotes(db, s) && s'.db == s.db && s'.drain == s.drain
    requires Lines(s') == Lines(s) + [line] && s'.history == s.history + [line.record]
    ensures Denotes(db, s')
  {
    var pending := Records(Lines(s));
    assert Records(Lines(s')) == pending + [line.record];
    ApplySnoc(s.db, pending, line.record);
    ApplySnoc(db, s.history, line.record);
    if s.drain.Some? && s.drain.value.clean {
      var n := s.drain.value.next;
      ApplySnoc(s.db, pending[n..], line.record);
      assert (pending + [line.record])[n..] == pending[n..] + [line.record];
    }
  }

  lemma SpoolCallDenotes(db: Database, s: State, step: Step)
    requires Safe(s) && Denotes(db, s) && step.Call? && !step.primaryAccepts
    ensures Denotes(db, CallStep(s, step))
  {
    SpoolGrows(s, step);
    var s' := CallStep(s, step);
    if Lines(s') != Lines(s) {
      SpoolDenotes(db, s, s', Line(s.tally.calls, step.record, step.bytes));
    }
  }

  lemma ReplayDenotes(db: Database, s: State, replay: Replay)
    requires Safe(s) && Denotes(db, s) && Consistent(s.history)
    ensures Denotes(db, ReplayStep(s, replay))
  {
    if s.drain.Some? && s.drain.value.next < |s.drain.value.snapshot.lines| {
      var d, pending := s.drain.value, Records(Lines(s));
      var x := d.snapshot.lines[d.next].record;
      assert pending[d.next] == x;
      ConsistentPart(s.history, pending);
      Absorb(s.db, x, pending);
      assert pending[d.next..][1..] == pending[d.next + 1..];
    }
  }

  lemma FinishDenotes(db: Database, s: State)
    requires Safe(s) && Denotes(db, s)
    ensures Denotes(db, FinishStep(s))
  {
    if s.journal.Some? && FinishStep(s).journal.None? {
      FinishRemovesOnlyWhatWasRead(s);
      assert Records(Lines(s))[|Lines(s)|..] == [];
    }
  }

  /** Main invariant: at every moment, whatever drains were attempted or abandoned, replaying the journal
      into the database gives what the whole history written in order would have given. */
  lemma {:induction false} PendingDenotesHistory(db: Database, steps: seq<Step>)
    requires Legal(steps) && DirectWritesAreTimely(db, steps) && Consistent(After(db, steps).history)
    ensures Denotes(db, After(db, steps))
  {
    if steps != [] {
      var front, last := steps[..|steps| - 1], steps[|steps| - 1];
      var s := After(db, front);
      HistoryGrows(s, last);
      ConsistentPart(After(db, steps).history, s.history);
      forall k | 0 <= k < |front| && front[k].Call? && front[k].primaryAccepts
        ensures Timely(Records(Lines(After(db, front[..k]))), front[k].record)
      {
        assert front[..k] == steps[..k] && front[k] == steps[k];
      }
      PendingDenotesHistory(db, front);
      SpooledIsNeverLost(db, front);
      match last
      case Call(_, _, _, _, _, _) =>
        if last.primaryAccepts { DirectWriteDenotes(db, s, last); } else { SpoolCallDenotes(db, s, last); }
      case OpenDrain => OpenDenotes(db, s);
      case ReplayLine(replay) => ReplayDenotes(db, s, replay);
      case FinishDrain => FinishDenotes(db, s);
      case AbandonDrain =>
    }
  }

  lemma {:induction false} HistoryOfPrefix(db: Database, steps: seq<Step>, n: nat)
    requires n <= |steps|
    ensures After(db, steps[..n]).history <= After(db, steps).history
  {
    if n < |steps| {
      var front := steps[..|steps| - 1];
      assert front[..n] == steps[..n];
      HistoryOfPrefix(db, front, n);
      HistoryGrows(After(db, front), steps[|steps| - 1]);
    } else {
      assert steps[..n] == steps;
    }
  }

  ghost predicate DenotesThroughout(db: Database, steps: seq<Step>) {
    forall n :: 0 <= n <= |steps| ==> Denotes(db, After(db, steps[..n]))
  }

  lemma PrefixDenotes(db: Database, steps: seq<Step>, n: nat)
    requires Legal(steps) && DirectWritesAreTimely(db, steps) && Consistent(After(db, steps).history) && n <= |steps|
    ensures Denotes(db, After(db, steps[..n]))
  {
    var front := steps[..n];
    HistoryOfPrefix(db, steps, n);
    ConsistentPart(After(db, steps).history, After(db, front).history);
    forall k | 0 <= k < |front| && front[k].Call? && front[k].primaryAccepts
      ensures Timely(Records(Lines(After(db, front[..k]))), front[k].record)
    {
      assert front[..k] == steps[..k] && front[k] == steps[k];
    }
    PendingDenotesHistory(db, front);
  }

  lemma WriteIsTimely(db: Database, steps: seq<Step>, k: nat)
    requires DenotesThroughout(db, steps) && Consistent(After(db, steps).history)
    requires k < |steps| && steps[k].Call? && steps[k].primaryAccepts
    ensures Timely(Records(Lines(After(db, steps[..k]))), steps[k].record)
  {
    var s := After(db, steps[..k]);
    assert steps[..k + 1][..k] == steps[..k];
    assert After(db, steps[..k + 1]) == CallStep(s, steps[k]);
    HistoryOfPrefix(db, steps, k + 1);
    ConsistentPart(After(db, steps).history, s.history + [steps[k].record]);
    assert Denotes(db, s) && Denotes(db, CallStep(s, steps[k]));
    DirectWriteDenotesExactlyWhen(db, s, steps[k]);
  }

  /** Exactly which runs keep the database plus the journal standing for the history throughout: those in which
      every direct write is timely. */
  lemma HistoryIsKeptExactlyWhen(db: Database, steps: seq<Step>)
    requires Legal(steps) && Consistent(After(db, steps).history)
    ensures DenotesThroughout(db, steps) <==> DirectWritesAreTimely(db, steps)
  {
    if DirectWritesAreTimely(db, steps) {
      forall n | 0 <= n <= |steps| ensures Denotes(db, After(db, steps[..n])) { PrefixDenotes(db, steps, n); }
    }
    if DenotesThroughout(db, steps) {
      forall k | 0 <= k < |steps| && steps[k].Call? && steps[k].primaryAccepts
        ensures Timely(Records(Lines(After(db, steps[..k]))), steps[k].record)
      {
        WriteIsTimely(db, steps, k);
      }
    }
  }

  lemma OpenDenotes(db: Database, s: State)
    requires Denotes(db, s)
    ensures Denotes(db, Next(s, OpenDrain))
  {
    assert Records(Lines(s))[0..] == Records(Lines(s));
  }

  lemma HistoryGrows(s: State, step: Step)
    ensures s.history <= Next(s, step).history
  {
  }

  /** Once the journal is gone the database is exactly what the history written in order would have left. */
  lemma DrainedDatabaseIsHistory(db: Database, steps: seq<Step>)
    requires Legal(steps) && DirectWritesAreTimely(db, steps) && Consistent(After(db, steps).history)
    requires After(db, steps).journal.None?
    ensures After(db, steps).db == ApplyAll(db, After(db, steps).history)
  {
    PendingDenotesHistory(db, steps);
  }
}
