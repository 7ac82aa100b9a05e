/** The audit database as a map from record identity to row, and what replaying records does to it. */
module AuditStore {
  import opened Wrappers

  datatype Kind =
    | PowerEvent | TelemetrySnapshot | CapabilityMatch | CapabilityVerification
    | FlowCompilation | FlowDecision | FlowExecution | ExecutionWave | ExecutionGroup
    | ActionAttempt | NodeRelease | SignalHandoff

  /** Progress kinds overwrite on conflict; every other kind ignores a conflicting insert. */
  predicate Progresses(kind: Kind) {
    kind.FlowExecution? || kind.ExecutionWave? || kind.ExecutionGroup?
  }

  /** A row: the columns an upsert leaves alone (the wave and group record ids) and the ones it sets. */
  datatype Row = Row(fixed: string, progress: string)

  datatype Record = Record(kind: Kind, key: string, row: Row)

  type Identity = (Kind, string)

  type Database = map<Identity, Row>

  function IdOf(r: Record): Identity {
    (r.kind, r.key)
  }

  /** What an insert does to the cell of its identity. */
  function Put(cell: Option<Row>, r: Record): Row {
    match cell
    case None => r.row
    case Some(row) => if Progresses(r.kind) then row.(progress := r.row.progress) else row
  }

  function Cell(db: Database, id: Identity): Option<Row> {
    if id in db then Some(db[id]) else None
  }

  function Apply(db: Database, r: Record): Database {
    db[IdOf(r) := Put(Cell(db, IdOf(r)), r)]
  }

  function ApplyAll(db: Database, records: seq<Record>): Database
    decreases records
  {
    if records == [] then db else ApplyAll(Apply(db, records[0]), records[1..])
  }

  /** Two records of one identity agree on everything an insert keeps: on the whole row for the kinds
      that ignore conflicts, on the fixed columns for the progress kinds. */
  predicate Agree(a: Record, b: Record) {
    IdOf(a) == IdOf(b) ==>
      a.row.fixed == b.row.fixed && (!Progresses(a.kind) ==> a.row == b.row)
  }

  ghost predicate Consistent(records: seq<Record>) {
    forall a, b :: a in records && b in records ==> Agree(a, b)
  }

  // ---- cell by cell ----

  function CellAfter(cell: Option<Row>, records: seq<Record>, id: Identity): Option<Row>
    decreases records
  {
    if records == [] then cell
    else CellAfter(if IdOf(records[0]) == id then Some(Put(cell, records[0])) else cell, records[1..], id)
  }

  lemma {:induction false} ApplyAllCell(db: Database, records: seq<Record>, id: Identity)
    ensures Cell(ApplyAll(db, records), id) == CellAfter(Cell(db, id), records, id)
    decreases records
  {
    if records != [] {
      ApplyAllCell(Apply(db, records[0]), records[1..], id);
    }
  }

  lemma SameCells(a: Database, b: Database)
    requires forall id :: Cell(a, id) == Cell(b, id)
    ensures a == b
  {
    forall id ensures id in a <==> id in b { assert Cell(a, id) == Cell(b, id); }
    assert a.Keys == b.Keys;
    forall id | id in a ensures a[id] == b[id] { assert Cell(a, id) == Cell(b, id); }
  }

  lemma {:induction false} ApplyAllConcat(db: Database, xs: seq<Record>, ys: seq<Record>)
    ensures ApplyAll(db, xs + ys) == ApplyAll(ApplyAll(db, xs), ys)
    decreases xs
  {
    if xs == [] {
      assert xs + ys == ys;
    } else {
      assert (xs + ys)[1..] == xs[1..] + ys;
      ApplyAllConcat(Apply(db, xs[0]), xs[1..], ys);
    }
  }

  lemma {:induction false} CellAbsorbs(cell: Option<Row>, x: Record, records: seq<Record>)
    requires exists y :: y in records && IdOf(y) == IdOf(x)
    requires forall y :: y in records ==> Agree(x, y)
    ensures CellAfter(Some(Put(cell, x)), records, IdOf(x)) == CellAfter(cell, records, IdOf(x))
  {
    var y := records[0];
    assert y in records;
    if IdOf(y) == IdOf(x) {
      assert Put(Some(Put(cell, x)), y) == Put(cell, y);
    } else {
      CellAbsorbs(cell, x, records[1..]);
    }
  }

  /** A record that is about to be replayed anyway may be applied early without changing the outcome. */
  lemma Absorb(db: Database, x: Record, records: seq<Record>)
    requires x in records && Consistent(records)
    ensures ApplyAll(Apply(db, x), records) == ApplyAll(db, records)
  {
    forall id
      ensures Cell(ApplyAll(Apply(db, x), records), id) == Cell(ApplyAll(db, records), id)
    {
      ApplyAllCell(Apply(db, x), records, id);
      ApplyAllCell(db, records, id);
      if id == IdOf(x) { CellAbsorbs(Cell(db, id), x, records); }
    }
    SameCells(ApplyAll(Apply(db, x), records), ApplyAll(db, records));
  }

  /** A record whose identity is not among the pending ones commutes with their replay. */
  lemma Commute(db: Database, x: Record, records: seq<Record>)
    requires forall y :: y in records ==> IdOf(y) != IdOf(x)
    ensures ApplyAll(Apply(db, x), records) == Apply(ApplyAll(db, records), x)
  {
    var left, right := ApplyAll(Apply(db, x), records), Apply(ApplyAll(db, records), x);
    forall id
      ensures Cell(left, id) == Cell(right, id)
    {
      ApplyAllCell(Apply(db, x), records, id);
      ApplyAllCell(db, records, id);
      if id == IdOf(x) {
        Untouched(Cell(db, id), records, id);
        Untouched(Some(Put(Cell(db, id), x)), records, id);
      }
    }
    SameCells(left, right);
  }

  lemma {:induction false} Untouched(cell: Option<Row>, records: seq<Record>, id: Identity)
    requires forall y :: y in records ==> IdOf(y) != id
    ensures CellAfter(cell, records, id) == cell
  {
    if records != [] {
      assert records[0] in records;
      Untouched(cell, records[1..], id);
    }
  }

  /** Which kinds overwrite: a second record of an execution, a wave or a group sets the progress columns, one of
      any other kind is ignored. */
  lemma SecondRecord(db: Database, a: Record, b: Record)
    requires IdOf(a) == IdOf(b) && IdOf(a) !in db
    ensures var id := (a.kind, a.key);
            Apply(Apply(db, a), b) ==
            db[id := if a.kind in {FlowExecution, ExecutionWave, ExecutionGroup} then Row(a.row.fixed, b.row.progress) else a.row]
  {
  }

  // ---- partial drains converge ----

  /** Whatever earlier attempts applied, in any order and any number of times, one complete drain
      ends in the database of a single complete drain. */
  lemma {:induction false} EarlierAttemptsLeaveNoTrace(db: Database, attempts: seq<Record>, journal: seq<Record>)
    requires Consistent(journal) && forall x :: x in attempts ==> x in journal
    ensures ApplyAll(ApplyAll(db, attempts), journal) == ApplyAll(db, journal)
    decreases attempts
  {
    if attempts != [] {
      EarlierAttemptsLeaveNoTrace(Apply(db, attempts[0]), attempts[1..], journal);
      Absorb(db, attempts[0], journal);
    }
  }

  /** The lines of the journal one partial drain managed to apply, in order. */
  function Selected(journal: seq<Record>, landed: seq<bool>): (r: seq<Record>)
    requires |landed| == |journal|
    ensures forall x :: x in r ==> x in journal
  {
    if journal == [] then []
    else (if landed[0] then [journal[0]] else []) + Selected(journal[1..], landed[1..])
  }

  function PartialDrains(db: Database, journal: seq<Record>, drains: seq<seq<bool>>): Database
    requires forall d :: d in drains ==> |d| == |journal|
  {
    if drains == [] then db
    else ApplyAll(PartialDrains(db, journal, drains[..|drains| - 1]), Selected(journal, drains[|drains| - 1]))
  }

  /** Any sequence of partial drains followed by a complete one equals a single complete drain. */
  lemma {:induction false} PartialDrainsConverge(db: Database, journal: seq<Record>, drains: seq<seq<bool>>)
    requires Consistent(journal) && forall d :: d in drains ==> |d| == |journal|
    ensures ApplyAll(PartialDrains(db, journal, drains), journal) == ApplyAll(db, journal)
  {
    if drains != [] {
      var n := |drains| - 1;
      PartialDrainsConverge(db, journal, drains[..n]);
      EarlierAttemptsLeaveNoTrace(PartialDrains(db, journal, drains[..n]), Selected(journal, drains[n]), journal);
    }
  }

  /** Early application of any journal record never changes what a complete drain leaves. */
  ghost predicate ReplayIsSafeToRepeat(journal: seq<Record>) {
    forall db: Database, x :: x in journal ==> ApplyAll(Apply(db, x), journal) == ApplyAll(db, journal)
  }

  lemma {:induction false} KeepsFixed(row: Row, records: seq<Record>, id: Identity)
    ensures var c := CellAfter(Some(row), records, id);
            c.Some? && c.value.fixed == row.fixed && (!Progresses(id.0) ==> c.value == row)
    decreases records
  {
    if records != [] {
      KeepsFixed(if IdOf(records[0]) == id then Put(Some(row), records[0]) else row, records[1..], id);
    }
  }

  lemma {:induction false} FirstWins(records: seq<Record>, x: Record) returns (first: Record)
    requires x in records
    ensures first in records && IdOf(first) == IdOf(x)
    ensures var c := CellAfter(None, records, IdOf(x));
            c.Some? && c.value.fixed == first.row.fixed && (!Progresses(x.kind) ==> c.value == first.row)
  {
    if IdOf(records[0]) == IdOf(x) {
      first := records[0];
      KeepsFixed(first.row, records[1..], IdOf(x));
    } else {
      first := FirstWins(records[1..], x);
    }
  }

  lemma EarlyOneMustAgree(journal: seq<Record>, x: Record, first: Record)
    requires ReplayIsSafeToRepeat(journal) && x in journal && IdOf(first) == IdOf(x)
    requires var c := CellAfter(None, journal, IdOf(x));
             c.Some? && c.value.fixed == first.row.fixed && (!Progresses(x.kind) ==> c.value == first.row)
    ensures Agree(x, first)
  {
    var db: Database := map[];
    assert ApplyAll(Apply(db, x), journal) == ApplyAll(db, journal);
    ApplyAllCell(Apply(db, x), journal, IdOf(x));
    ApplyAllCell(db, journal, IdOf(x));
    KeepsFixed(x.row, journal, IdOf(x));
  }

  /** Exactly when a journal is safe to replay repeatedly: records of one identity agree. */
  lemma ReplayIsSafeExactlyWhen(journal: seq<Record>)
    ensures ReplayIsSafeToRepeat(journal) <==> Consistent(journal)
  {
    if ReplayIsSafeToRepeat(journal) {
      forall a, b | a in journal && b in journal ensures Agree(a, b) {
        if IdOf(a) == IdOf(b) {
          var first := FirstWins(journal, a);
          EarlyOneMustAgree(journal, a, first);
          EarlyOneMustAgree(journal, b, first);
        }
      }
    } else if Consistent(journal) {
      forall db: Database, x | x in journal ensures ApplyAll(Apply(db, x), journal) == ApplyAll(db, journal) {
        Absorb(db, x, journal);
      }
      assert false;
    }
  }

  // ---- direct writes while versions wait in the journal ----

  /** The last record of an identity. */
  function LastOf(records: seq<Record>, id: Identity): (r: Option<Record>)
    ensures r.Some? ==> r.value in records && IdOf(r.value) == id
    ensures r.None? ==> forall x :: x in records ==> IdOf(x) != id
    decreases records
  {
    if records == [] then None
    else
      assert records == [records[0]] + records[1..];
      var later := LastOf(records[1..], id);
      if later.Some? then later else if IdOf(records[0]) == id then Some(records[0]) else None
  }

  /** The record may be written directly while `pending` waits: its kind ignores conflicts, no version of it
      waits, or the last one that waits says the same. */
  predicate Timely(pending: seq<Record>, r: Record) {
    || !Progresses(r.kind)
    || LastOf(pending, IdOf(r)).None?
    || LastOf(pending, IdOf(r)).value.row.progress == r.row.progress
  }

  lemma {:induction false} LastDecides(cell: Option<Row>, records: seq<Record>, id: Identity)
    requires Progresses(id.0)
    ensures var c, last := CellAfter(cell, records, id), LastOf(records, id);
            if last.None? then c == cell else c.Some? && c.value.progress == last.value.row.progress
    decreases records
  {
    if records != [] {
      LastDecides(if IdOf(records[0]) == id then Some(Put(cell, records[0])) else cell, records[1..], id);
    }
  }

  /** Replay has no time guard. A progress row written directly while the journal waits still reads as written
      after the drain if and only if the write was timely; otherwise it is set back to the last spooled version. */
  lemma ProgressSurvivesReplayExactlyWhen(db: Database, pending: seq<Record>, r: Record)
    requires Progresses(r.kind)
    ensures var c := Cell(ApplyAll(Apply(db, r), pending), IdOf(r));
            c.Some? && (c.value.progress == r.row.progress <==> Timely(pending, r))
    ensures !Timely(pending, r) ==>
              Cell(ApplyAll(Apply(db, r), pending), IdOf(r)).value.progress == LastOf(pending, IdOf(r)).value.row.progress
  {
    ApplyAllCell(Apply(db, r), pending, IdOf(r));
    LastDecides(Cell(Apply(db, r), IdOf(r)), pending, IdOf(r));
  }

  /** The cell of the written identity, whichever of the write and the replay comes first. */
  lemma EarlyWriteCell(cell: Option<Row>, pending: seq<Record>, r: Record)
    requires Consistent(pending + [r])
    ensures CellAfter(Some(Put(cell, r)), pending, IdOf(r)) == Some(Put(CellAfter(cell, pending, IdOf(r)), r)) <==> Timely(pending, r)
  {
    var id := IdOf(r);
    KeepsFixed(Put(cell, r), pending, id);
    if cell.Some? { KeepsFixed(cell.value, pending, id); }
    if LastOf(pending, id).Some? {
      var first := FirstWins(pending, LastOf(pending, id).value);
      assert first in pending + [r] && r in pending + [r];
      assert Agree(first, r);
    } else {
      Untouched(cell, pending, id);
      Untouched(Some(Put(cell, r)), pending, id);
    }
    if Progresses(r.kind) {
      LastDecides(Some(Put(cell, r)), pending, id);
      LastDecides(cell, pending, id);
    }
  }

  /** Exactly when writing directly ahead of the pending records equals writing after them. */
  lemma EarlyWriteCommutesExactlyWhen(db: Database, pending: seq<Record>, r: Record)
    requires Consistent(pending + [r])
    ensures ApplyAll(Apply(db, r), pending) == Apply(ApplyAll(db, pending), r) <==> Timely(pending, r)
  {
    var early, late := ApplyAll(Apply(db, r), pending), Apply(ApplyAll(db, pending), r);
    forall id ensures id != IdOf(r) ==> Cell(early, id) == Cell(late, id) {
      ApplyAllCell(Apply(db, r), pending, id);
      ApplyAllCell(db, pending, id);
    }
    ApplyAllCell(Apply(db, r), pending, IdOf(r));
    ApplyAllCell(db, pending, IdOf(r));
    EarlyWriteCell(Cell(db, IdOf(r)), pending, r);
    if Timely(pending, r) { SameCells(early, late); }
  }

  /** What is timely ahead of all pending records is timely ahead of the later ones. */
  lemma {:induction false} TimelyForRest(pending: seq<Record>, n: nat, r: Record)
    requires n <= |pending| && Timely(pending, r)
    ensures Timely(pending[n..], r)
    decreases n
  {
    if n > 0 {
      TimelyForRest(pending[1..], n - 1, r);
      assert pending[1..][n - 1..] == pending[n..];
    } else {
      assert pending[0..] == pending;
    }
  }
}
