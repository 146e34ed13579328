/** The two PostgreSQL tables of the investigation agent and the writer object in front of them.
    A table is the sequence of its rows in insertion order, so that "one row per key" is
    something to prove and not something the representation grants. */
module ReportStore {
  import opened Wrappers

  /** A decoded JSON object; a missing key, `null` and the empty text are all "blank". */
  type Event = map<string, string>

  datatype Report = Report(verdict: string, narrative: string)
  datatype Row = Row(id: nat, transactionId: string, event: Event, report: Report)

  datatype Role = User | Assistant
  datatype Turn = Turn(reportId: nat, turnIndex: nat, role: Role, content: string)

  /** What the database does with one write: it answers, or the driver raises before or after
      the transaction reached the server. */
  datatype DbOutcome = Answers | Raises(applied: bool)

  datatype WriteResult = Wrote(inserted: bool) | WriteRaised

  function Get(event: Event, key: string): string {
    if key in event then event[key] else ""
  }

  predicate HasReport(table: seq<Row>, txn: string) {
    exists i | 0 <= i < |table| :: table[i].transactionId == txn
  }

  /** INSERT ... ON CONFLICT ("transactionId") DO NOTHING. */
  function InsertReport(table: seq<Row>, event: Event, report: Report): seq<Row> {
    var txn := Get(event, "transaction_id");
    if HasReport(table, txn) then table else table + [Row(|table|, txn, event, report)]
  }

  function WriteReport(table: seq<Row>, event: Event, report: Report, db: DbOutcome): (seq<Row>, WriteResult) {
    match db
    case Answers => (InsertReport(table, event, report), Wrote(!HasReport(table, Get(event, "transaction_id"))))
    case Raises(applied) => (if applied then InsertReport(table, event, report) else table, WriteRaised)
  }

  /** The newest row of a transaction. */
  function Lookup(table: seq<Row>, txn: string): (row: Option<Row>)
    ensures row.Some? ==> row.value in table && row.value.transactionId == txn
    ensures row.Some? <==> HasReport(table, txn)
  {
    if table == [] then None
    else
      var last := |table| - 1;
      if table[last].transactionId == txn then Some(table[last])
      else
        assert forall i | 0 <= i < last :: table[..last][i] == table[i];
        Lookup(table[..last], txn)
  }

  ghost predicate OneRowPerTransaction(table: seq<Row>) {
    forall i, j | 0 <= i < j < |table| :: table[i].transactionId != table[j].transactionId
  }

  /** A write never touches a stored row, adds at most one, and keeps transaction ids unique. */
  lemma WriteOnlyAppends(table: seq<Row>, event: Event, report: Report, db: DbOutcome)
    requires OneRowPerTransaction(table)
    ensures var (after, result) := WriteReport(table, event, report, db);
            && table <= after && |after| <= |table| + 1
            && OneRowPerTransaction(after)
            && (result.Wrote? ==> HasReport(after, Get(event, "transaction_id")))
            && (result == Wrote(true) <==> db.Answers? && |after| == |table| + 1)
  {
    var after := WriteReport(table, event, report, db).0;
    if |after| > |table| {
      assert after[|table|].transactionId == Get(event, "transaction_id");
    }
  }

  /** What a write does, spelled out: the one row it may add holds the event as it came, under its
      transaction id, with its report; a transaction already stored or an insert that never reached
      the server adds nothing. */
  ghost predicate IsWritten(
      before: seq<Row>, event: Event, report: Report, db: DbOutcome, after: seq<Row>, result: WriteResult)
  {
    var txn := if "transaction_id" in event then event["transaction_id"] else "";
    var isNew := forall i | 0 <= i < |before| :: before[i].transactionId != txn;
    && before <= after
    && |after| == |before| + (if isNew && db != Raises(false) then 1 else 0)
    && (|after| > |before| ==>
          var row := after[|before|];
          && row.transactionId == txn && row.report == report && row.id == |before|
          && row.event.Keys == event.Keys && (forall k | k in event :: row.event[k] == event[k]))
    && result == if db.Raises? then WriteRaised else Wrote(isNew)
  }

  lemma WriteStoresTheEvent(table: seq<Row>, event: Event, report: Report, db: DbOutcome)
    ensures var (after, result) := WriteReport(table, event, report, db); IsWritten(table, event, report, db, after, result)
  {
    var txn := Get(event, "transaction_id");
    assert HasReport(table, txn) <==> exists i | 0 <= i < |table| :: table[i].transactionId == txn;
  }

  /** With unique transaction ids, looking a stored row up by its id finds exactly that row. */
  lemma LookupFindsTheRow(table: seq<Row>, k: nat)
    requires OneRowPerTransaction(table) && k < |table|
    ensures Lookup(table, table[k].transactionId) == Some(table[k])
  {
    var row := Lookup(table, table[k].transactionId).value;
    var i :| 0 <= i < |table| && table[i] == row;
    assert i < k || k < i || i == k;
  }

  // ── conversations ──────────────────────────────────────────────

  function MaxIndex(turns: seq<Turn>, report: nat): int {
    if turns == [] then -1
    else
      var rest := MaxIndex(turns[..|turns| - 1], report);
      var last := turns[|turns| - 1];
      if last.reportId == report && last.turnIndex > rest then last.turnIndex else rest
  }

  /** SELECT COALESCE(MAX("turnIndex"), -1) + 1. */
  function NextTurnIndex(turns: seq<Turn>, report: nat): nat
  {
    MaxIndexAtLeast(turns, report);
    MaxIndex(turns, report) + 1
  }

  lemma MaxIndexAtLeast(turns: seq<Turn>, report: nat)
    ensures MaxIndex(turns, report) >= -1
  {
  }

  predicate HasTurn(turns: seq<Turn>, report: nat, index: nat) {
    exists i | 0 <= i < |turns| :: turns[i].reportId == report && turns[i].turnIndex == index
  }

  /** INSERT ... ON CONFLICT ("reportId", "turnIndex") DO NOTHING. */
  function InsertTurn(turns: seq<Turn>, turn: Turn): seq<Turn> {
    if HasTurn(turns, turn.reportId, turn.turnIndex) then turns else turns + [turn]
  }

  class ReportWriter {
    var reports: seq<Row>
    var turns: seq<Turn>

    constructor ()
      ensures reports == [] && turns == []
    {
      reports, turns := [], [];
    }

    method Write(event: Event, report: Report, db: DbOutcome) returns (result: WriteResult)
      modifies this`reports
      ensures (reports, result) == WriteReport(old(reports), event, report, db)
      ensures IsWritten(old(reports), event, report, db, reports, result)
    {
      WriteStoresTheEvent(reports, event, report, db);
      var txn := Get(event, "transaction_id");
      var conflict := HasReport(reports, txn);
      if !conflict && db != Raises(false) {
        reports := reports + [Row(|reports|, txn, event, report)];
      }
      if db.Raises? {
        return WriteRaised;
      }
      if conflict {
        return Wrote(false);
      }
      return Wrote(true);
    }

    method AddTurn(turn: Turn) returns (inserted: bool)
      modifies this`turns
      ensures turns == InsertTurn(old(turns), turn)
      ensures inserted <==> turns != old(turns)
    {
      inserted := !HasTurn(turns, turn.reportId, turn.turnIndex);
      if inserted {
        turns := turns + [turn];
      }
    }
  }
}
