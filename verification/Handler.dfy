/** The Kafka message handler of the investigation agent: bounded in-memory retries, the
    dead-letter exit and the operating counters. */
module Handler {
  import opened Wrappers
  import opened ReportStore
  import opened PythonText

  /** One message value. `Malformed` stands for every value the handler raises on before it
      touches anything: not a JSON object, or an object whose decision is not text. */
  datatype Message = Malformed | Blocked(event: Event)

  /** What the world answers while one message is handled. */
  datatype Env = Env(generated: Option<Report>, db: DbOutcome, published: bool)

  datatype Verdict = Returned(safe: bool) | Raised

  /** The handler's own state, as a value. */
  datatype Ledger = Ledger(
    retryCounts: map<string, nat>,
    processed: nat, duplicates: nat, failed: nat, droppedPoison: nat, dlqPublished: nat)

  const FRESH := Ledger(map[], 0, 0, 0, 0, 0)

  /** The messages that owe a report. */
  predicate Owed(m: Message) {
    m.Blocked? && Get(m.event, "transaction_id") != "" && Upper(Get(m.event, "decision")) == "DECLINE"
  }

  function Count(l: Ledger, txn: string): nat {
    if txn in l.retryCounts then l.retryCounts[txn] else 0
  }

  function Failure(l: Ledger, maxRetries: nat, txn: string, published: bool): (Ledger, bool) {
    var attempts := Count(l, txn) + 1;
    if attempts >= maxRetries then
      (l.(retryCounts := l.retryCounts - {txn}, failed := l.failed + 1, droppedPoison := l.droppedPoison + 1,
          dlqPublished := l.dlqPublished + (if published then 1 else 0)),
       true)
    else
      (l.(retryCounts := l.retryCounts[txn := attempts], failed := l.failed + 1), false)
  }

  datatype Handled = Handled(ledger: Ledger, table: seq<Row>, verdict: Verdict)

  /** The effect of handling one message. */
  function Handle(l: Ledger, maxRetries: nat, table: seq<Row>, m: Message, env: Env): Handled {
    if m.Malformed? then Handled(l, table, Raised)
    else if !Owed(m) then Handled(l, table, Returned(true))
    else
      var txn := Get(m.event, "transaction_id");
      match env.generated
      case None =>
        var (l', safe) := Failure(l, maxRetries, txn, env.published);
        Handled(l', table, Returned(safe))
      case Some(report) =>
        match WriteReport(table, m.event, report, env.db)
        case (table', WriteRaised) =>
          var (l', safe) := Failure(l, maxRetries, txn, env.published);
          Handled(l', table', Returned(safe))
        case (table', Wrote(inserted)) =>
          var l' := l.(retryCounts := l.retryCounts - {txn});
          Handled(if inserted then l'.(processed := l.processed + 1) else l'.(duplicates := l.duplicates + 1),
                  table', Returned(true))
  }

  class FIAService {
    const writer: ReportWriter
    const maxRetries: nat
    var retryCounts: map<string, nat>
    var processed: nat
    var duplicates: nat
    var failed: nat
    var droppedPoison: nat
    var dlqPublished: nat

    function State(): Ledger
      reads this
    {
      Ledger(retryCounts, processed, duplicates, failed, droppedPoison, dlqPublished)
    }

    constructor (writer: ReportWriter)
      ensures State() == FRESH && maxRetries == 3 && this.writer == writer
    {
      this.writer, maxRetries := writer, 3;
      retryCounts, processed, duplicates, failed, droppedPoison, dlqPublished := map[], 0, 0, 0, 0, 0;
    }

    method RecordFailure(txn: string, published: bool) returns (safe: bool)
      modifies this
      ensures (State(), safe) == Failure(old(State()), maxRetries, txn, published)
    {
      var attempts := (if txn in retryCounts then retryCounts[txn] else 0) + 1;
      retryCounts := retryCounts[txn := attempts];
      failed := failed + 1;
      if attempts >= maxRetries {
        droppedPoison := droppedPoison + 1;
        retryCounts := retryCounts - {txn};
        assert retryCounts == old(retryCounts) - {txn};
        if published {
          dlqPublished := dlqPublished + 1;
        }
        return true;
      }
      return false;
    }

    method HandleMessage(m: Message, env: Env) returns (verdict: Verdict)
      modifies this, writer`reports
      ensures Handled(State(), writer.reports, verdict) ==
              Handle(old(State()), maxRetries, old(writer.reports), m, env)
    {
      if m.Malformed? {
        return Raised;
      }
      var txn := Get(m.event, "transaction_id");
      if txn == "" {
        return Returned(true);
      }
      if Upper(Get(m.event, "decision")) != "DECLINE" {
        return Returned(true);
      }
      if env.generated.None? {
        var safe := RecordFailure(txn, env.published);
        return Returned(safe);
      }
      var written := writer.Write(m.event, env.generated.value, env.db);
      if written.WriteRaised? {
        var safe := RecordFailure(txn, env.published);
        return Returned(safe);
      }
      retryCounts := retryCounts - {txn};
      if written.inserted {
        processed := processed + 1;
      } else {
        duplicates := duplicates + 1;
      }
      return Returned(true);
    }
  }

  /** The promise behind every `True`: a handled message that owes a report either has its row
      or has just been counted as dropped poison. */
  lemma SafeMeansStoredOrPoison(l: Ledger, maxRetries: nat, table: seq<Row>, m: Message, env: Env)
    requires OneRowPerTransaction(table)
    ensures var r := Handle(l, maxRetries, table, m, env);
            && table <= r.table && OneRowPerTransaction(r.table)
            && l.droppedPoison <= r.ledger.droppedPoison <= l.droppedPoison + 1
            && (Owed(m) && r.verdict == Returned(true) ==>
                  HasReport(r.table, Get(m.event, "transaction_id")) || r.ledger.droppedPoison == l.droppedPoison + 1)
            && (!Owed(m) ==> r.table == table && r.ledger == l)
  {
    if Owed(m) && env.generated.Some? {
      WriteOnlyAppends(table, m.event, env.generated.value, env.db);
    }
  }

  /** The messages that owe a report are those of a named transaction whose decision spells DECLINE. */
  lemma OwedIff(m: Message)
    ensures Owed(m) <==>
            && m.Blocked? && "transaction_id" in m.event && m.event["transaction_id"] != ""
            && "decision" in m.event && SpellsDecline(m.event["decision"])
  {
    if m.Blocked? {
      UpperIsDeclineIff(Get(m.event, "decision"));
    }
  }

  /** What handling an owed message with a generated report and an answering database does: the event
      and the report are stored and counted as processed, or, when the transaction has its row, nothing
      is stored and a duplicate is counted. */
  lemma SuccessIsStoredAndCounted(l: Ledger, maxRetries: nat, table: seq<Row>, event: Event, report: Report, published: bool)
    requires Owed(Blocked(event))
    ensures var r := Handle(l, maxRetries, table, Blocked(event), Env(Some(report), Answers, published));
            var isNew := forall i | 0 <= i < |table| :: table[i].transactionId != event["transaction_id"];
            && r.verdict == Returned(true)
            && r.table == (if isNew then table + [Row(|table|, event["transaction_id"], event, report)] else table)
            && r.ledger.processed == l.processed + (if isNew then 1 else 0)
            && r.ledger.duplicates == l.duplicates + (if isNew then 0 else 1)
            && r.ledger.failed == l.failed && r.ledger.droppedPoison == l.droppedPoison
            && r.ledger.dlqPublished == l.dlqPublished
            && event["transaction_id"] !in r.ledger.retryCounts
            && (forall t | t != event["transaction_id"] :: Count(r.ledger, t) == Count(l, t))
  {
    WriteStoresTheEvent(table, event, report, Answers);
    assert HasReport(table, event["transaction_id"]) <==>
           exists i | 0 <= i < |table| :: table[i].transactionId == event["transaction_id"];
  }
}
