/** On-demand report generation: `POST /v1/reports` as a thread that other threads, other
    replicas and the Kafka consumer may interleave with at every database access. */
module OnDemand {
  import opened Wrappers
  import opened ReportStore

  /** Where a request thread stands. `Dead` is a thread lost to a database error or a crash. */
  datatype Phase =
    | Selecting
    | Hydrating
    | Generating
    | Writing(report: Report)
    | ReadingBack
    | Replied(code: nat, body: Option<Row>)
    | Dead

  datatype Request = Request(txn: string, event: Event, phase: Phase)

  /** What the world answers to one request: the audit row, the model, the write. */
  datatype Env = Env(audit: Option<Event>, generated: Option<Report>, db: DbOutcome)

  predicate Blank(event: Event, key: string) {
    Get(event, key) == ""
  }

  predicate NeedsAudit(event: Event) {
    Blank(event, "sender_id") || Blank(event, "amount") || Blank(event, "transaction_type")
  }

  /** Values the caller supplied win over those of the audit row. */
  function Hydrate(event: Event, audit: Event): Event {
    event + map k | k in audit && Blank(event, k) :: audit[k]
  }

  predicate Running(r: Request) {
    !r.phase.Replied? && !r.phase.Dead?
  }

  /** One atomic step of a request against the report table. */
  function Advance(table: seq<Row>, r: Request, env: Env): (seq<Row>, Request)
    requires Running(r)
  {
    match r.phase
    case Selecting =>
      var existing := Lookup(table, r.txn);
      (table, r.(phase := if existing.Some? then Replied(200, existing) else Hydrating))
    case Hydrating =>
      if !NeedsAudit(r.event) then (table, r.(phase := Generating))
      else if env.audit.None? then (table, r.(phase := Replied(404, None)))
      else (table, r.(event := Hydrate(r.event, env.audit.value), phase := Generating))
    case Generating =>
      (table, r.(phase := if env.generated.Some? then Writing(env.generated.value) else Replied(500, None)))
    case Writing(report) =>
      var (after, result) := WriteReport(table, r.event, report, env.db);
      (after, r.(phase := if result.WriteRaised? then Replied(500, None) else ReadingBack))
    case ReadingBack =>
      (table, r.(phase := Replied(201, Lookup(table, Get(r.event, "transaction_id")))))
  }

  /** The event keeps naming the requested transaction; a thread past its write has a row to
      read; a reply of success carries a stored row of the transaction. */
  ghost predicate RequestOk(table: seq<Row>, r: Request) {
    && r.txn != "" && Get(r.event, "transaction_id") == r.txn
    && (r.phase.ReadingBack? ==> HasReport(table, r.txn))
    && (r.phase.Replied? && r.phase.code in {200, 201} ==>
          && r.phase.body.Some?
          && r.phase.body.value in table
          && r.phase.body.value.transactionId == r.txn)
    && (r.phase.Replied? && r.phase.code !in {200, 201} ==> r.phase.body == None)
  }

  lemma AdvanceKeeps(table: seq<Row>, r: Request, env: Env)
    requires OneRowPerTransaction(table) && RequestOk(table, r) && Running(r)
    ensures var (table', r') := Advance(table, r, env);
            table <= table' && OneRowPerTransaction(table') && RequestOk(table', r') && r'.txn == r.txn
  {
    if r.phase.Writing? {
      WriteOnlyAppends(table, r.event, r.phase.report, env.db);
    }
  }

  lemma GrowthKeeps(table: seq<Row>, table': seq<Row>, r: Request)
    requires RequestOk(table, r) && table <= table'
    ensures RequestOk(table', r)
  {
    if r.phase.ReadingBack? {
      var i :| 0 <= i < |table| && table[i].transactionId == r.txn;
      assert table'[i].transactionId == r.txn;
    }
  }

  /** A request served with nothing else running. */
  function Serve(table: seq<Row>, r: Request, env: Env): (seq<Row>, Request)
    decreases match r.phase
              case Selecting => 5
              case Hydrating => 4
              case Generating => 3
              case Writing(_) => 2
              case ReadingBack => 1
              case _ => 0
  {
    if !Running(r) then (table, r)
    else
      var (table', r') := Advance(table, r, env);
      Serve(table', r', env)
  }

  method CreateReport(writer: ReportWriter, event: Event, env: Env) returns (code: nat, body: Option<Row>)
    requires Get(event, "transaction_id") != ""
    modifies writer`reports
    ensures var (table, r) := Serve(old(writer.reports), Request(Get(event, "transaction_id"), event, Selecting), env);
            writer.reports == table && r.phase == Replied(code, body)
  {
    var txn := Get(event, "transaction_id");
    ghost var asked := Request(txn, event, Selecting);
    var existing := Lookup(writer.reports, txn);
    ServeOn(writer.reports, asked, env);
    if existing.Some? {
      Served(writer.reports, asked.(phase := Replied(200, existing)), env);
      return 200, existing;
    }
    ServeOn(writer.reports, asked.(phase := Hydrating), env);
    var full := event;
    if NeedsAudit(event) {
      if env.audit.None? {
        Served(writer.reports, asked.(phase := Replied(404, None)), env);
        return 404, None;
      }
      full := Hydrate(event, env.audit.value);
    }
    ServeOn(writer.reports, Request(txn, full, Generating), env);
    if env.generated.None? {
      Served(writer.reports, Request(txn, full, Replied(500, None)), env);
      return 500, None;
    }
    ServeOn(writer.reports, Request(txn, full, Writing(env.generated.value)), env);
    var written := writer.Write(full, env.generated.value, env.db);
    if written.WriteRaised? {
      Served(writer.reports, Request(txn, full, Replied(500, None)), env);
      return 500, None;
    }
    ServeOn(writer.reports, Request(txn, full, ReadingBack), env);
    var row := Lookup(writer.reports, Get(full, "transaction_id"));
    Served(writer.reports, Request(txn, full, Replied(201, row)), env);
    return 201, row;
  }

  /** A request still running takes its next step first. */
  lemma ServeOn(table: seq<Row>, r: Request, env: Env)
    requires Running(r)
    ensures var (table', r') := Advance(table, r, env); Serve(table, r, env) == Serve(table', r', env)
  {
  }

  lemma Served(table: seq<Row>, r: Request, env: Env)
    requires !Running(r)
    ensures Serve(table, r, env) == (table, r)
  {
  }

  /** What the caller supplied wins, key by key; the audit row fills only the blanks. */
  lemma CallerWins(event: Event, audit: Event, key: string)
    ensures Get(Hydrate(event, audit), key) == if Get(event, key) != "" then Get(event, key) else Get(audit, key)
  {
    var full := Hydrate(event, audit);
    if key in audit && Blank(event, key) {
      assert full[key] == audit[key];
    } else {
      assert key in full <==> key in event;
      assert key in event ==> full[key] == event[key];
    }
  }

  /** The event a request generates from and stores: the caller's, hydrated when one of the three
      required fields is blank and the audit log knows the transaction. */
  ghost predicate IsFullEvent(full: Event, event: Event, audit: Option<Event>) {
    if event.Keys >= {"sender_id", "amount", "transaction_type"} &&
       event["sender_id"] != "" && event["amount"] != "" && event["transaction_type"] != ""
    then full == event
    else audit.Some? && forall k :: Get(full, k) == if Get(event, k) != "" then Get(event, k) else Get(audit.value, k)
  }

  /** The reply of a request served alone, case by case, and what it leaves in the table. */
  lemma ServedRequest(table: seq<Row>, event: Event, env: Env)
    requires Get(event, "transaction_id") != ""
    ensures var txn := event["transaction_id"];
            var (after, r) := Serve(table, Request(txn, event, Selecting), env);
            var known := exists i | 0 <= i < |table| :: table[i].transactionId == txn;
            var lacking := exists k <- {"sender_id", "amount", "transaction_type"} :: Get(event, k) == "";
            && r.phase.Replied?
            && (known ==> after == table && r.phase.code == 200 && r.phase.body.Some? && r.phase.body.value in table
                          && r.phase.body.value.transactionId == txn)
            && (!known && lacking && env.audit.None? ==> after == table && r.phase == Replied(404, None))
            && (!known && !(lacking && env.audit.None?) ==>
                  IsFullEvent(r.event, event, env.audit) && IsGenerated(table, txn, r.event, env, after, r.phase))
  {
    var txn := event["transaction_id"];
    var r0 := Request(txn, event, Selecting);
    assert HasReport(table, txn) <==> exists i | 0 <= i < |table| :: table[i].transactionId == txn;
    LackingIff(event);
    var (_, r1) := Advance(table, r0, env);
    assert Serve(table, r0, env) == Serve(table, r1, env);
    if !HasReport(table, txn) {
      ServedNew(table, r1, env);
    }
  }

  lemma ServedNew(table: seq<Row>, r: Request, env: Env)
    requires r.phase == Hydrating && r.txn != "" && Get(r.event, "transaction_id") == r.txn && !HasReport(table, r.txn)
    ensures var (after, r') := Serve(table, r, env);
            if NeedsAudit(r.event) && env.audit.None? then after == table && r'.phase == Replied(404, None)
            else IsFullEvent(r'.event, r.event, env.audit) && IsGenerated(table, r.txn, r'.event, env, after, r'.phase)
  {
    LackingIff(r.event);
    var (_, next) := Advance(table, r, env);
    assert Serve(table, r, env) == Serve(table, next, env);
    if !NeedsAudit(r.event) {
      GeneratesAndWrites(table, next, env);
    } else if env.audit.Some? {
      FullIfHydrated(r.event, env.audit.value);
      GeneratesAndWrites(table, next, env);
    }
  }

  lemma FullIfHydrated(event: Event, audit: Event)
    requires NeedsAudit(event) && Get(event, "transaction_id") != ""
    ensures IsFullEvent(Hydrate(event, audit), event, Some(audit))
    ensures Get(Hydrate(event, audit), "transaction_id") == Get(event, "transaction_id")
  {
    LackingIff(event);
    forall k ensures Get(Hydrate(event, audit), k) == if Get(event, k) != "" then Get(event, k) else Get(audit, k) {
      CallerWins(event, audit, k);
    }
  }

  lemma LackingIff(event: Event)
    ensures NeedsAudit(event) <==> exists k <- {"sender_id", "amount", "transaction_type"} :: Get(event, k) == ""
    ensures !NeedsAudit(event) <==>
            event.Keys >= {"sender_id", "amount", "transaction_type"} &&
            event["sender_id"] != "" && event["amount"] != "" && event["transaction_type"] != ""
  {
  }

  /** A new report is generated and written: a failed generation stores nothing, a write that raises
      after it reached the server has stored the row all the same, and 201 carries the new row. */
  ghost predicate IsGenerated(table: seq<Row>, txn: string, event: Event, env: Env, after: seq<Row>, phase: Phase) {
    if env.generated.None? then after == table && phase == Replied(500, None)
    else
      var row := Row(|table|, txn, event, env.generated.value);
      if env.db.Raises? then after == (if env.db.applied then table + [row] else table) && phase == Replied(500, None)
      else after == table + [row] && phase == Replied(201, Some(row))
  }

  lemma GeneratesAndWrites(table: seq<Row>, r: Request, env: Env)
    requires r.phase == Generating && Get(r.event, "transaction_id") == r.txn && !HasReport(table, r.txn)
    ensures var (after, r') := Serve(table, r, env);
            r'.event == r.event && IsGenerated(table, r.txn, r.event, env, after, r'.phase)
  {
    var (_, next) := Advance(table, r, env);
    assert Serve(table, r, env) == Serve(table, next, env);
    if env.generated.Some? {
      Writes(table, next, env);
    }
  }

  lemma Writes(table: seq<Row>, r: Request, env: Env)
    requires r.phase.Writing? && Get(r.event, "transaction_id") == r.txn && !HasReport(table, r.txn)
    ensures var (after, r') := Serve(table, r, env);
            var row := Row(|table|, r.txn, r.event, r.phase.report);
            && r'.event == r.event
            && if env.db.Raises? then after == (if env.db.applied then table + [row] else table) && r'.phase == Replied(500, None)
               else after == table + [row] && r'.phase == Replied(201, Some(row))
  {
    var (after, next) := Advance(table, r, env);
    assert Serve(table, r, env) == Serve(after, next, env);
    if env.db.Answers? {
      ReadsBack(table, Row(|table|, r.txn, r.event, r.phase.report), next, env);
    }
  }

  lemma ReadsBack(table: seq<Row>, row: Row, r: Request, env: Env)
    requires r.phase == ReadingBack && Get(r.event, "transaction_id") == row.transactionId
    ensures Serve(table + [row], r, env) == (table + [row], r.(phase := Replied(201, Some(row))))
  {
    assert Lookup(table + [row], row.transactionId) == Some(row);
    var next := r.(phase := Replied(201, Some(row)));
    assert Serve(table + [row], r, env) == Serve(table + [row], next, env);
  }
}
