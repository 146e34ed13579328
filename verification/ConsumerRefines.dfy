/** The poll loop of one replica, alone or among others, is a run of the delivery protocol. */
module ConsumerRefines {
  import opened Wrappers
  import opened ReportStore
  import opened Handler
  import opened Delivery
  import opened DeliveryProofs
  import opened Consumer

  function Offsets(parts: seq<Part>): map<nat, nat> {
    map p: nat | 0 <= p < |parts| :: parts[p].committed
  }

  /** What replica `i` sees of the system. */
  function View(s: System, i: nat): Progress
    requires i in s.replicas
  {
    Progress(s.replicas[i].ledger, s.reports, Offsets(s.parts), true)
  }

  /** The record is the next one replica `i` can fetch. */
  predicate IsNext(s: System, i: nat, r: Record) {
    && i in s.replicas && s.replicas[i].flight.None?
    && r.part < |s.parts| && s.parts[r.part].owner == Some(i) && s.parts[r.part].position == r.offset
    && r.offset < |s.parts[r.part].log| && s.parts[r.part].log[r.offset] == r.message
  }

  function StepsOf(s: System, i: nat, r: Record): seq<Step>
    requires IsNext(s, i, r)
  {
    [Poll(i, r.part), HandleOne(i, r.env)] +
    if Handle(s.replicas[i].ledger, MAX_RETRIES, s.reports, r.message, r.env).verdict == Returned(true)
    then [Commit(i, r.outcome)] else []
  }

  /** Fetching and handling: everything but the commit. */
  lemma FetchAndHandle(s: System, i: nat, r: Record)
    requires IsNext(s, i, r)
    ensures var poll := Poll(i, r.part);
            var handle := HandleOne(i, r.env);
            && Enabled(s, poll) && Enabled(Apply(s, poll), handle)
            && var s' := Apply(Apply(s, poll), handle);
               var out := Handle(s.replicas[i].ledger, MAX_RETRIES, s.reports, r.message, r.env);
               && s'.reports == out.table
               && s'.parts == s.parts[r.part := s.parts[r.part].(position := r.offset + 1)]
               && i in s'.replicas && s'.replicas[i] == Replica(out.ledger,
                    if out.verdict == Returned(true) then Some(Flight(r.part, r.offset, true, true)) else None)
               && Offsets(s'.parts) == Offsets(s.parts)
  {
  }

  /** The commit that ends a successful handling. */
  lemma CommitRefines(s: System, i: nat, p: nat, offset: nat, outcome: CommitOutcome)
    requires i in s.replicas && p < |s.parts| && s.replicas[i].flight == Some(Flight(p, offset, true, true))
    ensures var commit := Commit(i, outcome);
            && Enabled(s, commit)
            && var s' := Apply(s, commit);
               && s'.reports == s.reports
               && Offsets(s'.parts) == (if outcome in {Applied, Lost(true)} then Offsets(s.parts)[p := offset + 1] else Offsets(s.parts))
               && (i in s'.replicas <==> !outcome.Lost?)
               && (i in s'.replicas ==> s'.replicas[i] == Replica(s.replicas[i].ledger, None))
  {
  }

  lemma RecordRefines(s: System, i: nat, r: Record)
    requires IsNext(s, i, r)
    ensures IsRun(s, StepsOf(s, i, r))
    ensures var s', g' := After(s, StepsOf(s, i, r)), HandleRecord(View(s, i), r);
            && s'.reports == g'.reports && Offsets(s'.parts) == g'.committed
            && (i in s'.replicas <==> g'.running)
            && (g'.running ==> View(s', i) == g' && s'.replicas[i].flight.None?)
  {
    FetchAndHandle(s, i, r);
    FetchIsARun(s, i, r);
    if Handle(s.replicas[i].ledger, MAX_RETRIES, s.reports, r.message, r.env).verdict == Returned(true) {
      SuccessRefines(s, i, r);
    } else {
      assert StepsOf(s, i, r) == [Poll(i, r.part), HandleOne(i, r.env)];
    }
  }

  lemma FetchIsARun(s: System, i: nat, r: Record)
    requires IsNext(s, i, r)
    ensures var s1 := Apply(s, Poll(i, r.part));
            var fetch := [Poll(i, r.part), HandleOne(i, r.env)];
            && Enabled(s1, HandleOne(i, r.env))
            && IsRun(s, fetch) && After(s, fetch) == Apply(s1, HandleOne(i, r.env))
  {
    FetchAndHandle(s, i, r);
    var s1 := Apply(s, Poll(i, r.part));
    Unroll(s, [Poll(i, r.part), HandleOne(i, r.env)], [s1, Apply(s1, HandleOne(i, r.env))]);
  }

  lemma SuccessRefines(s: System, i: nat, r: Record)
    requires IsNext(s, i, r)
    requires Handle(s.replicas[i].ledger, MAX_RETRIES, s.reports, r.message, r.env).verdict == Returned(true)
    ensures IsRun(s, StepsOf(s, i, r))
    ensures var s', g' := After(s, StepsOf(s, i, r)), HandleRecord(View(s, i), r);
            && s'.reports == g'.reports && Offsets(s'.parts) == g'.committed
            && (i in s'.replicas <==> g'.running)
            && (g'.running ==> View(s', i) == g' && s'.replicas[i].flight.None?)
  {
    FetchAndHandle(s, i, r);
    FetchIsARun(s, i, r);
    var fetch := [Poll(i, r.part), HandleOne(i, r.env)];
    var s2, commit := After(s, fetch), Commit(i, r.outcome);
    CommitRefines(s2, i, r.part, r.offset, r.outcome);
    OneStepRun(s2, commit);
    RunsConcatenate(s, fetch, [commit]);
  }

  lemma OneStepRun(s: System, step: Step)
    requires Enabled(s, step)
    ensures IsRun(s, [step]) && After(s, [step]) == Apply(s, step)
  {
    Unroll(s, [step], [Apply(s, step)]);
  }

  /** The records are what replica `i` fetches one after the other. */
  predicate AreNext(s: System, i: nat, records: seq<Record>)
    decreases |records|
  {
    records != [] ==>
      && IsNext(s, i, records[0]) && IsRun(s, StepsOf(s, i, records[0]))
      && var s' := After(s, StepsOf(s, i, records[0]));
         i in s'.replicas ==> AreNext(s', i, records[1..])
  }

  /** The loop's effect on the handler, the table and the committed offsets is that of a run. */
  lemma {:induction false} LoopRefinesProtocol(s: System, i: nat, records: seq<Record>) returns (run: seq<Step>)
    requires i in s.replicas && AreNext(s, i, records)
    ensures IsRun(s, run)
    ensures var s', g' := After(s, run), HandleAll(View(s, i), records);
            && s'.reports == g'.reports && Offsets(s'.parts) == g'.committed
            && (i in s'.replicas <==> g'.running) && (g'.running ==> View(s', i) == g')
    decreases |records|
  {
    if records == [] {
      return [];
    }
    var first := StepsOf(s, i, records[0]);
    RecordRefines(s, i, records[0]);
    var s' := After(s, first);
    if i in s'.replicas {
      var rest := LoopRefinesProtocol(s', i, records[1..]);
      RunsConcatenate(s, first, rest);
      return first + rest;
    }
    assert HandleAll(HandleRecord(View(s, i), records[0]), records[1..]) == HandleRecord(View(s, i), records[0]);
    return first;
  }

  // ── with steps of others in between ────────────────────────────

  /** A step that replica `i` does not take and that does not end it: any step of another replica, of a
      request thread or of a producer, and any rebalance. */
  predicate Elsewhere(step: Step, i: nat) {
    match step
    case Join(j) => j != i
    case Crash(j) => j != i
    case Poll(j, _) => j != i
    case HandleOne(j, _) => j != i
    case Commit(j, _) => j != i
    case _ => true
  }

  /** What happens elsewhere first, and the record replica `i` fetches then. */
  datatype Round = Round(others: seq<Step>, record: Record)

  predicate AreRounds(s: System, i: nat, rounds: seq<Round>)
    decreases |rounds|
  {
    rounds != [] ==>
      && (forall k | 0 <= k < |rounds[0].others| :: Elsewhere(rounds[0].others[k], i)) && IsRun(s, rounds[0].others)
      && var s1 := After(s, rounds[0].others);
         && IsNext(s1, i, rounds[0].record) && IsRun(s1, StepsOf(s1, i, rounds[0].record))
         && var s2 := After(s1, StepsOf(s1, i, rounds[0].record));
            i in s2.replicas ==> AreRounds(s2, i, rounds[1..])
  }

  /** The table and the offsets each record meets. */
  datatype Met = Met(reports: seq<Row>, committed: map<nat, nat>, record: Record)

  function MetBy(s: System, i: nat, rounds: seq<Round>): seq<Met>
    requires AreRounds(s, i, rounds)
    decreases |rounds|
  {
    if rounds == [] then []
    else
      var s1 := After(s, rounds[0].others);
      var s2 := After(s1, StepsOf(s1, i, rounds[0].record));
      [Met(s1.reports, Offsets(s1.parts), rounds[0].record)] + if i in s2.replicas then MetBy(s2, i, rounds[1..]) else []
  }

  /** The loop's effect when each record meets a table and offsets that others may have changed. */
  function HandleMet(g: Progress, met: seq<Met>): Progress
    decreases |met|
  {
    if met == [] || !g.running then g
    else HandleMet(HandleRecord(g.(reports := met[0].reports, committed := met[0].committed), met[0].record), met[1..])
  }

  /** Nothing elsewhere touches the replica's counters and retry map. */
  lemma {:induction false} OthersKeepTheLedger(s: System, others: seq<Step>, i: nat)
    requires i in s.replicas && IsRun(s, others) && forall k | 0 <= k < |others| :: Elsewhere(others[k], i)
    ensures i in After(s, others).replicas && After(s, others).replicas[i].ledger == s.replicas[i].ledger
    decreases |others|
  {
    if others != [] {
      assert Elsewhere(others[0], i);
      OneStepElsewhere(s, others[0], i);
      OthersKeepTheLedger(Apply(s, others[0]), others[1..], i);
    }
  }

  lemma OneStepElsewhere(s: System, step: Step, i: nat)
    requires i in s.replicas && Enabled(s, step) && Elsewhere(step, i)
    ensures i in Apply(s, step).replicas && Apply(s, step).replicas[i].ledger == s.replicas[i].ledger
  {
  }

  /** The loop of one replica among others: whatever happens elsewhere between its records, what it does
      to its counters and retry map, the table and the offsets is that of a run of the protocol. */
  lemma {:induction false} InterleavedLoopRefinesProtocol(s: System, i: nat, rounds: seq<Round>) returns (run: seq<Step>)
    requires i in s.replicas && AreRounds(s, i, rounds)
    ensures IsRun(s, run)
    ensures var s', g' := After(s, run), HandleMet(View(s, i), MetBy(s, i, rounds));
            && s'.reports == g'.reports && Offsets(s'.parts) == g'.committed
            && (i in s'.replicas <==> g'.running) && (g'.running ==> View(s', i) == g')
    decreases |rounds|
  {
    if rounds == [] {
      return [];
    }
    var others, record := rounds[0].others, rounds[0].record;
    OthersKeepTheLedger(s, others, i);
    var s1 := After(s, others);
    RecordRefines(s1, i, record);
    RunsConcatenate(s, others, StepsOf(s1, i, record));
    run := others + StepsOf(s1, i, record);
    var s2 := After(s, run);
    if i in s2.replicas {
      var rest := InterleavedLoopRefinesProtocol(s2, i, rounds[1..]);
      RunsConcatenate(s, run, rest);
      run := run + rest;
    }
  }

  /** The poll loop started on what a replica sees of the system: it ends where a run of the protocol does. */
  method RunConsumer(consumer: BlockedTransactionConsumer, polls: seq<Polled>, ghost s: System, ghost i: nat)
    returns (ghost run: seq<Step>)
    requires consumer.connected && !consumer.stop && consumer.service.maxRetries == MAX_RETRIES
    requires i in s.replicas && consumer.Current(true) == View(s, i) && AreNext(s, i, Fetched(polls))
    modifies consumer, consumer.service, consumer.service.writer`reports
    ensures IsRun(s, run)
    ensures var s' := After(s, run);
            && s'.reports == consumer.service.writer.reports && Offsets(s'.parts) == consumer.committed
            && (i in s'.replicas ==> s'.replicas[i].ledger == consumer.service.State())
  {
    run := LoopRefinesProtocol(s, i, Fetched(polls));
    consumer.Consume(polls);
  }
}
