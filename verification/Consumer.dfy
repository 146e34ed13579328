/** The Kafka poll loop of one replica, and how it refines the delivery protocol. */
module Consumer {
  import opened ReportStore
  import opened Handler
  import opened Delivery

  /** One fetched record with what the world answers while it is handled and committed. */
  datatype Record = Record(part: nat, offset: nat, message: Message, env: Handler.Env, outcome: CommitOutcome)

  /** One poll: a list of records per partition, and whether a stop was requested meanwhile. */
  datatype Polled = Polled(batches: seq<seq<Record>>, stopping: bool)

  /** What the loop changes: the handler's state, the report table, the offsets committed. */
  datatype Progress = Progress(ledger: Ledger, reports: seq<Row>, committed: map<nat, nat>, running: bool)

  function HandleRecord(g: Progress, r: Record): Progress {
    var out := Handle(g.ledger, MAX_RETRIES, g.reports, r.message, r.env);
    var handled := g.(ledger := out.ledger, reports := out.table);
    if out.verdict != Returned(true) then handled
    else
      handled.(committed := if r.outcome in {Applied, Lost(true)} then g.committed[r.part := r.offset + 1] else g.committed,
               running := !r.outcome.Lost?)
  }

  function HandleAll(g: Progress, records: seq<Record>): Progress
    decreases |records|
  {
    if records == [] || !g.running then g else HandleAll(HandleRecord(g, records[0]), records[1..])
  }

  function Flatten(batches: seq<seq<Record>>): seq<Record> {
    if batches == [] then [] else batches[0] + Flatten(batches[1..])
  }

  /** The records handed to the handler before the loop stops. */
  function Fetched(polls: seq<Polled>): seq<Record> {
    if polls == [] then []
    else if polls[0].stopping then Flatten(polls[0].batches)
    else Flatten(polls[0].batches) + Fetched(polls[1..])
  }

  lemma {:induction false} HandleAllSplits(g: Progress, a: seq<Record>, b: seq<Record>)
    ensures HandleAll(g, a + b) == HandleAll(HandleAll(g, a), b)
    decreases |a|
  {
    if a == [] {
      assert a + b == b;
    } else if g.running {
      assert (a + b)[0] == a[0] && (a + b)[1..] == a[1..] + b;
      HandleAllSplits(HandleRecord(g, a[0]), a[1..], b);
    }
  }

  lemma OnePoll(g: Progress, polls: seq<Polled>, n: nat)
    requires n < |polls|
    ensures HandleAll(g, Fetched(polls[n..])) ==
            HandleAll(HandleAll(g, Flatten(polls[n].batches)), if polls[n].stopping then [] else Fetched(polls[n + 1..]))
  {
    var rest := if polls[n].stopping then [] else Fetched(polls[n + 1..]);
    assert polls[n..][0] == polls[n] && polls[n..][1..] == polls[n + 1..];
    assert Fetched(polls[n..]) == Flatten(polls[n].batches) + rest;
    HandleAllSplits(g, Flatten(polls[n].batches), rest);
  }

  // ── which records the loop hands over ──────────────────────────

  /** Records in the first n batches of a poll. */
  function Sizes(batches: seq<seq<Record>>, n: nat): nat
    requires n <= |batches|
  {
    if n == 0 then 0 else Sizes(batches, n - 1) + |batches[n - 1]|
  }

  /** Records in the first n polls. */
  function Total(polls: seq<Polled>, n: nat): nat
    requires n <= |polls|
  {
    if n == 0 then 0 else Total(polls, n - 1) + Sizes(polls[n - 1].batches, |polls[n - 1].batches|)
  }

  /** The loop gets to poll n: no earlier one saw a stop. */
  ghost predicate Reaches(polls: seq<Polled>, n: nat) {
    n < |polls| && forall i | 0 <= i < n :: !polls[i].stopping
  }

  lemma {:induction false} SizesFromSecond(batches: seq<seq<Record>>, n: nat)
    requires 0 < n <= |batches|
    ensures Sizes(batches, n) == |batches[0]| + Sizes(batches[1..], n - 1)
  {
    if n > 1 {
      SizesFromSecond(batches, n - 1);
    }
  }

  /** Record k of batch b stands behind the records of the batches before it, and nothing else is there. */
  lemma {:induction false} FlattenPlaces(batches: seq<seq<Record>>, b: nat, k: nat)
    ensures |Flatten(batches)| == Sizes(batches, |batches|)
    ensures b < |batches| && k < |batches[b]| ==>
              Sizes(batches, b) + k < |Flatten(batches)| && Flatten(batches)[Sizes(batches, b) + k] == batches[b][k]
  {
    if batches != [] {
      SizesFromSecond(batches, |batches|);
      FlattenPlaces(batches[1..], if b > 0 then b - 1 else 0, k);
      if 0 < b < |batches| {
        SizesFromSecond(batches, b);
      }
    }
  }

  lemma {:induction false} TotalFromSecond(polls: seq<Polled>, n: nat)
    requires 0 < n <= |polls|
    ensures Total(polls, n) == Sizes(polls[0].batches, |polls[0].batches|) + Total(polls[1..], n - 1)
  {
    if n > 1 {
      TotalFromSecond(polls, n - 1);
    }
  }

  /** The loop hands over every record of every poll it gets to, partition by partition, in order. */
  lemma {:induction false} FetchedPlaces(polls: seq<Polled>, n: nat, b: nat, k: nat)
    requires Reaches(polls, n) && b < |polls[n].batches| && k < |polls[n].batches[b]|
    ensures var place := Total(polls, n) + Sizes(polls[n].batches, b) + k;
            place < |Fetched(polls)| && Fetched(polls)[place] == polls[n].batches[b][k]
  {
    FlattenPlaces(polls[0].batches, b, k);
    if n > 0 {
      assert !polls[0].stopping;
      assert forall i | 0 <= i < n - 1 :: !polls[1..][i].stopping by {
        assert forall i | 0 <= i < n - 1 :: polls[1..][i] == polls[i + 1];
      }
      FetchedPlaces(polls[1..], n - 1, b, k);
      TotalFromSecond(polls, n);
    }
  }

  /** The loop ends after n polls: with the polls, or with the first one that saw a stop. */
  ghost predicate EndsAfter(polls: seq<Polled>, n: nat) {
    && n <= |polls| && (forall i | 0 <= i < n - 1 :: !polls[i].stopping)
    && (n < |polls| ==> n > 0 && polls[n - 1].stopping)
  }

  /** And nothing else: the number handed over is that of all records up to the last poll it gets to. */
  lemma {:induction false} FetchedLength(polls: seq<Polled>, n: nat)
    requires EndsAfter(polls, n)
    ensures |Fetched(polls)| == Total(polls, n)
  {
    if polls != [] {
      FlattenPlaces(polls[0].batches, 0, 0);
      TotalFromSecond(polls, n);
      if polls[0].stopping {
        assert n == 1;
      } else {
        EndsLater(polls, n);
        FetchedLength(polls[1..], n - 1);
      }
    }
  }

  lemma EndsLater(polls: seq<Polled>, n: nat)
    requires polls != [] && !polls[0].stopping && EndsAfter(polls, n)
    ensures n > 0 && EndsAfter(polls[1..], n - 1)
  {
    assert forall i | 0 <= i < |polls| - 1 :: polls[1..][i] == polls[i + 1];
  }

  lemma OneRecord(r: Record, stopping: bool, g: Progress)
    ensures Fetched([Polled([[r]], stopping)]) == [r]
    ensures g.running ==> HandleAll(g, [r]) == HandleRecord(g, r)
  {
    var polls := [Polled([[r]], stopping)];
    FetchedPlaces(polls, 0, 0, 0);
    FetchedLength(polls, 1);
    assert Sizes([[r]], 1) == Sizes([[r]], 0) + 1;
    assert [r][1..] == [];
  }

  class BlockedTransactionConsumer {
    const service: FIAService
    var connected: bool
    var stop: bool
    var committed: map<nat, nat>

    constructor (service: FIAService, connected: bool)
      ensures this.service == service && this.connected == connected && !stop && committed == map[]
    {
      this.service, this.connected, stop, committed := service, connected, false, map[];
    }

    function Current(running: bool): Progress
      reads this, service, service.writer
    {
      Progress(service.State(), service.writer.reports, committed, running)
    }

    /** Hands one record to the handler and commits only its own partition. Returns false when the
        commit raised anything but the error a rebalance provokes. */
    method Process(r: Record) returns (running: bool)
      requires service.maxRetries == MAX_RETRIES
      modifies this`committed, service, service.writer`reports
      ensures Current(running) == HandleRecord(old(Current(true)), r)
    {
      var verdict := service.HandleMessage(r.message, r.env);
      if verdict != Returned(true) {
        return true;
      }
      if r.outcome == Applied || r.outcome == Lost(true) {
        committed := committed[r.part := r.offset + 1];
      }
      return !r.outcome.Lost?;
    }

    /** One partition's share of a poll. */
    method ProcessAll(messages: seq<Record>) returns (running: bool)
      requires service.maxRetries == MAX_RETRIES
      modifies this`committed, service, service.writer`reports
      ensures Current(running) == HandleAll(old(Current(true)), messages)
    {
      running := true;
      var k := 0;
      while running && k < |messages|
        invariant 0 <= k <= |messages|
        invariant HandleAll(old(Current(true)), messages) == HandleAll(Current(running), messages[k..])
      {
        assert messages[k..][0] == messages[k] && messages[k..][1..] == messages[k + 1..];
        running := Process(messages[k]);
        k := k + 1;
      }
    }

    /** One poll. */
    method ProcessBatches(batches: seq<seq<Record>>) returns (running: bool)
      requires service.maxRetries == MAX_RETRIES
      modifies this`committed, service, service.writer`reports
      ensures Current(running) == HandleAll(old(Current(true)), Flatten(batches))
    {
      running := true;
      var b := 0;
      while running && b < |batches|
        invariant 0 <= b <= |batches|
        invariant HandleAll(old(Current(true)), Flatten(batches)) == HandleAll(Current(running), Flatten(batches[b..]))
      {
        HandleAllSplits(Current(true), batches[b], Flatten(batches[b + 1..]));
        running := ProcessAll(batches[b]);
        b := b + 1;
      }
    }

    /** The loop runs until a stop, a lost commit, or a poll that raises (the end of `polls`). */
    method Consume(polls: seq<Polled>)
      requires service.maxRetries == MAX_RETRIES
      modifies this, service, service.writer`reports
      ensures Current(true) == if !old(connected) || old(stop) then old(Current(true))
                               else HandleAll(old(Current(true)), Fetched(polls)).(running := true)
      ensures !connected
    {
      if !connected {
        return;
      }
      ghost var start, all := Current(true), if stop then [] else Fetched(polls);
      ghost var ahead := all;
      var running, n := true, 0;
      while running && !stop && n < |polls|
        invariant 0 <= n <= |polls| && ahead == if stop then [] else Fetched(polls[n..])
        invariant HandleAll(start, all) == HandleAll(Current(running), ahead)
        decreases |polls| - n
      {
        OnePoll(Current(true), polls, n);
        running := ProcessBatches(polls[n].batches);
        ahead := if polls[n].stopping then [] else Fetched(polls[n + 1..]);
        ghost var after := Current(running);
        if polls[n].stopping {
          stop := true;
        }
        assert Current(running) == after;
        n := n + 1;
      }
      connected := false;
    }

    /** A poll of one record, the usual one: it is handled and, after True, committed. */
    method ConsumeOne(r: Record, stopping: bool)
      requires service.maxRetries == MAX_RETRIES && connected && !stop
      modifies this, service, service.writer`reports
      ensures Current(true) == HandleRecord(old(Current(true)), r).(running := true)
      ensures !connected
    {
      OneRecord(r, stopping, Current(true));
      Consume([Polled([[r]], stopping)]);
    }
  }
}
