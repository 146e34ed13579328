/** What the retry counters say about every run of the handler. */
module RetryLedger {
  import opened ReportStore
  import opened Handler

  /** One handling; the report table it meets is arbitrary, since request threads and other
      replicas write to it in between. */
  datatype Handling = Handling(table: seq<Row>, message: Message, env: Env)

  function Play(run: seq<Handling>, maxRetries: nat): Ledger {
    if run == [] then FRESH
    else
      var last := run[|run| - 1];
      Handle(Play(run[..|run| - 1], maxRetries), maxRetries, last.table, last.message, last.env).ledger
  }

  /** What a handling after `run` does. */
  function Outcome(run: seq<Handling>, maxRetries: nat, h: Handling): Handled {
    Handle(Play(run, maxRetries), maxRetries, h.table, h.message, h.env)
  }

  predicate Fails(h: Handling, txn: string) {
    Owed(h.message) && Get(h.message.event, "transaction_id") == txn && (h.env.generated.None? || h.env.db.Raises?)
  }

  predicate Succeeds(h: Handling, txn: string) {
    Owed(h.message) && Get(h.message.event, "transaction_id") == txn && h.env.generated.Some? && h.env.db.Answers?
  }

  /** Failures of `txn` since its last success, read off the run alone. */
  function FailuresSinceSuccess(run: seq<Handling>, txn: string): nat {
    if run == [] then 0
    else
      var before, last := FailuresSinceSuccess(run[..|run| - 1], txn), run[|run| - 1];
      if Succeeds(last, txn) then 0 else if Fails(last, txn) then before + 1 else before
  }

  /** The live counter of a transaction is its failure streak modulo the retry bound, so the
      n-th failure since the last success is declared safe exactly when the bound divides n. */
  lemma {:induction false} RetriesCountTheStreak(run: seq<Handling>, maxRetries: nat, txn: string)
    requires maxRetries >= 1
    ensures Count(Play(run, maxRetries), txn) == FailuresSinceSuccess(run, txn) % maxRetries
    ensures Count(Play(run, maxRetries), txn) < maxRetries
    ensures txn in Play(run, maxRetries).retryCounts ==> Play(run, maxRetries).retryCounts[txn] >= 1
  {
    if run == [] {
      Small(0, maxRetries);
    } else {
      var prefix, last := run[..|run| - 1], run[|run| - 1];
      RetriesCountTheStreak(prefix, maxRetries, txn);
      CounterStep(Play(prefix, maxRetries), maxRetries, last, txn);
      StreakStep(FailuresSinceSuccess(prefix, txn), Count(Play(prefix, maxRetries), txn), maxRetries);
    }
  }

  /** The remainder of a streak, one failure on and after a success. */
  lemma StreakStep(n: nat, count: nat, k: nat)
    requires k >= 1 && count == n % k
    ensures (n + 1) % k == (if count + 1 == k then 0 else count + 1) && 0 % k == 0
  {
    SuccessorModulo(n, k);
    Small(0, k);
  }

  lemma Small(n: nat, k: nat)
    requires n < k
    ensures n % k == n
  {
  }

  lemma CounterStep(l: Ledger, maxRetries: nat, h: Handling, txn: string)
    requires maxRetries >= 1 && Count(l, txn) < maxRetries
    requires txn in l.retryCounts ==> l.retryCounts[txn] >= 1
    ensures var l' := Handle(l, maxRetries, h.table, h.message, h.env).ledger;
            && Count(l', txn) == (if Succeeds(h, txn) then 0
                                  else if !Fails(h, txn) then Count(l, txn)
                                  else if Count(l, txn) + 1 == maxRetries then 0 else Count(l, txn) + 1)
            && (txn in l'.retryCounts ==> l'.retryCounts[txn] >= 1)
  {
  }

  lemma SuccessorModulo(n: nat, k: nat)
    requires k >= 1
    ensures (n + 1) % k == if n % k + 1 == k then 0 else n % k + 1
  {
    var q, r, q', r' := n / k, n % k, (n + 1) / k, (n + 1) % k;
    assert q * k + r + 1 == q' * k + r';
    if r + 1 == k {
      QuotientIsUnique(q + 1, 0, q', r', k);
    } else {
      QuotientIsUnique(q, r + 1, q', r', k);
    }
  }

  lemma QuotientIsUnique(q: int, r: nat, q': int, r': nat, k: nat)
    requires r < k && r' < k && q * k + r == q' * k + r'
    ensures q == q' && r == r'
  {
    Gap(q, q', k);
    Gap(q', q, k);
  }

  lemma Gap(q: int, q': int, k: nat)
    ensures q > q' ==> q * k >= q' * k + k
  {
    if q > q' {
      var d := q - q' - 1;
      assert q * k == (q' + 1 + d) * k == q' * k + k + d * k;
    }
  }

  /** A failing handling is declared safe to commit exactly on every `maxRetries`-th failure
      since the transaction's last success; that is also the only time poison is counted. */
  lemma SafeExactlyOnTheLastRetry(run: seq<Handling>, maxRetries: nat, h: Handling, txn: string)
    requires maxRetries >= 1 && Fails(h, txn)
    ensures Outcome(run, maxRetries, h).verdict == Returned((FailuresSinceSuccess(run, txn) + 1) % maxRetries == 0)
    ensures Outcome(run, maxRetries, h).ledger.droppedPoison ==
            Play(run, maxRetries).droppedPoison + (if (FailuresSinceSuccess(run, txn) + 1) % maxRetries == 0 then 1 else 0)
  {
    RetriesCountTheStreak(run, maxRetries, txn);
    SuccessorModulo(FailuresSinceSuccess(run, txn), maxRetries);
  }

  // ── conservation of failures ───────────────────────────────────

  ghost function Sum(m: map<string, nat>): nat
    decreases |m|
  {
    if m == map[] then 0
    else
      var k :| k in m;
      m[k] + Sum(m - {k})
  }

  lemma {:induction false} SumWithout(m: map<string, nat>, k: string)
    requires k in m
    ensures Sum(m) == m[k] + Sum(m - {k})
    decreases |m|
  {
    var c :| c in m && Sum(m) == m[c] + Sum(m - {c});
    if c != k {
      SumWithout(m - {c}, k);
      SumWithout(m - {k}, c);
      assert m - {c} - {k} == m - {k} - {c};
    }
  }

  lemma SumAfterUpdate(m: map<string, nat>, k: string, v: nat)
    ensures Sum(m[k := v]) + (if k in m then m[k] else 0) == Sum(m) + v
    ensures Sum(m - {k}) + (if k in m then m[k] else 0) == Sum(m)
  {
    SumWithout(m[k := v], k);
    assert m[k := v] - {k} == m - {k};
    if k in m {
      SumWithout(m, k);
    } else {
      assert m - {k} == m;
    }
  }

  /** Retry counts that successes wiped out. */
  function Cleared(run: seq<Handling>, maxRetries: nat): nat {
    if run == [] then 0
    else
      var prefix, last := run[..|run| - 1], run[|run| - 1];
      Cleared(prefix, maxRetries) +
      if Owed(last.message) && Succeeds(last, Get(last.message.event, "transaction_id"))
      then Count(Play(prefix, maxRetries), Get(last.message.event, "transaction_id")) else 0
  }

  /** No failure is forgotten: each is in a dropped message, a live counter or a cleared one. */
  lemma {:induction false} FailuresAreConserved(run: seq<Handling>, maxRetries: nat)
    requires maxRetries >= 1
    ensures var l := Play(run, maxRetries);
            && l.failed == maxRetries * l.droppedPoison + Sum(l.retryCounts) + Cleared(run, maxRetries)
            && l.dlqPublished <= l.droppedPoison
            && forall t <- l.retryCounts :: 1 <= l.retryCounts[t] < maxRetries
  {
    if run != [] {
      var prefix, last := run[..|run| - 1], run[|run| - 1];
      FailuresAreConserved(prefix, maxRetries);
      ConservationStep(Play(prefix, maxRetries), maxRetries, last, Cleared(prefix, maxRetries));
    }
  }

  ghost predicate Balanced(l: Ledger, maxRetries: nat, cleared: nat) {
    && l.failed == maxRetries * l.droppedPoison + Sum(l.retryCounts) + cleared
    && l.dlqPublished <= l.droppedPoison
    && forall t <- l.retryCounts :: 1 <= l.retryCounts[t] < maxRetries
  }

  lemma ConservationStep(l: Ledger, maxRetries: nat, h: Handling, cleared: nat)
    requires maxRetries >= 1 && Balanced(l, maxRetries, cleared)
    ensures var l' := Handle(l, maxRetries, h.table, h.message, h.env).ledger;
            Balanced(l', maxRetries,
                     cleared + if Owed(h.message) && Succeeds(h, Get(h.message.event, "transaction_id"))
                               then Count(l, Get(h.message.event, "transaction_id")) else 0)
  {
    if Owed(h.message) {
      var txn := Get(h.message.event, "transaction_id");
      SumAfterUpdate(l.retryCounts, txn, Count(l, txn) + 1);
      if Fails(h, txn) {
        FailureStep(l, maxRetries, txn, h.env.published, cleared);
      }
    }
  }

  lemma FailureStep(l: Ledger, maxRetries: nat, txn: string, published: bool, cleared: nat)
    requires maxRetries >= 1 && Balanced(l, maxRetries, cleared)
    ensures Balanced(Failure(l, maxRetries, txn, published).0, maxRetries, cleared)
  {
    SumAfterUpdate(l.retryCounts, txn, Count(l, txn) + 1);
    assert maxRetries * (l.droppedPoison + 1) == maxRetries * l.droppedPoison + maxRetries;
  }

  // ── what each counter counts ───────────────────────────────────

  /** Whether the transaction of an event already has its row. */
  predicate Known(h: Handling) {
    h.message.Blocked? && exists i | 0 <= i < |h.table| :: h.table[i].transactionId == Get(h.message.event, "transaction_id")
  }

  predicate SucceedsAtAll(h: Handling) {
    Owed(h.message) && h.env.generated.Some? && h.env.db.Answers?
  }

  predicate FailsAtAll(h: Handling) {
    Owed(h.message) && (h.env.generated.None? || h.env.db.Raises?)
  }

  /** Successes whose transaction was new, or known already. */
  function Successes(run: seq<Handling>, known: bool): nat {
    if run == [] then 0
    else
      var last := run[|run| - 1];
      Successes(run[..|run| - 1], known) + if SucceedsAtAll(last) && Known(last) == known then 1 else 0
  }

  function Failures(run: seq<Handling>): nat {
    if run == [] then 0 else Failures(run[..|run| - 1]) + if FailsAtAll(run[|run| - 1]) then 1 else 0
  }

  /** The handling is a failure, and the bound divides the number of failures since the last success. */
  predicate Drops(before: seq<Handling>, h: Handling, maxRetries: nat)
    requires maxRetries >= 1
  {
    FailsAtAll(h) && (FailuresSinceSuccess(before, Get(h.message.event, "transaction_id")) + 1) % maxRetries == 0
  }

  /** Messages dropped as poison, all of them or those the dead-letter topic took. */
  function DropsIn(run: seq<Handling>, maxRetries: nat, publishedOnly: bool): nat
    requires maxRetries >= 1
  {
    if run == [] then 0
    else
      var before, last := run[..|run| - 1], run[|run| - 1];
      DropsIn(before, maxRetries, publishedOnly) +
      if Drops(before, last, maxRetries) && (publishedOnly ==> last.env.published) then 1 else 0
  }

  /** Each counter, read off the run alone. */
  lemma {:induction false} CountersCount(run: seq<Handling>, maxRetries: nat)
    requires maxRetries >= 1
    ensures var l := Play(run, maxRetries);
            && l.processed == Successes(run, false) && l.duplicates == Successes(run, true)
            && l.failed == Failures(run)
            && l.droppedPoison == DropsIn(run, maxRetries, false) && l.dlqPublished == DropsIn(run, maxRetries, true)
  {
    if run != [] {
      var before, last := run[..|run| - 1], run[|run| - 1];
      CountersCount(before, maxRetries);
      if FailsAtAll(last) {
        var txn := Get(last.message.event, "transaction_id");
        RetriesCountTheStreak(before, maxRetries, txn);
        SuccessorModulo(FailuresSinceSuccess(before, txn), maxRetries);
        FailureCounts(Play(before, maxRetries), maxRetries, last);
      } else {
        OtherCounts(Play(before, maxRetries), maxRetries, last);
      }
    }
  }

  lemma FailureCounts(l: Ledger, maxRetries: nat, h: Handling)
    requires FailsAtAll(h)
    ensures var l' := Handle(l, maxRetries, h.table, h.message, h.env).ledger;
            var drops := Count(l, Get(h.message.event, "transaction_id")) + 1 >= maxRetries;
            && l'.processed == l.processed && l'.duplicates == l.duplicates && l'.failed == l.failed + 1
            && l'.droppedPoison == l.droppedPoison + (if drops then 1 else 0)
            && l'.dlqPublished == l.dlqPublished + if drops && h.env.published then 1 else 0
  {
  }

  lemma OtherCounts(l: Ledger, maxRetries: nat, h: Handling)
    requires !FailsAtAll(h)
    ensures var l' := Handle(l, maxRetries, h.table, h.message, h.env).ledger;
            && l'.processed == l.processed + (if SucceedsAtAll(h) && !Known(h) then 1 else 0)
            && l'.duplicates == l.duplicates + (if SucceedsAtAll(h) && Known(h) then 1 else 0)
            && l'.failed == l.failed && l'.droppedPoison == l.droppedPoison && l'.dlqPublished == l.dlqPublished
  {
  }
}
