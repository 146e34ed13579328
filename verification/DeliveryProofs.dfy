/** The delivery ledger: what holds in every state of every run of the delivery protocol. */
module DeliveryProofs {
  import opened Wrappers
  import opened ReportStore
  import opened Handler
  import OnDemand
  import opened Delivery

  lemma PartsKept(s: System, step: Step)
    requires Inv(s) && Enabled(s, step)
    ensures PartsOk(Apply(s, step))
  {
    match step
    case Rebalance(owners) => PartsAfterRebalance(s, owners);
    case Crash(i) => PartsAfterCrash(s, i);
    case Commit(i, outcome) => PartsAfterCommit(s, i, outcome);
    case Poll(i, p) => PartsAfterPoll(s, i, p);
    case _ => PartsElsewhere(s, step);
  }

  lemma PartsAfterRebalance(s: System, owners: seq<Option<nat>>)
    requires Inv(s) && Enabled(s, Rebalance(owners))
    ensures PartsOk(Apply(s, Rebalance(owners)))
  {
  }

  lemma PartsAfterCrash(s: System, i: nat)
    requires Inv(s) && Enabled(s, Crash(i))
    ensures PartsOk(Apply(s, Crash(i)))
  {
  }

  lemma PartsAfterCommit(s: System, i: nat, outcome: CommitOutcome)
    requires Inv(s) && Enabled(s, Commit(i, outcome))
    ensures PartsOk(Apply(s, Commit(i, outcome)))
  {
    assert FlightOk(s, i, s.replicas[i].flight.value);
  }

  lemma PartsAfterPoll(s: System, i: nat, p: nat)
    requires Inv(s) && Enabled(s, Poll(i, p))
    ensures PartsOk(Apply(s, Poll(i, p)))
  {
  }

  lemma PartsElsewhere(s: System, step: Step)
    requires Inv(s) && Enabled(s, step) && !step.Rebalance? && !step.Crash? && !step.Commit? && !step.Poll?
    ensures PartsOk(Apply(s, step))
  {
  }

  lemma FlightsKept(s: System, step: Step)
    requires Inv(s) && Enabled(s, step)
    ensures FlightsOk(Apply(s, step))
  {
    match step
    case Poll(i, p) => FlightsAfterPoll(s, i, p);
    case HandleOne(i, env) => FlightsAfterHandling(s, i, env);
    case Commit(i, outcome) => FlightsAfterCommit(s, i, outcome);
    case Rebalance(owners) => FlightsAfterRebalance(s, owners);
    case _ => FlightsElsewhere(s, step);
  }

  lemma FlightsAfterPoll(s: System, i: nat, p: nat)
    requires Inv(s) && Enabled(s, Poll(i, p))
    ensures FlightsOk(Apply(s, Poll(i, p)))
  {
    var s' := Apply(s, Poll(i, p));
    forall j | InFlight(s', j) ensures FlightOk(s', j, s'.replicas[j].flight.value) {
      if j != i { assert InFlight(s, j); }
    }
  }

  lemma FlightsAfterHandling(s: System, i: nat, env: Handler.Env)
    requires Inv(s) && Enabled(s, HandleOne(i, env))
    ensures FlightsOk(Apply(s, HandleOne(i, env)))
  {
    var s' := Apply(s, HandleOne(i, env));
    forall j | InFlight(s', j) ensures FlightOk(s', j, s'.replicas[j].flight.value) {
      assert InFlight(s, j) && InFlight(s, i);
      HandledFlight(s, i, env, j);
    }
  }

  lemma FlightsAfterCommit(s: System, i: nat, outcome: CommitOutcome)
    requires Inv(s) && Enabled(s, Commit(i, outcome))
    ensures FlightsOk(Apply(s, Commit(i, outcome)))
  {
    var s' := Apply(s, Commit(i, outcome));
    forall j | InFlight(s', j) ensures FlightOk(s', j, s'.replicas[j].flight.value) {
      assert InFlight(s, j) && InFlight(s, i);
    }
  }

  lemma FlightsAfterRebalance(s: System, owners: seq<Option<nat>>)
    requires Inv(s) && Enabled(s, Rebalance(owners))
    ensures FlightsOk(Apply(s, Rebalance(owners)))
  {
    var s' := Apply(s, Rebalance(owners));
    forall j | InFlight(s', j) ensures FlightOk(s', j, s'.replicas[j].flight.value) {
      assert InFlight(s, j);
    }
  }

  lemma FlightsElsewhere(s: System, step: Step)
    requires Inv(s) && Enabled(s, step) && !step.Poll? && !step.HandleOne? && !step.Commit? && !step.Rebalance?
    ensures FlightsOk(Apply(s, step))
  {
    var s' := Apply(s, step);
    forall j | InFlight(s', j) ensures FlightOk(s', j, s'.replicas[j].flight.value) {
      assert InFlight(s, j);
    }
  }

  lemma HandledFlight(s: System, j: nat, env: Handler.Env, i: nat)
    requires Inv(s) && Enabled(s, HandleOne(j, env)) && InFlight(s, i) && InFlight(s, j)
    requires InFlight(Apply(s, HandleOne(j, env)), i)
    ensures FlightOk(Apply(s, HandleOne(j, env)), i, Apply(s, HandleOne(j, env)).replicas[i].flight.value)
  {
    var s' := Apply(s, HandleOne(j, env));
    var f, n := s'.replicas[i].flight.value, |s.history|;
    if f.live && f.done {
      if i == j {
        assert LastSuccess(s'.history, f, n);
      } else {
        assert FlightOk(s, i, f) && FlightOk(s, j, s.replicas[j].flight.value);
        var h :| LastSuccess(s.history, f, h);
        assert FreshAt(s'.history, h, f.part, f.offset);
        forall k, o | FreshAt(s'.history, k, f.part, o) ensures k <= h {
          assert FreshAt(s.history, k, f.part, o);
        }
        assert LastSuccess(s'.history, f, h);
      }
    }
  }

  lemma CoveredKept(s: System, step: Step)
    requires Inv(s) && Enabled(s, step)
    ensures Covered(Apply(s, step))
  {
    var s' := Apply(s, step);
    forall p: nat, offset: nat | p < |s'.parts| && s'.parts[p].owner.Some? &&
                                 s'.parts[p].committed <= offset < s'.parts[p].position
      ensures Pending(s', p, offset) || exists h :: FreshAt(s'.history, h, p, offset)
    {
      CoveredAt(s, step, p, offset);
    }
  }

  lemma CoveredAt(s: System, step: Step, p: nat, offset: nat)
    requires Inv(s) && Enabled(s, step)
    requires var s' := Apply(s, step);
             p < |s'.parts| && s'.parts[p].owner.Some? && s'.parts[p].committed <= offset < s'.parts[p].position
    ensures Pending(Apply(s, step), p, offset) || exists h :: FreshAt(Apply(s, step).history, h, p, offset)
  {
    var s' := Apply(s, step);
    if step.Poll? && p == step.part && offset == s.parts[p].position {
      assert Pending(s', p, offset);
    } else {
      CoveredBefore(s, step, p, offset);
      if h :| FreshAt(s.history, h, p, offset) {
        assert FreshAt(s'.history, h, p, offset);
      } else {
        PendingKept(s, step, p, offset);
      }
    }
  }

  lemma CoveredBefore(s: System, step: Step, p: nat, offset: nat)
    requires Inv(s) && Enabled(s, step) && !(step.Poll? && p == step.part && p < |s.parts| && offset == s.parts[p].position)
    requires var s' := Apply(s, step);
             p < |s'.parts| && s'.parts[p].owner.Some? && s'.parts[p].committed <= offset < s'.parts[p].position
    ensures p < |s.parts| && s.parts[p].owner == Apply(s, step).parts[p].owner
    ensures Pending(s, p, offset) || exists h :: FreshAt(s.history, h, p, offset)
  {
    assert p < |s.parts|;
    assert s.parts[p].owner == Apply(s, step).parts[p].owner && s.parts[p].committed <= offset < s.parts[p].position;
  }

  lemma PendingKept(s: System, step: Step, p: nat, offset: nat)
    requires Inv(s) && Enabled(s, step) && p < |s.parts| && Pending(s, p, offset)
    requires var s' := Apply(s, step);
             p < |s'.parts| && s'.parts[p].owner == s.parts[p].owner && s'.parts[p].committed <= offset < s'.parts[p].position
    ensures Pending(Apply(s, step), p, offset) || FreshAt(Apply(s, step).history, |s.history|, p, offset)
  {
    var s' := Apply(s, step);
    if step.HandleOne? && s.parts[p].owner == Some(step.replica) {
      assert FreshAt(s'.history, |s.history|, p, offset);
    }
  }

  /** Accounting survives a further handling, as long as it is not a live one of the same offset. */
  lemma AccountedGrows(history: seq<Entry>, e: Entry, p: nat, offset: nat)
    requires Accounted(history, p, offset)
    requires e.part == p && e.offset == offset ==> !e.live
    ensures Accounted(history + [e], p, offset)
  {
    if HandledSafely(history, p, offset) {
      var h :| SafeAt(history, h, p, offset);
      assert SafeAt(history + [e], h, p, offset);
    } else {
      var h, h' :| OvertakenBy(history, p, offset, h, h');
      assert FreshAt(history + [e], h, p, offset);
      forall j | FreshAt(history + [e], j, p, offset) ensures j < h' {
        assert FreshAt(history, j, p, offset);
      }
      assert OvertakenBy(history + [e], p, offset, h, h');
    }
  }

  /** The heart of the ledger: a commit that lands accounts for everything it newly covers. */
  lemma CommitAccounts(s: System, i: nat, offset: nat)
    requires Inv(s) && InFlight(s, i)
    requires var f := s.replicas[i].flight.value; f.live && f.done && s.parts[f.part].committed <= offset <= f.offset
    ensures Accounted(s.history, s.replicas[i].flight.value.part, offset)
  {
    var f := s.replicas[i].flight.value;
    assert FlightOk(s, i, f);
    var h' :| LastSuccess(s.history, f, h');
    if offset == f.offset {
      assert SafeAt(s.history, h', f.part, offset);
    } else {
      assert !Pending(s, f.part, offset);
      var h :| FreshAt(s.history, h, f.part, offset);
      if s.history[h].verdict == Returned(true) {
        assert SafeAt(s.history, h, f.part, offset);
      } else {
        assert OvertakenBy(s.history, f.part, offset, h, h');
      }
    }
  }

  lemma CommittedKept(s: System, step: Step)
    requires Inv(s) && Enabled(s, step)
    ensures CommittedOk(Apply(s, step))
  {
    var s' := Apply(s, step);
    forall p, offset: nat | 0 <= p < |s'.parts| && offset < s'.parts[p].committed
      ensures Accounted(s'.history, p, offset)
    {
      if offset >= s.parts[p].committed {
        CommitAccounts(s, step.replica, offset);
      } else if step.HandleOne? {
        assert FlightOk(s, step.replica, s.replicas[step.replica].flight.value);
        AccountedGrows(s.history, Handling(s, step.replica, step.env).0, p, offset);
      }
    }
  }

  lemma ReportsGrow(s: System, step: Step)
    requires Inv(s) && Enabled(s, step)
    ensures s.reports <= Apply(s, step).reports && OneRowPerTransaction(Apply(s, step).reports)
  {
    if step.HandleOne? {
      var f := s.replicas[step.replica].flight.value;
      SafeMeansStoredOrPoison(s.replicas[step.replica].ledger, MAX_RETRIES, s.reports,
                              s.parts[f.part].log[f.offset], step.env);
    } else if step.Proceed? {
      OnDemand.AdvanceKeeps(s.reports, s.requests[step.request], step.answer);
    }
  }

  lemma TablesKept(s: System, step: Step)
    requires Inv(s) && Enabled(s, step)
    ensures TablesOk(Apply(s, step))
  {
    var s' := Apply(s, step);
    ReportsGrow(s, step);
    forall e | e in s'.history ensures EntryOk(s', e) {
      if step.HandleOne? && e !in s.history {
        var f := s.replicas[step.replica].flight.value;
        SafeMeansStoredOrPoison(s.replicas[step.replica].ledger, MAX_RETRIES, s.reports,
                                s.parts[f.part].log[f.offset], step.env);
      } else {
        EntryKept(s, step, e);
      }
    }
    forall k | k in s'.requests ensures OnDemand.RequestOk(s'.reports, s'.requests[k]) {
      if step.Proceed? && k == step.request {
        OnDemand.AdvanceKeeps(s.reports, s.requests[k], step.answer);
      } else if k in s.requests {
        OnDemand.GrowthKeeps(s.reports, s'.reports, s.requests[k]);
      }
    }
  }

  lemma EntryKept(s: System, step: Step, e: Entry)
    requires Inv(s) && Enabled(s, step) && EntryOk(s, e) && s.reports <= Apply(s, step).reports
    ensures EntryOk(Apply(s, step), e)
  {
    LogsGrow(s, step);
    if Owed(e.message) && HasReport(s.reports, Get(e.message.event, "transaction_id")) {
      StaysReported(s.reports, Apply(s, step).reports, Get(e.message.event, "transaction_id"));
    }
  }

  lemma LogsGrow(s: System, step: Step)
    requires Enabled(s, step)
    ensures |Apply(s, step).parts| == |s.parts|
    ensures forall p | 0 <= p < |s.parts| :: s.parts[p].log <= Apply(s, step).parts[p].log
  {
  }

  lemma StaysReported(reports: seq<Row>, more: seq<Row>, txn: string)
    requires reports <= more && HasReport(reports, txn)
    ensures HasReport(more, txn)
  {
    var i :| 0 <= i < |reports| && reports[i].transactionId == txn;
    assert more[i] == reports[i];
  }

  lemma InvKept(s: System, step: Step)
    requires Inv(s) && Enabled(s, step)
    ensures Inv(Apply(s, step))
  {
    PartsKept(s, step);
    FlightsKept(s, step);
    CoveredKept(s, step);
    CommittedKept(s, step);
    TablesKept(s, step);
  }

  // ── whole runs ─────────────────────────────────────────────────

  lemma {:induction false} RunKeeps(s: System, run: seq<Step>)
    requires Inv(s) && IsRun(s, run)
    ensures Inv(After(s, run)) && |After(s, run).parts| == |s.parts|
    ensures s.reports <= After(s, run).reports && s.history <= After(s, run).history
    ensures forall p | 0 <= p < |s.parts| :: s.parts[p].committed <= After(s, run).parts[p].committed
    decreases |run|
  {
    if run != [] {
      var s' := Apply(s, run[0]);
      InvKept(s, run[0]);
      ReportsGrow(s, run[0]);
      CommittedMovesForward(s, run[0]);
      RunKeeps(s', run[1..]);
    }
  }

  /** A step moves the committed offset of at most one partition, the one whose message the
      committing replica holds, and only forward. */
  lemma CommittedMovesForward(s: System, step: Step)
    requires Inv(s) && Enabled(s, step)
    ensures |Apply(s, step).parts| == |s.parts|
    ensures forall p | 0 <= p < |s.parts| :: s.parts[p].committed <= Apply(s, step).parts[p].committed
    ensures forall p | 0 <= p < |s.parts| && s.parts[p].committed != Apply(s, step).parts[p].committed ::
              step.Commit? && s.replicas[step.replica].flight.value.part == p
  {
    if step.Commit? {
      assert FlightOk(s, step.replica, s.replicas[step.replica].flight.value);
    }
  }

  lemma EmptyIsGood(s: System)
    requires Empty(s)
    ensures Inv(s)
  {
  }

  /** The delivery ledger. In every run of polls, handler results, failed and lost commits,
      crashes, rebalances and request threads, each offset below a committed offset was handled,
      and either some handling of it returned True or a later success of its partition overtook
      its last live handling. */
  lemma DeliveryLedger(s: System, run: seq<Step>, p: nat, offset: nat)
    requires Empty(s) && IsRun(s, run) && p < |After(s, run).parts| && offset < After(s, run).parts[p].committed
    ensures HandledSafely(After(s, run).history, p, offset) || Overtaken(After(s, run).history, p, offset)
  {
    EmptyIsGood(s);
    RunKeeps(s, run);
    assert Accounted(After(s, run).history, p, offset);
  }

  /** Each declined transaction below a committed offset has its report row, or was counted as
      dropped poison, or was overtaken without any handling having returned True. */
  lemma DeclinesAreStoredDroppedOrOvertaken(s: System, run: seq<Step>, p: nat, offset: nat)
    requires Empty(s) && IsRun(s, run) && p < |After(s, run).parts| && offset < After(s, run).parts[p].committed
    requires offset < |After(s, run).parts[p].log| && Owed(After(s, run).parts[p].log[offset])
    ensures var s' := After(s, run);
            || HasReport(s'.reports, Get(s'.parts[p].log[offset].event, "transaction_id"))
            || (exists e <- s'.history :: e.part == p && e.offset == offset && e.poison)
            || (!HandledSafely(s'.history, p, offset) && Overtaken(s'.history, p, offset))
  {
    EmptyIsGood(s);
    RunKeeps(s, run);
    var s' := After(s, run);
    assert Accounted(s'.history, p, offset);
    if HandledSafely(s'.history, p, offset) {
      var h :| SafeAt(s'.history, h, p, offset);
      assert s'.history[h] in s'.history && EntryOk(s', s'.history[h]);
    }
  }

  /** Every offset below a committed offset lies in the log, so the ledger speaks of real messages. */
  lemma CommittedIsInTheLog(s: System, run: seq<Step>, p: nat)
    requires Empty(s) && IsRun(s, run) && p < |s.parts|
    ensures |After(s, run).parts| == |s.parts|
    ensures After(s, run).parts[p].committed <= |After(s, run).parts[p].log|
  {
    EmptyIsGood(s);
    RunKeeps(s, run);
  }

  /** At most one report row per transaction exists in any state of any run; a stored row keeps its
      place and content for good; and every 200 or 201 reply for a transaction carries its one row. */
  lemma OneReportPerTransaction(s: System, run: seq<Step>, more: seq<Step>, k: nat)
    requires Empty(s) && IsRun(s, run) && IsRun(After(s, run), more)
    ensures OneRowPerTransaction(After(s, run).reports)
    ensures After(s, run).reports <= After(After(s, run), more).reports
    ensures var s' := After(s, run);
            k in s'.requests && s'.requests[k].phase.Replied? && s'.requests[k].phase.code in {200, 201} ==>
              s'.requests[k].phase.body == Lookup(After(s', more).reports, s'.requests[k].txn)
              && s'.requests[k].phase.body.Some?
  {
    EmptyIsGood(s);
    RunKeeps(s, run);
    var s' := After(s, run);
    RunKeeps(s', more);
    if k in s'.requests && s'.requests[k].phase.Replied? && s'.requests[k].phase.code in {200, 201} {
      assert OnDemand.RequestOk(s'.reports, s'.requests[k]);
      var row := s'.requests[k].phase.body.value;
      var i :| 0 <= i < |s'.reports| && s'.reports[i] == row;
      LookupFindsTheRow(After(s', more).reports, i);
    }
  }

  // ── runs put together ──────────────────────────────────────────

  lemma {:induction false} RunsConcatenate(s: System, a: seq<Step>, b: seq<Step>)
    requires IsRun(s, a) && IsRun(After(s, a), b)
    ensures IsRun(s, a + b) && After(s, a + b) == After(After(s, a), b)
    decreases |a|
  {
    if a == [] {
      assert a + b == b;
    } else {
      assert (a + b)[0] == a[0] && (a + b)[1..] == a[1..] + b;
      RunsConcatenate(Apply(s, a[0]), a[1..], b);
    }
  }

  /** A run given with its intermediate states. */
  lemma {:induction false} Unroll(s: System, run: seq<Step>, states: seq<System>)
    requires |states| == |run| > 0
    requires Enabled(s, run[0]) && states[0] == Apply(s, run[0])
    requires forall k | 1 <= k < |run| :: Enabled(states[k - 1], run[k]) && states[k] == Apply(states[k - 1], run[k])
    ensures IsRun(s, run) && After(s, run) == states[|states| - 1]
    decreases |run|
  {
    if |run| > 1 {
      Unroll(states[0], run[1..], states[1..]);
    } else {
      assert run[1..] == [];
    }
  }
}
