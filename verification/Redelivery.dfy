/** Whether a message whose handling failed is delivered again: what a commit leaves behind, and what
    a later poll can still fetch. */
module Redelivery {
  import opened Wrappers
  import opened ReportStore
  import opened Handler
  import PythonText
  import opened Delivery
  import opened DeliveryProofs

  // ── what a commit leaves behind ────────────────────────────────

  /** Nothing below the committed offset is still owed a successful handling. */
  ghost predicate NothingSkipped(s: System, p: nat)
    requires p < |s.parts|
  {
    forall offset: nat | offset < s.parts[p].committed :: HandledSafely(s.history, p, offset)
  }

  predicate LandsOn(s: System, step: Step, p: nat)
    requires Enabled(s, step)
  {
    step.Commit? && step.outcome in {Applied, Lost(true)} && s.replicas[step.replica].flight.value.part == p
  }

  /** The loop took its failing branch for this offset: a live handling did not return True, and no
      handling of it ever has. */
  ghost predicate FailedSoFar(history: seq<Entry>, p: nat, offset: nat) {
    (exists h :: FreshAt(history, h, p, offset) && history[h].verdict != Returned(true)) && !HandledSafely(history, p, offset)
  }

  /** The step is a commit that lands past an offset which has only failed so far. */
  ghost predicate PassesAFailure(s: System, step: Step, p: nat)
    requires p < |s.parts| && Enabled(s, step)
  {
    LandsOn(s, step, p) &&
    exists offset: nat | s.parts[p].committed <= offset < s.replicas[step.replica].flight.value.offset ::
      FailedSoFar(s.history, p, offset)
  }

  /** Where a commit lands, every offset it newly covers was handled live: it was either handled
      safely at some time or has only failed so far. */
  lemma GapWasHandled(s: System, i: nat, outcome: CommitOutcome, offset: nat)
    requires Inv(s) && Enabled(s, Commit(i, outcome)) && outcome in {Applied, Lost(true)}
    requires var f := s.replicas[i].flight.value; s.parts[f.part].committed <= offset <= f.offset
    ensures var f := s.replicas[i].flight.value;
            && (HandledSafely(s.history, f.part, offset) <==> !FailedSoFar(s.history, f.part, offset))
            && (offset == f.offset ==> HandledSafely(s.history, f.part, offset))
  {
    var f := s.replicas[i].flight.value;
    assert FlightOk(s, i, f);
    if offset == f.offset {
      var h :| LastSuccess(s.history, f, h);
      assert SafeAt(s.history, h, f.part, offset);
    } else {
      assert !Pending(s, f.part, offset);
      var h :| FreshAt(s.history, h, f.part, offset);
      assert s.history[h].verdict == Returned(true) ==> SafeAt(s.history, h, f.part, offset);
    }
  }

  /** A step of a system that has skipped nothing skips something exactly when it is a commit that
      lands past a failure. */
  lemma CommitSkipsNothingIff(s: System, step: Step, p: nat)
    requires Inv(s) && Enabled(s, step) && p < |s.parts| && NothingSkipped(s, p)
    ensures p < |Apply(s, step).parts|
    ensures NothingSkipped(Apply(s, step), p) <==> !PassesAFailure(s, step, p)
  {
    CommittedMovesForward(s, step);
    if LandsOn(s, step, p) {
      LandingSkipsNothingIff(s, step.replica, step.outcome);
    } else {
      SafelyStays(s, step, p);
    }
  }

  lemma SafelyStays(s: System, step: Step, p: nat)
    requires Inv(s) && Enabled(s, step) && p < |s.parts| && NothingSkipped(s, p) && !LandsOn(s, step, p)
    ensures p < |Apply(s, step).parts| && NothingSkipped(Apply(s, step), p)
  {
    var s' := Apply(s, step);
    HistoryGrows(s, step);
    CommittedStays(s, step, p);
    forall offset: nat | offset < s'.parts[p].committed ensures HandledSafely(s'.history, p, offset) {
      assert HandledSafely(s.history, p, offset);
      var h :| SafeAt(s.history, h, p, offset);
      assert SafeAt(s'.history, h, p, offset);
    }
  }

  lemma CommittedStays(s: System, step: Step, p: nat)
    requires Inv(s) && Enabled(s, step) && p < |s.parts| && !LandsOn(s, step, p)
    ensures p < |Apply(s, step).parts| && Apply(s, step).parts[p].committed == s.parts[p].committed
  {
  }

  lemma HistoryGrows(s: System, step: Step)
    requires Enabled(s, step)
    ensures s.history <= Apply(s, step).history
  {
  }

  lemma LandingSkipsNothingIff(s: System, i: nat, outcome: CommitOutcome)
    requires Inv(s) && Enabled(s, Commit(i, outcome)) && outcome in {Applied, Lost(true)}
    requires NothingSkipped(s, s.replicas[i].flight.value.part)
    ensures var p, s' := s.replicas[i].flight.value.part, Apply(s, Commit(i, outcome));
            p < |s'.parts| && (NothingSkipped(s', p) <==> !PassesAFailure(s, Commit(i, outcome), p))
  {
    var f, s' := s.replicas[i].flight.value, Apply(s, Commit(i, outcome));
    assert s'.history == s.history && s'.parts[f.part].committed == f.offset + 1;
    forall offset: nat | s.parts[f.part].committed <= offset <= f.offset
      ensures HandledSafely(s.history, f.part, offset) <==> !FailedSoFar(s.history, f.part, offset)
      ensures offset == f.offset ==> HandledSafely(s.history, f.part, offset)
    {
      GapWasHandled(s, i, outcome, offset);
    }
  }

  /** In no state of the run is an offset of p below the committed one and not handled safely. */
  ghost predicate NeverSkips(s: System, run: seq<Step>, p: nat)
    requires IsRun(s, run) && p < |s.parts|
    decreases |run|
  {
    NothingSkipped(s, p) &&
    (run != [] ==> p < |Apply(s, run[0]).parts| && NeverSkips(Apply(s, run[0]), run[1..], p))
  }

  /** No step of the run is a commit on p that lands past a failure. */
  ghost predicate NeverPassesAFailure(s: System, run: seq<Step>, p: nat)
    requires IsRun(s, run) && p < |s.parts|
    decreases |run|
  {
    run != [] ==>
      !PassesAFailure(s, run[0], p) &&
      p < |Apply(s, run[0]).parts| && NeverPassesAFailure(Apply(s, run[0]), run[1..], p)
  }

  /** Throughout a run nothing of a partition is left behind exactly when no commit of the run lands
      past an offset for which the loop has only taken its failing branch. */
  lemma RunSkipsNothingIff(s: System, run: seq<Step>, p: nat)
    requires Empty(s) && IsRun(s, run) && p < |s.parts|
    ensures NeverSkips(s, run, p) <==> NeverPassesAFailure(s, run, p)
  {
    EmptyIsGood(s);
    NeverSkipsIff(s, run, p);
  }

  lemma {:induction false} NeverSkipsIff(s: System, run: seq<Step>, p: nat)
    requires Inv(s) && IsRun(s, run) && p < |s.parts| && NothingSkipped(s, p)
    ensures NeverSkips(s, run, p) <==> NeverPassesAFailure(s, run, p)
    decreases |run|
  {
    if run != [] {
      var s' := Apply(s, run[0]);
      InvKept(s, run[0]);
      CommitSkipsNothingIff(s, run[0], p);
      if NothingSkipped(s', p) {
        NeverSkipsIff(s', run[1..], p);
      }
    }
  }

  // ── whether a message is delivered again ───────────────────────

  /** Some step of the run is a poll that fetches the offset. */
  ghost predicate Fetched(s: System, run: seq<Step>, p: nat, offset: nat)
    requires IsRun(s, run)
    decreases |run|
  {
    run != [] && (Fetches(s, run[0], p, offset) || Fetched(Apply(s, run[0]), run[1..], p, offset))
  }

  predicate Fetches(s: System, step: Step, p: nat, offset: nat) {
    step.Poll? && step.part == p < |s.parts| && s.parts[p].position == offset
  }

  ghost predicate NoRebalance(run: seq<Step>) {
    forall k | 0 <= k < |run| :: !run[k].Rebalance?
  }

  /** Nothing but a rebalance takes a partition's position back: until then, whatever polls, handlings,
      commits, crashes and starts happen, no offset below the position is fetched again. */
  lemma {:induction false} PassedIsNotFetchedAgain(s: System, run: seq<Step>, p: nat, offset: nat)
    requires IsRun(s, run) && NoRebalance(run) && p < |s.parts| && offset < s.parts[p].position
    ensures !Fetched(s, run, p, offset)
    decreases |run|
  {
    if run != [] {
      assert !run[0].Rebalance?;
      PositionStays(s, run[0], p);
      PassedIsNotFetchedAgain(Apply(s, run[0]), run[1..], p, offset);
    }
  }

  lemma PositionStays(s: System, step: Step, p: nat)
    requires Enabled(s, step) && !step.Rebalance? && p < |s.parts|
    ensures p < |Apply(s, step).parts| && s.parts[p].position <= Apply(s, step).parts[p].position
  {
  }

  /** What the loop's warning promises fails at once: after a handling that did not return True, no poll
      fetches the message again before a rebalance. */
  lemma FailedMessageWaitsForARebalance(s: System, i: nat, env: Handler.Env, run: seq<Step>)
    requires Inv(s) && Enabled(s, HandleOne(i, env)) && s.replicas[i].flight.value.live
    requires Handling(s, i, env).0.verdict != Returned(true)
    requires IsRun(Apply(s, HandleOne(i, env)), run) && NoRebalance(run)
    ensures var f := s.replicas[i].flight.value; !Fetched(Apply(s, HandleOne(i, env)), run, f.part, f.offset)
  {
    var f := s.replicas[i].flight.value;
    assert InFlight(s, i) && FlightOk(s, i, f);
    PositionStays(s, HandleOne(i, env), f.part);
    PassedIsNotFetchedAgain(Apply(s, HandleOne(i, env)), run, f.part, f.offset);
  }

  /** What lies below the committed offset is fetched again by no run at all. */
  lemma {:induction false} CommittedIsNotFetchedAgain(s: System, run: seq<Step>, p: nat, offset: nat)
    requires Inv(s) && IsRun(s, run) && p < |s.parts| && offset < s.parts[p].committed
    ensures !Fetched(s, run, p, offset)
    decreases |run|
  {
    if run != [] {
      InvKept(s, run[0]);
      CommittedMovesForward(s, run[0]);
      CommittedIsNotFetchedAgain(Apply(s, run[0]), run[1..], p, offset);
    }
  }

  ghost predicate Delivers(s: System, run: seq<Step>, p: nat, offset: nat) {
    IsRun(s, run) && Fetched(s, run, p, offset)
  }

  /** In every state, a message of the log can still be delivered, by some run, exactly when it is not
      below the committed offset. */
  lemma DeliveredAgainIff(s: System, p: nat, offset: nat)
    requires Inv(s) && p < |s.parts| && offset < |s.parts[p].log|
    ensures (exists run :: Delivers(s, run, p, offset)) <==> offset >= s.parts[p].committed
  {
    if offset >= s.parts[p].committed {
      var run := RunThatFetches(s, p, offset);
      assert Delivers(s, run, p, offset);
    } else {
      forall run | IsRun(s, run) ensures !Delivers(s, run, p, offset) {
        CommittedIsNotFetchedAgain(s, run, p, offset);
      }
    }
  }

  /** A new replica joins, takes over every partition, and walks up to the offset. */
  lemma RunThatFetches(s: System, p: nat, offset: nat) returns (run: seq<Step>)
    requires p < |s.parts| && s.parts[p].committed <= offset < |s.parts[p].log|
    ensures IsRun(s, run) && Fetched(s, run, p, offset)
  {
    var k := NewReplica(s.replicas);
    var start := [Join(k), Rebalance(All(k, |s.parts|))];
    var s1 := Apply(s, Join(k));
    Unroll(s, start, [s1, Apply(s1, start[1])]);
    var walk := WalkTo(After(s, start), k, p, offset);
    FetchedLater(s, start, walk, p, offset);
    run := start + walk;
  }

  lemma NewReplica(replicas: map<nat, Replica>) returns (k: nat)
    ensures k !in replicas
  {
    k := Above(replicas.Keys);
    assert k !in replicas.Keys;
  }

  lemma Above(s: set<nat>) returns (k: nat)
    ensures forall x <- s :: x < k
  {
    k := 0;
    if x :| x in s {
      var below := Above(s - {x});
      k := if x < below then below else x + 1;
      assert forall y <- s :: y == x || y in s - {x};
    }
  }

  function All(k: nat, n: nat): (owners: seq<Option<nat>>)
    ensures |owners| == n && forall p | 0 <= p < n :: owners[p] == Some(k)
  {
    if n == 0 then [] else [Some(k)] + All(k, n - 1)
  }

  /** An idle owner of the partition. */
  predicate IsIdleOwner(s: System, k: nat, p: nat) {
    && p < |s.parts| && s.parts[p].owner == Some(k)
    && k in s.replicas && s.replicas[k].flight.None?
  }

  /** An idle owner can poll, handle and, if need be, fail to commit until it reaches the offset. */
  lemma WalkTo(s: System, k: nat, p: nat, offset: nat) returns (run: seq<Step>)
    requires IsIdleOwner(s, k, p) && s.parts[p].position <= offset < |s.parts[p].log|
    ensures IsRun(s, run) && Fetched(s, run, p, offset)
    decreases offset - s.parts[p].position
  {
    if s.parts[p].position == offset {
      run := [Poll(k, p)];
      Unroll(s, run, [Apply(s, run[0])]);
    } else {
      var first := PassOne(s, k, p);
      var rest := WalkTo(After(s, first), k, p, offset);
      FetchedLater(s, first, rest, p, offset);
      run := first + rest;
    }
  }

  lemma PassOne(s: System, k: nat, p: nat) returns (run: seq<Step>)
    requires IsIdleOwner(s, k, p) && s.parts[p].position < |s.parts[p].log|
    ensures IsRun(s, run) && IsIdleOwner(After(s, run), k, p)
    ensures After(s, run).parts[p] == s.parts[p].(position := s.parts[p].position + 1)
  {
    var env := Handler.Env(None, Answers, false);
    var s1 := Apply(s, Poll(k, p));
    var s2 := Apply(s1, HandleOne(k, env));
    if s2.replicas[k].flight.None? {
      run := [Poll(k, p), HandleOne(k, env)];
      Unroll(s, run, [s1, s2]);
    } else {
      run := [Poll(k, p), HandleOne(k, env), Commit(k, CommitFailed)];
      Unroll(s, run, [s1, s2, Apply(s2, Commit(k, CommitFailed))]);
    }
  }

  lemma {:induction false} FetchedLater(s: System, a: seq<Step>, b: seq<Step>, p: nat, offset: nat)
    requires IsRun(s, a) && IsRun(After(s, a), b) && Fetched(After(s, a), b, p, offset)
    ensures IsRun(s, a + b) && Fetched(s, a + b, p, offset)
    decreases |a|
  {
    if a == [] {
      assert a + b == b;
    } else {
      assert (a + b)[0] == a[0] && (a + b)[1..] == a[1..] + b;
      FetchedLater(Apply(s, a[0]), a[1..], b, p, offset);
    }
  }

  // ── a declined transaction is lost ─────────────────────────────

  function Declined(txn: string): Message {
    Blocked(map["transaction_id" := txn, "decision" := "DECLINE"])
  }

  /** Nine steps that lose a declined transaction: its generation fails once, the next message of
      the partition succeeds, and that commit covers both. */
  const ARRIVE: seq<Step> := [Produce(0, Declined("a")), Produce(0, Declined("b")), Join(7), Rebalance([Some(7)])]
  const FAIL_FIRST: seq<Step> := [Poll(7, 0), HandleOne(7, Handler.Env(None, Answers, false))]

  function PassSecond(report: Report): seq<Step> {
    [Poll(7, 0), HandleOne(7, Handler.Env(Some(report), Answers, false)), Commit(7, Applied)]
  }

  /** Both messages in the one partition, replica 7 its idle owner. */
  function Midway(position: nat, ledger: Ledger, history: seq<Entry>): System {
    System([Part([Declined("a"), Declined("b")], 0, position, Some(7))], map[7 := Replica(ledger, None)], [], map[], history)
  }

  lemma FailedMessageIsNotDeliveredAgain(s: System, report: Report, more: seq<Step>)
    requires Empty(s) && |s.parts| == 1
    ensures IsRun(s, ARRIVE + FAIL_FIRST + PassSecond(report))
    ensures var s' := After(s, ARRIVE + FAIL_FIRST + PassSecond(report));
            && |s'.parts| == 1 && s'.parts[0].committed == 2 && s'.parts[0].log == [Declined("a"), Declined("b")]
            && !HasReport(s'.reports, "a")
            && (forall e <- s'.history :: !e.poison)
            && !HandledSafely(s'.history, 0, 0) && !NothingSkipped(s', 0)
            && (IsRun(s', more) ==> !Fetched(s', more, 0, 0))
  {
    BothArrive(s);
    FirstFails();
    SecondOvertakes(report);
    RunsConcatenate(s, ARRIVE, FAIL_FIRST);
    RunsConcatenate(s, ARRIVE + FAIL_FIRST, PassSecond(report));
    var s' := After(s, ARRIVE + FAIL_FIRST + PassSecond(report));
    assert !HandledSafely(s'.history, 0, 0);
    EmptyIsGood(s);
    RunKeeps(s, ARRIVE + FAIL_FIRST + PassSecond(report));
    if IsRun(s', more) {
      CommittedIsNotFetchedAgain(s', more, 0, 0);
    }
  }

  lemma BothArrive(s: System)
    requires Empty(s) && |s.parts| == 1
    ensures IsRun(s, ARRIVE) && After(s, ARRIVE) == Midway(0, FRESH, [])
  {
    var log := [Declined("a"), Declined("b")];
    BothProduced(s);
    OwnerJoins(s.(parts := [Part(log, 0, 0, None)]));
    RunsConcatenate(s, ARRIVE[..2], ARRIVE[2..]);
    assert ARRIVE[..2] + ARRIVE[2..] == ARRIVE;
  }

  lemma BothProduced(s: System)
    requires Empty(s) && |s.parts| == 1
    ensures IsRun(s, ARRIVE[..2])
    ensures After(s, ARRIVE[..2]) == s.(parts := [Part([Declined("a"), Declined("b")], 0, 0, None)])
  {
    var a, b := Declined("a"), Declined("b");
    assert s.parts == [Part([], 0, 0, None)];
    assert [] + [a] == [a] && [a] + [b] == [a, b];
    var s1, s2 := s.(parts := [Part([a], 0, 0, None)]), s.(parts := [Part([a, b], 0, 0, None)]);
    Unroll(s, ARRIVE[..2], [s1, s2]);
  }

  lemma OwnerJoins(s: System)
    requires s == System([Part([Declined("a"), Declined("b")], 0, 0, None)], map[], [], map[], [])
    ensures IsRun(s, ARRIVE[2..]) && After(s, ARRIVE[2..]) == Midway(0, FRESH, [])
  {
    var s1 := s.(replicas := map[7 := Replica(FRESH, None)]);
    assert Apply(s1, ARRIVE[3]) == Midway(0, FRESH, []);
    Unroll(s, ARRIVE[2..], [s1, Midway(0, FRESH, [])]);
  }

  lemma DeclinedIsOwed(txn: string)
    requires txn != ""
    ensures Owed(Declined(txn)) && Get(Declined(txn).event, "transaction_id") == txn
  {
    assert PythonText.Upper("DECLINE") == "DECLINE";
  }

  const ONE_FAILURE := FRESH.(retryCounts := map["a" := 1], failed := 1)
  const FIRST := Entry(0, 0, Declined("a"), Returned(false), true, false)

  lemma FirstFails()
    ensures IsRun(Midway(0, FRESH, []), FAIL_FIRST)
    ensures After(Midway(0, FRESH, []), FAIL_FIRST) == Midway(1, ONE_FAILURE, [FIRST])
  {
    var s := Midway(0, FRESH, []);
    var s1 := Apply(s, FAIL_FIRST[0]);
    FirstReturnsFalse();
    assert [] + [FIRST] == [FIRST];
    assert Apply(s1, FAIL_FIRST[1]) == Midway(1, ONE_FAILURE, [FIRST]);
    Unroll(s, FAIL_FIRST, [s1, Midway(1, ONE_FAILURE, [FIRST])]);
  }

  lemma FirstReturnsFalse()
    ensures Handle(FRESH, MAX_RETRIES, [], Declined("a"), Handler.Env(None, Answers, false)) ==
            Handled(ONE_FAILURE, [], Returned(false))
  {
    DeclinedIsOwed("a");
  }

  /** The system once the second message is handled and its commit is next. */
  function SecondDone(report: Report): System {
    System([Part([Declined("a"), Declined("b")], 0, 2, Some(7))],
           map[7 := Replica(ONE_FAILURE.(processed := 1), Some(Flight(0, 1, true, true)))],
           [Row(0, "b", Declined("b").event, report)], map[],
           [FIRST, Entry(0, 1, Declined("b"), Returned(true), true, false)])
  }

  lemma SecondOvertakes(report: Report)
    ensures var s := Midway(1, ONE_FAILURE, [FIRST]);
            && IsRun(s, PassSecond(report))
            && var s' := After(s, PassSecond(report));
               && s'.parts == [Part([Declined("a"), Declined("b")], 2, 2, Some(7))]
               && s'.reports == [Row(0, "b", Declined("b").event, report)]
               && s'.history == [FIRST, Entry(0, 1, Declined("b"), Returned(true), true, false)]
  {
    var s, run := Midway(1, ONE_FAILURE, [FIRST]), PassSecond(report);
    SecondHandled(report);
    var s3 := Apply(SecondDone(report), run[2]);
    Unroll(SecondDone(report), run[2..], [s3]);
    RunsConcatenate(s, run[..2], run[2..]);
    assert run[..2] + run[2..] == run;
  }

  lemma SecondHandled(report: Report)
    ensures IsRun(Midway(1, ONE_FAILURE, [FIRST]), PassSecond(report)[..2])
    ensures After(Midway(1, ONE_FAILURE, [FIRST]), PassSecond(report)[..2]) == SecondDone(report)
  {
    var s, run := Midway(1, ONE_FAILURE, [FIRST]), PassSecond(report);
    var s1 := Apply(s, run[0]);
    SecondSucceeds(report);
    assert Apply(s1, run[1]) == SecondDone(report);
    Unroll(s, run[..2], [s1, SecondDone(report)]);
  }

  lemma SecondSucceeds(report: Report)
    ensures Handle(ONE_FAILURE, MAX_RETRIES, [], Declined("b"), Handler.Env(Some(report), Answers, false)) ==
            Handled(ONE_FAILURE.(processed := 1), [Row(0, "b", Declined("b").event, report)], Returned(true))
  {
    DeclinedIsOwed("b");
    assert ONE_FAILURE.retryCounts - {"b"} == ONE_FAILURE.retryCounts;
  }
}
