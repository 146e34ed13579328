/** Where the stored reports come from: every row of every run was written for a message that was handled
    or for a request that was asked, with its own event and the report generated for it. */
module Provenance {
  import opened Wrappers
  import opened ReportStore
  import opened Handler
  import OnDemand
  import opened Delivery
  import opened DeliveryProofs

  /** The step writes this event with this report: it handles a message that owes a report and for which
      this one was generated, or it is the write of a request that holds them. */
  predicate Writes(s: System, step: Step, event: Event, report: Report)
    requires Enabled(s, step)
  {
    match step
    case HandleOne(i, env) =>
      var f := s.replicas[i].flight.value;
      s.parts[f.part].log[f.offset] == Blocked(event) && Owed(Blocked(event)) && env.generated == Some(report)
    case Proceed(k, _) => s.requests[k].phase == OnDemand.Writing(report) && s.requests[k].event == event
    case _ => false
  }

  ghost predicate WrittenIn(s: System, run: seq<Step>, event: Event, report: Report)
    requires IsRun(s, run)
    decreases |run|
  {
    run != [] && (Writes(s, run[0], event, report) || WrittenIn(Apply(s, run[0]), run[1..], event, report))
  }

  /** The row carries the transaction id of its event and the number of its place. */
  predicate InPlace(table: seq<Row>, k: nat) {
    k < |table| && table[k].id == k && table[k].transactionId == Get(table[k].event, "transaction_id")
  }

  lemma OneStepWrites(s: System, step: Step)
    requires Enabled(s, step)
    ensures var table, after := s.reports, Apply(s, step).reports;
            && table <= after && |after| <= |table| + 1
            && (|after| > |table| ==>
                  InPlace(after, |table|) && Writes(s, step, after[|table|].event, after[|table|].report))
  {
    if step.HandleOne? {
      var f := s.replicas[step.replica].flight.value;
      HandlingWrites(s.replicas[step.replica].ledger, s.reports, s.parts[f.part].log[f.offset], step.env);
    } else if step.Proceed? && s.requests[step.request].phase.Writing? {
      var r := s.requests[step.request];
      WriteStoresTheEvent(s.reports, r.event, r.phase.report, step.answer.db);
    }
  }

  lemma HandlingWrites(l: Ledger, table: seq<Row>, m: Message, env: Handler.Env)
    ensures var after := Handle(l, MAX_RETRIES, table, m, env).table;
            && table <= after && |after| <= |table| + 1
            && (|after| > |table| ==>
                  && InPlace(after, |table|) && Owed(m) && env.generated == Some(after[|table|].report)
                  && after[|table|].event == m.event)
  {
    if Owed(m) && env.generated.Some? {
      WriteStoresTheEvent(table, m.event, env.generated.value, env.db);
    }
  }

  /** In every state of every run, every stored row stands at its place under its event's transaction id
      and was written, with that event and that report, by a step of the run. */
  lemma EveryRowWasWritten(s: System, run: seq<Step>, k: nat)
    requires s.reports == [] && IsRun(s, run) && k < |After(s, run).reports|
    ensures var row := After(s, run).reports[k];
            InPlace(After(s, run).reports, k) && WrittenIn(s, run, row.event, row.report)
  {
    RowsOfRun(s, run, k);
  }

  lemma {:induction false} RowsOfRun(s: System, run: seq<Step>, k: nat)
    requires IsRun(s, run) && k < |After(s, run).reports|
    requires k < |s.reports| ==> InPlace(s.reports, k)
    ensures s.reports <= After(s, run).reports
    ensures InPlace(After(s, run).reports, k)
    ensures var row := After(s, run).reports[k]; k >= |s.reports| ==> WrittenIn(s, run, row.event, row.report)
    decreases |run|
  {
    if run != [] {
      OneStepWrites(s, run[0]);
      RowsOfRun(Apply(s, run[0]), run[1..], k);
    }
  }

  // ── where a request's event and report come from ───────────────

  ghost predicate Asked(steps: seq<Step>, k: nat, event: Event) {
    exists j | 0 <= j < |steps| :: steps[j] == Ask(k, event)
  }

  ghost predicate AuditAnswered(steps: seq<Step>, k: nat, audit: Event) {
    exists j | 0 <= j < |steps| :: steps[j].Proceed? && steps[j].request == k && steps[j].answer.audit == Some(audit)
  }

  ghost predicate Generated(steps: seq<Step>, k: nat, report: Report) {
    exists j | 0 <= j < |steps| :: steps[j].Proceed? && steps[j].request == k && steps[j].answer.generated == Some(report)
  }

  /** Key by key the caller's value, and where that is blank the audit row's. */
  ghost predicate Fills(full: Event, event: Event, audit: Event) {
    forall key :: Get(full, key) == if Get(event, key) != "" then Get(event, key) else Get(audit, key)
  }

  /** The request holds the event it was asked with, or that event filled up from the audit row it was
      answered; and the report it is about to write was generated for it. */
  ghost predicate HasStory(steps: seq<Step>, k: nat, r: OnDemand.Request) {
    && (exists event :: HoldsEvent(steps, k, r, event))
    && (r.phase.Writing? ==> Generated(steps, k, r.phase.report))
  }

  ghost predicate HoldsEvent(steps: seq<Step>, k: nat, r: OnDemand.Request, event: Event) {
    && Asked(steps, k, event)
    && (r.event == event || (exists audit :: AuditAnswered(steps, k, audit) && Fills(r.event, event, audit)))
    && (r.phase in {OnDemand.Selecting, OnDemand.Hydrating} ==> r.event == event)
  }

  ghost predicate AllHaveStories(steps: seq<Step>, s: System) {
    forall k <- s.requests :: HasStory(steps, k, s.requests[k])
  }

  /** In every state of every run, each request can be told from the steps taken. */
  lemma RequestsHaveStories(s: System, run: seq<Step>)
    requires s.requests == map[] && IsRun(s, run)
    ensures AllHaveStories(run, After(s, run))
  {
    StoriesOfRun([], s, run);
    assert [] + run == run;
  }

  lemma {:induction false} StoriesOfRun(steps: seq<Step>, s: System, run: seq<Step>)
    requires AllHaveStories(steps, s) && IsRun(s, run)
    ensures AllHaveStories(steps + run, After(s, run))
    decreases |run|
  {
    if run == [] {
      assert steps + run == steps;
    } else {
      forall k | k in Apply(s, run[0]).requests ensures HasStory(steps + [run[0]], k, Apply(s, run[0]).requests[k]) {
        OneStory(steps, s, run[0], k);
      }
      StoriesOfRun(steps + [run[0]], Apply(s, run[0]), run[1..]);
      assert steps + [run[0]] + run[1..] == steps + run;
    }
  }

  lemma OneStory(steps: seq<Step>, s: System, step: Step, k: nat)
    requires AllHaveStories(steps, s) && Enabled(s, step) && k in Apply(s, step).requests
    ensures HasStory(steps + [step], k, Apply(s, step).requests[k])
  {
    var more := steps + [step];
    assert more[|steps|] == step;
    if k !in s.requests {
      assert step == Ask(k, step.event);
      assert HoldsEvent(more, k, Apply(s, step).requests[k], step.event);
    } else {
      var r, r' := s.requests[k], Apply(s, step).requests[k];
      StoryStays(steps, step, k, r);
      if step.Proceed? && step.request == k {
        ProceedTells(more, s, step, k);
      } else {
        assert r' == r || r' == r.(phase := OnDemand.Dead);
        DroppedKeeps(more, k, r);
      }
    }
  }

  lemma DroppedKeeps(steps: seq<Step>, k: nat, r: OnDemand.Request)
    requires HasStory(steps, k, r)
    ensures HasStory(steps, k, r.(phase := OnDemand.Dead))
  {
    var event :| HoldsEvent(steps, k, r, event);
    assert HoldsEvent(steps, k, r.(phase := OnDemand.Dead), event);
  }

  lemma StoryStays(steps: seq<Step>, step: Step, k: nat, r: OnDemand.Request)
    requires HasStory(steps, k, r)
    ensures HasStory(steps + [step], k, r)
  {
    var more := steps + [step];
    assert forall j | 0 <= j < |steps| :: more[j] == steps[j];
    var event :| HoldsEvent(steps, k, r, event);
    AskedStays(steps, step, k, event);
    if r.event != event {
      var audit :| AuditAnswered(steps, k, audit) && Fills(r.event, event, audit);
      var j :| 0 <= j < |steps| && steps[j].Proceed? && steps[j].request == k && steps[j].answer.audit == Some(audit);
      assert more[j] == steps[j];
      assert AuditAnswered(more, k, audit);
    }
    assert HoldsEvent(more, k, r, event);
    if r.phase.Writing? {
      var j :| 0 <= j < |steps| && steps[j].Proceed? && steps[j].request == k && steps[j].answer.generated == Some(r.phase.report);
      assert more[j] == steps[j];
      assert Generated(more, k, r.phase.report);
    }
  }

  lemma AskedStays(steps: seq<Step>, step: Step, k: nat, event: Event)
    requires Asked(steps, k, event)
    ensures Asked(steps + [step], k, event)
  {
    var j :| 0 <= j < |steps| && steps[j] == Ask(k, event);
    assert (steps + [step])[j] == steps[j];
  }

  lemma ProceedTells(more: seq<Step>, s: System, step: Step, k: nat)
    requires Enabled(s, step) && step.Proceed? && step.request == k && HasStory(more, k, s.requests[k])
    requires more != [] && more[|more| - 1] == step
    ensures HasStory(more, k, Apply(s, step).requests[k])
  {
    var r, r' := s.requests[k], Apply(s, step).requests[k];
    var event :| HoldsEvent(more, k, r, event);
    if r'.event != r.event {
      HydratedTells(more, k, event, step.answer.audit.value, |more| - 1);
    }
    assert HoldsEvent(more, k, r', event);
    if r'.phase.Writing? && !r.phase.Writing? {
      assert step.answer.generated == Some(r'.phase.report);
    }
  }

  lemma HydratedTells(steps: seq<Step>, k: nat, event: Event, audit: Event, j: nat)
    requires j < |steps| && steps[j].Proceed? && steps[j].request == k && steps[j].answer.audit == Some(audit)
    ensures AuditAnswered(steps, k, audit) && Fills(OnDemand.Hydrate(event, audit), event, audit)
  {
    forall key
      ensures Get(OnDemand.Hydrate(event, audit), key) == if Get(event, key) != "" then Get(event, key) else Get(audit, key)
    {
      OnDemand.CallerWins(event, audit, key);
    }
  }
}
