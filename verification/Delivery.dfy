/** The delivery protocol of the investigation agent: a consumer group on partitioned logs, with
    request threads writing to the same report table. Every step is atomic in the original; any
    sequence of enabled steps is a run. */
module Delivery {
  import opened Wrappers
  import opened ReportStore
  import opened Handler
  import OnDemand

  const MAX_RETRIES: nat := 3

  /** `position` is the owner's in-memory fetch position; it means nothing without an owner. */
  datatype Part = Part(log: seq<Message>, committed: nat, position: nat, owner: Option<nat>)

  /** The one message a replica holds between two polls. A rebalance makes it stale; `done` means
      the handler returned True and the commit is next. */
  datatype Flight = Flight(part: nat, offset: nat, live: bool, done: bool)

  datatype Replica = Replica(ledger: Ledger, flight: Option<Flight>)

  /** One handling, as the history records it. */
  datatype Entry = Entry(part: nat, offset: nat, message: Message, verdict: Verdict, live: bool, poison: bool)

  datatype System = System(
    parts: seq<Part>, replicas: map<nat, Replica>, reports: seq<Row>,
    requests: map<nat, OnDemand.Request>, history: seq<Entry>)

  /** `CommitFailed` is the error a rebalance provokes, which the loop swallows; any other error
      ends the consumer, with or without the broker having applied the commit. */
  datatype CommitOutcome = Applied | CommitFailed | Lost(applied: bool)

  datatype Step =
    | Produce(part: nat, message: Message)
    | Join(replica: nat)
    | Crash(replica: nat)
    | Rebalance(owners: seq<Option<nat>>)
    | Poll(replica: nat, part: nat)
    | HandleOne(replica: nat, env: Handler.Env)
    | Commit(replica: nat, outcome: CommitOutcome)
    | Ask(request: nat, event: Event)
    | Proceed(request: nat, answer: OnDemand.Env)
    | Drop(request: nat)

  predicate Empty(s: System) {
    && s.replicas == map[] && s.reports == [] && s.requests == map[] && s.history == []
    && forall p | 0 <= p < |s.parts| :: s.parts[p] == Part([], 0, 0, None)
  }

  predicate InFlight(s: System, i: nat) {
    i in s.replicas && s.replicas[i].flight.Some?
  }

  predicate Enabled(s: System, step: Step) {
    match step
    case Produce(p, _) => p < |s.parts|
    case Join(i) => i !in s.replicas
    case Crash(i) => i in s.replicas
    case Rebalance(owners) =>
      |owners| == |s.parts| && forall p | 0 <= p < |owners| :: owners[p].Some? ==> owners[p].value in s.replicas
    case Poll(i, p) =>
      && i in s.replicas && s.replicas[i].flight.None?
      && p < |s.parts| && s.parts[p].owner == Some(i) && s.parts[p].position < |s.parts[p].log|
    case HandleOne(i, _) =>
      InFlight(s, i) && var f := s.replicas[i].flight.value; !f.done && f.part < |s.parts| && f.offset < |s.parts[f.part].log|
    case Commit(i, outcome) =>
      && InFlight(s, i) && s.replicas[i].flight.value.done && s.replicas[i].flight.value.part < |s.parts|
      && (s.replicas[i].flight.value.live || outcome in {CommitFailed, Lost(false)})
    case Ask(k, event) => k !in s.requests && Get(event, "transaction_id") != ""
    case Proceed(k, _) => k in s.requests && OnDemand.Running(s.requests[k])
    case Drop(k) => k in s.requests && OnDemand.Running(s.requests[k])
  }

  function Without(parts: seq<Part>, i: nat): seq<Part> {
    seq(|parts|, p requires 0 <= p < |parts| => if parts[p].owner == Some(i) then parts[p].(owner := None) else parts[p])
  }

  function Reassigned(parts: seq<Part>, owners: seq<Option<nat>>): seq<Part>
    requires |owners| == |parts|
  {
    seq(|parts|, p requires 0 <= p < |parts| => parts[p].(owner := owners[p], position := parts[p].committed))
  }

  function Stale(r: Replica): Replica {
    if r.flight.Some? then r.(flight := Some(r.flight.value.(live := false))) else r
  }

  function Advanced(parts: seq<Part>, f: Flight): seq<Part>
    requires f.part < |parts|
  {
    parts[f.part := parts[f.part].(committed := f.offset + 1)]
  }

  /** The history entry and the handler's outcome of handling the message in flight at `i`. */
  function Handling(s: System, i: nat, env: Handler.Env): (Entry, Handled)
    requires Enabled(s, HandleOne(i, env))
  {
    var r, f := s.replicas[i], s.replicas[i].flight.value;
    var m := s.parts[f.part].log[f.offset];
    var out := Handle(r.ledger, MAX_RETRIES, s.reports, m, env);
    (Entry(f.part, f.offset, m, out.verdict, f.live, out.ledger.droppedPoison > r.ledger.droppedPoison), out)
  }

  function Apply(s: System, step: Step): System
    requires Enabled(s, step)
  {
    match step
    case Produce(p, m) => s.(parts := s.parts[p := s.parts[p].(log := s.parts[p].log + [m])])
    case Join(i) => s.(replicas := s.replicas[i := Replica(FRESH, None)])
    case Crash(i) => s.(replicas := s.replicas - {i}, parts := Without(s.parts, i))
    case Rebalance(owners) =>
      s.(parts := Reassigned(s.parts, owners), replicas := map i <- s.replicas :: Stale(s.replicas[i]))
    case Poll(i, p) =>
      var part := s.parts[p];
      s.(parts := s.parts[p := part.(position := part.position + 1)],
         replicas := s.replicas[i := s.replicas[i].(flight := Some(Flight(p, part.position, true, false)))])
    case HandleOne(i, env) =>
      var (entry, out) := Handling(s, i, env);
      var f := s.replicas[i].flight.value;
      s.(history := s.history + [entry], reports := out.table,
         replicas := s.replicas[i := Replica(out.ledger,
           if out.verdict == Returned(true) then Some(f.(done := true)) else None)])
    case Commit(i, outcome) =>
      var f := s.replicas[i].flight.value;
      var landed := if outcome in {Applied, Lost(true)} then Advanced(s.parts, f) else s.parts;
      if outcome.Lost? then s.(parts := Without(landed, i), replicas := s.replicas - {i})
      else s.(parts := landed, replicas := s.replicas[i := s.replicas[i].(flight := None)])
    case Ask(k, event) =>
      s.(requests := s.requests[k := OnDemand.Request(Get(event, "transaction_id"), event, OnDemand.Selecting)])
    case Proceed(k, answer) =>
      var (table, r) := OnDemand.Advance(s.reports, s.requests[k], answer);
      s.(reports := table, requests := s.requests[k := r])
    case Drop(k) =>
      s.(requests := s.requests[k := s.requests[k].(phase := OnDemand.Dead)])
  }

  predicate IsRun(s: System, run: seq<Step>)
    decreases |run|
  {
    run == [] || (Enabled(s, run[0]) && IsRun(Apply(s, run[0]), run[1..]))
  }

  function After(s: System, run: seq<Step>): System
    requires IsRun(s, run)
    decreases |run|
  {
    if run == [] then s else After(Apply(s, run[0]), run[1..])
  }

  // ── what the history says about one offset ─────────────────────

  /** Entry `h` is a handling of the offset under the partition's current assignment. */
  predicate FreshAt(history: seq<Entry>, h: int, p: nat, offset: nat) {
    0 <= h < |history| && history[h].part == p && history[h].offset == offset && history[h].live
  }

  predicate SafeAt(history: seq<Entry>, h: int, p: nat, offset: nat) {
    0 <= h < |history| && history[h].part == p && history[h].offset == offset && history[h].verdict == Returned(true)
  }

  /** Some handling of the offset returned True. */
  ghost predicate HandledSafely(history: seq<Entry>, p: nat, offset: nat) {
    exists h :: SafeAt(history, h, p, offset)
  }

  /** Handling `h` of the offset failed, handling `h'` of a later offset of the same partition
      returned True afterwards, and the offset was not handled again under a live assignment. */
  ghost predicate OvertakenBy(history: seq<Entry>, p: nat, offset: nat, h: int, h': int) {
    && FreshAt(history, h, p, offset) && h < h' < |history|
    && history[h].verdict != Returned(true)
    && history[h'].part == p && history[h'].offset > offset && history[h'].verdict == Returned(true) && history[h'].live
    && forall j :: FreshAt(history, j, p, offset) ==> j < h'
  }

  ghost predicate Overtaken(history: seq<Entry>, p: nat, offset: nat) {
    exists h, h' :: OvertakenBy(history, p, offset, h, h')
  }

  ghost predicate Accounted(history: seq<Entry>, p: nat, offset: nat) {
    HandledSafely(history, p, offset) || Overtaken(history, p, offset)
  }

  // ── the invariant ──────────────────────────────────────────────

  ghost predicate PartsOk(s: System) {
    forall p | 0 <= p < |s.parts| ::
      && s.parts[p].committed <= s.parts[p].position <= |s.parts[p].log|
      && (s.parts[p].owner.Some? ==> s.parts[p].owner.value in s.replicas)
  }

  /** The flight's own success is the last live handling of its partition. */
  ghost predicate LastSuccess(history: seq<Entry>, f: Flight, h: int) {
    && FreshAt(history, h, f.part, f.offset) && history[h].verdict == Returned(true)
    && forall j, o :: FreshAt(history, j, f.part, o) ==> j <= h
  }

  ghost predicate FlightOk(s: System, i: nat, f: Flight) {
    && f.part < |s.parts| && f.offset < |s.parts[f.part].log|
    && (f.live ==>
          && s.parts[f.part].owner == Some(i)
          && s.parts[f.part].position == f.offset + 1
          && s.parts[f.part].committed <= f.offset
          && (f.done ==> exists h :: LastSuccess(s.history, f, h)))
  }

  ghost predicate FlightsOk(s: System) {
    forall i | InFlight(s, i) :: FlightOk(s, i, s.replicas[i].flight.value)
  }

  /** The owner holds this offset and has not handled it yet. */
  ghost predicate Pending(s: System, p: nat, offset: nat)
    requires p < |s.parts|
  {
    && s.parts[p].owner.Some? && InFlight(s, s.parts[p].owner.value)
    && s.replicas[s.parts[p].owner.value].flight == Some(Flight(p, offset, true, false))
  }

  /** Everything an owner fetched beyond the committed offset has been handled, but the message it holds. */
  ghost predicate Covered(s: System) {
    forall p, offset: nat | 0 <= p < |s.parts| && s.parts[p].owner.Some? &&
                            s.parts[p].committed <= offset < s.parts[p].position ::
      Pending(s, p, offset) || exists h :: FreshAt(s.history, h, p, offset)
  }

  ghost predicate CommittedOk(s: System) {
    forall p, offset: nat | 0 <= p < |s.parts| && offset < s.parts[p].committed :: Accounted(s.history, p, offset)
  }

  ghost predicate EntryOk(s: System, e: Entry) {
    && e.part < |s.parts| && e.offset < |s.parts[e.part].log| && s.parts[e.part].log[e.offset] == e.message
    && (Owed(e.message) && e.verdict == Returned(true) ==>
          e.poison || HasReport(s.reports, Get(e.message.event, "transaction_id")))
  }

  ghost predicate TablesOk(s: System) {
    && OneRowPerTransaction(s.reports)
    && (forall e <- s.history :: EntryOk(s, e))
    && (forall k <- s.requests :: OnDemand.RequestOk(s.reports, s.requests[k]))
  }

  ghost predicate Inv(s: System) {
    PartsOk(s) && FlightsOk(s) && Covered(s) && CommittedOk(s) && TablesOk(s)
  }
}
