/** Bulk override in the review queue: a pool of at most five workers over one shared index. */
module BulkOverride {
  import opened Wrappers

  datatype Row = Row(auditId: string, body: string)

  const PARALLELISM := 5

  /** The rows of the queue that are, or are not, selected, in order. */
  function Pick(queue: seq<Row>, selected: set<string>, wanted: bool): seq<Row> {
    if queue == [] then []
    else (if (queue[0].auditId in selected) == wanted then [queue[0]] else []) + Pick(queue[1..], selected, wanted)
  }

  function Upto(n: nat): (places: seq<nat>)
    ensures |places| == n && forall k | 0 <= k < n :: places[k] == k
  {
    if n == 0 then [] else Upto(n - 1) + [n - 1]
  }

  predicate InRange(places: seq<nat>, n: nat) {
    forall i | 0 <= i < |places| :: places[i] < n
  }

  function At(rows: seq<Row>, places: seq<nat>): (picked: seq<Row>)
    requires InRange(places, |rows|)
    ensures |picked| == |places| && forall i | 0 <= i < |places| :: picked[i] == rows[places[i]]
  {
    if places == [] then [] else [rows[places[0]]] + At(rows, places[1..])
  }

  ghost predicate Distinct(places: seq<nat>) {
    forall i, j | 0 <= i < j < |places| :: places[i] != places[j]
  }

  /** `calls` lists the targets in the order their override was requested, `failures` in the order
      the requests were refused, `peak` the most requests ever in flight. */
  datatype Result = Result(queue: seq<Row>, calls: seq<nat>, failures: seq<nat>, succeeded: nat, peak: int)

  /** `accepts(k)` is the server's answer to the one request for target k. */
  method DoBulk(running: bool, queue: seq<Row>, selected: set<string>, accepts: nat -> bool) returns (r: Result)
    ensures running || Pick(queue, selected, true) == [] ==> r == Result(queue, [], [], 0, 0)
    ensures var targets := Pick(queue, selected, true);
            !running && targets != [] ==>
              && r.calls == Upto(|targets|)
              && r.peak == (if |targets| < 5 then |targets| else 5)
              && AreTheRefused(r.failures, |targets|, accepts)
              && r.succeeded == |targets| - |r.failures|
              && r.queue == At(targets, r.failures) + Pick(queue, selected, false)
  {
    var targets := Pick(queue, selected, true);
    if running || targets == [] {
      return Result(queue, [], [], 0, 0);
    }
    var calls, failures, peak := RunPool(|targets|, accepts);
    FailuresFit(|targets|, accepts, failures);
    r := Result(At(targets, failures) + Pick(queue, selected, false), calls, failures, |targets| - |failures|, peak);
  }

  /** Exactly the targets below n that the server refuses, each once, in some order. */
  ghost predicate AreTheRefused(failures: seq<nat>, n: nat, accepts: nat -> bool) {
    InRange(failures, n) && Distinct(failures) && forall k: nat :: k in failures <==> k < n && !accepts(k)
  }

  /** The worker pool. Each worker holds the target whose request it waits for. Which request settles
      next is left open, so the contract holds for every order of the replies. */
  method RunPool(n: nat, accepts: nat -> bool) returns (calls: seq<nat>, failures: seq<nat>, peak: int)
    ensures calls == Upto(n)
    ensures peak == if n < PARALLELISM then n else PARALLELISM
    ensures AreTheRefused(failures, n, accepts)
  {
    var workers;
    workers, calls := StartWorkers(n);
    var i: nat := |workers|;
    var inFlight: int := i;
    failures, peak := [], i;
    ghost var settled: set<nat> := {};
    PoolStarts(workers, n, accepts);
    while exists w | 0 <= w < |workers| :: workers[w].Some?
      invariant i <= n && calls == Upto(i)
      invariant inFlight == i - |settled| <= peak == |workers|
      invariant Pool(workers, i, n, settled) && AreTheSettledRefused(failures, settled, accepts)
      invariant |workers| == if n < PARALLELISM then n else PARALLELISM
      decreases n - |settled|
    {
      var w: nat :| w < |workers| && workers[w].Some?;
      var mine := workers[w].value;
      var next := if i < n then Some(i) else None;
      PoolKept(workers, i, n, settled, w);
      RefusedGrow(failures, settled, mine, accepts);
      if !accepts(mine) {
        failures := failures + [mine];
      }
      workers := workers[w := next];
      settled := settled + {mine};
      inFlight := inFlight - 1;
      if next.Some? {
        calls := calls + [i];
        i := i + 1;
        inFlight := inFlight + 1;
        peak := Max(peak, inFlight);
      }
    }
    PoolEnds(workers, i, n, settled, failures, accepts);
  }

  function Max(a: int, b: int): int {
    if a < b then b else a
  }

  /** Each new worker requests one target before it first waits. */
  method StartWorkers(n: nat) returns (workers: seq<Option<nat>>, calls: seq<nat>)
    ensures |workers| == if n < PARALLELISM then n else PARALLELISM
    ensures calls == Upto(|workers|)
    ensures forall w | 0 <= w < |workers| :: workers[w] == Some(w)
  {
    workers, calls := [], [];
    var i: nat := 0;
    while |workers| < PARALLELISM && |workers| < n
      invariant i == |workers| <= PARALLELISM && i <= n
      invariant calls == Upto(i)
      invariant forall w | 0 <= w < |workers| :: workers[w] == Some(w)
    {
      workers := workers + [Some(i)];
      calls := calls + [i];
      i := i + 1;
    }
  }

  /** Every target requested so far is settled or in flight at exactly one worker, and no worker
      idles while a target is left to request. */
  ghost predicate Pool(workers: seq<Option<nat>>, i: nat, n: nat, settled: set<nat>) {
    && i <= n && |workers| <= n
    && (forall k <- settled :: k < i)
    && (forall k: nat | k < i && k !in settled :: Working(workers, k))
    && (forall w | 0 <= w < |workers| && workers[w].Some? :: workers[w].value < i && workers[w].value !in settled)
    && (forall v, w | 0 <= v < w < |workers| && workers[v].Some? :: workers[v] != workers[w])
    && (i < n ==> forall w | 0 <= w < |workers| :: workers[w].Some?)
  }

  ghost predicate AreTheSettledRefused(failures: seq<nat>, settled: set<nat>, accepts: nat -> bool) {
    Distinct(failures) && forall k: nat :: k in failures <==> k in settled && !accepts(k)
  }

  /** Some worker has the request for target k in flight. */
  ghost predicate Working(workers: seq<Option<nat>>, k: nat) {
    exists w :: 0 <= w < |workers| && workers[w] == Some(k)
  }

  lemma PoolStarts(workers: seq<Option<nat>>, n: nat, accepts: nat -> bool)
    requires |workers| <= n && forall w | 0 <= w < |workers| :: workers[w] == Some(w)
    ensures Pool(workers, |workers|, n, {}) && AreTheSettledRefused([], {}, accepts)
  {
    forall k: nat | k < |workers| ensures Working(workers, k) {
      assert workers[k] == Some(k);
    }
  }

  /** One request settles and its worker takes the next target, if there is one. */
  lemma PoolKept(workers: seq<Option<nat>>, i: nat, n: nat, settled: set<nat>, w: nat)
    requires Pool(workers, i, n, settled) && w < |workers| && workers[w].Some?
    ensures var next := if i < n then Some(i) else None;
            Pool(workers[w := next], if i < n then i + 1 else i, n, settled + {workers[w].value})
    ensures workers[w].value !in settled && |settled + {workers[w].value}| == |settled| + 1 <= n
  {
    var next := if i < n then Some(i) else None;
    var mine := workers[w].value;
    FewerThan(settled + {mine}, i);
    forall k: nat | (k < i && k !in settled && k != mine) || next == Some(k) ensures Working(workers[w := next], k) {
      NextWorker(workers, w, next, k);
    }
  }

  lemma NextWorker(workers: seq<Option<nat>>, w: nat, next: Option<nat>, k: nat)
    requires w < |workers| && ((Working(workers, k) && workers[w] != Some(k)) || next == Some(k))
    ensures Working(workers[w := next], k)
  {
    if next == Some(k) {
      assert workers[w := next][w] == Some(k);
    } else {
      var v :| 0 <= v < |workers| && workers[v] == Some(k);
      assert workers[w := next][v] == Some(k);
    }
  }

  lemma RefusedGrow(failures: seq<nat>, settled: set<nat>, mine: nat, accepts: nat -> bool)
    requires AreTheSettledRefused(failures, settled, accepts) && mine !in settled
    ensures AreTheSettledRefused(if accepts(mine) then failures else failures + [mine], settled + {mine}, accepts)
  {
    assert forall j | 0 <= j < |failures| :: failures[j] in failures;
  }

  lemma FewerThan(s: set<nat>, n: nat)
    requires forall k <- s :: k < n
    ensures |s| <= n
  {
    if n > 0 {
      FewerThan(s - {n - 1}, n - 1);
    }
  }

  lemma PoolEnds(workers: seq<Option<nat>>, i: nat, n: nat, settled: set<nat>, failures: seq<nat>, accepts: nat -> bool)
    requires Pool(workers, i, n, settled) && forall w | 0 <= w < |workers| :: workers[w].None?
    requires AreTheSettledRefused(failures, settled, accepts)
    requires n > 0 ==> |workers| > 0
    ensures i == n && AreTheRefused(failures, n, accepts)
  {
    assert n > 0 ==> workers[0].None?;
    assert forall k: nat | k < n && k !in settled :: Working(workers, k);
    assert forall j | 0 <= j < |failures| :: failures[j] in failures;
  }

  /** Selection splits the queue: nothing is lost or copied by the optimistic removal. */
  lemma {:induction false} PickSplits(queue: seq<Row>, selected: set<string>)
    ensures multiset(Pick(queue, selected, true)) + multiset(Pick(queue, selected, false)) == multiset(queue)
    ensures forall row <- Pick(queue, selected, true) :: row.auditId in selected
    ensures forall row <- Pick(queue, selected, false) :: row.auditId !in selected
  {
    if queue != [] {
      PickSplits(queue[1..], selected);
      assert queue == [queue[0]] + queue[1..];
    }
  }

  /** The places below n that are accepted, in order. */
  function Accepted(n: nat, accepts: nat -> bool): (places: seq<nat>)
    ensures InRange(places, n) && Distinct(places) && forall k: nat :: k in places <==> k < n && accepts(k)
  {
    if n == 0 then [] else Accepted(n - 1, accepts) + if accepts(n - 1) then [n - 1] else []
  }

  /** Conservation: the rows overridden and the rows left in the queue are together the rows of the
      queue before, each as often as before; so a refused row is never lost and an accepted one is gone. */
  lemma RowsAreConserved(queue: seq<Row>, selected: set<string>, accepts: nat -> bool, failures: seq<nat>)
    requires AreTheRefused(failures, |Pick(queue, selected, true)|, accepts)
    ensures var targets := Pick(queue, selected, true);
            && InRange(Accepted(|targets|, accepts), |targets|)
            && multiset(At(targets, Accepted(|targets|, accepts))) +
               multiset(At(targets, failures) + Pick(queue, selected, false)) == multiset(queue)
  {
    var targets := Pick(queue, selected, true);
    PickSplits(queue, selected);
    FailuresFit(|targets|, accepts, failures);
    AtConcatenates(targets, Accepted(|targets|, accepts), failures);
    EveryPlaceOnce(targets, Accepted(|targets|, accepts) + failures);
  }

  /** Accepted and refused targets together are every target once. */
  lemma FailuresFit(n: nat, accepts: nat -> bool, failures: seq<nat>)
    requires AreTheRefused(failures, n, accepts)
    ensures var all := Accepted(n, accepts) + failures;
            |all| == n && InRange(all, n) && Distinct(all) && forall k: nat :: k in all <==> k < n
  {
    var accepted := Accepted(n, accepts);
    assert forall j | 0 <= j < |accepted| :: accepted[j] in accepted;
    assert forall j | 0 <= j < |failures| :: failures[j] in failures;
    AsManyAsPlaces(accepted + failures, n);
  }

  lemma FirstIsIn(places: seq<nat>)
    requires places != []
    ensures places[0] in places
  {
  }

  lemma {:induction false} AsManyAsPlaces(places: seq<nat>, n: nat)
    requires Distinct(places) && forall k: nat :: k in places <==> k < n
    ensures |places| == n
  {
    if n == 0 {
      if places != [] { FirstIsIn(places); }
    } else {
      var last: nat := n - 1;
      assert last in places;
      var i: nat :| i < |places| && places[i] == last;
      WithoutOne(places, i, last);
      AsManyAsPlaces(places[..i] + places[i + 1..], last);
    }
  }

  lemma {:induction false} AtConcatenates(rows: seq<Row>, a: seq<nat>, b: seq<nat>)
    requires InRange(a, |rows|)
    requires InRange(b, |rows|)
    ensures InRange(a + b, |rows|)
    ensures At(rows, a + b) == At(rows, a) + At(rows, b)
  {
  }

  /** Visiting every place once visits every row once. */
  lemma {:induction false} EveryPlaceOnce(rows: seq<Row>, places: seq<nat>)
    requires InRange(places, |rows|) && Distinct(places) && forall k: nat :: k in places <==> k < |rows|
    ensures multiset(At(rows, places)) == multiset(rows)
    decreases |rows|
  {
    if rows == [] {
      if places != [] { FirstIsIn(places); }
    } else {
      var last: nat := |rows| - 1;
      assert last in places;
      var i: nat :| i < |places| && places[i] == last;
      WithoutOne(places, i, last);
      TakeOneOut(rows, places, i, last);
      EveryPlaceOnce(rows[..last], places[..i] + places[i + 1..]);
      SetAside(rows, last);
      assert rows[..last] + rows[last + 1..] == rows[..last];
    }
  }

  lemma TakeOneOut(rows: seq<Row>, places: seq<nat>, i: nat, last: nat)
    requires InRange(places, |rows|) && i < |places| && |rows| == last + 1
    requires places[i] == last && InRange(places[..i] + places[i + 1..], last)
    ensures multiset(At(rows, places)) == multiset(At(rows[..last], places[..i] + places[i + 1..])) + multiset([rows[last]])
  {
    VisitOthers(rows, places, i, last);
    SetAside(At(rows, places), i);
  }

  lemma SetAside(s: seq<Row>, i: nat)
    requires i < |s|
    ensures multiset(s) == multiset(s[..i] + s[i + 1..]) + multiset([s[i]])
  {
    assert s == s[..i] + [s[i]] + s[i + 1..];
  }

  lemma VisitOthers(rows: seq<Row>, places: seq<nat>, i: nat, last: nat)
    requires InRange(places, |rows|) && i < |places| && |rows| == last + 1
    requires InRange(places[..i] + places[i + 1..], last)
    ensures var visited := At(rows, places);
            At(rows[..last], places[..i] + places[i + 1..]) == visited[..i] + visited[i + 1..]
  {
    var visited := At(rows, places);
    var others := places[..i] + places[i + 1..];
    var rest := At(rows[..last], others);
    forall j | 0 <= j < |rest| ensures rest[j] == (visited[..i] + visited[i + 1..])[j] {
      assert others[j] == places[if j < i then j else j + 1];
    }
  }

  lemma WithoutOne(places: seq<nat>, i: nat, last: nat)
    requires Distinct(places) && i < |places| && places[i] == last && forall k: nat :: k in places <==> k <= last
    ensures var others := places[..i] + places[i + 1..];
            Distinct(others) && InRange(others, last) && forall k: nat :: k in others <==> k < last
  {
    var others := places[..i] + places[i + 1..];
    forall j | 0 <= j < |others| ensures others[j] < last {
      assert others[j] in places;
    }
    forall k: nat | k < last ensures k in others {
      assert k in places;
      var j :| 0 <= j < |places| && places[j] == k;
      assert others[if j < i then j else j - 1] == k;
    }
  }

  /** The places of the rows that are, or are not, selected. */
  function PickedPlaces(queue: seq<Row>, selected: set<string>, wanted: bool): seq<nat> {
    if queue == [] then []
    else
      var last := |queue| - 1;
      PickedPlaces(queue[..last], selected, wanted) + if (queue[last].auditId in selected) == wanted then [last] else []
  }

  /** The rows stand at increasing places of the queue, exactly those of the rows wanted. */
  ghost predicate ArePicked(rows: seq<Row>, places: seq<nat>, queue: seq<Row>, selected: set<string>, wanted: bool) {
    && |rows| == |places|
    && (forall i | 0 <= i < |places| :: places[i] < |queue| && rows[i] == queue[places[i]])
    && (forall i, j | 0 <= i < j < |places| :: places[i] < places[j])
    && (forall k: nat :: k in places <==> k < |queue| && (wanted <==> queue[k].auditId in selected))
  }

  /** Picking keeps the order of the queue. */
  lemma {:induction false} PickKeepsTheOrder(queue: seq<Row>, selected: set<string>, wanted: bool)
    ensures ArePicked(Pick(queue, selected, wanted), PickedPlaces(queue, selected, wanted), queue, selected, wanted)
  {
    if queue != [] {
      var last := |queue| - 1;
      PickKeepsTheOrder(queue[..last], selected, wanted);
      PickOneMore(queue[..last], queue[last], selected, wanted);
      OneMoreIsPicked(Pick(queue[..last], selected, wanted), PickedPlaces(queue[..last], selected, wanted),
                      queue[..last], queue[last], selected, wanted);
      assert queue == queue[..last] + [queue[last]];
    }
  }

  lemma OneMoreIsPicked(
      rows: seq<Row>, places: seq<nat>, queue: seq<Row>, next: Row, selected: set<string>, wanted: bool)
    requires ArePicked(rows, places, queue, selected, wanted)
    ensures var picked := (next.auditId in selected) == wanted;
            ArePicked(rows + if picked then [next] else [], places + if picked then [|queue|] else [],
                      queue + [next], selected, wanted)
  {
    assert forall i | 0 <= i < |places| :: places[i] in places;
  }

  lemma {:induction false} PickOneMore(queue: seq<Row>, row: Row, selected: set<string>, wanted: bool)
    ensures Pick(queue + [row], selected, wanted) ==
            Pick(queue, selected, wanted) + if (row.auditId in selected) == wanted then [row] else []
  {
    if queue == [] {
      assert [row][1..] == [];
    } else {
      assert (queue + [row])[1..] == queue[1..] + [row];
      PickOneMore(queue[1..], row, selected, wanted);
    }
  }
}
