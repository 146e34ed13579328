/** Feeding verified labels into the drift windows: a watermarked, limited query polled over an
    append-only table. */
module DriftFeed {
  import opened Wrappers
  import opened PythonText
  import opened DriftWindows

  /** One joined row: the audited decision and its verified outcome. */
  datatype LabelRow = LabelRow(score: Option<real>, decision: string, fraud: bool, recordedAt: int)

  function SampleOf(r: LabelRow): Sample {
    Sample(if Upper(r.decision) == "DECLINE" then 1 else 0, if r.fraud then 1 else 0,
           if r.score.Some? then r.score.value else 0.0)
  }

  function Newer(table: seq<LabelRow>, mark: int): seq<LabelRow> {
    if table == [] then []
    else (if table[0].recordedAt > mark then [table[0]] else []) + Newer(table[1..], mark)
  }

  /** The rows a poll reads, of a table in timestamp order. */
  function Query(table: seq<LabelRow>, mark: int, limit: nat): seq<LabelRow> {
    var rows := Newer(table, mark);
    if |rows| <= limit then rows else rows[..limit]
  }

  function LatestStamp(rows: seq<LabelRow>, mark: int): int {
    if rows == [] then mark
    else
      var before, last := LatestStamp(rows[..|rows| - 1], mark), rows[|rows| - 1].recordedAt;
      if last > before then last else before
  }

  function PushAll(w: Windows, rows: seq<LabelRow>): Windows {
    if rows == [] then w else Push(PushAll(w, rows[..|rows| - 1]), SampleOf(rows[|rows| - 1]))
  }

  /** How many of n rows the detector takes before it raises, if it does. */
  function Taken(n: nat, raisesAt: Option<nat>): nat {
    if raisesAt.Some? && raisesAt.value < n then raisesAt.value else n
  }

  datatype FeedState = FeedState(mark: int, windows: Windows, samplesFed: nat)

  /** One poll. When the detector raises, the rows before that one stay in the windows and the
      watermark stays where it was. */
  function PollOnce(f: FeedState, rows: seq<LabelRow>, raisesAt: Option<nat>): FeedState {
    var k := Taken(|rows|, raisesAt);
    var windows := PushAll(f.windows, rows[..k]);
    if k < |rows| then f.(windows := windows)
    else FeedState(LatestStamp(rows, f.mark), windows, f.samplesFed + |rows|)
  }

  /** The newest entries of the three windows, as far as the window size goes, are the rows in reverse:
      whether the decision was to decline, whether it was fraud, and the score. */
  ghost predicate TookNewest(w: Windows, rows: seq<LabelRow>) {
    forall j | 0 <= j < |rows| && j < w.size :: NewestIs(w, rows, j)
  }

  /** The j-th newest entries are those of the j-th row from the end. */
  ghost predicate NewestIs(w: Windows, rows: seq<LabelRow>, j: nat) {
    j < |rows| &&
    var row := rows[|rows| - 1 - j];
    && j < |w.predictions| && j < |w.actuals| && j < |w.probabilities|
    && w.predictions[|w.predictions| - 1 - j] == (if SpellsDecline(row.decision) then 1 else 0)
    && w.actuals[|w.actuals| - 1 - j] == (if row.fraud then 1 else 0)
    && w.probabilities[|w.probabilities| - 1 - j] == (if row.score == None then 0.0 else row.score.value)
  }

  lemma {:induction false} NewestAreTheRows(w: Windows, rows: seq<LabelRow>)
    ensures PushAll(w, rows).size == w.size && TookNewest(PushAll(w, rows), rows)
  {
    if rows != [] {
      var before, last := rows[..|rows| - 1], rows[|rows| - 1];
      NewestAreTheRows(w, before);
      OneMoreIsTaken(PushAll(w, before), before, last);
      assert rows == before + [last];
    }
  }

  lemma OneMoreIsTaken(w: Windows, rows: seq<LabelRow>, next: LabelRow)
    requires TookNewest(w, rows)
    ensures TookNewest(Push(w, SampleOf(next)), rows + [next])
  {
    var more := rows + [next];
    forall j: nat | j < |more| && j < w.size ensures NewestIs(Push(w, SampleOf(next)), more, j) {
      if j == 0 {
        PushedIsNewest(w, rows, next);
      } else {
        assert NewestIs(w, rows, j - 1);
        OthersMoveBack(w, rows, next, j - 1);
      }
    }
  }

  lemma PushedIsNewest(w: Windows, rows: seq<LabelRow>, next: LabelRow)
    requires w.size > 0
    ensures NewestIs(Push(w, SampleOf(next)), rows + [next], 0)
  {
    UpperIsDeclineIff(next.decision);
  }

  lemma OthersMoveBack(w: Windows, rows: seq<LabelRow>, next: LabelRow, j: nat)
    requires j + 1 < w.size && NewestIs(w, rows, j)
    ensures NewestIs(Push(w, SampleOf(next)), rows + [next], j + 1)
  {
    assert (rows + [next])[|rows| - 1 - j] == rows[|rows| - 1 - j];
  }

  class LabelFeed {
    const detector: DriftDetector
    const limit: nat
    var watermark: int
    var samplesFed: nat

    function State(): FeedState
      reads this, detector
    {
      FeedState(watermark, detector.State(), samplesFed)
    }

    constructor (detector: DriftDetector, limit: nat)
      ensures this.detector == detector && this.limit == limit && watermark == 0 && samplesFed == 0
    {
      this.detector, this.limit, watermark, samplesFed := detector, limit, 0, 0;
    }

    /** Returns the number of rows fed, or nothing when the detector raised. */
    method FeedDriftFromLabels(table: seq<LabelRow>, raisesAt: Option<nat>) returns (fed: Option<nat>)
      modifies this, detector
      ensures State() == PollOnce(old(State()), Query(table, old(watermark), limit), raisesAt)
      ensures var rows := Query(table, old(watermark), limit);
              fed == if Taken(|rows|, raisesAt) < |rows| then None else Some(|rows|)
      ensures fed.Some? ==> TookNewest(detector.State(), Query(table, old(watermark), limit))
    {
      var rows := Query(table, watermark, limit);
      var count, newest := FeedRows(rows, raisesAt);
      assert rows[..|rows|] == rows;
      if count < |rows| {
        return None;
      }
      NewestAreTheRows(old(detector.State()), rows);
      if count > 0 {
        watermark := newest;
        samplesFed := samplesFed + count;
      }
      return Some(count);
    }

    /** The loop of the poll: how many rows the detector took, and the newest timestamp among them. */
    method FeedRows(rows: seq<LabelRow>, raisesAt: Option<nat>) returns (count: nat, newest: int)
      modifies detector
      ensures count == Taken(|rows|, raisesAt)
      ensures newest == LatestStamp(rows[..count], watermark)
      ensures detector.State() == PushAll(old(detector.State()), rows[..count])
    {
      count, newest := 0, watermark;
      while count < |rows|
        invariant count <= Taken(|rows|, raisesAt)
        invariant newest == LatestStamp(rows[..count], watermark)
        invariant detector.State() == PushAll(old(detector.State()), rows[..count])
      {
        if raisesAt == Some(count) {
          return;
        }
        OneMoreRow(old(detector.State()), rows, count, watermark);
        detector.Update(SampleOf(rows[count]));
        newest := if rows[count].recordedAt > newest then rows[count].recordedAt else newest;
        count := count + 1;
      }
    }
  }

  lemma OneMoreRow(w: Windows, rows: seq<LabelRow>, k: nat, mark: int)
    requires k < |rows|
    ensures PushAll(w, rows[..k + 1]) == Push(PushAll(w, rows[..k]), SampleOf(rows[k]))
    ensures var before := LatestStamp(rows[..k], mark);
            LatestStamp(rows[..k + 1], mark) == if rows[k].recordedAt > before then rows[k].recordedAt else before
  {
    assert rows[..k + 1][..k] == rows[..k];
  }

  // ── polls over a growing table ─────────────────────────────────

  ghost predicate Sorted(table: seq<LabelRow>) {
    forall i, j | 0 <= i <= j < |table| :: table[i].recordedAt <= table[j].recordedAt
  }

  /** The first index whose timestamp lies past the mark. */
  function FirstAfter(table: seq<LabelRow>, mark: int): (k: nat)
    ensures k <= |table|
    ensures k < |table| ==> table[k].recordedAt > mark
    ensures forall i | 0 <= i < k :: table[i].recordedAt <= mark
  {
    if table == [] || table[0].recordedAt > mark then 0
    else
      var k := FirstAfter(table[1..], mark) + 1;
      assert forall i | 1 <= i < |table| :: table[i] == table[1..][i - 1];
      k
  }

  lemma {:induction false} NewerIsASuffix(table: seq<LabelRow>, mark: int)
    requires Sorted(table)
    ensures Newer(table, mark) == table[FirstAfter(table, mark)..]
  {
    if table != [] {
      var rest, k := table[1..], FirstAfter(table[1..], mark);
      assert Sorted(rest) by {
        assert forall i | 0 <= i < |rest| :: rest[i] == table[i + 1];
      }
      NewerIsASuffix(rest, mark);
      if table[0].recordedAt > mark {
        NoneOlder(table, mark);
      } else {
        assert FirstAfter(table, mark) == k + 1;
        assert Newer(table, mark) == rest[k..] == table[k + 1..];
      }
    }
  }

  lemma NoneOlder(table: seq<LabelRow>, mark: int)
    requires Sorted(table) && table != [] && table[0].recordedAt > mark && Newer(table[1..], mark) == table[1..][FirstAfter(table[1..], mark)..]
    ensures Newer(table, mark) == table && FirstAfter(table, mark) == 0
  {
    var rest := table[1..];
    assert rest != [] ==> rest[0].recordedAt >= table[0].recordedAt;
    assert rest[0..] == rest;
    assert [table[0]] + rest == table;
  }

  lemma {:induction false} LatestOfSorted(rows: seq<LabelRow>, mark: int)
    requires Sorted(rows) && rows != [] && rows[0].recordedAt > mark
    ensures LatestStamp(rows, mark) == rows[|rows| - 1].recordedAt
  {
    if |rows| > 1 {
      var before := rows[..|rows| - 1];
      assert before[0] == rows[0] && before[|before| - 1] == rows[|rows| - 2];
      LatestOfSorted(before, mark);
    } else {
      assert rows[..0] == [];
    }
  }

  /** A history of polls: each sees the table as far as it had grown, and none raises. */
  datatype Past = Past(mark: int, fed: seq<LabelRow>, consumed: nat)

  /** One poll that sees the first `visible` rows of the final table. */
  function Poll(table: seq<LabelRow>, p: Past, visible: nat, limit: nat): Past
    requires visible <= |table|
  {
    var rows := Query(table[..visible], p.mark, limit);
    Past(LatestStamp(rows, p.mark), p.fed + rows,
         if rows == [] then p.consumed else FirstAfter(table[..visible], p.mark) + |rows|)
  }

  /** `seen` holds, poll by poll, how many rows of the final table existed. */
  function Polls(table: seq<LabelRow>, seen: seq<nat>, limit: nat): Past
    requires forall i | 0 <= i < |seen| :: seen[i] <= |table|
  {
    if seen == [] then Past(0, [], 0)
    else Poll(table, Polls(table, seen[..|seen| - 1], limit), seen[|seen| - 1], limit)
  }

  ghost predicate Growing(table: seq<LabelRow>, seen: seq<nat>) {
    && Sorted(table)
    && (forall i | 0 <= i < |table| :: table[i].recordedAt > 0)
    && (forall i | 0 <= i < |seen| :: seen[i] <= |table|)
    && (forall i, j | 0 <= i <= j < |seen| :: seen[i] <= seen[j])
  }

  lemma GrowingPrefix(table: seq<LabelRow>, seen: seq<nat>)
    requires Growing(table, seen) && seen != []
    ensures Growing(table, seen[..|seen| - 1])
    ensures Sorted(table[..seen[|seen| - 1]])
  {
    assert forall i | 0 <= i < |seen| - 1 :: seen[..|seen| - 1][i] == seen[i];
  }

  /** Rows with one timestamp on both sides of what has been consumed: the mark cannot tell them apart. */
  predicate Straddles(table: seq<LabelRow>, consumed: nat) {
    0 < consumed < |table| && table[consumed - 1].recordedAt == table[consumed].recordedAt
  }

  /** The mark is the timestamp of the last row consumed. */
  ghost predicate MarkOk(table: seq<LabelRow>, p: Past) {
    && p.consumed <= |table|
    && p.mark == if p.consumed == 0 then 0 else table[p.consumed - 1].recordedAt
  }

  lemma QueryIsASlice(table: seq<LabelRow>, mark: int, limit: nat)
    requires Sorted(table)
    ensures var start := FirstAfter(table, mark);
            Query(table, mark, limit) == table[start..if start + limit <= |table| then start + limit else |table|]
  {
    NewerIsASuffix(table, mark);
  }

  lemma FirstAfterOfPrefix(table: seq<LabelRow>, visible: nat, mark: int)
    requires Sorted(table) && visible <= |table|
    ensures FirstAfter(table[..visible], mark) == if FirstAfter(table, mark) < visible then FirstAfter(table, mark) else visible
  {
    var all, part := FirstAfter(table, mark), FirstAfter(table[..visible], mark);
    assert part < visible ==> table[part] == table[..visible][part];
    assert all < visible ==> table[all] == table[..visible][all];
  }

  lemma MarkCoversConsumed(table: seq<LabelRow>, p: Past)
    requires Sorted(table) && MarkOk(table, p)
    ensures p.consumed <= FirstAfter(table, p.mark)
  {
    if p.consumed > 0 {
      var k := FirstAfter(table, p.mark);
      assert k < |table| ==> table[k].recordedAt > table[p.consumed - 1].recordedAt;
    }
  }

  /** What one more poll does, in terms of places in the final table: it reads one slice, which
      starts at the first row past the mark. */
  function Next(table: seq<LabelRow>, p: Past, visible: nat, limit: nat): Past
    requires visible <= |table|
  {
    var start := FirstAfter(table, p.mark);
    if start >= visible || limit == 0 then p
    else
      var end := if start + limit <= visible then start + limit else visible;
      Past(table[end - 1].recordedAt, p.fed + table[start..end], end)
  }

  /** What the query of one poll returns, as a slice of the final table. */
  lemma PollReads(table: seq<LabelRow>, visible: nat, mark: int, limit: nat)
    requires Sorted(table) && visible <= |table|
    ensures var start := FirstAfter(table, mark);
            var end := if start + limit <= visible then start + limit else visible;
            var rows := Query(table[..visible], mark, limit);
            if start >= visible || limit == 0 then rows == []
            else rows == table[start..end] && FirstAfter(table[..visible], mark) == start
  {
    var part := table[..visible];
    QueryIsASlice(part, mark, limit);
    FirstAfterOfPrefix(table, visible, mark);
    var start := FirstAfter(table, mark);
    if start < visible {
      var end := if start + limit <= visible then start + limit else visible;
      SliceOfPrefix(table, start, end, visible);
    }
  }

  lemma SliceOfPrefix(table: seq<LabelRow>, a: nat, b: nat, visible: nat)
    requires a <= b <= visible <= |table|
    ensures table[..visible][a..b] == table[a..b]
  {
  }

  lemma LatestOfSlice(table: seq<LabelRow>, start: nat, end: nat, mark: int)
    requires Sorted(table) && start < end <= |table| && table[start].recordedAt > mark
    ensures LatestStamp(table[start..end], mark) == table[end - 1].recordedAt
  {
    var rows := table[start..end];
    assert Sorted(rows) by {
      assert forall i | 0 <= i < |rows| :: rows[i] == table[start + i];
    }
    LatestOfSorted(rows, mark);
  }

  lemma PollIsNext(table: seq<LabelRow>, p: Past, visible: nat, limit: nat)
    requires Sorted(table) && visible <= |table|
    ensures Poll(table, p, visible, limit) == Next(table, p, visible, limit)
  {
    PollReads(table, visible, p.mark, limit);
    var start := FirstAfter(table, p.mark);
    if start < visible && limit > 0 {
      LatestOfSlice(table, start, if start + limit <= visible then start + limit else visible, p.mark);
    }
  }

  lemma {:induction false} PollsKeepTheMark(table: seq<LabelRow>, seen: seq<nat>, limit: nat)
    requires Growing(table, seen)
    ensures MarkOk(table, Polls(table, seen, limit))
    ensures seen != [] ==> MarkOk(table, Polls(table, seen[..|seen| - 1], limit))
    ensures seen != [] ==>
              Polls(table, seen, limit) == Next(table, Polls(table, seen[..|seen| - 1], limit), seen[|seen| - 1], limit)
  {
    if seen != [] {
      GrowingPrefix(table, seen);
      PollsKeepTheMark(table, seen[..|seen| - 1], limit);
      PollIsNext(table, Polls(table, seen[..|seen| - 1], limit), seen[|seen| - 1], limit);
    }
  }

  /** Over any number of polls of a growing table, the rows fed lie at strictly increasing places
      of it, so no row is ever fed twice, whatever the timestamps. */
  lemma {:induction false} NoRowIsFedTwice(table: seq<LabelRow>, seen: seq<nat>, limit: nat) returns (places: seq<nat>)
    requires Growing(table, seen)
    ensures PlacesOf(table, Polls(table, seen, limit), places)
  {
    PollsKeepTheMark(table, seen, limit);
    if seen == [] {
      return [];
    }
    GrowingPrefix(table, seen);
    places := NoRowIsFedTwice(table, seen[..|seen| - 1], limit);
    var before, p := Polls(table, seen[..|seen| - 1], limit), Polls(table, seen, limit);
    MarkCoversConsumed(table, before);
    var start := FirstAfter(table, before.mark);
    if start < seen[|seen| - 1] && limit > 0 {
      places := ExtendPlaces(table, before, start, p.consumed, places);
    }
  }

  ghost predicate PlacesOf(table: seq<LabelRow>, p: Past, places: seq<nat>) {
    && |places| == |p.fed| && p.consumed <= |table|
    && (forall i | 0 <= i < |places| :: places[i] < p.consumed && table[places[i]] == p.fed[i])
    && (forall i, j | 0 <= i < j < |places| :: places[i] < places[j])
  }

  lemma ExtendPlaces(table: seq<LabelRow>, p: Past, start: nat, end: nat, places: seq<nat>) returns (more: seq<nat>)
    requires PlacesOf(table, p, places) && p.consumed <= start < end <= |table|
    ensures PlacesOf(table, Past(table[end - 1].recordedAt, p.fed + table[start..end], end), more)
  {
    more := places + seq(end - start, i => start + i);
  }

  /** The next poll starts exactly where the last one ended if and only if that boundary does not
      split a group of equal timestamps; otherwise it leaves out the rest of the group. */
  lemma NextPollSkipsNothingIff(table: seq<LabelRow>, seen: seq<nat>, limit: nat)
    requires Growing(table, seen)
    ensures var p := Polls(table, seen, limit);
            && p.consumed <= FirstAfter(table, p.mark)
            && (FirstAfter(table, p.mark) == p.consumed <==> !Straddles(table, p.consumed))
            && forall i | p.consumed <= i < FirstAfter(table, p.mark) :: table[i].recordedAt == table[p.consumed - 1].recordedAt
  {
    PollsKeepTheMark(table, seen, limit);
    var p := Polls(table, seen, limit);
    MarkCoversConsumed(table, p);
    assert 0 < p.consumed < |table| ==> table[p.consumed - 1].recordedAt <= table[p.consumed].recordedAt;
  }

  // ── what a skipped row becomes ─────────────────────────────────

  /** Rows fed from some poll on are newer than the mark it met. */
  lemma {:induction false} LaterRowsAreNewer(table: seq<LabelRow>, seen: seq<nat>, i: nat, limit: nat)
    requires Growing(table, seen) && i <= |seen|
    ensures Growing(table, seen[..i])
    ensures var p, q := Polls(table, seen[..i], limit), Polls(table, seen, limit);
            && p.mark <= q.mark && p.fed <= q.fed
            && forall j | |p.fed| <= j < |q.fed| :: q.fed[j].recordedAt > p.mark
  {
    if i == |seen| {
      assert seen[..i] == seen;
    } else {
      var before := seen[..|seen| - 1];
      GrowingPrefix(table, seen);
      assert before[..i] == seen[..i];
      LaterRowsAreNewer(table, before, i, limit);
      PollsKeepTheMark(table, seen, limit);
      NextIsNewer(table, Polls(table, before, limit), seen[|seen| - 1], limit);
    }
  }

  lemma NextIsNewer(table: seq<LabelRow>, p: Past, visible: nat, limit: nat)
    requires Sorted(table) && visible <= |table|
    ensures var q := Next(table, p, visible, limit);
            && p.mark <= q.mark && p.fed <= q.fed && |q.fed| <= |p.fed| + limit
            && forall j | |p.fed| <= j < |q.fed| :: q.fed[j].recordedAt > p.mark
  {
  }

  /** A row the next poll leaves out behind its start is skipped for good: no later poll feeds it. */
  lemma SkippedForGood(table: seq<LabelRow>, seen: seq<nat>, i: nat, limit: nat, k: nat)
    requires Growing(table, seen) && i <= |seen|
    requires var p := Polls(table, seen[..i], limit); p.consumed <= k < FirstAfter(table, p.mark)
    ensures var p, q := Polls(table, seen[..i], limit), Polls(table, seen, limit);
            p.fed <= q.fed && table[k] !in q.fed[|p.fed|..]
  {
    LaterRowsAreNewer(table, seen, i, limit);
  }

  /** Two rows of one timestamp, fed one a poll: however often the feed polls, the second never comes. */
  lemma {:induction false} SecondOfTwoIsNeverFed(a: LabelRow, b: LabelRow, seen: seq<nat>)
    requires a.recordedAt == b.recordedAt > 0
    requires seen != [] && forall i | 0 <= i < |seen| :: seen[i] == 2
    ensures Polls([a, b], seen, 1).fed == [a] && Polls([a, b], seen, 1).mark == a.recordedAt
  {
    var table, before := [a, b], seen[..|seen| - 1];
    PollsKeepTheMark(table, seen, 1);
    if before == [] {
      FirstOfTwo(a, b, 0);
    } else {
      SecondOfTwoIsNeverFed(a, b, before);
      FirstOfTwo(a, b, a.recordedAt);
    }
  }

  lemma FirstOfTwo(a: LabelRow, b: LabelRow, mark: int)
    requires a.recordedAt == b.recordedAt
    ensures FirstAfter([a, b], mark) == if mark < a.recordedAt then 0 else 2
    ensures [] + [a, b][0..1] == [a]
  {
    var k := FirstAfter([a, b], mark);
    assert k > 0 ==> [a, b][0].recordedAt <= mark;
    assert k < 2 ==> [a, b][k].recordedAt > mark;
  }

  // ── exactly once ───────────────────────────────────────────────

  /** How far polls get that skip nothing: as far as the table had grown and the limit allows. */
  function Pace(seen: seq<nat>, limit: nat): nat {
    if seen == [] then 0
    else
      var before, visible := Pace(seen[..|seen| - 1], limit), seen[|seen| - 1];
      if visible <= before then before else if before + limit <= visible then before + limit else visible
  }

  lemma {:induction false} PaceRises(table: seq<LabelRow>, seen: seq<nat>, i: nat, limit: nat)
    requires Growing(table, seen) && i <= |seen|
    ensures Pace(seen[..i], limit) <= Pace(seen, limit) <= |table|
    ensures i < |seen| && Pace(seen[..i], limit) < seen[i] && limit > 0 ==> Pace(seen[..i], limit) < Pace(seen, limit)
    decreases |seen|
  {
    if i == |seen| {
      assert seen[..i] == seen;
      if seen != [] {
        GrowingPrefix(table, seen);
        PaceRises(table, seen[..i - 1], i - 1, limit);
      }
    } else {
      var before := seen[..|seen| - 1];
      GrowingPrefix(table, seen);
      assert before[..i] == seen[..i];
      PaceRises(table, before, i, limit);
    }
  }

  /** Poll i goes on behind a boundary that splits a group of equal timestamps. Read off the table,
      its growth and the limit alone. */
  ghost predicate CutsAGroup(table: seq<LabelRow>, seen: seq<nat>, limit: nat, i: nat) {
    i < |seen| && Pace(seen[..i], limit) < seen[i] && Straddles(table, Pace(seen[..i], limit))
  }

  /** Without such a poll the rows fed are a prefix of the table, each once and in order. */
  lemma {:induction false} FedIsAPrefix(table: seq<LabelRow>, seen: seq<nat>, limit: nat)
    requires Growing(table, seen) && forall i | 0 <= i < |seen| :: !CutsAGroup(table, seen, limit, i)
    ensures var p := Polls(table, seen, limit);
            p.consumed == Pace(seen, limit) <= |table| && p.fed == table[..p.consumed]
  {
    if seen != [] {
      var i := |seen| - 1;
      var before := seen[..i];
      GrowingPrefix(table, seen);
      NoCutBefore(table, seen, limit, i);
      FedIsAPrefix(table, before, limit);
      NextPollSkipsNothingIff(table, before, limit);
      assert !CutsAGroup(table, seen, limit, i);
      PollsKeepTheMark(table, seen, limit);
      NextFeedsOn(table, Polls(table, before, limit), seen[i], limit);
    }
  }

  lemma NoCutBefore(table: seq<LabelRow>, seen: seq<nat>, limit: nat, i: nat)
    requires i <= |seen| && forall j | 0 <= j < i :: !CutsAGroup(table, seen, limit, j)
    ensures forall j | 0 <= j < i :: !CutsAGroup(table, seen[..i], limit, j)
  {
    forall j | 0 <= j < i ensures !CutsAGroup(table, seen[..i], limit, j) {
      assert seen[..i][..j] == seen[..j] && !CutsAGroup(table, seen, limit, j);
    }
  }

  lemma NextFeedsOn(table: seq<LabelRow>, p: Past, visible: nat, limit: nat)
    requires visible <= |table| && p.consumed <= |table| && p.fed == table[..p.consumed]
    requires p.consumed <= FirstAfter(table, p.mark) && (p.consumed < visible ==> FirstAfter(table, p.mark) == p.consumed)
    ensures var q := Next(table, p, visible, limit);
            && q.consumed <= |table| && q.fed == table[..q.consumed]
            && q.consumed == if visible <= p.consumed then p.consumed
                             else if p.consumed + limit <= visible then p.consumed + limit else visible
  {
    var start := p.consumed;
    if start < visible {
      SliceOn(table, start, if start + limit <= visible then start + limit else visible);
    }
  }

  lemma SliceOn(table: seq<LabelRow>, a: nat, b: nat)
    requires a <= b <= |table|
    ensures table[..a] + table[a..b] == table[..b]
  {
  }

  /** Exactly once: the rows fed are the table's own, each once and in order and at full pace, exactly
      when no poll goes on behind a boundary that splits a group of equal timestamps. */
  lemma FedExactlyOnceIff(table: seq<LabelRow>, seen: seq<nat>, limit: nat)
    requires Growing(table, seen)
    ensures Pace(seen, limit) <= |table|
    ensures Polls(table, seen, limit).fed == table[..Pace(seen, limit)] <==>
            forall i | 0 <= i < |seen| :: !CutsAGroup(table, seen, limit, i)
  {
    PaceRises(table, seen, |seen|, limit);
    if i :| 0 <= i < |seen| && CutsAGroup(table, seen, limit, i) {
      var first := FirstCut(table, seen, limit, i);
      CutIsMissed(table, seen, limit, first);
    } else {
      FedIsAPrefix(table, seen, limit);
    }
  }

  ghost function FirstCut(table: seq<LabelRow>, seen: seq<nat>, limit: nat, i: nat): (first: nat)
    requires CutsAGroup(table, seen, limit, i)
    ensures first <= i && CutsAGroup(table, seen, limit, first)
    ensures forall j | 0 <= j < first :: !CutsAGroup(table, seen, limit, j)
  {
    if j :| 0 <= j < i && CutsAGroup(table, seen, limit, j) then FirstCut(table, seen, limit, j) else i
  }

  lemma CutIsMissed(table: seq<LabelRow>, seen: seq<nat>, limit: nat, i: nat)
    requires Growing(table, seen) && CutsAGroup(table, seen, limit, i)
    requires forall j | 0 <= j < i :: !CutsAGroup(table, seen, limit, j)
    ensures Pace(seen, limit) <= |table| && Polls(table, seen, limit).fed != table[..Pace(seen, limit)]
  {
    var before := seen[..i];
    var cut := Pace(before, limit);
    LaterRowsAreNewer(table, seen, i, limit);
    NoCutBefore(table, seen, limit, i);
    FedIsAPrefix(table, before, limit);
    PollsKeepTheMark(table, before, limit);
    assert limit > 0 by { if limit == 0 { NoPaceWithoutLimit(before); } }
    PaceRises(table, seen, i, limit);
    assert Polls(table, before, limit).mark == table[cut].recordedAt;
    var fed := Polls(table, seen, limit).fed;
    assert cut < |fed| ==> fed[cut].recordedAt > table[cut].recordedAt;
    assert table[..Pace(seen, limit)][cut] == table[cut];
  }

  lemma {:induction false} NoPaceWithoutLimit(seen: seq<nat>)
    ensures Pace(seen, 0) == 0
  {
    if seen != [] {
      NoPaceWithoutLimit(seen[..|seen| - 1]);
    }
  }

  // ── a fixed backlog ────────────────────────────────────────────

  function Times(k: nat, limit: nat): nat {
    k * limit
  }

  /** No multiple of the limit splits a group of equal timestamps. */
  ghost predicate NoGroupIsCut(table: seq<LabelRow>, limit: nat) {
    forall j: nat | 0 < j && Times(j, limit) < |table| :: !Straddles(table, Times(j, limit))
  }

  lemma {:induction false} PaceOfBacklog(n: nat, seen: seq<nat>, limit: nat)
    requires forall i | 0 <= i < |seen| :: seen[i] == n
    ensures Pace(seen, limit) == if Times(|seen|, limit) < n then Times(|seen|, limit) else n
  {
    if seen != [] {
      PaceOfBacklog(n, seen[..|seen| - 1], limit);
      OneMoreTime(|seen| - 1, limit);
    }
  }

  lemma OneMoreTime(k: nat, limit: nat)
    ensures Times(k + 1, limit) == Times(k, limit) + limit
  {
  }

  lemma {:induction false} AtMostLimitAPoll(table: seq<LabelRow>, seen: seq<nat>, limit: nat)
    requires Growing(table, seen)
    ensures |Polls(table, seen, limit).fed| <= Times(|seen|, limit)
  {
    if seen != [] {
      var before := seen[..|seen| - 1];
      GrowingPrefix(table, seen);
      AtMostLimitAPoll(table, before, limit);
      PollsKeepTheMark(table, seen, limit);
      NextIsNewer(table, Polls(table, before, limit), seen[|seen| - 1], limit);
      OneMoreTime(|before|, limit);
    }
  }

  /** A fixed backlog of n rows is drained, each row once and in order, exactly from the
      ceil(n / limit)-th poll on, and only if no multiple of the limit splits a group. */
  lemma BacklogDrains(table: seq<LabelRow>, seen: seq<nat>, limit: nat)
    requires Growing(table, seen)
    requires forall i | 0 <= i < |seen| :: seen[i] == |table|
    ensures Polls(table, seen, limit).fed == table <==> Times(|seen|, limit) >= |table| && NoGroupIsCut(table, limit)
  {
    PaceOfBacklog(|table|, seen, limit);
    AtMostLimitAPoll(table, seen, limit);
    if Times(|seen|, limit) >= |table| {
      FedExactlyOnceIff(table, seen, limit);
      assert table[..|table|] == table;
      BacklogCutsIff(table, seen, limit);
    }
  }

  lemma BacklogCutsIff(table: seq<LabelRow>, seen: seq<nat>, limit: nat)
    requires Growing(table, seen) && Times(|seen|, limit) >= |table|
    requires forall i | 0 <= i < |seen| :: seen[i] == |table|
    ensures NoGroupIsCut(table, limit) <==> forall i | 0 <= i < |seen| :: !CutsAGroup(table, seen, limit, i)
  {
    forall i | 0 <= i < |seen|
      ensures CutsAGroup(table, seen, limit, i) <==> Times(i, limit) < |table| && Straddles(table, Times(i, limit))
    {
      PaceOfBacklog(|table|, seen[..i], limit);
    }
    assert !Straddles(table, 0);
    assert Times(0, limit) == 0;
    forall j: nat | Times(j, limit) < |table| ensures j < |seen| {
      if j >= |seen| {
        TimesRise(|seen|, j, limit);
      }
    }
  }

  lemma TimesRise(j: nat, k: nat, limit: nat)
    requires j <= k
    ensures Times(j, limit) <= Times(k, limit)
  {
    assert k * limit == j * limit + (k - j) * limit;
  }

  /** The service's own state over the same polls. */
  function FeedAll(windows: Windows, table: seq<LabelRow>, seen: seq<nat>, limit: nat): FeedState
    requires forall i | 0 <= i < |seen| :: seen[i] <= |table|
  {
    if seen == [] then FeedState(0, windows, 0)
    else
      var f := FeedAll(windows, table, seen[..|seen| - 1], limit);
      PollOnce(f, Query(table[..seen[|seen| - 1]], f.mark, limit), None)
  }

  /** The windows take exactly the rows the polls feed, in order, and the counter counts them. */
  lemma {:induction false} WindowsTakeTheFedRows(windows: Windows, table: seq<LabelRow>, seen: seq<nat>, limit: nat)
    requires forall i | 0 <= i < |seen| :: seen[i] <= |table|
    ensures var p := Polls(table, seen, limit);
            FeedAll(windows, table, seen, limit) == FeedState(p.mark, PushAll(windows, p.fed), |p.fed|)
  {
    if seen != [] {
      var before := seen[..|seen| - 1];
      WindowsTakeTheFedRows(windows, table, before, limit);
      var p := Polls(table, before, limit);
      var rows := Query(table[..seen[|seen| - 1]], p.mark, limit);
      PushAllSplits(windows, p.fed, rows);
      assert rows[..|rows|] == rows;
    }
  }

  /** A poll that raises at its k-th row feeds k rows without moving the watermark, and the next poll
      of the same table reads all of them again: what the windows take is the rows once exactly when
      the detector raised before the first. */
  lemma RaisingPollFeedsAgain(f: FeedState, rows: seq<LabelRow>, k: nat)
    requires k < |rows|
    ensures PollOnce(f, rows, Some(k)).mark == f.mark && PollOnce(f, rows, Some(k)).samplesFed == f.samplesFed
    ensures PollOnce(PollOnce(f, rows, Some(k)), rows, None).windows == PushAll(f.windows, rows[..k] + rows)
    ensures rows[..k] + rows == rows <==> k == 0
  {
    assert rows[..|rows|] == rows;
    PushAllSplits(f.windows, rows[..k], rows);
  }

  lemma {:induction false} PushAllSplits(w: Windows, a: seq<LabelRow>, b: seq<LabelRow>)
    ensures PushAll(w, a + b) == PushAll(PushAll(w, a), b)
  {
    if b == [] {
      assert a + b == a;
    } else {
      assert (a + b)[..|a + b| - 1] == a + b[..|b| - 1];
      PushAllSplits(w, a, b[..|b| - 1]);
    }
  }
}
