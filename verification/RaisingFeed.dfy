/** The label feed when the detector may raise: which rows a growing table feeds, and how often. */
module RaisingFeed {
  import opened Wrappers
  import opened DriftWindows
  import opened DriftFeed

  /** One poll: how far the table has grown, and at which of its rows the detector raises, if it does. */
  datatype Visit = Visit(visible: nat, raisesAt: Option<nat>)

  /** The mark, and the places of the final table fed so far, in order. */
  datatype Fed = Fed(mark: int, places: seq<nat>)

  function From(start: nat, n: nat): (places: seq<nat>)
    ensures |places| == n && forall i | 0 <= i < n :: places[i] == start + i
  {
    if n == 0 then [] else From(start, n - 1) + [start + n - 1]
  }

  /** How many rows a poll reads. */
  function Reads(table: seq<LabelRow>, mark: int, visible: nat, limit: nat): nat {
    var start := FirstAfter(table, mark);
    if visible <= start then 0 else if visible - start < limit then visible - start else limit
  }

  /** How many of them the detector takes. */
  function Takes(table: seq<LabelRow>, mark: int, v: Visit, limit: nat): nat {
    Taken(Reads(table, mark, v.visible, limit), v.raisesAt)
  }

  function VisitOnce(table: seq<LabelRow>, f: Fed, v: Visit, limit: nat): Fed
    requires v.visible <= |table|
  {
    var start, n, k := FirstAfter(table, f.mark), Reads(table, f.mark, v.visible, limit), Takes(table, f.mark, v, limit);
    Fed(if k < n || n == 0 then f.mark else table[start + n - 1].recordedAt, f.places + From(start, k))
  }

  ghost predicate Fits(table: seq<LabelRow>, visits: seq<Visit>) {
    Sorted(table) && forall i | 0 <= i < |visits| :: visits[i].visible <= |table|
  }

  function Visited(table: seq<LabelRow>, visits: seq<Visit>, limit: nat): Fed
    requires forall i | 0 <= i < |visits| :: visits[i].visible <= |table|
  {
    if visits == [] then Fed(0, [])
    else VisitOnce(table, Visited(table, visits[..|visits| - 1], limit), visits[|visits| - 1], limit)
  }

  /** The poll stops part way: the detector raises after taking a row. */
  predicate StopsPartWay(table: seq<LabelRow>, f: Fed, v: Visit, limit: nat) {
    0 < Takes(table, f.mark, v, limit) < Reads(table, f.mark, v.visible, limit)
  }

  /** Some poll has stopped part way. */
  predicate Stopped(table: seq<LabelRow>, visits: seq<Visit>, limit: nat)
    requires forall i | 0 <= i < |visits| :: visits[i].visible <= |table|
  {
    visits != [] &&
    var before := visits[..|visits| - 1];
    Stopped(table, before, limit) || StopsPartWay(table, Visited(table, before, limit), visits[|visits| - 1], limit)
  }

  /** After a poll that stopped part way, some poll has taken a row. */
  predicate TookAfterAStop(table: seq<LabelRow>, visits: seq<Visit>, limit: nat)
    requires forall i | 0 <= i < |visits| :: visits[i].visible <= |table|
  {
    visits != [] &&
    var before := visits[..|visits| - 1];
    TookAfterAStop(table, before, limit) ||
    (Stopped(table, before, limit) && Takes(table, Visited(table, before, limit).mark, visits[|visits| - 1], limit) > 0)
  }

  ghost predicate Once(places: seq<nat>) {
    forall i, j | 0 <= i < j < |places| :: places[i] != places[j]
  }

  /** All places lie before the first row past the mark. */
  ghost predicate AllPassed(table: seq<LabelRow>, f: Fed) {
    forall i | 0 <= i < |f.places| :: f.places[i] < FirstAfter(table, f.mark)
  }

  /** No row is fed twice exactly when no poll takes a row after one that stopped part way; the first
      such poll starts with a row already fed. */
  lemma {:induction false} NoRowIsFedTwiceIff(table: seq<LabelRow>, visits: seq<Visit>, limit: nat)
    requires Fits(table, visits)
    ensures Once(Visited(table, visits, limit).places) <==> !TookAfterAStop(table, visits, limit)
    ensures var f := Visited(table, visits, limit);
            && (!Stopped(table, visits, limit) ==> AllPassed(table, f))
            && (Stopped(table, visits, limit) ==> FirstAfter(table, f.mark) in f.places || !Once(f.places))
    ensures TookAfterAStop(table, visits, limit) ==> Stopped(table, visits, limit)
  {
    if visits != [] {
      var before, v := visits[..|visits| - 1], visits[|visits| - 1];
      assert Fits(table, before);
      NoRowIsFedTwiceIff(table, before, limit);
      var f := Visited(table, before, limit);
      if !Once(f.places) {
        StaysTwice(f.places, From(FirstAfter(table, f.mark), Takes(table, f.mark, v, limit)));
      } else if Stopped(table, before, limit) {
        AfterAStop(table, f, v, limit);
      } else {
        BeforeAStop(table, f, v, limit);
      }
    }
  }

  lemma StaysTwice(places: seq<nat>, more: seq<nat>)
    requires !Once(places)
    ensures !Once(places + more)
  {
    var i, j :| 0 <= i < j < |places| && places[i] == places[j];
    assert (places + more)[i] == (places + more)[j];
  }

  lemma AfterAStop(table: seq<LabelRow>, f: Fed, v: Visit, limit: nat)
    requires v.visible <= |table| && Once(f.places) && FirstAfter(table, f.mark) in f.places
    ensures var g, k := VisitOnce(table, f, v, limit), Takes(table, f.mark, v, limit);
            && (Once(g.places) <==> k == 0)
            && (k == 0 ==> g == f)
  {
    var start, k := FirstAfter(table, f.mark), Takes(table, f.mark, v, limit);
    var places := f.places + From(start, k);
    if k > 0 {
      var i :| 0 <= i < |f.places| && f.places[i] == start;
      assert places[i] == places[|f.places|];
    } else {
      assert places == f.places;
    }
  }

  lemma BeforeAStop(table: seq<LabelRow>, f: Fed, v: Visit, limit: nat)
    requires Sorted(table) && v.visible <= |table| && Once(f.places) && AllPassed(table, f)
    ensures var g := VisitOnce(table, f, v, limit);
            && Once(g.places)
            && (!StopsPartWay(table, f, v, limit) ==> AllPassed(table, g))
            && (StopsPartWay(table, f, v, limit) ==> FirstAfter(table, g.mark) in g.places)
  {
    var start, n, k := FirstAfter(table, f.mark), Reads(table, f.mark, v.visible, limit), Takes(table, f.mark, v, limit);
    var g := VisitOnce(table, f, v, limit);
    if StopsPartWay(table, f, v, limit) {
      assert g.places[|f.places|] == start;
    } else if k > 0 {
      PassesAll(table, start + n, g.mark);
    }
  }

  /** The mark of a row lies at or behind every row up to it. */
  lemma PassesAll(table: seq<LabelRow>, end: nat, mark: int)
    requires Sorted(table) && 0 < end <= |table| && mark == table[end - 1].recordedAt
    ensures end <= FirstAfter(table, mark)
  {
    assert forall i | 0 <= i < end :: table[i].recordedAt <= mark;
  }

  // ── the service's own state over the same polls ────────────────

  function RowsAt(table: seq<LabelRow>, places: seq<nat>): (rows: seq<LabelRow>)
    requires forall i | 0 <= i < |places| :: places[i] < |table|
    ensures |rows| == |places| && forall i | 0 <= i < |places| :: rows[i] == table[places[i]]
  {
    if places == [] then [] else RowsAt(table, places[..|places| - 1]) + [table[places[|places| - 1]]]
  }

  function PollAll(windows: Windows, table: seq<LabelRow>, visits: seq<Visit>, limit: nat): FeedState
    requires forall i | 0 <= i < |visits| :: visits[i].visible <= |table|
  {
    if visits == [] then FeedState(0, windows, 0)
    else
      var f, v := PollAll(windows, table, visits[..|visits| - 1], limit), visits[|visits| - 1];
      PollOnce(f, Query(table[..v.visible], f.mark, limit), v.raisesAt)
  }

  lemma {:induction false} PollsMoveTheMark(windows: Windows, table: seq<LabelRow>, visits: seq<Visit>, limit: nat)
    requires Fits(table, visits)
    ensures PollAll(windows, table, visits, limit).mark == Visited(table, visits, limit).mark
  {
    if visits != [] {
      var before, v := visits[..|visits| - 1], visits[|visits| - 1];
      assert Fits(table, before);
      PollsMoveTheMark(windows, table, before, limit);
      QueryReads(table, v.visible, Visited(table, before, limit).mark, limit);
      MarkMoves(table, PollAll(windows, table, before, limit), Visited(table, before, limit), v, limit);
    }
  }

  /** The polls of the service feed its windows exactly the rows at those places, in that order. */
  lemma {:induction false} PollsFeedThePlaces(windows: Windows, table: seq<LabelRow>, visits: seq<Visit>, limit: nat)
    requires Fits(table, visits)
    ensures var f, s := Visited(table, visits, limit), PollAll(windows, table, visits, limit);
            && (forall i | 0 <= i < |f.places| :: f.places[i] < |table|)
            && s.mark == f.mark && s.windows == PushAll(windows, RowsAt(table, f.places))
  {
    PollsMoveTheMark(windows, table, visits, limit);
    if visits != [] {
      var before, v := visits[..|visits| - 1], visits[|visits| - 1];
      assert Fits(table, before);
      PollsMoveTheMark(windows, table, before, limit);
      PollsFeedThePlaces(windows, table, before, limit);
      var f, s := Visited(table, before, limit), PollAll(windows, table, before, limit);
      WindowsMove(windows, table, s, f, v, limit);
    }
  }

  lemma WindowsMove(windows: Windows, table: seq<LabelRow>, s: FeedState, f: Fed, v: Visit, limit: nat)
    requires Sorted(table) && v.visible <= |table| && s.mark == f.mark
    requires forall i | 0 <= i < |f.places| :: f.places[i] < |table|
    requires s.windows == PushAll(windows, RowsAt(table, f.places))
    ensures var g, t := VisitOnce(table, f, v, limit), PollOnce(s, Query(table[..v.visible], s.mark, limit), v.raisesAt);
            && (forall i | 0 <= i < |g.places| :: g.places[i] < |table|)
            && t.windows == PushAll(windows, RowsAt(table, g.places))
  {
    var rows := Slice(table, f.mark, v.visible, limit);
    QueryReads(table, v.visible, f.mark, limit);
    PollTakes(s, rows, v.raisesAt);
    SliceTaken(table, f.mark, v, limit);
    TakeMore(windows, table, f.places, FirstAfter(table, f.mark), Takes(table, f.mark, v, limit),
             rows[..Taken(|rows|, v.raisesAt)], VisitOnce(table, f, v, limit).places);
  }

  /** The rows one poll reads. */
  function Slice(table: seq<LabelRow>, mark: int, visible: nat, limit: nat): seq<LabelRow>
    requires visible <= |table|
  {
    table[FirstAfter(table, mark)..FirstAfter(table, mark) + Reads(table, mark, visible, limit)]
  }

  /** The query of one poll reads that many rows, from the first one past the mark. */
  lemma QueryReads(table: seq<LabelRow>, visible: nat, mark: int, limit: nat)
    requires Sorted(table) && visible <= |table|
    ensures Query(table[..visible], mark, limit) == Slice(table, mark, visible, limit)
  {
    PollReads(table, visible, mark, limit);
    SliceIs(table, mark, visible, limit);
  }

  lemma SliceIs(table: seq<LabelRow>, mark: int, visible: nat, limit: nat)
    requires visible <= |table|
    ensures var start := FirstAfter(table, mark);
            var end := if start + limit <= visible then start + limit else visible;
            Slice(table, mark, visible, limit) == if start >= visible || limit == 0 then [] else table[start..end]
  {
  }

  lemma MarkMoves(table: seq<LabelRow>, s: FeedState, f: Fed, v: Visit, limit: nat)
    requires Sorted(table) && v.visible <= |table| && s.mark == f.mark
    ensures PollOnce(s, Slice(table, f.mark, v.visible, limit), v.raisesAt).mark == VisitOnce(table, f, v, limit).mark
  {
    var start, n := FirstAfter(table, f.mark), Reads(table, f.mark, v.visible, limit);
    var rows := Slice(table, f.mark, v.visible, limit);
    assert |rows| == n;
    if n == 0 {
      assert LatestStamp(rows, s.mark) == s.mark;
    } else if Taken(n, v.raisesAt) == n {
      LatestOfSlice(table, start, start + n, s.mark);
      assert PollOnce(s, rows, v.raisesAt).mark == LatestStamp(rows, s.mark);
    }
  }

  lemma SliceTaken(table: seq<LabelRow>, mark: int, v: Visit, limit: nat)
    requires v.visible <= |table|
    ensures var rows, start := Slice(table, mark, v.visible, limit), FirstAfter(table, mark);
            && start + Takes(table, mark, v, limit) <= |table|
            && rows[..Taken(|rows|, v.raisesAt)] == table[start..start + Takes(table, mark, v, limit)]
  {
    PrefixOfSlice(table, FirstAfter(table, mark), Reads(table, mark, v.visible, limit), Takes(table, mark, v, limit));
  }

  lemma PrefixOfSlice(table: seq<LabelRow>, start: nat, n: nat, k: nat)
    requires k <= n && start + n <= |table|
    ensures table[start..start + n][..k] == table[start..start + k]
  {
  }

  lemma PollTakes(s: FeedState, rows: seq<LabelRow>, raisesAt: Option<nat>)
    ensures PollOnce(s, rows, raisesAt).windows == PushAll(s.windows, rows[..Taken(|rows|, raisesAt)])
  {
  }

  lemma TakeMore(
      windows: Windows, table: seq<LabelRow>, places: seq<nat>, start: nat, k: nat, taken: seq<LabelRow>, more: seq<nat>)
    requires start + k <= |table| && forall i | 0 <= i < |places| :: places[i] < |table|
    requires taken == table[start..start + k] && more == places + From(start, k)
    ensures forall i | 0 <= i < |more| :: more[i] < |table|
    ensures PushAll(PushAll(windows, RowsAt(table, places)), taken) == PushAll(windows, RowsAt(table, more))
  {
    RowsAtMore(table, places, start, k);
    PushAllSplits(windows, RowsAt(table, places), taken);
  }

  lemma {:induction false} RowsAtMore(table: seq<LabelRow>, places: seq<nat>, start: nat, k: nat)
    requires start + k <= |table| && forall i | 0 <= i < |places| :: places[i] < |table|
    ensures forall i | 0 <= i < |places + From(start, k)| :: (places + From(start, k))[i] < |table|
    ensures RowsAt(table, places + From(start, k)) == RowsAt(table, places) + table[start..start + k]
  {
  }
}
