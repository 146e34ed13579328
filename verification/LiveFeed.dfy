/** The live decisions page: overlapping polls merged into one bounded list of rows. */
module LiveFeed {
  import opened Wrappers

  datatype Row = Row(id: string, auditId: string, transactionId: string, createdAt: string, body: string)

  /** A row as the page shows it. */
  datatype Shown = Shown(id: string, transactionId: string, body: string)

  /** The entries of a reply; None stands for null, which has no fields to read. */
  type Page = seq<Option<Row>>

  const MAX_ROWS := 60

  /** Each start of polling is an effect of its own; replies to an earlier one are discarded. */
  datatype View = View(
    paused: bool, effect: nat, seen: set<string>, rows: seq<Shown>, total: nat, cursor: Option<string>)

  /** `data` is None when the request failed or the reply was not a list. */
  datatype Event = Reply(effect: nat, data: Option<Page>) | Pause | Resume

  function Key(row: Row): string {
    if row.id != "" then row.id else if row.auditId != "" then row.auditId else row.transactionId
  }

  function Normalise(row: Row): (shown: Shown)
    ensures shown.id == Key(row)
  {
    Shown(Key(row), row.transactionId, row.body)
  }

  predicate Raises(data: Page) {
    exists i | 0 <= i < |data| :: data[i].None?
  }

  /** The rows of a reply whose key is new, the first for each key, up to an entry that raises. */
  function NewRows(data: Page, seen: set<string>): seq<Row> {
    if data == [] || data[0].None? then []
    else
      var key := Key(data[0].value);
      if key == "" || key in seen then NewRows(data[1..], seen)
      else [data[0].value] + NewRows(data[1..], seen + {key})
  }

  function Keys(rows: seq<Row>): set<string> {
    if rows == [] then {} else {Key(rows[0])} + Keys(rows[1..])
  }

  function NormaliseAll(rows: seq<Row>): (shown: seq<Shown>)
    ensures |shown| == |rows| && forall i | 0 <= i < |rows| :: shown[i] == Normalise(rows[i])
  {
    if rows == [] then [] else [Normalise(rows[0])] + NormaliseAll(rows[1..])
  }

  function First(rows: seq<Shown>, n: nat): seq<Shown> {
    if |rows| <= n then rows else rows[..n]
  }

  function NextCursor(data: Page, cursor: Option<string>): Option<string> {
    if data != [] && data[0].Some? && data[0].value.createdAt != "" then Some(data[0].value.createdAt) else cursor
  }

  /** A page is merged: keys are noted while it is read, and shown only if reading did not raise. */
  function Merge(v: View, data: Page): View {
    var rows := NewRows(data, v.seen);
    var noted := v.(seen := v.seen + Keys(rows));
    if Raises(data) then noted
    else
      noted.(rows := First(NormaliseAll(rows) + v.rows, MAX_ROWS),
             total := v.total + |rows|,
             cursor := NextCursor(data, v.cursor))
  }

  predicate Accepted(v: View, e: Event) {
    e.Reply? && e.data.Some? && e.effect == v.effect && !v.paused
  }

  function Step(v: View, e: Event): View {
    match e
    case Pause => v.(paused := true)
    case Resume => if v.paused then v.(paused := false, effect := v.effect + 1) else v
    case Reply(_, data) => if Accepted(v, e) then Merge(v, data.value) else v
  }

  function After(v: View, events: seq<Event>): View {
    if events == [] then v else Step(After(v, events[..|events| - 1]), events[|events| - 1])
  }

  const START := View(false, 0, {}, [], 0, None)

  class Feed {
    var paused: bool
    var effect: nat
    var seen: set<string>
    var rows: seq<Shown>
    var total: nat
    var cursor: Option<string>

    function Contents(): View
      reads this
    {
      View(paused, effect, seen, rows, total, cursor)
    }

    constructor ()
      ensures Contents() == START
    {
      paused, effect, seen, rows, total, cursor := false, 0, {}, [], 0, None;
    }

    method SetPaused(value: bool)
      modifies this
      ensures Contents() == Step(old(Contents()), if value then Pause else Resume)
    {
      if paused && !value {
        effect := effect + 1;
      }
      paused := value;
    }

    /** What one poll does with its reply; `mine` is the effect that asked. */
    method Tick(mine: nat, reply: Option<Page>)
      modifies this
      ensures Contents() == Step(old(Contents()), Reply(mine, reply))
    {
      var cancelled := paused || mine != effect;
      if reply.None? || cancelled {
        return;
      }
      var data := reply.value;
      var news, raised := NoteKeys(data);
      if raised {
        return;
      }
      cursor := NextCursor(data, cursor);
      rows := First(NormaliseAll(news) + rows, MAX_ROWS);
      total := total + |news|;
    }

    /** The loop of the poll, up to an entry that raises. */
    method NoteKeys(data: Page) returns (news: seq<Row>, raised: bool)
      modifies this`seen
      ensures news == NewRows(data, old(seen)) && seen == old(seen) + Keys(news)
      ensures raised <==> Raises(data)
    {
      news := [];
      var i := 0;
      ghost var rest := NewRows(data, seen);
      assert data[0..] == data;
      while i < |data| && data[i].Some?
        invariant 0 <= i <= |data|
        invariant forall j | 0 <= j < i :: data[j].Some?
        invariant rest == NewRows(data[i..], seen) && news + rest == NewRows(data, old(seen))
        invariant seen == old(seen) + Keys(news)
      {
        var row := data[i].value;
        OneMoreEntry(data, i, news, seen);
        if Key(row) != "" && Key(row) !in seen {
          KeysOfOneMore(news, row);
          seen := seen + {Key(row)};
          news := news + [row];
        }
        i := i + 1;
        rest := NewRows(data[i..], seen);
      }
      NothingMore(data, i, seen);
      return news, i < |data|;
    }
  }

  lemma NothingMore(data: Page, i: nat, seen: set<string>)
    requires i == |data| || (i < |data| && data[i].None?)
    ensures NewRows(data[i..], seen) == []
  {
  }

  lemma OneMoreEntry(data: Page, i: nat, news: seq<Row>, seen: set<string>)
    requires i < |data| && data[i].Some?
    ensures var row := data[i].value;
            news + NewRows(data[i..], seen) ==
            if Key(row) == "" || Key(row) in seen then news + NewRows(data[i + 1..], seen)
            else (news + [row]) + NewRows(data[i + 1..], seen + {Key(row)})
  {
    assert data[i..][0] == data[i] && data[i..][1..] == data[i + 1..];
  }

  lemma {:induction false} KeysOfOneMore(rows: seq<Row>, row: Row)
    ensures Keys(rows + [row]) == Keys(rows) + {Key(row)}
  {
    if rows != [] {
      KeysOfOneMore(rows[1..], row);
      assert (rows + [row])[1..] == rows[1..] + [row];
    }
  }

  ghost predicate DistinctRows(rows: seq<Shown>) {
    forall i, j | 0 <= i < j < |rows| :: rows[i].id != rows[j].id
  }

  /** What the page shows at every moment. */
  ghost predicate Sound(v: View) {
    && DistinctRows(v.rows)
    && (forall i | 0 <= i < |v.rows| :: v.rows[i].id in v.seen)
    && |v.rows| == (if v.total < 60 then v.total else 60)
    && "" !in v.seen
  }

  /** Some entry of the page, read without raising, has this key. */
  ghost predicate Carries(data: Page, key: string) {
    exists i | 0 <= i < |data| :: HasKeyAt(data, i, key)
  }

  ghost predicate HasKeyAt(data: Page, i: nat, key: string) {
    i < |data| && (forall j | 0 <= j <= i :: data[j].Some?) && Key(data[i].value) == key
  }

  /** The new rows of a page are exactly one for each key that is carried, not blank and not yet seen. */
  lemma {:induction false} NewRowsAreNew(data: Page, seen: set<string>)
    ensures var rows := NewRows(data, seen);
            && DistinctRows(NormaliseAll(rows)) && |Keys(rows)| == |rows| && Keys(rows) !! seen
            && (forall key :: key in Keys(rows) <==> key != "" && key !in seen && Carries(data, key))
            && (forall i | 0 <= i < |rows| :: Key(rows[i]) in Keys(rows))
  {
    var rows := NewRows(data, seen);
    if data == [] || data[0].None? {
    } else {
      var key := Key(data[0].value);
      forall k ensures Carries(data, k) <==> k == key || Carries(data[1..], k) {
        CarriesFirst(data, k);
      }
      if key == "" || key in seen {
        NewRowsAreNew(data[1..], seen);
      } else {
        NewRowsAreNew(data[1..], seen + {key});
        NewFirst(data[0].value, NewRows(data[1..], seen + {key}));
      }
    }
  }

  lemma NewFirst(row: Row, others: seq<Row>)
    requires DistinctRows(NormaliseAll(others)) && |Keys(others)| == |others| && Key(row) !in Keys(others)
    requires forall i | 0 <= i < |others| :: Key(others[i]) in Keys(others)
    ensures var rows := [row] + others;
            && DistinctRows(NormaliseAll(rows)) && |Keys(rows)| == |rows| && Keys(rows) == {Key(row)} + Keys(others)
            && (forall i | 0 <= i < |rows| :: Key(rows[i]) in Keys(rows))
  {
    var rows := [row] + others;
    assert rows[1..] == others;
    forall i, j | 0 <= i < j < |rows| ensures Key(rows[i]) != Key(rows[j]) {
      assert rows[j] == others[j - 1];
      if i > 0 {
        assert NormaliseAll(others)[i - 1].id == Key(rows[i]) && NormaliseAll(others)[j - 1].id == Key(rows[j]);
      }
    }
  }

  lemma CarriesFirst(data: Page, key: string)
    requires data != [] && data[0].Some?
    ensures Carries(data, key) <==> Key(data[0].value) == key || Carries(data[1..], key)
  {
    if Key(data[0].value) == key {
      assert HasKeyAt(data, 0, key);
    }
    if Carries(data[1..], key) {
      var i :| 0 <= i < |data[1..]| && HasKeyAt(data[1..], i, key);
      assert forall j | 0 <= j <= i + 1 :: j == 0 || data[j] == data[1..][j - 1];
      assert HasKeyAt(data, i + 1, key);
    }
    if Carries(data, key) && Key(data[0].value) != key {
      var i :| 0 <= i < |data| && HasKeyAt(data, i, key);
      assert HasKeyAt(data[1..], i - 1, key);
    }
  }

  /** The keys noted from a page that raised, which are never shown. */
  function Lost(v: View, e: Event): nat {
    if Accepted(v, e) && Raises(e.data.value) then |NewRows(e.data.value, v.seen)| else 0
  }

  function LostIn(v: View, events: seq<Event>): nat {
    if events == [] then 0
    else
      var earlier := events[..|events| - 1];
      LostIn(v, earlier) + Lost(After(v, earlier), events[|events| - 1])
  }

  lemma MergeKeeps(v: View, data: Page)
    requires Sound(v)
    ensures Sound(Merge(v, data))
    ensures |Merge(v, data).seen| == |v.seen| + |NewRows(data, v.seen)|
    ensures forall key :: key in Merge(v, data).seen <==> key in v.seen || (key != "" && Carries(data, key))
  {
    NewRowsAreNew(data, v.seen);
    var rows := NewRows(data, v.seen);
    OnTop(NormaliseAll(rows), v.rows, Keys(rows), v.seen);
    SizesAdd(v.seen, Keys(rows));
  }

  lemma OnTop(news: seq<Shown>, rows: seq<Shown>, keys: set<string>, seen: set<string>)
    requires DistinctRows(news) && DistinctRows(rows) && keys !! seen
    requires forall i | 0 <= i < |news| :: news[i].id in keys
    requires forall i | 0 <= i < |rows| :: rows[i].id in seen
    ensures DistinctRows(First(news + rows, MAX_ROWS))
    ensures forall i | 0 <= i < |First(news + rows, MAX_ROWS)| :: First(news + rows, MAX_ROWS)[i].id in seen + keys
  {
  }

  lemma SizesAdd(a: set<string>, b: set<string>)
    requires a !! b
    ensures |a + b| == |a| + |b|
  {
  }

  /** Over any run of replies, in any order and repeated, and of pauses: the shown rows have distinct
      keys, all of them noted; there are as many as the total, up to the most shown; and the total
      counts the noted keys, less those of pages that raised. */
  lemma {:induction false} RunIsSound(events: seq<Event>)
    ensures Sound(After(START, events))
    ensures After(START, events).total + LostIn(START, events) == |After(START, events).seen|
  {
    if events != [] {
      var last := |events| - 1;
      RunIsSound(events[..last]);
      var v := After(START, events[..last]);
      if Accepted(v, events[last]) {
        MergeKeeps(v, events[last].data.value);
      }
    }
  }

  /** Everything a run has ever put on the page, newest first. */
  function History(v: View, events: seq<Event>): seq<Shown> {
    if events == [] then v.rows
    else
      var earlier, e := events[..|events| - 1], events[|events| - 1];
      var w := After(v, earlier);
      if Accepted(w, e) && !Raises(e.data.value)
      then NormaliseAll(NewRows(e.data.value, w.seen)) + History(v, earlier)
      else History(v, earlier)
  }

  /** Cutting the list at every reply forgets nothing that a single cut at the end would keep. */
  lemma {:induction false} ShowsTheNewestOfTheHistory(events: seq<Event>)
    ensures var rows, history := After(START, events).rows, History(START, events);
            && |rows| == (if |history| < 60 then |history| else 60)
            && forall i | 0 <= i < |rows| :: rows[i] == history[i]
    ensures After(START, events).total == |History(START, events)|
  {
    if events != [] {
      var earlier, e := events[..|events| - 1], events[|events| - 1];
      ShowsTheNewestOfTheHistory(earlier);
      var w := After(START, earlier);
      if Accepted(w, e) && !Raises(e.data.value) {
        CutTwice(NormaliseAll(NewRows(e.data.value, w.seen)), History(START, earlier), MAX_ROWS);
      }
    }
  }

  lemma CutTwice(news: seq<Shown>, rows: seq<Shown>, n: nat)
    ensures First(news + First(rows, n), n) == First(news + rows, n)
  {
  }

  /** The total counts every noted key exactly when no accepted page raised after a new key. */
  lemma TotalCountsTheSeenIff(events: seq<Event>)
    ensures After(START, events).total == |After(START, events).seen| <==>
            forall i | 0 <= i < |events| :: LosesNothingAt(events, i)
  {
    RunIsSound(events);
    NothingLostIff(events);
  }

  /** Event i is no accepted page that raises after a new key. */
  ghost predicate LosesNothingAt(events: seq<Event>, i: nat) {
    i < |events| && Lost(After(START, events[..i]), events[i]) == 0
  }

  lemma {:induction false} NothingLostIff(events: seq<Event>)
    ensures LostIn(START, events) == 0 <==>
            forall i | 0 <= i < |events| :: LosesNothingAt(events, i)
  {
    if events != [] {
      var last := |events| - 1;
      var earlier := events[..last];
      NothingLostIff(earlier);
      forall i | 0 <= i < last ensures LosesNothingAt(earlier, i) <==> LosesNothingAt(events, i) {
        assert earlier[..i] == events[..i];
      }
      assert LosesNothingAt(events, last) <==> Lost(After(START, earlier), events[last]) == 0;
    }
  }

  /** A page that comes again, at any later time, shows and counts nothing more. */
  lemma RepeatedPageShowsNothing(v: View, w: View, data: Page)
    requires Merge(v, data).seen <= w.seen
    ensures Merge(w, data).seen == w.seen && Merge(w, data).total == w.total
    ensures |w.rows| <= MAX_ROWS ==> Merge(w, data).rows == w.rows
  {
    NewRowsAreNew(data, v.seen);
    NewRowsAreNew(data, w.seen);
    var keys := Keys(NewRows(data, w.seen));
    assert keys <= v.seen + Keys(NewRows(data, v.seen));
    assert keys == keys * w.seen;
    NothingNew(w, data);
  }

  lemma NothingNew(w: View, data: Page)
    requires |NewRows(data, w.seen)| == 0
    ensures Merge(w, data).seen == w.seen && Merge(w, data).total == w.total
    ensures |w.rows| <= MAX_ROWS ==> Merge(w, data).rows == w.rows
  {
    assert NormaliseAll([]) + w.rows == w.rows;
  }

  /** Two replies note and count the same whichever comes first. */
  lemma ReplyOrderDoesNotMatter(v: View, a: Page, b: Page)
    requires Sound(v)
    ensures Merge(Merge(v, a), b).seen == Merge(Merge(v, b), a).seen
    ensures !Raises(a) && !Raises(b) ==> Merge(Merge(v, a), b).total == Merge(Merge(v, b), a).total
  {
    SeenAfterTwo(v, a, b);
    SeenAfterTwo(v, b, a);
    assert Merge(Merge(v, a), b).seen == Merge(Merge(v, b), a).seen;
  }

  lemma SeenAfterTwo(v: View, a: Page, b: Page)
    requires Sound(v)
    ensures var w := Merge(Merge(v, a), b);
            && (forall key :: key in w.seen <==> key in v.seen || (key != "" && (Carries(a, key) || Carries(b, key))))
            && (!Raises(a) && !Raises(b) ==> w.total - v.total == |w.seen| - |v.seen|)
  {
    MergeKeeps(v, a);
    MergeKeeps(Merge(v, a), b);
  }

  /** One page of a row and a null: the row's key is noted, nothing is shown, and the row never will be. */
  lemma NullLosesARow(row: Row)
    requires Key(row) != ""
    ensures var v := After(START, [Reply(0, Some([Some(row), None]))]);
            v.seen == {Key(row)} && v.total == 0 && v.rows == []
    ensures var v := After(START, [Reply(0, Some([Some(row), None]))]);
            Merge(v, [Some(row)]).total == 0 && Merge(v, [Some(row)]).rows == []
  {
    var data: Page := [Some(row), None];
    OneMoreEntry(data, 0, [], {});
    assert data[0..] == data && data[1..] == [None];
    assert data[1].None?;
    assert NewRows(data, {}) == [row] by { assert [] + NewRows(data, {}) == NewRows(data, {}); }
    assert Keys([row]) == {Key(row)} by { assert [row][1..] == []; }
    OneMoreEntry([Some(row)], 0, [], {Key(row)});
    assert [Reply(0, Some(data))][..0] == [];
  }

  /** One row on a page of its own: its key is its id, else its audit id, else its transaction id; a row
      with a new key goes on top, the sixty-first falls off, and the cursor takes its timestamp. */
  lemma OneRowPage(v: View, row: Row)
    requires |v.rows| <= 60
    ensures var key := if row.id != "" then row.id else if row.auditId != "" then row.auditId else row.transactionId;
            var w := Merge(v, [Some(row)]);
            && w.cursor == (if row.createdAt != "" then Some(row.createdAt) else v.cursor)
            && if key == "" || key in v.seen then w.rows == v.rows && w.total == v.total && w.seen == v.seen
               else
                 && w.seen == v.seen + {key} && w.total == v.total + 1
                 && |w.rows| == (if |v.rows| < 60 then |v.rows| + 1 else 60)
                 && w.rows[0] == Shown(key, row.transactionId, row.body)
                 && forall i | 1 <= i < |w.rows| :: w.rows[i] == v.rows[i - 1]
  {
    var data: Page := [Some(row)];
    assert data[1..] == [] && !Raises(data);
    OneMoreEntry(data, 0, [], v.seen);
    assert [row][1..] == [];
    assert NewRows(data, v.seen) == if Key(row) == "" || Key(row) in v.seen then [] else [row];
    assert NormaliseAll([]) + v.rows == v.rows;
    assert NormaliseAll([row]) == [Normalise(row)] && Keys([row]) == {Key(row)};
    OnTopOf(Normalise(row), v.rows);
  }

  lemma OnTopOf(next: Shown, rows: seq<Shown>)
    requires |rows| <= 60
    ensures var top := First([next] + rows, MAX_ROWS);
            && |top| == (if |rows| < 60 then |rows| + 1 else 60) && top[0] == next
            && forall i | 1 <= i < |top| :: top[i] == rows[i - 1]
  {
  }

  /** What a poll of an earlier effect, a poll answered while paused, or a failed poll brings changes nothing. */
  lemma CancelledRepliesChangeNothing(v: View, data: Option<Page>)
    ensures var w := Step(Step(v, Pause), Resume); Step(w, Reply(v.effect, data)) == w
    ensures v.paused ==> Step(v, Reply(v.effect, data)) == v
    ensures Step(v, Reply(v.effect, None)) == v
  {
  }

  /** The place of a page from which each new row was taken. */
  function NewPlaces(data: Page, seen: set<string>): seq<nat> {
    if data == [] || data[0].None? then []
    else
      var key := Key(data[0].value);
      if key == "" || key in seen then Later(NewPlaces(data[1..], seen)) else [0] + Later(NewPlaces(data[1..], seen + {key}))
  }

  function Later(places: seq<nat>): (later: seq<nat>)
    ensures |later| == |places| && forall i | 0 <= i < |places| :: later[i] == places[i] + 1
  {
    if places == [] then [] else [places[0] + 1] + Later(places[1..])
  }

  /** The new rows keep the order of the page. */
  lemma {:induction false} NewRowsKeepTheOrder(data: Page, seen: set<string>)
    ensures AreTaken(data, NewPlaces(data, seen), NewRows(data, seen))
  {
    if data != [] && data[0].Some? {
      var key := Key(data[0].value);
      var noted := if key == "" || key in seen then seen else seen + {key};
      NewRowsKeepTheOrder(data[1..], noted);
      TakenFrom(data, NewPlaces(data[1..], noted), NewRows(data[1..], noted));
    }
  }

  /** The rows were taken from these places of the page, in its order. */
  ghost predicate AreTaken(data: Page, places: seq<nat>, rows: seq<Row>) {
    && |places| == |rows|
    && (forall i | 0 <= i < |places| :: places[i] < |data| && data[places[i]] == Some(rows[i]))
    && (forall i, j | 0 <= i < j < |places| :: places[i] < places[j])
  }

  lemma TakenFrom(data: Page, places: seq<nat>, rows: seq<Row>)
    requires data != [] && AreTaken(data[1..], places, rows)
    ensures AreTaken(data, Later(places), rows)
    ensures data[0].Some? ==> AreTaken(data, [0] + Later(places), [data[0].value] + rows)
  {
  }
}
