/** Follow-up conversations: `add_message` as threads that interleave at every database access. */
module Conversation {
  import opened Wrappers
  import opened ReportStore

  /** Where an `add_message` thread stands. `Stopped` covers a crash and a database error. */
  datatype Phase =
    | Finding
    | Numbering
    | AddingUser(index: nat)
    | Chatting(index: nat)
    | AddingAssistant(index: nat, answer: string)
    | Replied(code: nat)
    | Stopped

  datatype Thread = Thread(report: nat, message: string, phase: Phase)

  /** `reports` holds the ids of the stored reports. */
  datatype Chat = Chat(reports: set<nat>, turns: seq<Turn>, threads: map<nat, Thread>)

  /** `Proceed` carries the model's answer, `None` when the chat fails. */
  datatype Step =
    | Open(thread: nat, report: nat, message: string)
    | Proceed(thread: nat, answer: Option<string>)
    | Stop(thread: nat)
    | Stored(report: nat)

  predicate Running(t: Thread) {
    !t.phase.Replied? && !t.phase.Stopped?
  }

  predicate Enabled(c: Chat, step: Step) {
    match step
    case Open(k, _, _) => k !in c.threads
    case Proceed(k, _) => k in c.threads && Running(c.threads[k])
    case Stop(k) => k in c.threads && Running(c.threads[k])
    case Stored(_) => true
  }

  /** One atomic step of one thread. */
  function Advance(reports: set<nat>, turns: seq<Turn>, t: Thread, answer: Option<string>): (seq<Turn>, Thread)
    requires Running(t)
  {
    match t.phase
    case Finding => (turns, t.(phase := if t.report in reports then Numbering else Replied(404)))
    case Numbering => (turns, t.(phase := AddingUser(NextTurnIndex(turns, t.report))))
    case AddingUser(n) => (InsertTurn(turns, Turn(t.report, n, User, t.message)), t.(phase := Chatting(n)))
    case Chatting(n) => (turns, t.(phase := if answer.Some? then AddingAssistant(n, answer.value) else Replied(500)))
    case AddingAssistant(n, text) => (InsertTurn(turns, Turn(t.report, n + 1, Assistant, text)), t.(phase := Replied(201)))
  }

  function Apply(c: Chat, step: Step): Chat
    requires Enabled(c, step)
  {
    match step
    case Open(k, report, message) => c.(threads := c.threads[k := Thread(report, message, Finding)])
    case Proceed(k, answer) =>
      var (turns, t) := Advance(c.reports, c.turns, c.threads[k], answer);
      c.(turns := turns, threads := c.threads[k := t])
    case Stop(k) => c.(threads := c.threads[k := c.threads[k].(phase := Stopped)])
    case Stored(report) => c.(reports := c.reports + {report})
  }

  predicate IsRun(c: Chat, run: seq<Step>)
    decreases |run|
  {
    run == [] || (Enabled(c, run[0]) && IsRun(Apply(c, run[0]), run[1..]))
  }

  function After(c: Chat, run: seq<Step>): Chat
    requires IsRun(c, run)
    decreases |run|
  {
    if run == [] then c else After(Apply(c, run[0]), run[1..])
  }

  /** The turns of one report in the order they were stored. */
  function Of(turns: seq<Turn>, report: nat): seq<Turn> {
    if turns == [] then []
    else
      var last := turns[|turns| - 1];
      Of(turns[..|turns| - 1], report) + if last.reportId == report then [last] else []
  }

  lemma OfAppend(turns: seq<Turn>, t: Turn, report: nat)
    ensures Of(turns + [t], report) == Of(turns, report) + if t.reportId == report then [t] else []
  {
    assert (turns + [t])[..|turns|] == turns;
  }

  /** The k-th turn stored for a report carries index k: no gap, no duplicate, no reordering. */
  ghost predicate Numbered(turns: seq<Turn>, report: nat) {
    forall k | 0 <= k < |Of(turns, report)| :: Of(turns, report)[k].turnIndex == k
  }

  lemma {:induction false} NumberedMeans(turns: seq<Turn>, report: nat, index: nat)
    requires Numbered(turns, report)
    ensures MaxIndex(turns, report) == |Of(turns, report)| - 1
    ensures HasTurn(turns, report, index) <==> index < |Of(turns, report)|
  {
    if turns != [] {
      var before, last := turns[..|turns| - 1], turns[|turns| - 1];
      var conversation := Of(turns, report);
      assert Numbered(before, report) by {
        forall k | 0 <= k < |Of(before, report)| ensures Of(before, report)[k].turnIndex == k {
          assert Of(before, report)[k] == conversation[k];
        }
      }
      NumberedMeans(before, report, index);
      if last.reportId == report {
        assert conversation[|conversation| - 1] == last;
      }
      if HasTurn(before, report, index) {
        var i :| 0 <= i < |before| && before[i].reportId == report && before[i].turnIndex == index;
        assert turns[i] == before[i];
      }
      if HasTurn(turns, report, index) {
        var i :| 0 <= i < |turns| && turns[i].reportId == report && turns[i].turnIndex == index;
        assert i < |before| ==> before[i] == turns[i];
      }
    }
  }

  /** A thread only ever writes at an index the conversation has already reached. */
  ghost predicate ThreadOk(turns: seq<Turn>, t: Thread) {
    match t.phase
    case AddingUser(n) => n <= |Of(turns, t.report)|
    case Chatting(n) => n + 1 <= |Of(turns, t.report)|
    case AddingAssistant(n, _) => n + 1 <= |Of(turns, t.report)|
    case _ => true
  }

  ghost predicate Inv(c: Chat) {
    && AllNumbered(c.turns)
    && (forall k <- c.threads :: ThreadOk(c.turns, c.threads[k]))
  }

  /** An insertion at a reached index appends one turn exactly at the end, and is otherwise void. */
  lemma InsertKeeps(turns: seq<Turn>, t: Turn, report: nat)
    requires Numbered(turns, t.reportId) && Numbered(turns, report) && t.turnIndex <= |Of(turns, t.reportId)|
    ensures var after := InsertTurn(turns, t);
            && Numbered(after, report)
            && turns <= after && Of(turns, report) <= Of(after, report)
            && (after != turns <==> t.turnIndex == |Of(turns, t.reportId)|)
            && |Of(after, t.reportId)| >= t.turnIndex + 1
            && (after != turns ==> after == turns + [t] && Of(after, t.reportId) == Of(turns, t.reportId) + [t])
            && (report != t.reportId ==> Of(after, report) == Of(turns, report))
  {
    NumberedMeans(turns, t.reportId, t.turnIndex);
    OfAppend(turns, t, report);
    OfAppend(turns, t, t.reportId);
  }

  lemma AdvanceKeeps(reports: set<nat>, turns: seq<Turn>, t: Thread, answer: Option<string>, report: nat)
    requires Running(t) && ThreadOk(turns, t) && Numbered(turns, t.report) && Numbered(turns, report)
    ensures var (turns', t') := Advance(reports, turns, t, answer);
            && Numbered(turns', report) && Of(turns, report) <= Of(turns', report)
            && turns <= turns' && ThreadOk(turns', t')
  {
    if t.phase.Numbering? {
      NumberedMeans(turns, t.report, 0);
    } else if t.phase.AddingUser? {
      var turn := Turn(t.report, t.phase.index, User, t.message);
      InsertKeeps(turns, turn, report);
      assert |Of(InsertTurn(turns, turn), turn.reportId)| >= turn.turnIndex + 1;
    } else if t.phase.AddingAssistant? {
      InsertKeeps(turns, Turn(t.report, t.phase.index + 1, Assistant, t.phase.answer), report);
    }
  }

  lemma InvKept(c: Chat, step: Step, report: nat)
    requires Inv(c) && Enabled(c, step)
    ensures Inv(Apply(c, step)) && c.turns <= Apply(c, step).turns
    ensures Of(c.turns, report) <= Of(Apply(c, step).turns, report)
  {
    var c' := Apply(c, step);
    if step.Proceed? {
      var t := c.threads[step.thread];
      AdvanceKeeps(c.reports, c.turns, t, step.answer, report);
      forall r: nat ensures Numbered(c'.turns, r) {
        AdvanceKeeps(c.reports, c.turns, t, step.answer, r);
      }
      forall k | k in c'.threads ensures ThreadOk(c'.turns, c'.threads[k]) {
        if k != step.thread {
          AdvanceKeeps(c.reports, c.turns, t, step.answer, c.threads[k].report);
        }
      }
    }
  }

  lemma {:induction false} RunKeeps(c: Chat, run: seq<Step>, report: nat)
    requires Inv(c) && IsRun(c, run)
    ensures Inv(After(c, run)) && Of(c.turns, report) <= Of(After(c, run).turns, report)
    decreases |run|
  {
    if run != [] {
      InvKept(c, run[0], report);
      RunKeeps(Apply(c, run[0]), run[1..], report);
    }
  }

  predicate Empty(c: Chat) {
    c.turns == [] && c.threads == map[]
  }

  /** Under every interleaving of `add_message` calls, with failing chats and threads lost at any
      point, the stored turn indices of a report are exactly 0 to n-1, in storage order, and the
      conversation only ever grows at its end: no stored turn changes or moves. */
  lemma ConversationsHaveNoGaps(c: Chat, run: seq<Step>, more: seq<Step>, report: nat, index: nat)
    requires Empty(c) && IsRun(c, run) && IsRun(After(c, run), more)
    ensures var turns := After(c, run).turns;
            && (forall k | 0 <= k < |Of(turns, report)| :: Of(turns, report)[k].turnIndex == k)
            && (HasTurn(turns, report, index) <==> index < |Of(turns, report)|)
            && NextTurnIndex(turns, report) == |Of(turns, report)|
            && Of(turns, report) <= Of(After(After(c, run), more).turns, report)
  {
    RunKeeps(c, run, report);
    RunKeeps(After(c, run), more, report);
    NumberedMeans(After(c, run).turns, report, index);
  }

  /** One insertion takes effect exactly when the conversation still ends where the thread expects. */
  lemma TurnIsStoredIff(c: Chat, k: nat, answer: Option<string>)
    requires Inv(c) && Enabled(c, Proceed(k, answer))
    requires c.threads[k].phase.AddingUser? || c.threads[k].phase.AddingAssistant?
    ensures var t := c.threads[k];
            var turn := if t.phase.AddingUser? then Turn(t.report, t.phase.index, User, t.message)
                        else Turn(t.report, t.phase.index + 1, Assistant, t.phase.answer);
            var after := Of(Apply(c, Proceed(k, answer)).turns, t.report);
            after == if |Of(c.turns, t.report)| == turn.turnIndex then Of(c.turns, t.report) + [turn] else Of(c.turns, t.report)
  {
    var t := c.threads[k];
    assert ThreadOk(c.turns, t);
    if t.phase.AddingUser? {
      InsertKeeps(c.turns, Turn(t.report, t.phase.index, User, t.message), t.report);
    } else {
      InsertKeeps(c.turns, Turn(t.report, t.phase.index + 1, Assistant, t.phase.answer), t.report);
    }
  }

  // ── when a whole call is stored ────────────────────────────────

  /** The thread has read its index and has not replied yet. */
  predicate Committed(t: Thread) {
    t.phase.AddingUser? || t.phase.Chatting? || t.phase.AddingAssistant?
  }

  /** The step stores a turn of thread k. */
  predicate StoresOwn(c: Chat, step: Step, k: nat)
    requires Enabled(c, step)
  {
    step.Proceed? && step.thread == k && Apply(c, step).turns != c.turns
  }

  /** The step stores a turn of another thread in thread k's conversation, between k's reading of its
      index and k's reply. */
  predicate StoresOther(c: Chat, step: Step, k: nat)
    requires Enabled(c, step)
  {
    && k in c.threads && Committed(c.threads[k])
    && step.Proceed? && step.thread != k && c.threads[step.thread].report == c.threads[k].report
    && Apply(c, step).turns != c.turns
  }

  /** How many turns of its own thread k stores in a run. */
  function Own(c: Chat, run: seq<Step>, k: nat): nat
    requires IsRun(c, run)
    decreases |run|
  {
    if run == [] then 0
    else (if StoresOwn(c, run[0], k) then 1 else 0) + Own(Apply(c, run[0]), run[1..], k)
  }

  /** How many turns others store in its conversation meanwhile. */
  function Others(c: Chat, run: seq<Step>, k: nat): nat
    requires IsRun(c, run)
    decreases |run|
  {
    if run == [] then 0
    else (if StoresOther(c, run[0], k) then 1 else 0) + Others(Apply(c, run[0]), run[1..], k)
  }

  function Length(c: Chat, k: nat): nat
    requires k in c.threads
  {
    |Of(c.turns, c.threads[k].report)|
  }

  /** What a step of any thread does to the length of thread k's conversation. */
  lemma LengthGrows(c: Chat, step: Step, k: nat)
    requires Inv(c) && Enabled(c, step) && k in c.threads
    ensures var c' := Apply(c, step);
            && k in c'.threads && c'.threads[k].report == c.threads[k].report
            && ((step.Proceed? && step.thread == k) || c'.threads[k].phase == c.threads[k].phase || c'.threads[k].phase.Stopped?)
            && (Committed(c.threads[k]) ==>
                  Length(c', k) == Length(c, k) + (if StoresOwn(c, step, k) then 1 else 0) + if StoresOther(c, step, k) then 1 else 0)
  {
    if step.Proceed? {
      var t := c.threads[step.thread];
      assert ThreadOk(c.turns, t) && Numbered(c.turns, t.report) && Numbered(c.turns, c.threads[k].report);
      if t.phase.AddingUser? {
        InsertGrows(c.turns, Turn(t.report, t.phase.index, User, t.message), c.threads[k].report);
      } else if t.phase.AddingAssistant? {
        InsertGrows(c.turns, Turn(t.report, t.phase.index + 1, Assistant, t.phase.answer), c.threads[k].report);
      }
    }
  }

  lemma InsertGrows(turns: seq<Turn>, t: Turn, report: nat)
    requires Numbered(turns, t.reportId) && Numbered(turns, report) && t.turnIndex <= |Of(turns, t.reportId)|
    ensures |Of(InsertTurn(turns, t), report)| ==
            |Of(turns, report)| + if report == t.reportId && InsertTurn(turns, t) != turns then 1 else 0
    ensures InsertTurn(turns, t) != turns <==> t.turnIndex == |Of(turns, t.reportId)|
  {
    InsertKeeps(turns, t, report);
  }

  /** A thread that has replied or is lost stores nothing more. */
  lemma {:induction false} FinishedStays(c: Chat, run: seq<Step>, k: nat)
    requires IsRun(c, run) && k in c.threads && !Running(c.threads[k])
    ensures k in After(c, run).threads && After(c, run).threads[k] == c.threads[k]
    ensures Own(c, run, k) == 0 && Others(c, run, k) == 0
    decreases |run|
  {
    if run != [] {
      FinishedStays(Apply(c, run[0]), run[1..], k);
    }
  }

  /** From a thread that still has its answer to store: it will if and only if its conversation, with
      all that others add to it, ends right behind the thread's question. */
  lemma {:induction false} AnswerIsStoredIff(c: Chat, run: seq<Step>, k: nat, n: nat)
    requires Inv(c) && IsRun(c, run) && k in c.threads
    requires c.threads[k].phase == Chatting(n) || (c.threads[k].phase.AddingAssistant? && c.threads[k].phase.index == n)
    ensures k in After(c, run).threads
    ensures Own(c, run, k) <= 1
    ensures After(c, run).threads[k].phase == Replied(201) ==>
              (Own(c, run, k) == 1 <==> Length(c, k) + Others(c, run, k) == n + 1)
    decreases |run|
  {
    if run != [] {
      var c' := Apply(c, run[0]);
      InvKept(c, run[0], c.threads[k].report);
      LengthGrows(c, run[0], k);
      assert ThreadOk(c.turns, c.threads[k]);
      if Running(c'.threads[k]) {
        AnswerIsStoredIff(c', run[1..], k, n);
      } else {
        FinishedStays(c', run[1..], k);
        AnswerStep(c, run[0], k, n);
      }
    }
  }

  /** The step that stores, or fails to store, the answer. */
  lemma AnswerStep(c: Chat, step: Step, k: nat, n: nat)
    requires Inv(c) && Enabled(c, step) && k in c.threads
    requires c.threads[k].phase == Chatting(n) || (c.threads[k].phase.AddingAssistant? && c.threads[k].phase.index == n)
    ensures k in Apply(c, step).threads
    ensures Apply(c, step).threads[k].phase == Replied(201) ==>
              !StoresOther(c, step, k) && (StoresOwn(c, step, k) <==> Length(c, k) == n + 1)
  {
    if step.Proceed? && step.thread == k && c.threads[k].phase.AddingAssistant? {
      TurnIsStoredIff(c, k, step.answer);
    }
  }

  /** From a thread that has just read its index, or still has its question to store. */
  lemma {:induction false} BothAreStoredIff(c: Chat, run: seq<Step>, k: nat, n: nat)
    requires Inv(c) && IsRun(c, run) && k in c.threads && c.threads[k].phase == AddingUser(n)
    ensures k in After(c, run).threads
    ensures After(c, run).threads[k].phase == Replied(201) ==>
              (Own(c, run, k) == 2 <==> Length(c, k) + Others(c, run, k) == n)
    decreases |run|
  {
    if run != [] {
      var c' := Apply(c, run[0]);
      InvKept(c, run[0], c.threads[k].report);
      LengthGrows(c, run[0], k);
      assert ThreadOk(c.turns, c.threads[k]);
      if c'.threads[k].phase == AddingUser(n) {
        BothAreStoredIff(c', run[1..], k, n);
      } else if c'.threads[k].phase == Chatting(n) {
        TurnIsStoredIff(c, k, run[0].answer);
        AnswerIsStoredIff(c', run[1..], k, n);
      } else {
        FinishedStays(c', run[1..], k);
      }
    }
  }

  /** From any earlier moment of the thread, or before it exists. */
  lemma {:induction false} CallIsStoredFrom(c: Chat, run: seq<Step>, k: nat)
    requires Inv(c) && IsRun(c, run) && (k in c.threads ==> c.threads[k].phase.Finding? || c.threads[k].phase.Numbering?)
    ensures k in After(c, run).threads && After(c, run).threads[k].phase == Replied(201) ==>
              (Own(c, run, k) == 2 <==> Others(c, run, k) == 0)
    decreases |run|
  {
    if run != [] {
      var c' := Apply(c, run[0]);
      InvKept(c, run[0], 0);
      if k !in c'.threads || c'.threads[k].phase.Finding? || c'.threads[k].phase.Numbering? {
        CallIsStoredFrom(c', run[1..], k);
      } else if c'.threads[k].phase.AddingUser? {
        assert Numbered(c.turns, c.threads[k].report);
        NumberedMeans(c.turns, c.threads[k].report, 0);
        BothAreStoredIff(c', run[1..], k, c'.threads[k].phase.index);
      } else {
        FinishedStays(c', run[1..], k);
      }
    }
  }

  /** Over whole runs: a call answered 201 has both its turns stored exactly when no other call stored
      a turn of the same report between the call's reading of its index and its reply. */
  lemma CallIsStoredIff(c: Chat, run: seq<Step>, k: nat)
    requires Empty(c) && IsRun(c, run)
    requires k in After(c, run).threads && After(c, run).threads[k].phase == Replied(201)
    ensures Own(c, run, k) == 2 <==> Others(c, run, k) == 0
  {
    CallIsStoredFrom(c, run, k);
  }

  // ── calls that do not overlap ──────────────────────────────────

  /** One call with the model's answer to it. */
  datatype Call = Call(report: nat, message: string, answer: Option<string>)

  function Ids(table: seq<Row>): set<nat> {
    set row | row in table :: row.id
  }

  /** What one call does when nothing else runs: the new turns and the reply code. */
  function Exchange(reports: set<nat>, turns: seq<Turn>, call: Call): (seq<Turn>, nat) {
    if call.report !in reports then (turns, 404)
    else
      var n := NextTurnIndex(turns, call.report);
      var asked := InsertTurn(turns, Turn(call.report, n, User, call.message));
      if call.answer.None? then (asked, 500)
      else (InsertTurn(asked, Turn(call.report, n + 1, Assistant, call.answer.value)), 201)
  }

  method AddMessage(writer: ReportWriter, call: Call) returns (code: nat)
    modifies writer`turns
    ensures (writer.turns, code) == Exchange(Ids(writer.reports), old(writer.turns), call)
    ensures var known := exists i | 0 <= i < |writer.reports| :: writer.reports[i].id == call.report;
            code == if !known then 404 else if call.answer.None? then 500 else 201
  {
    if call.report !in Ids(writer.reports) {
      return 404;
    }
    var n := NextTurnIndex(writer.turns, call.report);
    var _ := writer.AddTurn(Turn(call.report, n, User, call.message));
    if call.answer.None? {
      return 500;
    }
    var _ := writer.AddTurn(Turn(call.report, n + 1, Assistant, call.answer.value));
    return 201;
  }

  /** A thread alone in the system does exactly that. */
  lemma ThreadAloneIsExchange(c: Chat, k: nat, call: Call) returns (run: seq<Step>)
    requires k in c.threads && c.threads[k] == Thread(call.report, call.message, Finding)
    ensures IsRun(c, run)
    ensures var (turns, code) := Exchange(c.reports, c.turns, call);
            After(c, run) == c.(turns := turns, threads := c.threads[k := c.threads[k].(phase := Replied(code))])
  {
    var step := Proceed(k, call.answer);
    var c1 := Apply(c, step);
    if call.report !in c.reports {
      Unroll(c, [step], [c1]);
      return [step];
    }
    var c2 := Apply(c1, step);
    var c3 := Apply(c2, step);
    var c4 := Apply(c3, step);
    if call.answer.None? {
      Unroll(c, [step, step, step, step], [c1, c2, c3, c4]);
      assert c4.threads == c.threads[k := c.threads[k].(phase := Replied(500))];
      return [step, step, step, step];
    }
    var c5 := Apply(c4, step);
    Unroll(c, [step, step, step, step, step], [c1, c2, c3, c4, c5]);
    assert c5.threads == c.threads[k := c.threads[k].(phase := Replied(201))];
    return [step, step, step, step, step];
  }

  /** The turns a call owes the conversation it finds at length n. */
  function Owes(reports: set<nat>, call: Call, n: nat): seq<Turn> {
    if call.report !in reports then []
    else
      [Turn(call.report, n, User, call.message)] +
      if call.answer.Some? then [Turn(call.report, n + 1, Assistant, call.answer.value)] else []
  }

  function OwedTo(reports: set<nat>, call: Call, report: nat, n: nat): seq<Turn> {
    if call.report == report then Owes(reports, call, n) else []
  }

  lemma ExchangeStoresEveryTurn(reports: set<nat>, turns: seq<Turn>, call: Call, report: nat)
    requires Numbered(turns, call.report) && Numbered(turns, report)
    ensures var after := Exchange(reports, turns, call).0;
            && Numbered(after, report)
            && Of(after, report) == Of(turns, report) +
                 OwedTo(reports, call, report, |Of(turns, report)|)
  {
    ExchangeAppends(reports, turns, call);
    OfOwed(reports, turns, call, |Of(turns, call.report)|, report);
  }

  /** Both indices are free, so both inserts take effect. */
  lemma ExchangeAppends(reports: set<nat>, turns: seq<Turn>, call: Call)
    requires Numbered(turns, call.report)
    ensures Exchange(reports, turns, call).0 == turns + Owes(reports, call, |Of(turns, call.report)|)
  {
    if call.report in reports {
      var n := |Of(turns, call.report)|;
      var question := Turn(call.report, n, User, call.message);
      InsertAtTheEnd(turns, question);
      InsertAtTheEnd(turns + [question], Turn(call.report, n + 1, Assistant, if call.answer.Some? then call.answer.value else ""));
    }
  }

  lemma InsertAtTheEnd(turns: seq<Turn>, t: Turn)
    requires Numbered(turns, t.reportId) && t.turnIndex == |Of(turns, t.reportId)|
    ensures NextTurnIndex(turns, t.reportId) == t.turnIndex && InsertTurn(turns, t) == turns + [t]
    ensures Numbered(turns + [t], t.reportId) && |Of(turns + [t], t.reportId)| == t.turnIndex + 1
  {
    NumberedMeans(turns, t.reportId, t.turnIndex);
    InsertKeeps(turns, t, t.reportId);
  }

  lemma OfOwed(reports: set<nat>, turns: seq<Turn>, call: Call, n: nat, report: nat)
    ensures Of(turns + Owes(reports, call, n), report) ==
            Of(turns, report) + OwedTo(reports, call, report, n)
  {
    var owed := Owes(reports, call, n);
    if |owed| == 0 {
      assert turns + owed == turns;
    } else {
      OfAppend(turns, owed[0], report);
      if |owed| == 1 {
        assert turns + owed == turns + [owed[0]];
      } else {
        OfAppend(turns + [owed[0]], owed[1], report);
        assert turns + owed == turns + [owed[0]] + [owed[1]];
      }
    }
  }

  function ExchangeAll(reports: set<nat>, turns: seq<Turn>, calls: seq<Call>): seq<Turn>
    decreases |calls|
  {
    if calls == [] then turns else ExchangeAll(reports, Exchange(reports, turns, calls[0]).0, calls[1..])
  }

  /** The conversation the calls spell out, numbered from n. */
  function Transcript(reports: set<nat>, calls: seq<Call>, report: nat, n: nat): seq<Turn>
    decreases |calls|
  {
    if calls == [] then []
    else
      var owed := OwedTo(reports, calls[0], report, n);
      owed + Transcript(reports, calls[1..], report, n + |owed|)
  }

  ghost predicate AllNumbered(turns: seq<Turn>) {
    forall report: nat :: Numbered(turns, report)
  }

  /** Calls that do not overlap lose no turn: the conversation grows by exactly their transcript. */
  lemma {:induction false} SerialCallsLoseNothing(reports: set<nat>, turns: seq<Turn>, calls: seq<Call>, report: nat)
    requires AllNumbered(turns)
    ensures AllNumbered(ExchangeAll(reports, turns, calls))
    ensures Of(ExchangeAll(reports, turns, calls), report) ==
            Of(turns, report) + Transcript(reports, calls, report, |Of(turns, report)|)
    decreases |calls|
  {
    if calls != [] {
      var owed := OwedTo(reports, calls[0], report, |Of(turns, report)|);
      OneMoreCall(reports, turns, calls[0], report);
      SerialCallsLoseNothing(reports, Exchange(reports, turns, calls[0]).0, calls[1..], report);
      Regroup(Of(turns, report), owed, Transcript(reports, calls[1..], report, |Of(turns, report)| + |owed|));
    }
  }

  lemma Regroup(a: seq<Turn>, b: seq<Turn>, c: seq<Turn>)
    ensures a + b + c == a + (b + c)
  {
  }

  lemma OneMoreCall(reports: set<nat>, turns: seq<Turn>, call: Call, report: nat)
    requires AllNumbered(turns)
    ensures AllNumbered(Exchange(reports, turns, call).0)
    ensures Of(Exchange(reports, turns, call).0, report) ==
            Of(turns, report) + OwedTo(reports, call, report, |Of(turns, report)|)
  {
    assert Numbered(turns, call.report) && Numbered(turns, report);
    ExchangeStoresEveryTurn(reports, turns, call, report);
    forall r: nat ensures Numbered(Exchange(reports, turns, call).0, r) {
      assert Numbered(turns, call.report) && Numbered(turns, r);
      ExchangeStoresEveryTurn(reports, turns, call, r);
    }
  }

  // ── calls that do overlap can lose a question ──────────────────

  /** Both threads read index 0 before either writes; then both run to their reply. */
  const BOTH_READ: seq<Step> := [Proceed(1, None), Proceed(2, None), Proceed(1, None), Proceed(2, None)]
  const BOTH_ASK: seq<Step> := [Proceed(1, None), Proceed(2, None)]
  const BOTH_ANSWERED: seq<Step> :=
    [Proceed(1, Some("one")), Proceed(1, None), Proceed(2, Some("two")), Proceed(2, None)]

  function Pair(turns: seq<Turn>, first: Phase, second: Phase): Chat {
    Chat({5}, turns, map[1 := Thread(5, "first", first), 2 := Thread(5, "second", second)])
  }

  const FIRST_ASKED := [Turn(5, 0, User, "first")]
  const FIRST_ANSWERED := [Turn(5, 0, User, "first"), Turn(5, 1, Assistant, "one")]

  lemma BothRead()
    ensures IsRun(Pair([], Finding, Finding), BOTH_READ)
    ensures After(Pair([], Finding, Finding), BOTH_READ) == Pair([], AddingUser(0), AddingUser(0))
  {
    var found := Pair([], Numbering, Numbering);
    Unroll(Pair([], Finding, Finding), BOTH_READ[..2], [Pair([], Numbering, Finding), found]);
    BothNumbered();
    RunsConcatenate(Pair([], Finding, Finding), BOTH_READ[..2], BOTH_READ[2..]);
    assert BOTH_READ[..2] + BOTH_READ[2..] == BOTH_READ;
  }

  lemma BothNumbered()
    ensures IsRun(Pair([], Numbering, Numbering), BOTH_READ[2..])
    ensures After(Pair([], Numbering, Numbering), BOTH_READ[2..]) == Pair([], AddingUser(0), AddingUser(0))
  {
    Unroll(Pair([], Numbering, Numbering), BOTH_READ[2..],
           [Pair([], AddingUser(0), Numbering), Pair([], AddingUser(0), AddingUser(0))]);
  }

  lemma BothAsk()
    ensures IsRun(Pair([], AddingUser(0), AddingUser(0)), BOTH_ASK)
    ensures After(Pair([], AddingUser(0), AddingUser(0)), BOTH_ASK) == Pair(FIRST_ASKED, Chatting(0), Chatting(0))
  {
    assert [] + FIRST_ASKED == FIRST_ASKED;
    assert HasTurn(FIRST_ASKED, 5, 0) by { assert FIRST_ASKED[0].reportId == 5; }
    Unroll(Pair([], AddingUser(0), AddingUser(0)), BOTH_ASK,
           [Pair(FIRST_ASKED, Chatting(0), AddingUser(0)), Pair(FIRST_ASKED, Chatting(0), Chatting(0))]);
  }

  lemma BothAnswered()
    ensures IsRun(Pair(FIRST_ASKED, Chatting(0), Chatting(0)), BOTH_ANSWERED)
    ensures After(Pair(FIRST_ASKED, Chatting(0), Chatting(0)), BOTH_ANSWERED) == Pair(FIRST_ANSWERED, Replied(201), Replied(201))
  {
    assert FIRST_ASKED + [Turn(5, 1, Assistant, "one")] == FIRST_ANSWERED;
    assert HasTurn(FIRST_ANSWERED, 5, 1) by { assert FIRST_ANSWERED[1].reportId == 5; }
    var halfway := Pair(FIRST_ANSWERED, Replied(201), Chatting(0));
    Unroll(Pair(FIRST_ASKED, Chatting(0), Chatting(0)), BOTH_ANSWERED[..2],
           [Pair(FIRST_ASKED, AddingAssistant(0, "one"), Chatting(0)), halfway]);
    SecondAnswered();
    RunsConcatenate(Pair(FIRST_ASKED, Chatting(0), Chatting(0)), BOTH_ANSWERED[..2], BOTH_ANSWERED[2..]);
    assert BOTH_ANSWERED[..2] + BOTH_ANSWERED[2..] == BOTH_ANSWERED;
  }

  lemma SecondAnswered()
    ensures var halfway := Pair(FIRST_ANSWERED, Replied(201), Chatting(0));
            && IsRun(halfway, BOTH_ANSWERED[2..])
            && After(halfway, BOTH_ANSWERED[2..]) == Pair(FIRST_ANSWERED, Replied(201), Replied(201))
  {
    assert HasTurn(FIRST_ANSWERED, 5, 1) by { assert FIRST_ANSWERED[1].reportId == 5; }
    Unroll(Pair(FIRST_ANSWERED, Replied(201), Chatting(0)), BOTH_ANSWERED[2..],
           [Pair(FIRST_ANSWERED, Replied(201), AddingAssistant(0, "two")),
            Pair(FIRST_ANSWERED, Replied(201), Replied(201))]);
  }

  const BOTH_OPEN: seq<Step> := [Open(1, 5, "first"), Open(2, 5, "second")]

  lemma BothOpen()
    ensures IsRun(Chat({5}, [], map[]), BOTH_OPEN) && After(Chat({5}, [], map[]), BOTH_OPEN) == Pair([], Finding, Finding)
  {
    var one := Chat({5}, [], map[1 := Thread(5, "first", Finding)]);
    Unroll(Chat({5}, [], map[]), BOTH_OPEN, [one, Pair([], Finding, Finding)]);
  }

  /** Two overlapping calls can both be answered 201 although neither turn of the second is stored. */
  lemma OverlappingCallsLoseTurns()
    ensures var c, run := Chat({5}, [], map[]), BOTH_OPEN + BOTH_READ + BOTH_ASK + BOTH_ANSWERED;
            && Empty(c) && IsRun(c, run)
            && After(c, run) == Pair(FIRST_ANSWERED, Replied(201), Replied(201))
  {
    var c := Chat({5}, [], map[]);
    BothOpen();
    BothRead();
    BothAsk();
    BothAnswered();
    RunsConcatenate(c, BOTH_OPEN, BOTH_READ);
    RunsConcatenate(c, BOTH_OPEN + BOTH_READ, BOTH_ASK);
    RunsConcatenate(c, BOTH_OPEN + BOTH_READ + BOTH_ASK, BOTH_ANSWERED);
  }

  lemma {:induction false} RunsConcatenate(c: Chat, a: seq<Step>, b: seq<Step>)
    requires IsRun(c, a) && IsRun(After(c, a), b)
    ensures IsRun(c, a + b) && After(c, a + b) == After(After(c, a), b)
    decreases |a|
  {
    if a == [] {
      assert a + b == b;
    } else {
      assert (a + b)[0] == a[0] && (a + b)[1..] == a[1..] + b;
      RunsConcatenate(Apply(c, a[0]), a[1..], b);
    }
  }

  /** A run given with its intermediate states. */
  lemma {:induction false} Unroll(c: Chat, run: seq<Step>, states: seq<Chat>)
    requires |states| == |run| > 0
    requires Enabled(c, run[0]) && states[0] == Apply(c, run[0])
    requires forall k | 1 <= k < |run| :: Enabled(states[k - 1], run[k]) && states[k] == Apply(states[k - 1], run[k])
    ensures IsRun(c, run) && After(c, run) == states[|states| - 1]
    decreases |run|
  {
    if |run| > 1 {
      Unroll(states[0], run[1..], states[1..]);
    } else {
      assert run[1..] == [];
    }
  }
}
