/** The confusion matrix of a simulation, and its projection to a real base rate of fraud. */
module SimulationAnalysis {
  import opened Wrappers
  import opened Metrics

  datatype Row = Row(
    status: Option<int>, fraudProbability: Option<real>, groundTruth: string,
    source: Option<string>, decision: Option<string>)

  datatype Cell = TruePositive | FalsePositive | TrueNegative | FalseNegative

  /** Rows whose request failed, or that carry no score, are left out. */
  predicate Counted(row: Row) {
    row.status.Some? && row.status.value >= 200 && row.fraudProbability.Some?
  }

  predicate IsFraud(row: Row) {
    row.groundTruth == "FRAUD"
  }

  predicate ByRule(row: Row) {
    row.source == Some("PRE_RULE") || row.source == Some("POST_RULE")
  }

  /** A rule's decision stands whatever the score; a model's is taken again at the threshold. */
  predicate Blocked(row: Row, threshold: real, reviewBlocks: bool)
    requires Counted(row)
  {
    if ByRule(row) then row.decision == Some("DECLINE") || (reviewBlocks && row.decision == Some("REVIEW"))
    else row.fraudProbability.value >= threshold
  }

  function CellOf(row: Row, threshold: real, reviewBlocks: bool): Option<Cell> {
    if !Counted(row) then None
    else if Blocked(row, threshold, reviewBlocks) then Some(if IsFraud(row) then TruePositive else FalsePositive)
    else Some(if IsFraud(row) then FalseNegative else TrueNegative)
  }

  /** How many rows fall in a cell. */
  function Count(rows: seq<Row>, threshold: real, reviewBlocks: bool, cell: Cell): nat {
    if rows == [] then 0
    else
      var last := |rows| - 1;
      Count(rows[..last], threshold, reviewBlocks, cell) +
      if CellOf(rows[last], threshold, reviewBlocks) == Some(cell) then 1 else 0
  }

  /** How many counted rows are, or are not, fraud. */
  function CountTruth(rows: seq<Row>, fraud: bool): nat {
    if rows == [] then 0
    else
      var last := |rows| - 1;
      CountTruth(rows[..last], fraud) + if Counted(rows[last]) && IsFraud(rows[last]) == fraud then 1 else 0
  }

  function Matrix(rows: seq<Row>, threshold: real, reviewBlocks: bool): Confusion {
    Confusion(Count(rows, threshold, reviewBlocks, TruePositive), Count(rows, threshold, reviewBlocks, FalsePositive),
              Count(rows, threshold, reviewBlocks, TrueNegative), Count(rows, threshold, reviewBlocks, FalseNegative))
  }

  method ConfusionOf(rows: seq<Row>, threshold: real, reviewBlocks: bool := true)
    returns (tp: nat, fp: nat, tn: nat, fn: nat)
    ensures Confusion(tp, fp, tn, fn) == Matrix(rows, threshold, reviewBlocks)
  {
    tp, fp, tn, fn := 0, 0, 0, 0;
    var i := 0;
    while i < |rows|
      invariant i <= |rows|
      invariant Confusion(tp, fp, tn, fn) == Matrix(rows[..i], threshold, reviewBlocks)
    {
      var r := rows[i];
      assert rows[..i + 1][..i] == rows[..i];
      i := i + 1;
      var status := if r.status.Some? then r.status.value else 0;
      if status < 200 || r.fraudProbability.None? {
        continue;
      }
      var gt := r.groundTruth == "FRAUD";
      var blocked;
      if r.source.Some? && r.source.value in ["PRE_RULE", "POST_RULE"] {
        blocked := r.decision == Some("DECLINE") || (reviewBlocks && r.decision == Some("REVIEW"));
      } else {
        blocked := r.fraudProbability.value >= threshold;
      }
      if gt && blocked {
        tp := tp + 1;
      } else if gt && !blocked {
        fn := fn + 1;
      } else if !gt && blocked {
        fp := fp + 1;
      } else {
        tn := tn + 1;
      }
    }
    assert rows[..i] == rows;
  }

  /** Every counted row falls in one cell, and the threshold moves no row between the fraud cells and
      the others: each pair sums to a number of rows that does not depend on it. */
  lemma {:induction false} CellsSplitTheTruth(rows: seq<Row>, threshold: real, reviewBlocks: bool)
    ensures var c := Matrix(rows, threshold, reviewBlocks);
            c.tp + c.fn == CountTruth(rows, true) && c.fp + c.tn == CountTruth(rows, false)
  {
    if rows != [] {
      CellsSplitTheTruth(rows[..|rows| - 1], threshold, reviewBlocks);
    }
  }

  /** A higher threshold, or letting reviews pass, blocks no row that was not blocked before. */
  lemma {:induction false} StricterBlocksFewer(rows: seq<Row>, low: real, high: real, reviewBlocks: bool, stricter: bool)
    requires low <= high && (stricter ==> reviewBlocks)
    ensures var a, b := Matrix(rows, low, reviewBlocks), Matrix(rows, high, stricter);
            && b.tp <= a.tp && b.fp <= a.fp
            && Recall(b) <= Recall(a) && FalsePositiveRate(b) <= FalsePositiveRate(a)
  {
    CellsSplitTheTruth(rows, low, reviewBlocks);
    CellsSplitTheTruth(rows, high, stricter);
    FewerBlocked(rows, low, high, reviewBlocks, stricter);
    var a, b := Matrix(rows, low, reviewBlocks), Matrix(rows, high, stricter);
    ShareRises(b.tp, a.tp, CountTruth(rows, true));
    ShareRises(b.fp, a.fp, CountTruth(rows, false));
  }

  lemma {:induction false} FewerBlocked(rows: seq<Row>, low: real, high: real, reviewBlocks: bool, stricter: bool)
    requires low <= high && (stricter ==> reviewBlocks)
    ensures Matrix(rows, high, stricter).tp <= Matrix(rows, low, reviewBlocks).tp
    ensures Matrix(rows, high, stricter).fp <= Matrix(rows, low, reviewBlocks).fp
  {
    if rows != [] {
      FewerBlocked(rows[..|rows| - 1], low, high, reviewBlocks, stricter);
    }
  }

  /** Projected to the fraud rate of its own counted rows, a simulation's recall and false-positive
      rate give back its precision. */
  lemma ProjectionAtTheOwnRate(rows: seq<Row>, threshold: real, reviewBlocks: bool)
    requires CountTruth(rows, true) + CountTruth(rows, false) > 0
    ensures var c := Matrix(rows, threshold, reviewBlocks);
            var rate := Share(CountTruth(rows, true), CountTruth(rows, true) + CountTruth(rows, false));
            PrecisionAtBaseRate(Recall(c), FalsePositiveRate(c), rate) == Precision(c)
  {
    var c := Matrix(rows, threshold, reviewBlocks);
    CellsSplitTheTruth(rows, threshold, reviewBlocks);
    OwnRateGivesThePrecision(c);
    assert c.tp + c.fp + c.tn + c.fn == CountTruth(rows, true) + CountTruth(rows, false);
  }

  // ── the four counts, row by row ────────────────────────────────

  /** A row with a score whose request succeeded: blocked by the decision of a rule, or otherwise when
      its score reaches the threshold. */
  ghost predicate IsBlocked(row: Row, threshold: real, reviewBlocks: bool)
    requires row.fraudProbability.Some?
  {
    if row.source.Some? && row.source.value in {"PRE_RULE", "POST_RULE"}
    then row.decision.Some? && (row.decision.value == "DECLINE" || (row.decision.value == "REVIEW" && reviewBlocks))
    else row.fraudProbability.value >= threshold
  }

  /** The rows that count as fraud, or not, and are blocked, or not. */
  ghost predicate FallsIn(row: Row, threshold: real, reviewBlocks: bool, fraud: bool, blocked: bool) {
    && row.status.Some? && row.status.value >= 200 && row.fraudProbability.Some?
    && (fraud <==> row.groundTruth == "FRAUD") && (blocked <==> IsBlocked(row, threshold, reviewBlocks))
  }

  ghost function Indexes(rows: seq<Row>, threshold: real, reviewBlocks: bool, fraud: bool, blocked: bool): set<nat> {
    set i: nat | i < |rows| && FallsIn(rows[i], threshold, reviewBlocks, fraud, blocked)
  }

  function CellFor(fraud: bool, blocked: bool): Cell {
    if blocked then (if fraud then TruePositive else FalsePositive) else if fraud then FalseNegative else TrueNegative
  }

  lemma RowFallsIn(row: Row, threshold: real, reviewBlocks: bool, fraud: bool, blocked: bool)
    ensures FallsIn(row, threshold, reviewBlocks, fraud, blocked) <==>
            CellOf(row, threshold, reviewBlocks) == Some(CellFor(fraud, blocked))
  {
  }

  lemma OneMoreFalls(rows: seq<Row>, next: Row, threshold: real, reviewBlocks: bool, fraud: bool, blocked: bool)
    ensures |Indexes(rows + [next], threshold, reviewBlocks, fraud, blocked)| ==
            |Indexes(rows, threshold, reviewBlocks, fraud, blocked)| +
            if FallsIn(next, threshold, reviewBlocks, fraud, blocked) then 1 else 0
  {
    var before := Indexes(rows, threshold, reviewBlocks, fraud, blocked);
    var falls := FallsIn(next, threshold, reviewBlocks, fraud, blocked);
    assert Indexes(rows + [next], threshold, reviewBlocks, fraud, blocked) == if falls then before + {|rows|} else before;
  }

  lemma {:induction false} CellsAreCounted(rows: seq<Row>, threshold: real, reviewBlocks: bool, fraud: bool, blocked: bool)
    ensures |Indexes(rows, threshold, reviewBlocks, fraud, blocked)| ==
            Count(rows, threshold, reviewBlocks, CellFor(fraud, blocked))
  {
    if rows != [] {
      var last := |rows| - 1;
      CellsAreCounted(rows[..last], threshold, reviewBlocks, fraud, blocked);
      OneMoreFalls(rows[..last], rows[last], threshold, reviewBlocks, fraud, blocked);
      RowFallsIn(rows[last], threshold, reviewBlocks, fraud, blocked);
      assert rows == rows[..last] + [rows[last]];
    }
  }

  /** The matrix counts the rows: true positives are the blocked frauds, false positives the blocked
      others, and so on, among the rows with a score whose request succeeded. */
  lemma MatrixCounts(rows: seq<Row>, threshold: real, reviewBlocks: bool)
    ensures var c := Matrix(rows, threshold, reviewBlocks);
            && c.tp == |Indexes(rows, threshold, reviewBlocks, true, true)|
            && c.fp == |Indexes(rows, threshold, reviewBlocks, false, true)|
            && c.tn == |Indexes(rows, threshold, reviewBlocks, false, false)|
            && c.fn == |Indexes(rows, threshold, reviewBlocks, true, false)|
  {
    CellsAreCounted(rows, threshold, reviewBlocks, true, true);
    CellsAreCounted(rows, threshold, reviewBlocks, false, true);
    CellsAreCounted(rows, threshold, reviewBlocks, false, false);
    CellsAreCounted(rows, threshold, reviewBlocks, true, false);
  }
}
