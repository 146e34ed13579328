/** The threshold sweep: the best decision threshold under a false-positive target. */
module ThresholdSweep {
  import opened Wrappers
  import opened Metrics

  /** One line of the sweep. */
  datatype Line = Line(t: real, recall: real, precision: real, fpRate: real, f1: real, counts: Confusion)

  const FIRST := 0.05
  const LAST := 0.96

  function AtOrAbove(scores: seq<real>, t: real): nat {
    if scores == [] then 0 else (if scores[0] >= t then 1 else 0) + AtOrAbove(scores[1..], t)
  }

  lemma {:induction false} AtOrAboveFalls(scores: seq<real>, low: real, high: real)
    requires low <= high
    ensures AtOrAbove(scores, high) <= AtOrAbove(scores, low) <= |scores|
  {
    if scores != [] {
      AtOrAboveFalls(scores[1..], low, high);
    }
  }

  function CountsAt(fraud: seq<real>, legit: seq<real>, t: real): (c: Confusion)
    ensures c.tp + c.fn == |fraud| && c.fp + c.tn == |legit|
  {
    AtOrAboveFalls(fraud, t, t);
    AtOrAboveFalls(legit, t, t);
    var tp, fp := AtOrAbove(fraud, t), AtOrAbove(legit, t);
    Confusion(tp, fp, |legit| - fp, |fraud| - tp)
  }

  function LineAt(fraud: seq<real>, legit: seq<real>, t: real): Line {
    var c := CountsAt(fraud, legit, t);
    Line(t, Recall(c), Precision(c), FalsePositiveRate(c), F1(Precision(c), Recall(c)), c)
  }

  function Threshold(k: nat, step: real): real {
    if k == 0 then FIRST else Threshold(k - 1, step) + step
  }

  lemma {:induction false} ThresholdFormula(k: nat, step: real)
    ensures Threshold(k, step) == FIRST + k as real * step
  {
    if k > 0 {
      ThresholdFormula(k - 1, step);
      assert k as real * step == (k - 1) as real * step + step;
    }
  }

  ghost predicate AreSwept(lines: seq<Line>, fraud: seq<real>, legit: seq<real>, step: real) {
    forall k: nat | k < |lines| :: Threshold(k, step) <= LAST && lines[k] == LineAt(fraud, legit, Threshold(k, step))
  }

  /** The lines are those of every threshold FIRST, FIRST + step, ... up to LAST. */
  ghost predicate IsSweep(lines: seq<Line>, fraud: seq<real>, legit: seq<real>, step: real) {
    AreSwept(lines, fraud, legit, step) && Threshold(|lines|, step) > LAST
  }

  /** The place of the first line within the target; past the end if there is none. */
  function FirstWithin(lines: seq<Line>, target: real): (place: nat)
    ensures place <= |lines|
    ensures place < |lines| ==> lines[place].fpRate <= target
    ensures forall j | 0 <= j < place :: lines[j].fpRate > target
  {
    if lines == [] || lines[0].fpRate <= target then 0 else 1 + FirstWithin(lines[1..], target)
  }

  /** The loop looks for the greatest recall; what it finds is the lowest threshold within the target. */
  method Sweep(fraud: seq<real>, legit: seq<real>, target: real, step: real)
    returns (best: Option<Line>, lines: seq<Line>)
    requires step > 0.0
    ensures IsSweep(lines, fraud, legit, step)
    ensures var place := FirstWithin(lines, target);
            best == if place < |lines| then Some(lines[place]) else None
  {
    best, lines := None, [];
    var t := FIRST;
    ghost var bound := EndsBy(step);
    while t <= LAST
      invariant t == Threshold(|lines|, step)
      invariant AreSwept(lines, fraud, legit, step)
      invariant var place := FirstWithin(lines, target);
                best == if place < |lines| then Some(lines[place]) else None
      decreases bound - |lines|
    {
      var line := LineAt(fraud, legit, t);
      OneMoreLine(lines, fraud, legit, step, target);
      NotPast(|lines|, bound, step);
      lines := lines + [line];
      if line.fpRate <= target && (best.None? || line.recall > best.value.recall) {
        best := Some(line);
      }
      t := t + step;
    }
  }

  lemma OneMoreLine(lines: seq<Line>, fraud: seq<real>, legit: seq<real>, step: real, target: real)
    requires step > 0.0 && AreSwept(lines, fraud, legit, step) && Threshold(|lines|, step) <= LAST
    ensures var place, line := FirstWithin(lines, target), LineAt(fraud, legit, Threshold(|lines|, step));
            && AreSwept(lines + [line], fraud, legit, step)
            && FirstWithin(lines + [line], target) ==
               (if place < |lines| || line.fpRate <= target then place else place + 1)
            && (place < |lines| ==> line.recall <= lines[place].recall)
  {
    FirstOfMore(lines, LineAt(fraud, legit, Threshold(|lines|, step)), target);
    SweptOnward(lines, fraud, legit, step);
    if FirstWithin(lines, target) < |lines| {
      NoBetterLater(lines, fraud, legit, step, FirstWithin(lines, target));
    }
  }

  lemma SweptOnward(lines: seq<Line>, fraud: seq<real>, legit: seq<real>, step: real)
    requires AreSwept(lines, fraud, legit, step) && Threshold(|lines|, step) <= LAST
    ensures AreSwept(lines + [LineAt(fraud, legit, Threshold(|lines|, step))], fraud, legit, step)
  {
  }

  lemma NoBetterLater(lines: seq<Line>, fraud: seq<real>, legit: seq<real>, step: real, place: nat)
    requires step > 0.0 && AreSwept(lines, fraud, legit, step) && place < |lines|
    ensures LineAt(fraud, legit, Threshold(|lines|, step)).recall <= lines[place].recall
  {
    ThresholdsRise(place, |lines|, step);
    RatesFall(fraud, legit, Threshold(place, step), Threshold(|lines|, step));
  }

  lemma FirstOfMore(lines: seq<Line>, line: Line, target: real)
    ensures var place := FirstWithin(lines, target);
            FirstWithin(lines + [line], target) == if place < |lines| || line.fpRate <= target then place else place + 1
  {
    var place, next := FirstWithin(lines, target), FirstWithin(lines + [line], target);
    assert place < |lines| ==> (lines + [line])[place] == lines[place];
    assert next < |lines| ==> (lines + [line])[next] == lines[next];
    assert forall j | 0 <= j < place :: (lines + [line])[j] == lines[j];
    assert (lines + [line])[|lines|] == line;
  }

  lemma {:induction false} ThresholdsRise(j: nat, k: nat, step: real)
    requires j <= k && step > 0.0
    ensures Threshold(j, step) <= Threshold(k, step)
  {
    if j < k {
      ThresholdsRise(j, k - 1, step);
    }
  }

  lemma NotPast(k: nat, bound: nat, step: real)
    requires step > 0.0 && Threshold(k, step) <= LAST < Threshold(bound, step)
    ensures k < bound
  {
    if bound <= k {
      ThresholdsRise(bound, k, step);
    }
  }

  /** A number of steps that passes the last threshold. */
  lemma EndsBy(step: real) returns (n: nat)
    requires step > 0.0
    ensures Threshold(n, step) > LAST
  {
    n := (1.0 / step).Floor + 1;
    Undivided(1.0, step);
    AtLeast(1.0, step, 0.0);
    Scaled(1.0 / step, n as real, step);
    ThresholdFormula(n, step);
  }

  /** The sweep ends exactly for a positive step. */
  lemma SweepEndsIff(step: real)
    ensures (exists n: nat :: Threshold(n, step) > LAST) <==> step > 0.0
  {
    if step > 0.0 {
      var n := EndsBy(step);
    } else {
      forall n: nat ensures Threshold(n, step) <= LAST {
        ThresholdFormula(n, step);
        Scaled(step, 0.0, n as real);
      }
    }
  }

  /** Recall and false-positive rate never rise with the threshold. */
  lemma RatesFall(fraud: seq<real>, legit: seq<real>, low: real, high: real)
    requires low <= high
    ensures LineAt(fraud, legit, high).recall <= LineAt(fraud, legit, low).recall
    ensures LineAt(fraud, legit, high).fpRate <= LineAt(fraud, legit, low).fpRate
  {
    AtOrAboveFalls(fraud, low, high);
    AtOrAboveFalls(legit, low, high);
    ShareRises(AtOrAbove(fraud, high), AtOrAbove(fraud, low), |fraud|);
    ShareRises(AtOrAbove(legit, high), AtOrAbove(legit, low), |legit|);
  }

  /** The swept thresholds split in two: below the reported one none is within the target; from it on
      all are, and none has a greater recall. */
  lemma ReportedThresholdIsBest(lines: seq<Line>, fraud: seq<real>, legit: seq<real>, step: real, target: real)
    requires step > 0.0 && IsSweep(lines, fraud, legit, step)
    ensures var place := FirstWithin(lines, target);
            && (forall j: nat | j < |lines| :: lines[j].fpRate <= target <==> place <= j)
            && (forall j: nat | place <= j < |lines| ::
                  lines[place].t <= lines[j].t && lines[j].recall <= lines[place].recall)
  {
    var place := FirstWithin(lines, target);
    forall j: nat | place <= j < |lines|
      ensures lines[place].t <= lines[j].t && lines[j].recall <= lines[place].recall && lines[j].fpRate <= target
    {
      ThresholdsRise(place, j, step);
      RatesFall(fraud, legit, Threshold(place, step), Threshold(j, step));
    }
  }

  /** The indexes of the scores at or above a threshold. */
  function Hits(scores: seq<real>, t: real): set<nat> {
    set i: nat | i < |scores| && scores[i] >= t
  }

  lemma {:induction false} HitsAreCounted(scores: seq<real>, t: real)
    ensures |Hits(scores, t)| == AtOrAbove(scores, t)
  {
    if scores != [] {
      var last := |scores| - 1;
      var before := scores[..last];
      HitsAreCounted(before, t);
      CountsOneMore(before, scores[last], t);
      assert scores == before + [scores[last]];
      assert Hits(scores, t) == if scores[last] >= t then Hits(before, t) + {last} else Hits(before, t);
    }
  }

  lemma {:induction false} CountsOneMore(scores: seq<real>, next: real, t: real)
    ensures AtOrAbove(scores + [next], t) == AtOrAbove(scores, t) + if next >= t then 1 else 0
  {
    if scores == [] {
      assert [next][1..] == [];
    } else {
      assert (scores + [next])[1..] == scores[1..] + [next];
      CountsOneMore(scores[1..], next, t);
    }
  }

  /** What a line of the sweep says: line k stands for the threshold 0.05 + k * step, at most 0.96; its
      recall is the share of the fraud scores at or above it, its false-positive rate that of the
      legitimate ones, its precision that of fraud among all at or above it. */
  lemma LineMeans(lines: seq<Line>, fraud: seq<real>, legit: seq<real>, step: real, k: nat)
    requires IsSweep(lines, fraud, legit, step) && k < |lines|
    ensures lines[k].t == 0.05 + k as real * step && lines[k].t <= 0.96
    ensures SaysTheShares(lines[k], fraud, legit)
  {
    LineStandsFor(lines, fraud, legit, step, k);
    LineSaysTheShares(fraud, legit, Threshold(k, step));
    assert lines[k] == LineAt(fraud, legit, Threshold(k, step));
  }

  lemma LineStandsFor(lines: seq<Line>, fraud: seq<real>, legit: seq<real>, step: real, k: nat)
    requires IsSweep(lines, fraud, legit, step) && k < |lines|
    ensures lines[k].t == 0.05 + k as real * step && lines[k].t <= 0.96
  {
    LineHasItsThreshold(lines, fraud, legit, step, k);
    TimeOfLine(k, step);
  }

  /** The sweep goes on exactly up to 0.96. */
  lemma SweptUpToIff(k: nat, step: real)
    ensures Threshold(k, step) <= LAST <==> 0.05 + k as real * step <= 0.96
  {
    TimeOfLine(k, step);
  }

  lemma LineHasItsThreshold(lines: seq<Line>, fraud: seq<real>, legit: seq<real>, step: real, k: nat)
    requires AreSwept(lines, fraud, legit, step) && k < |lines|
    ensures lines[k].t == Threshold(k, step) <= LAST
  {
    assert lines[k] == LineAt(fraud, legit, Threshold(k, step));
  }

  lemma TimeOfLine(k: nat, step: real)
    ensures Threshold(k, step) == 0.05 + k as real * step
  {
    ThresholdFormula(k, step);
  }

  ghost predicate SaysTheShares(line: Line, fraud: seq<real>, legit: seq<real>) {
    var hits, alarms := |Hits(fraud, line.t)|, |Hits(legit, line.t)|;
    && line.counts.tp == hits && line.counts.fn == |fraud| - hits
    && line.counts.fp == alarms && line.counts.tn == |legit| - alarms
    && line.recall == Share(hits, |fraud|) && line.fpRate == Share(alarms, |legit|)
    && line.precision == Share(hits, hits + alarms)
    && line.f1 == F1(line.precision, line.recall)
  }

  lemma LineSaysTheShares(fraud: seq<real>, legit: seq<real>, t: real)
    ensures SaysTheShares(LineAt(fraud, legit, t), fraud, legit)
  {
    HitsAreCounted(fraud, t);
    HitsAreCounted(legit, t);
    var c := CountsAt(fraud, legit, t);
    assert c.tp + c.fn == |fraud| && c.fp + c.tn == |legit|;
  }
}
