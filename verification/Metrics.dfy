/** Confusion counts and the rates derived from them, over real numbers. */
module Metrics {
  datatype Confusion = Confusion(tp: nat, fp: nat, tn: nat, fn: nat)

  /** part / whole, and zero when there is no whole. */
  function Share(part: nat, whole: nat): real {
    if whole == 0 then 0.0 else part as real / whole as real
  }

  function Precision(c: Confusion): real {
    Share(c.tp, c.tp + c.fp)
  }

  function Recall(c: Confusion): real {
    Share(c.tp, c.tp + c.fn)
  }

  function FalsePositiveRate(c: Confusion): real {
    Share(c.fp, c.fp + c.tn)
  }

  function F1(precision: real, recall: real): real {
    if precision + recall == 0.0 then 0.0 else 2.0 * precision * recall / (precision + recall)
  }

  /** The fraction of blocked rows that are fraud, projected to a base rate of fraud. */
  function PrecisionAtBaseRate(recall: real, fpr: real, baseRate: real): real {
    if recall == 0.0 && fpr == 0.0 then 0.0
    else
      var denom := recall * baseRate + fpr * (1.0 - baseRate);
      if denom == 0.0 then 0.0 else recall * baseRate / denom
  }

  lemma ShareRises(a: nat, b: nat, whole: nat)
    requires a <= b <= whole
    ensures Share(a, whole) <= Share(b, whole)
  {
    if whole > 0 {
      Undivided(b as real, whole as real);
      AtMost(a as real, whole as real, b as real / whole as real);
    }
  }

  lemma Scaled(a: real, b: real, k: real)
    requires a <= b && k >= 0.0
    ensures a * k <= b * k
    ensures a < b && k > 0.0 ==> a * k < b * k
  {
  }

  /** Two quotients with the same value: a*d == c*b. */
  lemma SameQuotient(a: real, b: real, c: real, d: real)
    requires b != 0.0 && d != 0.0 && a * d == c * b
    ensures a / b == c / d
  {
    Undivided(c, d);
    Undivided(a, b);
    var p, q := a / b, c / d;
    assert p * b * d == q * d * b;
    Cancel(p, q, b * d);
  }

  lemma Cancel(p: real, q: real, k: real)
    requires k != 0.0 && p * k == q * k
    ensures p == q
  {
    assert (p - q) * k == 0.0;
  }

  /** Through a whole of its own: the share of a share. */
  lemma ShareOfShare(part: nat, whole: nat, n: nat)
    requires part <= whole <= n && n > 0
    ensures Share(part, whole) * Share(whole, n) == Share(part, n)
  {
    if whole > 0 {
      var a, w, m := part as real, whole as real, n as real;
      Undivided(a, w);
      Undivided(w, m);
      Undivided(a, m);
      assert (a / w) * (w / m) * m == a;
      Cancel((a / w) * (w / m), a / m, m);
    }
  }

  /** At the sample's own rate of fraud the projection is the precision that was measured, whichever
      of the four counts are zero. */
  lemma OwnRateGivesThePrecision(c: Confusion)
    requires c.tp + c.fp + c.tn + c.fn > 0
    ensures var n := c.tp + c.fp + c.tn + c.fn;
            PrecisionAtBaseRate(Recall(c), FalsePositiveRate(c), Share(c.tp + c.fn, n)) == Precision(c)
  {
    var n := c.tp + c.fp + c.tn + c.fn;
    OwnProducts(c);
    Projected(Recall(c), FalsePositiveRate(c), Share(c.tp + c.fn, n), Share(c.tp, n), Share(c.fp, n));
    PartOfShares(c.tp, c.fp, n);
  }

  lemma OwnProducts(c: Confusion)
    requires c.tp + c.fp + c.tn + c.fn > 0
    ensures var n := c.tp + c.fp + c.tn + c.fn;
            && Recall(c) * Share(c.tp + c.fn, n) == Share(c.tp, n)
            && FalsePositiveRate(c) * (1.0 - Share(c.tp + c.fn, n)) == Share(c.fp, n)
  {
    var n := c.tp + c.fp + c.tn + c.fn;
    Complement(c.tp + c.fn, c.fp + c.tn, n);
    ShareOfShare(c.tp, c.tp + c.fn, n);
    ShareOfShare(c.fp, c.fp + c.tn, n);
  }

  lemma Projected(recall: real, fpr: real, baseRate: real, caught: real, alarms: real)
    requires recall * baseRate == caught && fpr * (1.0 - baseRate) == alarms
    ensures PrecisionAtBaseRate(recall, fpr, baseRate) == Part(caught, alarms)
  {
    ProjectionIsPart(recall, fpr, baseRate);
  }

  lemma Complement(a: nat, b: nat, n: nat)
    requires a + b == n > 0
    ensures 1.0 - Share(a, n) == Share(b, n)
  {
    SharesAddUp(a, b, n);
  }

  /** The guard for no blocked rows at all changes nothing. */
  lemma ProjectionIsPart(recall: real, fpr: real, baseRate: real)
    ensures PrecisionAtBaseRate(recall, fpr, baseRate) == Part(recall * baseRate, fpr * (1.0 - baseRate))
  {
  }

  lemma PartOfShares(a: nat, b: nat, n: nat)
    requires n > 0
    ensures Part(Share(a, n), Share(b, n)) == Share(a, a + b)
  {
    SharesAddUp(a, b, n);
    if a + b > 0 {
      Quotients(a as real, (a + b) as real, n as real);
    }
  }

  lemma Quotients(a: real, b: real, n: real)
    requires b > 0.0 && n > 0.0
    ensures b / n != 0.0 && (a / n) / (b / n) == a / b
  {
    Undivided(a, n);
    Undivided(b, n);
    AtLeast(b, n, 0.0);
    var x, y := a / n, b / n;
    assert x * b == x * (y * n);
    assert a * y == x * n * y;
    SameQuotient(x, y, a, b);
  }

  lemma SharesAddUp(a: nat, b: nat, n: nat)
    requires n > 0
    ensures Share(a, n) + Share(b, n) == Share(a + b, n)
    ensures a + b == n ==> Share(a + b, n) == 1.0
  {
    Sums(a as real, b as real, n as real);
  }

  lemma Sums(a: real, b: real, n: real)
    requires n != 0.0
    ensures a / n + b / n == (a + b) / n && n / n == 1.0
  {
    Undivided(a, n);
    Undivided(b, n);
    Undivided(a + b, n);
    Undivided(n, n);
    Cancel(a / n + b / n, (a + b) / n, n);
    Cancel(n / n, 1.0, n);
  }

  /** More fraud in the population never lowers the projected precision. */
  lemma PrecisionRisesWithTheBaseRate(recall: real, fpr: real, low: real, high: real)
    requires recall >= 0.0 && fpr >= 0.0 && 0.0 <= low <= high <= 1.0
    ensures 0.0 <= PrecisionAtBaseRate(recall, fpr, low) <= PrecisionAtBaseRate(recall, fpr, high) <= 1.0
  {
    var caughtLow, alarmsLow := recall * low, fpr * (1.0 - low);
    var caughtHigh, alarmsHigh := recall * high, fpr * (1.0 - high);
    assert 0.0 <= caughtLow <= caughtHigh && alarmsLow >= alarmsHigh >= 0.0 by {
      Scaled(0.0, low, recall);
      Scaled(low, high, recall);
      Scaled(1.0 - high, 1.0 - low, fpr);
      Scaled(0.0, 1.0 - high, fpr);
    }
    PartOfSum(caughtLow, alarmsLow, caughtHigh, alarmsHigh);
    ProjectionIsPart(recall, fpr, low);
    ProjectionIsPart(recall, fpr, high);
  }

  function Part(caught: real, alarms: real): real {
    if caught + alarms == 0.0 then 0.0 else caught / (caught + alarms)
  }

  lemma PartOfSum(a: real, b: real, c: real, d: real)
    requires 0.0 <= a <= c && 0.0 <= d <= b
    ensures 0.0 <= Part(a, b) <= Part(c, d) <= 1.0
  {
    PartIsAShare(a, b);
    PartIsAShare(c, d);
    if a + b != 0.0 && c + d != 0.0 {
      var q := c / (c + d);
      Undivided(c, c + d);
      Cross(a, b, c, d, q);
      AtMost(a, a + b, q);
    }
  }

  lemma Cross(a: real, b: real, c: real, d: real, q: real)
    requires 0.0 <= q <= 1.0 && q * (c + d) == c && a <= c && d <= b
    ensures a <= q * (a + b)
  {
    var qa, qb, qc, qd := q * a, q * b, q * c, q * d;
    assert qd <= qb by { Scaled(d, b, q); assert d * q == qd; assert b * q == qb; }
    assert qc - qa <= c - a by { Scaled(q, 1.0, c - a); assert q * (c - a) == qc - qa; assert 1.0 * (c-a) == c - a; }
    assert qc + qd == c by { assert q * (c + d) == qc + qd; }
    assert a <= qa + qb;
    assert q * (a + b) == qa + qb;
  }

  lemma AtMost(part: real, whole: real, q: real)
    requires whole > 0.0 && part <= q * whole
    ensures part / whole <= q
  {
    var p := part / whole;
    assert p * whole == part;
    Unscaled(p, q, whole);
  }

  lemma AtLeast(part: real, whole: real, q: real)
    requires whole > 0.0 && part >= q * whole
    ensures part / whole >= q
  {
    var p := part / whole;
    assert p * whole == part;
    Unscaled(q, p, whole);
  }

  lemma Unscaled(p: real, q: real, k: real)
    requires k > 0.0 && p * k <= q * k
    ensures p <= q
  {
    if p > q {
      Scaled(q, p, k);
    }
  }

  lemma Undivided(part: real, whole: real)
    requires whole != 0.0
    ensures part / whole * whole == part
  {
  }

  lemma PartIsAShare(a: real, b: real)
    requires a >= 0.0 && b >= 0.0
    ensures 0.0 <= Part(a, b) <= 1.0
  {
    if a + b != 0.0 {
      AtLeast(a, a + b, 0.0);
      AtMost(a, a + b, 1.0);
    }
  }

  /** F1 in terms of the counts, and between precision and recall. */
  lemma F1IsTheBalance(c: Confusion)
    ensures var p, r, f := Precision(c), Recall(c), F1(Precision(c), Recall(c));
            && f == Share(2 * c.tp, 2 * c.tp + c.fp + c.fn)
            && ((p <= f <= r) || (r <= f <= p))
  {
    if c.tp == 0 {
      NothingFound(c);
    } else {
      HarmonicMean(c.tp as real, (c.tp + c.fp) as real, (c.tp + c.fn) as real);
      Doubled(c);
    }
  }

  lemma NothingFound(c: Confusion)
    requires c.tp == 0
    ensures Precision(c) == 0.0 && Recall(c) == 0.0 && Share(2 * c.tp, 2 * c.tp + c.fp + c.fn) == 0.0
  {
  }

  lemma Doubled(c: Confusion)
    requires c.tp > 0
    ensures Share(2 * c.tp, 2 * c.tp + c.fp + c.fn) == 2.0 * c.tp as real / ((c.tp + c.fp) as real + (c.tp + c.fn) as real)
  {
    assert (2 * c.tp) as real == 2.0 * c.tp as real;
    assert (2 * c.tp + c.fp + c.fn) as real == (c.tp + c.fp) as real + (c.tp + c.fn) as real;
  }

  lemma HarmonicMean(a: real, b: real, c: real)
    requires 0.0 < a <= b && a <= c
    ensures var p, r, f := a / b, a / c, F1(a / b, a / c);
            f == 2.0 * a / (b + c) && ((p <= f <= r) || (r <= f <= p))
  {
    var p, r := a / b, a / c;
    Undivided(a, b);
    Undivided(a, c);
    assert p > 0.0 by { AtLeast(a, b, 0.0); }
    assert r > 0.0 by { AtLeast(a, c, 0.0); }
    assert p * r * b == r * a;
    assert p * r * c == p * a;
    assert (2.0 * p * r) * (b + c) == 2.0 * a * (p + r);
    SameQuotient(2.0 * p * r, p + r, 2.0 * a, b + c);
    if b <= c {
      Mediant(a, b, c);
    } else {
      Mediant(a, c, b);
    }
  }

  lemma Mediant(a: real, b: real, c: real)
    requires 0.0 < a && 0.0 < b <= c
    ensures a / c <= 2.0 * a / (b + c) <= a / b
  {
    var m := 2.0 * a / (b + c);
    Undivided(2.0 * a, b + c);
    AtLeast(2.0 * a, b + c, 0.0);
    Scaled(b, c, m);
    assert m * (b + c) == m * b + m * c;
    AtLeast(a, b, m);
    AtMost(a, c, m);
  }
}
