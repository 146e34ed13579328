/** The sliding windows of the drift detector: bounded queues that can be resized while running. */
module DriftWindows {
  datatype Sample = Sample(prediction: int, actual: int, probability: real)

  datatype Windows = Windows(size: nat, predictions: seq<int>, actuals: seq<int>, probabilities: seq<real>)

  datatype Op = Feed(sample: Sample) | Clear | Put(window: int)

  const MIN_WINDOW := 100
  const MAX_WINDOW := 100_000

  /** What a queue bounded by n keeps of a list. */
  function Newest<T>(s: seq<T>, n: nat): seq<T> {
    if |s| <= n then s else s[|s| - n..]
  }

  function Push(w: Windows, x: Sample): Windows {
    w.(predictions := Newest(w.predictions + [x.prediction], w.size),
       actuals := Newest(w.actuals + [x.actual], w.size),
       probabilities := Newest(w.probabilities + [x.probability], w.size))
  }

  function Reset(w: Windows): Windows {
    w.(predictions := [], actuals := [], probabilities := [])
  }

  /** A hot change of the window size; one outside the admitted bounds is refused. */
  function Resize(w: Windows, window: int): Windows {
    if window < MIN_WINDOW || window > MAX_WINDOW || window == w.size then w
    else Windows(window, Newest(w.predictions, window), Newest(w.actuals, window), Newest(w.probabilities, window))
  }

  function Step(w: Windows, op: Op): Windows {
    match op
    case Feed(x) => Push(w, x)
    case Clear => Reset(w)
    case Put(n) => Resize(w, n)
  }

  function Play(size: nat, ops: seq<Op>): Windows {
    if ops == [] then Windows(size, [], [], []) else Step(Play(size, ops[..|ops| - 1]), ops[|ops| - 1])
  }

  // ── what the windows should hold ───────────────────────────────

  /** The samples fed since the last reset. */
  function Fed(ops: seq<Op>): seq<Sample> {
    if ops == [] then []
    else
      var before := Fed(ops[..|ops| - 1]);
      match ops[|ops| - 1]
      case Feed(x) => before + [x]
      case Clear => []
      case Put(_) => before
  }

  /** The window size in force. */
  function Size(size: nat, ops: seq<Op>): nat {
    if ops == [] then size
    else
      match ops[|ops| - 1]
      case Put(n) => if MIN_WINDOW <= n <= MAX_WINDOW then n else Size(size, ops[..|ops| - 1])
      case _ => Size(size, ops[..|ops| - 1])
  }

  /** The number k of newest samples is affordable when it never exceeded the size in force,
      counting back from now over the samples still in sight. */
  ghost predicate Affordable(size: nat, ops: seq<Op>, k: nat) {
    && k <= |Fed(ops)|
    && k <= Size(size, ops)
    && (ops != [] && !ops[|ops| - 1].Clear? ==>
          Affordable(size, ops[..|ops| - 1], if ops[|ops| - 1].Feed? then (if k == 0 then 0 else k - 1) else k))
  }

  ghost predicate Holds(w: Windows, samples: seq<Sample>) {
    && |w.predictions| == |w.actuals| == |w.probabilities| == |samples|
    && forall i | 0 <= i < |samples| ::
         w.predictions[i] == samples[i].prediction && w.actuals[i] == samples[i].actual &&
         w.probabilities[i] == samples[i].probability
  }

  /** One operation on windows that hold the newest samples of `fed`. */
  lemma StepHolds(w: Windows, fed: seq<Sample>, op: Op)
    requires |w.predictions| <= w.size && |w.predictions| <= |fed| && Holds(w, Newest(fed, |w.predictions|))
    ensures var w' := Step(w, op);
            var fed' := match op case Feed(x) => fed + [x] case Clear => [] case Put(_) => fed;
            && |w'.predictions| <= w'.size && |w'.predictions| <= |fed'|
            && Holds(w', Newest(fed', |w'.predictions|))
            && |w'.predictions| == (match op
                 case Feed(_) => if |w.predictions| < w.size then |w.predictions| + 1 else w.size
                 case Clear => 0
                 case Put(_) => if |w.predictions| < w'.size then |w.predictions| else w'.size)
  {
    match op
    case Feed(x) => PushHolds(w, fed, x);
    case Clear =>
    case Put(n) => ResizeHolds(w, fed, n);
  }

  lemma PushHolds(w: Windows, fed: seq<Sample>, x: Sample)
    requires |w.predictions| <= w.size && |w.predictions| <= |fed| && Holds(w, Newest(fed, |w.predictions|))
    ensures var w' := Push(w, x);
            && |w'.predictions| == (if |w.predictions| < w.size then |w.predictions| + 1 else w.size)
            && Holds(w', Newest(fed + [x], |w'.predictions|))
  {
  }

  lemma ResizeHolds(w: Windows, fed: seq<Sample>, window: int)
    requires |w.predictions| <= w.size && |w.predictions| <= |fed| && Holds(w, Newest(fed, |w.predictions|))
    ensures var w' := Resize(w, window);
            && |w'.predictions| == (if |w.predictions| < w'.size then |w.predictions| else w'.size)
            && Holds(w', Newest(fed, |w'.predictions|))
  {
  }

  lemma {:induction false} WindowsHold(size: nat, ops: seq<Op>)
    ensures var w := Play(size, ops);
            && w.size == Size(size, ops) && |w.predictions| <= w.size && |w.predictions| <= |Fed(ops)|
            && Holds(w, Newest(Fed(ops), |w.predictions|))
  {
    if ops != [] {
      var before := ops[..|ops| - 1];
      WindowsHold(size, before);
      StepHolds(Play(size, before), Fed(before), ops[|ops| - 1]);
    }
  }

  /** The windows are as long as the sizes in force allow, and no longer. */
  lemma {:induction false} LengthIsGreatestAffordable(size: nat, ops: seq<Op>, k: nat)
    ensures Affordable(size, ops, k) <==> k <= |Play(size, ops).predictions|
  {
    if ops != [] {
      var before, last := ops[..|ops| - 1], ops[|ops| - 1];
      WindowsHold(size, before);
      WindowsHold(size, ops);
      StepHolds(Play(size, before), Fed(before), last);
      if !last.Clear? {
        LengthIsGreatestAffordable(size, before, if last.Feed? && k > 0 then k - 1 else k);
      }
    }
  }

  /** After any samples, resets and hot resizes, the three windows hold, index by index, the same
      decisions: the newest samples fed since the last reset, at most the window size in force,
      and exactly as many of them as every size in force since they were fed could afford. */
  lemma WindowsHoldTheNewestSamples(size: nat, ops: seq<Op>)
    ensures var w := Play(size, ops);
            && w.size == Size(size, ops) && |w.predictions| <= w.size && |w.predictions| <= |Fed(ops)|
            && HoldsNewest(w, Fed(ops))
            && forall k: nat :: Affordable(size, ops, k) <==> k <= |w.predictions|
  {
    WindowsHold(size, ops);
    NewestByPlace(Play(size, ops), Fed(ops));
    forall k: nat ensures Affordable(size, ops, k) <==> k <= |Play(size, ops).predictions| {
      LengthIsGreatestAffordable(size, ops, k);
    }
  }

  /** Index by index the windows hold the last of the samples. */
  ghost predicate HoldsNewest(w: Windows, samples: seq<Sample>) {
    && |w.predictions| == |w.actuals| == |w.probabilities| <= |samples|
    && forall j | 0 <= j < |w.predictions| ::
         var x := samples[|samples| - |w.predictions| + j];
         w.predictions[j] == x.prediction && w.actuals[j] == x.actual && w.probabilities[j] == x.probability
  }

  lemma NewestByPlace(w: Windows, samples: seq<Sample>)
    requires |w.predictions| <= |samples| && Holds(w, Newest(samples, |w.predictions|))
    ensures HoldsNewest(w, samples)
  {
  }

  class DriftDetector {
    var windowSize: nat
    var predictions: seq<int>
    var actuals: seq<int>
    var probabilities: seq<real>

    function State(): Windows
      reads this
    {
      Windows(windowSize, predictions, actuals, probabilities)
    }

    constructor (windowSize: nat)
      ensures State() == Windows(windowSize, [], [], [])
    {
      this.windowSize, predictions, actuals, probabilities := windowSize, [], [], [];
    }

    method Update(x: Sample)
      modifies this
      ensures State() == Push(old(State()), x)
    {
      predictions := Newest(predictions + [x.prediction], windowSize);
      actuals := Newest(actuals + [x.actual], windowSize);
      probabilities := Newest(probabilities + [x.probability], windowSize);
    }

    method ResetAll()
      modifies this
      ensures State() == Reset(old(State()))
    {
      predictions, actuals, probabilities := [], [], [];
    }

    /** The admin PUT: 422 outside the bounds, otherwise the queues are rebuilt on the spot. */
    method PutDriftConfig(window: int) returns (code: nat)
      modifies this
      ensures State() == Resize(old(State()), window)
      ensures code == (if 100 <= window <= 100_000 then 200 else 422)
      ensures code == 200 ==> windowSize == window
      ensures code == 422 || old(windowSize) == window ==> State() == old(State())
    {
      if window < MIN_WINDOW || window > MAX_WINDOW {
        return 422;
      }
      if window != windowSize {
        windowSize := window;
        predictions := Newest(predictions, window);
        actuals := Newest(actuals, window);
        probabilities := Newest(probabilities, window);
      }
      return 200;
    }
  }
}
