/** What holds after any number of serial pipeline calls, across a restart, and after a label check. */
module RetrainRuns {
  import opened Wrappers
  import opened Decimal
  import opened DriftWindows
  import opened Retrain

  datatype Call = Call(trigger: Trigger, checked: int, begun: int, env: Env)

  function Step(m: Mla, c: Call, cooldown: int): (Mla, Outcome) {
    Pipeline(m, c.trigger, c.checked, c.begun, cooldown, c.env)
  }

  function After(m: Mla, calls: seq<Call>, cooldown: int): Mla {
    if calls == [] then m else Step(After(m, calls[..|calls| - 1], cooldown), calls[|calls| - 1], cooldown).0
  }

  /** The last call's effect and outcome. */
  function Result(m: Mla, calls: seq<Call>, cooldown: int): (Mla, Outcome)
    requires calls != []
  {
    Step(After(m, calls[..|calls| - 1], cooldown), calls[|calls| - 1], cooldown)
  }

  function Rejections(m: Mla, calls: seq<Call>, cooldown: int): nat {
    if calls == [] then 0
    else Rejections(m, calls[..|calls| - 1], cooldown) + if Result(m, calls, cooldown).1.AbRejected? then 1 else 0
  }

  /** The outcome ledger: between calls nothing is in progress and every run started has succeeded,
      failed or been rejected by its A/B test; every other call was suppressed by the cooldown. */
  lemma {:induction false} EveryRunHasOneOutcome(m: Mla, calls: seq<Call>, cooldown: int)
    requires !m.inProgress && m.started == m.succeeded + m.failed
    ensures var m' := After(m, calls, cooldown);
            && !m'.inProgress
            && m'.started == m'.succeeded + m'.failed + Rejections(m, calls, cooldown)
            && m'.started + m'.suppressed == m.started + m.suppressed + |calls|
  {
    if calls != [] {
      EveryRunHasOneOutcome(m, calls[..|calls| - 1], cooldown);
      OneOutcome(After(m, calls[..|calls| - 1], cooldown), calls[|calls| - 1], cooldown);
    }
  }

  lemma OneOutcome(m: Mla, c: Call, cooldown: int)
    requires !m.inProgress
    ensures var (m', outcome) := Step(m, c, cooldown);
            && !m'.inProgress
            && m'.started + m'.suppressed == m.started + m.suppressed + 1
            && m'.started - m'.succeeded - m'.failed ==
               m.started - m.succeeded - m.failed + if outcome.AbRejected? then 1 else 0
  {
  }

  // ── cooldown ───────────────────────────────────────────────────

  datatype Start = Start(trigger: Trigger, at: int)

  /** The runs that started, with their start times. */
  function Starts(m: Mla, calls: seq<Call>, cooldown: int): seq<Start> {
    if calls == [] then []
    else
      var last := calls[|calls| - 1];
      Starts(m, calls[..|calls| - 1], cooldown) +
      if Result(m, calls, cooldown).1.Cooldown? then [] else [Start(last.trigger, last.begun)]
  }

  /** The clock never goes back, within a call or from one call to the next. */
  ghost predicate Clocked(calls: seq<Call>) {
    && (forall i | 0 <= i < |calls| :: calls[i].checked <= calls[i].begun)
    && (forall i, j | 0 <= i < j < |calls| :: calls[i].begun <= calls[j].checked)
  }

  lemma {:induction false} LastAttemptIsTheLastStart(m: Mla, calls: seq<Call>, cooldown: int)
    ensures var starts := Starts(m, calls, cooldown);
            After(m, calls, cooldown).lastAttempt == if starts == [] then m.lastAttempt else starts[|starts| - 1].at
  {
    if calls != [] {
      var before := calls[..|calls| - 1];
      LastAttemptIsTheLastStart(m, before, cooldown);
      AttemptIsNoted(After(m, before, cooldown), calls[|calls| - 1], cooldown);
    }
  }

  lemma AttemptIsNoted(m: Mla, c: Call, cooldown: int)
    ensures var (m', outcome) := Step(m, c, cooldown); m'.lastAttempt == if outcome.Cooldown? then m.lastAttempt else c.begun
  {
  }

  /** Every automatic run starts at least the cooldown after the start before it, whatever had
      triggered that one and whatever became of it. */
  lemma {:induction false} AutomaticRunsKeepTheirDistance(m: Mla, calls: seq<Call>, cooldown: int)
    requires Clocked(calls)
    ensures var starts := Starts(m, calls, cooldown);
            forall k | 1 <= k < |starts| && Automatic(starts[k].trigger) :: starts[k].at - starts[k - 1].at >= cooldown
  {
    if calls != [] {
      var before := calls[..|calls| - 1];
      assert Clocked(before) by {
        assert forall i | 0 <= i < |before| :: before[i] == calls[i];
      }
      AutomaticRunsKeepTheirDistance(m, before, cooldown);
      LastAttemptIsTheLastStart(m, before, cooldown);
      var earlier, starts := Starts(m, before, cooldown), Starts(m, calls, cooldown);
      assert forall k | 0 <= k < |earlier| :: starts[k] == earlier[k];
    }
  }

  /** When a call is suppressed, in clock readings alone: exactly when its trigger is neither manual nor
      initial and it is checked less than the cooldown after the last run of any kind started. Every
      other call starts a run, at its own time. */
  lemma SuppressedIff(m: Mla, calls: seq<Call>, cooldown: int)
    requires calls != []
    ensures var before, c := calls[..|calls| - 1], calls[|calls| - 1];
            var starts := Starts(m, before, cooldown);
            var since := if starts == [] then m.lastAttempt else starts[|starts| - 1].at;
            var suppressed := c.trigger != Manual && c.trigger != Initial && c.checked - since < cooldown;
            && (Result(m, calls, cooldown).1 == Cooldown <==> suppressed)
            && Starts(m, calls, cooldown) == starts + (if suppressed then [] else [Start(c.trigger, c.begun)])
            && After(m, calls, cooldown).started == After(m, before, cooldown).started + (if suppressed then 0 else 1)
            && After(m, calls, cooldown).suppressed == After(m, before, cooldown).suppressed + if suppressed then 1 else 0
  {
    LastAttemptIsTheLastStart(m, calls[..|calls| - 1], cooldown);
    SuppressedNow(After(m, calls[..|calls| - 1], cooldown), calls[|calls| - 1], cooldown);
  }

  lemma SuppressedNow(m: Mla, c: Call, cooldown: int)
    ensures var (m', outcome) := Step(m, c, cooldown);
            var suppressed := c.trigger != Manual && c.trigger != Initial && c.checked - m.lastAttempt < cooldown;
            && (outcome == Cooldown <==> suppressed)
            && m'.started == m.started + (if suppressed then 0 else 1)
            && m'.suppressed == m.suppressed + if suppressed then 1 else 0
  {
  }

  // ── what a run that starts leaves ──────────────────────────────

  /** How a run ends, and what it changes: it deploys exactly when every stage answers and the A/B test,
      taken only against a model in service, passes; a whole upload puts the new model in service even
      if a later stage fails; and the detector is cleared by a rejection or once the baseline is set. */
  lemma RunEndsAs(m: Mla, c: Call, cooldown: int, v: Version)
    requires m.nextVersion == Label(v) && Step(m, c, cooldown).1 != Cooldown
    ensures var (m', outcome) := Step(m, c, cooldown);
            var e := c.env;
            var rejected := e.trains && m.hasModel && !e.abPasses;
            var shipped := e.trains && (m.hasModel ==> e.abPasses) && e.converts && e.upload == Uploaded;
            && (outcome.Deployed? <==> shipped && e.baseline && e.metrics)
            && (outcome.Deployed? ==> outcome.version == Label(v) && m'.succeeded == m.succeeded + 1)
            && (outcome == AbRejected <==> rejected)
            && (outcome == Failed <==> m'.failed == m.failed + 1)
            && (!outcome.Deployed? ==> m'.succeeded == m.succeeded) && (outcome != Failed ==> m'.failed == m.failed)
            && m'.hasModel == (m.hasModel || shipped)
            && m'.currentVersion == (if shipped then Label(v) else m.currentVersion)
            && m'.windows == (if rejected || (shipped && e.baseline)
                              then Windows(m.windows.size, [], [], []) else m.windows)
  {
    LabelRoundTrip(v);
  }

  // ── versions ───────────────────────────────────────────────────

  /** The k-th successful upload of a process carries the k-th version after the one it booted with,
      and the next one is ready, even when a run failed after its upload. */
  lemma {:induction false} UploadsAreConsecutive(m: Mla, calls: seq<Call>, cooldown: int, first: Version)
    requires m.uploads == [] && m.nextVersion == Label(first)
    ensures var m' := After(m, calls, cooldown);
            && m'.nextVersion == Label(Version(first.major, first.minor + |m'.uploads|))
            && forall k | 0 <= k < |m'.uploads| :: m'.uploads[k] == Label(Version(first.major, first.minor + k))
  {
    if calls != [] {
      UploadsAreConsecutive(m, calls[..|calls| - 1], cooldown, first);
      var before := After(m, calls[..|calls| - 1], cooldown);
      OneCallUploads(before, calls[|calls| - 1], cooldown, Version(first.major, first.minor + |before.uploads|));
    }
  }

  lemma OneCallUploads(m: Mla, c: Call, cooldown: int, v: Version)
    requires m.nextVersion == Label(v)
    ensures var m' := Step(m, c, cooldown).0;
            || (m'.uploads == m.uploads && m'.nextVersion == m.nextVersion)
            || (m'.uploads == m.uploads + [Label(v)] && m'.nextVersion == Label(Successor(v)))
  {
    LabelRoundTrip(v);
  }

  lemma LabelsAreDistinct(v: Version, w: Version)
    requires Label(v) == Label(w)
    ensures v == w
  {
    LabelRoundTrip(v);
    LabelRoundTrip(w);
  }

  /** Versions of successful uploads strictly increase in (major, minor) order and none is reused. */
  lemma UploadedVersionsIncrease(m: Mla, calls: seq<Call>, cooldown: int, first: Version, i: nat, j: nat)
    requires m.uploads == [] && m.nextVersion == Label(first)
    requires i < j < |After(m, calls, cooldown).uploads|
    ensures var uploads := After(m, calls, cooldown).uploads;
            && uploads[i] != uploads[j]
            && ParseLabel(uploads[i]).Some? && ParseLabel(uploads[j]).Some?
            && var (v, w) := (ParseLabel(uploads[i]).value, ParseLabel(uploads[j]).value);
               v.major == w.major && v.minor < w.minor
  {
    UploadsAreConsecutive(m, calls, cooldown, first);
    LabelRoundTrip(Version(first.major, first.minor + i));
    LabelRoundTrip(Version(first.major, first.minor + j));
  }

  // ── versions across a restart ──────────────────────────────────

  /** Some version was uploaded again. */
  ghost predicate Overwrites(registry: seq<string>, uploads: seq<string>) {
    exists i | 0 <= i < |uploads| :: uploads[i] in registry
  }

  /** The label is that of one of the k versions from `next` on. */
  predicate IsOneOf(text: string, next: Version, k: nat) {
    var v := ParseLabel(text);
    v.Some? && text == Label(v.value) && v.value.major == next.major && next.minor <= v.value.minor < next.minor + k
  }

  /** The version the first upload after a start carries. */
  function NextAfter(load: Load): Version {
    match load
    case NoModel => Version(1, 0)
    case LoadRaises => Version(1, 0)
    case Serving(version, booster) =>
      if !booster then Version(1, 1)
      else if ParseLabel(version).None? then Version(1, 0)
      else Successor(ParseLabel(version).value)
  }

  lemma BootNumbers(load: Load, windows: Windows)
    ensures Boot(load, windows).nextVersion == Label(NextAfter(load)) && Boot(load, windows).uploads == Boot(load, windows).files == []
  {
    assert Show(0) == "0" && Show(1) == "1";
  }

  /** Whatever the registry holds and however the start went: a process that uploads k times
      overwrites a version exactly when the registry holds one of the k versions it numbers on with. */
  lemma RestartOverwritesIff(load: Load, windows: Windows, calls: seq<Call>, cooldown: int, registry: seq<string>)
    ensures var uploads := After(Boot(load, windows), calls, cooldown).uploads;
            Overwrites(registry, uploads) <==>
            exists j | 0 <= j < |registry| :: IsOneOf(registry[j], NextAfter(load), |uploads|)
  {
    var next, uploads := NextAfter(load), After(Boot(load, windows), calls, cooldown).uploads;
    BootNumbers(load, windows);
    UploadsAreConsecutive(Boot(load, windows), calls, cooldown, next);
    forall i | 0 <= i < |uploads| ensures IsOneOf(uploads[i], next, |uploads|) {
      LabelRoundTrip(Version(next.major, next.minor + i));
    }
    forall j | 0 <= j < |registry| && IsOneOf(registry[j], next, |uploads|) ensures Overwrites(registry, uploads) {
      var i := ParseLabel(registry[j]).value.minor - next.minor;
      assert uploads[i] == registry[j];
    }
  }

  /** The versions a registry holds when `first` to `first + n - 1` were uploaded. */
  predicate Holds(uploads: seq<string>, first: Version, n: nat) {
    |uploads| == n && forall k | 0 <= k < n :: uploads[k] == Label(Version(first.major, first.minor + k))
  }

  /** Two rows of consecutive versions have a common one. */
  predicate Meet(first: Version, n: nat, next: Version, k: nat) {
    n > 0 && k > 0 && first.major == next.major && next.minor < first.minor + n && first.minor < next.minor + k
  }

  lemma ConsecutiveVersionsMeetIff(registry: seq<string>, first: Version, n: nat, next: Version, k: nat)
    requires Holds(registry, first, n)
    ensures (exists j | 0 <= j < |registry| :: IsOneOf(registry[j], next, k)) <==> Meet(first, n, next, k)
  {
    forall j | 0 <= j < n ensures ParseLabel(registry[j]) == Some(Version(first.major, first.minor + j)) {
      LabelRoundTrip(Version(first.major, first.minor + j));
    }
    if Meet(first, n, next, k) {
      var j := if first.minor < next.minor then next.minor - first.minor else 0;
      assert IsOneOf(registry[j], next, k);
    }
  }

  /** After a restart from a readable model, some upload of the new process overwrites a version of
      the registry exactly when the version loaded is not the highest there, as soon as anything is
      uploaded at all; the first upload is then the one. A candidate left for review is enough. */
  lemma RestartReusesAVersionIff(
      uploads: seq<string>, first: Version, n: nat, loaded: nat, windows: Windows, calls: seq<Call>, cooldown: int)
    requires Holds(uploads, first, n) && loaded < n
    ensures var m := Boot(Serving(uploads[loaded], true), windows);
            && m.hasModel && (m.nextVersion in uploads <==> loaded < n - 1)
            && (Overwrites(uploads, After(m, calls, cooldown).uploads) <==>
                  loaded < n - 1 && After(m, calls, cooldown).uploads != [])
  {
    var load, v := Serving(uploads[loaded], true), Version(first.major, first.minor + loaded);
    LabelRoundTrip(v);
    BootNumbers(load, windows);
    LabelInRegistryIff(uploads, first, n, Successor(v));
    RestartOverwritesIff(load, windows, calls, cooldown, uploads);
    ConsecutiveVersionsMeetIff(uploads, first, n, Successor(v), |After(Boot(load, windows), calls, cooldown).uploads|);
  }

  lemma LabelInRegistryIff(registry: seq<string>, first: Version, n: nat, v: Version)
    requires Holds(registry, first, n)
    ensures Label(v) in registry <==> first.major == v.major && first.minor <= v.minor < first.minor + n
  {
    if first.major == v.major && first.minor <= v.minor < first.minor + n {
      assert registry[v.minor - first.minor] == Label(v);
    }
    forall k | 0 <= k < n && registry[k] == Label(v) ensures Version(first.major, first.minor + k) == v {
      LabelsAreDistinct(Version(first.major, first.minor + k), v);
    }
  }

  /** A start without a readable model, booster or label counts from v1.0, or v1.1 without the booster.
      Some upload of the new process overwrites a version of the registry exactly when the versions
      there and the new ones have one in common. */
  lemma FallbackReusesAVersionIff(
      uploads: seq<string>, first: Version, n: nat, load: Load, windows: Windows, calls: seq<Call>, cooldown: int)
    requires Holds(uploads, first, n)
    requires load.Serving? && load.booster ==> ParseLabel(load.version).None?
    ensures var m, minor := Boot(load, windows), if load.Serving? && !load.booster then 1 else 0;
            var k := |After(m, calls, cooldown).uploads|;
            && !m.hasModel && m.nextVersion == Label(Version(1, minor))
            && (m.nextVersion in uploads <==> first.major == 1 && first.minor <= minor < first.minor + n)
            && (Overwrites(uploads, After(m, calls, cooldown).uploads) <==>
                  n > 0 && k > 0 && first.major == 1 && minor < first.minor + n && first.minor < minor + k)
  {
    BootNumbers(load, windows);
    LabelInRegistryIff(uploads, first, n, NextAfter(load));
    RestartOverwritesIff(load, windows, calls, cooldown, uploads);
    ConsecutiveVersionsMeetIff(uploads, first, n, NextAfter(load), |After(Boot(load, windows), calls, cooldown).uploads|);
  }

  /** A manual run in which every stage succeeds. */
  const GOOD_RUN := Call(Manual, 1, 1, Env(true, true, true, Uploaded, true, true))

  lemma GoodRunUploads(m: Mla, calls: seq<Call>, cooldown: int, v: Version)
    requires After(m, calls, cooldown).nextVersion == Label(v)
    ensures var before, after := After(m, calls, cooldown), After(m, calls + [GOOD_RUN], cooldown);
            after.uploads == before.uploads + [Label(v)] && after.nextVersion == Label(Successor(v))
  {
    assert (calls + [GOOD_RUN])[..|calls|] == calls;
    LabelRoundTrip(v);
  }

  lemma TwoGoodRunsUpload(m: Mla, cooldown: int, v: Version)
    requires m.nextVersion == Label(v)
    ensures After(m, [GOOD_RUN] + [GOOD_RUN], cooldown).uploads == m.uploads + [Label(v)] + [Label(Successor(v))]
  {
    GoodRunUploads(m, [], cooldown, v);
    assert [] + [GOOD_RUN] == [GOOD_RUN];
    GoodRunUploads(m, [GOOD_RUN], cooldown, Successor(v));
  }

  lemma FirstLabels()
    ensures Label(Version(1, 0)) == "v1.0" && Label(Version(1, 1)) == "v1.1" && Label(Version(1, 2)) == "v1.2"
  {
    assert Show(0) == "0" && Show(1) == "1" && Show(2) == "2";
  }

  /** The registry holds v1.1 and v1.2 and cannot be read at the start: the first upload, v1.0, is new,
      and the second overwrites v1.1. */
  lemma SecondUploadAfterAFallbackOverwrites(windows: Windows, cooldown: int)
    ensures var uploads := After(Boot(LoadRaises, windows), [GOOD_RUN] + [GOOD_RUN], cooldown).uploads;
            && uploads == [] + ["v1.0"] + ["v1.1"] == ["v1.0", "v1.1"]
            && "v1.0" !in ["v1.1", "v1.2"] && Overwrites(["v1.1", "v1.2"], uploads)
  {
    FirstLabels();
    BootNumbers(LoadRaises, windows);
    TwoGoodRunsUpload(Boot(LoadRaises, windows), cooldown, Version(1, 0));
    SecondIsKnown();
  }

  lemma SecondIsKnown()
    ensures "v1.0" !in ["v1.1", "v1.2"] && Overwrites(["v1.1", "v1.2"], ["v1.0", "v1.1"])
  {
    assert "v1.0"[3] != "v1.1"[3] && "v1.0"[3] != "v1.2"[3];
    Again(["v1.1", "v1.2"], ["v1.0", "v1.1"], 1);
  }

  lemma Again(registry: seq<string>, uploads: seq<string>, i: nat)
    requires i < |uploads| && uploads[i] in registry
    ensures Overwrites(registry, uploads)
  {
  }

  /** v1.0 is served while v1.1 waits in the registry: the next upload overwrites v1.1. */
  lemma WaitingCandidateIsOverwritten(windows: Windows, cooldown: int)
    ensures var uploads := After(Boot(Serving("v1.0", true), windows), [] + [GOOD_RUN], cooldown).uploads;
            uploads == ["v1.1"] && Overwrites(["v1.0", "v1.1"], uploads)
  {
    var m := Boot(Serving("v1.0", true), windows);
    FirstLabels();
    LabelRoundTrip(Version(1, 0));
    BootNumbers(Serving("v1.0", true), windows);
    GoodRunUploads(m, [], cooldown, Version(1, 1));
    Again(["v1.0", "v1.1"], ["v1.1"], 0);
  }

  // ── the label-volume trigger ───────────────────────────────────

  /** The timestamps of verified labels past a mark. */
  function Pending(labels: seq<int>, mark: int): nat {
    if labels == [] then 0 else Pending(labels[1..], mark) + if labels[0] > mark then 1 else 0
  }

  datatype Monitor = Monitor(mla: Mla, labelMark: int, pending: nat, autoRetrain: bool)

  /** One check: the drift call the fed labels provoke, if any, then the volume trigger at `now`. */
  datatype Check = Check(drift: Option<Call>, now: int, call: Call)

  function Drifted(m: Mla, drift: Option<Call>, cooldown: int): Mla {
    if drift.None? || m.inProgress then m
    else Pipeline(m, Drift, drift.value.checked, drift.value.begun, cooldown, drift.value.env).0
  }

  function CheckVolume(l: Monitor, labels: seq<int>, threshold: nat, cooldown: int, check: Check): Monitor {
    var m := Drifted(l.mla, check.drift, cooldown);
    var count := Pending(labels, l.labelMark);
    if count < threshold || m.inProgress || !l.autoRetrain then l.(mla := m, pending := count)
    else
      Monitor(Pipeline(m, LabelVolume, check.call.checked, check.call.begun, cooldown, check.call.env).0,
              check.now, 0, l.autoRetrain)
  }

  class LabelMonitor {
    const service: MLAService
    const threshold: nat
    var labelWatermark: int
    var labelsPending: nat
    var autoRetrain: bool

    function State(): Monitor
      reads this, service, service.detector
    {
      Monitor(service.State(), labelWatermark, labelsPending, autoRetrain)
    }

    constructor (service: MLAService, threshold: nat, lastRetrain: int)
      ensures this.service == service && this.threshold == threshold
      ensures labelWatermark == lastRetrain && labelsPending == 0 && autoRetrain
    {
      this.service, this.threshold := service, threshold;
      labelWatermark, labelsPending, autoRetrain := lastRetrain, 0, true;
    }

    method CheckLabelVolume(labels: seq<int>, check: Check)
      modifies this, service, service.detector
      ensures State() == CheckVolume(old(State()), labels, threshold, service.cooldown, check)
    {
      if check.drift.Some? && !service.inProgress {
        var drift := check.drift.value;
        var _ := service.RunTrainingPipeline(Drift, drift.checked, drift.begun, drift.env);
      }
      var count := Pending(labels, labelWatermark);
      labelsPending := count;
      if count < threshold || service.inProgress || !autoRetrain {
        return;
      }
      labelWatermark := check.now;
      labelsPending := 0;
      var _ := service.RunTrainingPipeline(LabelVolume, check.call.checked, check.call.begun, check.call.env);
    }
  }

  lemma {:induction false} NothingPending(labels: seq<int>, mark: int)
    requires forall i | 0 <= i < |labels| :: labels[i] <= mark
    ensures Pending(labels, mark) == 0
  {
    if labels != [] {
      NothingPending(labels[1..], mark);
    }
  }

  /** Once enough labels are pending, a check always stops counting them, but it starts a run for
      them only outside the cooldown. So their trigger is lost exactly when the cooldown blocks. */
  lemma TriggerIsLostIff(l: Monitor, labels: seq<int>, threshold: nat, cooldown: int, check: Check)
    requires !l.mla.inProgress && l.autoRetrain && Pending(labels, l.labelMark) >= threshold
    requires forall i | 0 <= i < |labels| :: labels[i] <= check.now
    ensures var m := Drifted(l.mla, check.drift, cooldown);
            var l' := CheckVolume(l, labels, threshold, cooldown, check);
            && l'.pending == 0 && Pending(labels, l'.labelMark) == 0
            && (l'.mla.started == m.started <==> CooldownBlocks(m, LabelVolume, check.call.checked, cooldown))
            && m.started <= l'.mla.started <= m.started + 1
  {
    NothingPending(labels, check.now);
  }

  /** One label, a threshold of one, and a run one second before: the label is uncounted and no run starts. */
  lemma TriggerIsLostOnce(windows: Windows)
    ensures var ran := Boot(NoModel, windows).(lastAttempt := 99);
            var l := Monitor(ran, 0, 0, true);
            var l' := CheckVolume(l, [50], 1, 3600, Check(None, 100, GOOD_RUN.(trigger := LabelVolume, checked := 100, begun := 100)));
            && Pending([50], l.labelMark) == 1 && Pending([50], l'.labelMark) == 0
            && l'.mla.started == l.mla.started && l'.mla.uploads == []
  {
    assert Pending([50], 0) == 1 && Pending([50], 100) == 0 by {
      assert [50][1..] == [];
    }
  }

  /** The pending count of a list is that of its parts, and a single label counts exactly when it lies past the mark. */
  lemma {:induction false} PendingAddsUp(a: seq<int>, b: seq<int>, stamp: int, mark: int)
    ensures Pending(a + b, mark) == Pending(a, mark) + Pending(b, mark)
    ensures Pending([stamp], mark) == if stamp > mark then 1 else 0
  {
    assert [stamp][1..] == [];
    if a == [] {
      assert a + b == b;
    } else {
      assert (a + b)[1..] == a[1..] + b;
      PendingAddsUp(a[1..], b, stamp, mark);
    }
  }

  /** What one check starts. The drift trigger runs unless a run is in progress or the cooldown blocks it;
      then the volume trigger runs exactly when enough labels are pending, no run is in progress, the
      automatic retrain is on and the cooldown has passed since the last start. Without enough labels, or
      with the automatic retrain off, nothing but the count changes. */
  lemma CheckStartsIff(l: Monitor, labels: seq<int>, threshold: nat, cooldown: int, check: Check)
    requires !l.mla.inProgress
    ensures var m := Drifted(l.mla, check.drift, cooldown);
            var l' := CheckVolume(l, labels, threshold, cooldown, check);
            var due := Pending(labels, l.labelMark) >= threshold && l.autoRetrain;
            && m.started == l.mla.started +
                 (if check.drift.Some? && check.drift.value.checked - l.mla.lastAttempt >= cooldown then 1 else 0)
            && l'.mla.started == m.started + (if due && check.call.checked - m.lastAttempt >= cooldown then 1 else 0)
            && (!due ==> l' == l.(mla := m, pending := Pending(labels, l.labelMark)))
            && (due ==> l'.labelMark == check.now && l'.pending == 0)
            && l'.autoRetrain == l.autoRetrain
  {
    if check.drift.Some? {
      SuppressedNow(l.mla, Call(Drift, check.drift.value.checked, check.drift.value.begun, check.drift.value.env), cooldown);
      OneOutcome(l.mla, Call(Drift, check.drift.value.checked, check.drift.value.begun, check.drift.value.env), cooldown);
    }
    SuppressedNow(Drifted(l.mla, check.drift, cooldown),
                  Call(LabelVolume, check.call.checked, check.call.begun, check.call.env), cooldown);
  }
}
