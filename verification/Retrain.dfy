/** The retraining pipeline: cooldown, version succession and the outcome ledger. Calls to the
    pipeline are serial; time is a number that callers read from a clock. */
module Retrain {
  import opened Wrappers
  import opened Decimal
  import opened DriftWindows

  // ── version labels ─────────────────────────────────────────────

  datatype Version = Version(major: nat, minor: nat)

  function Label(v: Version): string {
    "v" + Show(v.major) + "." + Show(v.minor)
  }

  function WithoutV(s: string): string {
    if s == "" then "" else (if s[0] == 'v' then "" else [s[0]]) + WithoutV(s[1..])
  }

  /** `None` where Python's `int` raises. */
  function ParseLabel(s: string): Option<Version> {
    var parts := Split(WithoutV(s), '.');
    if parts[0] == "" || !AllDigits(parts[0]) then None
    else if |parts| == 1 then Some(Version(Value(parts[0]), 0))
    else if parts[1] == "" || !AllDigits(parts[1]) then None
    else Some(Version(Value(parts[0]), Value(parts[1])))
  }

  function Successor(v: Version): Version {
    v.(minor := v.minor + 1)
  }

  lemma {:induction false} NoVToDrop(s: string)
    requires 'v' !in s
    ensures WithoutV(s) == s
  {
    if s != "" {
      NoVToDrop(s[1..]);
    }
  }

  /** Labels read back as the version they name, so distinct versions have distinct labels. */
  lemma LabelRoundTrip(v: Version)
    ensures ParseLabel(Label(v)) == Some(v)
  {
    var numbers := Show(v.major) + ['.'] + Show(v.minor);
    NumbersWithoutV(v);
    SplitAt(Show(v.major), '.', Show(v.minor));
    SplitWithout(Show(v.minor), '.');
    assert Split(numbers, '.') == [Show(v.major), Show(v.minor)];
    ValueOfShow(v.major);
    ValueOfShow(v.minor);
  }

  lemma NumbersWithoutV(v: Version)
    ensures '.' !in Show(v.major) && '.' !in Show(v.minor)
    ensures WithoutV(Label(v)) == Show(v.major) + ['.'] + Show(v.minor)
  {
    var numbers := Show(v.major) + ['.'] + Show(v.minor);
    assert Label(v) == ['v'] + numbers;
    assert (['v'] + numbers)[1..] == numbers;
    NoVToDrop(numbers);
  }

  // ── one pipeline call ──────────────────────────────────────────

  datatype Trigger = Manual | Initial | LabelVolume | Drift

  /** An upload writes the model file first and may raise before or after that. */
  datatype Upload = Uploaded | UploadRaises(wrote: bool)

  /** How far a run gets: what each stage answers. `baseline` and `metrics` are the two stages
      after the upload that can still raise, before and after the detector is reset. */
  datatype Env = Env(trains: bool, abPasses: bool, converts: bool, upload: Upload, baseline: bool, metrics: bool)

  datatype Outcome = Cooldown | Deployed(version: string) | AbRejected | Failed

  /** `files` lists the versions a model file was written under, `uploads` those that were uploaded whole. */
  datatype Mla = Mla(
    hasModel: bool, currentVersion: string, nextVersion: string,
    lastAttempt: int, inProgress: bool,
    started: nat, succeeded: nat, failed: nat, suppressed: nat,
    windows: Windows, files: seq<string>, uploads: seq<string>)

  predicate Automatic(t: Trigger) {
    t != Manual && t != Initial
  }

  predicate CooldownBlocks(m: Mla, t: Trigger, now: int, cooldown: int) {
    Automatic(t) && now - m.lastAttempt < cooldown
  }

  /** The guarded body of the pipeline; `Failed` is any exception out of it. */
  function Attempt(m: Mla, env: Env): (Mla, Outcome) {
    if !env.trains then (m, Failed)
    else if m.hasModel && !env.abPasses then (m.(inProgress := false, windows := Reset(m.windows)), AbRejected)
    else if !env.converts || env.upload == UploadRaises(false) then (m, Failed)
    else if env.upload.UploadRaises? then (m.(files := m.files + [m.nextVersion]), Failed)
    else Ship(m.(files := m.files + [m.nextVersion]), env)
  }

  /** From the end of a whole upload on. */
  function Ship(m: Mla, env: Env): (Mla, Outcome) {
    var shipped := m.(uploads := m.uploads + [m.nextVersion], hasModel := true, currentVersion := m.nextVersion);
    match ParseLabel(m.nextVersion)
    case None => (shipped, Failed)
    case Some(v) =>
      var renumbered := shipped.(nextVersion := Label(Successor(v)));
      if !env.baseline then (renumbered, Failed)
      else
        var cleared := renumbered.(windows := Reset(m.windows));
        if !env.metrics then (cleared, Failed)
        else (cleared.(succeeded := m.succeeded + 1), Deployed(m.nextVersion))
  }

  function Begun(m: Mla, begun: int): Mla {
    m.(lastAttempt := begun, inProgress := true, started := m.started + 1)
  }

  function Ended(m: Mla, outcome: Outcome): Mla {
    m.(inProgress := false, failed := m.failed + if outcome.Failed? then 1 else 0)
  }

  /** `checked` and `begun` are the two clock readings of one call. */
  function Pipeline(m: Mla, t: Trigger, checked: int, begun: int, cooldown: int, env: Env): (Mla, Outcome) {
    if CooldownBlocks(m, t, checked, cooldown) then (m.(suppressed := m.suppressed + 1), Cooldown)
    else
      var tried := Attempt(Begun(m, begun), env);
      (Ended(tried.0, tried.1), tried.1)
  }

  class MLAService {
    const detector: DriftDetector
    const cooldown: int
    var hasModel: bool
    var currentVersion: string
    var nextVersion: string
    var lastAttempt: int
    var inProgress: bool
    var started: nat
    var succeeded: nat
    var failed: nat
    var suppressed: nat
    var files: seq<string>
    var uploads: seq<string>

    function State(): Mla
      reads this, detector
    {
      Mla(hasModel, currentVersion, nextVersion, lastAttempt, inProgress, started, succeeded, failed, suppressed,
          detector.State(), files, uploads)
    }

    constructor (detector: DriftDetector, cooldown: int, load: Load)
      ensures this.detector == detector && this.cooldown == cooldown
      ensures State() == Boot(load, detector.State())
    {
      this.detector, this.cooldown := detector, cooldown;
      hasModel, currentVersion, nextVersion := Booted(load).0, Booted(load).1, Booted(load).2;
      lastAttempt, inProgress, started, succeeded, failed, suppressed := 0, false, 0, 0, 0, 0;
      files, uploads := [], [];
    }

    method CooldownSuppresses(t: Trigger, now: int) returns (blocked: bool)
      modifies this`suppressed
      ensures blocked == CooldownBlocks(old(State()), t, now, cooldown)
      ensures State() == old(State()).(suppressed := old(suppressed) + if blocked then 1 else 0)
    {
      if t == Manual || t == Initial {
        return false;
      }
      var elapsed := now - lastAttempt;
      if elapsed >= cooldown {
        return false;
      }
      suppressed := suppressed + 1;
      return true;
    }

    method RunTrainingPipeline(t: Trigger, checked: int, begun: int, env: Env) returns (outcome: Outcome)
      modifies this, detector
      ensures (State(), outcome) == Pipeline(old(State()), t, checked, begun, cooldown, env)
    {
      var blocked := CooldownSuppresses(t, checked);
      if blocked {
        return Cooldown;
      }
      Begin(begun);
      outcome := TryPipeline(env);
      End(outcome);
    }

    method Begin(now: int)
      modifies this
      ensures State() == Begun(old(State()), now)
    {
      lastAttempt := now;
      inProgress := true;
      started := started + 1;
    }

    method End(outcome: Outcome)
      modifies this
      ensures State() == Ended(old(State()), outcome)
    {
      if outcome.Failed? {
        failed := failed + 1;
      }
      inProgress := false;
    }

    method TryPipeline(env: Env) returns (outcome: Outcome)
      modifies this, detector
      ensures (State(), outcome) == Attempt(old(State()), env)
    {
      if !env.trains {
        return Failed;
      }
      if hasModel && !env.abPasses {
        inProgress := false;
        detector.ResetAll();
        return AbRejected;
      }
      if !env.converts || env.upload == UploadRaises(false) {
        return Failed;
      }
      files := files + [nextVersion];
      if env.upload.UploadRaises? {
        return Failed;
      }
      outcome := UpdateState(env);
    }

    /** What follows the upload. */
    method UpdateState(env: Env) returns (outcome: Outcome)
      modifies this, detector
      ensures (State(), outcome) == Ship(old(State()), env)
    {
      uploads := uploads + [nextVersion];
      hasModel := true;
      currentVersion := nextVersion;
      var version := ParseLabel(currentVersion);
      if version.None? {
        return Failed;
      }
      nextVersion := Label(Successor(version.value));
      if !env.baseline {
        return Failed;
      }
      detector.ResetAll();
      if !env.metrics {
        return Failed;
      }
      succeeded := succeeded + 1;
      return Deployed(currentVersion);
    }
  }

  // ── start-up ───────────────────────────────────────────────────

  /** What the registry answers at start: nothing, the serving model with or without its booster,
      or an exception. */
  datatype Load = NoModel | Serving(version: string, booster: bool) | LoadRaises

  /** Whether a model was loaded, its version, and the version the next upload will carry. */
  function Booted(load: Load): (bool, string, string) {
    match load
    case NoModel => (false, "v1.0", "v1.0")
    case LoadRaises => (false, "v1.0", "v1.0")
    case Serving(version, booster) =>
      if !booster then (false, "v1.0", "v1.1")
      else
        match ParseLabel(version)
        case None => (false, version, "v1.0")
        case Some(v) => (true, version, Label(Successor(v)))
  }

  function Boot(load: Load, windows: Windows): Mla {
    var (hasModel, current, next) := Booted(load);
    Mla(hasModel, current, next, 0, false, 0, 0, 0, 0, windows, [], [])
  }
}
