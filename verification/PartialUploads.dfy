/** Uploads that raise after they have written the model file: when a version's file is written again. */
module PartialUploads {
  import DriftWindows
  import opened Retrain
  import opened RetrainRuns

  /** The run gets as far as its upload. */
  predicate ReachesTheUpload(m: Mla, c: Call, cooldown: int) {
    !CooldownBlocks(m, c.trigger, c.checked, cooldown) && c.env.trains && (m.hasModel ==> c.env.abPasses) && c.env.converts
  }

  predicate WritesAFile(m: Mla, c: Call, cooldown: int) {
    ReachesTheUpload(m, c, cooldown) && c.env.upload != UploadRaises(false)
  }

  /** The upload writes the file and then raises. */
  predicate WritesAndRaises(m: Mla, c: Call, cooldown: int) {
    ReachesTheUpload(m, c, cooldown) && c.env.upload == UploadRaises(true)
  }

  /** Some run so far wrote a file and raised in its upload. */
  predicate LeftAFile(m: Mla, calls: seq<Call>, cooldown: int) {
    calls != [] &&
    var before := calls[..|calls| - 1];
    LeftAFile(m, before, cooldown) || WritesAndRaises(After(m, before, cooldown), calls[|calls| - 1], cooldown)
  }

  /** After such a run, some run wrote a file. */
  predicate WroteAfterwards(m: Mla, calls: seq<Call>, cooldown: int) {
    calls != [] &&
    var before := calls[..|calls| - 1];
    WroteAfterwards(m, before, cooldown) ||
    (LeftAFile(m, before, cooldown) && WritesAFile(After(m, before, cooldown), calls[|calls| - 1], cooldown))
  }

  ghost predicate Once(files: seq<string>) {
    forall i, j | 0 <= i < j < |files| :: files[i] != files[j]
  }

  /** What one call writes. */
  lemma OneCallWrites(m: Mla, c: Call, cooldown: int, v: Version)
    requires m.nextVersion == Label(v)
    ensures var m' := Step(m, c, cooldown).0;
            && m'.files == (if WritesAFile(m, c, cooldown) then m.files + [Label(v)] else m.files)
            && (if WritesAFile(m, c, cooldown) && !WritesAndRaises(m, c, cooldown)
                then m'.uploads == m.uploads + [Label(v)] && m'.nextVersion == Label(Successor(v))
                else m'.uploads == m.uploads && m'.nextVersion == m.nextVersion)
  {
    LabelRoundTrip(v);
  }

  /** Within one process no version's file is written twice exactly when no run writes a file after one
      that wrote its file and then raised in the upload: the next file would carry the same version. */
  lemma {:induction false} NoFileIsOverwrittenIff(m: Mla, calls: seq<Call>, cooldown: int, first: Version)
    requires m.files == m.uploads == [] && m.nextVersion == Label(first)
    ensures var m' := After(m, calls, cooldown);
            && (Once(m'.files) <==> !WroteAfterwards(m, calls, cooldown))
            && (!LeftAFile(m, calls, cooldown) ==> m'.files == m'.uploads)
            && (LeftAFile(m, calls, cooldown) ==> !Once(m'.files) || m'.files == m'.uploads + [m'.nextVersion])
            && (WroteAfterwards(m, calls, cooldown) ==> LeftAFile(m, calls, cooldown))
  {
    UploadsAreConsecutive(m, calls, cooldown, first);
    if calls != [] {
      var before, c := calls[..|calls| - 1], calls[|calls| - 1];
      var b := After(m, before, cooldown);
      NoFileIsOverwrittenIff(m, before, cooldown, first);
      UploadsAreConsecutive(m, before, cooldown, first);
      var v := Version(first.major, first.minor + |b.uploads|);
      OneCallWrites(b, c, cooldown, v);
      if !Once(b.files) {
        StaysTwice(b.files, Label(v));
      } else if LeftAFile(m, before, cooldown) {
        NextIsTwice(b.uploads, Label(v));
      } else {
        VersionsOnce(b.uploads + [Label(v)], first);
      }
    }
  }

  lemma StaysTwice(files: seq<string>, next: string)
    requires !Once(files)
    ensures !Once(files + [next])
  {
    var i, j :| 0 <= i < j < |files| && files[i] == files[j];
    assert (files + [next])[i] == (files + [next])[j];
  }

  lemma NextIsTwice(uploads: seq<string>, next: string)
    ensures !Once(uploads + [next] + [next])
  {
    var files := uploads + [next] + [next];
    assert files[|uploads|] == files[|uploads| + 1];
  }

  lemma VersionsOnce(files: seq<string>, first: Version)
    requires forall k | 0 <= k < |files| :: files[k] == Label(Version(first.major, first.minor + k))
    ensures Once(files)
  {
    forall i, j | 0 <= i < j < |files| ensures files[i] != files[j] {
      if files[i] == files[j] {
        LabelsAreDistinct(Version(first.major, first.minor + i), Version(first.major, first.minor + j));
      }
    }
  }

  // ── across a restart ───────────────────────────────────────────

  /** How many versions the process has written a file for. */
  function Touched(m: Mla): nat {
    |m.uploads| + if m.nextVersion in m.files then 1 else 0
  }

  /** The files carry exactly the first `Touched` versions from the first on. */
  lemma {:induction false} FilesAreTheVersions(m: Mla, calls: seq<Call>, cooldown: int, first: Version)
    requires m.files == m.uploads == [] && m.nextVersion == Label(first)
    ensures var m' := After(m, calls, cooldown);
            && (forall i | 0 <= i < |m'.uploads| :: m'.uploads[i] in m'.files)
            && (forall i | 0 <= i < |m'.files| :: m'.files[i] in m'.uploads || m'.files[i] == m'.nextVersion)
  {
    if calls != [] {
      var before := calls[..|calls| - 1];
      var b := After(m, before, cooldown);
      FilesAreTheVersions(m, before, cooldown, first);
      UploadsAreConsecutive(m, before, cooldown, first);
      OneCallWrites(b, calls[|calls| - 1], cooldown, Version(first.major, first.minor + |b.uploads|));
    }
  }

  /** Counting the files of raising uploads too: whatever the registry holds and however the start went,
      the process writes over a version's file exactly when the registry holds one of the versions it
      writes for, which are consecutive from the one it numbers on with. */
  lemma RestartOverwritesAFileIff(load: Load, windows: DriftWindows.Windows, calls: seq<Call>, cooldown: int, registry: seq<string>)
    ensures var m := After(Boot(load, windows), calls, cooldown);
            Overwrites(registry, m.files) <==>
            exists j | 0 <= j < |registry| :: IsOneOf(registry[j], NextAfter(load), Touched(m))
  {
    var next, m := NextAfter(load), After(Boot(load, windows), calls, cooldown);
    BootNumbers(load, windows);
    FilesAreTheVersions(Boot(load, windows), calls, cooldown, next);
    UploadsAreConsecutive(Boot(load, windows), calls, cooldown, next);
    FilesMeetIff(m, next, registry);
  }

  /** The state of a process that has numbered on from a version. */
  ghost predicate Numbered(m: Mla, next: Version) {
    && m.nextVersion == Label(Version(next.major, next.minor + |m.uploads|))
    && (forall k | 0 <= k < |m.uploads| :: m.uploads[k] == Label(Version(next.major, next.minor + k)))
    && (forall i | 0 <= i < |m.uploads| :: m.uploads[i] in m.files)
    && (forall i | 0 <= i < |m.files| :: m.files[i] in m.uploads || m.files[i] == m.nextVersion)
  }

  lemma FilesMeetIff(m: Mla, next: Version, registry: seq<string>)
    requires Numbered(m, next)
    ensures Overwrites(registry, m.files) <==> exists j | 0 <= j < |registry| :: IsOneOf(registry[j], next, Touched(m))
  {
    if i :| 0 <= i < |m.files| && m.files[i] in registry {
      var j :| 0 <= j < |registry| && registry[j] == m.files[i];
      FileIsOneOf(m, next, m.files[i]);
      assert IsOneOf(registry[j], next, Touched(m));
    }
    if j :| 0 <= j < |registry| && IsOneOf(registry[j], next, Touched(m)) {
      OneOfIsAFile(m, next, registry[j]);
      var i :| 0 <= i < |m.files| && m.files[i] == registry[j];
      assert m.files[i] in registry;
    }
  }

  lemma OneOfIsAFile(m: Mla, next: Version, file: string)
    requires Numbered(m, next) && IsOneOf(file, next, Touched(m))
    ensures file in m.files
  {
    var k := ParseLabel(file).value.minor - next.minor;
    assert ParseLabel(file).value == Version(next.major, next.minor + k);
    if k < |m.uploads| {
      assert file == m.uploads[k];
    }
  }

  lemma FileIsOneOf(m: Mla, next: Version, file: string)
    requires Numbered(m, next) && file in m.files
    ensures IsOneOf(file, next, Touched(m))
  {
    if file == m.nextVersion {
      LabelRoundTrip(Version(next.major, next.minor + |m.uploads|));
    } else {
      var k :| 0 <= k < |m.uploads| && m.uploads[k] == file;
      LabelRoundTrip(Version(next.major, next.minor + k));
    }
  }

  /** A manual run whose upload writes the file and then raises. */
  const HALF_RUN := GOOD_RUN.(env := GOOD_RUN.env.(upload := UploadRaises(true)))

  lemma HalfRunWrites(m: Mla, cooldown: int, v: Version)
    requires m.nextVersion == Label(v)
    ensures var h := After(m, [HALF_RUN], cooldown);
            h.files == m.files + [Label(v)] && h.uploads == m.uploads && h.nextVersion == Label(v)
  {
    assert After(m, [HALF_RUN][..0], cooldown) == m;
    assert WritesAndRaises(m, HALF_RUN, cooldown);
    OneCallWrites(m, HALF_RUN, cooldown, v);
  }

  lemma GoodRunWrites(m: Mla, cooldown: int, v: Version)
    requires m.nextVersion == Label(v)
    ensures var m' := Step(m, GOOD_RUN, cooldown).0; m'.files == m.files + [Label(v)] && m'.uploads == m.uploads + [Label(v)]
  {
    assert WritesAFile(m, GOOD_RUN, cooldown) && !WritesAndRaises(m, GOOD_RUN, cooldown);
    OneCallWrites(m, GOOD_RUN, cooldown, v);
  }

  /** Such a run and a good one after it: both write their model under the same version. */
  lemma NextRunWritesTheSameVersion(m: Mla, cooldown: int, v: Version)
    requires m.nextVersion == Label(v)
    ensures var m' := After(m, [HALF_RUN] + [GOOD_RUN], cooldown);
            m'.files == m.files + [Label(v)] + [Label(v)] && m'.uploads == m.uploads + [Label(v)]
  {
    assert ([HALF_RUN] + [GOOD_RUN])[..1] == [HALF_RUN];
    HalfRunWrites(m, cooldown, v);
    GoodRunWrites(After(m, [HALF_RUN], cooldown), cooldown, v);
  }
}
