/** Source records: an uncertified record made from the package index, and its certified revision made
    from a qualification of the packaged Desktop. */
module ReleaseManifest {
  import opened Results
  import opened Sequences
  import opened Texts
  import opened ExactLists
  import opened RuntimeRecords

  const DESKTOP_REPOSITORY: string := "openminion/desktop"

  const DESKTOP_TARGETS: set<string> := {"darwin-arm64", "linux-x64", "win32-x64"}

  const QUALIFICATION_CHECKS: set<string> := {
    "old_runtime_reply", "owned_daemon_shutdown", "packaged_startup", "prepare_update", "runtime_integrity",
    "same_chat_reply", "startup_activation"}

  const SOURCE_KIND: string := "openminion-source-runtime-qualification"

  /** The place of the development version `0.0.0` in the version order. */
  const DEVELOPMENT_ORDER: real := 0.0

  // ----- versions and evidence paths

  /** Three runs of digits with dots between them. */
  predicate IsDottedTriple(text: string) {
    exists i, j | 0 < i < |text| && i + 1 < j < |text| - 1 ::
      text[i] == '.' && text[j] == '.' && forall k :: 0 <= k < |text| && k != i && k != j ==> IsDigit(text[k])
  }

  predicate IsStableThreePart(v: Version) {
    IsDottedTriple(v.text) && v.canonical && v.stable
  }

  function EvidencePathFor(kind: EvidenceKind, version: Version, evidenceId: string): Option<EvidencePath> {
    if IsStableThreePart(version) && IsIdentifier(evidenceId)
    then Some(EvidencePath(kind, version, evidenceId)) else None
  }

  // ----- qualification evidence

  /** A field that is missing or of another type is an empty value here; both are refused alike. */
  datatype TargetEvidence = TargetEvidence(
    platform: string,
    arch: string,
    packageSha256: string,
    appAsarSha256: string,
    verificationId: string,
    result: string,
    checks: seq<string>)

  datatype QualifiedRuntime = QualifiedRuntime(version: string, sourceReleaseId: string, wheelSha256: string,
      wheelSizeBytes: int)

  datatype Desktop = Desktop(version: Version, sourceCommit: string)

  /** A completion time: its text, and whether it reads as an ISO 8601 time. */
  datatype Timestamp = Timestamp(text: string, iso: bool)

  datatype Evidence = Evidence(
    schemaVersion: int,
    kind: string,
    runtime: Option<QualifiedRuntime>,
    desktop: Option<Desktop>,
    compatibility: Option<Compatibility>,
    targets: seq<TargetEvidence>,
    completedAt: Timestamp)

  datatype EvidenceError =
    | WrongKind | Incomplete | WrongRuntime | BadDesktop | BadBounds | OutsideBounds | BadTarget | BadCompletion

  predicate IsUtc(t: Timestamp) {
    t.text != "" && t.text[|t.text| - 1] == 'Z' && t.iso
  }

  predicate IsReleasedDesktop(d: Desktop) {
    IsStableThreePart(d.version) && d.version.order != DEVELOPMENT_ORDER && IsHex(d.sourceCommit, 40)
  }

  predicate AreStableBounds(c: Compatibility) {
    IsStableThreePart(c.minVersion) && IsStableThreePart(c.maxVersionExclusive)
  }

  predicate Covers(c: Compatibility, v: Version) {
    c.minVersion.order <= v.order < c.maxVersionExclusive.order
  }

  function TargetName(platform: string, arch: string): string {
    platform + "-" + arch
  }

  function TargetNames(targets: seq<TargetEvidence>): seq<string> {
    seq(|targets|, i requires 0 <= i < |targets| => TargetName(targets[i].platform, targets[i].arch))
  }

  /** What the evidence says of a target besides its checks. */
  predicate HasPassed(t: TargetEvidence) {
    IsHex(t.packageSha256, 64) && IsHex(t.appAsarSha256, 64) && IsIdentifier(t.verificationId) && t.result == "passed"
  }

  /** The evidence is about this record's wheel, comes from a released Desktop inside its own bounds,
      and covers every supported target once with every check once. */
  predicate IsQualified(e: Evidence, source: Record) {
    && e.schemaVersion == 1 && e.kind == SOURCE_KIND
    && source.wheel.Some?
    && e.runtime == Some(QualifiedRuntime(source.runtimeVersion.text, source.releaseId,
                                          source.wheel.value.sha256, source.wheel.value.sizeBytes))
    && e.desktop.Some? && IsReleasedDesktop(e.desktop.value)
    && e.compatibility.Some? && AreStableBounds(e.compatibility.value)
    && Covers(e.compatibility.value, e.desktop.value.version)
    && IsExactly(TargetNames(e.targets), DESKTOP_TARGETS)
    && (forall i :: 0 <= i < |e.targets| ==> IsQualifiedTarget(e.targets[i]))
    && IsUtc(e.completedAt)
  }

  method ValidateQualification(e: Evidence, source: Record) returns (r: Result<Compatibility, EvidenceError>)
    ensures r.Ok? <==> IsQualified(e, source)
    ensures r.Ok? ==> Some(r.value) == e.compatibility
  {
    if e.schemaVersion != 1 || e.kind != SOURCE_KIND { return Err(WrongKind); }
    if e.runtime.None? || e.desktop.None? || e.compatibility.None? || source.wheel.None? { return Err(Incomplete); }
    var wheel := source.wheel.value;
    var runtime := e.runtime.value;
    if runtime.version != source.runtimeVersion.text || runtime.sourceReleaseId != source.releaseId
       || runtime.wheelSha256 != wheel.sha256 || runtime.wheelSizeBytes != wheel.sizeBytes {
      return Err(WrongRuntime);
    }
    var desktop, bounds := e.desktop.value, e.compatibility.value;
    if !IsStableThreePart(desktop.version) || desktop.version.order == DEVELOPMENT_ORDER { return Err(BadDesktop); }
    if !IsHex(desktop.sourceCommit, 40) { return Err(BadDesktop); }
    if !IsStableThreePart(bounds.minVersion) || !IsStableThreePart(bounds.maxVersionExclusive) {
      return Err(BadBounds);
    }
    if !(bounds.minVersion.order <= desktop.version.order < bounds.maxVersionExclusive.order) {
      return Err(OutsideBounds);
    }
    var complete := ValidateTargets(e.targets);
    if !complete { return Err(BadTarget); }
    var end := e.completedAt.text;
    if end == "" || end[|end| - 1] != 'Z' || !e.completedAt.iso { return Err(BadCompletion); }
    r := Ok(e.compatibility.value);
  }

  predicate IsQualifiedTarget(t: TargetEvidence) {
    HasPassed(t) && IsExactly(t.checks, QUALIFICATION_CHECKS)
  }

  /** The loop over the targets: counted, collected, and compared with the supported ones. */
  method ValidateTargets(targets: seq<TargetEvidence>) returns (ok: bool)
    ensures ok <==>
      && IsExactly(TargetNames(targets), DESKTOP_TARGETS)
      && forall i :: 0 <= i < |targets| ==> IsQualifiedTarget(targets[i])
  {
    var names := TargetNames(targets);
    LengthAndSetAreExact(names, DESKTOP_TARGETS);
    if |targets| != |DESKTOP_TARGETS| { return false; }
    var actual: set<string> := {};
    for i := 0 to |targets|
      invariant actual == Elements(names[..i])
      invariant forall k :: 0 <= k < i ==> IsQualifiedTarget(targets[k])
    {
      assert names[..i + 1] == names[..i] + [names[i]];
      ElementsOfLast(names[..i], names[i]);
      actual := actual + {names[i]};
      var qualified := ValidateTarget(targets[i]);
      if !qualified { return false; }
    }
    assert names[..|targets|] == names;
    ok := actual == DESKTOP_TARGETS;
  }

  method ValidateTarget(t: TargetEvidence) returns (ok: bool)
    ensures ok <==> IsQualifiedTarget(t)
  {
    LengthAndSetAreExact(t.checks, QUALIFICATION_CHECKS);
    if !IsHex(t.packageSha256, 64) || !IsHex(t.appAsarSha256, 64) { return false; }
    if !IsIdentifier(t.verificationId) || t.result != "passed" { return false; }
    ok := |t.checks| == |QUALIFICATION_CHECKS| && Elements(t.checks) == QUALIFICATION_CHECKS;
  }

  // ----- certified_source_record

  datatype RecordError =
    | NotUncertifiedSource | BadReleaseId | ReusedReleaseId | BadCommit | NotQualified | BadEvidencePath
    | NotProduction | WrongPackage | NoSingleWheel | BadWheel

  function CertifiedRecord(source: Record, releaseId: string, evidence: Evidence, evidenceCommit: string,
                           evidenceId: string, evidenceBytes: Content, now: string): Result<Record, RecordError>
  {
    if !source.distribution.Pypi? || source.compatibility.Some? then Err(NotUncertifiedSource)
    else if !IsIdentifier(releaseId) then Err(BadReleaseId)
    else if releaseId == source.releaseId then Err(ReusedReleaseId)
    else if !IsHex(evidenceCommit, 40) then Err(BadCommit)
    else if !IsQualified(evidence, source) then Err(NotQualified)
    else
      var path := EvidencePathFor(Qualification, source.runtimeVersion, evidenceId);
      if path.None? then Err(BadEvidencePath)
      else
        Ok(source.(
           releaseId := releaseId,
           publishedAt := now,
           compatibility := evidence.compatibility,
           certification := Some(Certification(DESKTOP_REPOSITORY, evidenceCommit, path.value, Sha256(evidenceBytes)))))
  }

  /** The record is a certified revision of the source, for some evidence. */
  ghost predicate Certifies(record: Record, source: Record) {
    exists releaseId, evidence, commit, evidenceId, bytes, now ::
      CertifiedRecord(source, releaseId, evidence, commit, evidenceId, bytes, now) == Ok(record)
  }

  /** A source record is certified exactly when it is uncertified, the new identifier is another one, and
      the evidence qualifies it and is where an evidence file may be. */
  lemma CertifiedMeans(source: Record, releaseId: string, e: Evidence, commit: string, evidenceId: string,
                       bytes: Content, now: string)
    ensures CertifiedRecord(source, releaseId, e, commit, evidenceId, bytes, now).Ok? <==>
      && source.distribution == Pypi && source.compatibility == None
      && IsIdentifier(releaseId) && releaseId != source.releaseId
      && IsHex(commit, 40) && IsIdentifier(evidenceId) && IsQualified(e, source)
      && IsDottedTriple(source.runtimeVersion.text)
      && source.runtimeVersion.canonical && source.runtimeVersion.stable
  {
  }

  /** A list with each wanted text once has it at one place and at no other. */
  lemma OnePlaceEach(s: seq<string>, wanted: set<string>, x: string) returns (i: nat)
    requires IsExactly(s, wanted) && x in wanted
    ensures i < |s| && s[i] == x && forall j :: 0 <= j < |s| && j != i ==> s[j] != x
  {
    assert x in multiset(wanted);
    assert x in multiset(s);
    i :| 0 <= i < |s| && s[i] == x;
    forall j | 0 <= j < |s| && j != i ensures s[j] != x {
      var low, high := if i < j then i else j, if i < j then j else i;
      assert s == s[..low] + [s[low]] + s[low + 1..high] + [s[high]] + s[high + 1..];
      assert multiset(s)[x] == multiset(wanted)[x] <= 1;
    }
  }

  /** A certified record is a revision of its source: it keeps wheel, version, origin and notes, has a path
      of its own, and nothing certifies it again. It carries the bounds of its evidence and the digest of
      the evidence file, and behind it there is a released Desktop inside the bounds and, for every
      supported target, one passed qualification of this very wheel. */
  lemma CertificationIsEvidenced(source: Record, releaseId: string, e: Evidence, commit: string, evidenceId: string,
                                 bytes: Content, now: string, name: string)
    requires CertifiedRecord(source, releaseId, e, commit, evidenceId, bytes, now).Ok? && name in DESKTOP_TARGETS
    ensures
      var record := CertifiedRecord(source, releaseId, e, commit, evidenceId, bytes, now).value;
      && record == Record(source.schemaVersion, source.product, Pypi, source.channel, source.promotionStatus,
                          source.runtimeVersion, releaseId, now, source.sourceCommit, source.releaseNotes,
                          e.compatibility, record.certification, source.wheel, source.artifacts)
      && record.certification == Some(
           Certification("openminion/desktop", commit, EvidencePath(Qualification, source.runtimeVersion, evidenceId),
                         Sha256(bytes)))
      && PathOf(record) != PathOf(source)
      && (forall again :: !Certifies(again, record))
      && record.compatibility.Some? && e.desktop.Some? && record.compatibility.value.minVersion.order <=
           e.desktop.value.version.order < record.compatibility.value.maxVersionExclusive.order
      && e.runtime.Some? && record.wheel.Some? && e.runtime.value.wheelSha256 == record.wheel.value.sha256
      && exists i :: 0 <= i < |e.targets| && IsOnlyQualification(e.targets, i, name)
  {
    var i := OnePlaceEach(TargetNames(e.targets), DESKTOP_TARGETS, name);
    forall j | 0 <= j < |e.targets| && j != i ensures TargetName(e.targets[j].platform, e.targets[j].arch) != name {
      assert TargetNames(e.targets)[j] != name;
    }
    assert IsOnlyQualification(e.targets, i, name);
  }

  ghost predicate IsOnlyQualification(targets: seq<TargetEvidence>, i: nat, name: string)
    requires i < |targets|
  {
    && TargetName(targets[i].platform, targets[i].arch) == name
    && (forall j :: 0 <= j < |targets| && j != i ==> TargetName(targets[j].platform, targets[j].arch) != name)
    && targets[i].result == "passed"
    && IsExactly(targets[i].checks, {
         "old_runtime_reply", "owned_daemon_shutdown", "packaged_startup", "prepare_update", "runtime_integrity",
         "same_chat_reply", "startup_activation"})
  }

  // ----- source_record

  datatype IndexedFile = IndexedFile(
    filename: string,
    url: Address,
    yanked: bool,
    packageType: string,
    sha256: string,
    size: int,
    requiresPython: string)

  datatype PackageIndex = PackageIndex(name: string, version: string, files: seq<IndexedFile>)

  predicate IsProduction(v: Version) {
    v.canonical && v.stable && !v.local
  }

  function WheelName(version: string): string {
    "openminion-" + version + "-py3-none-any.whl"
  }

  function Named(files: seq<IndexedFile>, filename: string): (found: seq<IndexedFile>)
    ensures forall f :: f in found <==> f in files && f.filename == filename
  {
    if files == [] then []
    else (if files[0].filename == filename then [files[0]] else []) + Named(files[1..], filename)
  }

  predicate IsOfficialWheel(f: IndexedFile) {
    && f.url.scheme == "https" && f.url.host == "files.pythonhosted.org" && f.url.query == "" && f.url.fragment == ""
    && !f.yanked && f.packageType == "bdist_wheel"
    && IsHex(f.sha256, 64) && f.size > 0 && f.requiresPython != ""
  }

  function SourceRecord(version: Version, sourceCommit: string, releaseId: string, index: PackageIndex, now: string)
    : Result<Record, RecordError>
  {
    if !IsProduction(version) then Err(NotProduction)
    else if !IsHex(sourceCommit, 40) then Err(BadCommit)
    else if !IsIdentifier(releaseId) then Err(BadReleaseId)
    else if index.name != "openminion" || index.version != version.text then Err(WrongPackage)
    else
      var wheels := Named(index.files, WheelName(version.text));
      if |wheels| != 1 then Err(NoSingleWheel)
      else if !IsOfficialWheel(wheels[0]) then Err(BadWheel)
      else
        var f := wheels[0];
        Ok(Record(1, "openminion", Pypi, "stable", "promoted", version, releaseId, now, sourceCommit,
                  "https://github.com/openminion/openminion/releases/tag/v" + version.text, None, None,
                  Some(Wheel("openminion", version, f.requiresPython, f.url, f.filename, f.sha256, f.size)), []))
  }

  /** The wheel of a version as the package index should have it. */
  ghost predicate IsPublishedWheel(f: IndexedFile, version: Version) {
    && f.filename == "openminion-" + version.text + "-py3-none-any.whl"
    && f.url.scheme == "https" && f.url.host == "files.pythonhosted.org" && f.url.query == "" && f.url.fragment == ""
    && !f.yanked && f.packageType == "bdist_wheel"
    && IsHex(f.sha256, 64) && f.size > 0 && f.requiresPython != ""
  }

  /** The file at `i` is the only one with the name of the wheel. */
  ghost predicate IsOnlyWheel(files: seq<IndexedFile>, i: nat, version: Version) {
    && i < |files| && IsPublishedWheel(files[i], version)
    && forall j :: 0 <= j < |files| && j != i ==> files[j].filename != files[i].filename
  }

  /** What the source record says of the one wheel. */
  ghost predicate IsRecordOf(record: Record, f: IndexedFile, version: Version, commit: string, releaseId: string,
                             now: string) {
    record == Record(1, "openminion", Pypi, "stable", "promoted", version, releaseId, now, commit,
                     "https://github.com/openminion/openminion/releases/tag/v" + version.text, None, None,
                     Some(Wheel("openminion", version, f.requiresPython, f.url, f.filename, f.sha256, f.size)), [])
  }

  lemma {:induction false} NoneNamed(files: seq<IndexedFile>, filename: string)
    requires forall j :: 0 <= j < |files| ==> files[j].filename != filename
    ensures Named(files, filename) == []
  {
    if files == [] {
    } else {
      NoneNamed(files[1..], filename);
    }
  }

  lemma {:induction false} OneNamed(files: seq<IndexedFile>, filename: string, i: nat)
    requires i < |files| && files[i].filename == filename
    requires forall j :: 0 <= j < |files| && j != i ==> files[j].filename != filename
    ensures Named(files, filename) == [files[i]]
  {
    if i == 0 {
      NoneNamed(files[1..], filename);
    } else {
      assert files[0].filename != filename;
      OneNamed(files[1..], filename, i - 1);
    }
  }

  lemma {:induction false} TheOneNamed(files: seq<IndexedFile>, filename: string) returns (i: nat)
    requires |Named(files, filename)| == 1
    ensures i < |files| && files[i] == Named(files, filename)[0]
    ensures forall j :: 0 <= j < |files| && j != i ==> files[j].filename != filename
  {
    if files[0].filename == filename {
      i := 0;
      forall j | 0 < j < |files| ensures files[j].filename != filename {
        assert Named(files[1..], filename) == [];
        assert files[j] == files[1..][j - 1] && files[j] in files[1..];
      }
    } else {
      var k := TheOneNamed(files[1..], filename);
      i := k + 1;
      assert forall j :: 0 < j < |files| ==> files[j] == files[1..][j - 1];
    }
  }

  /** A source record is made exactly for a production version whose package index has one file with the
      name of the wheel, and that file is a published wheel. */
  lemma SourceRecordMeans(version: Version, commit: string, releaseId: string, index: PackageIndex, now: string)
    ensures SourceRecord(version, commit, releaseId, index, now).Ok? <==>
      && version.canonical && version.stable && !version.local && IsHex(commit, 40) && IsIdentifier(releaseId)
      && index.name == "openminion" && index.version == version.text
      && exists i :: IsOnlyWheel(index.files, i, version)
    ensures forall i: nat ::
      IsOnlyWheel(index.files, i, version) && SourceRecord(version, commit, releaseId, index, now).Ok? ==>
        IsRecordOf(SourceRecord(version, commit, releaseId, index, now).value, index.files[i], version, commit,
                   releaseId, now)
  {
    var wheels := Named(index.files, WheelName(version.text));
    forall i: nat | IsOnlyWheel(index.files, i, version) ensures wheels == [index.files[i]] {
      OneNamed(index.files, WheelName(version.text), i);
    }
    if |wheels| == 1 && IsOfficialWheel(wheels[0]) {
      var i := TheOneNamed(index.files, WheelName(version.text));
      assert wheels[0] in wheels;
      assert IsOnlyWheel(index.files, i, version);
    }
  }

  /** An output of the source producer. */
  ghost predicate IsSourceOutput(record: Record) {
    exists version, commit, releaseId, index, now :: SourceRecord(version, commit, releaseId, index, now) == Ok(record)
  }

  /** An output of the certifier, applied to an output of the source producer. */
  ghost predicate IsCertifiedOutput(record: Record) {
    exists source :: IsSourceOutput(source) && Certifies(record, source)
  }
}
