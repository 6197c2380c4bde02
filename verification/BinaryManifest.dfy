/** Promotion of a binary candidate: its executables are bound to the assets of an immutable Release,
    to the native verification and to the qualification of the packaged Desktop. */
module BinaryManifest {
  import opened Results
  import opened Sequences
  import opened ExactLists
  import opened RuntimeRecords
  import opened ReleaseManifest

  const BINARY_KIND: string := "openminion-binary-runtime-qualification"

  const BINARY_CHECKS: set<string> := QUALIFICATION_CHECKS + {"native_trust"}

  const MAX_ARTIFACT_SIZE: int := 1_073_741_824

  const DOWNLOADS: string := "https://github.com/openminion/runtime/releases/download/"

  datatype Role = Cli | Daemon

  datatype FileIdentity = FileIdentity(filename: string, sha256: string, sizeBytes: int)

  /** A field that is missing or of another type is an empty value here; both are refused alike. */
  datatype CandidateTarget = CandidateTarget(
    platform: string,
    arch: string,
    format: string,
    minOsVersion: string,
    libcFamily: string,
    minLibcVersion: string,
    cli: Option<FileIdentity>,
    daemon: Option<FileIdentity>)
  {
    function Name(): string {
      TargetName(platform, arch)
    }

    function File(role: Role): Option<FileIdentity> {
      if role.Cli? then cli else daemon
    }
  }

  datatype Candidate = Candidate(
    schemaVersion: int,
    product: string,
    distribution: Distribution,
    channel: string,
    promotionStatus: string,
    runtimeVersion: Version,
    sourceCommit: string,
    releaseNotes: string,
    compatibility: Option<Compatibility>,
    artifacts: seq<CandidateTarget>)

  datatype Asset = Asset(name: string, size: int, digest: string, downloadUrl: string)

  datatype Release = Release(
    tagName: string,
    draft: bool,
    prerelease: bool,
    immutable: bool,
    publishedAt: string,
    assets: seq<Asset>)

  /** The native verification: for each target the id of its verification. */
  datatype Verification = Verification(schemaVersion: int, targets: map<string, string>)

  datatype QualifiedTarget = QualifiedTarget(
    platform: string,
    arch: string,
    cliSha256: string,
    daemonSha256: string,
    verificationId: string,
    packageSha256: string,
    appAsarSha256: string,
    result: string,
    checks: seq<string>)
  {
    function Name(): string {
      TargetName(platform, arch)
    }

    function Digest(role: Role): string {
      if role.Cli? then cliSha256 else daemonSha256
    }
  }

  datatype QualifiedRelease = QualifiedRelease(version: string, releaseTag: string)

  datatype BinaryEvidence = BinaryEvidence(
    schemaVersion: int,
    kind: string,
    runtime: Option<QualifiedRelease>,
    desktop: Option<Desktop>,
    compatibility: Option<Compatibility>,
    targets: seq<QualifiedTarget>,
    completedAt: Timestamp)

  function CandidateNames(targets: seq<CandidateTarget>): seq<string> {
    seq(|targets|, i requires 0 <= i < |targets| => targets[i].Name())
  }

  function QualifiedNames(targets: seq<QualifiedTarget>): seq<string> {
    seq(|targets|, i requires 0 <= i < |targets| => targets[i].Name())
  }

  // ----- validate_binary_qualification_evidence

  /** The candidate's targets by name; the last one of a name stays. */
  function ByTarget(targets: seq<CandidateTarget>): map<string, CandidateTarget> {
    if targets == [] then map[]
    else
      var last := targets[|targets| - 1];
      ByTarget(targets[..|targets| - 1])[last.Name() := last]
  }

  lemma {:induction false} ByTargetMeans(targets: seq<CandidateTarget>)
    ensures ByTarget(targets).Keys == Elements(CandidateNames(targets))
    ensures forall name :: name in ByTarget(targets) ==>
      ByTarget(targets)[name] in targets && ByTarget(targets)[name].Name() == name
  {
    if targets == [] {
    } else {
      var rest, last := targets[..|targets| - 1], targets[|targets| - 1];
      ByTargetMeans(rest);
      assert CandidateNames(targets) == CandidateNames(rest) + [last.Name()];
      ElementsOfLast(CandidateNames(rest), last.Name());
      assert targets == rest + [last];
    }
  }

  /** Of several targets of one name the last one counts. */
  lemma {:induction false} ByTargetIsLast(targets: seq<CandidateTarget>, i: nat)
    requires i < |targets| && forall j :: i < j < |targets| ==> targets[j].Name() != targets[i].Name()
    ensures targets[i].Name() in ByTarget(targets) && ByTarget(targets)[targets[i].Name()] == targets[i]
  {
    if i < |targets| - 1 {
      ByTargetIsLast(targets[..|targets| - 1], i);
    }
  }

  /** Native verification and candidate agree with the evidence on one target. */
  predicate AgreesWith(t: QualifiedTarget, candidates: map<string, CandidateTarget>, native: map<string, string>) {
    && t.Name() in candidates && t.Name() in native
    && candidates[t.Name()].cli.Some? && candidates[t.Name()].daemon.Some?
    && t.cliSha256 == candidates[t.Name()].cli.value.sha256
    && t.daemonSha256 == candidates[t.Name()].daemon.value.sha256
    && t.verificationId == native[t.Name()]
  }

  predicate IsPassed(t: QualifiedTarget) {
    IsHex(t.packageSha256, 64) && IsHex(t.appAsarSha256, 64) && t.result == "passed"
  }

  /** The evidence is about this candidate and its Release, comes from a released Desktop inside the
      candidate's bounds, and covers every target once with every check once. */
  predicate IsBinaryQualified(e: BinaryEvidence, c: Candidate, v: Verification, tag: string) {
    && e.schemaVersion == 1 && e.kind == BINARY_KIND
    && e.runtime == Some(QualifiedRelease(c.runtimeVersion.text, tag))
    && e.desktop.Some? && IsReleasedDesktop(e.desktop.value)
    && e.compatibility.Some? && e.compatibility == c.compatibility
    && AreStableBounds(e.compatibility.value) && Covers(e.compatibility.value, e.desktop.value.version)
    && Elements(CandidateNames(c.artifacts)) == DESKTOP_TARGETS
    && AreQualifiedTargets(e.targets, ByTarget(c.artifacts), v.targets)
    && IsUtc(e.completedAt)
  }

  predicate AreQualifiedTargets(targets: seq<QualifiedTarget>, candidates: map<string, CandidateTarget>,
                                native: map<string, string>) {
    && IsExactly(QualifiedNames(targets), DESKTOP_TARGETS)
    && forall i :: 0 <= i < |targets| ==> IsQualifiedTarget(targets[i], candidates, native)
  }

  predicate IsQualifiedTarget(t: QualifiedTarget, candidates: map<string, CandidateTarget>,
                              native: map<string, string>) {
    AgreesWith(t, candidates, native) && IsPassed(t) && IsExactly(t.checks, BINARY_CHECKS)
  }

  method ValidateBinaryQualification(e: BinaryEvidence, c: Candidate, v: Verification, tag: string) returns (ok: bool)
    ensures ok <==> IsBinaryQualified(e, c, v, tag)
  {
    if e.schemaVersion != 1 || e.kind != BINARY_KIND { return false; }
    if e.runtime.None? || e.desktop.None? || e.compatibility.None? { return false; }
    if e.runtime.value.version != c.runtimeVersion.text || e.runtime.value.releaseTag != tag { return false; }
    var desktop, bounds := e.desktop.value, e.compatibility.value;
    if !IsStableThreePart(desktop.version) || desktop.version.order == DEVELOPMENT_ORDER { return false; }
    if !IsHex(desktop.sourceCommit, 40) || e.compatibility != c.compatibility { return false; }
    if !IsStableThreePart(bounds.minVersion) || !IsStableThreePart(bounds.maxVersionExclusive) { return false; }
    if !(bounds.minVersion.order <= desktop.version.order < bounds.maxVersionExclusive.order) { return false; }
    var candidates := ByTarget(c.artifacts);
    ByTargetMeans(c.artifacts);
    if candidates.Keys != DESKTOP_TARGETS { return false; }
    var complete := ValidateQualifiedTargets(e.targets, candidates, v.targets);
    var end := e.completedAt.text;
    ok := complete && e.completedAt.iso && end != "" && end[|end| - 1] == 'Z';
  }

  method ValidateQualifiedTargets(targets: seq<QualifiedTarget>, candidates: map<string, CandidateTarget>,
                                  native: map<string, string>)
    returns (ok: bool)
    ensures ok <==> AreQualifiedTargets(targets, candidates, native)
  {
    var names := QualifiedNames(targets);
    LengthAndSetAreExact(names, DESKTOP_TARGETS);
    if |targets| != |DESKTOP_TARGETS| { return false; }
    var actual: set<string> := {};
    for i := 0 to |targets|
      invariant actual == Elements(names[..i])
      invariant forall k :: 0 <= k < i ==> IsQualifiedTarget(targets[k], candidates, native)
    {
      var qualified := ValidateQualifiedTarget(targets[i], candidates, native);
      if !qualified { return false; }
      assert names[..i + 1] == names[..i] + [names[i]];
      ElementsOfLast(names[..i], names[i]);
      actual := actual + {targets[i].Name()};
    }
    assert names[..|targets|] == names;
    ok := actual == DESKTOP_TARGETS;
  }

  method ValidateQualifiedTarget(t: QualifiedTarget, candidates: map<string, CandidateTarget>,
                                 native: map<string, string>)
    returns (ok: bool)
    ensures ok <==> IsQualifiedTarget(t, candidates, native)
  {
    LengthAndSetAreExact(t.checks, BINARY_CHECKS);
    var name := t.Name();
    if name !in candidates || name !in native { return false; }
    var candidate := candidates[name];
    if candidate.cli.None? || t.cliSha256 != candidate.cli.value.sha256 { return false; }
    if candidate.daemon.None? || t.daemonSha256 != candidate.daemon.value.sha256 { return false; }
    if t.verificationId != native[name] { return false; }
    if !IsHex(t.packageSha256, 64) || !IsHex(t.appAsarSha256, 64) || t.result != "passed" { return false; }
    ok := Elements(t.checks) == BINARY_CHECKS && |t.checks| == |BINARY_CHECKS|;
  }

  // ----- promoted_record

  datatype PromotionError =
    | UnstableVersion | BadCandidate | EmptyBounds | WrongTargets | NotFinal | DuplicateAsset | BadVerification
    | Unqualified | UnknownCommit | UnknownEvidence | UnboundTarget

  /** Assets by name; the last one of a name stays. */
  function ByName(assets: seq<Asset>): map<string, Asset> {
    if assets == [] then map[]
    else
      var last := assets[|assets| - 1];
      ByName(assets[..|assets| - 1])[last.name := last]
  }

  lemma {:induction false} ByNameMeans(assets: seq<Asset>)
    ensures forall name :: name in ByName(assets) ==>
      ByName(assets)[name] in assets && ByName(assets)[name].name == name
  {
    if assets == [] {
    } else {
      var rest := assets[..|assets| - 1];
      ByNameMeans(rest);
      assert assets == rest + [assets[|assets| - 1]];
    }
  }

  /** `_artifact_identity`. */
  predicate IsFileIdentity(f: FileIdentity) {
    && IsPlainName(f.filename) && f.filename[0] !in "._-"
    && IsHex(f.sha256, 64)
    && 0 < f.sizeBytes <= MAX_ARTIFACT_SIZE
  }

  /** The executable of a role, when a Release asset is exactly it. */
  function PromotedFile(f: Option<FileIdentity>, assets: map<string, Asset>, tag: string): Option<Executable> {
    if f.None? || !IsFileIdentity(f.value) || f.value.filename !in assets then None
    else
      var asset := assets[f.value.filename];
      if asset.size != f.value.sizeBytes || asset.digest != "sha256:" + f.value.sha256
         || asset.downloadUrl != DOWNLOADS + tag + "/" + f.value.filename then None
      else Some(Executable(f.value.filename, f.value.sha256, f.value.sizeBytes, asset.downloadUrl))
  }

  predicate IsPromotableTarget(t: CandidateTarget, native: map<string, string>) {
    && t.Name() in DESKTOP_TARGETS && t.format == "executables"
    && t.Name() in native && IsIdentifier(native[t.Name()])
    && t.minOsVersion != ""
    && (t.platform == "linux" ==> t.libcFamily == "glibc" && t.minLibcVersion != "")
  }

  function PromotedTarget(t: CandidateTarget, assets: map<string, Asset>, native: map<string, string>,
                          tag: string): Option<Artifact> {
    if !IsPromotableTarget(t, native) then None
    else
      var cli, daemon := PromotedFile(t.cli, assets, tag), PromotedFile(t.daemon, assets, tag);
      if cli.None? || daemon.None? then None
      else
        Some(Artifact(t.platform, t.arch, t.minOsVersion,
                      if t.platform == "linux" then Some(t.minLibcVersion) else None,
                      native[t.Name()], cli.value, daemon.value))
  }

  function PromotedTargets(targets: seq<CandidateTarget>, assets: map<string, Asset>, native: map<string, string>,
                           tag: string)
    : Option<seq<Artifact>>
  {
    if targets == [] then Some([])
    else
      var rest := PromotedTargets(targets[..|targets| - 1], assets, native, tag);
      var last := PromotedTarget(targets[|targets| - 1], assets, native, tag);
      if rest.None? || last.None? then None else Some(rest.value + [last.value])
  }

  /** Python's order on texts. */
  predicate TextAtMost(a: string, b: string) {
    a == "" || (b != "" && (a[0] < b[0] || (a[0] == b[0] && TextAtMost(a[1..], b[1..]))))
  }

  /** The sort key (platform, arch). */
  predicate KeyAtMost(a: Artifact, b: Artifact) {
    if a.platform == b.platform then TextAtMost(a.arch, b.arch) else TextAtMost(a.platform, b.platform)
  }

  function Place(a: Artifact, sorted: seq<Artifact>): seq<Artifact> {
    if sorted == [] || KeyAtMost(a, sorted[0]) then [a] + sorted else [sorted[0]] + Place(a, sorted[1..])
  }

  function SortTargets(artifacts: seq<Artifact>): seq<Artifact> {
    if artifacts == [] then [] else Place(artifacts[0], SortTargets(artifacts[1..]))
  }

  function ReleaseTag(version: string, releaseId: string): string {
    "runtime-v" + version + "-" + releaseId
  }

  predicate IsCandidate(c: Candidate, releaseId: string) {
    && c.schemaVersion == 1 && c.product == "openminion" && c.distribution.Binary?
    && c.channel == "stable" && c.promotionStatus == "candidate"
    && IsHex(c.sourceCommit, 40) && IsIdentifier(releaseId)
  }

  predicate HasBounds(c: Candidate) {
    && c.compatibility.Some?
    && IsDottedTriple(c.compatibility.value.minVersion.text)
         && IsDottedTriple(c.compatibility.value.maxVersionExclusive.text)
    && c.compatibility.value.minVersion.order < c.compatibility.value.maxVersionExclusive.order
  }

  predicate IsFinal(r: Release, tag: string) {
    r.tagName == tag && !r.draft && !r.prerelease && r.immutable && r.publishedAt != ""
  }

  /** The evidence as it was fetched: where it is, and its document and bytes. */
  datatype EvidenceFile = EvidenceFile(commit: string, id: string, evidence: BinaryEvidence, bytes: Content)

  /** Everything that is checked before the targets are promoted one by one. */
  function Refusal(c: Candidate, r: Release, v: Verification, releaseId: string,
                   f: EvidenceFile): Option<PromotionError> {
    var tag := ReleaseTag(c.runtimeVersion.text, releaseId);
    if !IsProduction(c.runtimeVersion) then Some(UnstableVersion)
    else if !IsCandidate(c, releaseId) then Some(BadCandidate)
    else if !HasBounds(c) then Some(EmptyBounds)
    else if |c.artifacts| != 3 || Elements(CandidateNames(c.artifacts)) != DESKTOP_TARGETS then Some(WrongTargets)
    else if !IsFinal(r, tag) then Some(NotFinal)
    else if |ByName(r.assets)| != |r.assets| then Some(DuplicateAsset)
    else if v.schemaVersion != 1 || v.targets.Keys != DESKTOP_TARGETS then Some(BadVerification)
    else if !IsBinaryQualified(f.evidence, c, v, tag) then Some(Unqualified)
    else if !IsHex(f.commit, 40) then Some(UnknownCommit)
    else if EvidencePathFor(BinaryQualification, c.runtimeVersion, f.id).None? then Some(UnknownEvidence)
    else None
  }

  function Assembled(c: Candidate, r: Release, releaseId: string, f: EvidenceFile, path: EvidencePath,
                     artifacts: seq<Artifact>): Record {
    Record(1, "openminion", Binary, "stable", "promoted", c.runtimeVersion, releaseId, r.publishedAt, c.sourceCommit,
           c.releaseNotes, c.compatibility, Some(Certification(DESKTOP_REPOSITORY, f.commit, path, Sha256(f.bytes))),
           None, artifacts)
  }

  function PromotedRecord(c: Candidate, r: Release, v: Verification, releaseId: string,
                          f: EvidenceFile): Result<Record, PromotionError> {
    var refusal := Refusal(c, r, v, releaseId, f);
    if refusal.Some? then Err(refusal.value)
    else
      var promoted := PromotedTargets(c.artifacts, ByName(r.assets), v.targets,
        ReleaseTag(c.runtimeVersion.text, releaseId));
      if promoted.None? then Err(UnboundTarget)
      else
        var path := EvidencePathFor(BinaryQualification, c.runtimeVersion, f.id).value;
        Ok(Assembled(c, r, releaseId, f, path, SortTargets(promoted.value)))
  }

  /** The nested loops of the promotion, over targets and roles. */
  method Promote(c: Candidate, r: Release, v: Verification, releaseId: string, f: EvidenceFile)
    returns (record: Result<Record, PromotionError>)
    ensures record == PromotedRecord(c, r, v, releaseId, f)
    ensures record.Ok? <==> IsPromotable(c, r, v, releaseId, f)
  {
    PromotionMeans(c, r, v, releaseId, f);
    var version := c.runtimeVersion;
    if !version.canonical || !version.stable || version.local { return Err(UnstableVersion); }
    if c.schemaVersion != 1 || c.product != "openminion" || c.distribution != Binary || c.channel != "stable"
       || c.promotionStatus != "candidate" || !IsHex(c.sourceCommit, 40) || !IsIdentifier(releaseId) {
      return Err(BadCandidate);
    }
    if c.compatibility.None? { return Err(EmptyBounds); }
    var minimum, maximum := c.compatibility.value.minVersion, c.compatibility.value.maxVersionExclusive;
    if !IsDottedTriple(minimum.text) || !IsDottedTriple(maximum.text) || minimum.order >= maximum.order {
      return Err(EmptyBounds);
    }
    if |c.artifacts| != 3 || Elements(CandidateNames(c.artifacts)) != DESKTOP_TARGETS { return Err(WrongTargets); }
    var tag := "runtime-v" + version.text + "-" + releaseId;
    if r.tagName != tag || r.draft || r.prerelease || !r.immutable || r.publishedAt == "" { return Err(NotFinal); }
    var assets := ByName(r.assets);
    if |assets| != |r.assets| { return Err(DuplicateAsset); }
    if v.schemaVersion != 1 || v.targets.Keys != DESKTOP_TARGETS { return Err(BadVerification); }
    var qualified := ValidateBinaryQualification(f.evidence, c, v, tag);
    if !qualified { return Err(Unqualified); }
    if !IsHex(f.commit, 40) { return Err(UnknownCommit); }
    if !IsStableThreePart(version) || !IsIdentifier(f.id) { return Err(UnknownEvidence); }
    var promoted := PromoteTargets(c.artifacts, assets, v.targets, tag);
    if promoted.None? { return Err(UnboundTarget); }
    var path := EvidencePath(BinaryQualification, version, f.id);
    record := Ok(Assembled(c, r, releaseId, f, path, SortTargets(promoted.value)));
  }

  method PromoteTargets(values: seq<CandidateTarget>, assets: map<string, Asset>, native: map<string, string>,
                        tag: string)
    returns (promoted: Option<seq<Artifact>>)
    requires |values| == 3 && Elements(CandidateNames(values)) == DESKTOP_TARGETS
    ensures promoted == PromotedTargets(values, assets, native, tag)
  {
    var done: seq<Artifact> := [];
    var names: set<string> := {};
    NamesAreDistinct(values);
    for i := 0 to |values|
      invariant PromotedTargets(values[..i], assets, native, tag) == Some(done)
      invariant names == Elements(CandidateNames(values)[..i])
    {
      var value := values[i];
      PromotedOneMore(values, assets, native, tag, i);
      OneMoreName(values, i);
      if value.Name() in names {
        assert false;
      }
      var artifact := PromoteTarget(value, assets, native, tag);
      if artifact.None? {
        Stuck(values, assets, native, tag, i);
        return None;
      }
      done := done + [artifact.value];
      names := names + {value.Name()};
    }
    assert values[..|values|] == values;
    promoted := Some(done);
  }

  /** One turn of the outer loop. */
  method PromoteTarget(value: CandidateTarget, assets: map<string, Asset>, native: map<string, string>, tag: string)
    returns (artifact: Option<Artifact>)
    ensures artifact == PromotedTarget(value, assets, native, tag)
  {
    if !IsPromotableTarget(value, native) { return None; }
    var files := PromoteFiles(value, assets, tag);
    if files.None? {
      assert PromotedFile(value.File(Cli), assets, tag).None? || PromotedFile(value.File(Daemon), assets, tag).None?;
      return None;
    }
    artifact := Some(Artifact(value.platform, value.arch, value.minOsVersion,
                              if value.platform == "linux" then Some(value.minLibcVersion) else None,
                              native[value.Name()], files.value[Cli], files.value[Daemon]));
  }

  lemma PromotedOneMore(values: seq<CandidateTarget>, assets: map<string, Asset>, native: map<string, string>,
                        tag: string, i: nat)
    requires i < |values| && PromotedTargets(values[..i], assets, native, tag).Some?
    ensures
      var more := PromotedTargets(values[..i + 1], assets, native, tag);
      var last := PromotedTarget(values[i], assets, native, tag);
      && (more.Some? <==> last.Some?)
      && (more.Some? ==> more.value == PromotedTargets(values[..i], assets, native, tag).value + [last.value])
  {
    assert values[..i + 1][..i] == values[..i] && values[..i + 1][i] == values[i];
  }

  lemma OneMoreName(values: seq<CandidateTarget>, i: nat)
    requires i < |values|
    ensures Elements(CandidateNames(values)[..i + 1]) == Elements(CandidateNames(values)[..i]) + {values[i].Name()}
  {
    assert CandidateNames(values)[..i + 1] == CandidateNames(values)[..i] + [values[i].Name()];
    ElementsOfLast(CandidateNames(values)[..i], values[i].Name());
  }

  /** The inner loop, over the roles of one target. */
  method PromoteFiles(value: CandidateTarget, assets: map<string, Asset>, tag: string)
    returns (files: Option<map<Role, Executable>>)
    ensures files.Some? <==> forall role :: PromotedFile(value.File(role), assets, tag).Some?
    ensures files.Some? ==>
      forall role :: role in files.value && PromotedFile(value.File(role), assets, tag) == Some(files.value[role])
  {
    var found: map<Role, Executable> := map[];
    var roles := [Cli, Daemon];
    for k := 0 to 2
      invariant forall j :: 0 <= j < k ==>
        roles[j] in found && PromotedFile(value.File(roles[j]), assets, tag) == Some(found[roles[j]])
    {
      var file := PromotedFile(value.File(roles[k]), assets, tag);
      if file.None? { return None; }
      found := found[roles[k] := file.value];
    }
    forall role: Role ensures role in found && PromotedFile(value.File(role), assets, tag) == Some(found[role]) {
      assert role == roles[if role.Cli? then 0 else 1];
    }
    files := Some(found);
  }

  lemma {:induction false} Stuck(values: seq<CandidateTarget>, assets: map<string, Asset>,
                                 native: map<string, string>, tag: string, i: nat)
    requires i < |values| && PromotedTarget(values[i], assets, native, tag).None?
    ensures PromotedTargets(values, assets, native, tag).None?
  {
    if i < |values| - 1 {
      Stuck(values[..|values| - 1], assets, native, tag, i);
    }
  }

  lemma NamesAreDistinct(values: seq<CandidateTarget>)
    requires |values| == 3 && Elements(CandidateNames(values)) == DESKTOP_TARGETS
    ensures IsExactly(CandidateNames(values), DESKTOP_TARGETS)
    ensures forall i :: 0 <= i < |values| ==> values[i].Name() !in Elements(CandidateNames(values)[..i])
    ensures forall i, j :: 0 <= i < j < |values| ==> values[i].Name() != values[j].Name()
  {
    var names := CandidateNames(values);
    LengthAndSetAreExact(names, DESKTOP_TARGETS);
    forall i | 0 <= i < 3 ensures names[i] !in Elements(names[..i]) {
      assert names == names[..i] + [names[i]] + names[i + 1..];
      assert multiset(names)[names[i]] == 1;
    }
    forall i, j | 0 <= i < j < 3 ensures names[i] != names[j] {
      assert names[..j][i] in Elements(names[..j]);
    }
  }

  // ----- when a candidate is promoted, on the documents

  ghost predicate HasDistinctNames(assets: seq<Asset>) {
    forall i, j :: 0 <= i < j < |assets| ==> assets[i].name != assets[j].name
  }

  /** A well-formed executable, and the Release has exactly it. */
  ghost predicate IsReleasedFile(f: Option<FileIdentity>, r: Release) {
    && f.Some?
    && IsPlainName(f.value.filename) && f.value.filename[0] !in "._-"
    && IsHex(f.value.sha256, 64) && 0 < f.value.sizeBytes <= 1_073_741_824
    && var url := "https://github.com/openminion/runtime/releases/download/" + r.tagName + "/" + f.value.filename;
    Asset(f.value.filename, f.value.sizeBytes, "sha256:" + f.value.sha256, url) in r.assets
  }

  /** A target with all that a promotion asks of it. */
  ghost predicate IsReleasedTarget(t: CandidateTarget, r: Release, v: Verification) {
    && t.format == "executables" && t.minOsVersion != ""
    && (t.platform == "linux" ==> t.libcFamily == "glibc" && t.minLibcVersion != "")
    && t.Name() in v.targets && IsIdentifier(v.targets[t.Name()])
    && IsReleasedFile(t.cli, r) && IsReleasedFile(t.daemon, r)
  }

  /** A stable candidate with ordered Desktop bounds and each supported target once. */
  ghost predicate IsPromotableCandidate(c: Candidate) {
    && c.schemaVersion == 1 && c.product == "openminion" && c.distribution == Binary && c.channel == "stable"
    && c.promotionStatus == "candidate" && IsHex(c.sourceCommit, 40)
    && c.runtimeVersion.canonical && c.runtimeVersion.stable && !c.runtimeVersion.local
    && IsDottedTriple(c.runtimeVersion.text)
    && c.compatibility.Some?
    && IsDottedTriple(c.compatibility.value.minVersion.text)
    && IsDottedTriple(c.compatibility.value.maxVersionExclusive.text)
    && c.compatibility.value.minVersion.order < c.compatibility.value.maxVersionExclusive.order
    && IsExactly(CandidateNames(c.artifacts), {"darwin-arm64", "linux-x64", "win32-x64"})
  }

  /** A published and immutable Release of the candidate, no draft and no pre-release, whose assets have
      different names. */
  ghost predicate IsFinalRelease(r: Release, c: Candidate, releaseId: string) {
    && r.tagName == "runtime-v" + c.runtimeVersion.text + "-" + releaseId
    && !r.draft && !r.prerelease && r.immutable && r.publishedAt != ""
    && HasDistinctNames(r.assets)
  }

  ghost predicate IsPromotable(c: Candidate, r: Release, v: Verification, releaseId: string, f: EvidenceFile) {
    && IsPromotableCandidate(c) && IsIdentifier(releaseId)
    && IsFinalRelease(r, c, releaseId)
    && v.schemaVersion == 1 && v.targets.Keys == {"darwin-arm64", "linux-x64", "win32-x64"}
    && IsBinaryQualified(f.evidence, c, v, r.tagName)
    && IsHex(f.commit, 40) && IsIdentifier(f.id)
    && forall i :: 0 <= i < |c.artifacts| ==> IsReleasedTarget(c.artifacts[i], r, v)
  }

  lemma DistinctOfLast(rest: seq<Asset>, last: Asset)
    ensures HasDistinctNames(rest + [last]) <==>
      HasDistinctNames(rest) && forall i :: 0 <= i < |rest| ==> rest[i].name != last.name
  {
    var assets := rest + [last];
    if HasDistinctNames(assets) {
      forall i | 0 <= i < |rest| ensures rest[i].name != last.name {
        assert assets[i].name != assets[|rest|].name;
      }
      forall i, j | 0 <= i < j < |rest| ensures rest[i].name != rest[j].name {
        assert assets[i].name != assets[j].name;
      }
    }
  }

  lemma {:induction false} ByNameKeys(assets: seq<Asset>)
    ensures forall name :: name in ByName(assets) <==> exists i :: 0 <= i < |assets| && assets[i].name == name
  {
    if assets == [] {
    } else {
      var rest, last := assets[..|assets| - 1], assets[|assets| - 1];
      ByNameKeys(rest);
      assert assets == rest + [last];
      assert assets[|assets| - 1].name in ByName(assets);
    }
  }

  lemma {:induction false} ByNameSize(assets: seq<Asset>)
    ensures |ByName(assets)| <= |assets|
    ensures |ByName(assets)| == |assets| <==> HasDistinctNames(assets)
  {
    if assets == [] {
    } else {
      var rest, last := assets[..|assets| - 1], assets[|assets| - 1];
      ByNameSize(rest);
      ByNameKeys(rest);
      DistinctOfLast(rest, last);
      assert assets == rest + [last];
      SizeOfUpdate(ByName(rest), last.name, last);
    }
  }

  lemma SizeOfUpdate(m: map<string, Asset>, name: string, a: Asset)
    ensures |m[name := a]| == |m| + (if name in m then 0 else 1)
  {
    assert m[name := a].Keys == m.Keys + {name};
    assert |m[name := a].Keys| == |m[name := a]| && |m.Keys| == |m|;
  }

  /** Where names are distinct, an asset is found by its name. */
  lemma FoundByName(assets: seq<Asset>, a: Asset)
    requires HasDistinctNames(assets)
    ensures a in assets <==> a.name in ByName(assets) && ByName(assets)[a.name] == a
  {
    ByNameMeans(assets);
    ByNameKeys(assets);
    if a in assets {
      var b := ByName(assets)[a.name];
      var i :| 0 <= i < |assets| && assets[i] == a;
      var j :| 0 <= j < |assets| && assets[j] == b;
    }
  }

  lemma FileIsReleased(f: Option<FileIdentity>, r: Release)
    requires HasDistinctNames(r.assets)
    ensures PromotedFile(f, ByName(r.assets), r.tagName).Some? <==> IsReleasedFile(f, r)
  {
    if f.Some? {
      var url := DOWNLOADS + r.tagName + "/" + f.value.filename;
      FoundByName(r.assets, Asset(f.value.filename, f.value.sizeBytes, "sha256:" + f.value.sha256, url));
      ByNameMeans(r.assets);
    }
  }

  lemma TargetIsReleased(t: CandidateTarget, r: Release, v: Verification)
    requires HasDistinctNames(r.assets) && t.Name() in DESKTOP_TARGETS
    ensures PromotedTarget(t, ByName(r.assets), v.targets, r.tagName).Some? <==> IsReleasedTarget(t, r, v)
  {
    FileIsReleased(t.cli, r);
    FileIsReleased(t.daemon, r);
  }

  lemma TargetsAreReleased(c: Candidate, r: Release, v: Verification)
    requires HasDistinctNames(r.assets) && Elements(CandidateNames(c.artifacts)) == DESKTOP_TARGETS
    ensures PromotedTargets(c.artifacts, ByName(r.assets), v.targets, r.tagName).Some? <==>
      forall i :: 0 <= i < |c.artifacts| ==> IsReleasedTarget(c.artifacts[i], r, v)
  {
    var assets := ByName(r.assets);
    forall i | 0 <= i < |c.artifacts|
      ensures PromotedTarget(c.artifacts[i], assets, v.targets, r.tagName).Some? <==>
        IsReleasedTarget(c.artifacts[i], r, v)
    {
      assert CandidateNames(c.artifacts)[i] in Elements(CandidateNames(c.artifacts));
      TargetIsReleased(c.artifacts[i], r, v);
    }
    AllArePromoted(c.artifacts, assets, v.targets, r.tagName);
  }

  lemma {:induction false} AllArePromoted(targets: seq<CandidateTarget>, assets: map<string, Asset>,
                                          native: map<string, string>, tag: string)
    ensures PromotedTargets(targets, assets, native, tag).Some? <==>
      forall i :: 0 <= i < |targets| ==> PromotedTarget(targets[i], assets, native, tag).Some?
  {
    if targets == [] {
    } else {
      AllArePromoted(targets[..|targets| - 1], assets, native, tag);
    }
  }

  /** What the checks before the targets let through. */
  lemma NoRefusalMeans(c: Candidate, r: Release, v: Verification, releaseId: string, f: EvidenceFile)
    ensures Refusal(c, r, v, releaseId, f).None? <==>
      && IsPromotableCandidate(c) && IsIdentifier(releaseId)
      && IsFinalRelease(r, c, releaseId)
      && v.schemaVersion == 1 && v.targets.Keys == DESKTOP_TARGETS
      && IsBinaryQualified(f.evidence, c, v, r.tagName)
      && IsHex(f.commit, 40) && IsIdentifier(f.id)
  {
    ByNameSize(r.assets);
    ThreeTargets(CandidateNames(c.artifacts));
  }

  lemma ThreeTargets(names: seq<string>)
    ensures |names| == 3 && Elements(names) == DESKTOP_TARGETS <==> IsExactly(names, DESKTOP_TARGETS)
  {
    LengthAndSetAreExact(names, DESKTOP_TARGETS);
    assert |DESKTOP_TARGETS| == 3;
  }

  /** A candidate is promoted exactly when its documents are promotable. */
  lemma PromotionMeans(c: Candidate, r: Release, v: Verification, releaseId: string, f: EvidenceFile)
    ensures PromotedRecord(c, r, v, releaseId, f).Ok? <==> IsPromotable(c, r, v, releaseId, f)
  {
    NoRefusalMeans(c, r, v, releaseId, f);
    LengthAndSetAreExact(CandidateNames(c.artifacts), DESKTOP_TARGETS);
    if Refusal(c, r, v, releaseId, f).None? {
      TargetsAreReleased(c, r, v);
    }
  }

  // ----- what a promoted record is bound to

  /** On one executable the digest, size and address agree between the record, the candidate and a
      Release asset, and the digest with the evidence. */
  ghost predicate IsBoundFile(x: Executable, c: Option<FileIdentity>, r: Release, digest: string) {
    && c == Some(FileIdentity(x.filename, x.sha256, x.sizeBytes))
    && x.url == "https://github.com/openminion/runtime/releases/download/" + r.tagName + "/" + x.filename
    && Asset(x.filename, x.sizeBytes, "sha256:" + x.sha256, x.url) in r.assets
    && digest == x.sha256
  }

  /** A promoted target has its candidate, its native verification and its qualification, and all
      three agree with it. */
  ghost predicate IsBound(a: Artifact, c: CandidateTarget, t: QualifiedTarget, r: Release, v: Verification) {
    && a.platform == c.platform && a.arch == c.arch && c.Name() == t.Name()
    && a.minOsVersion == c.minOsVersion
    && a.libc == (if c.platform == "linux" then Some(c.minLibcVersion) else None)
    && IsBoundFile(a.cli, c.cli, r, t.cliSha256)
    && IsBoundFile(a.daemon, c.daemon, r, t.daemonSha256)
    && c.Name() in v.targets && a.verificationId == v.targets[c.Name()] == t.verificationId
    && IsExactly(t.checks, {
         "old_runtime_reply", "owned_daemon_shutdown", "packaged_startup", "prepare_update", "runtime_integrity",
         "same_chat_reply", "startup_activation", "native_trust"})
  }

  function ArtifactNames(artifacts: seq<Artifact>): seq<string> {
    seq(|artifacts|, i requires 0 <= i < |artifacts| => TargetName(artifacts[i].platform, artifacts[i].arch))
  }

  lemma {:induction false} PromotedTargetsAreInOrder(targets: seq<CandidateTarget>, assets: map<string, Asset>,
                                                     native: map<string, string>, tag: string)
    requires PromotedTargets(targets, assets, native, tag).Some?
    ensures
      var promoted := PromotedTargets(targets, assets, native, tag).value;
      && |promoted| == |targets|
      && forall i :: 0 <= i < |targets| ==> PromotedTarget(targets[i], assets, native, tag) == Some(promoted[i])
  {
    if targets == [] {
    } else {
      PromotedTargetsAreInOrder(targets[..|targets| - 1], assets, native, tag);
    }
  }

  lemma {:induction false} PlaceKeeps(a: Artifact, sorted: seq<Artifact>)
    ensures multiset(Place(a, sorted)) == multiset(sorted) + multiset{a}
  {
    if sorted != [] && !KeyAtMost(a, sorted[0]) {
      PlaceKeeps(a, sorted[1..]);
      assert sorted == [sorted[0]] + sorted[1..];
    }
  }

  lemma {:induction false} SortKeeps(artifacts: seq<Artifact>)
    ensures multiset(SortTargets(artifacts)) == multiset(artifacts)
  {
    if artifacts == [] {
    } else {
      SortKeeps(artifacts[1..]);
      PlaceKeeps(artifacts[0], SortTargets(artifacts[1..]));
      assert artifacts == [artifacts[0]] + artifacts[1..];
    }
  }

  /** The first letter of a platform, which tells the supported platforms apart. */
  function Initial(a: Artifact): char {
    if a.platform == "" then '-' else a.platform[0]
  }

  ghost predicate IsByInitial(s: seq<Artifact>) {
    forall i, j :: 0 <= i < j < |s| ==> Initial(s[i]) <= Initial(s[j])
  }

  lemma PutInFront(a: Artifact, rest: seq<Artifact>)
    requires IsByInitial(rest) && forall x :: x in rest ==> Initial(a) <= Initial(x)
    ensures IsByInitial([a] + rest)
  {
  }

  lemma {:induction false} PlaceMembers(a: Artifact, sorted: seq<Artifact>)
    ensures forall x :: x in Place(a, sorted) ==> x == a || x in sorted
  {
    if sorted != [] && !KeyAtMost(a, sorted[0]) {
      PlaceMembers(a, sorted[1..]);
    }
  }

  lemma KeyOrdersInitials(a: Artifact, b: Artifact)
    requires a.platform != "" && b.platform != ""
    ensures if KeyAtMost(a, b) then Initial(a) <= Initial(b) else Initial(b) <= Initial(a)
  {
  }

  lemma {:induction false} PlaceByInitial(a: Artifact, sorted: seq<Artifact>)
    requires IsByInitial(sorted) && a.platform != "" && forall x :: x in sorted ==> x.platform != ""
    ensures IsByInitial(Place(a, sorted))
  {
    if sorted == [] {
      PutInFront(a, sorted);
    } else {
      var first, rest := sorted[0], sorted[1..];
      assert first in sorted && forall x :: x in rest ==> x in sorted;
      assert forall x :: x in rest ==> Initial(first) <= Initial(x);
      KeyOrdersInitials(a, first);
      if KeyAtMost(a, first) {
        PutInFront(a, sorted);
      } else {
        PlaceByInitial(a, rest);
        PlaceMembers(a, rest);
        PutInFront(first, Place(a, rest));
      }
    }
  }

  lemma {:induction false} SortByInitial(artifacts: seq<Artifact>)
    requires forall x :: x in artifacts ==> x.platform != ""
    ensures IsByInitial(SortTargets(artifacts))
  {
    if artifacts == [] {
    } else {
      assert forall x :: x in artifacts[1..] ==> x in artifacts;
      SortByInitial(artifacts[1..]);
      SortKeeps(artifacts[1..]);
      var sorted := SortTargets(artifacts[1..]);
      assert forall x :: x in sorted ==> x in multiset(sorted);
      PlaceByInitial(artifacts[0], sorted);
    }
  }

  /** A supported target is a platform and an architecture in one way only. */
  lemma NameTellsInitial(a: Artifact)
    requires TargetName(a.platform, a.arch) in DESKTOP_TARGETS
    ensures a.platform != "" && Initial(a) == TargetName(a.platform, a.arch)[0]
  {
    assert TargetName(a.platform, a.arch)[|a.platform|] == '-';
  }

  /** Three artifacts with the supported names, in the order of their initials. */
  lemma OrderOfTargets(sorted: seq<Artifact>)
    requires IsByInitial(sorted) && IsExactly(ArtifactNames(sorted), DESKTOP_TARGETS)
    ensures ArtifactNames(sorted) == ["darwin-arm64", "linux-x64", "win32-x64"]
  {
    var names := ArtifactNames(sorted);
    LengthAndSetAreExact(names, DESKTOP_TARGETS);
    assert |sorted| == 3;
    forall i | 0 <= i < 3 ensures names[i] in DESKTOP_TARGETS && Initial(sorted[i]) == names[i][0] {
      assert names[i] in Elements(names);
      NameTellsInitial(sorted[i]);
    }
    assert names[0][0] <= names[1][0] <= names[2][0];
    assert names[0] != names[1] && names[1] != names[2] && names[0] != names[2] by {
      assert names == [names[0], names[1], names[2]];
      assert multiset(names)[names[0]] == 1 && multiset(names)[names[1]] == 1;
    }
  }

  lemma NamesOfFirst(a: Artifact, rest: seq<Artifact>)
    ensures ArtifactNames([a] + rest) == [TargetName(a.platform, a.arch)] + ArtifactNames(rest)
  {
  }

  lemma {:induction false} PlaceKeepsNames(a: Artifact, sorted: seq<Artifact>)
    ensures multiset(ArtifactNames(Place(a, sorted))) ==
      multiset(ArtifactNames(sorted)) + multiset{TargetName(a.platform, a.arch)}
  {
    if sorted == [] || KeyAtMost(a, sorted[0]) {
      NamesOfFirst(a, sorted);
    } else {
      var first, rest := sorted[0], sorted[1..];
      PlaceKeepsNames(a, rest);
      assert sorted == [first] + rest;
      NamesOfFirst(first, rest);
      NamesOfFirst(first, Place(a, rest));
    }
  }

  lemma {:induction false} SortKeepsNames(artifacts: seq<Artifact>)
    ensures multiset(ArtifactNames(SortTargets(artifacts))) == multiset(ArtifactNames(artifacts))
  {
    if artifacts == [] {
    } else {
      var first, rest := artifacts[0], artifacts[1..];
      SortKeepsNames(rest);
      PlaceKeepsNames(first, SortTargets(rest));
      assert ArtifactNames(artifacts) == [TargetName(first.platform, first.arch)] + ArtifactNames(rest);
    }
  }

  /** Whatever order the candidate lists its targets in, the promoted artifacts are in one order. */
  lemma PromotedOrder(targets: seq<CandidateTarget>, assets: map<string, Asset>, native: map<string, string>,
                      tag: string)
    requires |targets| == 3 && Elements(CandidateNames(targets)) == DESKTOP_TARGETS
    requires PromotedTargets(targets, assets, native, tag).Some?
    ensures ArtifactNames(SortTargets(PromotedTargets(targets, assets, native, tag).value)) ==
      ["darwin-arm64", "linux-x64", "win32-x64"]
  {
    var promoted := PromotedTargets(targets, assets, native, tag).value;
    PromotedTargetsAreInOrder(targets, assets, native, tag);
    forall i | 0 <= i < |targets| ensures ArtifactNames(promoted)[i] == CandidateNames(targets)[i] {
      assert PromotedTarget(targets[i], assets, native, tag) == Some(promoted[i]);
    }
    assert ArtifactNames(promoted) == CandidateNames(targets);
    NamesAreDistinct(targets);
    SortKeepsNames(promoted);
    forall a | a in promoted ensures a.platform != "" {
      var i :| 0 <= i < |promoted| && promoted[i] == a;
      assert ArtifactNames(promoted)[i] in Elements(CandidateNames(targets));
      NameTellsInitial(a);
    }
    SortByInitial(promoted);
    OrderOfTargets(SortTargets(promoted));
  }

  lemma FileIsBound(f: Option<FileIdentity>, r: Release)
    requires PromotedFile(f, ByName(r.assets), r.tagName).Some?
    ensures IsBoundFile(PromotedFile(f, ByName(r.assets), r.tagName).value, f, r, f.value.sha256)
  {
    ByNameMeans(r.assets);
    assert ByName(r.assets)[f.value.filename] in r.assets;
  }

  /** The one candidate target of a name is the one the evidence was compared with. */
  lemma CandidateIsFound(targets: seq<CandidateTarget>, i: nat)
    requires |targets| == 3 && Elements(CandidateNames(targets)) == DESKTOP_TARGETS && i < 3
    ensures targets[i].Name() in ByTarget(targets) && ByTarget(targets)[targets[i].Name()] == targets[i]
  {
    NamesAreDistinct(targets);
    ByTargetIsLast(targets, i);
  }

  lemma TargetIsBound(c: Candidate, r: Release, v: Verification, e: BinaryEvidence, i: nat, a: Artifact)
    returns (t: QualifiedTarget)
    requires |c.artifacts| == 3 && Elements(CandidateNames(c.artifacts)) == DESKTOP_TARGETS && i < 3
    requires AreQualifiedTargets(e.targets, ByTarget(c.artifacts), v.targets)
    requires PromotedTarget(c.artifacts[i], ByName(r.assets), v.targets, r.tagName) == Some(a)
    ensures t in e.targets && IsBound(a, c.artifacts[i], t, r, v)
  {
    var ct := c.artifacts[i];
    CandidateIsFound(c.artifacts, i);
    FileIsBound(ct.cli, r);
    FileIsBound(ct.daemon, r);
    var names := QualifiedNames(e.targets);
    LengthAndSetAreExact(names, DESKTOP_TARGETS);
    assert ct.Name() in Elements(names);
    var k :| 0 <= k < |names| && names[k] == ct.Name();
    t := e.targets[k];
    assert IsQualifiedTarget(t, ByTarget(c.artifacts), v.targets);
  }

  /** A promoted record lists the supported targets once each, in order, and each of them is bound to
      its candidate, to assets of the Release, to its native verification and to its qualification,
      where every target and every check occurs exactly once. */
  lemma PromotionIsBound(c: Candidate, r: Release, v: Verification, releaseId: string, f: EvidenceFile)
    requires PromotedRecord(c, r, v, releaseId, f).Ok?
    ensures
      var record := PromotedRecord(c, r, v, releaseId, f).value;
      && record == Record(1, "openminion", Binary, "stable", "promoted", c.runtimeVersion, releaseId, r.publishedAt,
                          c.sourceCommit, c.releaseNotes, c.compatibility, record.certification, None,
                          record.artifacts)
      && record.certification == Some(
           Certification("openminion/desktop", f.commit,
                         EvidencePath(BinaryQualification, c.runtimeVersion, f.id), Sha256(f.bytes)))
      && ArtifactNames(record.artifacts) == ["darwin-arm64", "linux-x64", "win32-x64"]
      && IsExactly(CandidateNames(c.artifacts), DESKTOP_TARGETS)
      && IsExactly(QualifiedNames(f.evidence.targets), DESKTOP_TARGETS)
      && forall a :: a in record.artifacts ==>
           exists ct, t :: ct in c.artifacts && t in f.evidence.targets && IsBound(a, ct, t, r, v)
  {
    NoRefusalMeans(c, r, v, releaseId, f);
    PromotedOrder(c.artifacts, ByName(r.assets), v.targets, r.tagName);
    NamesAreDistinct(c.artifacts);
    TargetsAreBound(c, r, v, f.evidence);
  }

  lemma TargetsAreBound(c: Candidate, r: Release, v: Verification, e: BinaryEvidence)
    requires |c.artifacts| == 3 && Elements(CandidateNames(c.artifacts)) == DESKTOP_TARGETS
    requires AreQualifiedTargets(e.targets, ByTarget(c.artifacts), v.targets)
    requires PromotedTargets(c.artifacts, ByName(r.assets), v.targets, r.tagName).Some?
    ensures forall a :: a in SortTargets(PromotedTargets(c.artifacts, ByName(r.assets), v.targets, r.tagName).value) ==>
      exists ct, t :: ct in c.artifacts && t in e.targets && IsBound(a, ct, t, r, v)
  {
    var promoted := PromotedTargets(c.artifacts, ByName(r.assets), v.targets, r.tagName).value;
    PromotedTargetsAreInOrder(c.artifacts, ByName(r.assets), v.targets, r.tagName);
    forall a | a in SortTargets(promoted)
      ensures exists ct, t :: ct in c.artifacts && t in e.targets && IsBound(a, ct, t, r, v)
    {
      var i := SortedFrom(promoted, a);
      var t := TargetIsBound(c, r, v, e, i, a);
      assert c.artifacts[i] in c.artifacts;
    }
  }

  lemma SortedFrom(artifacts: seq<Artifact>, a: Artifact) returns (i: nat)
    requires a in SortTargets(artifacts)
    ensures i < |artifacts| && artifacts[i] == a
  {
    SortKeeps(artifacts);
    assert a in multiset(SortTargets(artifacts)) && a in multiset(artifacts);
    i :| 0 <= i < |artifacts| && artifacts[i] == a;
  }

  /** An output of the promotion. */
  ghost predicate IsPromotedOutput(record: Record) {
    exists c, r, v, releaseId, f :: PromotedRecord(c, r, v, releaseId, f) == Ok(record)
  }
}
