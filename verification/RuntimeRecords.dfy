/** The documents of the runtime publication: release records, the stable feeds that
    reference them, the paths they live at, and the digests that bind the two.

    Text that the program only compares or hands on is kept as a value with the parts
    the program looks at. A digest is a free constructor over the bytes, which is what an
    injective hash is; file contents are the documents they encode, which is what an
    injective encoder gives. */
module RuntimeRecords {
  import opened Results

  datatype Distribution = Pypi | Binary

  /** A version text with what PEP 440 makes of it: its place in the order, where different texts may
      be equal as `1.0` and `1.0.0` are, whether it is written canonically, whether it is neither a
      pre-release nor a development release, and whether it has a local part. */
  datatype Version = Version(text: string, order: real, canonical: bool, stable: bool, local: bool)

  datatype Path =
    | RecordPath(distribution: Distribution, version: string, releaseId: string)
    | FeedPath(distribution: Distribution)
    | OtherPath(name: string)

  /** An address of the agreed repository at a full commit, or any other one that ends in a path. */
  datatype Url = Pinned(commit: nat, path: Path) | Unpinned(origin: string, path: Path)

  datatype Digest = Sha256(content: Content)

  datatype Content =
    | RecordFile(record: Record)
    | FeedFile(feed: Feed)
    | Blob(text: string)

  datatype Reference = Reference(version: Version, url: Url, digest: Digest)

  datatype Feed = Feed(
    schemaVersion: int,
    product: string,
    distribution: Distribution,
    channel: string,
    publishedAt: string,
    releases: seq<Reference>)

  /** The parts of a web address that are looked at. */
  datatype Address = Address(scheme: string, host: string, path: string, query: string, fragment: string)

  datatype Wheel = Wheel(
    package: string,
    version: Version,
    requiresPython: string,
    url: Address,
    filename: string,
    sha256: string,
    sizeBytes: int)

  datatype Compatibility = Compatibility(minVersion: Version, maxVersionExclusive: Version)

  datatype EvidenceKind = Qualification | BinaryQualification | Acceptance

  datatype EvidencePath = EvidencePath(kind: EvidenceKind, version: Version, evidenceId: string)

  datatype Certification = Certification(
    repository: string,
    commit: string,
    path: EvidencePath,
    digest: Digest)

  datatype Executable = Executable(filename: string, sha256: string, sizeBytes: int, url: string)

  datatype Artifact = Artifact(
    platform: string,
    arch: string,
    minOsVersion: string,
    libc: Option<string>,
    verificationId: string,
    cli: Executable,
    daemon: Executable)

  datatype Record = Record(
    schemaVersion: int,
    product: string,
    distribution: Distribution,
    channel: string,
    promotionStatus: string,
    runtimeVersion: Version,
    releaseId: string,
    publishedAt: string,
    sourceCommit: string,
    releaseNotes: string,
    compatibility: Option<Compatibility>,
    certification: Option<Certification>,
    wheel: Option<Wheel>,
    artifacts: seq<Artifact>)

  function PathOf(record: Record): Path {
    RecordPath(record.distribution, record.runtimeVersion.text, record.releaseId)
  }

  /** The identity a stable feed of a distribution must carry. */
  predicate IsStableFeed(feed: Feed, distribution: Distribution) {
    && feed.schemaVersion == 1
    && feed.product == "openminion"
    && feed.distribution == distribution
    && feed.channel == "stable"
  }

  /** A non-empty text of letters, digits, `.`, `_` and `-`. */
  predicate IsPlainName(s: string) {
    |s| > 0 && forall i :: 0 <= i < |s| ==> IsNameChar(s[i])
  }

  predicate IsNameChar(c: char) {
    'a' <= c <= 'z' || 'A' <= c <= 'Z' || '0' <= c <= '9' || c in "._-"
  }

  /** A plain name of at most 128 characters that starts with a letter or digit. */
  predicate IsIdentifier(s: string) {
    IsPlainName(s) && |s| <= 128 && s[0] !in "._-"
  }

  /** A lower-case hexadecimal text of the given length. */
  predicate IsHex(s: string, length: nat) {
    |s| == length && forall i :: 0 <= i < |s| ==> '0' <= s[i] <= '9' || 'a' <= s[i] <= 'f'
  }
}
