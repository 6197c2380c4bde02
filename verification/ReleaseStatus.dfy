/** The reader of the public feeds: which release milestones a checkout of main shows. */
module ReleaseStatus {
  import opened Results
  import opened RuntimeRecords
  import opened CommitGraph
  import opened ReleaseManifest

  datatype StatusError =
    | FeedUnreadable | FeedIdentity | UrlMismatch | RecordMissing
    | DigestDiffers | RecordIdentity | PackageIdentity | NoArtifacts

  /** A certification of the given version that the reader takes at its word. */
  ghost predicate IsCertifiedSource(record: Record, version: string) {
    && record.compatibility.Some? && record.certification.Some?
    && var bounds, c := record.compatibility.value, record.certification.value;
    && bounds.minVersion.order < bounds.maxVersionExclusive.order
    && c.repository == "openminion/desktop"
    && IsHex(c.commit, 40)
    && c.path.kind == Qualification && c.path.version.text == version && IsDottedTriple(version)
    && IsIdentifier(c.path.evidenceId)
  }

  /** The version that a qualification path is for. */
  function CertifiedVersion(path: EvidencePath): Option<string> {
    if path.kind.Qualification? && IsDottedTriple(path.version.text) && IsIdentifier(path.evidenceId)
    then Some(path.version.text) else None
  }

  /** `_is_certified_source`. */
  predicate ReadsAsCertified(record: Record, version: string)
    ensures ReadsAsCertified(record, version) <==> IsCertifiedSource(record, version)
  {
    if record.compatibility.None? || record.certification.None? then false
    else
      var range := record.compatibility.value.minVersion.order < record.compatibility.value.maxVersionExclusive.order;
      var certification := record.certification.value;
      && range
      && certification.repository == DESKTOP_REPOSITORY
      && IsHex(certification.commit, 40)
      && CertifiedVersion(certification.path) == Some(version)
  }

  /** What the reader demands of one reference: nothing when it all fits. */
  function Objection(tree: Tree, d: Distribution, version: string, r: Reference): Option<StatusError> {
    if !(r.url.Pinned? && r.url.path.RecordPath? && r.url.path.distribution == d && r.url.path.version == version
         && IsIdentifier(r.url.path.releaseId)) then Some(UrlMismatch)
    else if r.url.path !in tree then Some(RecordMissing)
    else if Sha256(tree[r.url.path]) != r.digest then Some(DigestDiffers)
    else if !tree[r.url.path].RecordFile? then Some(RecordIdentity)
    else
      var record := tree[r.url.path].record;
      if !(record.schemaVersion == 1 && record.product == "openminion" && record.distribution == d
           && record.channel == "stable" && record.promotionStatus == "promoted"
           && record.runtimeVersion.text == version && record.releaseId == r.url.path.releaseId)
      then Some(RecordIdentity)
      else if d.Pypi? && !(record.wheel.Some? && record.wheel.value.package == "openminion"
                           && record.wheel.value.version.text == version) then Some(PackageIdentity)
      else if d.Binary? && record.artifacts == [] then Some(NoArtifacts)
      else None
  }

  /** The address names a record of the distribution and version. */
  ghost predicate IsAddressed(d: Distribution, version: string, r: Reference) {
    r.url.Pinned? && exists id :: IsIdentifier(id) && r.url.path == RecordPath(d, version, id)
  }

  ghost predicate IsIntact(tree: Tree, r: Reference) {
    r.url.Pinned? && r.url.path in tree && r.digest == Sha256(tree[r.url.path])
  }

  /** The record that the reference pins says itself that it is the one of its path. */
  ghost predicate IsIdentified(tree: Tree, d: Distribution, version: string, r: Reference) {
    && r.url.Pinned? && r.url.path.RecordPath? && r.url.path in tree && tree[r.url.path].RecordFile?
    && var record := tree[r.url.path].record;
    && record.schemaVersion == 1 && record.product == "openminion" && record.distribution == d
    && record.channel == "stable" && record.promotionStatus == "promoted"
    && record.runtimeVersion.text == version && record.releaseId == r.url.path.releaseId
  }

  /** A source record has the package of the version, and a binary record has artifacts. */
  ghost predicate HasPayload(record: Record, version: string) {
    match record.distribution
    case Pypi =>
      record.wheel.Some? && record.wheel.value.package == "openminion" && record.wheel.value.version.text == version
    case Binary => |record.artifacts| > 0
  }

  /** The reference leads to an intact record that is what the feed says. */
  ghost predicate IsAccepted(tree: Tree, d: Distribution, version: string, r: Reference) {
    && IsAddressed(d, version, r) && IsIntact(tree, r) && IsIdentified(tree, d, version, r)
    && HasPayload(tree[r.url.path].record, version)
  }

  /** The reader has nothing against a reference exactly when it is accepted, and each of its errors has
      one meaning. */
  lemma ObjectionMeans(tree: Tree, d: Distribution, version: string, r: Reference)
    ensures
      var o := Objection(tree, d, version, r);
      && (o == None <==> IsAccepted(tree, d, version, r))
      && (o == Some(UrlMismatch) <==> !IsAddressed(d, version, r))
      && (o == Some(RecordMissing) <==> IsAddressed(d, version, r) && r.url.path !in tree)
      && (o == Some(DigestDiffers) <==> IsAddressed(d, version, r) && r.url.path in tree && !IsIntact(tree, r))
      && (o == Some(RecordIdentity) <==>
            IsAddressed(d, version, r) && IsIntact(tree, r) && !IsIdentified(tree, d, version, r))
      && (o == Some(PackageIdentity) ==> d == Pypi) && (o == Some(NoArtifacts) ==> d == Binary)
  {
    if r.url.Pinned? && r.url.path.RecordPath? {
      assert r.url.path == RecordPath(r.url.path.distribution, r.url.path.version, r.url.path.releaseId);
    }
  }

  ghost predicate IsReadable(tree: Tree, d: Distribution) {
    && FeedPath(d) in tree && tree[FeedPath(d)].FeedFile?
    && var feed := tree[FeedPath(d)].feed;
    feed.schemaVersion == 1 && feed.product == "openminion" && feed.distribution == d && feed.channel == "stable"
  }

  /** A feed of which every reference of the version fits. */
  ghost predicate IsConsistent(tree: Tree, d: Distribution, version: string) {
    && IsReadable(tree, d)
    && forall r :: r in Releases(tree, d) && r.version.text == version ==> IsAccepted(tree, d, version, r)
  }

  /** The records behind the references of a version, in feed order. */
  ghost function RecordsOf(tree: Tree, d: Distribution, version: string, refs: seq<Reference>): seq<Record>
    requires forall r :: r in refs && r.version.text == version ==> IsAccepted(tree, d, version, r)
  {
    if refs == [] then []
    else
      var last := refs[|refs| - 1];
      var rest := RecordsOf(tree, d, version, refs[..|refs| - 1]);
      if last.version.text == version then
        assert IsAccepted(tree, d, version, last);
        rest + [tree[last.url.path].record]
      else rest
  }

  /** The first reference of the version that is not accepted, and what is wrong with it. */
  ghost predicate IsFirstObjection(tree: Tree, d: Distribution, version: string, refs: seq<Reference>, i: nat,
                                   error: StatusError) {
    && i < |refs| && refs[i].version.text == version && Objection(tree, d, version, refs[i]) == Some(error)
    && forall r :: r in refs[..i] && r.version.text == version ==> IsAccepted(tree, d, version, r)
  }

  /** The checking loop: every reference of the version must fit, or nothing is reported. */
  method Records(tree: Tree, d: Distribution, version: string) returns (records: Result<seq<Record>, StatusError>)
    ensures records.Ok? <==> IsConsistent(tree, d, version)
    ensures records.Ok? ==> records.value == RecordsOf(tree, d, version, Releases(tree, d))
    ensures records == Err(FeedUnreadable) <==> FeedPath(d) !in tree || !tree[FeedPath(d)].FeedFile?
    ensures records == Err(FeedIdentity) <==>
      FeedPath(d) in tree && tree[FeedPath(d)].FeedFile? && !IsReadable(tree, d)
    ensures records.Err? && IsReadable(tree, d) ==>
      exists i :: IsFirstObjection(tree, d, version, Releases(tree, d), i, records.error)
  {
    var file := At(tree, FeedPath(d));
    if !(file.Some? && file.value.FeedFile?) { return Err(FeedUnreadable); }
    if !IsStableFeed(file.value.feed, d) { return Err(FeedIdentity); }
    var refs := file.value.feed.releases;
    assert refs == Releases(tree, d);
    var found: seq<Record> := [];
    for i := 0 to |refs|
      invariant forall r :: r in refs[..i] && r.version.text == version ==> IsAccepted(tree, d, version, r)
      invariant found == RecordsOf(tree, d, version, refs[..i])
    {
      assert refs[..i + 1] == refs[..i] + [refs[i]];
      assert refs[..i + 1][..i] == refs[..i];
      if refs[i].version.text == version {
        ObjectionMeans(tree, d, version, refs[i]);
        var objection := Objection(tree, d, version, refs[i]);
        if objection.Some? {
          assert !IsAccepted(tree, d, version, refs[i]);
          assert IsFirstObjection(tree, d, version, refs, i, objection.value);
          return Err(objection.value);
        }
        found := found + [tree[refs[i].url.path].record];
      }
    }
    assert refs[..|refs|] == refs;
    records := Ok(found);
  }

  datatype Milestones = Milestones(
    version: string,
    productionPackageRecorded: bool,
    sourceManifestPublished: bool,
    desktopSourceUpdateCertified: bool,
    binaryRuntimePublished: bool,
    fullPublicEndToEnd: bool)

  ghost predicate IsListed(tree: Tree, d: Distribution, version: string, record: Record) {
    exists r :: r in Releases(tree, d) && r.version.text == version && r.url.Pinned?
                  && At(tree, r.url.path) == Some(RecordFile(record))
  }

  lemma {:induction false} RecordsAreListed(tree: Tree, d: Distribution, version: string, refs: seq<Reference>,
                                            record: Record)
    requires forall r :: r in refs && r.version.text == version ==> IsAccepted(tree, d, version, r)
    ensures record in RecordsOf(tree, d, version, refs) <==>
      exists r :: r in refs && r.version.text == version && r.url.Pinned?
                  && At(tree, r.url.path) == Some(RecordFile(record))
  {
    if refs == [] {
    } else {
      var rest, last := refs[..|refs| - 1], refs[|refs| - 1];
      assert refs == rest + [last];
      RecordsAreListed(tree, d, version, rest, record);
      if last.version.text == version {
        assert IsAccepted(tree, d, version, last);
        assert At(tree, last.url.path) == Some(RecordFile(tree[last.url.path].record));
      }
    }
  }

  lemma ListedMeans(tree: Tree, d: Distribution, version: string)
    requires IsConsistent(tree, d, version)
    ensures forall record :: record in RecordsOf(tree, d, version, Releases(tree, d)) <==>
      IsListed(tree, d, version, record)
    ensures RecordsOf(tree, d, version, Releases(tree, d)) != [] <==>
      exists record :: IsListed(tree, d, version, record)
  {
    var records := RecordsOf(tree, d, version, Releases(tree, d));
    forall record ensures record in records <==> IsListed(tree, d, version, record) {
      RecordsAreListed(tree, d, version, Releases(tree, d), record);
    }
    assert records != [] ==> records[0] in records;
  }

  /** The status of a version: an error when a feed or one of its records does not fit, and otherwise
      one milestone for each kind of listed record. */
  method ReleaseStatus(tree: Tree, version: string) returns (status: Result<Milestones, StatusError>)
    ensures status.Ok? <==> IsConsistent(tree, Pypi, version) && IsConsistent(tree, Binary, version)
    ensures status.Ok? ==>
      && status.value.version == version
      && (status.value.sourceManifestPublished <==> exists record :: IsListed(tree, Pypi, version, record))
      && status.value.productionPackageRecorded == status.value.sourceManifestPublished
      && (status.value.desktopSourceUpdateCertified <==>
            exists record :: IsListed(tree, Pypi, version, record) && IsCertifiedSource(record, version))
      && (status.value.binaryRuntimePublished <==> exists record :: IsListed(tree, Binary, version, record))
      && !status.value.fullPublicEndToEnd
  {
    var source := Records(tree, Pypi, version);
    if source.Err? { return Err(source.error); }
    var binary := Records(tree, Binary, version);
    if binary.Err? { return Err(binary.error); }
    ListedMeans(tree, Pypi, version);
    ListedMeans(tree, Binary, version);
    var certified := exists record :: record in source.value && ReadsAsCertified(record, version);
    status := Ok(Milestones(version, source.value != [], source.value != [], certified, binary.value != [], false));
  }
}
