/** Producers and reader together: what the status of a release says about a main that only ever
    received records from the producers. */
module ReleaseMilestones {
  import opened Results
  import opened RuntimeRecords
  import opened CommitGraph
  import opened Publication
  import opened PublicationSafety
  import opened PublicationTheorems
  import opened ReleaseManifest
  import opened BinaryManifest
  import ReleaseStatus

  /** A record from one of the three producers. */
  ghost predicate IsProduced(record: Record) {
    IsSourceOutput(record) || IsCertifiedOutput(record) || IsPromotedOutput(record)
  }

  // ----- what the reader finds in produced records

  lemma SourceFits(record: Record)
    requires IsSourceOutput(record)
    ensures record.schemaVersion == 1 && record.product == "openminion" && record.distribution.Pypi?
    ensures record.channel == "stable" && record.promotionStatus == "promoted" && IsIdentifier(record.releaseId)
    ensures record.wheel.Some? && record.wheel.value.package == "openminion"
    ensures record.wheel.value.version == record.runtimeVersion
    ensures record.compatibility.None?
  {
  }

  lemma CertifiedFits(record: Record)
    requires IsCertifiedOutput(record)
    ensures record.schemaVersion == 1 && record.product == "openminion" && record.distribution.Pypi?
    ensures record.channel == "stable" && record.promotionStatus == "promoted" && IsIdentifier(record.releaseId)
    ensures record.wheel.Some? && record.wheel.value.package == "openminion"
    ensures record.wheel.value.version == record.runtimeVersion
    ensures ReleaseStatus.IsCertifiedSource(record, record.runtimeVersion.text)
  {
    var source :| IsSourceOutput(source) && Certifies(record, source);
    SourceFits(source);
  }

  lemma PromotedFits(record: Record)
    requires IsPromotedOutput(record)
    ensures record.schemaVersion == 1 && record.product == "openminion" && record.distribution.Binary?
    ensures record.channel == "stable" && record.promotionStatus == "promoted" && IsIdentifier(record.releaseId)
    ensures record.artifacts != []
  {
    var c, r, v, releaseId, f :| PromotedRecord(c, r, v, releaseId, f) == Ok(record);
    PromotionIsBound(c, r, v, releaseId, f);
    assert |ArtifactNames(record.artifacts)| == 3;
  }

  /** Among produced source records the reader recognises exactly the certified ones. */
  lemma RecognisesCertified(record: Record)
    requires IsProduced(record) && record.distribution.Pypi?
    ensures ReleaseStatus.IsCertifiedSource(record, record.runtimeVersion.text) <==> IsCertifiedOutput(record)
  {
    if IsCertifiedOutput(record) {
      CertifiedFits(record);
    } else if IsSourceOutput(record) {
      SourceFits(record);
    } else {
      PromotedFits(record);
    }
  }

  // ----- every published record is a produced one

  ghost predicate HoldsProduced(t: Tree) {
    forall p :: p in t && p.RecordPath? ==> t[p].RecordFile? && IsProduced(t[p].record)
  }

  ghost predicate IsProducing(s: State) {
    && (forall c :: 0 <= c < |s.repo.commits| ==> HoldsProduced(s.repo.commits[c].tree))
    && (s.run.Fetched? || s.run.Working? ==> IsProduced(s.run.record))
  }

  ghost predicate BeginsProduced(a: Action) {
    a.Begin? ==> IsProduced(a.record)
  }

  lemma TreesHoldProduced(s: State, c: nat)
    requires IsProducing(s)
    ensures HoldsProduced(TreeAt(s.repo.commits, c))
  {
  }

  lemma PushKeepsProduced(s: State, a: Action)
    requires IsProducing(s) && (a.PushRecord? || a.PushFeed?)
    ensures IsProducing(PublisherStep(s, a))
  {
    if s.run.Working? {
      TreesHoldProduced(s, s.run.head);
    }
  }

  lemma MergeKeepsProduced(s: State, id: string, base: nat)
    requires IsProducing(s)
    ensures IsProducing(MaintainerStep(s, Merge(id, base)))
  {
    if CanMerge(s.repo, id, base) {
      var h := s.repo.commits;
      var b, ours, theirs := TreeAt(h, base), TreeAt(h, s.repo.main), TreeAt(h, s.repo.branches[id]);
      TreesHoldProduced(s, base);
      TreesHoldProduced(s, s.repo.main);
      TreesHoldProduced(s, s.repo.branches[id]);
      forall p | p in MergedTree(b, ours, theirs) && p.RecordPath?
        ensures MergedTree(b, ours, theirs)[p].RecordFile? && IsProduced(MergedTree(b, ours, theirs)[p].record)
      {
        assert Some(MergedTree(b, ours, theirs)[p]) in [At(ours, p), At(theirs, p)];
      }
      assert HoldsProduced(MergedTree(b, ours, theirs));
    }
  }

  lemma NextKeepsProduced(s: State, a: Action)
    requires IsProducing(s) && BeginsProduced(a)
    ensures IsProducing(Next(s, a))
  {
    match a
    case PushRecord => PushKeepsProduced(s, a);
    case PushFeed => PushKeepsProduced(s, a);
    case Merge(id, base) => MergeKeepsProduced(s, id, base);
    case Develop(tree) => TreesHoldProduced(s, s.repo.main);
    case _ =>
  }

  lemma {:induction false} ExecuteKeepsProduced(s: State, actions: seq<Action>)
    requires IsProducing(s) && forall i :: 0 <= i < |actions| ==> BeginsProduced(actions[i])
    ensures IsProducing(Execute(s, actions))
    decreases |actions|
  {
    if actions == [] {
    } else {
      assert BeginsProduced(actions[0]);
      NextKeepsProduced(s, actions[0]);
      ExecuteKeepsProduced(Next(s, actions[0]), actions[1..]);
    }
  }

  /** Reached by any interleaving in which publisher runs are started with produced records. */
  ghost predicate IsReleased(t: State) {
    exists s, actions ::
      IsInitial(s) && t == Execute(s, actions) && forall i :: 0 <= i < |actions| ==> BeginsProduced(actions[i])
  }

  lemma ReleasedIsProducing(t: State)
    requires IsReleased(t)
    ensures IsReachable(t) && IsProducing(t)
  {
    var s, actions :| IsInitial(s) && t == Execute(s, actions) && forall i :: 0 <= i < |actions| ==>
      BeginsProduced(actions[i]);
    assert IsProducing(s);
    ExecuteKeepsProduced(s, actions);
  }

  // ----- the status of a released main

  lemma ReferenceIsAccepted(t: State, d: Distribution, r: Reference)
    requires IsReleased(t)
    requires r in Releases(TreeAt(t.repo.commits, t.repo.main), d)
    ensures ReleaseStatus.IsAccepted(TreeAt(t.repo.commits, t.repo.main), d, r.version.text, r)
  {
    ReleasedIsProducing(t);
    RecordBeforeFeed(t, t.repo.main, d, r);
    TreesHoldProduced(t, t.repo.main);
    var record := TreeAt(t.repo.commits, t.repo.main)[r.url.path].record;
    if IsSourceOutput(record) {
      SourceFits(record);
    } else if IsCertifiedOutput(record) {
      CertifiedFits(record);
    } else {
      PromotedFits(record);
    }
  }

  lemma FeedIsConsistent(t: State, d: Distribution, version: string)
    requires IsReleased(t)
    ensures ReleaseStatus.IsConsistent(TreeAt(t.repo.commits, t.repo.main), d, version)
  {
    ReleasedIsProducing(t);
    ReachableIsGood(t);
    assert IsGoodCommit(t.repo.commits, t.repo.main);
    assert IsGoodFeed(t.repo.commits, t.repo.main, d);
    forall r | r in Releases(TreeAt(t.repo.commits, t.repo.main), d) && r.version.text == version
      ensures ReleaseStatus.IsAccepted(TreeAt(t.repo.commits, t.repo.main), d, version, r)
    {
      ReferenceIsAccepted(t, d, r);
    }
  }

  /** The records on main of a distribution and version, read from its paths. */
  ghost predicate IsOnMain(t: State, d: Distribution, version: string, record: Record) {
    && PathOf(record) == RecordPath(d, version, record.releaseId)
    && At(TreeAt(t.repo.commits, t.repo.main), PathOf(record)) == Some(RecordFile(record))
  }

  /** The feeds list exactly the records on main. */
  lemma ListedIsOnMain(t: State, d: Distribution, version: string, record: Record)
    requires IsReachable(t)
    ensures ReleaseStatus.IsListed(TreeAt(t.repo.commits, t.repo.main), d, version, record) <==>
      IsOnMain(t, d, version, record)
  {
    var h, m := t.repo.commits, t.repo.main;
    if ReleaseStatus.IsListed(TreeAt(h, m), d, version, record) {
      var r :| r in Releases(TreeAt(h, m), d) && r.version.text == version && r.url.Pinned?
               && At(TreeAt(h, m), r.url.path) == Some(RecordFile(record));
      RecordBeforeFeed(t, m, d, r);
    }
    if IsOnMain(t, d, version, record) {
      ReachableIsGood(t);
      assert IsReferenced(h[m].tree, PathOf(record));
      var r :| r in Releases(h[m].tree, d) && r.url.Pinned? && r.url.path == PathOf(record);
      RecordBeforeFeed(t, m, d, r);
    }
  }

  /** For every version, the reader accepts a released main; it reports a source manifest exactly when
      a source record of the version is on main, the Desktop milestone exactly when one of them was
      certified, and a binary runtime exactly when a promoted record is there. */
  lemma StatusIsExact(t: State, version: string)
    requires IsReleased(t)
    ensures
      var tree := TreeAt(t.repo.commits, t.repo.main);
      && ReleaseStatus.IsConsistent(tree, Pypi, version) && ReleaseStatus.IsConsistent(tree, Binary, version)
      && (forall d, record :: ReleaseStatus.IsListed(tree, d, version, record) <==> IsOnMain(t, d, version, record))
      && (forall record :: IsOnMain(t, Pypi, version, record) ==>
            (ReleaseStatus.IsCertifiedSource(record, version) <==> IsCertifiedOutput(record)))
  {
    FeedIsConsistent(t, Pypi, version);
    FeedIsConsistent(t, Binary, version);
    ReleasedIsProducing(t);
    TreesHoldProduced(t, t.repo.main);
    forall d, record
      ensures ReleaseStatus.IsListed(TreeAt(t.repo.commits, t.repo.main), d, version, record) <==>
        IsOnMain(t, d, version, record)
    {
      ListedIsOnMain(t, d, version, record);
    }
    forall record | IsOnMain(t, Pypi, version, record)
      ensures ReleaseStatus.IsCertifiedSource(record, version) <==> IsCertifiedOutput(record)
    {
      RecognisesCertified(record);
    }
  }

  /** A milestone that was reached stays: whatever happens next, main keeps the records it is read from. */
  lemma MilestonesStay(t: State, more: seq<Action>, d: Distribution, version: string, record: Record)
    requires IsReachable(t) && IsOnMain(t, d, version, record)
    ensures IsOnMain(Execute(t, more), d, version, record)
  {
    ReachableIsGood(t);
    MainOnlyGrows(t, more);
  }

  /** The reader on a released main: it never fails, and its milestones mean what is on main. */
  method ReportMilestones(ghost t: State, tree: Tree, version: string) returns (m: ReleaseStatus.Milestones)
    requires IsReleased(t) && tree == TreeAt(t.repo.commits, t.repo.main)
    ensures m.sourceManifestPublished <==> exists record :: IsOnMain(t, Pypi, version, record)
    ensures m.desktopSourceUpdateCertified <==>
      exists record :: IsOnMain(t, Pypi, version, record) && IsCertifiedOutput(record)
    ensures m.binaryRuntimePublished <==> exists record :: IsOnMain(t, Binary, version, record)
  {
    StatusIsExact(t, version);
    var status := ReleaseStatus.ReleaseStatus(tree, version);
    m := status.value;
  }
}
