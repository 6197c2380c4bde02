/** What each stage of a publisher run does, on any repository at all: every error in its exact case, and
    the repository that is left. */
module PublicationStages {
  import opened Results
  import opened RuntimeRecords
  import opened Feeds
  import opened CommitGraph
  import opened Publication

  /** Heads and branches are commits that exist. */
  ghost predicate IsBacked(repo: Repo, head: nat) {
    head < |repo.commits| && forall id :: id in repo.branches ==> repo.branches[id] < |repo.commits|
  }

  /** A commit on `head` only adds to the branch. */
  ghost predicate IsFastForward(repo: Repo, id: string, head: nat) {
    id in repo.branches ==> IsAncestor(repo.commits, repo.branches[id], head)
  }

  /** One file of the head is replaced by a new commit, which the branch now points to; main, requests and
      all other files and branches stay. */
  ghost predicate IsCommitted(repo: Repo, id: string, head: nat, path: Path, file: Content, subject: Subject,
                              p: Pushed)
    requires head < |repo.commits|
  {
    && p.head == |repo.commits| && |p.repo.commits| == p.head + 1 && p.repo.commits[..p.head] == repo.commits
    && p.repo.commits[p.head].parents == [head] && p.repo.commits[p.head].subject == subject
    && (forall q :: At(p.repo.commits[p.head].tree, q) ==
          if q == path then Some(file) else At(repo.commits[head].tree, q))
    && p.repo.main == repo.main && p.repo.open == repo.open && p.repo.branches == repo.branches[id := p.head]
  }

  lemma PushMeans(repo: Repo, id: string, head: nat, commit: Commit)
    requires IsBacked(repo, head) && commit.parents == [head]
    ensures Push(repo, id, commit) ==
      if IsFastForward(repo, id, head)
      then Ok(repo.(commits := repo.commits + [commit], branches := repo.branches[id := |repo.commits|]))
      else Err(PushRejected)
  {
    if id in repo.branches {
      AncestryIsStable(repo.commits, [commit], repo.branches[id], head);
      var pushed := repo.commits + [commit];
      assert pushed[|repo.commits|].parents[0] == head;
    }
  }

  /** The pending-request guard, the ancestor check and the check of the changed paths. */
  lemma CheckoutMeans(repo: Repo, record: Record, origin: nat)
    ensures
      var alone := forall id :: PublicationHead(id) in repo.open ==> id == record.releaseId;
      var known := record.releaseId in repo.branches;
      var head := if known then repo.branches[record.releaseId] else origin;
      var descends := known ==> IsAncestor(repo.commits, origin, head);
      match Checkout(repo, record, origin)
      case Err(ListingCapped) => |repo.open| >= 1000
      case Err(OtherPending) => |repo.open| < 1000 && !alone
      case Err(StaleBranch) => |repo.open| < 1000 && alone && !descends
      case Err(ForeignChanges) =>
        |repo.open| < 1000 && alone && descends && !ChangesOwnFiles(repo.commits, origin, head, record)
      case Err(_) => false
      case Ok(w) =>
        && |repo.open| < 1000 && alone && descends && ChangesOwnFiles(repo.commits, origin, head, record)
        && w.head == head && (w.requested <==> PublicationHead(record.releaseId) in repo.open)
  {
    var head := if record.releaseId in repo.branches then repo.branches[record.releaseId] else origin;
    var t, u := TreeAt(repo.commits, origin), TreeAt(repo.commits, head);
    assert forall p :: At(t, p) != At(u, p) <==> p in ChangedPaths(t, u);
  }

  /** Between two commits nothing changed but the record's path and the feed of its distribution. */
  ghost predicate ChangesOwnFiles(h: History, origin: nat, head: nat, record: Record) {
    forall p :: At(TreeAt(h, origin), p) == At(TreeAt(h, head), p)
      || p == RecordPath(record.distribution, record.runtimeVersion.text, record.releaseId)
      || p == FeedPath(record.distribution)
  }

  /** The record stage: the head keeps a record with these bytes, and else gets one. */
  lemma RecordStageMeans(repo: Repo, record: Record, head: nat)
    requires IsBacked(repo, head)
    ensures
      var path := RecordPath(record.distribution, record.runtimeVersion.text, record.releaseId);
      var file := At(repo.commits[head].tree, path);
      match WriteRecord(repo, record, head)
      case Err(DifferentBytes) => file.Some? && file.value != RecordFile(record)
      case Err(PushRejected) => file.None? && !IsFastForward(repo, record.releaseId, head)
      case Err(_) => false
      case Ok(p) =>
        if file.Some? then file.value == RecordFile(record) && p == Pushed(repo, head)
        else
          && IsFastForward(repo, record.releaseId, head)
          && IsCommitted(repo, record.releaseId, head, path, RecordFile(record), PublishRecord(record), p)
  {
    var tree, path := TreeAt(repo.commits, head), PathOf(record);
    PushMeans(repo, record.releaseId, head, Commit([head], tree[path := RecordFile(record)], PublishRecord(record)));
  }

  /** The feed stage: the record is read back from the commit that the log finds, and the feed gets a
      reference to that commit unless it has it. */
  lemma FeedStageMeans(repo: Repo, record: Record, head: nat)
    requires IsBacked(repo, head)
    ensures
      var path := RecordPath(record.distribution, record.runtimeVersion.text, record.releaseId);
      var k := LastTouch(repo.commits, head, path);
      var read := At(TreeAt(repo.commits, k), path) == Some(RecordFile(record));
      var file := At(repo.commits[head].tree, FeedPath(record.distribution));
      var feed := file.Some? && file.value.FeedFile?;
      match WriteFeed(repo, record, head)
      case Err(ReadbackDiffers) => !read
      case Err(FeedUnreadable) => read && !feed
      case Err(FeedRefused(e)) =>
        read && feed && AddReference(file.value.feed, record, k, Sha256(RecordFile(record))) == Err(e)
      case Err(PushRejected) =>
        && read && feed && !IsFastForward(repo, record.releaseId, head)
        && var updated := AddReference(file.value.feed, record, k, Sha256(RecordFile(record)));
        updated.Ok? && updated.value.releases != file.value.feed.releases
      case Err(_) => false
      case Ok(p) => read && feed && IsFeedStage(repo, record, head, k, file.value.feed, p)
  {
    var tree, path := TreeAt(repo.commits, head), FeedPath(record.distribution);
    var k := LastTouch(repo.commits, head, PathOf(record));
    if path in tree && tree[path].FeedFile? {
      match AddReference(tree[path].feed, record, k, Sha256(RecordFile(record))) {
        case Err(e) =>
        case Ok(updated) =>
          PushMeans(repo, record.releaseId, head, Commit([head], tree[path := FeedFile(updated)], AdvanceFeed(record)));
      }
    }
  }

  ghost predicate IsFeedStage(repo: Repo, record: Record, head: nat, k: nat, feed: Feed, p: Pushed)
    requires IsBacked(repo, head)
  {
    var updated := AddReference(feed, record, k, Sha256(RecordFile(record)));
    && updated.Ok?
    && if updated.value.releases == feed.releases then p == Pushed(repo, head)
       else
         && IsFastForward(repo, record.releaseId, head)
         && IsCommitted(repo, record.releaseId, head, FeedPath(record.distribution), FeedFile(updated.value),
                        AdvanceFeed(record), p)
  }

  /** The last stage: the head is verified, and a request is opened unless one is open. */
  lemma RequestStageMeans(repo: Repo, record: Record, head: nat, requested: bool)
    ensures
      var verified := IsVerified(repo.commits, head, TreeAt(repo.commits, head));
      var known := record.releaseId in repo.branches;
      var listed := PublicationHead(record.releaseId) in repo.open;
      match OpenRequest(repo, record, head, requested)
      case Err(VerificationFailed) => !verified
      case Err(RequestRefused) => verified && !requested && (!known || listed)
      case Err(NothingToMerge) =>
        verified && !requested && known && !listed
        && IsAncestor(repo.commits, repo.branches[record.releaseId], repo.main)
      case Err(_) => false
      case Ok(next) =>
        && verified && next.commits == repo.commits && next.main == repo.main && next.branches == repo.branches
        && if requested then next.open == repo.open
           else
             && next.open == repo.open + [PublicationHead(record.releaseId)]
             && known && !listed && !IsAncestor(repo.commits, repo.branches[record.releaseId], repo.main)
  {
  }
}
