/** What every step of the publication protocol keeps, and what follows over whole runs. */
module PublicationSafety {
  import opened Results
  import opened Sequences
  import opened RuntimeRecords
  import opened Feeds
  import opened CommitGraph
  import opened Publication

  // ----- the invariant of the commit graph

  /** A reference of a commit's feed names an ancestor that holds the record with the digest. */
  ghost predicate IsPinned(h: History, c: nat, d: Distribution, r: Reference) {
    && r.url.Pinned?
    && r.url.path.RecordPath? && r.url.path.distribution == d && r.url.path.version == r.version.text
    && IsAncestor(h, r.url.commit, c)
    && r.url.commit < |h|
    && r.url.path in h[r.url.commit].tree
    && r.digest == Sha256(h[r.url.commit].tree[r.url.path])
  }

  ghost predicate OnePerPath(refs: seq<Reference>) {
    forall x, y :: x in refs && y in refs && x.url.Pinned? && y.url.Pinned? && x.url.path == y.url.path ==> x == y
  }

  ghost predicate IsWellKept(file: Option<Content>, d: Distribution) {
    && file.Some? && file.value.FeedFile?
    && IsStableFeed(file.value.feed, d)
    && IsNewestFirst(file.value.feed.releases)
    && HasNoRepeats(file.value.feed.releases)
    && OnePerPath(file.value.feed.releases)
  }

  ghost predicate IsGoodFeed(h: History, c: nat, d: Distribution)
    requires c < |h|
  {
    && IsWellKept(At(h[c].tree, FeedPath(d)), d)
    && forall r :: r in Releases(h[c].tree, d) ==> IsPinned(h, c, d, r)
  }

  ghost predicate FilesRecords(t: Tree) {
    forall p :: p in t && p.RecordPath? ==> t[p].RecordFile? && PathOf(t[p].record) == p
  }

  predicate IsMainline(h: History, c: nat) {
    c < |h| && (h[c].subject.Ordinary? || h[c].subject.Merged?)
  }

  /** The two commits of a publication: the record on top of main, then the feed that pins it. */
  ghost predicate IsShaped(h: History, c: nat)
    requires c < |h|
  {
    match h[c].subject
    case PublishRecord(record) =>
      && |h[c].parents| == 1 && h[c].parents[0] < c
      && IsMainline(h, h[c].parents[0])
      && PathOf(record) !in h[h[c].parents[0]].tree
      && h[c].tree == h[h[c].parents[0]].tree[PathOf(record) := RecordFile(record)]
    case AdvanceFeed(record) =>
      && |h[c].parents| == 1 && h[c].parents[0] < c
      && h[h[c].parents[0]].subject == CommitGraph.PublishRecord(record)
      && AdvancesFeed(h[h[c].parents[0]].tree, h[c].tree, record, h[c].parents[0])
    case _ => true
  }

  ghost predicate AdvancesFeed(t: Tree, u: Tree, record: Record, recordCommit: nat) {
    var file := At(t, FeedPath(record.distribution));
    && file.Some? && file.value.FeedFile?
    && AddReference(file.value.feed, record, recordCommit, Sha256(RecordFile(record))).Ok?
    && u == t[FeedPath(record.distribution) :=
              FeedFile(AddReference(file.value.feed, record, recordCommit, Sha256(RecordFile(record))).value)]
  }

  ghost predicate IsGoodCommit(h: History, c: nat)
    requires c < |h|
  {
    && (forall d :: IsGoodFeed(h, c, d))
    && FilesRecords(h[c].tree)
    && IsShaped(h, c)
  }

  ghost predicate IsGoodHistory(h: History) {
    && IsAcyclic(h)
    && EdgesPreserve(h)
    && forall c :: 0 <= c < |h| ==> IsGoodCommit(h, c)
  }

  // ----- extending the graph

  lemma PinIsStable(h: History, more: History, c: nat, d: Distribution, r: Reference)
    requires c < |h| && IsPinned(h, c, d, r)
    ensures IsPinned(h + more, c, d, r)
  {
    AncestryIsStable(h, more, r.url.commit, c);
  }

  lemma GoodFeedIsStable(h: History, more: History, c: nat, d: Distribution)
    requires c < |h| && IsGoodFeed(h, c, d)
    ensures IsGoodFeed(h + more, c, d)
  {
    forall r | r in Releases(h[c].tree, d) ensures IsPinned(h + more, c, d, r) {
      PinIsStable(h, more, c, d, r);
    }
  }

  lemma ShapeIsStable(h: History, more: History, c: nat)
    requires c < |h| && IsShaped(h, c)
    ensures IsShaped(h + more, c)
  {
  }

  /** A good commit on top of a good history makes a good history. */
  lemma ExtendHistory(h: History, commit: Commit)
    requires IsGoodHistory(h)
    requires forall i :: 0 <= i < |commit.parents| ==>
      commit.parents[i] < |h| && Preserves(h[commit.parents[i]].tree, commit.tree)
    requires IsGoodCommit(h + [commit], |h|)
    ensures IsGoodHistory(h + [commit])
  {
    var g := h + [commit];
    forall c | 0 <= c < |h| ensures IsGoodCommit(g, c) {
      assert IsGoodCommit(h, c);
      forall d ensures IsGoodFeed(g, c, d) {
        GoodFeedIsStable(h, [commit], c, d);
      }
      ShapeIsStable(h, [commit], c);
    }
  }

  /** A commit that takes a feed over from a parent takes its pins over. */
  lemma InheritFeed(h: History, commit: Commit, i: nat, d: Distribution)
    requires IsGoodHistory(h)
    requires i < |commit.parents| && commit.parents[i] < |h|
    requires At(commit.tree, FeedPath(d)) == At(h[commit.parents[i]].tree, FeedPath(d))
    ensures IsGoodFeed(h + [commit], |h|, d)
  {
    var g := h + [commit];
    var p := commit.parents[i];
    assert IsGoodCommit(h, p);
    assert IsGoodFeed(h, p, d);
    forall r | r in Releases(commit.tree, d) ensures IsPinned(g, |h|, d, r) {
      assert r in Releases(h[p].tree, d);
      PinIsStable(h, [commit], p, d, r);
      ParentIsAncestor(g, r.url.commit, |h|, i);
    }
  }

  /** The record a reference names is in the tree of every commit that carries the reference. */
  lemma PinnedRecordIsHere(h: History, c: nat, d: Distribution, r: Reference)
    requires IsGoodHistory(h) && c < |h| && IsPinned(h, c, d, r)
    ensures r.url.path in h[c].tree && h[c].tree[r.url.path] == h[r.url.commit].tree[r.url.path]
  {
    DescentPreserves(h, r.url.commit, c);
  }

  lemma DevelopKeepsHistory(h: History, main: nat, tree: Tree)
    requires IsGoodHistory(h) && main < |h| && KeepsPublished(h[main].tree, tree)
    ensures IsGoodHistory(h + [Commit([main], tree, Ordinary)])
  {
    var commit := Commit([main], tree, Ordinary);
    assert IsGoodCommit(h, main);
    forall d ensures IsGoodFeed(h + [commit], |h|, d) {
      assert At(tree, FeedPath(d)) == At(h[main].tree, FeedPath(d));
      InheritFeed(h, commit, 0, d);
    }
    ExtendHistory(h, commit);
  }

  lemma RecordKeepsHistory(h: History, origin: nat, record: Record)
    requires IsGoodHistory(h) && IsMainline(h, origin) && PathOf(record) !in h[origin].tree
    ensures IsGoodHistory(h + [Commit([origin], h[origin].tree[PathOf(record) := RecordFile(record)],
      CommitGraph.PublishRecord(record))])
  {
    var tree := h[origin].tree[PathOf(record) := RecordFile(record)];
    var commit := Commit([origin], tree, CommitGraph.PublishRecord(record));
    assert IsGoodCommit(h, origin);
    forall d ensures IsGoodFeed(h + [commit], |h|, d) {
      assert At(tree, FeedPath(d)) == At(h[origin].tree, FeedPath(d));
      InheritFeed(h, commit, 0, d);
    }
    ExtendHistory(h, commit);
  }

  /** No reference of the record commit's own feed can name the record or its path yet. */
  lemma FeedDoesNotKnowRecord(h: History, k: nat, r: Reference)
    requires IsGoodHistory(h) && k < |h| && h[k].subject.PublishRecord?
    requires r in Releases(h[k].tree, h[k].subject.record.distribution)
    ensures r.url.Pinned? && r.url.path != PathOf(h[k].subject.record) && r.url.commit < k
  {
    var record := h[k].subject.record;
    var d := record.distribution;
    assert IsGoodCommit(h, k);
    var origin := h[k].parents[0];
    assert IsGoodCommit(h, origin);
    assert IsGoodFeed(h, origin, d);
    assert At(h[k].tree, FeedPath(d)) == At(h[origin].tree, FeedPath(d));
    assert r in Releases(h[origin].tree, d);
    assert IsPinned(h, origin, d, r);
    PinnedRecordIsHere(h, origin, d, r);
    AncestorIsOlder(h, r.url.commit, origin);
  }

  lemma AdvancedFeedIsWellKept(h: History, k: nat, updated: Feed)
    requires IsGoodHistory(h) && k < |h| && h[k].subject.PublishRecord?
    requires
      var record := h[k].subject.record;
      var file := At(h[k].tree, FeedPath(record.distribution));
      file.Some? && file.value.FeedFile? &&
      AddReference(file.value.feed, record, k, Sha256(RecordFile(record))) == Ok(updated)
    ensures IsWellKept(Some(FeedFile(updated)), h[k].subject.record.distribution)
    ensures
      var record := h[k].subject.record;
      forall x :: x in updated.releases <==>
        x in Releases(h[k].tree, record.distribution) || x == ReferenceTo(record, k, Sha256(RecordFile(record)))
    ensures updated.releases != Releases(h[k].tree, h[k].subject.record.distribution)
  {
    var record := h[k].subject.record;
    var d := record.distribution;
    var r := ReferenceTo(record, k, Sha256(RecordFile(record)));
    var feed := At(h[k].tree, FeedPath(d)).value.feed;
    assert IsGoodCommit(h, k);
    assert IsGoodFeed(h, k, d);
    AddReferenceEffect(feed, record, k, Sha256(RecordFile(record)));
    forall x | x in feed.releases ensures x.url.Pinned? && x.url.path != PathOf(record) {
      FeedDoesNotKnowRecord(h, k, x);
    }
    assert r in updated.releases && r !in feed.releases;
  }

  lemma FeedKeepsHistory(h: History, k: nat, updated: Feed)
    requires IsGoodHistory(h) && k < |h| && h[k].subject.PublishRecord?
    requires
      var record := h[k].subject.record;
      var file := At(h[k].tree, FeedPath(record.distribution));
      file.Some? && file.value.FeedFile? &&
      AddReference(file.value.feed, record, k, Sha256(RecordFile(record))) == Ok(updated)
    ensures
      var record := h[k].subject.record;
      IsGoodHistory(h + [Commit([k], h[k].tree[FeedPath(record.distribution) := FeedFile(updated)],
          AdvanceFeed(record))])
  {
    var record := h[k].subject.record;
    var d := record.distribution;
    var tree := h[k].tree[FeedPath(d) := FeedFile(updated)];
    var commit := Commit([k], tree, AdvanceFeed(record));
    var g := h + [commit];
    assert IsGoodCommit(h, k);
    AdvancedFeedIsWellKept(h, k, updated);
    forall r | r in updated.releases ensures IsPinned(g, |h|, d, r) {
      if r in Releases(h[k].tree, d) {
        assert IsGoodFeed(h, k, d);
        PinIsStable(h, [commit], k, d, r);
        ParentIsAncestor(g, r.url.commit, |h|, 0);
      } else {
        ParentIsAncestor(g, k, |h|, 0);
        assert h[k].tree[PathOf(record)] == RecordFile(record);
      }
    }
    assert IsGoodFeed(g, |h|, d);
    forall e | e != d ensures IsGoodFeed(g, |h|, e) {
      assert At(tree, FeedPath(e)) == At(h[k].tree, FeedPath(e));
      InheritFeed(h, commit, 0, e);
    }
    ExtendHistory(h, commit);
  }

  lemma MergeKeepsHistory(h: History, main: nat, head: nat, base: nat)
    requires IsGoodHistory(h) && main < |h| && head < |h|
    requires IsAncestor(h, base, main) && IsAncestor(h, base, head)
    requires MergesCleanly(TreeAt(h, base), h[main].tree, h[head].tree)
    ensures IsGoodHistory(h + [Commit([main, head], MergedTree(TreeAt(h, base), h[main].tree, h[head].tree), Merged)])
    ensures Preserves(h[main].tree, MergedTree(TreeAt(h, base), h[main].tree, h[head].tree))
    ensures Preserves(h[head].tree, MergedTree(TreeAt(h, base), h[main].tree, h[head].tree))
  {
    DescentPreserves(h, base, main);
    DescentPreserves(h, base, head);
    var b, o, t := h[base].tree, h[main].tree, h[head].tree;
    var tree := MergedTree(b, o, t);
    var commit := Commit([main, head], tree, Merged);
    MergePreserves(b, o, t);
    forall d ensures IsGoodFeed(h + [commit], |h|, d) {
      MergedReleases(b, o, t, d);
      if At(tree, FeedPath(d)) == At(o, FeedPath(d)) {
        InheritFeed(h, commit, 0, d);
      } else {
        InheritFeed(h, commit, 1, d);
      }
    }
    MergeFilesRecords(h, main, head, b);
    ExtendHistory(h, commit);
  }

  lemma MergeFilesRecords(h: History, main: nat, head: nat, b: Tree)
    requires main < |h| && head < |h| && IsGoodCommit(h, main) && IsGoodCommit(h, head)
    ensures FilesRecords(MergedTree(b, h[main].tree, h[head].tree))
  {
    var tree := MergedTree(b, h[main].tree, h[head].tree);
    forall p | p in tree && p.RecordPath? ensures tree[p].RecordFile? && PathOf(tree[p].record) == p {
      assert At(tree, p) == MergedAt(b, h[main].tree, h[head].tree, p);
    }
  }

  // ----- the invariant of the state

  ghost predicate IsBranchCommit(h: History, c: nat) {
    c < |h| && (h[c].subject.PublishRecord? || h[c].subject.AdvanceFeed?)
  }

  /** The record commit of a publication branch. */
  ghost function RecordCommitOf(h: History, c: nat): (k: nat)
    requires IsGoodHistory(h) && IsBranchCommit(h, c)
    ensures k <= c && h[k].subject == CommitGraph.PublishRecord(h[c].subject.record)
  {
    assert IsGoodCommit(h, c);
    if h[c].subject.PublishRecord? then c else h[c].parents[0]
  }

  /** The commit of main on which a publication branch was started. */
  ghost function BaseOf(h: History, c: nat): (b: nat)
    requires IsGoodHistory(h) && IsBranchCommit(h, c)
    ensures b < c && IsMainline(h, b)
  {
    assert IsGoodCommit(h, RecordCommitOf(h, c));
    h[RecordCommitOf(h, c)].parents[0]
  }

  /** Every record is referenced by the feed of its distribution, under names a reader accepts. */
  ghost predicate IsPresentable(h: History, c: nat)
    requires c < |h|
  {
    && (forall p :: p in h[c].tree && p.RecordPath? ==> IsReferenced(h[c].tree, p))
    && (forall d, r :: r in Releases(h[c].tree, d) && r.url.Pinned? ==> IsPlainPath(r.url.path))
  }

  ghost predicate IsReferenced(t: Tree, p: Path)
    requires p.RecordPath?
  {
    exists r :: r in Releases(t, p.distribution) && r.url.Pinned? && r.url.path == p
  }

  /** A publication is on main with its feed, or not at all. */
  ghost predicate IsWhole(h: History, main: nat, c: nat)
    requires IsGoodHistory(h) && IsBranchCommit(h, c)
  {
    IsAncestor(h, RecordCommitOf(h, c), main) ==> h[c].subject.AdvanceFeed? && IsAncestor(h, c, main)
  }

  ghost predicate IsGoodBranch(repo: Repo, id: string)
    requires IsGoodHistory(repo.commits) && id in repo.branches
  {
    var c := repo.branches[id];
    && IsBranchCommit(repo.commits, c)
    && repo.commits[c].subject.record.releaseId == id
    && IsAncestor(repo.commits, BaseOf(repo.commits, c), repo.main)
    && IsWhole(repo.commits, repo.main, c)
  }

  /** An open request proposes a finished branch whose record commit is not on main. */
  ghost predicate IsGoodRequest(repo: Repo, id: string)
    requires IsGoodHistory(repo.commits)
  {
    && id in repo.branches
    && repo.branches[id] < |repo.commits|
    && repo.commits[repo.branches[id]].subject.AdvanceFeed?
    && IsPresentable(repo.commits, repo.branches[id])
    && !IsAncestor(repo.commits, RecordCommitOf(repo.commits, repo.branches[id]), repo.main)
  }

  ghost predicate AtMostOneRequest(open: seq<PullHead>) {
    forall p, q :: p in open && q in open && p.PublicationHead? && q.PublicationHead? ==> p == q
  }

  ghost predicate IsGoodRepo(repo: Repo) {
    && IsGoodHistory(repo.commits)
    && IsMainline(repo.commits, repo.main)
    && IsPresentable(repo.commits, repo.main)
    && (forall id :: id in repo.branches ==> IsGoodBranch(repo, id))
    && (forall p :: p in repo.open && p.PublicationHead? ==> IsGoodRequest(repo, p.releaseId))
    && AtMostOneRequest(repo.open)
  }

  /** What a run knows about the main it fetched. */
  ghost predicate IsGoodOrigin(repo: Repo, record: Record, origin: nat) {
    && IsMainline(repo.commits, origin)
    && IsAncestor(repo.commits, origin, repo.main)
    && IsPresentable(repo.commits, origin)
    && PathOf(record) !in repo.commits[origin].tree
  }

  /** Only this run's own request can be open, and only if the survey saw it. */
  ghost predicate OwnRequestOnly(open: seq<PullHead>, id: string, requested: bool) {
    forall p :: p in open && p.PublicationHead? ==> p.releaseId == id && requested
  }

  ghost predicate IsGoodHead(h: History, stage: Stage, record: Record, origin: nat, head: nat)
    requires IsGoodHistory(h)
  {
    match stage
    case Surveyed =>
      || head == origin
      || (IsBranchCommit(h, head) && PathOf(h[head].subject.record) == PathOf(record) && BaseOf(h, head) == origin)
    case RecordPushed => IsBranchCommit(h, head) && h[head].subject.record == record && BaseOf(h, head) == origin
    case FeedPushed => IsBranchCommit(h, head) && h[head].subject == AdvanceFeed(record) && BaseOf(h, head) == origin
  }

  ghost predicate IsGoodRun(s: State)
    requires IsGoodRepo(s.repo)
  {
    match s.run
    case Quiet(_) => true
    case Fetched(record, origin) =>
      && IsGoodOrigin(s.repo, record, origin)
      && (forall id :: id in s.repo.branches ==>
            IsAncestor(s.repo.commits, BaseOf(s.repo.commits, s.repo.branches[id]), origin))
    case Working(stage, record, origin, head, requested) =>
      && IsGoodOrigin(s.repo, record, origin)
      && IsGoodHead(s.repo.commits, stage, record, origin, head)
      && OwnRequestOnly(s.repo.open, record.releaseId, requested)
      && (record.releaseId in s.repo.branches ==> s.repo.branches[record.releaseId] == head)
      && (IsBranchCommit(s.repo.commits, head) ==>
            && s.repo.commits[head].subject.record.releaseId == record.releaseId
            && IsWhole(s.repo.commits, s.repo.main, head))
  }

  ghost predicate Inv(s: State) {
    IsGoodRepo(s.repo) && IsGoodRun(s)
  }

  lemma InitialIsGood(s: State)
    requires IsInitial(s)
    ensures Inv(s)
  {
    var h := s.repo.commits;
    forall d ensures IsGoodFeed(h, 0, d) {
      assert IsEmptyFeed(At(h[0].tree, FeedPath(d)), d);
    }
    forall d ensures Releases(h[0].tree, d) == [] {
      assert IsEmptyFeed(At(h[0].tree, FeedPath(d)), d);
    }
    assert IsGoodCommit(h, 0);
  }
}
