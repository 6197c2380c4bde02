/** Every action of a publisher or a maintainer keeps the invariant, so every run does. */
module PublicationRuns {
  import opened Results
  import opened RuntimeRecords
  import opened Feeds
  import opened CommitGraph
  import opened Publication
  import opened PublicationSafety

  // ----- facts that survive new commits

  lemma BaseIsStable(h: History, more: History, c: nat)
    requires IsGoodHistory(h) && IsGoodHistory(h + more) && IsBranchCommit(h, c)
    ensures IsBranchCommit(h + more, c) && BaseOf(h + more, c) == BaseOf(h, c)
    ensures RecordCommitOf(h + more, c) == RecordCommitOf(h, c)
  {
    assert IsGoodCommit(h, c);
  }

  lemma PresentableIsStable(h: History, more: History, c: nat)
    requires c < |h| && IsPresentable(h, c)
    ensures IsPresentable(h + more, c)
  {
  }

  /** Nothing that was there before is newly below main. */
  ghost predicate IsSameBelow(h: History, more: History, main: nat, next: nat) {
    forall a: nat :: a < |h| && IsAncestor(h + more, a, next) ==> IsAncestor(h, a, main)
  }

  lemma WholeSurvives(h: History, more: History, main: nat, next: nat, c: nat)
    requires IsGoodHistory(h) && IsGoodHistory(h + more) && IsBranchCommit(h, c) && main < |h|
    requires IsSameBelow(h, more, main, next) && IsAncestor(h + more, main, next)
    requires IsWhole(h, main, c)
    ensures IsWhole(h + more, next, c)
  {
    BaseIsStable(h, more, c);
    if IsAncestor(h + more, RecordCommitOf(h, c), next) {
      AncestryIsStable(h, more, c, main);
      AncestorTransitive(h + more, c, main, next);
    }
  }

  lemma BranchSurvives(repo: Repo, next: Repo, more: History, id: string)
    requires IsGoodHistory(repo.commits) && IsGoodHistory(next.commits) && next.commits == repo.commits + more
    requires id in repo.branches && id in next.branches && next.branches[id] == repo.branches[id]
    requires IsGoodBranch(repo, id)
    requires repo.main < |repo.commits| && IsAncestor(next.commits, repo.main, next.main)
    requires IsBranchCommit(next.commits, next.branches[id]) && IsWhole(next.commits, next.main, next.branches[id])
    ensures IsGoodBranch(next, id)
  {
    var c := repo.branches[id];
    BaseIsStable(repo.commits, more, c);
    AncestryIsStable(repo.commits, more, BaseOf(repo.commits, c), repo.main);
    AncestorTransitive(next.commits, BaseOf(repo.commits, c), repo.main, next.main);
  }

  lemma RequestSurvives(repo: Repo, next: Repo, more: History, id: string)
    requires IsGoodHistory(repo.commits) && IsGoodHistory(next.commits)
    requires IsGoodRequest(repo, id) && next.commits == repo.commits + more
    requires IsSameBelow(repo.commits, more, repo.main, next.main)
    requires id in next.branches && next.branches[id] == repo.branches[id]
    ensures IsGoodRequest(next, id)
  {
    BaseIsStable(repo.commits, more, repo.branches[id]);
    PresentableIsStable(repo.commits, more, repo.branches[id]);
  }

  lemma OriginSurvives(repo: Repo, next: Repo, more: History, record: Record, origin: nat)
    requires IsGoodOrigin(repo, record, origin) && next.commits == repo.commits + more
    requires repo.main < |repo.commits| && IsAncestor(next.commits, repo.main, next.main)
    ensures IsGoodOrigin(next, record, origin)
  {
    AncestryIsStable(repo.commits, more, origin, repo.main);
    AncestorTransitive(next.commits, origin, repo.main, next.main);
    PresentableIsStable(repo.commits, more, origin);
  }

  lemma HeadSurvives(h: History, more: History, stage: Stage, record: Record, origin: nat, head: nat)
    requires IsGoodHistory(h) && IsGoodHistory(h + more) && IsGoodHead(h, stage, record, origin, head)
    ensures IsGoodHead(h + more, stage, record, origin, head)
  {
    if IsBranchCommit(h, head) {
      BaseIsStable(h, more, head);
    }
  }

  /** What maintainers do: main moves forward, branches and requests only go away. */
  ghost predicate IsUpkeep(repo: Repo, next: Repo, more: History) {
    && next.commits == repo.commits + more
    && IsAncestor(next.commits, repo.main, next.main)
    && (forall id :: id in next.branches ==> id in repo.branches && next.branches[id] == repo.branches[id])
    && (forall p :: p in next.open && p.PublicationHead? ==> p in repo.open && p.releaseId in next.branches)
  }

  /** Branches and the run stay whole, and requests that stay open have nothing new below main. */
  ghost predicate StaysWhole(s: State, next: Repo, more: History)
    requires IsGoodHistory(next.commits)
  {
    && (forall id :: id in next.branches ==>
          IsBranchCommit(next.commits, next.branches[id]) && IsWhole(next.commits, next.main, next.branches[id]))
    && (s.run.Working? && IsBranchCommit(next.commits, s.run.head) ==> IsWhole(next.commits, next.main, s.run.head))
    && (forall p :: p in next.open && p.PublicationHead? ==> IsSameBelow(s.repo.commits, more, s.repo.main, next.main))
  }

  lemma SameBelowStaysWhole(s: State, next: Repo, more: History)
    requires Inv(s) && IsUpkeep(s.repo, next, more) && IsGoodHistory(next.commits)
    requires IsSameBelow(s.repo.commits, more, s.repo.main, next.main)
    ensures StaysWhole(s, next, more)
  {
    var h := s.repo.commits;
    forall id | id in next.branches
      ensures IsBranchCommit(next.commits, next.branches[id]) && IsWhole(next.commits, next.main, next.branches[id])
    {
      assert IsGoodBranch(s.repo, id);
      WholeSurvives(h, more, s.repo.main, next.main, next.branches[id]);
    }
    if s.run.Working? && IsBranchCommit(next.commits, s.run.head) {
      WholeSurvives(h, more, s.repo.main, next.main, s.run.head);
    }
  }

  lemma UpkeepKeepsRepo(s: State, next: Repo, more: History)
    requires Inv(s) && IsUpkeep(s.repo, next, more)
    requires IsGoodHistory(next.commits) && IsMainline(next.commits, next.main)
      && IsPresentable(next.commits, next.main)
    requires StaysWhole(s, next, more)
    ensures IsGoodRepo(next)
  {
    forall id | id in next.branches ensures IsGoodBranch(next, id) {
      assert IsGoodBranch(s.repo, id);
      BranchSurvives(s.repo, next, more, id);
    }
    forall p | p in next.open && p.PublicationHead? ensures IsGoodRequest(next, p.releaseId) {
      assert IsGoodRequest(s.repo, p.releaseId);
      RequestSurvives(s.repo, next, more, p.releaseId);
    }
  }

  lemma UpkeepKeepsRun(s: State, next: Repo, more: History)
    requires Inv(s) && IsUpkeep(s.repo, next, more) && IsGoodRepo(next) && StaysWhole(s, next, more)
    ensures IsGoodRun(State(next, s.run))
  {
    match s.run
    case Quiet(_) =>
    case Fetched(record, origin) =>
      OriginSurvives(s.repo, next, more, record, origin);
      forall id | id in next.branches
        ensures IsAncestor(next.commits, BaseOf(next.commits, next.branches[id]), origin)
      {
        assert IsGoodBranch(s.repo, id);
        var c := s.repo.branches[id];
        BaseIsStable(s.repo.commits, more, c);
        AncestryIsStable(s.repo.commits, more, BaseOf(s.repo.commits, c), origin);
      }
    case Working(stage, record, origin, head, requested) =>
      OriginSurvives(s.repo, next, more, record, origin);
      HeadSurvives(s.repo.commits, more, stage, record, origin, head);
  }

  lemma UpkeepKeepsInv(s: State, next: Repo, more: History)
    requires Inv(s) && IsUpkeep(s.repo, next, more)
    requires IsGoodHistory(next.commits) && IsMainline(next.commits, next.main)
      && IsPresentable(next.commits, next.main)
    requires StaysWhole(s, next, more)
    ensures Inv(State(next, s.run))
  {
    UpkeepKeepsRepo(s, next, more);
    UpkeepKeepsRun(s, next, more);
  }

  lemma SameMainIsSameBelow(h: History, more: History, main: nat)
    requires main < |h|
    ensures IsSameBelow(h, more, main, main)
  {
    forall a: nat | a < |h| && IsAncestor(h + more, a, main) ensures IsAncestor(h, a, main) {
      AncestryIsStable(h, more, a, main);
    }
  }

  // ----- maintainers

  lemma DevelopKeepsInv(s: State, tree: Tree)
    requires Inv(s)
    ensures Inv(MaintainerStep(s, Develop(tree)))
  {
    var repo := s.repo;
    if KeepsPublished(TreeAt(repo.commits, repo.main), tree) {
      var commit := Commit([repo.main], tree, Ordinary);
      var next := repo.(commits := repo.commits + [commit], main := |repo.commits|);
      DevelopKeepsHistory(repo.commits, repo.main, tree);
      AncestryIsStable(repo.commits, [commit], repo.main, repo.main);
      ParentIsAncestor(next.commits, repo.main, next.main, 0);
      DevelopKeepsPresentable(repo.commits, repo.main, tree);
      forall a: nat | a < |repo.commits| && IsAncestor(next.commits, a, next.main)
        ensures IsAncestor(repo.commits, a, repo.main) {
        AncestryIsStable(repo.commits, [commit], a, repo.main);
      }
      SameBelowStaysWhole(s, next, [commit]);
      UpkeepKeepsInv(s, next, [commit]);
    }
  }

  lemma DevelopKeepsPresentable(h: History, main: nat, tree: Tree)
    requires main < |h| && IsPresentable(h, main) && KeepsPublished(h[main].tree, tree)
    ensures IsPresentable(h + [Commit([main], tree, Ordinary)], |h|)
  {
    forall d ensures Releases(tree, d) == Releases(h[main].tree, d) {
      assert At(tree, FeedPath(d)) == At(h[main].tree, FeedPath(d));
    }
    forall p | p in tree && p.RecordPath? ensures IsReferenced(tree, p) {
      assert IsReferenced(h[main].tree, p);
    }
  }

  lemma MergeKeepsPresentable(h: History, main: nat, head: nat, base: Tree)
    requires main < |h| && head < |h| && IsPresentable(h, main) && IsPresentable(h, head)
    requires Preserves(h[main].tree, MergedTree(base, h[main].tree, h[head].tree))
    requires Preserves(h[head].tree, MergedTree(base, h[main].tree, h[head].tree))
    ensures IsPresentable(h + [Commit([main, head], MergedTree(base, h[main].tree, h[head].tree), Merged)], |h|)
  {
    var o, t := h[main].tree, h[head].tree;
    var tree := MergedTree(base, o, t);
    forall p | p in tree && p.RecordPath? ensures IsReferenced(tree, p) {
      assert At(tree, p) == MergedAt(base, o, t, p);
      if p in o {
        assert IsReferenced(o, p);
      } else {
        assert IsReferenced(t, p);
      }
    }
    forall d, r | r in Releases(tree, d) && r.url.Pinned? ensures IsPlainPath(r.url.path) {
      assert At(tree, FeedPath(d)) == MergedAt(base, o, t, FeedPath(d));
      assert r in Releases(o, d) || r in Releases(t, d);
    }
  }

  lemma MergeKeepsInv(s: State, id: string, base: nat)
    requires Inv(s)
    ensures Inv(MaintainerStep(s, Merge(id, base)))
  {
    var repo := s.repo;
    if CanMerge(repo, id, base) {
      var next := MergeRequest(repo, id, base);
      var head := repo.branches[id];
      assert IsGoodRequest(repo, PublicationHead(id).releaseId);
      MergeKeepsHistory(repo.commits, repo.main, head, base);
      MergeKeepsPresentable(repo.commits, repo.main, head, TreeAt(repo.commits, base));
      var commit := next.commits[|repo.commits|];
      AncestryIsStable(repo.commits, [commit], repo.main, repo.main);
      ParentIsAncestor(next.commits, repo.main, next.main, 0);
      MergeStaysWhole(s, id, base);
      UpkeepKeepsInv(s, next, [commit]);
    }
  }

  /** What a merge puts below main: what was there, and the history of the merged branch. */
  lemma MergeReaches(repo: Repo, id: string, base: nat, a: nat)
    requires CanMerge(repo, id, base) && a < |repo.commits|
    ensures
      var next := MergeRequest(repo, id, base);
      IsAncestor(next.commits, a, next.main) <==>
        IsAncestor(repo.commits, a, repo.main) || IsAncestor(repo.commits, a, repo.branches[id])
  {
    var next := MergeRequest(repo, id, base);
    var commit := next.commits[|repo.commits|];
    AncestorIsOlder(repo.commits, base, repo.main);
    AncestorIsOlder(repo.commits, base, repo.branches[id]);
    AncestryIsStable(repo.commits, [commit], a, repo.main);
    AncestryIsStable(repo.commits, [commit], a, repo.branches[id]);
    if IsAncestor(repo.commits, a, repo.main) {
      ParentIsAncestor(next.commits, a, next.main, 0);
    }
    if IsAncestor(repo.commits, a, repo.branches[id]) {
      ParentIsAncestor(next.commits, a, next.main, 1);
    }
  }

  /** Below a finished branch there is only the branch itself and what is below its base. */
  lemma BelowBranch(h: History, a: nat, c: nat)
    requires IsGoodHistory(h) && IsBranchCommit(h, c) && IsAncestor(h, a, c)
    ensures a == c || a == RecordCommitOf(h, c) || IsAncestor(h, a, BaseOf(h, c))
  {
    assert IsGoodCommit(h, c);
    assert IsGoodCommit(h, RecordCommitOf(h, c));
  }

  lemma WholeSurvivesMerge(repo: Repo, id: string, base: nat, c: nat)
    requires IsGoodRepo(repo) && CanMerge(repo, id, base) && IsGoodHistory(MergeRequest(repo, id, base).commits)
    requires IsBranchCommit(repo.commits, c) && IsWhole(repo.commits, repo.main, c)
    requires repo.commits[c].subject.record.releaseId == id ==> c == repo.branches[id]
    ensures
      var next := MergeRequest(repo, id, base);
      IsBranchCommit(next.commits, c) && IsWhole(next.commits, next.main, c)
  {
    var h, next, head := repo.commits, MergeRequest(repo, id, base), repo.branches[id];
    var k := RecordCommitOf(h, c);
    assert IsGoodBranch(repo, id);
    assert IsGoodRequest(repo, PublicationHead(id).releaseId);
    BaseIsStable(h, [next.commits[|h|]], c);
    MergeReaches(repo, id, base, k);
    MergeReaches(repo, id, base, c);
    if IsAncestor(h, k, head) {
      BelowBranch(h, k, head);
      if IsAncestor(h, k, BaseOf(h, head)) {
        AncestorTransitive(h, k, BaseOf(h, head), repo.main);
      } else {
        assert c == head;
        assert IsAncestor(h, c, head);
      }
    }
  }

  lemma MergeStaysWhole(s: State, id: string, base: nat)
    requires Inv(s) && CanMerge(s.repo, id, base) && IsGoodHistory(MergeRequest(s.repo, id, base).commits)
    ensures
      var next := MergeRequest(s.repo, id, base);
      StaysWhole(s, next, [next.commits[|s.repo.commits|]])
  {
    var repo, next := s.repo, MergeRequest(s.repo, id, base);
    forall i | i in next.branches
      ensures IsBranchCommit(next.commits, next.branches[i]) && IsWhole(next.commits, next.main, next.branches[i])
    {
      assert IsGoodBranch(repo, i);
      WholeSurvivesMerge(repo, id, base, repo.branches[i]);
    }
    if s.run.Working? && IsBranchCommit(next.commits, s.run.head) {
      WholeSurvivesMerge(repo, id, base, s.run.head);
    }
    assert PublicationHead(id) in repo.open;
  }

  lemma TidyKeepsInv(s: State, a: Action)
    requires Inv(s) && (a.Close? || a.DeleteBranch? || a.OpenTopic?)
    ensures Inv(MaintainerStep(s, a))
  {
    var next := MaintainerStep(s, a).repo;
    assert next.commits == s.repo.commits + [];
    SameMainIsSameBelow(s.repo.commits, [], s.repo.main);
    SameBelowStaysWhole(s, next, []);
    UpkeepKeepsInv(s, next, []);
  }

  // ----- the publisher

  lemma BeginKeepsInv(s: State, record: Record)
    requires Inv(s)
    ensures Inv(PublisherStep(s, Begin(record)))
  {
    if s.run.Quiet? && PathOf(record) !in TreeAt(s.repo.commits, s.repo.main) {
      forall id | id in s.repo.branches
        ensures IsAncestor(s.repo.commits, BaseOf(s.repo.commits, s.repo.branches[id]), s.repo.main)
      {
        assert IsGoodBranch(s.repo, id);
      }
    }
  }

  /** A commit of main below a publication branch is below the branch's base. */
  lemma MainlineIsBelowBase(h: History, origin: nat, c: nat)
    requires IsGoodHistory(h) && IsMainline(h, origin) && IsBranchCommit(h, c) && IsAncestor(h, origin, c)
    ensures IsAncestor(h, origin, BaseOf(h, c))
  {
    assert IsGoodCommit(h, c);
    var k := h[c].parents[0];
    assert IsAncestor(h, origin, k);
    if h[c].subject.AdvanceFeed? {
      assert IsGoodCommit(h, k);
      assert IsAncestor(h, origin, h[k].parents[0]);
    }
  }

  /** The files of a publication branch, relative to the commit it was started on. */
  lemma BranchFiles(h: History, c: nat)
    requires IsGoodHistory(h) && IsBranchCommit(h, c)
    ensures IsAncestor(h, BaseOf(h, c), c)
    ensures
      var record := h[c].subject.record;
      var t, u := h[BaseOf(h, c)].tree, h[c].tree;
      && PathOf(record) !in t
      && At(u, PathOf(record)) == Some(RecordFile(record))
      && (forall p :: p != PathOf(record) && p != FeedPath(record.distribution) ==> At(u, p) == At(t, p))
  {
    assert IsGoodCommit(h, c);
    var k := h[c].parents[0];
    assert IsGoodCommit(h, k);
    assert IsAncestor(h, BaseOf(h, c), BaseOf(h, c));
    ParentIsAncestor(h, BaseOf(h, c), if h[c].subject.PublishRecord? then c else k, 0);
  }

  lemma BranchStartsAtOrigin(h: History, origin: nat, c: nat)
    requires IsGoodHistory(h) && IsMainline(h, origin) && IsBranchCommit(h, c)
    requires IsAncestor(h, origin, c) && IsAncestor(h, BaseOf(h, c), origin)
    ensures BaseOf(h, c) == origin
  {
    MainlineIsBelowBase(h, origin, c);
    AncestorIsOlder(h, origin, BaseOf(h, c));
    AncestorIsOlder(h, BaseOf(h, c), origin);
  }

  lemma BranchChangesItsRecord(h: History, c: nat)
    requires IsGoodHistory(h) && IsBranchCommit(h, c)
    ensures PathOf(h[c].subject.record) in ChangedPaths(TreeAt(h, BaseOf(h, c)), TreeAt(h, c))
  {
    BranchFiles(h, c);
  }

  /** The checks of the survey leave only this record's own branch, started on the fetched main. */
  lemma CheckoutFindsOwnBranch(repo: Repo, record: Record, origin: nat)
    requires IsGoodRepo(repo) && IsMainline(repo.commits, origin)
    requires record.releaseId in repo.branches
    requires IsAncestor(repo.commits, BaseOf(repo.commits, repo.branches[record.releaseId]), origin)
    requires Checkout(repo, record, origin).Ok?
    ensures IsGoodHead(repo.commits, Surveyed, record, origin, repo.branches[record.releaseId])
  {
    var c := repo.branches[record.releaseId];
    assert IsGoodBranch(repo, record.releaseId);
    BranchStartsAtOrigin(repo.commits, origin, c);
    BranchChangesItsRecord(repo.commits, c);
  }

  lemma SurveyKeepsInv(s: State)
    requires Inv(s)
    ensures Inv(PublisherStep(s, Survey))
  {
    if s.run.Fetched? {
      var record, origin := s.run.record, s.run.origin;
      var checkout := Checkout(s.repo, record, origin);
      if checkout.Ok? {
        if record.releaseId in s.repo.branches {
          CheckoutFindsOwnBranch(s.repo, record, origin);
        }
        assert Listing(s.repo.open) == s.repo.open;
        forall p | p in s.repo.open && p.PublicationHead?
          ensures p.releaseId == record.releaseId && checkout.value.requested
        {
        }
      }
    }
  }

  /** A push of a publication commit to a branch without an open request keeps the repository good. */
  lemma PushKeepsRepo(repo: Repo, id: string, commit: Commit)
    requires IsGoodRepo(repo) && IsGoodHistory(repo.commits + [commit])
    requires Push(repo, id, commit).Ok?
    requires IsBranchCommit(repo.commits + [commit], |repo.commits|) && commit.subject.record.releaseId == id
    requires IsAncestor(repo.commits, BaseOf(repo.commits + [commit], |repo.commits|), repo.main)
    requires IsWhole(repo.commits + [commit], repo.main, |repo.commits|)
    requires PublicationHead(id) !in repo.open
    ensures IsGoodRepo(Push(repo, id, commit).value)
  {
    var next := Push(repo, id, commit).value;
    var c := |repo.commits|;
    SameMainIsSameBelow(repo.commits, [commit], repo.main);
    AncestryIsStable(repo.commits, [commit], repo.main, repo.main);
    AncestryIsStable(repo.commits, [commit], BaseOf(next.commits, c), repo.main);
    PresentableIsStable(repo.commits, [commit], repo.main);
    forall i | i in next.branches ensures IsGoodBranch(next, i) {
      if i != id {
        assert IsGoodBranch(repo, i);
        WholeSurvives(repo.commits, [commit], repo.main, repo.main, repo.branches[i]);
        BranchSurvives(repo, next, [commit], i);
      }
    }
    forall p | p in next.open && p.PublicationHead? ensures IsGoodRequest(next, p.releaseId) {
      assert IsGoodRequest(repo, p.releaseId);
      RequestSurvives(repo, next, [commit], p.releaseId);
    }
  }

  /** A new publication commit is not on main, and neither is the record commit it stands on. */
  lemma NewCommitIsWhole(h: History, commit: Commit, main: nat)
    requires IsGoodHistory(h) && IsGoodHistory(h + [commit]) && main < |h| && IsBranchCommit(h + [commit], |h|)
    requires commit.subject.AdvanceFeed? ==>
      RecordCommitOf(h + [commit], |h|) < |h| && !IsAncestor(h, RecordCommitOf(h + [commit], |h|), main)
    ensures IsWhole(h + [commit], main, |h|)
  {
    var k := RecordCommitOf(h + [commit], |h|);
    AncestryIsStable(h, [commit], k, main);
    if IsAncestor(h, k, main) {
      AncestorIsOlder(h, k, main);
    }
  }

  lemma RecordPushKeepsInv(s: State)
    requires Inv(s)
    ensures Inv(PublisherStep(s, PushRecord))
  {
    if s.run.Working? && s.run.stage.Surveyed? && WriteRecord(s.repo, s.run.record, s.run.head).Ok? {
      var repo, record, origin, head := s.repo, s.run.record, s.run.origin, s.run.head;
      if head == origin {
        var commit := Commit([head], repo.commits[head].tree[PathOf(record) := RecordFile(record)],
          CommitGraph.PublishRecord(record));
        RecordKeepsHistory(repo.commits, head, record);
        NoRequestOnMainlineHead(s);
        NewCommitIsWhole(repo.commits, commit, repo.main);
        PushKeepsRepo(repo, record.releaseId, commit);
        var next := PublisherStep(s, PushRecord).repo;
        assert next == Push(repo, record.releaseId, commit).value;
        AncestryIsStable(repo.commits, [commit], repo.main, repo.main);
        OriginSurvives(repo, next, [commit], record, origin);
      } else {
        BranchFiles(repo.commits, head);
      }
    }
  }

  lemma NoRequestOnMainlineHead(s: State)
    requires Inv(s) && s.run.Working? && !(IsBranchCommit(s.repo.commits, s.run.head)
      && s.repo.commits[s.run.head].subject.AdvanceFeed?)
    ensures PublicationHead(s.run.record.releaseId) !in s.repo.open
  {
    var p := PublicationHead(s.run.record.releaseId);
    assert p in s.repo.open && p.PublicationHead? ==> IsGoodRequest(s.repo, p.releaseId);
  }

  /** The log finds the record commit of the branch. */
  lemma LogFindsRecordCommit(h: History, c: nat)
    requires IsGoodHistory(h) && IsBranchCommit(h, c)
    ensures LastTouch(h, c, PathOf(h[c].subject.record)) == RecordCommitOf(h, c)
  {
    if h[c].subject.AdvanceFeed? {
      assert IsGoodCommit(h, c);
      LogSkipsOnlyParent(h, c, PathOf(h[c].subject.record));
    }
    LogStopsAtRecord(h, RecordCommitOf(h, c));
  }

  lemma LogStopsAtRecord(h: History, k: nat)
    requires IsGoodHistory(h) && k < |h| && h[k].subject.PublishRecord?
    ensures LastTouch(h, k, PathOf(h[k].subject.record)) == k
  {
    assert IsGoodCommit(h, k);
    LogStopsAtChange(h, k, PathOf(h[k].subject.record));
  }

  lemma LogStopsAtChange(h: History, c: nat, p: Path)
    requires c < |h| && |h[c].parents| == 1 && !SameAtParent(h, c, 0, p)
    ensures LastTouch(h, c, p) == c
  {
  }

  lemma LogSkipsOnlyParent(h: History, c: nat, p: Path)
    requires c < |h| && |h[c].parents| == 1 && SameAtParent(h, c, 0, p)
    ensures LastTouch(h, c, p) == LastTouch(h, h[c].parents[0], p)
  {
    assert FirstSame(h, c, 0, p) == 0;
  }

  /** On a head that already advanced the feed, the same request has nothing to write. */
  lemma AdvancedFeedIsStable(repo: Repo, record: Record, head: nat)
    requires IsGoodHistory(repo.commits) && IsBranchCommit(repo.commits, head)
    requires repo.commits[head].subject == AdvanceFeed(record)
    ensures WriteFeed(repo, record, head) == Ok(Pushed(repo, head))
  {
    var h := repo.commits;
    assert IsGoodCommit(h, head);
    var k := h[head].parents[0];
    assert IsGoodCommit(h, k);
    LogFindsRecordCommit(h, head);
    var d := record.distribution;
    assert IsGoodFeed(h, k, d);
    AddReferenceIdempotent(At(h[k].tree, FeedPath(d)).value.feed, record, k, Sha256(RecordFile(record)));
  }

  /** On a record commit, writing the feed pins that commit. */
  lemma WriteFeedOnRecord(repo: Repo, record: Record, head: nat)
    requires IsGoodHistory(repo.commits) && IsBranchCommit(repo.commits, head)
    requires repo.commits[head].subject == CommitGraph.PublishRecord(record)
    ensures
      var d := record.distribution;
      var tree := repo.commits[head].tree;
      var file := At(tree, FeedPath(d));
      && file.Some? && file.value.FeedFile?
      && var updated := AddReference(file.value.feed, record, head, Sha256(RecordFile(record)));
      WriteFeed(repo, record, head) ==
        if updated.Err? then Err(FeedRefused(updated.error))
        else
          match Push(repo, record.releaseId, Commit([head], tree[FeedPath(d) := FeedFile(updated.value)],
              AdvanceFeed(record)))
          case Err(e) => Err(e)
          case Ok(next) => Ok(Pushed(next, |repo.commits|))
  {
    var h := repo.commits;
    assert IsGoodCommit(h, head);
    LogFindsRecordCommit(h, head);
    var d := record.distribution;
    assert IsGoodFeed(h, head, d);
    var feed := At(h[head].tree, FeedPath(d)).value.feed;
    var updated := AddReference(feed, record, head, Sha256(RecordFile(record)));
    if updated.Ok? {
      AdvancedFeedIsWellKept(h, head, updated.value);
    }
  }

  lemma FeedPushKeepsInv(s: State)
    requires Inv(s)
    ensures Inv(PublisherStep(s, PushFeed))
  {
    if s.run.Working? && s.run.stage.RecordPushed? && WriteFeed(s.repo, s.run.record, s.run.head).Ok? {
      var repo, record, origin, head := s.repo, s.run.record, s.run.origin, s.run.head;
      if repo.commits[head].subject.AdvanceFeed? {
        AdvancedFeedIsStable(repo, record, head);
      } else {
        WriteFeedOnRecord(repo, record, head);
        var d := record.distribution;
        var tree := repo.commits[head].tree;
        var updated := AddReference(At(tree, FeedPath(d)).value.feed, record, head, Sha256(RecordFile(record))).value;
        var commit := Commit([head], tree[FeedPath(d) := FeedFile(updated)], AdvanceFeed(record));
        FeedKeepsHistory(repo.commits, head, updated);
        NoRequestOnMainlineHead(s);
        assert BaseOf(repo.commits + [commit], |repo.commits|) == origin;
        NewCommitIsWhole(repo.commits, commit, repo.main);
        PushKeepsRepo(repo, record.releaseId, commit);
        var next := Push(repo, record.releaseId, commit).value;
        AncestryIsStable(repo.commits, [commit], repo.main, repo.main);
        OriginSurvives(repo, next, [commit], record, origin);
        assert PublisherStep(s, PushFeed) == State(next, s.run.(stage := FeedPushed, head := |repo.commits|));
      }
    }
  }

  /** The proposed head references every record it holds. */
  lemma AdvancedHeadIsPresentable(h: History, c: nat)
    requires IsGoodHistory(h) && IsBranchCommit(h, c) && h[c].subject.AdvanceFeed?
    requires IsPresentable(h, BaseOf(h, c)) && IsVerified(h, c, h[c].tree)
    ensures IsPresentable(h, c)
  {
    assert IsGoodCommit(h, c);
    var k := h[c].parents[0];
    var record := h[c].subject.record;
    assert IsGoodCommit(h, k);
    var base := BaseOf(h, c);
    BranchFiles(h, c);
    var updated := At(h[c].tree, FeedPath(record.distribution)).value.feed;
    AdvancedFeedIsWellKept(h, k, updated);
    var r := ReferenceTo(record, k, Sha256(RecordFile(record)));
    DescentPreserves(h, base, c);
    assert r in Releases(h[c].tree, record.distribution);
    forall p | p in h[c].tree && p.RecordPath? ensures IsReferenced(h[c].tree, p) {
      if p != PathOf(record) {
        assert At(h[c].tree, p) == At(h[base].tree, p);
        assert IsReferenced(h[base].tree, p);
      }
    }
    forall d, x | x in Releases(h[c].tree, d) && x.url.Pinned? ensures IsPlainPath(x.url.path) {
      assert IsReadableFeed(h, c, h[c].tree, d);
      assert IsReadable(h, c, d, x);
    }
  }

  lemma RequestKeepsInv(s: State)
    requires Inv(s)
    ensures Inv(PublisherStep(s, Request))
  {
    if s.run.Working? && s.run.stage.FeedPushed? {
      var repo, record, head := s.repo, s.run.record, s.run.head;
      if OpenRequest(repo, record, head, s.run.requested).Ok? && !s.run.requested {
        OpenedRequestKeepsRepo(s);
      }
    }
  }

  lemma OpenedRequestKeepsRepo(s: State)
    requires Inv(s) && s.run.Working? && s.run.stage.FeedPushed? && !s.run.requested
    requires OpenRequest(s.repo, s.run.record, s.run.head, false).Ok?
    ensures IsGoodRepo(OpenRequest(s.repo, s.run.record, s.run.head, false).value)
  {
    var repo, id := s.repo, s.run.record.releaseId;
    AdvancedHeadIsPresentable(repo.commits, s.run.head);
    var next := repo.(open := repo.open + [PublicationHead(id)]);
    assert IsGoodBranch(repo, id);
    assert IsGoodRequest(next, id);
    forall i | i in next.branches ensures IsGoodBranch(next, i) {
      assert IsGoodBranch(repo, i);
    }
    forall p | p in next.open && p.PublicationHead? ensures p == PublicationHead(id) {
      assert p in repo.open || p == PublicationHead(id);
    }
  }

  lemma CrashKeepsInv(s: State)
    requires Inv(s)
    ensures Inv(PublisherStep(s, Crash))
  {
  }

  // ----- whole runs

  lemma NextKeepsInv(s: State, a: Action)
    requires Inv(s)
    ensures Inv(Next(s, a))
  {
    match a
    case Begin(record) => BeginKeepsInv(s, record);
    case Survey => SurveyKeepsInv(s);
    case PushRecord => RecordPushKeepsInv(s);
    case PushFeed => FeedPushKeepsInv(s);
    case Request => RequestKeepsInv(s);
    case Crash => CrashKeepsInv(s);
    case Merge(id, base) => MergeKeepsInv(s, id, base);
    case Develop(tree) => DevelopKeepsInv(s, tree);
    case _ => TidyKeepsInv(s, a);
  }

  lemma {:induction false} ExecuteKeepsInv(s: State, actions: seq<Action>)
    requires Inv(s)
    ensures Inv(Execute(s, actions))
    decreases |actions|
  {
    if actions == [] {
    } else {
      NextKeepsInv(s, actions[0]);
      ExecuteKeepsInv(Next(s, actions[0]), actions[1..]);
    }
  }
}
