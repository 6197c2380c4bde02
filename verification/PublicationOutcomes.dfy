/** When a publisher run succeeds, and what a rerun after the request reports. */
module PublicationOutcomes {
  import opened Results
  import opened RuntimeRecords
  import opened Feeds
  import opened CommitGraph
  import opened Publication
  import opened PublicationSafety
  import opened PublicationRuns
  import opened PublicationTheorems
  import opened PublicationReruns
  import opened PublicationSamples

  predicate IsPending(s: State) {
    s.run.Quiet? && s.run.last.Some? && s.run.last.value.PendingMerge?
  }

  // ----- what a run needs

  /** The listing of open requests is not full and shows no other publication. */
  ghost predicate IsUncontested(repo: Repo, record: Record) {
    && |repo.open| < 1000
    && forall p :: p in repo.open && p.PublicationHead? ==> p.releaseId == record.releaseId
  }

  /** There is no branch of this release id, or it holds this very record on the current main. */
  ghost predicate OwnsBranch(repo: Repo, record: Record)
    requires IsGoodRepo(repo)
  {
    record.releaseId in repo.branches ==>
      var c := repo.branches[record.releaseId];
      && IsBranchCommit(repo.commits, c)
      && repo.commits[c].subject.record == record && BaseOf(repo.commits, c) == repo.main
  }

  /** The feed of main has room, unless the branch has advanced it already. */
  ghost predicate HasRoom(repo: Repo, record: Record) {
    || |Releases(TreeAt(repo.commits, repo.main), record.distribution)| < 100
    || (record.releaseId in repo.branches && repo.branches[record.releaseId] < |repo.commits|
        && repo.commits[repo.branches[record.releaseId]].subject.AdvanceFeed?)
  }

  // ----- stage by stage

  /** Survey and record stage get through exactly for an uncontested record with its own branch. */
  lemma RecordStageSucceeds(repo: Repo, record: Record)
    requires IsGoodRepo(repo) && PathOf(record) !in TreeAt(repo.commits, repo.main)
    ensures After(repo, record, 3).run.Working? <==> IsUncontested(repo, record) && OwnsBranch(repo, record)
  {
    AfterSteps(repo, record, 0);
    AfterSteps(repo, record, 1);
    AfterSteps(repo, record, 2);
    assert After(repo, record, 1) == State(repo, Fetched(record, repo.main));
    if record.releaseId in repo.branches {
      KnownBranchIsChecked(repo, record);
    } else {
      NewBranchIsChecked(repo, record);
    }
  }

  lemma ListingIsWhole(repo: Repo, record: Record)
    ensures IsUncontested(repo, record) <==>
      && |Listing(repo.open)| < LISTING_LIMIT
      && !exists p :: p in Listing(repo.open) && p.PublicationHead? && p.releaseId != record.releaseId
  {
    if |repo.open| < LISTING_LIMIT {
      assert Listing(repo.open) == repo.open;
    }
  }

  lemma NewBranchIsChecked(repo: Repo, record: Record)
    requires IsGoodRepo(repo) && PathOf(record) !in TreeAt(repo.commits, repo.main)
    requires record.releaseId !in repo.branches
    ensures Checkout(repo, record, repo.main).Ok? <==> IsUncontested(repo, record)
    ensures Checkout(repo, record, repo.main).Ok? ==>
      WriteRecord(repo, record, Checkout(repo, record, repo.main).value.head).Ok?
  {
    ListingIsWhole(repo, record);
    assert ChangedPaths(TreeAt(repo.commits, repo.main), TreeAt(repo.commits, repo.main)) == {};
  }

  lemma KnownBranchIsChecked(repo: Repo, record: Record)
    requires IsGoodRepo(repo) && record.releaseId in repo.branches
    ensures
      var checkout := Checkout(repo, record, repo.main);
      (checkout.Ok? && WriteRecord(repo, record, checkout.value.head).Ok?) <==>
        IsUncontested(repo, record) && OwnsBranch(repo, record)
  {
    ListingIsWhole(repo, record);
    var h, c := repo.commits, repo.branches[record.releaseId];
    assert IsGoodBranch(repo, record.releaseId);
    BranchFiles(h, c);
    var checkout := Checkout(repo, record, repo.main);
    if checkout.Ok? {
      CheckoutFindsOwnBranch(repo, record, repo.main);
    }
    if OwnsBranch(repo, record) {
      assert ChangedPaths(TreeAt(h, repo.main), TreeAt(h, c)) <= {PathOf(record), FeedPath(record.distribution)};
    }
  }

  /** The feed stage gets through exactly if there is room. */
  lemma FeedStageSucceeds(s: State, record: Record)
    requires Inv(s) && IsUndisturbed(s, RecordPushed, record)
    ensures PublisherStep(s, PushFeed).run.Working? <==> HasRoom(s.repo, record)
  {
    var h, head := s.repo.commits, s.run.head;
    if h[head].subject.AdvanceFeed? {
      AdvancedFeedIsStable(s.repo, record, head);
    } else {
      WriteFeedOnRecord(s.repo, record, head);
      RoomIsExact(h, head, record);
      var feed := At(h[head].tree, FeedPath(record.distribution)).value.feed;
      var updated := AddReference(feed, record, head, Sha256(RecordFile(record)));
      if updated.Ok? {
        var commit := Commit([head], h[head].tree[FeedPath(record.distribution) := FeedFile(updated.value)],
          AdvanceFeed(record));
        AncestryIsStable(h, [commit], head, head);
        ParentIsAncestor(h + [commit], head, |h|, 0);
      }
    }
  }

  /** A record commit's reference fits exactly if main's feed is not full. */
  lemma RoomIsExact(h: History, k: nat, record: Record)
    requires IsGoodHistory(h) && k < |h| && h[k].subject == CommitGraph.PublishRecord(record)
    ensures
      var file := At(h[k].tree, FeedPath(record.distribution));
      && file.Some? && file.value.FeedFile?
      && (AddReference(file.value.feed, record, k, Sha256(RecordFile(record))).Ok? <==>
            |Releases(h[BaseOf(h, k)].tree, record.distribution)| < FEED_CAPACITY)
  {
    assert IsGoodCommit(h, k);
    assert IsGoodFeed(h, k, record.distribution);
    var feed := At(h[k].tree, FeedPath(record.distribution)).value.feed;
    var r := ReferenceTo(record, k, Sha256(RecordFile(record)));
    forall x | x in feed.releases ensures x != r {
      FeedDoesNotKnowRecord(h, k, x);
    }
    WithoutAbsent(feed.releases, r);
    assert At(h[k].tree, FeedPath(record.distribution)) == At(h[BaseOf(h, k)].tree, FeedPath(record.distribution));
  }

  /** The request stage gets through exactly if the names are plain. */
  lemma RequestStageSucceeds(s: State, record: Record)
    requires Inv(s) && IsUndisturbed(s, FeedPushed, record)
    ensures IsPending(PublisherStep(s, Request)) <==> IsPlainPath(PathOf(record))
  {
    var h, head := s.repo.commits, s.run.head;
    AdvancedHeadVerifies(h, head);
    BranchFiles(h, head);
    if IsAncestor(h, head, s.repo.main) {
      DescentPreserves(h, head, s.repo.main);
    }
  }

  /** A run for a record whose path is not on main ends with a pending merge exactly if the listing is
      below its limit and shows no other publication, a branch of the id holds this very record on the
      current main, the feed has room, and the names are plain. */
  lemma RunSucceedsExactly(repo: Repo, record: Record)
    requires IsGoodRepo(repo) && PathOf(record) !in TreeAt(repo.commits, repo.main)
    ensures IsPending(Finish(repo, record)) <==>
      && IsUncontested(repo, record) && OwnsBranch(repo, record)
      && HasRoom(repo, record) && IsPlainPath(PathOf(record))
  {
    RecordStageSucceeds(repo, record);
    AfterSteps(repo, record, 3);
    AfterSteps(repo, record, 4);
    RunIsUndisturbed(repo, record, 3);
    RunIsUndisturbed(repo, record, 4);
    QuietRunIsNotPending(repo, record, 3);
    QuietRunIsNotPending(repo, record, 4);
    var s := After(repo, record, 3);
    if s.run.Working? {
      AfterKeepsInv(repo, record, 3);
      AfterKeepsInv(repo, record, 4);
      FeedStageSucceeds(s, record);
      RecordKeepsRoom(repo, record);
      if After(repo, record, 4).run.Working? {
        RequestStageSucceeds(After(repo, record, 4), record);
      }
    }
  }

  /** The record stage changes nothing about the room in the feed. */
  lemma RecordKeepsRoom(repo: Repo, record: Record)
    requires IsGoodRepo(repo) && After(repo, record, 3).run.Working?
    ensures HasRoom(After(repo, record, 3).repo, record) <==> HasRoom(repo, record)
  {
    AfterSteps(repo, record, 2);
    RunIsUndisturbed(repo, record, 2);
    AfterKeepsInv(repo, record, 2);
    SurveyChangesNothing(repo, record);
    WriteKeepsRoom(After(repo, record, 2), record);
  }

  lemma SurveyChangesNothing(repo: Repo, record: Record)
    ensures After(repo, record, 2).repo == repo
  {
    AfterSteps(repo, record, 0);
    AfterSteps(repo, record, 1);
  }

  lemma WriteKeepsRoom(s: State, record: Record)
    requires Inv(s) && IsUndisturbed(s, Surveyed, record) && WriteRecord(s.repo, record, s.run.head).Ok?
    ensures HasRoom(WriteRecord(s.repo, record, s.run.head).value.repo, record) <==> HasRoom(s.repo, record)
  {
    if record.releaseId in s.repo.branches {
      assert IsGoodBranch(s.repo, record.releaseId);
      BranchFiles(s.repo.commits, s.run.head);
    }
  }

  // ----- which error a run reports

  /** The first thing in the way of a run whose path is not on main. */
  ghost function Obstacle(repo: Repo, record: Record): Option<PublishError>
    requires IsGoodRepo(repo)
  {
    if |repo.open| >= 1000 then Some(ListingCapped)
    else if exists p :: p in repo.open && p.PublicationHead? && p.releaseId != record.releaseId then Some(OtherPending)
    else if HasStaleBranch(repo, record) then Some(StaleBranch)
    else if HoldsOther(repo, record) && PathOf(BranchRecord(repo, record.releaseId)) != PathOf(record) then
      Some(ForeignChanges)
    else if HoldsOther(repo, record) then Some(DifferentBytes)
    else if !HasRoom(repo, record) then Some(FeedRefused(NeedsRetentionReview))
    else if !IsPlainPath(PathOf(record)) then Some(VerificationFailed)
    else None
  }

  ghost function BranchRecord(repo: Repo, id: string): Record
    requires IsGoodRepo(repo) && id in repo.branches
  {
    assert IsGoodBranch(repo, id);
    repo.commits[repo.branches[id]].subject.record
  }

  ghost predicate HasStaleBranch(repo: Repo, record: Record)
    requires IsGoodRepo(repo)
  {
    record.releaseId in repo.branches &&
    (assert IsGoodBranch(repo, record.releaseId);
     BaseOf(repo.commits, repo.branches[record.releaseId]) != repo.main)
  }

  ghost predicate HoldsOther(repo: Repo, record: Record)
    requires IsGoodRepo(repo)
  {
    record.releaseId in repo.branches && BranchRecord(repo, record.releaseId) != record
  }

  /** A run that does not end with a pending merge reports the first thing in its way. */
  lemma RunReportsObstacle(repo: Repo, record: Record)
    requires IsGoodRepo(repo) && PathOf(record) !in TreeAt(repo.commits, repo.main)
    ensures
      match Obstacle(repo, record)
      case Some(e) => Finish(repo, record).run == Quiet(Some(Failed(e)))
      case None => IsPending(Finish(repo, record))
  {
    RunSucceedsExactly(repo, record);
    RecordStageSucceeds(repo, record);
    if record.releaseId in repo.branches {
      assert IsGoodBranch(repo, record.releaseId);
    }
    if After(repo, record, 3).run.Working? {
      if !HasRoom(repo, record) {
        FeedObstacle(repo, record);
      } else if !IsPlainPath(PathOf(record)) {
        NameObstacle(repo, record);
      }
    } else {
      EarlyObstacle(repo, record);
    }
  }

  lemma EarlyObstacle(repo: Repo, record: Record)
    requires IsGoodRepo(repo) && PathOf(record) !in TreeAt(repo.commits, repo.main)
    requires !After(repo, record, 3).run.Working? && Obstacle(repo, record).Some?
    ensures Finish(repo, record).run == Quiet(Some(Failed(Obstacle(repo, record).value)))
  {
    FinishIsStaged(repo, record);
    RecordStageSucceeds(repo, record);
    ListingIsWhole(repo, record);
    if |repo.open| < 1000 {
      assert Listing(repo.open) == repo.open;
    }
    if IsUncontested(repo, record) {
      assert record.releaseId in repo.branches;
      BranchObstacle(repo, record);
    }
  }

  lemma BranchObstacle(repo: Repo, record: Record)
    requires IsGoodRepo(repo) && IsUncontested(repo, record) && record.releaseId in repo.branches
    requires HasStaleBranch(repo, record) || HoldsOther(repo, record)
    ensures
      var checkout := Checkout(repo, record, repo.main);
      if HasStaleBranch(repo, record) then checkout == Err(StaleBranch)
      else if PathOf(BranchRecord(repo, record.releaseId)) != PathOf(record) then checkout == Err(ForeignChanges)
      else checkout.Ok? && WriteRecord(repo, record, checkout.value.head) == Err(DifferentBytes)
  {
    var h, c := repo.commits, repo.branches[record.releaseId];
    assert IsGoodBranch(repo, record.releaseId);
    assert Listing(repo.open) == repo.open;
    BranchFiles(h, c);
    if HasStaleBranch(repo, record) {
      if IsAncestor(h, repo.main, c) {
        BranchStartsAtOrigin(h, repo.main, c);
      }
    } else {
      BranchChangesItsRecord(h, c);
      assert ChangedPaths(TreeAt(h, repo.main), TreeAt(h, c))
        <= {PathOf(h[c].subject.record), FeedPath(h[c].subject.record.distribution)};
    }
  }

  lemma FeedObstacle(repo: Repo, record: Record)
    requires IsGoodRepo(repo) && After(repo, record, 3).run.Working? && !HasRoom(repo, record)
    ensures Finish(repo, record).run == Quiet(Some(Failed(FeedRefused(NeedsRetentionReview))))
  {
    AfterSteps(repo, record, 3);
    RunIsUndisturbed(repo, record, 3);
    AfterKeepsInv(repo, record, 3);
    RecordKeepsRoom(repo, record);
    FeedStageFails(After(repo, record, 3), record);
    QuietStaysQuiet(repo, record, 4, 5);
    AfterSteps(repo, record, 4);
  }

  lemma NameObstacle(repo: Repo, record: Record)
    requires IsGoodRepo(repo) && After(repo, record, 3).run.Working?
    requires HasRoom(repo, record) && !IsPlainPath(PathOf(record))
    ensures Finish(repo, record).run == Quiet(Some(Failed(VerificationFailed)))
  {
    AfterSteps(repo, record, 3);
    RunIsUndisturbed(repo, record, 3);
    AfterKeepsInv(repo, record, 3);
    RecordKeepsRoom(repo, record);
    FeedStageSucceeds(After(repo, record, 3), record);
    RunIsUndisturbed(repo, record, 4);
    AfterKeepsInv(repo, record, 4);
    RequestStageFails(After(repo, record, 4), record);
    AfterSteps(repo, record, 4);
  }

  lemma FeedStageFails(s: State, record: Record)
    requires Inv(s) && IsUndisturbed(s, RecordPushed, record) && !HasRoom(s.repo, record)
    ensures PublisherStep(s, PushFeed) == s.(run := Quiet(Some(Failed(FeedRefused(NeedsRetentionReview)))))
  {
    WriteFeedOnRecord(s.repo, record, s.run.head);
    RoomIsExact(s.repo.commits, s.run.head, record);
    assert IsGoodCommit(s.repo.commits, s.run.head);
    assert IsGoodFeed(s.repo.commits, s.run.head, record.distribution);
  }

  lemma RequestStageFails(s: State, record: Record)
    requires Inv(s) && IsUndisturbed(s, FeedPushed, record)
    ensures !IsPlainPath(PathOf(record)) ==>
      PublisherStep(s, Request) == s.(run := Quiet(Some(Failed(VerificationFailed))))
  {
    AdvancedHeadVerifies(s.repo.commits, s.run.head);
  }

  // ----- a full listing, once

  /** Topic names of different lengths. */
  function Name(i: nat): string {
    seq(i, _ => 'x')
  }

  function Topics(n: nat): seq<Action> {
    seq(n, i requires 0 <= i < n => OpenTopic(Name(i)))
  }

  function TopicHeads(n: nat): seq<PullHead> {
    seq(n, i requires 0 <= i < n => TopicHead(Name(i)))
  }

  function WithTopics(n: nat): State {
    FIRST.(repo := FIRST.repo.(open := TopicHeads(n)))
  }

  lemma {:induction false} TopicsOpen(n: nat)
    ensures Execute(FIRST, Topics(n)) == WithTopics(n)
  {
    if n == 0 {
      assert TopicHeads(0) == [];
    } else {
      TopicsOpen(n - 1);
      assert Topics(n) == Topics(n - 1) + [OpenTopic(Name(n - 1))];
      ExecuteComposes(FIRST, Topics(n - 1), [OpenTopic(Name(n - 1))]);
      ExecuteOne(WithTopics(n - 1), OpenTopic(Name(n - 1)));
      assert |Name(n - 1)| == n - 1 && forall i :: 0 <= i < n - 1 ==> |Name(i)| == i;
      assert TopicHead(Name(n - 1)) !in TopicHeads(n - 1);
      assert TopicHeads(n - 1) + [TopicHead(Name(n - 1))] == TopicHeads(n);
    }
  }

  /** A successful run whose request fills the listing cannot be repeated. */
  lemma FillingRunFailsAgain(repo: Repo, record: Record)
    requires IsGoodRepo(repo) && |repo.open| == LISTING_LIMIT - 1 && PublicationHead(record.releaseId) !in repo.open
    requires IsPending(Finish(repo, record))
    ensures
      var next := Finish(repo, record).repo;
      Finish(next, record) == State(next, Quiet(Some(Failed(ListingCapped))))
  {
    RunOpensRequest(repo, record);
    CutAfterRequest(repo, record);
    AfterSteps(repo, record, 4);
  }

  /** On the first main a run succeeds beside any requests but publications, if they leave room. */
  lemma FirstRunSucceeds(open: seq<PullHead>)
    requires IsGoodRepo(FIRST.repo.(open := open))
    requires |open| < LISTING_LIMIT && forall p :: p in open ==> p.TopicHead?
    ensures IsPending(Finish(FIRST.repo.(open := open), Sample("b")))
  {
    var repo := FIRST.repo.(open := open);
    SampleIsPlain("b");
    StartHasNoReferences(Pypi);
    assert TreeAt(repo.commits, repo.main) == START;
    assert IsUncontested(repo, Sample("b")) && OwnsBranch(repo, Sample("b")) && HasRoom(repo, Sample("b"));
    RunSucceedsExactly(repo, Sample("b"));
  }

  /** With 999 other requests open a run succeeds, and the same run again fails over its own request. */
  lemma FullListingFailsRerun(n: nat)
    requires n + 1 == LISTING_LIMIT
    ensures IsInitial(FIRST)
    ensures
      var done := Finish(Execute(FIRST, Topics(n)).repo, Sample("b"));
      && IsPending(done)
      && Finish(done.repo, Sample("b")) == State(done.repo, Quiet(Some(Failed(ListingCapped))))
  {
    FirstIsInitial();
    TopicsOpen(n);
    ReachableIsGood(WithTopics(n));
    FirstRunSucceeds(TopicHeads(n));
    FillingRunFailsAgain(WithTopics(n).repo, Sample("b"));
  }

  /** A run that succeeds without a request of its own opens one. */
  lemma RunOpensRequest(repo: Repo, record: Record)
    requires IsGoodRepo(repo) && IsPending(Finish(repo, record)) && PublicationHead(record.releaseId) !in repo.open
    ensures After(repo, record, 4).run.Working?
    ensures Finish(repo, record).repo.open == repo.open + [PublicationHead(record.releaseId)]
  {
    AfterSteps(repo, record, 4);
    QuietRunIsNotPending(repo, record, 4);
    RunIsUndisturbed(repo, record, 4);
    OpenIsLeftAlone(repo, record, 4);
  }

  lemma OpenIsLeftAlone(repo: Repo, record: Record, n: nat)
    requires n <= 4
    ensures After(repo, record, n).repo.open == repo.open
    decreases n
  {
    AfterSteps(repo, record, if n == 0 then 0 else n - 1);
    if n > 0 {
      OpenIsLeftAlone(repo, record, n - 1);
    }
  }
}
