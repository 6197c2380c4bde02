/** A publisher run that is cut anywhere and started again ends where an uninterrupted run ends. */
module PublicationReruns {
  import opened Results
  import opened RuntimeRecords
  import opened Feeds
  import opened CommitGraph
  import opened Publication
  import opened PublicationSafety
  import opened PublicationRuns
  import opened PublicationTheorems

  /** The accesses of one publisher run, in order. */
  function Attempt(record: Record): (actions: seq<Action>)
    ensures |actions| == 5
  {
    [Begin(record), Survey, PushRecord, PushFeed, Request]
  }

  /** Where a run from a quiet state stands after its first `n` accesses. */
  function After(repo: Repo, record: Record, n: nat): State
    requires n <= 5
  {
    Execute(State(repo, Quiet(None)), Attempt(record)[..n])
  }

  function Finish(repo: Repo, record: Record): State {
    Execute(State(repo, Quiet(None)), Attempt(record))
  }

  // ----- the stages of an uninterrupted run, from the survey on

  function FromRequest(repo: Repo, record: Record, head: nat, requested: bool): State {
    match OpenRequest(repo, record, head, requested)
    case Err(e) => State(repo, Quiet(Some(Failed(e))))
    case Ok(next) =>
      var recordCommit := LastTouch(repo.commits, head, PathOf(record));
      State(next, Quiet(Some(PendingMerge(recordCommit, head, PathOf(record)))))
  }

  function FromFeed(repo: Repo, record: Record, head: nat, requested: bool): State {
    match WriteFeed(repo, record, head)
    case Err(e) => State(repo, Quiet(Some(Failed(e))))
    case Ok(p) => FromRequest(p.repo, record, p.head, requested)
  }

  function FromRecord(repo: Repo, record: Record, head: nat, requested: bool): State {
    match WriteRecord(repo, record, head)
    case Err(e) => State(repo, Quiet(Some(Failed(e))))
    case Ok(p) => FromFeed(p.repo, record, p.head, requested)
  }

  function FromSurvey(repo: Repo, record: Record): State {
    match Checkout(repo, record, repo.main)
    case Err(e) => State(repo, Quiet(Some(Failed(e))))
    case Ok(w) => FromRecord(repo, record, w.head, w.requested)
  }

  lemma AfterSteps(repo: Repo, record: Record, n: nat)
    requires n < 5
    ensures After(repo, record, 0) == State(repo, Quiet(None))
    ensures After(repo, record, n + 1) == PublisherStep(After(repo, record, n), Attempt(record)[n])
    ensures After(repo, record, 5) == Finish(repo, record)
  {
    ExecuteLast(State(repo, Quiet(None)), Attempt(record), n);
    assert Attempt(record)[..5] == Attempt(record);
    assert Attempt(record)[..0] == [];
  }

  lemma RequestIsStaged(s: State)
    requires s.run.Working? && s.run.stage.FeedPushed?
    ensures PublisherStep(s, Request) == FromRequest(s.repo, s.run.record, s.run.head, s.run.requested)
  {
  }

  lemma FeedIsStaged(s: State)
    requires s.run.Working? && s.run.stage.RecordPushed?
    ensures PublisherStep(PublisherStep(s, PushFeed), Request) ==
      FromFeed(s.repo, s.run.record, s.run.head, s.run.requested)
  {
    if WriteFeed(s.repo, s.run.record, s.run.head).Ok? {
      RequestIsStaged(PublisherStep(s, PushFeed));
    }
  }

  lemma RecordIsStaged(s: State)
    requires s.run.Working? && s.run.stage.Surveyed?
    ensures PublisherStep(PublisherStep(PublisherStep(s, PushRecord), PushFeed), Request) ==
      FromRecord(s.repo, s.run.record, s.run.head, s.run.requested)
  {
    if WriteRecord(s.repo, s.run.record, s.run.head).Ok? {
      FeedIsStaged(PublisherStep(s, PushRecord));
    }
  }

  /** The five steps are the nested stages. */
  lemma FinishIsStaged(repo: Repo, record: Record)
    requires PathOf(record) !in TreeAt(repo.commits, repo.main)
    ensures Finish(repo, record) == FromSurvey(repo, record)
  {
    AfterSteps(repo, record, 0);
    AfterSteps(repo, record, 1);
    AfterSteps(repo, record, 2);
    AfterSteps(repo, record, 3);
    AfterSteps(repo, record, 4);
    var surveyed := After(repo, record, 2);
    assert After(repo, record, 1) == State(repo, Fetched(record, repo.main));
    if Checkout(repo, record, repo.main).Ok? {
      RecordIsStaged(surveyed);
    }
  }

  // ----- starting again

  ghost predicate IsFree(repo: Repo, record: Record) {
    && PathOf(record) !in TreeAt(repo.commits, repo.main)
    && |repo.open| < LISTING_LIMIT
    && forall p :: p in repo.open && p.PublicationHead? ==> p.releaseId == record.releaseId
  }

  /** A second run over a branch that holds the record finds it and adds no record commit. */
  lemma SurveyAgain(repo: Repo, record: Record, head: nat)
    requires IsGoodRepo(repo) && IsFree(repo, record)
    requires record.releaseId in repo.branches && repo.branches[record.releaseId] == head
    requires IsGoodHead(repo.commits, RecordPushed, record, repo.main, head)
    ensures FromSurvey(repo, record) == FromFeed(repo, record, head, PublicationHead(record.releaseId) in repo.open)
  {
    BranchFiles(repo.commits, head);
    assert Listing(repo.open) == repo.open;
    assert ChangedPaths(TreeAt(repo.commits, repo.main), TreeAt(repo.commits, head))
      <= {PathOf(record), FeedPath(record.distribution)};
    assert Checkout(repo, record, repo.main) == Ok(Workspace(head, PublicationHead(record.releaseId) in repo.open));
    assert WriteRecord(repo, record, head) == Ok(Pushed(repo, head));
  }

  lemma AfterKeepsInv(repo: Repo, record: Record, n: nat)
    requires IsGoodRepo(repo) && n <= 5
    ensures Inv(After(repo, record, n))
  {
    ExecuteKeepsInv(State(repo, Quiet(None)), Attempt(record)[..n]);
  }

  /** A run on its way with the main it fetched, in a repository that nobody else touched. */
  ghost predicate IsUndisturbed(s: State, stage: Stage, record: Record) {
    && s.run.Working? && s.run.stage == stage && s.run.record == record
    && s.run.origin == s.repo.main
    && IsFree(s.repo, record)
    && s.run.requested == (PublicationHead(record.releaseId) in s.repo.open)
    && (record.releaseId in s.repo.branches || (stage.Surveyed? && s.run.head == s.run.origin))
    && (record.releaseId in s.repo.branches ==> s.repo.branches[record.releaseId] == s.run.head)
  }

  lemma SurveyStage(repo: Repo, record: Record)
    requires IsGoodRepo(repo)
    ensures
      var t := PublisherStep(PublisherStep(State(repo, Quiet(None)), Begin(record)), Survey);
      && t.repo == repo
      && !t.run.Fetched?
      && (t.run.Working? ==> IsUndisturbed(t, Surveyed, record))
  {
    if |repo.open| < LISTING_LIMIT {
      assert Listing(repo.open) == repo.open;
    }
  }

  lemma RecordStage(s: State, record: Record)
    requires s.repo.main < |s.repo.commits| && IsUndisturbed(s, Surveyed, record)
    ensures
      var t := PublisherStep(s, PushRecord);
      if t.run.Working? then IsUndisturbed(t, RecordPushed, record) else t.repo == s.repo && t.run.Quiet?
  {
  }

  lemma FeedStage(s: State, record: Record)
    requires s.repo.main < |s.repo.commits| && IsUndisturbed(s, RecordPushed, record)
    ensures
      var t := PublisherStep(s, PushFeed);
      if t.run.Working? then IsUndisturbed(t, FeedPushed, record) else t.repo == s.repo && t.run.Quiet?
  {
    var written := WriteFeed(s.repo, record, s.run.head);
    if written.Ok? {
      FeedWriteEffect(s.repo, record, s.run.head);
    }
  }

  lemma FeedWriteEffect(repo: Repo, record: Record, head: nat)
    requires WriteFeed(repo, record, head).Ok?
    ensures
      var p := WriteFeed(repo, record, head).value;
      || p == Pushed(repo, head)
      || (exists commit: Commit ::
            p == Pushed(repo.(commits := repo.commits + [commit],
                branches := repo.branches[record.releaseId := |repo.commits|]), |repo.commits|))
  {
  }

  lemma AfterHasMain(repo: Repo, record: Record, n: nat)
    requires IsGoodRepo(repo) && n <= 5
    ensures After(repo, record, n).repo.main < |After(repo, record, n).repo.commits|
  {
    AfterKeepsInv(repo, record, n);
  }

  /** Where an uninterrupted run stands after each access. */
  lemma RunIsUndisturbed(repo: Repo, record: Record, n: nat)
    requires IsGoodRepo(repo) && 2 <= n <= 4
    ensures
      var t := After(repo, record, n);
      && !t.run.Fetched?
      && (t.run.Working? ==> IsUndisturbed(t, [Surveyed, RecordPushed, FeedPushed][n - 2], record))
    decreases n
  {
    AfterSteps(repo, record, n - 1);
    if n == 2 {
      AfterSteps(repo, record, 0);
      SurveyStage(repo, record);
    } else {
      RunIsUndisturbed(repo, record, n - 1);
      AfterHasMain(repo, record, n - 1);
      var t := After(repo, record, n - 1);
      if t.run.Working? {
        if n == 3 { RecordStage(t, record); } else { FeedStage(t, record); }
      }
    }
  }

  /** A run over a branch that holds the record goes straight to the feed. */
  lemma RecordedRunResumes(s: State, record: Record)
    requires Inv(s) && IsUndisturbed(s, RecordPushed, record)
    ensures Finish(s.repo, record) == PublisherStep(PublisherStep(s, PushFeed), Request)
  {
    SurveyAgain(s.repo, record, s.run.head);
    FinishIsStaged(s.repo, record);
    FeedIsStaged(s);
  }

  /** A run over a finished branch goes straight to the request. */
  lemma FinishedBranchResumes(repo: Repo, record: Record, head: nat)
    requires IsGoodRepo(repo) && IsFree(repo, record)
    requires record.releaseId in repo.branches && repo.branches[record.releaseId] == head
    requires IsGoodHead(repo.commits, FeedPushed, record, repo.main, head)
    ensures FromSurvey(repo, record) == FromRequest(repo, record, head, PublicationHead(record.releaseId) in repo.open)
  {
    SurveyAgain(repo, record, head);
    AdvancedFeedIsStable(repo, record, head);
  }

  lemma AdvancedRunResumes(s: State, record: Record)
    requires IsGoodRepo(s.repo) && IsUndisturbed(s, FeedPushed, record)
    requires IsGoodHead(s.repo.commits, FeedPushed, record, s.repo.main, s.run.head)
    ensures Finish(s.repo, record) == PublisherStep(s, Request)
  {
    FinishedBranchResumes(s.repo, record, s.run.head);
    FinishIsStaged(s.repo, record);
    RequestIsStaged(s);
  }

  /** A run after the request was opened leaves it as it is, and reports the same unless the
      listing is now full. */
  lemma RequestedRunResumes(s: State, record: Record)
    requires Inv(s) && IsUndisturbed(s, FeedPushed, record)
    ensures
      var asked := PublisherStep(s, Request);
      && Finish(asked.repo, record).repo == asked.repo
      && (Finish(asked.repo, record) == asked <==> |asked.repo.open| < LISTING_LIMIT)
      && (|asked.repo.open| >= LISTING_LIMIT ==> Finish(asked.repo, record).run == Quiet(Some(Failed(ListingCapped))))
  {
    var asked := PublisherStep(s, Request);
    if asked.repo == s.repo {
      AdvancedRunResumes(s, record);
    } else {
      RequestKeepsInv(s);
      var again := State(asked.repo, s.run.(requested := true));
      if |asked.repo.open| < LISTING_LIMIT {
        AdvancedRunResumes(again, record);
      } else {
        FullListingFails(asked.repo, record);
      }
    }
  }

  lemma FullListingFails(repo: Repo, record: Record)
    requires PathOf(record) !in TreeAt(repo.commits, repo.main) && |repo.open| >= LISTING_LIMIT
    ensures Finish(repo, record) == State(repo, Quiet(Some(Failed(ListingCapped))))
  {
    FinishIsStaged(repo, record);
    assert |Listing(repo.open)| == LISTING_LIMIT;
  }

  lemma CutAfterRecord(repo: Repo, record: Record)
    requires IsGoodRepo(repo) && After(repo, record, 3).run.Working?
    ensures Finish(After(repo, record, 3).repo, record) == Finish(repo, record)
  {
    RunIsUndisturbed(repo, record, 3);
    AfterKeepsInv(repo, record, 3);
    RecordedRunResumes(After(repo, record, 3), record);
    AfterSteps(repo, record, 3);
    AfterSteps(repo, record, 4);
  }

  lemma CutAfterFeed(repo: Repo, record: Record)
    requires IsGoodRepo(repo) && After(repo, record, 4).run.Working?
    ensures Finish(After(repo, record, 4).repo, record) == Finish(repo, record)
  {
    RunIsUndisturbed(repo, record, 4);
    AfterKeepsInv(repo, record, 4);
    AdvancedRunResumes(After(repo, record, 4), record);
    AfterSteps(repo, record, 4);
  }

  /** A run after the request leaves the same repository, and also reports the same exactly if the
      listing is below its limit; a full one makes it fail. */
  lemma CutAfterRequest(repo: Repo, record: Record)
    requires IsGoodRepo(repo) && After(repo, record, 4).run.Working?
    ensures Finish(After(repo, record, 5).repo, record).repo == Finish(repo, record).repo
    ensures Finish(After(repo, record, 5).repo, record) == Finish(repo, record) <==>
      |Finish(repo, record).repo.open| < 1000
    ensures |Finish(repo, record).repo.open| >= 1000 ==>
      Finish(After(repo, record, 5).repo, record).run == Quiet(Some(Failed(ListingCapped)))
  {
    RunIsUndisturbed(repo, record, 4);
    AfterKeepsInv(repo, record, 4);
    RequestedRunResumes(After(repo, record, 4), record);
    AfterSteps(repo, record, 4);
  }

  /** An access that ends the run, or only reads, leaves the repository as it was. */
  lemma QuietStepWritesNothing(repo: Repo, record: Record, n: nat)
    requires IsGoodRepo(repo) && n < 5
    requires n < 2 || !After(repo, record, n + 1).run.Working?
    requires n == 4 ==> !After(repo, record, n).run.Working?
    ensures After(repo, record, n + 1).repo == After(repo, record, n).repo
  {
    AfterSteps(repo, record, n);
    if n >= 2 {
      RunIsUndisturbed(repo, record, n);
    }
  }

  /** Cutting a run anywhere and starting it again gives the repository of an uninterrupted run:
      the same record commit, the same feed commit, the same list of releases. */
  lemma RerunConverges(repo: Repo, record: Record, n: nat)
    requires IsGoodRepo(repo) && n <= 5
    ensures Finish(After(repo, record, n).repo, record).repo == Finish(repo, record).repo
    decreases n
  {
    if n == 0 {
      AfterSteps(repo, record, 0);
    } else if n == 3 && After(repo, record, 3).run.Working? {
      CutAfterRecord(repo, record);
    } else if n == 4 && After(repo, record, 4).run.Working? {
      CutAfterFeed(repo, record);
    } else if n == 5 && After(repo, record, 4).run.Working? {
      CutAfterRequest(repo, record);
    } else {
      RequestEndsRun(repo, record);
      QuietStepWritesNothing(repo, record, n - 1);
      RerunConverges(repo, record, n - 1);
    }
  }

  lemma RequestEndsRun(repo: Repo, record: Record)
    requires IsGoodRepo(repo)
    ensures !After(repo, record, 5).run.Working?
  {
    AfterSteps(repo, record, 4);
    RunIsUndisturbed(repo, record, 4);
  }

  /** The same for any number of cut runs before the one that finishes. */
  function CutRepeatedly(repo: Repo, record: Record, cuts: seq<nat>): Repo
    requires forall i :: 0 <= i < |cuts| ==> cuts[i] <= 5
    decreases |cuts|
  {
    if cuts == [] then repo else CutRepeatedly(After(repo, record, cuts[0]).repo, record, cuts[1..])
  }

  lemma {:induction false} RerunsConverge(repo: Repo, record: Record, cuts: seq<nat>)
    requires IsGoodRepo(repo) && forall i :: 0 <= i < |cuts| ==> cuts[i] <= 5
    ensures Finish(CutRepeatedly(repo, record, cuts), record).repo == Finish(repo, record).repo
    decreases |cuts|
  {
    if cuts == [] {
    } else {
      AfterKeepsInv(repo, record, cuts[0]);
      RerunsConverge(After(repo, record, cuts[0]).repo, record, cuts[1..]);
      RerunConverges(repo, record, cuts[0]);
    }
  }

  // ----- what one whole run leaves behind

  /** At most one new commit with this subject, pushed to the record's own branch. */
  ghost predicate IsOwnPush(repo: Repo, next: Repo, record: Record, subject: Subject) {
    || next == repo
    || (exists commit: Commit :: commit.subject == subject &&
          next == repo.(commits := repo.commits + [commit],
              branches := repo.branches[record.releaseId := |repo.commits|]))
  }

  ghost predicate IsOwnRequest(repo: Repo, next: Repo, record: Record) {
    next == repo || next == repo.(open := repo.open + [PublicationHead(record.releaseId)])
  }

  lemma RecordWriteIsOwnPush(repo: Repo, record: Record, head: nat)
    requires WriteRecord(repo, record, head).Ok?
    ensures IsOwnPush(repo, WriteRecord(repo, record, head).value.repo, record, CommitGraph.PublishRecord(record))
  {
  }

  lemma FeedWriteIsOwnPush(repo: Repo, record: Record, head: nat)
    requires WriteFeed(repo, record, head).Ok?
    ensures IsOwnPush(repo, WriteFeed(repo, record, head).value.repo, record, AdvanceFeed(record))
  {
  }

  /** A whole run leaves at most one record commit, then at most one feed commit, both on its own
      branch, and at most its own request; it touches nothing else. */
  lemma WholeRunIsOwnWork(repo: Repo, record: Record) returns (recorded: Repo, advanced: Repo)
    ensures IsOwnPush(repo, recorded, record, CommitGraph.PublishRecord(record))
    ensures IsOwnPush(recorded, advanced, record, AdvanceFeed(record))
    ensures IsOwnRequest(advanced, Finish(repo, record).repo, record)
  {
    recorded, advanced := repo, repo;
    if PathOf(record) in TreeAt(repo.commits, repo.main) {
      RunOnMainWritesNothing(repo, record);
      return;
    }
    FinishIsStaged(repo, record);
    var checkout := Checkout(repo, record, repo.main);
    if checkout.Err? { return; }
    var written := WriteRecord(repo, record, checkout.value.head);
    if written.Err? { return; }
    RecordWriteIsOwnPush(repo, record, checkout.value.head);
    recorded := written.value.repo;
    advanced := FeedAndRequestAreOwnWork(recorded, record, written.value.head, checkout.value.requested);
  }

  lemma FeedAndRequestAreOwnWork(repo: Repo, record: Record, head: nat, requested: bool) returns (advanced: Repo)
    ensures IsOwnPush(repo, advanced, record, AdvanceFeed(record))
    ensures IsOwnRequest(advanced, FromFeed(repo, record, head, requested).repo, record)
  {
    advanced := repo;
    var fed := WriteFeed(repo, record, head);
    if fed.Err? { return; }
    FeedWriteIsOwnPush(repo, record, head);
    advanced := fed.value.repo;
  }

  /** Once the path is on main every further run only reports. */
  lemma RunOnMainWritesNothing(repo: Repo, record: Record)
    requires PathOf(record) in TreeAt(repo.commits, repo.main)
    ensures Finish(repo, record) == State(repo, Quiet(Some(AlreadyOnMain(repo, record))))
  {
    AfterSteps(repo, record, 0);
    AfterSteps(repo, record, 1);
    AfterSteps(repo, record, 2);
    AfterSteps(repo, record, 3);
    AfterSteps(repo, record, 4);
  }

  /** The proposed feed is the one of the record commit with the record's time and one reference more,
      which pins the record commit. */
  ghost predicate IsAdvancedFeed(h: History, recordCommit: nat, feedCommit: nat, record: Record) {
    var was, now := At(TreeAt(h, recordCommit), FeedPath(record.distribution)),
                    At(TreeAt(h, feedCommit), FeedPath(record.distribution));
    && was.Some? && was.value.FeedFile? && now.Some? && now.value.FeedFile?
    && now.value.feed == was.value.feed.(publishedAt := record.publishedAt, releases := now.value.feed.releases)
    && var path := RecordPath(record.distribution, record.runtimeVersion.text, record.releaseId);
    forall x :: x in now.value.feed.releases <==>
      || x in was.value.feed.releases
      || x == Reference(record.runtimeVersion, Pinned(recordCommit, path), Sha256(RecordFile(record)))
  }

  lemma AdvancedFeedIsDated(h: History, c: nat)
    requires IsGoodHistory(h) && IsBranchCommit(h, c) && h[c].subject.AdvanceFeed?
    ensures IsAdvancedFeed(h, RecordCommitOf(h, c), c, h[c].subject.record)
  {
    var k, record := RecordCommitOf(h, c), h[c].subject.record;
    assert IsGoodCommit(h, c);
    assert IsGoodCommit(h, k);
    assert IsGoodFeed(h, k, record.distribution);
    AddReferenceEffect(At(h[k].tree, FeedPath(record.distribution)).value.feed, record, k, Sha256(RecordFile(record)));
  }

  ghost predicate IsPendingAt(t: State, record: Record) {
    && t.run.Quiet? && t.run.last.Some? && t.run.last.value.PendingMerge?
    && var outcome, h := t.run.last.value, t.repo.commits;
    && IsGoodHistory(h) && IsBranchCommit(h, outcome.feedCommit)
    && h[outcome.feedCommit].subject == AdvanceFeed(record)
    && outcome.recordCommit == RecordCommitOf(h, outcome.feedCommit)
    && outcome.path == RecordPath(record.distribution, record.runtimeVersion.text, record.releaseId)
    && At(TreeAt(h, outcome.recordCommit), outcome.path) == Some(RecordFile(record))
    && At(TreeAt(h, outcome.feedCommit), outcome.path) == Some(RecordFile(record))
    && IsAdvancedFeed(h, outcome.recordCommit, outcome.feedCommit, record)
    && PublicationHead(record.releaseId) in t.repo.open
    && record.releaseId in t.repo.branches && t.repo.branches[record.releaseId] == outcome.feedCommit
    && IsVerified(h, outcome.feedCommit, TreeAt(h, outcome.feedCommit))
  }

  /** What an advanced branch holds where it is reported. */
  lemma AdvancedBranchIsReported(h: History, c: nat)
    requires IsGoodHistory(h) && IsBranchCommit(h, c) && h[c].subject.AdvanceFeed?
    ensures
      var record, k := h[c].subject.record, RecordCommitOf(h, c);
      var path := RecordPath(record.distribution, record.runtimeVersion.text, record.releaseId);
      && LastTouch(h, c, path) == k
      && At(TreeAt(h, k), path) == Some(RecordFile(record)) && At(TreeAt(h, c), path) == Some(RecordFile(record))
      && IsAdvancedFeed(h, k, c, record)
  {
    LogFindsRecordCommit(h, c);
    BranchFiles(h, c);
    BranchFiles(h, RecordCommitOf(h, c));
    AdvancedFeedIsDated(h, c);
  }

  lemma RequestStage(s: State, record: Record)
    requires Inv(s) && IsUndisturbed(s, FeedPushed, record)
    ensures
      var t := PublisherStep(s, Request);
      t.run.Quiet? && t.run.last.Some? && (t.run.last.value.PendingMerge? ==> IsPendingAt(t, record))
  {
    AdvancedBranchIsReported(s.repo.commits, s.run.head);
  }

  /** A finished run reports the path of its record and the commits it leaves: both hold the record, the
      feed commit advances the record's feed, the record commit is the one it pins, and the proposed head
      passes verification. */
  lemma PendingMergeIsTrue(repo: Repo, record: Record)
    requires IsGoodRepo(repo)
    ensures
      var t := Finish(repo, record);
      t.run.Quiet? && (t.run.last.Some? && t.run.last.value.PendingMerge? ==> IsPendingAt(t, record))
  {
    AfterSteps(repo, record, 4);
    RunIsUndisturbed(repo, record, 4);
    if After(repo, record, 4).run.Working? {
      AfterKeepsInv(repo, record, 4);
      RequestStage(After(repo, record, 4), record);
    } else {
      QuietRunIsNotPending(repo, record, 4);
    }
  }

  /** Only the last access reports a pending merge. */
  lemma QuietRunIsNotPending(repo: Repo, record: Record, n: nat)
    requires IsGoodRepo(repo) && n <= 4
    ensures
      var run := After(repo, record, n).run;
      run.Quiet? ==> run.last.None? || !run.last.value.PendingMerge?
    decreases n
  {
    AfterSteps(repo, record, if n == 0 then 0 else n - 1);
    if n > 0 {
      QuietRunIsNotPending(repo, record, n - 1);
      if n >= 3 {
        RunIsUndisturbed(repo, record, n - 1);
      }
    }
  }

  lemma QuietStaysQuiet(repo: Repo, record: Record, k: nat, n: nat)
    requires 1 <= k <= n <= 5 && After(repo, record, k).run.Quiet?
    ensures After(repo, record, n) == After(repo, record, k)
    decreases n
  {
    if k < n {
      QuietStaysQuiet(repo, record, k, n - 1);
      AfterSteps(repo, record, n - 1);
    }
  }

  // ----- the publisher as it runs

  /** The public repository as the publisher changes it, access by access. */
  class PublicRepository {
    var commits: History
    var main: nat
    var branches: map<string, nat>
    var open: seq<PullHead>

    function View(): Repo
      reads this
    {
      Repo(commits, main, branches, open)
    }

    constructor (repo: Repo)
      ensures View() == repo
    {
      commits, main, branches, open := repo.commits, repo.main, repo.branches, repo.open;
    }

    /** The report of a run that finds its path on main. */
    method ReportOnMain(record: Record) returns (outcome: Outcome)
      requires PathOf(record) in TreeAt(commits, main)
      ensures outcome == AlreadyOnMain(View(), record)
    {
      var tree, path := TreeAt(commits, main), PathOf(record);
      if tree[path] != RecordFile(record) { return Failed(DifferentBytes); }
      var releases := Releases(tree, record.distribution);
      var listed := exists r :: r in releases && r.url.path == path && r.digest == Sha256(tree[path]);
      if !listed { return Failed(NotInMainFeed); }
      var verified := VerifyPublished(commits, main, tree);
      if !verified { return Failed(VerificationFailed); }
      outcome := Published(main, path);
    }

    /** The pending-request guard and the checks of the branch, on the repository as it is. */
    method CheckOut(record: Record, origin: nat) returns (workspace: Result<Workspace, PublishError>)
      ensures workspace == Checkout(View(), record, origin)
    {
      if |open| >= 1000 { return Err(ListingCapped); }
      if exists p :: p in open && p.PublicationHead? && p.releaseId != record.releaseId { return Err(OtherPending); }
      var head := origin;
      if record.releaseId in branches {
        head := branches[record.releaseId];
        if !IsAncestor(commits, origin, head) { return Err(StaleBranch); }
      }
      var changed := ChangedPaths(TreeAt(commits, origin), TreeAt(commits, head));
      if !(changed <= {PathOf(record), FeedPath(record.distribution)}) { return Err(ForeignChanges); }
      workspace := Ok(Workspace(head, PublicationHead(record.releaseId) in open));
    }

    method PushCommit(releaseId: string, commit: Commit) returns (accepted: bool)
      modifies this
      ensures accepted <==> Push(old(View()), releaseId, commit).Ok?
      ensures View() == if accepted then Push(old(View()), releaseId, commit).value else old(View())
    {
      var pushed := commits + [commit];
      accepted := !(releaseId in branches && !IsAncestor(pushed, branches[releaseId], |commits|));
      if accepted {
        branches := branches[releaseId := |commits|];
        commits := pushed;
      }
    }

    method AddRecordCommit(record: Record, head: nat) returns (written: Result<nat, PublishError>)
      modifies this
      ensures
        match WriteRecord(old(View()), record, head)
        case Err(e) => written == Err(e) && View() == old(View())
        case Ok(p) => written == Ok(p.head) && View() == p.repo
    {
      var tree := TreeAt(commits, head);
      var path := PathOf(record);
      if path in tree {
        return if tree[path] == RecordFile(record) then Ok(head) else Err(DifferentBytes);
      }
      var next := |commits|;
      var accepted := PushCommit(record.releaseId,
                                 Commit([head], tree[path := RecordFile(record)], CommitGraph.PublishRecord(record)));
      written := if accepted then Ok(next) else Err(PushRejected);
    }

    method AddFeedCommit(record: Record, head: nat) returns (written: Result<nat, PublishError>)
      modifies this
      ensures
        match WriteFeed(old(View()), record, head)
        case Err(e) => written == Err(e) && View() == old(View())
        case Ok(p) => written == Ok(p.head) && View() == p.repo
    {
      var tree := TreeAt(commits, head);
      var feedPath := FeedPath(record.distribution);
      var recordCommit := LastTouch(commits, head, PathOf(record));
      if At(TreeAt(commits, recordCommit), PathOf(record)) != Some(RecordFile(record)) { return Err(ReadbackDiffers); }
      var file := At(tree, feedPath);
      if !(file.Some? && file.value.FeedFile?) { return Err(FeedUnreadable); }
      var feed := file.value.feed;
      var updated := AddReference(feed, record, recordCommit, Sha256(RecordFile(record)));
      if updated.Err? { return Err(FeedRefused(updated.error)); }
      if updated.value.releases == feed.releases { return Ok(head); }
      var next := |commits|;
      var accepted := PushCommit(record.releaseId,
                                 Commit([head], tree[feedPath := FeedFile(updated.value)], AdvanceFeed(record)));
      written := if accepted then Ok(next) else Err(PushRejected);
    }

    method AskForMerge(record: Record, head: nat, requested: bool) returns (refusal: Option<PublishError>)
      modifies this
      ensures
        match OpenRequest(old(View()), record, head, requested)
        case Err(e) => refusal == Some(e) && View() == old(View())
        case Ok(next) => refusal == None && View() == next
    {
      var verified := VerifyPublished(commits, head, TreeAt(commits, head));
      if !verified { return Some(VerificationFailed); }
      if !requested {
        if record.releaseId !in branches || PublicationHead(record.releaseId) in open { return Some(RequestRefused); }
        if IsAncestor(commits, branches[record.releaseId], main) { return Some(NothingToMerge); }
        open := open + [PublicationHead(record.releaseId)];
      }
      refusal := None;
    }

    /** One publisher run, cut after the given number of accesses; five make a whole run. */
    method Publish(record: Record, accesses: nat) returns (outcome: Option<Outcome>)
      requires accesses <= 5
      modifies this
      ensures View() == After(old(View()), record, accesses).repo
      ensures accesses == 5 ==> State(View(), Quiet(outcome)) == Finish(old(View()), record)
    {
      ghost var start := View();
      AfterSteps(start, record, 0);
      if accesses == 0 { return None; }
      if PathOf(record) in TreeAt(commits, main) {
        QuietStaysQuiet(start, record, 1, accesses);
        var report := ReportOnMain(record);
        return Some(report);
      }
      if accesses == 1 { return None; }
      AfterSteps(start, record, 1);
      var checkout := CheckOut(record, main);
      if checkout.Err? {
        QuietStaysQuiet(start, record, 2, accesses);
        return Some(Failed(checkout.error));
      }
      var requested := checkout.value.requested;
      if accesses == 2 { return None; }
      AfterSteps(start, record, 2);
      var recorded := AddRecordCommit(record, checkout.value.head);
      if recorded.Err? {
        QuietStaysQuiet(start, record, 3, accesses);
        return Some(Failed(recorded.error));
      }
      if accesses == 3 { return None; }
      outcome := Advance(record, recorded.value, requested, accesses, start);
    }

    /** The feed and request stages of a run that has its record on the branch. */
    method Advance(record: Record, recorded: nat, requested: bool, accesses: nat, ghost start: Repo)
      returns (outcome: Option<Outcome>)
      requires 4 <= accesses <= 5
      requires After(start, record, 3) == State(View(), Working(RecordPushed, record, start.main, recorded, requested))
      modifies this
      ensures View() == After(start, record, accesses).repo
      ensures accesses == 5 ==> State(View(), Quiet(outcome)) == Finish(start, record)
    {
      AfterSteps(start, record, 3);
      AfterSteps(start, record, 4);
      var advanced := AddFeedCommit(record, recorded);
      if advanced.Err? { return Some(Failed(advanced.error)); }
      if accesses == 4 { return None; }
      var head := advanced.value;
      var refusal := AskForMerge(record, head, requested);
      if refusal.Some? { return Some(Failed(refusal.value)); }
      return Some(PendingMerge(LastTouch(commits, head, PathOf(record)), head, PathOf(record)));
    }
  }
}
