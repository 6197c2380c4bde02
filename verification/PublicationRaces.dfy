/** When an open request extends the feeds of main, and when it does not: the publisher fetches
    main first and lists the open requests later, and a request merged in between is missed. */
module PublicationRaces {
  import opened Results
  import opened RuntimeRecords
  import opened Feeds
  import opened CommitGraph
  import opened Publication
  import opened PublicationSafety
  import opened PublicationRuns
  import opened PublicationTheorems
  import opened PublicationSamples

  /** What a bystander keeps track of: whether a publication request was merged after the current run
      fetched main and before it listed the open requests, and whether that was so for the run that
      opened the request that is open now. */
  datatype Watch = Watch(missed: bool, behind: bool)

  function Observe(s: State, w: Watch, a: Action): Watch {
    if a.Begin? && s.run.Quiet? then w.(missed := false)
    else if a.Merge? && s.run.Fetched? && CanMerge(s.repo, a.releaseId, a.base) then w.(missed := true)
    else if a.Request? && Next(s, a).repo.open != s.repo.open then w.(behind := w.missed)
    else w
  }

  function ObserveAll(s: State, w: Watch, actions: seq<Action>): Watch
    decreases |actions|
  {
    if actions == [] then w else ObserveAll(Next(s, actions[0]), Observe(s, w, actions[0]), actions[1..])
  }

  /** The run that opened the open request missed a merge between its fetch and its listing. */
  predicate MissedMerge(s: State, actions: seq<Action>) {
    ObserveAll(s, Watch(false, false), actions).behind
  }

  ghost predicate SameFeeds(t: Tree, u: Tree) {
    forall d :: At(t, FeedPath(d)) == At(u, FeedPath(d))
  }

  /** Main still has the feeds of this commit, and not the record. */
  ghost predicate IsCurrent(repo: Repo, base: nat, path: Path) {
    && SameFeeds(TreeAt(repo.commits, repo.main), TreeAt(repo.commits, base))
    && path !in TreeAt(repo.commits, repo.main)
  }

  ghost predicate IsCurrentRequest(repo: Repo, id: string)
    requires IsGoodHistory(repo.commits)
  {
    && id in repo.branches && IsBranchCommit(repo.commits, repo.branches[id])
    && IsCurrent(repo, BaseOf(repo.commits, repo.branches[id]), PathOf(repo.commits[repo.branches[id]].subject.record))
  }

  /** Main has a reference that this commit lacks. */
  ghost predicate IsBehind(repo: Repo, base: nat) {
    exists d, r :: r in Releases(TreeAt(repo.commits, repo.main), d) && r !in Releases(TreeAt(repo.commits, base), d)
  }

  ghost predicate IsBehindRequest(repo: Repo, id: string)
    requires IsGoodHistory(repo.commits)
  {
    && id in repo.branches && IsBranchCommit(repo.commits, repo.branches[id])
    && IsBehind(repo, BaseOf(repo.commits, repo.branches[id]))
  }

  /** The bystander is right about the open request and about the run. */
  ghost predicate IsWatched(s: State, w: Watch)
    requires Inv(s)
  {
    && (forall p :: p in s.repo.open && p.PublicationHead? ==>
          if w.behind then IsBehindRequest(s.repo, p.releaseId) else IsCurrentRequest(s.repo, p.releaseId))
    && (s.run.Fetched? || (s.run.Working? && !s.run.requested) ==>
          if w.missed then IsBehind(s.repo, s.run.origin) else IsCurrent(s.repo, s.run.origin, PathOf(s.run.record)))
  }

  // ----- every step keeps the bystander right

  /** New commits and a main with the same published files keep what is current. */
  lemma CurrentSurvives(repo: Repo, next: Repo, more: History, base: nat, path: Path)
    requires next.commits == repo.commits + more && base < |repo.commits| && path.RecordPath?
    requires KeepsPublished(TreeAt(repo.commits, repo.main), TreeAt(next.commits, next.main))
    requires IsCurrent(repo, base, path)
    ensures IsCurrent(next, base, path)
  {
  }

  lemma RequestStaysCurrent(repo: Repo, next: Repo, more: History, id: string)
    requires IsGoodHistory(repo.commits) && IsGoodHistory(next.commits) && next.commits == repo.commits + more
    requires KeepsPublished(TreeAt(repo.commits, repo.main), TreeAt(next.commits, next.main))
    requires IsCurrentRequest(repo, id)
    requires id in next.branches && next.branches[id] == repo.branches[id]
    ensures IsCurrentRequest(next, id)
  {
    var c := repo.branches[id];
    BaseIsStable(repo.commits, more, c);
    CurrentSurvives(repo, next, more, BaseOf(repo.commits, c), PathOf(repo.commits[c].subject.record));
  }

  /** A step that only adds commits, leaves the published files of main, and opens no request. */
  ghost predicate IsQuietChange(repo: Repo, next: Repo, more: History) {
    && next.commits == repo.commits + more
    && KeepsPublished(TreeAt(repo.commits, repo.main), TreeAt(next.commits, next.main))
    && forall p :: p in next.open && p.PublicationHead? ==>
         p in repo.open && p.releaseId in next.branches && p.releaseId in repo.branches
         && next.branches[p.releaseId] == repo.branches[p.releaseId]
  }

  /** The run goes on with what it knew, or ends. */
  ghost predicate IsSameRun(s: Run, t: Run) {
    || t.Quiet?
    || t == s
    || (s.Working? && t.Working? && t.origin == s.origin && t.record == s.record && t.requested == s.requested)
  }

  lemma BehindSurvives(repo: Repo, next: Repo, more: History, base: nat)
    requires next.commits == repo.commits + more && base < |repo.commits|
    requires KeepsPublished(TreeAt(repo.commits, repo.main), TreeAt(next.commits, next.main))
    requires IsBehind(repo, base)
    ensures IsBehind(next, base)
  {
    var d, r :| r in Releases(TreeAt(repo.commits, repo.main), d) && r !in Releases(TreeAt(repo.commits, base), d);
    assert At(TreeAt(next.commits, next.main), FeedPath(d)) == At(TreeAt(repo.commits, repo.main), FeedPath(d));
    assert r in Releases(TreeAt(next.commits, next.main), d) && r !in Releases(TreeAt(next.commits, base), d);
  }

  lemma RequestStaysBehind(repo: Repo, next: Repo, more: History, id: string)
    requires IsGoodHistory(repo.commits) && IsGoodHistory(next.commits) && next.commits == repo.commits + more
    requires KeepsPublished(TreeAt(repo.commits, repo.main), TreeAt(next.commits, next.main))
    requires IsBehindRequest(repo, id)
    requires id in next.branches && next.branches[id] == repo.branches[id]
    ensures IsBehindRequest(next, id)
  {
    var c := repo.branches[id];
    BaseIsStable(repo.commits, more, c);
    BehindSurvives(repo, next, more, BaseOf(repo.commits, c));
  }

  lemma QuietChangeIsWatched(s: State, t: State, w: Watch, more: History)
    requires Inv(s) && IsWatched(s, w) && Inv(t) && IsQuietChange(s.repo, t.repo, more)
    requires IsSameRun(s.run, t.run)
    ensures IsWatched(t, w)
  {
    forall p | p in t.repo.open && p.PublicationHead?
      ensures if w.behind then IsBehindRequest(t.repo, p.releaseId) else IsCurrentRequest(t.repo, p.releaseId)
    {
      if w.behind {
        RequestStaysBehind(s.repo, t.repo, more, p.releaseId);
      } else {
        RequestStaysCurrent(s.repo, t.repo, more, p.releaseId);
      }
    }
    if t.run.Fetched? || (t.run.Working? && !t.run.requested) {
      if w.missed {
        BehindSurvives(s.repo, t.repo, more, s.run.origin);
      } else {
        CurrentSurvives(s.repo, t.repo, more, s.run.origin, PathOf(s.run.record));
      }
    }
  }

  lemma OpenBranchesAreKnown(repo: Repo)
    requires IsGoodRepo(repo)
    ensures forall p :: p in repo.open && p.PublicationHead? ==> p.releaseId in repo.branches
  {
    forall p | p in repo.open && p.PublicationHead? ensures p.releaseId in repo.branches {
      assert IsGoodRequest(repo, p.releaseId);
    }
  }

  lemma ReadsAreWatched(s: State, w: Watch, a: Action)
    requires Inv(s) && IsWatched(s, w) && (a.Begin? || a.Survey? || a.Crash?)
    ensures Inv(Next(s, a)) && IsWatched(Next(s, a), Observe(s, w, a))
  {
    NextKeepsInv(s, a);
    assert Next(s, a).repo == s.repo;
  }

  lemma PushIsWatched(s: State, w: Watch, a: Action)
    requires Inv(s) && IsWatched(s, w) && (a.PushRecord? || a.PushFeed?)
    ensures Inv(Next(s, a)) && IsWatched(Next(s, a), Observe(s, w, a))
  {
    var t := PublisherStep(s, a);
    NextKeepsInv(s, a);
    PublisherLeavesMain(s, a);
    OpenBranchesAreKnown(s.repo);
    var more := t.repo.commits[|s.repo.commits|..];
    assert t.repo.commits == s.repo.commits + more;
    PushLeavesRequests(s, a);
    PushGoesOn(s, a);
    MainTreeStays(s.repo, t.repo, more);
    QuietChangeIsWatched(s, t, w, more);
  }

  lemma PushGoesOn(s: State, a: Action)
    requires a.PushRecord? || a.PushFeed?
    ensures IsSameRun(s.run, PublisherStep(s, a).run)
  {
  }

  lemma MainTreeStays(repo: Repo, next: Repo, more: History)
    requires next.commits == repo.commits + more && next.main == repo.main && repo.main < |repo.commits|
    ensures KeepsPublished(TreeAt(repo.commits, repo.main), TreeAt(next.commits, next.main))
  {
    assert TreeAt(next.commits, next.main) == TreeAt(repo.commits, repo.main);
  }

  /** A push changes no branch but the run's own. */
  lemma PushTouchesOwnBranch(s: State, a: Action, id: string)
    requires (a.PushRecord? || a.PushFeed?) && (s.run.Working? ==> id != s.run.record.releaseId)
    ensures
      var t := PublisherStep(s, a);
      && t.repo.open == s.repo.open
      && (id in s.repo.branches ==> id in t.repo.branches && t.repo.branches[id] == s.repo.branches[id])
  {
  }

  lemma PushLeavesRequests(s: State, a: Action)
    requires Inv(s) && (a.PushRecord? || a.PushFeed?)
    ensures PublisherStep(s, a).repo.open == s.repo.open
    ensures forall p :: p in s.repo.open && p.PublicationHead? && p.releaseId in s.repo.branches ==>
      var branches := PublisherStep(s, a).repo.branches;
      p.releaseId in branches && branches[p.releaseId] == s.repo.branches[p.releaseId]
  {
    var finished := s.run.Working? && IsBranchCommit(s.repo.commits, s.run.head)
      && s.repo.commits[s.run.head].subject.AdvanceFeed?;
    if finished {
      FinishedHeadPushesNothing(s, a);
    } else {
      if s.run.Working? { NoRequestOnMainlineHead(s); }
      PushTouchesOwnBranch(s, a, if s.run.Working? then s.run.record.releaseId + "'" else "");
      forall p | p in s.repo.open && p.PublicationHead? && p.releaseId in s.repo.branches
        ensures
          var branches := PublisherStep(s, a).repo.branches;
          p.releaseId in branches && branches[p.releaseId] == s.repo.branches[p.releaseId]
      {
        PushTouchesOwnBranch(s, a, p.releaseId);
      }
    }
  }

  lemma FinishedHeadPushesNothing(s: State, a: Action)
    requires Inv(s) && s.run.Working? && (a.PushRecord? || a.PushFeed?)
    requires IsBranchCommit(s.repo.commits, s.run.head) && s.repo.commits[s.run.head].subject.AdvanceFeed?
    ensures PublisherStep(s, a).repo == s.repo
  {
    if s.run.stage.Surveyed? {
      BranchFiles(s.repo.commits, s.run.head);
    } else if s.run.stage.RecordPushed? {
      AdvancedFeedIsStable(s.repo, s.run.record, s.run.head);
    }
  }

  lemma RequestIsWatched(s: State, w: Watch)
    requires Inv(s) && IsWatched(s, w)
    ensures Inv(Next(s, Request)) && IsWatched(Next(s, Request), Observe(s, w, Request))
  {
    var t := PublisherStep(s, Request);
    RequestKeepsInv(s);
    if t.repo.open == s.repo.open {
      RequestOnlyOpens(s);
    } else {
      OpenedIsWatched(s, w);
    }
  }

  /** The request stage changes nothing but the list of open requests, and only by its own. */
  lemma RequestOnlyOpens(s: State)
    ensures
      var t := PublisherStep(s, Request);
      && t.repo == s.repo.(open := t.repo.open)
      && (t.run == s.run || t.run.Quiet?)
      && (t.repo.open != s.repo.open ==>
            && s.run.Working? && s.run.stage.FeedPushed? && !s.run.requested
                 && s.run.record.releaseId in s.repo.branches
            && t.repo.open == s.repo.open + [PublicationHead(s.run.record.releaseId)])
  {
  }

  lemma OpenedIsWatched(s: State, w: Watch)
    requires Inv(s) && IsWatched(s, w) && PublisherStep(s, Request).repo.open != s.repo.open
      && Inv(PublisherStep(s, Request))
    ensures IsWatched(PublisherStep(s, Request), w.(behind := w.missed))
  {
    RequestOnlyOpens(s);
    var t := PublisherStep(s, Request);
    var id := s.run.record.releaseId;
    assert t.repo.branches[id] == s.run.head && BaseOf(t.repo.commits, s.run.head) == s.run.origin;
    forall p | p in t.repo.open && p.PublicationHead? ensures p == PublicationHead(id) {
      assert p in s.repo.open || p == PublicationHead(id);
    }
  }

  /** The reference by which a request pins its record commit. */
  ghost function OwnReference(repo: Repo, id: string): Reference
    requires IsGoodHistory(repo.commits) && id in repo.branches && IsBranchCommit(repo.commits, repo.branches[id])
  {
    var record := repo.commits[repo.branches[id]].subject.record;
    ReferenceTo(record, RecordCommitOf(repo.commits, repo.branches[id]), Sha256(RecordFile(record)))
  }

  lemma MergeAddsOwnReference(repo: Repo, id: string, base: nat)
    requires IsGoodRepo(repo) && CanMerge(repo, id, base) && IsGoodRequest(repo, id)
    ensures
      var next := MergeRequest(repo, id, base);
      OwnReference(repo, id) in Releases(TreeAt(next.commits, next.main),
          repo.commits[repo.branches[id]].subject.record.distribution)
  {
    AdvancedFeedPinsRecord(repo.commits, repo.branches[id]);
    MergeKeepsHistory(repo.commits, repo.main, repo.branches[id], base);
  }

  /** What a merge adds to main was not on any earlier main. */
  lemma MergeLeavesBehind(repo: Repo, id: string, base: nat, origin: nat)
    requires IsGoodRepo(repo) && CanMerge(repo, id, base) && IsAncestor(repo.commits, origin, repo.main)
    ensures IsBehind(MergeRequest(repo, id, base), origin)
  {
    assert IsGoodRequest(repo, PublicationHead(id).releaseId);
    MergeAddsOwnReference(repo, id, base);
    NotYetReferenced(repo, origin, repo.commits[repo.branches[id]].subject.record.distribution, OwnReference(repo, id));
    AncestorIsOlder(repo.commits, origin, repo.main);
  }

  /** Nothing below main refers to a commit that is not below main. */
  lemma NotYetReferenced(repo: Repo, origin: nat, d: Distribution, r: Reference)
    requires IsGoodRepo(repo) && IsAncestor(repo.commits, origin, repo.main)
    requires r.url.Pinned? && !IsAncestor(repo.commits, r.url.commit, repo.main)
    ensures r !in Releases(TreeAt(repo.commits, origin), d)
  {
    AncestorIsOlder(repo.commits, origin, repo.main);
    if r in Releases(TreeAt(repo.commits, origin), d) {
      ReferenceIsBacked(repo.commits, origin, d, r);
      AncestorTransitive(repo.commits, r.url.commit, origin, repo.main);
    }
  }

  lemma MergeIsWatched(s: State, w: Watch, id: string, base: nat)
    requires Inv(s) && IsWatched(s, w)
    ensures Inv(Next(s, Merge(id, base))) && IsWatched(Next(s, Merge(id, base)), Observe(s, w, Merge(id, base)))
  {
    MergeKeepsInv(s, id, base);
    if CanMerge(s.repo, id, base) {
      assert PublicationHead(id) in s.repo.open;
      if s.run.Fetched? {
        MergeLeavesBehind(s.repo, id, base, s.run.origin);
      }
    }
  }

  lemma UpkeepIsWatched(s: State, w: Watch, a: Action)
    requires Inv(s) && IsWatched(s, w) && (a.Develop? || a.Close? || a.DeleteBranch? || a.OpenTopic?)
    ensures Inv(Next(s, a)) && IsWatched(Next(s, a), Observe(s, w, a))
  {
    NextKeepsInv(s, a);
    OpenBranchesAreKnown(s.repo);
    var more := UpkeepIsQuiet(s, a);
    QuietChangeIsWatched(s, MaintainerStep(s, a), w, more);
  }

  lemma UpkeepIsQuiet(s: State, a: Action) returns (more: History)
    requires s.repo.main < |s.repo.commits| && (a.Develop? || a.Close? || a.DeleteBranch? || a.OpenTopic?)
    requires forall p :: p in s.repo.open && p.PublicationHead? ==> p.releaseId in s.repo.branches
    ensures IsQuietChange(s.repo, MaintainerStep(s, a).repo, more) && MaintainerStep(s, a).run == s.run
  {
    var t := MaintainerStep(s, a);
    more := if t.repo.commits == s.repo.commits then [] else [t.repo.commits[|s.repo.commits|]];
    assert t.repo.commits == s.repo.commits + more;
    if t.repo.main == s.repo.main {
      MainTreeStays(s.repo, t.repo, more);
    }
  }

  lemma {:induction false} RunsAreWatched(s: State, w: Watch, actions: seq<Action>)
    requires Inv(s) && IsWatched(s, w)
    ensures Inv(Execute(s, actions)) && IsWatched(Execute(s, actions), ObserveAll(s, w, actions))
    decreases |actions|
  {
    if actions == [] {
    } else {
      var a := actions[0];
      if a.Begin? || a.Survey? || a.Crash? { ReadsAreWatched(s, w, a); }
      else if a.PushRecord? || a.PushFeed? { PushIsWatched(s, w, a); }
      else if a.Request? { RequestIsWatched(s, w); }
      else if a.Merge? { MergeIsWatched(s, w, a.releaseId, a.base); }
      else { UpkeepIsWatched(s, w, a); }
      RunsAreWatched(Next(s, a), Observe(s, w, a), actions[1..]);
    }
  }

  // ----- what a current request promises

  /** The best common ancestor of two commits, where there is one. */
  ghost predicate IsMergeBase(h: History, b: nat, x: nat, y: nat) {
    && IsAncestor(h, b, x) && IsAncestor(h, b, y)
    && forall a: nat :: IsAncestor(h, a, x) && IsAncestor(h, a, y) ==> IsAncestor(h, a, b)
  }

  /** Main and an open request have nothing in common above the commit its branch was started on. */
  lemma CommonIsBelowBase(repo: Repo, id: string, a: nat)
    requires IsGoodRepo(repo) && IsGoodRequest(repo, id)
    requires IsAncestor(repo.commits, a, repo.main) && IsAncestor(repo.commits, a, repo.branches[id])
    ensures IsAncestor(repo.commits, a, BaseOf(repo.commits, repo.branches[id]))
  {
    var h, c := repo.commits, repo.branches[id];
    BelowBranch(h, a, c);
    assert IsGoodCommit(h, c);
    ParentIsAncestor(h, RecordCommitOf(h, c), c, 0);
    if a == c {
      AncestorTransitive(h, RecordCommitOf(h, c), c, repo.main);
    }
  }

  /** The merge base of main and an open request is the commit its branch was started on. */
  lemma BranchBaseIsMergeBase(repo: Repo, id: string, b: nat)
    requires IsGoodRepo(repo) && PublicationHead(id) in repo.open
    ensures id in repo.branches && IsBranchCommit(repo.commits, repo.branches[id])
    ensures IsMergeBase(repo.commits, b, repo.main, repo.branches[id]) <==> b == BaseOf(repo.commits, repo.branches[id])
  {
    assert IsGoodRequest(repo, PublicationHead(id).releaseId);
    assert IsGoodBranch(repo, id);
    var h, c := repo.commits, repo.branches[id];
    var o := BaseOf(h, c);
    BranchFiles(h, c);
    forall a: nat | IsAncestor(h, a, repo.main) && IsAncestor(h, a, c) ensures IsAncestor(h, a, o) {
      CommonIsBelowBase(repo, id, a);
    }
    if IsMergeBase(h, b, repo.main, c) {
      AncestorIsOlder(h, b, o);
      AncestorIsOlder(h, o, b);
    }
  }

  /** The request lacks a reference that main has. */
  ghost predicate IsStale(repo: Repo, id: string)
    requires id in repo.branches
  {
    exists d, r :: r in Releases(TreeAt(repo.commits, repo.main), d)
        && r !in Releases(TreeAt(repo.commits, repo.branches[id]), d)
  }

  /** An open request lacks a reference of main exactly if the commit it was started on does. */
  lemma StaleMeansBehind(repo: Repo, id: string)
    requires IsGoodRepo(repo) && PublicationHead(id) in repo.open
    ensures id in repo.branches && IsBranchCommit(repo.commits, repo.branches[id])
    ensures IsStale(repo, id) <==> IsBehind(repo, BaseOf(repo.commits, repo.branches[id]))
  {
    assert IsGoodRequest(repo, PublicationHead(id).releaseId);
    var h, c := repo.commits, repo.branches[id];
    BranchFiles(h, c);
    DescentPreserves(h, BaseOf(h, c), c);
    AdvancedFeedPinsRecord(h, c);
    NotOnMain(repo, id, OwnReference(repo, id));
    if IsBehind(repo, BaseOf(h, c)) {
      var d, x :| x in Releases(TreeAt(h, repo.main), d) && x !in Releases(TreeAt(h, BaseOf(h, c)), d);
      assert x !in Releases(TreeAt(h, c), d);
    }
  }

  lemma NotOnMain(repo: Repo, id: string, r: Reference)
    requires IsGoodRepo(repo) && IsGoodRequest(repo, id)
    requires r.url.Pinned? && r.url.commit == RecordCommitOf(repo.commits, repo.branches[id])
    ensures forall d :: r !in Releases(TreeAt(repo.commits, repo.main), d)
  {
    forall d ensures r !in Releases(TreeAt(repo.commits, repo.main), d) {
      NotYetReferenced(repo, repo.main, d, r);
    }
  }

  /** Over every interleaving: an open request lacks a reference of main exactly if the run that opened
      it missed a merge between its fetch of main and its listing of the requests. */
  lemma RequestIsStaleExactly(s: State, actions: seq<Action>, id: string)
    requires IsInitial(s) && PublicationHead(id) in Execute(s, actions).repo.open
    ensures id in Execute(s, actions).repo.branches
    ensures IsStale(Execute(s, actions).repo, id) <==> MissedMerge(s, actions)
  {
    InitialIsGood(s);
    RunsAreWatched(s, Watch(false, false), actions);
    var repo := Execute(s, actions).repo;
    StaleMeansBehind(repo, id);
    assert PublicationHead(id).PublicationHead?;
    if !MissedMerge(s, actions) {
      assert IsCurrentRequest(repo, PublicationHead(id).releaseId);
      CurrentIsNotBehind(repo, BaseOf(repo.commits, repo.branches[id]),
          PathOf(repo.commits[repo.branches[id]].subject.record));
    } else {
      assert IsBehindRequest(repo, PublicationHead(id).releaseId);
    }
  }

  lemma CurrentIsNotBehind(repo: Repo, base: nat, path: Path)
    requires IsCurrent(repo, base, path)
    ensures !IsBehind(repo, base)
  {
    forall d ensures Releases(TreeAt(repo.commits, repo.main), d) == Releases(TreeAt(repo.commits, base), d) {
      assert At(TreeAt(repo.commits, repo.main), FeedPath(d)) == At(TreeAt(repo.commits, base), FeedPath(d));
    }
  }

  /** A request whose run missed no merge can be merged over the merge base, and that gives main with
      exactly the record and the feed that were verified. */
  lemma RequestMergesAsVerified(s: State, actions: seq<Action>, id: string, b: nat)
    requires IsInitial(s) && !MissedMerge(s, actions) && PublicationHead(id) in Execute(s, actions).repo.open
    requires
      var repo := Execute(s, actions).repo;
      id in repo.branches && IsMergeBase(repo.commits, b, repo.main, repo.branches[id])
    ensures
      var repo := Execute(s, actions).repo;
      && CanMerge(repo, id, b)
      && var main, head := TreeAt(repo.commits, repo.main), repo.commits[repo.branches[id]];
      && head.subject.AdvanceFeed?
      && var merged := TreeAt(MergeRequest(repo, id, b).commits, MergeRequest(repo, id, b).main);
      forall p :: At(merged, p) ==
        if p == PathOf(head.subject.record) || p == FeedPath(head.subject.record.distribution)
        then At(head.tree, p) else At(main, p)
  {
    InitialIsGood(s);
    RunsAreWatched(s, Watch(false, false), actions);
    var repo := Execute(s, actions).repo;
    assert IsCurrentRequest(repo, PublicationHead(id).releaseId);
    assert IsGoodRequest(repo, PublicationHead(id).releaseId);
    CurrentRequestMerges(repo, id, b);
  }

  lemma CurrentRequestMerges(repo: Repo, id: string, b: nat)
    requires IsGoodRepo(repo) && IsGoodRequest(repo, id) && IsCurrentRequest(repo, id)
    requires PublicationHead(id) in repo.open
    requires IsMergeBase(repo.commits, b, repo.main, repo.branches[id])
    ensures CanMerge(repo, id, b)
    ensures
      var head := repo.commits[repo.branches[id]];
      var merged := TreeAt(MergeRequest(repo, id, b).commits, MergeRequest(repo, id, b).main);
      forall p :: At(merged, p) ==
        if p == PathOf(head.subject.record) || p == FeedPath(head.subject.record.distribution)
        then At(head.tree, p) else At(TreeAt(repo.commits, repo.main), p)
  {
    var h, c := repo.commits, repo.branches[id];
    BranchBaseIsMergeBase(repo, id, b);
    BranchFiles(h, c);
    var base, ours, theirs := TreeAt(h, b), TreeAt(h, repo.main), TreeAt(h, c);
    var d := h[c].subject.record.distribution;
    assert At(ours, FeedPath(d)) == At(base, FeedPath(d));
    assert MergesCleanly(base, ours, theirs);
    var merged := TreeAt(MergeRequest(repo, id, b).commits, MergeRequest(repo, id, b).main);
    assert merged == MergedTree(base, ours, theirs);
    forall p ensures At(merged, p) ==
        if p == PathOf(h[c].subject.record) || p == FeedPath(d) then At(theirs, p) else At(ours, p)
    {
      assert At(merged, p) == MergedAt(base, ours, theirs, p);
    }
  }

  // ----- the race, once

  function FeedOf(refs: seq<Reference>): Content {
    FeedFile(Feed(1, "openminion", Pypi, "stable", "", refs))
  }

  function Pin(id: string, commit: nat): Reference {
    ReferenceTo(Sample(id), commit, Sha256(RecordFile(Sample(id))))
  }

  function RecordTree(id: string): Tree {
    START[PathOf(Sample(id)) := RecordFile(Sample(id))]
  }

  function FeedTree(id: string, commit: nat): Tree {
    RecordTree(id)[FeedPath(Pypi) := FeedOf([Pin(id, commit)])]
  }

  /** Writing the first reference into the empty feed. */
  lemma FirstReference(id: string, commit: nat)
    ensures AddReference(EmptyFeed(Pypi).feed, Sample(id), commit, Sha256(RecordFile(Sample(id)))) ==
      Ok(FeedOf([Pin(id, commit)]).feed)
  {
    var r := Pin(id, commit);
    assert Without([], r) == [];
    assert [r] + [] == [r];
    assert NewestFirst([r]) == Place(r, NewestFirst([])) == [r];
  }

  /** A repository that still has its root, with no request open and no branch for the id. */
  ghost predicate IsReady(s: State, id: string) {
    && |s.repo.commits| > 0 && s.repo.commits[0] == ROOT
    && s.repo.open == [] && id !in s.repo.branches
    && IsPlainName(id)
    && s.run == Fetched(Sample(id), 0)
  }

  function WithRecord(repo: Repo, id: string): Repo {
    repo.(commits := repo.commits + [Commit([0], RecordTree(id), CommitGraph.PublishRecord(Sample(id)))],
          branches := repo.branches[id := |repo.commits|])
  }

  function WithFeed(repo: Repo, id: string): Repo {
    var n := |repo.commits|;
    repo.(commits := WithRecord(repo, id).commits + [Commit([n], FeedTree(id, n), AdvanceFeed(Sample(id)))],
          branches := repo.branches[id := n + 1])
  }

  lemma SurveyOfRoot(s: State, id: string)
    requires IsReady(s, id)
    ensures PublisherStep(s, Survey) == s.(run := Working(Surveyed, Sample(id), 0, 0, false))
  {
    assert Listing([]) == [];
    assert ChangedPaths(START, START) == {};
  }

  lemma RecordOnRoot(s: State, id: string)
    requires IsReady(s, id)
    ensures
      var t := s.(run := Working(Surveyed, Sample(id), 0, 0, false));
      PublisherStep(t, PushRecord) == State(WithRecord(s.repo, id),
          Working(RecordPushed, Sample(id), 0, |s.repo.commits|, false))
  {
  }

  lemma FeedOnRoot(s: State, id: string)
    requires IsReady(s, id)
    ensures
      var t := State(WithRecord(s.repo, id), Working(RecordPushed, Sample(id), 0, |s.repo.commits|, false));
      PublisherStep(t, PushFeed) == State(WithFeed(s.repo, id),
          Working(FeedPushed, Sample(id), 0, |s.repo.commits| + 1, false))
  {
    var n, h, path := |s.repo.commits|, WithRecord(s.repo, id).commits, PathOf(Sample(id));
    assert h[0] == ROOT && h[n].tree == RecordTree(id) && h[n].parents == [0];
    assert !SameAtParent(h, n, 0, path);
    assert LastTouch(h, n, path) == n;
    FirstReference(id, n);
    var commit := Commit([n], FeedTree(id, n), AdvanceFeed(Sample(id)));
    assert (h + [commit])[n + 1] == commit;
    assert IsAncestor(h + [commit], n, n);
    ParentIsAncestor(h + [commit], n, n + 1, 0);
    assert WithRecord(s.repo, id).branches[id := n + 1] == WithFeed(s.repo, id).branches;
  }

  const REST: seq<Action> := [Survey, PushRecord, PushFeed, Request]

  /** A run that fetched the root publishes on the root, whatever main is by then. */
  lemma PublishOnRoot(s: State, id: string)
    requires IsReachable(s) && IsReady(s, id)
    ensures Execute(s, REST).repo == WithFeed(s.repo, id).(open := [PublicationHead(id)])
    ensures Execute(s, REST).run.Quiet?
  {
    var t := State(WithFeed(s.repo, id), Working(FeedPushed, Sample(id), 0, |s.repo.commits| + 1, false));
    SurveyOfRoot(s, id);
    RecordOnRoot(s, id);
    FeedOnRoot(s, id);
    assert REST == [Survey, PushRecord, PushFeed] + [Request];
    ExecuteComposes(s, [Survey, PushRecord, PushFeed], [Request]);
    ThreeSteps(s, Survey, PushRecord, PushFeed);
    assert Execute(s, [Survey, PushRecord, PushFeed]) == t;
    ReachableOnwards(s, [Survey, PushRecord, PushFeed]);
    ExecuteOne(t, Request);
    ReachableIsGood(s);
    RequestOnRoot(t, s.repo, id);
  }

  lemma RequestOnRoot(t: State, repo: Repo, id: string)
    requires IsReachable(t) && IsPlainName(id) && repo.open == [] && repo.main < |repo.commits|
    requires t == State(WithFeed(repo, id), Working(FeedPushed, Sample(id), 0, |repo.commits| + 1, false))
    ensures Next(t, Request).repo == WithFeed(repo, id).(open := [PublicationHead(id)])
    ensures Next(t, Request).run.Quiet?
  {
    ProposedHeadIsVerified(t);
    NewestIsNotBelow(t.repo.commits, |repo.commits| + 1, t.repo.main);
    assert OpenRequest(t.repo, Sample(id), t.run.head, false) == Ok(t.repo.(open := [] + [PublicationHead(id)]));
    assert [] + [PublicationHead(id)] == [PublicationHead(id)];
  }

  lemma NewestIsNotBelow(h: History, c: nat, main: nat)
    requires main < c
    ensures !IsAncestor(h, c, main)
  {
    if IsAncestor(h, c, main) {
      AncestorIsOlder(h, c, main);
    }
  }

  lemma TwoSteps(s: State, a: Action, b: Action)
    ensures Execute(s, [a, b]) == Next(Next(s, a), b)
  {
    assert [a, b] == [a] + [b];
    ExecuteComposes(s, [a], [b]);
    ExecuteOne(s, a);
    ExecuteOne(Next(s, a), b);
  }

  lemma ThreeSteps(s: State, a: Action, b: Action, c: Action)
    ensures Execute(s, [a, b, c]) == Next(Next(Next(s, a), b), c)
  {
    assert [a, b, c] == [a, b] + [c];
    ExecuteComposes(s, [a, b], [c]);
    TwoSteps(s, a, b);
    ExecuteOne(Next(Next(s, a), b), c);
  }

  /** The repository after "b" was published on the root. */
  function Pending(): Repo {
    WithFeed(Repo([ROOT], 0, map[], []), "b").(open := [PublicationHead("b")])
  }

  lemma PublishB() returns (s: State, actions: seq<Action>)
    ensures IsInitial(s) && Execute(s, actions).repo == Pending() && Execute(s, actions).run.Quiet?
  {
    s := FIRST;
    FirstIsInitial();
    assert PathOf(Sample("b")) !in START;
    var t := Next(s, Begin(Sample("b")));
    ExecuteOne(s, Begin(Sample("b")));
    assert IsReachable(t);
    PublishOnRoot(t, "b");
    actions := [Begin(Sample("b"))] + REST;
    ExecuteComposes(s, [Begin(Sample("b"))], REST);
  }

  /** The merge of "b" over the root, made while another run holds the root as its main. */
  lemma MergeB(t: State)
    requires t.repo == Pending()
    ensures
      var u := Next(t, Merge("b", 0));
      && u.repo.main == 3 && |u.repo.commits| == 4 && u.repo.commits[0] == ROOT
      && u.repo.open == [] && "a" !in u.repo.branches && u.run == t.run
      && Releases(u.repo.commits[3].tree, Pypi) == [Pin("b", 1)]
  {
    var repo := t.repo;
    var h := repo.commits;
    assert h[2].parents == [1] && h[1].parents == [0] && h[0] == ROOT && h[2].tree == FeedTree("b", 1);
    assert IsAncestor(h, 0, 0);
    ParentIsAncestor(h, 0, 1, 0);
    ParentIsAncestor(h, 0, 2, 0);
    assert CanMerge(repo, "b", 0);
    var merged := MergedTree(START, START, FeedTree("b", 1));
    assert At(merged, FeedPath(Pypi)) == MergedAt(START, START, FeedTree("b", 1), FeedPath(Pypi));
    assert Dropping([PublicationHead("b")], PublicationHead("b")) == [];
  }

  const RACE: seq<Action> := [Begin(Sample("a")), Merge("b", 0)]

  lemma RaceStarts(t: State)
    requires t.repo == Pending() && t.run.Quiet?
    ensures
      var u := Execute(t, RACE);
      && IsReady(u, "a") && u.repo.main == 3 && |u.repo.commits| == 4
      && Releases(u.repo.commits[3].tree, Pypi) == [Pin("b", 1)]
  {
    TwoSteps(t, Begin(Sample("a")), Merge("b", 0));
    assert t.repo.commits[0] == ROOT && PathOf(Sample("a")) !in START;
    MergeB(State(t.repo, Fetched(Sample("a"), 0)));
  }

  lemma RaceEnds(u: State)
    requires IsReachable(u) && IsReady(u, "a") && u.repo.main == 3 && |u.repo.commits| == 4
    requires Releases(u.repo.commits[3].tree, Pypi) == [Pin("b", 1)]
    ensures PublicationHead("a") in Execute(u, REST).repo.open && "a" in Execute(u, REST).repo.branches
    ensures IsStale(Execute(u, REST).repo, "a")
  {
    PublishOnRoot(u, "a");
    var repo := Execute(u, REST).repo;
    assert repo.commits[3] == u.repo.commits[3];
    assert repo.commits[5].tree == FeedTree("a", 4);
    assert Pin("b", 1) in Releases(TreeAt(repo.commits, repo.main), Pypi);
    assert Releases(FeedTree("a", 4), Pypi) == [Pin("a", 4)];
  }

  /** One interleaving in which an opened request lacks a reference that main has: the run for "a"
      fetches main, the request for "b" is merged, and only then the run lists the requests. */
  lemma RaceMakesRequestStale() returns (s: State, actions: seq<Action>)
    ensures IsInitial(s) && PublicationHead("a") in Execute(s, actions).repo.open
      && "a" in Execute(s, actions).repo.branches
    ensures IsStale(Execute(s, actions).repo, "a")
  {
    var before: seq<Action>;
    s, before := PublishB();
    RaceStarts(Execute(s, before));
    ExecuteComposes(s, before, RACE);
    RaceEnds(Execute(s, before + RACE));
    ExecuteComposes(s, before + RACE, REST);
    actions := before + RACE + REST;
  }
}
