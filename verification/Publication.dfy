/** The publication protocol of the runtime publisher as a state machine: one publisher run at
    a time, cut at any point, interleaved with what maintainers do to the public repository. */
module Publication {
  import opened Results
  import opened RuntimeRecords
  import opened Feeds
  import opened CommitGraph

  const LISTING_LIMIT: nat := 1000

  /** The head branch of a pull request against main. */
  datatype PullHead = PublicationHead(releaseId: string) | TopicHead(name: string)

  /** The public repository: commits, main, the `runtime-publication/<id>` branches and the
      open pull requests against main. */
  datatype Repo = Repo(commits: History, main: nat, branches: map<string, nat>, open: seq<PullHead>)

  datatype PublishError =
    | ListingCapped | OtherPending | StaleBranch | ForeignChanges | DifferentBytes | PushRejected
    | ReadbackDiffers | FeedUnreadable | FeedRefused(reason: FeedError) | NotInMainFeed
    | VerificationFailed | RequestRefused | NothingToMerge

  datatype Outcome =
    | Published(feedCommit: nat, path: Path)
    | PendingMerge(recordCommit: nat, feedCommit: nat, path: Path)
    | Failed(error: PublishError)

  datatype Stage = Surveyed | RecordPushed | FeedPushed

  /** Where a publisher run stands between two accesses to the public repository. */
  datatype Run =
    | Quiet(last: Option<Outcome>)
    | Fetched(record: Record, origin: nat)
    | Working(stage: Stage, record: Record, origin: nat, head: nat, requested: bool)

  datatype State = State(repo: Repo, run: Run)

  datatype Action =
    | Begin(record: Record) | Survey | PushRecord | PushFeed | Request | Crash
    | Merge(releaseId: string, base: nat) | Close(head: PullHead) | DeleteBranch(releaseId: string)
    | Develop(tree: Tree) | OpenTopic(name: string)

  function TreeAt(h: History, c: nat): Tree {
    if c < |h| then h[c].tree else map[]
  }

  // ----- verify_published

  /** A reference that an anonymous reader of the head can follow. */
  predicate IsReadable(h: History, head: nat, d: Distribution, r: Reference) {
    && r.url.Pinned?
    && r.url.path.RecordPath? && r.url.path.distribution == d
    && IsPlainPath(r.url.path)
    && r.url.path in TreeAt(h, head)
    && r.digest == Sha256(TreeAt(h, head)[r.url.path])
    && IsAncestor(h, r.url.commit, head)
    && At(TreeAt(h, r.url.commit), r.url.path) == At(TreeAt(h, head), r.url.path)
  }

  predicate IsPlainPath(p: Path) {
    p.RecordPath? ==> IsPlainName(p.version) && IsPlainName(p.releaseId)
  }

  predicate IsReadableFeed(h: History, head: nat, public: Tree, d: Distribution) {
    var file := At(TreeAt(h, head), FeedPath(d));
    && file.Some? && file.value.FeedFile?
    && At(public, FeedPath(d)) == file
    && forall r :: r in file.value.feed.releases ==> IsReadable(h, head, d, r)
  }

  predicate IsVerified(h: History, head: nat, public: Tree) {
    forall d: Distribution :: IsReadableFeed(h, head, public, d)
  }

  /** The checks of one reference, in their order: the address, the local file, its digest, the pinned
      commit, and what the pinned commit serves. */
  method VerifyReference(h: History, head: nat, d: Distribution, r: Reference) returns (ok: bool)
    ensures ok <==> IsReadable(h, head, d, r)
  {
    if !r.url.Pinned? || !r.url.path.RecordPath? { return false; }
    var commit, path := r.url.commit, r.url.path;
    if path.distribution != d || !IsPlainName(path.version) || !IsPlainName(path.releaseId) { return false; }
    var tree := TreeAt(h, head);
    if path !in tree { return false; }
    if Sha256(tree[path]) != r.digest { return false; }
    if !IsAncestor(h, commit, head) { return false; }
    ok := At(TreeAt(h, commit), path) == Some(tree[path]);
  }

  /** The checking loop over both feeds and every reference in them. */
  method VerifyPublished(h: History, head: nat, public: Tree) returns (ok: bool)
    ensures ok <==> IsVerified(h, head, public)
  {
    var sources := [Pypi, Binary];
    for s := 0 to 2
      invariant forall k :: 0 <= k < s ==> IsReadableFeed(h, head, public, sources[k])
    {
      var file := At(TreeAt(h, head), FeedPath(sources[s]));
      if !(file.Some? && file.value.FeedFile?) || At(public, FeedPath(sources[s])) != file {
        assert !IsReadableFeed(h, head, public, sources[s]);
        return false;
      }
      var releases := file.value.feed.releases;
      for i := 0 to |releases|
        invariant forall k :: 0 <= k < i ==> IsReadable(h, head, sources[s], releases[k])
      {
        var readable := VerifyReference(h, head, sources[s], releases[i]);
        if !readable {
          assert !IsReadableFeed(h, head, public, sources[s]);
          return false;
        }
      }
    }
    forall d: Distribution ensures IsReadableFeed(h, head, public, d) {
      assert d == sources[if d.Pypi? then 0 else 1];
    }
    ok := true;
  }

  // ----- the stages of publish

  /** What a run that finds its record on main reports; it changes nothing. */
  function AlreadyOnMain(repo: Repo, record: Record): Outcome
    requires PathOf(record) in TreeAt(repo.commits, repo.main)
  {
    var tree := TreeAt(repo.commits, repo.main);
    var path := PathOf(record);
    if tree[path] != RecordFile(record) then Failed(DifferentBytes)
    else if !exists r :: r in Releases(tree, record.distribution) && PublishesFile(r, record) then Failed(NotInMainFeed)
    else if !IsVerified(repo.commits, repo.main, tree) then Failed(VerificationFailed)
    else Published(repo.main, path)
  }

  predicate PublishesFile(r: Reference, record: Record) {
    r.url.path == PathOf(record) && r.digest == Sha256(RecordFile(record))
  }

  function Listing(open: seq<PullHead>): seq<PullHead> {
    if |open| <= LISTING_LIMIT then open else open[..LISTING_LIMIT]
  }

  datatype Workspace = Workspace(head: nat, requested: bool)

  /** The pending-request guard, then the checkout of the publication branch and its checks. */
  function Checkout(repo: Repo, record: Record, origin: nat): Result<Workspace, PublishError> {
    var listing := Listing(repo.open);
    if |listing| >= LISTING_LIMIT then Err(ListingCapped)
    else if exists p :: p in listing && p.PublicationHead? && p.releaseId != record.releaseId then Err(OtherPending)
    else
      var known := record.releaseId in repo.branches;
      var head := if known then repo.branches[record.releaseId] else origin;
      if known && !IsAncestor(repo.commits, origin, head) then Err(StaleBranch)
      else if !(ChangedPaths(TreeAt(repo.commits, origin), TreeAt(repo.commits, head))
                <= {PathOf(record), FeedPath(record.distribution)}) then Err(ForeignChanges)
      else Ok(Workspace(head, PublicationHead(record.releaseId) in listing))
  }

  /** A push is accepted when it only adds to the branch. */
  function Push(repo: Repo, releaseId: string, commit: Commit): Result<Repo, PublishError> {
    var pushed := repo.commits + [commit];
    if releaseId in repo.branches && !IsAncestor(pushed, repo.branches[releaseId], |repo.commits|)
    then Err(PushRejected)
    else Ok(repo.(commits := pushed, branches := repo.branches[releaseId := |repo.commits|]))
  }

  datatype Pushed = Pushed(repo: Repo, head: nat)

  function WriteRecord(repo: Repo, record: Record, head: nat): Result<Pushed, PublishError> {
    var tree := TreeAt(repo.commits, head);
    var path := PathOf(record);
    if path in tree then
      if tree[path] == RecordFile(record) then Ok(Pushed(repo, head)) else Err(DifferentBytes)
    else
      var commit := Commit([head], tree[path := RecordFile(record)], CommitGraph.PublishRecord(record));
      match Push(repo, record.releaseId, commit)
      case Err(e) => Err(e)
      case Ok(next) => Ok(Pushed(next, |repo.commits|))
  }

  function WriteFeed(repo: Repo, record: Record, head: nat): Result<Pushed, PublishError> {
    var tree := TreeAt(repo.commits, head);
    var recordCommit := LastTouch(repo.commits, head, PathOf(record));
    var file := At(tree, FeedPath(record.distribution));
    if At(TreeAt(repo.commits, recordCommit), PathOf(record)) != Some(RecordFile(record)) then Err(ReadbackDiffers)
    else if !(file.Some? && file.value.FeedFile?) then Err(FeedUnreadable)
    else
      match AddReference(file.value.feed, record, recordCommit, Sha256(RecordFile(record)))
      case Err(e) => Err(FeedRefused(e))
      case Ok(updated) =>
        if updated.releases == file.value.feed.releases then Ok(Pushed(repo, head))
        else
          var advanced := tree[FeedPath(record.distribution) := FeedFile(updated)];
          match Push(repo, record.releaseId, Commit([head], advanced, AdvanceFeed(record)))
          case Err(e) => Err(e)
          case Ok(next) => Ok(Pushed(next, |repo.commits|))
  }

  /** Verification of the proposed head, then a new pull request unless one is open. A branch that is
      on main already has nothing to merge and gets none. */
  function OpenRequest(repo: Repo, record: Record, head: nat, requested: bool): Result<Repo, PublishError> {
    if !IsVerified(repo.commits, head, TreeAt(repo.commits, head)) then Err(VerificationFailed)
    else if requested then Ok(repo)
    else if record.releaseId !in repo.branches then Err(RequestRefused)
    else if PublicationHead(record.releaseId) in repo.open then Err(RequestRefused)
    else if IsAncestor(repo.commits, repo.branches[record.releaseId], repo.main) then Err(NothingToMerge)
    else Ok(repo.(open := repo.open + [PublicationHead(record.releaseId)]))
  }

  // ----- the state machine

  function Stop(s: State, e: PublishError): State {
    s.(run := Quiet(Some(Failed(e))))
  }

  function PublisherStep(s: State, a: Action): State
    requires a.Begin? || a.Survey? || a.PushRecord? || a.PushFeed? || a.Request? || a.Crash?
  {
    match a
    case Begin(record) =>
      if !s.run.Quiet? then s
      else if PathOf(record) in TreeAt(s.repo.commits, s.repo.main) then
        s.(run := Quiet(Some(AlreadyOnMain(s.repo, record))))
      else s.(run := Fetched(record, s.repo.main))
    case Survey =>
      if !s.run.Fetched? then s
      else
        (match Checkout(s.repo, s.run.record, s.run.origin)
         case Err(e) => Stop(s, e)
         case Ok(w) => s.(run := Working(Surveyed, s.run.record, s.run.origin, w.head, w.requested)))
    case PushRecord =>
      if !(s.run.Working? && s.run.stage.Surveyed?) then s
      else
        (match WriteRecord(s.repo, s.run.record, s.run.head)
         case Err(e) => Stop(s, e)
         case Ok(p) => State(p.repo, s.run.(stage := RecordPushed, head := p.head)))
    case PushFeed =>
      if !(s.run.Working? && s.run.stage.RecordPushed?) then s
      else
        (match WriteFeed(s.repo, s.run.record, s.run.head)
         case Err(e) => Stop(s, e)
         case Ok(p) => State(p.repo, s.run.(stage := FeedPushed, head := p.head)))
    case Request =>
      if !(s.run.Working? && s.run.stage.FeedPushed?) then s
      else
        (match OpenRequest(s.repo, s.run.record, s.run.head, s.run.requested)
         case Err(e) => Stop(s, e)
         case Ok(next) =>
           var recordCommit := LastTouch(s.repo.commits, s.run.head, PathOf(s.run.record));
           State(next, Quiet(Some(PendingMerge(recordCommit, s.run.head, PathOf(s.run.record))))))
    case Crash => s.(run := Quiet(None))
  }

  function Dropping(open: seq<PullHead>, p: PullHead): (rest: seq<PullHead>)
    ensures forall x :: x in rest <==> x in open && x != p
  {
    if open == [] then []
    else if open[0] == p then Dropping(open[1..], p)
    else [open[0]] + Dropping(open[1..], p)
  }

  /** Merging a publication request with a merge commit, over any common ancestor as base. */
  predicate CanMerge(repo: Repo, releaseId: string, base: nat) {
    && PublicationHead(releaseId) in repo.open
    && releaseId in repo.branches
    && IsAncestor(repo.commits, base, repo.main)
    && IsAncestor(repo.commits, base, repo.branches[releaseId])
    && MergesCleanly(TreeAt(repo.commits, base), TreeAt(repo.commits, repo.main),
         TreeAt(repo.commits, repo.branches[releaseId]))
  }

  function MergeRequest(repo: Repo, releaseId: string, base: nat): Repo
    requires CanMerge(repo, releaseId, base)
  {
    var head := repo.branches[releaseId];
    var tree := MergedTree(TreeAt(repo.commits, base), TreeAt(repo.commits, repo.main), TreeAt(repo.commits, head));
    repo.(
      commits := repo.commits + [Commit([repo.main, head], tree, Merged)],
      main := |repo.commits|,
      open := Dropping(repo.open, PublicationHead(releaseId)))
  }

  /** Ordinary development leaves the published files alone. */
  predicate KeepsPublished(t: Tree, u: Tree) {
    && (forall p :: p in t && !p.OtherPath? ==> p in u && u[p] == t[p])
    && (forall p :: p in u && !p.OtherPath? ==> p in t)
  }

  function MaintainerStep(s: State, a: Action): State
    requires a.Merge? || a.Close? || a.DeleteBranch? || a.Develop? || a.OpenTopic?
  {
    match a
    case Merge(id, base) => if CanMerge(s.repo, id, base) then s.(repo := MergeRequest(s.repo, id, base)) else s
    case Close(p) => s.(repo := s.repo.(open := Dropping(s.repo.open, p)))
    case DeleteBranch(id) =>
      s.(repo := s.repo.(branches := s.repo.branches - {id}, open := Dropping(s.repo.open, PublicationHead(id))))
    case Develop(tree) =>
      if KeepsPublished(TreeAt(s.repo.commits, s.repo.main), tree) then
        s.(repo := s.repo.(commits := s.repo.commits + [Commit([s.repo.main], tree, Ordinary)],
            main := |s.repo.commits|))
      else s
    case OpenTopic(name) =>
      if TopicHead(name) in s.repo.open then s else s.(repo := s.repo.(open := s.repo.open + [TopicHead(name)]))
  }

  function Next(s: State, a: Action): State {
    if a.Merge? || a.Close? || a.DeleteBranch? || a.Develop? || a.OpenTopic? then MaintainerStep(s, a)
    else PublisherStep(s, a)
  }

  function Execute(s: State, actions: seq<Action>): State
    decreases |actions|
  {
    if actions == [] then s else Execute(Next(s, actions[0]), actions[1..])
  }

  /** One commit with both feeds empty and no record, no branch, no request. */
  ghost predicate IsInitial(s: State) {
    && s.run.Quiet?
    && |s.repo.commits| == 1 && s.repo.main == 0
    && s.repo.branches == map[] && s.repo.open == []
    && s.repo.commits[0].parents == [] && s.repo.commits[0].subject.Ordinary?
    && (forall p :: p in s.repo.commits[0].tree ==> !p.RecordPath?)
    && (forall d :: IsEmptyFeed(At(s.repo.commits[0].tree, FeedPath(d)), d))
  }

  ghost predicate IsEmptyFeed(file: Option<Content>, d: Distribution) {
    file.Some? && file.value.FeedFile? && IsStableFeed(file.value.feed, d) && file.value.feed.releases == []
  }
}
