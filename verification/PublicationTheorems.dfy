/** The promises of the publication protocol, for every state that any interleaving of a
    crashing publisher and the maintainers can reach. */
module PublicationTheorems {
  import opened Results
  import opened Sequences
  import opened RuntimeRecords
  import opened Feeds
  import opened CommitGraph
  import opened Publication
  import opened PublicationSafety
  import opened PublicationRuns

  ghost predicate IsReachable(t: State) {
    exists s, actions :: IsInitial(s) && t == Execute(s, actions)
  }

  lemma ReachableIsGood(t: State)
    requires IsReachable(t)
    ensures Inv(t)
  {
    var s, actions :| IsInitial(s) && t == Execute(s, actions);
    InitialIsGood(s);
    ExecuteKeepsInv(s, actions);
  }

  lemma {:induction false} ExecuteComposes(s: State, first: seq<Action>, second: seq<Action>)
    ensures Execute(s, first + second) == Execute(Execute(s, first), second)
    decreases |first|
  {
    if first == [] {
      assert first + second == second;
    } else {
      assert (first + second)[1..] == first[1..] + second;
      ExecuteComposes(Next(s, first[0]), first[1..], second);
    }
  }

  lemma ExecuteOne(s: State, a: Action)
    ensures Execute(s, [a]) == Next(s, a)
  {
    assert [a][1..] == [];
    assert Execute(Next(s, a), []) == Next(s, a);
  }

  lemma ExecuteLast(s: State, actions: seq<Action>, n: nat)
    requires n < |actions|
    ensures Execute(s, actions[..n + 1]) == Next(Execute(s, actions[..n]), actions[n])
  {
    assert actions[..n + 1] == actions[..n] + [actions[n]];
    ExecuteComposes(s, actions[..n], [actions[n]]);
    ExecuteOne(Execute(s, actions[..n]), actions[n]);
  }

  lemma ReachableOnwards(t: State, more: seq<Action>)
    requires IsReachable(t)
    ensures IsReachable(Execute(t, more))
  {
    var s, actions :| IsInitial(s) && t == Execute(s, actions);
    ExecuteComposes(s, actions, more);
  }

  // ----- record before feed

  /** On main and on every publication branch, each feed reference names a commit in the
      history of that ref, and that commit and the ref hold the record with the digest. */
  lemma RecordBeforeFeed(t: State, c: nat, d: Distribution, r: Reference)
    requires IsReachable(t)
    requires c == t.repo.main || c in t.repo.branches.Values
    requires r in Releases(TreeAt(t.repo.commits, c), d)
    ensures r.url.Pinned? && IsAncestor(t.repo.commits, r.url.commit, c)
    ensures
      var file := At(TreeAt(t.repo.commits, r.url.commit), r.url.path);
      && file.Some? && file.value.RecordFile?
      && PathOf(file.value.record) == r.url.path
      && file.value.record.distribution == d
      && file.value.record.runtimeVersion.text == r.version.text
      && Sha256(file.value) == r.digest
      && At(TreeAt(t.repo.commits, c), r.url.path) == file
  {
    ReachableIsGood(t);
    if c != t.repo.main {
      var id :| id in t.repo.branches && t.repo.branches[id] == c;
      assert IsGoodBranch(t.repo, id);
    }
    ReferenceIsBacked(t.repo.commits, c, d, r);
  }

  lemma ReferenceIsBacked(h: History, c: nat, d: Distribution, r: Reference)
    requires IsGoodHistory(h) && c < |h| && r in Releases(h[c].tree, d)
    ensures IsPinned(h, c, d, r)
    ensures
      var file := At(h[r.url.commit].tree, r.url.path);
      && file.Some? && file.value.RecordFile?
      && PathOf(file.value.record) == r.url.path
      && At(h[c].tree, r.url.path) == file
  {
    assert IsGoodCommit(h, c);
    assert IsGoodFeed(h, c, d);
    PinnedRecordIsHere(h, c, d, r);
    assert IsGoodCommit(h, r.url.commit);
  }

  /** A record never changes its bytes along history, and no reference is ever lost. */
  lemma HistoryIsImmutable(t: State, a: nat, b: nat)
    requires IsReachable(t) && IsAncestor(t.repo.commits, a, b)
    ensures a < |t.repo.commits| && b < |t.repo.commits|
    ensures Preserves(t.repo.commits[a].tree, t.repo.commits[b].tree)
  {
    ReachableIsGood(t);
    DescentPreserves(t.repo.commits, a, b);
    AncestorIsOlder(t.repo.commits, a, b);
  }

  // ----- main only grows

  lemma PublisherLeavesMain(s: State, a: Action)
    requires a.Begin? || a.Survey? || a.PushRecord? || a.PushFeed? || a.Request? || a.Crash?
    ensures s.repo.commits <= PublisherStep(s, a).repo.commits
    ensures PublisherStep(s, a).repo.main == s.repo.main
  {
  }

  lemma MaintainersAdvanceMain(s: State, a: Action)
    requires a.Merge? || a.Close? || a.DeleteBranch? || a.Develop? || a.OpenTopic?
    ensures
      var repo, next := s.repo, MaintainerStep(s, a).repo;
      || (next.commits == repo.commits && next.main == repo.main)
      || (exists commit: Commit :: next.commits == repo.commits + [commit] && next.main == |repo.commits|
            && |commit.parents| > 0 && commit.parents[0] == repo.main)
  {
  }

  lemma MainAdvances(s: State, a: Action)
    requires Inv(s)
    ensures s.repo.commits <= Next(s, a).repo.commits
    ensures IsAncestor(Next(s, a).repo.commits, s.repo.main, Next(s, a).repo.main)
  {
    var h, main := s.repo.commits, s.repo.main;
    if a.Merge? || a.Close? || a.DeleteBranch? || a.Develop? || a.OpenTopic? {
      MaintainersAdvanceMain(s, a);
      var next := MaintainerStep(s, a).repo;
      if next.commits != h {
        var commit: Commit :| next.commits == h + [commit] && next.main == |h|
          && |commit.parents| > 0 && commit.parents[0] == main;
        AncestryIsStable(h, [commit], main, main);
        ParentIsAncestor(next.commits, main, next.main, 0);
      }
    } else {
      PublisherLeavesMain(s, a);
    }
  }

  lemma {:induction false} MainAdvancesAlways(s: State, actions: seq<Action>)
    requires Inv(s)
    ensures s.repo.commits <= Execute(s, actions).repo.commits
    ensures IsAncestor(Execute(s, actions).repo.commits, s.repo.main, Execute(s, actions).repo.main)
    decreases |actions|
  {
    if actions == [] {
    } else {
      var s1 := Next(s, actions[0]);
      var t := Execute(s, actions);
      MainAdvances(s, actions[0]);
      NextKeepsInv(s, actions[0]);
      MainAdvancesAlways(s1, actions[1..]);
      var more := t.repo.commits[|s1.repo.commits|..];
      assert t.repo.commits == s1.repo.commits + more;
      AncestryIsStable(s1.repo.commits, more, s.repo.main, s1.repo.main);
      AncestorTransitive(t.repo.commits, s.repo.main, s1.repo.main, t.repo.main);
    }
  }

  /** Whatever happens later, main keeps every record's bytes and every reference. */
  lemma MainOnlyGrows(t: State, more: seq<Action>)
    requires IsReachable(t)
    ensures
      var before := TreeAt(t.repo.commits, t.repo.main);
      var after := TreeAt(Execute(t, more).repo.commits, Execute(t, more).repo.main);
      Preserves(before, after)
  {
    ReachableIsGood(t);
    MainAdvancesAlways(t, more);
    ReachableOnwards(t, more);
    var u := Execute(t, more);
    HistoryIsImmutable(u, t.repo.main, u.repo.main);
    assert u.repo.commits[t.repo.main] == t.repo.commits[t.repo.main];
  }

  /** There is never more than one open publication request, and it proposes a finished branch. */
  lemma OneRequestAtATime(t: State, p: PullHead, q: PullHead)
    requires IsReachable(t)
    requires p in t.repo.open && p.PublicationHead? && q in t.repo.open && q.PublicationHead?
    ensures p == q
    ensures p.releaseId in t.repo.branches
    ensures IsVerified(t.repo.commits, t.repo.branches[p.releaseId],
      TreeAt(t.repo.commits, t.repo.branches[p.releaseId]))
  {
    ReachableIsGood(t);
    assert IsGoodRequest(t.repo, p.releaseId);
    PlainNamesVerify(t.repo.commits, t.repo.branches[p.releaseId]);
  }

  // ----- the checker

  lemma PlainNamesVerify(h: History, c: nat)
    requires IsGoodHistory(h) && c < |h|
    requires forall d, r :: r in Releases(h[c].tree, d) && r.url.Pinned? ==> IsPlainPath(r.url.path)
    ensures IsVerified(h, c, h[c].tree)
  {
    assert IsGoodCommit(h, c);
    forall d ensures IsReadableFeed(h, c, h[c].tree, d) {
      assert IsGoodFeed(h, c, d);
      forall r | r in Releases(h[c].tree, d) ensures IsReadable(h, c, d, r) {
        PinnedRecordIsHere(h, c, d, r);
      }
    }
  }

  /** Public main passes verification in every reachable state. */
  lemma MainIsVerified(t: State)
    requires IsReachable(t)
    ensures IsVerified(t.repo.commits, t.repo.main, TreeAt(t.repo.commits, t.repo.main))
  {
    ReachableIsGood(t);
    PlainNamesVerify(t.repo.commits, t.repo.main);
  }

  /** On top of a presentable main, an advanced branch passes verification exactly when its own record
      has plain names. */
  lemma AdvancedHeadVerifies(h: History, c: nat)
    requires IsGoodHistory(h) && IsBranchCommit(h, c) && h[c].subject.AdvanceFeed? && IsPresentable(h, BaseOf(h, c))
    ensures IsVerified(h, c, h[c].tree) <==> IsPlainPath(PathOf(h[c].subject.record))
  {
    AdvancedFeedPinsRecord(h, c);
    var record := h[c].subject.record;
    var r := ReferenceTo(record, RecordCommitOf(h, c), Sha256(RecordFile(record)));
    if IsPlainPath(PathOf(record)) {
      PlainNamesVerify(h, c);
    } else {
      assert !IsReadable(h, c, record.distribution, r);
      assert !IsReadableFeed(h, c, h[c].tree, record.distribution);
    }
  }

  /** A proposed head passes verification exactly when its own record has plain names. */
  lemma ProposedHeadIsVerified(t: State)
    requires IsReachable(t) && t.run.Working? && t.run.stage.FeedPushed?
    ensures
      IsVerified(t.repo.commits, t.run.head, TreeAt(t.repo.commits, t.run.head)) <==>
      IsPlainPath(PathOf(t.run.record))
  {
    ReachableIsGood(t);
    AdvancedHeadVerifies(t.repo.commits, t.run.head);
  }

  /** The same merged tree, committed without the branch as a parent. */
  function SquashRequest(repo: Repo, releaseId: string, base: nat): Repo
    requires CanMerge(repo, releaseId, base)
  {
    var tree := MergeRequest(repo, releaseId, base).commits[|repo.commits|].tree;
    repo.(
      commits := repo.commits + [Commit([repo.main], tree, Ordinary)],
      main := |repo.commits|,
      open := Dropping(repo.open, PublicationHead(releaseId)))
  }

  /** The reference of an advanced feed that no earlier commit has. */
  lemma AdvancedFeedPinsRecord(h: History, c: nat)
    requires IsGoodHistory(h) && IsBranchCommit(h, c) && h[c].subject.AdvanceFeed?
    ensures
      var record, k := h[c].subject.record, RecordCommitOf(h, c);
      var r := ReferenceTo(record, k, Sha256(RecordFile(record)));
      && r in Releases(h[c].tree, record.distribution)
      && forall d, x :: x in Releases(h[c].tree, d) ==>
           x in Releases(h[BaseOf(h, c)].tree, d) || (x == r && d == record.distribution)
  {
    var record, k, base := h[c].subject.record, RecordCommitOf(h, c), BaseOf(h, c);
    assert IsGoodCommit(h, c);
    assert IsGoodCommit(h, k);
    AdvancedFeedIsWellKept(h, k, At(h[c].tree, FeedPath(record.distribution)).value.feed);
    forall d, x | x in Releases(h[c].tree, d)
      ensures x in Releases(h[base].tree, d) ||
        (x == ReferenceTo(record, k, Sha256(RecordFile(record))) && d == record.distribution)
    {
      assert At(h[k].tree, FeedPath(d)) == At(h[base].tree, FeedPath(d));
    }
  }

  /** Squashing an open request instead of merging it is always found out. */
  lemma SquashIsRejected(t: State, id: string, base: nat)
    requires IsReachable(t) && CanMerge(t.repo, id, base)
    ensures
      var squashed := SquashRequest(t.repo, id, base);
      !IsVerified(squashed.commits, squashed.main, TreeAt(squashed.commits, squashed.main))
  {
    ReachableIsGood(t);
    assert IsGoodRequest(t.repo, PublicationHead(id).releaseId);
    SquashLosesRecordCommit(t.repo, id, base);
  }

  lemma SquashLosesRecordCommit(repo: Repo, id: string, base: nat)
    requires IsGoodRepo(repo) && CanMerge(repo, id, base) && IsGoodRequest(repo, id)
    ensures
      var squashed := SquashRequest(repo, id, base);
      !IsVerified(squashed.commits, squashed.main, TreeAt(squashed.commits, squashed.main))
  {
    var h, c := repo.commits, repo.branches[id];
    var squashed := SquashRequest(repo, id, base);
    var k, d := RecordCommitOf(h, c), h[c].subject.record.distribution;
    var r := ReferenceTo(h[c].subject.record, k, Sha256(RecordFile(h[c].subject.record)));
    AdvancedFeedPinsRecord(h, c);
    MergeKeepsHistory(h, repo.main, c, base);
    var tree := squashed.commits[|h|].tree;
    assert r in Releases(tree, d);
    AncestryIsStable(h, [squashed.commits[|h|]], k, repo.main);
    assert !IsAncestor(squashed.commits, k, |h|);
    assert !IsReadable(squashed.commits, |h|, d, r);
    assert !IsReadableFeed(squashed.commits, |h|, tree, d);
  }

  // ----- reruns once the record is on main

  /** On any repository at all: what a run reports that finds its path on main. */
  lemma ReportOnMainMeans(repo: Repo, record: Record)
    requires PathOf(record) in TreeAt(repo.commits, repo.main)
    ensures
      var o, tree := AlreadyOnMain(repo, record), TreeAt(repo.commits, repo.main);
      var path := RecordPath(record.distribution, record.runtimeVersion.text, record.releaseId);
      var same := tree[path] == RecordFile(record);
      var listed := exists r :: r in Releases(tree, record.distribution) && r.url.path == path
                                && r.digest == Sha256(RecordFile(record));
      && (o == Published(repo.main, path) <==> same && listed && IsVerified(repo.commits, repo.main, tree))
      && (o == Failed(DifferentBytes) <==> !same)
      && (o == Failed(NotInMainFeed) <==> same && !listed)
      && (o == Failed(VerificationFailed) <==> same && listed && !IsVerified(repo.commits, repo.main, tree))
  {
  }

  /** A rerun for a record that is on main reports it published exactly when the bytes agree. */
  lemma RerunReportsPublished(t: State, record: Record)
    requires IsReachable(t) && PathOf(record) in TreeAt(t.repo.commits, t.repo.main)
    ensures AlreadyOnMain(t.repo, record) ==
      if TreeAt(t.repo.commits, t.repo.main)[PathOf(record)] == RecordFile(record)
      then Published(t.repo.main, PathOf(record)) else Failed(DifferentBytes)
  {
    ReachableIsGood(t);
    MainIsVerified(t);
    var h, m := t.repo.commits, t.repo.main;
    var path := PathOf(record);
    assert IsReferenced(h[m].tree, path);
    var r :| r in Releases(h[m].tree, path.distribution) && r.url.Pinned? && r.url.path == path;
    RecordBeforeFeed(t, m, path.distribution, r);
  }

  // ----- load_source_record

  datatype LoadError = NotOnMain | NotUniquelyPublished | DigestDiffers | NotCommitPinned | IdentityDiffers

  function ReferencesTo(refs: seq<Reference>, path: Path): (found: seq<Reference>)
    ensures forall r :: r in found <==> r in refs && r.url.path == path
  {
    if refs == [] then []
    else if refs[0].url.path == path then [refs[0]] + ReferencesTo(refs[1..], path)
    else ReferencesTo(refs[1..], path)
  }

  /** The source record of a version and release id, with the commit that published it. */
  function LoadSourceRecord(h: History, head: nat, version: string, releaseId: string)
    : Result<(Record, nat), LoadError>
  {
    var tree := TreeAt(h, head);
    var path := RecordPath(Pypi, version, releaseId);
    if path !in tree then Err(NotOnMain)
    else
      var found := ReferencesTo(Releases(tree, Pypi), path);
      if |found| != 1 then Err(NotUniquelyPublished)
      else if found[0].digest != Sha256(tree[path]) then Err(DigestDiffers)
      else if !found[0].url.Pinned? || !IsAncestor(h, found[0].url.commit, head) then Err(NotCommitPinned)
      else if !tree[path].RecordFile? || PathOf(tree[path].record) != path then Err(IdentityDiffers)
      else Ok((tree[path].record, found[0].url.commit))
  }

  lemma {:induction false} OneReferenceFound(refs: seq<Reference>, path: Path)
    requires HasNoRepeats(refs) && OnePerPath(refs) && forall r :: r in refs ==> r.url.Pinned?
    ensures |ReferencesTo(refs, path)| <= 1
  {
    if refs == [] {
    } else {
      assert forall x :: x in refs[1..] ==> x in refs;
      OneReferenceFound(refs[1..], path);
      var rest := ReferencesTo(refs[1..], path);
      assert forall i :: 0 < i < |refs| ==> refs[i] != refs[0];
      assert rest != [] ==> rest[0] in rest;
    }
  }

  ghost predicate LeadsTo(r: Reference, path: Path) {
    r.url.path == path
  }

  ghost predicate IsOnlyReference(refs: seq<Reference>, i: nat, path: Path) {
    && i < |refs| && LeadsTo(refs[i], path)
    && forall j :: 0 <= j < |refs| && j != i ==> !LeadsTo(refs[j], path)
  }

  lemma {:induction false} NoneFound(refs: seq<Reference>, path: Path)
    requires forall i :: 0 <= i < |refs| ==> !LeadsTo(refs[i], path)
    ensures ReferencesTo(refs, path) == []
  {
    if refs == [] {
    } else {
      NoneFound(refs[1..], path);
    }
  }

  lemma {:induction false} FoundOnce(refs: seq<Reference>, path: Path, i: nat)
    requires IsOnlyReference(refs, i, path)
    ensures ReferencesTo(refs, path) == [refs[i]]
  {
    var rest := refs[1..];
    if i == 0 {
      NoneFound(rest, path);
    } else {
      assert !LeadsTo(refs[0], path);
      FoundOnce(rest, path, i - 1);
    }
  }

  lemma {:induction false} TheOneFound(refs: seq<Reference>, path: Path) returns (i: nat)
    requires |ReferencesTo(refs, path)| == 1
    ensures IsOnlyReference(refs, i, path) && ReferencesTo(refs, path) == [refs[i]]
  {
    var rest := refs[1..];
    assert forall j :: 0 < j < |refs| ==> refs[j] == rest[j - 1] && refs[j] in rest;
    if LeadsTo(refs[0], path) {
      i := 0;
      assert ReferencesTo(rest, path) == [];
    } else {
      var k := TheOneFound(rest, path);
      i := k + 1;
    }
  }

  /** What makes a source record loadable from any commit, through the reference at `i`. */
  ghost predicate IsLoadable(h: History, head: nat, version: string, releaseId: string, i: nat) {
    var tree, path := TreeAt(h, head), RecordPath(Pypi, version, releaseId);
    && IsOnlyReference(Releases(tree, Pypi), i, path)
    && var r := Releases(tree, Pypi)[i];
    && path in tree && tree[path].RecordFile?
    && tree[path].record.distribution == Pypi && tree[path].record.runtimeVersion.text == version
    && tree[path].record.releaseId == releaseId
    && r.digest == Sha256(tree[path]) && r.url.Pinned? && IsAncestor(h, r.url.commit, head)
  }

  /** From any commit, loading succeeds exactly if the feed has one reference to the path, which pins an
      ancestor and has the digest of the record there; the result is that record and the pinned commit. */
  lemma LoadSourceRecordMeans(h: History, head: nat, version: string, releaseId: string)
    ensures
      var loaded := LoadSourceRecord(h, head, version, releaseId);
      && (loaded.Ok? <==> exists i :: IsLoadable(h, head, version, releaseId, i))
      && forall i: nat :: IsLoadable(h, head, version, releaseId, i) ==>
           loaded == Ok((TreeAt(h, head)[RecordPath(Pypi, version, releaseId)].record,
                         Releases(TreeAt(h, head), Pypi)[i].url.commit))
  {
    var refs, path := Releases(TreeAt(h, head), Pypi), RecordPath(Pypi, version, releaseId);
    forall i: nat | IsOnlyReference(refs, i, path) ensures ReferencesTo(refs, path) == [refs[i]] {
      FoundOnce(refs, path, i);
    }
    if |ReferencesTo(refs, path)| == 1 {
      var i := TheOneFound(refs, path);
      assert LoadSourceRecord(h, head, version, releaseId).Ok? ==> IsLoadable(h, head, version, releaseId, i);
    }
  }

  /** On any reachable main, loading succeeds exactly for the records that are there, and gives
      the record with a commit of main's history that holds the same bytes. */
  lemma LoadSourceRecordIsExact(t: State, version: string, releaseId: string)
    requires IsReachable(t)
    ensures
      var loaded := LoadSourceRecord(t.repo.commits, t.repo.main, version, releaseId);
      var file := At(TreeAt(t.repo.commits, t.repo.main), RecordPath(Pypi, version, releaseId));
      && (loaded.Ok? <==> file.Some?)
      && (loaded.Ok? ==>
          && file == Some(RecordFile(loaded.value.0))
          && IsAncestor(t.repo.commits, loaded.value.1, t.repo.main)
          && At(TreeAt(t.repo.commits, loaded.value.1), RecordPath(Pypi, version, releaseId)) == file
          && exists r :: r in Releases(TreeAt(t.repo.commits, t.repo.main), Pypi)
                         && r.url == Pinned(loaded.value.1, RecordPath(Pypi, version, releaseId)))
  {
    ReachableIsGood(t);
    var h, m := t.repo.commits, t.repo.main;
    var path := RecordPath(Pypi, version, releaseId);
    assert IsGoodCommit(h, m);
    assert IsGoodFeed(h, m, Pypi);
    if path in h[m].tree {
      assert IsReferenced(h[m].tree, path);
      var found := ReferencesTo(Releases(h[m].tree, Pypi), path);
      OneReferenceFound(Releases(h[m].tree, Pypi), path);
      var r :| r in found;
      assert r == found[0];
      RecordBeforeFeed(t, m, Pypi, r);
    }
  }
}
