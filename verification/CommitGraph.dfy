/** The commit graph of the public repository: what `git` answers about ancestry, about the
    last commit that touched a path, and about merging two trees. Commits are numbered in the
    order in which they were made, so a parent has a smaller number than its child. */
module CommitGraph {
  import opened Results
  import opened RuntimeRecords

  type Tree = map<Path, Content>

  /** What a commit was made for. The two commits of a publication name the record they publish. */
  datatype Subject =
    | Ordinary
    | Merged
    | PublishRecord(record: Record)
    | AdvanceFeed(record: Record)

  datatype Commit = Commit(parents: seq<nat>, tree: Tree, subject: Subject)

  type History = seq<Commit>

  ghost predicate IsAcyclic(h: History) {
    forall c, i :: 0 <= c < |h| && 0 <= i < |h[c].parents| ==> h[c].parents[i] < c
  }

  /** `git merge-base --is-ancestor a b`, where a commit counts as its own ancestor. */
  predicate IsAncestor(h: History, a: nat, b: nat)
    decreases b
  {
    && b < |h|
    && (a == b ||
        exists i :: 0 <= i < |h[b].parents| && h[b].parents[i] < b && IsAncestor(h, a, h[b].parents[i]))
  }

  function At(t: Tree, p: Path): Option<Content> {
    if p in t then Some(t[p]) else None
  }

  /** `git diff --name-only`. */
  function ChangedPaths(t: Tree, u: Tree): set<Path> {
    set p | p in t.Keys + u.Keys && At(t, p) != At(u, p)
  }

  /** `git log -1 --format=%H -- path`: at a merge the walk follows a parent that already has
      the same file. */
  function LastTouch(h: History, c: nat, p: Path): nat
    decreases c
  {
    if c < |h| && exists i :: 0 <= i < |h[c].parents| && SameAtParent(h, c, i, p) then
      LastTouch(h, h[c].parents[FirstSame(h, c, 0, p)], p)
    else
      c
  }

  predicate SameAtParent(h: History, c: nat, i: nat, p: Path)
    requires c < |h| && i < |h[c].parents|
  {
    h[c].parents[i] < c && At(h[h[c].parents[i]].tree, p) == At(h[c].tree, p)
  }

  function FirstSame(h: History, c: nat, from: nat, p: Path): (i: nat)
    requires c < |h| && exists i :: from <= i < |h[c].parents| && SameAtParent(h, c, i, p)
    ensures i < |h[c].parents| && SameAtParent(h, c, i, p)
    decreases |h[c].parents| - from
  {
    if SameAtParent(h, c, from, p) then from else FirstSame(h, c, from + 1, p)
  }

  /** Three-way merge, file by file: `theirs` wins where it departs from the base. */
  function MergedAt(base: Tree, ours: Tree, theirs: Tree, p: Path): Option<Content> {
    if At(theirs, p) == At(base, p) then At(ours, p) else At(theirs, p)
  }

  predicate Conflicts(base: Tree, ours: Tree, theirs: Tree, p: Path) {
    && At(ours, p) != At(base, p)
    && At(theirs, p) != At(base, p)
    && At(ours, p) != At(theirs, p)
  }

  /** A file changed on both sides in different ways refuses the merge. */
  predicate MergesCleanly(base: Tree, ours: Tree, theirs: Tree) {
    forall p :: p in base.Keys + ours.Keys + theirs.Keys ==> !Conflicts(base, ours, theirs, p)
  }

  function MergedTree(base: Tree, ours: Tree, theirs: Tree): (t: Tree)
    ensures forall p :: At(t, p) == MergedAt(base, ours, theirs, p)
  {
    map p | p in ours.Keys + theirs.Keys && MergedAt(base, ours, theirs, p).Some? ::
      MergedAt(base, ours, theirs, p).value
  }

  // ----- ancestry

  lemma {:induction false} AncestorIsOlder(h: History, a: nat, b: nat)
    requires IsAncestor(h, a, b)
    ensures a <= b < |h|
    decreases b
  {
    if a == b {
    } else {
      var i :| 0 <= i < |h[b].parents| && h[b].parents[i] < b && IsAncestor(h, a, h[b].parents[i]);
      AncestorIsOlder(h, a, h[b].parents[i]);
    }
  }

  lemma {:induction false} AncestorTransitive(h: History, a: nat, b: nat, c: nat)
    requires IsAncestor(h, a, b) && IsAncestor(h, b, c)
    ensures IsAncestor(h, a, c)
    decreases c
  {
    if b == c {
    } else {
      var i :| 0 <= i < |h[c].parents| && h[c].parents[i] < c && IsAncestor(h, b, h[c].parents[i]);
      AncestorTransitive(h, a, b, h[c].parents[i]);
    }
  }

  lemma ParentIsAncestor(h: History, a: nat, c: nat, i: nat)
    requires c < |h| && i < |h[c].parents| && h[c].parents[i] < c
    requires IsAncestor(h, a, h[c].parents[i])
    ensures IsAncestor(h, a, c)
  {
  }

  /** New commits never change what was an ancestor of what. */
  lemma {:induction false} AncestryIsStable(h: History, more: History, a: nat, b: nat)
    requires b < |h|
    ensures IsAncestor(h + more, a, b) <==> IsAncestor(h, a, b)
    decreases b
  {
    assert (h + more)[b] == h[b];
    forall i | 0 <= i < |h[b].parents| && h[b].parents[i] < b
      ensures IsAncestor(h + more, a, h[b].parents[i]) <==> IsAncestor(h, a, h[b].parents[i])
    {
      AncestryIsStable(h, more, a, h[b].parents[i]);
    }
  }

  /** The commit found by the log is in the history and has the very file of the head. */
  lemma {:induction false} LastTouchHasTheFile(h: History, c: nat, p: Path)
    requires c < |h|
    ensures LastTouch(h, c, p) <= c && IsAncestor(h, LastTouch(h, c, p), c)
    ensures At(h[LastTouch(h, c, p)].tree, p) == At(h[c].tree, p)
    decreases c
  {
    if exists i :: 0 <= i < |h[c].parents| && SameAtParent(h, c, i, p) {
      var i := FirstSame(h, c, 0, p);
      LastTouchHasTheFile(h, h[c].parents[i], p);
    }
  }

  // ----- properties that hold along every edge hold along every line of descent

  /** Everything `old` publishes is still published by `new`: records keep their bytes and
      feeds keep their references. */
  ghost predicate Preserves(before: Tree, after: Tree) {
    && (forall p :: p in before && p.RecordPath? ==> p in after && after[p] == before[p])
    && (forall d, r :: r in Releases(before, d) ==> r in Releases(after, d))
  }

  /** The references of a distribution's stable feed in a tree. */
  function Releases(t: Tree, d: Distribution): seq<Reference> {
    ReferencesIn(At(t, FeedPath(d)))
  }

  function ReferencesIn(file: Option<Content>): seq<Reference> {
    if file.Some? && file.value.FeedFile? then file.value.feed.releases else []
  }

  ghost predicate EdgesPreserve(h: History) {
    forall c, i :: 0 <= c < |h| && 0 <= i < |h[c].parents| && h[c].parents[i] < c ==>
      Preserves(h[h[c].parents[i]].tree, h[c].tree)
  }

  lemma {:induction false} DescentPreserves(h: History, a: nat, b: nat)
    requires EdgesPreserve(h) && IsAncestor(h, a, b)
    ensures a < |h| && Preserves(h[a].tree, h[b].tree)
    decreases b
  {
    if a == b {
    } else {
      var i :| 0 <= i < |h[b].parents| && h[b].parents[i] < b && IsAncestor(h, a, h[b].parents[i]);
      DescentPreserves(h, a, h[b].parents[i]);
    }
  }

  /** A clean merge over any common ancestor preserves what both sides publish. */
  lemma MergePreserves(base: Tree, ours: Tree, theirs: Tree)
    requires Preserves(base, ours) && Preserves(base, theirs)
    requires MergesCleanly(base, ours, theirs)
    ensures Preserves(ours, MergedTree(base, ours, theirs))
    ensures Preserves(theirs, MergedTree(base, ours, theirs))
  {
    var t := MergedTree(base, ours, theirs);
    forall p: Path | p.RecordPath? && (p in ours || p in theirs)
      ensures p in ours ==> At(t, p) == At(ours, p)
      ensures p in theirs ==> At(t, p) == At(theirs, p)
    {
      assert !Conflicts(base, ours, theirs, p);
      assert At(t, p) == MergedAt(base, ours, theirs, p);
    }
    forall d ensures forall r :: r in Releases(ours, d) || r in Releases(theirs, d) ==> r in Releases(t, d) {
      MergedReleases(base, ours, theirs, d);
    }
  }

  /** The merged feed is one of the two feeds, and holds the references of both. */
  lemma MergedReleases(base: Tree, ours: Tree, theirs: Tree, d: Distribution)
    requires Preserves(base, ours) && Preserves(base, theirs)
    requires MergesCleanly(base, ours, theirs)
    ensures At(MergedTree(base, ours, theirs), FeedPath(d)) in {At(ours, FeedPath(d)), At(theirs, FeedPath(d))}
    ensures forall r :: r in Releases(ours, d) || r in Releases(theirs, d) ==>
      r in Releases(MergedTree(base, ours, theirs), d)
  {
    var p := FeedPath(d);
    var t := MergedTree(base, ours, theirs);
    assert At(t, p) == MergedAt(base, ours, theirs, p);
    if p in base.Keys + ours.Keys + theirs.Keys {
      assert !Conflicts(base, ours, theirs, p);
    }
    if At(theirs, p) == At(base, p) {
      assert Releases(theirs, d) == Releases(base, d);
      assert Releases(t, d) == Releases(ours, d);
    } else if At(ours, p) == At(base, p) {
      assert Releases(ours, d) == Releases(base, d);
      assert Releases(t, d) == Releases(theirs, d);
    } else {
      assert Releases(ours, d) == Releases(theirs, d) == Releases(t, d);
    }
  }
}
