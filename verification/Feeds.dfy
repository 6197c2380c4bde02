/** How a reference enters a stable feed: `add_reference` of the runtime publisher. */
module Feeds {
  import opened Results
  import opened Sequences
  import opened RuntimeRecords

  const FEED_CAPACITY: nat := 100

  datatype FeedError = IdentityMismatch | NeedsRetentionReview

  /** All references but the given one, in their order. */
  function Without(refs: seq<Reference>, r: Reference): (rest: seq<Reference>)
    ensures r !in rest
    ensures forall x :: x in rest <==> x in refs && x != r
    ensures |rest| <= |refs|
  {
    if refs == [] then []
    else if refs[0] == r then Without(refs[1..], r)
    else [refs[0]] + Without(refs[1..], r)
  }

  /** Puts `r` in front of the first reference whose version is not newer. */
  function Place(r: Reference, refs: seq<Reference>): (placed: seq<Reference>)
    ensures |placed| == |refs| + 1
  {
    if refs == [] then [r]
    else if refs[0].version.order <= r.version.order then [r] + refs
    else [refs[0]] + Place(r, refs[1..])
  }

  /** The stable sort with the newest version first. */
  function NewestFirst(refs: seq<Reference>): (sorted: seq<Reference>)
    ensures |sorted| == |refs|
  {
    if refs == [] then [] else Place(refs[0], NewestFirst(refs[1..]))
  }

  function ReferenceTo(record: Record, commit: nat, digest: Digest): Reference {
    Reference(record.runtimeVersion, Pinned(commit, PathOf(record)), digest)
  }

  function AddReference(feed: Feed, record: Record, commit: nat, digest: Digest): Result<Feed, FeedError> {
    if !IsStableFeed(feed, record.distribution) then Err(IdentityMismatch)
    else
      var r := ReferenceTo(record, commit, digest);
      var refs := [r] + Without(feed.releases, r);
      if |refs| > FEED_CAPACITY then Err(NeedsRetentionReview)
      else Ok(feed.(publishedAt := record.publishedAt, releases := NewestFirst(refs)))
  }

  // ----- what the sort and the insertion mean

  ghost predicate IsNewestFirst(refs: seq<Reference>) {
    forall i, j :: 0 <= i < j < |refs| ==> refs[i].version.order >= refs[j].version.order
  }

  /** `r` comes before every other reference of its version class, and after every newer one. */
  ghost predicate LeadsItsClass(refs: seq<Reference>, r: Reference) {
    exists i :: 0 <= i < |refs| && refs[i] == r && SplitsAt(refs, r, i)
  }

  ghost predicate SplitsAt(refs: seq<Reference>, r: Reference, i: nat)
    requires i < |refs|
  {
    && (forall j :: 0 <= j < i ==> refs[j].version.order > r.version.order)
    && (forall j :: i < j < |refs| ==> refs[j].version.order <= r.version.order)
  }

  /** Where the insertion puts a reference in a sorted list. */
  lemma {:induction false} PlaceSplits(r: Reference, refs: seq<Reference>) returns (i: nat)
    requires IsNewestFirst(refs)
    ensures i <= |refs|
    ensures Place(r, refs) == refs[..i] + [r] + refs[i..]
    ensures forall j :: 0 <= j < i ==> refs[j].version.order > r.version.order
    ensures forall j :: i <= j < |refs| ==> refs[j].version.order <= r.version.order
  {
    if refs == [] || refs[0].version.order <= r.version.order {
      i := 0;
    } else {
      var k := PlaceSplits(r, refs[1..]);
      i := k + 1;
      assert refs[..i] == [refs[0]] + refs[1..][..k];
      assert refs[i..] == refs[1..][k..];
    }
  }

  lemma {:induction false} NewestFirstSorts(refs: seq<Reference>)
    ensures IsNewestFirst(NewestFirst(refs))
  {
    if refs == [] {
    } else {
      NewestFirstSorts(refs[1..]);
      var i := PlaceSplits(refs[0], NewestFirst(refs[1..]));
    }
  }

  /** The references of one version class, in their order. */
  function ClassOf(refs: seq<Reference>, order: real): seq<Reference> {
    if refs == [] then []
    else (if refs[0].version.order == order then [refs[0]] else []) + ClassOf(refs[1..], order)
  }

  lemma {:induction false} PlaceIsStable(r: Reference, refs: seq<Reference>, order: real)
    ensures ClassOf(Place(r, refs), order) == ClassOf([r] + refs, order)
    ensures multiset(Place(r, refs)) == multiset{r} + multiset(refs)
  {
    if refs == [] || refs[0].version.order <= r.version.order {
      assert Place(r, refs) == [r] + refs;
    } else {
      PlaceIsStable(r, refs[1..], order);
      assert refs == [refs[0]] + refs[1..];
      assert ([r] + refs)[1..] == refs && ([r] + refs[1..])[1..] == refs[1..];
      assert Place(r, refs)[1..] == Place(r, refs[1..]);
    }
  }

  /** The sort keeps every reference, and the order of references of one version. */
  lemma {:induction false} NewestFirstIsStable(refs: seq<Reference>, order: real)
    ensures multiset(NewestFirst(refs)) == multiset(refs)
    ensures ClassOf(NewestFirst(refs), order) == ClassOf(refs, order)
  {
    if refs == [] {
    } else {
      NewestFirstIsStable(refs[1..], order);
      PlaceIsStable(refs[0], NewestFirst(refs[1..]), order);
      assert refs == [refs[0]] + refs[1..];
      assert ([refs[0]] + NewestFirst(refs[1..]))[1..] == NewestFirst(refs[1..]);
    }
  }

  /** Sorting a sorted list changes nothing, so only the new head of the list moves. */
  lemma {:induction false} NewestFirstKeepsSorted(refs: seq<Reference>)
    requires IsNewestFirst(refs)
    ensures NewestFirst(refs) == refs
  {
    if refs == [] {
    } else {
      NewestFirstKeepsSorted(refs[1..]);
    }
  }

  lemma {:induction false} WithoutKeepsOrder(refs: seq<Reference>, r: Reference)
    requires IsNewestFirst(refs)
    ensures IsNewestFirst(Without(refs, r))
  {
    if refs == [] {
    } else {
      WithoutKeepsOrder(refs[1..], r);
      var rest := Without(refs[1..], r);
      forall j | 0 <= j < |rest| ensures refs[0].version.order >= rest[j].version.order {
        assert rest[j] in refs[1..];
      }
    }
  }

  lemma {:induction false} WithoutKeepsDistinct(refs: seq<Reference>, r: Reference)
    requires HasNoRepeats(refs)
    ensures HasNoRepeats(Without(refs, r))
    ensures |Without(refs, r)| == |refs| - (if r in refs then 1 else 0)
  {
    if refs == [] {
    } else {
      WithoutKeepsDistinct(refs[1..], r);
      assert refs[0] !in refs[1..];
      assert refs == [refs[0]] + refs[1..];
      assert refs[0] !in Without(refs[1..], r);
    }
  }

  lemma {:induction false} WithoutAbsent(refs: seq<Reference>, r: Reference)
    requires r !in refs
    ensures Without(refs, r) == refs
  {
    if refs == [] {
    } else {
      assert refs == [refs[0]] + refs[1..];
      WithoutAbsent(refs[1..], r);
    }
  }

  /** Inserting and removing different references does not depend on the order. */
  lemma WithoutPlaced(r: Reference, s: Reference, refs: seq<Reference>)
    requires IsNewestFirst(refs) && r != s
    ensures Without(Place(r, refs), s) == Place(r, Without(refs, s))
    decreases |refs|
  {
    if refs == [] {
    } else if refs[0].version.order > r.version.order {
      WithoutPlaced(r, s, refs[1..]);
      WithoutKeepsOrder(refs, s);
      assert Place(r, refs)[1..] == Place(r, refs[1..]);
    } else {
      assert ([r] + refs)[1..] == refs;
      var rest := Without(refs, s);
      if rest != [] {
        assert rest[0] in refs;
      }
    }
  }

  lemma WithoutItself(r: Reference, refs: seq<Reference>)
    requires r !in refs
    ensures Without(Place(r, refs), r) == refs
    decreases |refs|
  {
    if refs == [] {
    } else if refs[0].version.order > r.version.order {
      WithoutItself(r, refs[1..]);
      assert Place(r, refs)[1..] == Place(r, refs[1..]);
      assert refs == [refs[0]] + refs[1..];
    } else {
      assert ([r] + refs)[1..] == refs;
      WithoutAbsent(refs, r);
    }
  }

  lemma {:induction false} PlaceMembers(r: Reference, refs: seq<Reference>)
    ensures forall x :: x in Place(r, refs) <==> x == r || x in refs
  {
    if refs != [] && refs[0].version.order > r.version.order {
      PlaceMembers(r, refs[1..]);
      assert refs == [refs[0]] + refs[1..];
    }
  }

  lemma PlaceKeepsOrder(r: Reference, refs: seq<Reference>)
    requires IsNewestFirst(refs)
    ensures IsNewestFirst(Place(r, refs))
    ensures LeadsItsClass(Place(r, refs), r)
  {
    var i := PlaceSplits(r, refs);
    var placed := Place(r, refs);
    forall j | i < j < |placed| ensures placed[j] == refs[j - 1] { }
    assert placed[i] == r && SplitsAt(placed, r, i);
  }

  lemma PlaceKeepsDistinct(r: Reference, refs: seq<Reference>)
    requires HasNoRepeats(refs) && r !in refs
    ensures HasNoRepeats(Place(r, refs))
    decreases |refs|
  {
    if refs != [] && refs[0].version.order > r.version.order {
      PlaceKeepsDistinct(r, refs[1..]);
      PlaceMembers(r, refs[1..]);
      assert refs[0] !in refs[1..];
      assert refs == [refs[0]] + refs[1..];
    }
  }

  lemma PlaceCommutes(r: Reference, s: Reference, refs: seq<Reference>)
    requires r.version.order < s.version.order
    ensures Place(r, Place(s, refs)) == Place(s, Place(r, refs))
    decreases |refs|
  {
    if refs != [] && refs[0].version.order > s.version.order {
      PlaceCommutes(r, s, refs[1..]);
      assert Place(r, refs)[1..] == Place(r, refs[1..]);
      assert Place(s, refs)[1..] == Place(s, refs[1..]);
    } else if refs != [] && refs[0].version.order > r.version.order {
      assert Place(s, refs) == [s] + refs && ([s] + refs)[1..] == refs;
    } else {
      assert Place(s, refs) == [s] + refs && ([s] + refs)[1..] == refs;
      assert Place(r, refs) == [r] + refs;
    }
  }

  // ----- the contract of the operation

  /** On a sorted feed the new list is the insertion of the reference among the others. */
  lemma AddReferencePlaces(feed: Feed, record: Record, commit: nat, digest: Digest)
    requires IsNewestFirst(feed.releases)
    requires AddReference(feed, record, commit, digest).Ok?
    ensures
      var r := ReferenceTo(record, commit, digest);
      && IsNewestFirst(Without(feed.releases, r))
      && AddReference(feed, record, commit, digest).value.releases == Place(r, Without(feed.releases, r))
  {
    var r := ReferenceTo(record, commit, digest);
    var rest := Without(feed.releases, r);
    WithoutKeepsOrder(feed.releases, r);
    NewestFirstKeepsSorted(rest);
    assert ([r] + rest)[1..] == rest;
  }

  /** The whole effect of an accepted reference on a well-kept feed: it goes first in its
      version class, and nothing else moves, appears or disappears. */
  lemma AddReferenceEffect(feed: Feed, record: Record, commit: nat, digest: Digest)
    requires IsNewestFirst(feed.releases) && HasNoRepeats(feed.releases)
    requires AddReference(feed, record, commit, digest).Ok?
    ensures
      var r := ReferenceTo(record, commit, digest);
      var updated := AddReference(feed, record, commit, digest).value;
      && updated == feed.(publishedAt := record.publishedAt, releases := updated.releases)
      && IsStableFeed(updated, record.distribution)
      && IsNewestFirst(updated.releases)
      && HasNoRepeats(updated.releases)
      && |updated.releases| <= 100
      && (forall x :: x in updated.releases <==> x in feed.releases || x == r)
      && Without(updated.releases, r) == Without(feed.releases, r)
      && LeadsItsClass(updated.releases, r)
  {
    var r := ReferenceTo(record, commit, digest);
    var rest := Without(feed.releases, r);
    AddReferencePlaces(feed, record, commit, digest);
    WithoutKeepsDistinct(feed.releases, r);
    PlaceKeepsOrder(r, rest);
    PlaceKeepsDistinct(r, rest);
    PlaceMembers(r, rest);
    WithoutItself(r, rest);
  }

  /** Refused exactly for a foreign feed or a feed that would outgrow its capacity. */
  lemma AddReferenceRefusal(feed: Feed, record: Record, commit: nat, digest: Digest)
    requires HasNoRepeats(feed.releases)
    ensures
      var r := ReferenceTo(record, commit, digest);
      AddReference(feed, record, commit, digest).Ok? <==>
        && IsStableFeed(feed, record.distribution)
        && |feed.releases| + (if r in feed.releases then 0 else 1) <= 100
  {
    WithoutKeepsDistinct(feed.releases, ReferenceTo(record, commit, digest));
  }

  /** A repeated request leaves the feed as it is; this is what makes a rerun a no-op. */
  lemma AddReferenceIdempotent(feed: Feed, record: Record, commit: nat, digest: Digest)
    requires IsNewestFirst(feed.releases) && HasNoRepeats(feed.releases)
    requires AddReference(feed, record, commit, digest).Ok?
    ensures
      var updated := AddReference(feed, record, commit, digest).value;
      AddReference(updated, record, commit, digest) == Ok(updated)
  {
    var updated := AddReference(feed, record, commit, digest).value;
    AddReferenceEffect(feed, record, commit, digest);
    AddReferencePlaces(feed, record, commit, digest);
    AddReferenceRefusal(updated, record, commit, digest);
    AddReferencePlaces(updated, record, commit, digest);
  }

  /** Where two different references can be added one after the other, the other order is accepted as
      well, and gives the same releases exactly when their versions differ in the order; for equal
      versions the later one ends up in front. */
  lemma AddReferenceCommutes(feed: Feed, first: Record, second: Record, i: nat, j: nat, d: Digest, e: Digest)
    requires IsNewestFirst(feed.releases) && HasNoRepeats(feed.releases)
    requires ReferenceTo(first, i, d) != ReferenceTo(second, j, e)
    requires AddReference(feed, first, i, d).Ok?
    requires AddReference(AddReference(feed, first, i, d).value, second, j, e).Ok?
    ensures AddReference(feed, second, j, e).Ok?
    ensures
      var a := AddReference(AddReference(feed, first, i, d).value, second, j, e);
      var b := AddReference(AddReference(feed, second, j, e).value, first, i, d);
      && b.Ok?
      && (a.value.releases == b.value.releases <==>
          first.runtimeVersion.order != second.runtimeVersion.order)
  {
    var r, s := ReferenceTo(first, i, d), ReferenceTo(second, j, e);
    BothFitMeans(feed, first, second, i, j, d, e);
    AddBoth(feed, first, second, i, j, d, e);
    AddBoth(feed, second, first, j, i, e, d);
    var rest := Without(Without(feed.releases, r), s);
    WithoutTwice(feed.releases, r, s);
    if r.version.order < s.version.order {
      PlaceCommutes(r, s, rest);
    } else if r.version.order > s.version.order {
      PlaceCommutes(s, r, rest);
    } else if Place(s, Place(r, rest)) == Place(r, Place(s, rest)) {
      LeadersAgree(Place(s, Place(r, rest)), r, s);
    }
  }

  /** There is room for what is new of two references. */
  ghost predicate BothFit(feed: Feed, r: Reference, s: Reference) {
    |feed.releases| + (if r in feed.releases then 0 else 1) + (if s in feed.releases then 0 else 1) <= FEED_CAPACITY
  }

  lemma BothFitMeans(feed: Feed, first: Record, second: Record, i: nat, j: nat, d: Digest, e: Digest)
    requires IsNewestFirst(feed.releases) && HasNoRepeats(feed.releases)
    requires ReferenceTo(first, i, d) != ReferenceTo(second, j, e)
    requires AddReference(feed, first, i, d).Ok?
    requires AddReference(AddReference(feed, first, i, d).value, second, j, e).Ok?
    ensures BothFit(feed, ReferenceTo(first, i, d), ReferenceTo(second, j, e))
    ensures IsStableFeed(feed, first.distribution) && second.distribution == first.distribution
  {
    var r := ReferenceTo(first, i, d);
    var once := AddReference(feed, first, i, d).value;
    AddReferenceEffect(feed, first, i, d);
    AddReferencePlaces(feed, first, i, d);
    WithoutKeepsDistinct(feed.releases, r);
    AddReferenceRefusal(once, second, j, e);
  }

  /** Adding two references is inserting both among the others. */
  lemma AddBoth(feed: Feed, first: Record, second: Record, i: nat, j: nat, d: Digest, e: Digest)
    requires IsNewestFirst(feed.releases) && HasNoRepeats(feed.releases)
    requires IsStableFeed(feed, first.distribution) && second.distribution == first.distribution
    requires ReferenceTo(first, i, d) != ReferenceTo(second, j, e)
    requires BothFit(feed, ReferenceTo(first, i, d), ReferenceTo(second, j, e))
    ensures AddReference(feed, first, i, d).Ok?
    ensures
      var r, s := ReferenceTo(first, i, d), ReferenceTo(second, j, e);
      var a := AddReference(AddReference(feed, first, i, d).value, second, j, e);
      && a.Ok?
      && a.value.releases == Place(s, Place(r, Without(Without(feed.releases, r), s)))
      && LeadsItsClass(a.value.releases, s)
  {
    var r, s := ReferenceTo(first, i, d), ReferenceTo(second, j, e);
    AddReferenceRefusal(feed, first, i, d);
    AddReferenceEffect(feed, first, i, d);
    AddReferencePlaces(feed, first, i, d);
    var once := AddReference(feed, first, i, d).value;
    WithoutKeepsDistinct(feed.releases, r);
    AddReferenceRefusal(once, second, j, e);
    AddReferenceEffect(once, second, j, e);
    AddReferencePlaces(once, second, j, e);
    WithoutPlaced(r, s, Without(feed.releases, r));
  }

  lemma LeadersAgree(refs: seq<Reference>, r: Reference, s: Reference)
    requires r.version.order == s.version.order
    requires LeadsItsClass(refs, r) && LeadsItsClass(refs, s)
    ensures r == s
  {
    var i :| 0 <= i < |refs| && refs[i] == r && SplitsAt(refs, r, i);
    var j :| 0 <= j < |refs| && refs[j] == s && SplitsAt(refs, s, j);
    assert i == j;
  }

  lemma {:induction false} WithoutTwice(refs: seq<Reference>, r: Reference, s: Reference)
    ensures Without(Without(refs, r), s) == Without(Without(refs, s), r)
  {
    if refs == [] {
    } else {
      WithoutTwice(refs[1..], r, s);
    }
  }
}
