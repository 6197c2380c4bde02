/** A repository to start from and a record to publish, for the runs that are written out. */
module PublicationSamples {
  import opened Results
  import opened RuntimeRecords
  import opened CommitGraph
  import opened Publication

  function EmptyFeed(d: Distribution): Content {
    FeedFile(Feed(1, "openminion", d, "stable", "", []))
  }

  const START: Tree := map[FeedPath(Pypi) := EmptyFeed(Pypi), FeedPath(Binary) := EmptyFeed(Binary)]

  const ROOT: Commit := Commit([], START, Ordinary)

  const FIRST: State := State(Repo([ROOT], 0, map[], []), Quiet(None))

  function Sample(id: string): Record {
    Record(1, "openminion", Pypi, "stable", "promoted", Version("1", 1.0, true, true, false), id, "", "", "", None,
      None, None, [])
  }

  lemma FirstIsInitial()
    ensures IsInitial(FIRST)
  {
    forall d ensures IsEmptyFeed(At(START, FeedPath(d)), d) {
      assert d == Pypi || d == Binary;
    }
  }

  lemma SampleIsPlain(id: string)
    requires IsPlainName(id)
    ensures IsPlainPath(PathOf(Sample(id))) && PathOf(Sample(id)) !in START
  {
  }

  lemma StartHasNoReferences(d: Distribution)
    ensures Releases(START, d) == []
  {
  }
}
