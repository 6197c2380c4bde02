/** Lists that hold every element of a set once and nothing else. */
module ExactLists {
  import opened Sequences

  /** Each wanted text once, in any order. */
  predicate IsExactly(s: seq<string>, wanted: set<string>) {
    multiset(s) == multiset(wanted)
  }

  lemma {:induction false} ElementsOfLast(s: seq<string>, x: string)
    ensures Elements(s + [x]) == Elements(s) + {x}
  {
    assert forall y :: y in s + [x] <==> y in s || y == x;
  }

  lemma {:induction false} FullSizeMeansNoRepeats(s: seq<string>)
    ensures |Elements(s)| <= |s|
    ensures |Elements(s)| == |s| ==> multiset(s) == multiset(Elements(s))
  {
    if s == [] {
    } else {
      var rest, x := s[..|s| - 1], s[|s| - 1];
      assert s == rest + [x];
      FullSizeMeansNoRepeats(rest);
      ElementsOfLast(rest, x);
      if x in Elements(rest) {
        assert Elements(s) == Elements(rest);
      } else {
        assert multiset(Elements(s)) == multiset(Elements(rest)) + multiset{x};
      }
    }
  }

  /** The right length and the right set of elements leave room for no repetition. */
  lemma LengthAndSetAreExact(s: seq<string>, wanted: set<string>)
    ensures |s| == |wanted| && Elements(s) == wanted <==> IsExactly(s, wanted)
  {
    FullSizeMeansNoRepeats(s);
    if IsExactly(s, wanted) {
      assert |multiset(s)| == |multiset(wanted)|;
      forall x ensures x in Elements(s) <==> x in wanted {
        assert x in multiset(s) <==> x in multiset(wanted);
      }
    }
  }
}
