/** Sequences without repetition, and their elements. */
module Sequences {

  ghost predicate HasNoRepeats<T>(s: seq<T>) {
    forall i, j :: 0 <= i < j < |s| ==> s[i] != s[j]
  }

  function Elements<T(==)>(s: seq<T>): set<T> {
    set x | x in s
  }

  /** The elements of a set in some order. */
  method Enumerate<T(==)>(s: set<T>) returns (q: seq<T>)
    ensures HasNoRepeats(q) && forall x :: x in q <==> x in s
  {
    q := [];
    var rest := s;
    while rest != {}
      invariant HasNoRepeats(q)
      invariant rest <= s
      invariant forall x :: x in q <==> x in s - rest
      decreases rest
    {
      var x :| x in rest;
      assert forall i :: 0 <= i < |q| ==> q[i] in q;
      q := q + [x];
      rest := rest - {x};
    }
  }
}
