/** Bounded enumeration of simple import cycles, and the guard built on it. Module names are
    integers that stand for their place in the order of names, the only thing the program uses. */
module ModuleCycles {
  import opened Sequences

  type Graph = map<int, set<int>>

  type Cycle = seq<int>

  // ----- orders

  /** Python's order on tuples. */
  predicate LexLess(a: Cycle, b: Cycle) {
    if a == [] then b != []
    else b != [] && (a[0] < b[0] || (a[0] == b[0] && LexLess(a[1..], b[1..])))
  }

  /** The sort key (length, content). */
  predicate Before(a: Cycle, b: Cycle) {
    |a| < |b| || (|a| == |b| && LexLess(a, b))
  }

  lemma {:induction false} LexTotal(a: Cycle, b: Cycle)
    ensures LexLess(a, b) || LexLess(b, a) || a == b
  {
    if a != [] && b != [] && a[0] == b[0] {
      LexTotal(a[1..], b[1..]);
      assert a == [a[0]] + a[1..] && b == [b[0]] + b[1..];
    }
  }

  lemma {:induction false} LexAsymmetric(a: Cycle, b: Cycle)
    requires LexLess(a, b)
    ensures !LexLess(b, a) && a != b
  {
    if a != [] && a[0] == b[0] {
      LexAsymmetric(a[1..], b[1..]);
    }
  }

  lemma {:induction false} LexTransitive(a: Cycle, b: Cycle, c: Cycle)
    requires LexLess(a, b) && LexLess(b, c)
    ensures LexLess(a, c)
  {
    if a != [] && a[0] == b[0] == c[0] {
      LexTransitive(a[1..], b[1..], c[1..]);
    }
  }

  lemma BeforeTransitive(a: Cycle, b: Cycle, c: Cycle)
    requires Before(a, b) && Before(b, c)
    ensures Before(a, c)
  {
    if |a| == |b| == |c| {
      LexTransitive(a, b, c);
    }
  }

  lemma BeforeTotal(a: Cycle, b: Cycle)
    ensures Before(a, b) || Before(b, a) || a == b
    ensures Before(a, b) ==> !Before(b, a) && a != b
  {
    LexTotal(a, b);
    if LexLess(a, b) { LexAsymmetric(a, b); }
  }

  // ----- sorted()

  function Least(s: set<int>): (m: int)
    requires s != {}
    ensures m in s && forall x :: x in s ==> m <= x
  {
    LeastExists(s);
    var m :| m in s && forall x :: x in s ==> m <= x;
    m
  }

  lemma AnyOf<T>(s: set<T>) returns (a: T)
    requires s != {}
    ensures a in s
  {
    a :| a in s;
  }

  lemma {:induction false} LeastExists(s: set<int>)
    requires s != {}
    ensures exists m :: m in s && forall x :: x in s ==> m <= x
    decreases |s|
  {
    var a := AnyOf(s);
    if s != {a} {
      var rest := s - {a};
      assert s == rest + {a};
      LeastExists(rest);
      var b :| b in rest && forall x :: x in rest ==> b <= x;
      var m := if a < b then a else b;
      forall x | x in s ensures m <= x {
        assert x == a || x in rest;
      }
      assert m in s && forall x :: x in s ==> m <= x;
    }
  }

  ghost predicate IsAscending(s: seq<int>) {
    forall i, j :: 0 <= i < j < |s| ==> s[i] < s[j]
  }

  /** The elements of a set in ascending order. */
  function Sorted(s: set<int>): (q: seq<int>)
    ensures IsAscending(q)
    ensures forall x :: x in q <==> x in s
    decreases |s|
  {
    if s == {} then []
    else
      var m := Least(s);
      var rest := Sorted(s - {m});
      assert forall j :: 0 <= j < |rest| ==> rest[j] in s - {m};
      [m] + rest
  }

  // ----- cycles

  function Successors(g: Graph, v: int): set<int> {
    if v in g then g[v] else {}
  }

  ghost predicate IsDistinct(b: Cycle) {
    forall i, j :: 0 <= i < j < |b| ==> b[i] != b[j]
  }

  ghost predicate IsWalk(g: Graph, b: Cycle) {
    forall i :: 0 <= i < |b| - 1 ==> b[i + 1] in Successors(g, b[i])
  }

  /** The body of a simple directed cycle: distinct modules, each importing the next, the last
      importing the first. */
  ghost predicate IsSimpleCycle(g: Graph, b: Cycle) {
    && |b| >= 2 && IsDistinct(b) && IsWalk(g, b)
    && b[0] in Successors(g, b[|b| - 1])
  }

  function Rotate(b: Cycle, k: nat): (r: Cycle)
    requires k <= |b|
    ensures |r| == |b|
  {
    b[k..] + b[..k]
  }

  ghost predicate IsRotation(a: Cycle, b: Cycle) {
    exists k :: 0 <= k < |b| && a == Rotate(b, k)
  }

  /** A body that starts at its strictly least module. */
  ghost predicate StartsLeast(b: Cycle) {
    b != [] && forall i :: 0 < i < |b| ==> b[0] < b[i]
  }

  // ----- canon

  /** The first of the least rotations among the first `n`. */
  function LeastRotation(b: Cycle, n: nat): (r: Cycle)
    requires 1 <= n <= |b|
    decreases n
  {
    if n == 1 then Rotate(b, 0)
    else
      var best := LeastRotation(b, n - 1);
      if LexLess(Rotate(b, n - 1), best) then Rotate(b, n - 1) else best
  }

  function Canon(b: Cycle): (c: Cycle)
    requires b != []
  {
    var best := LeastRotation(b, |b|);
    assert |best| == |b| by { LeastRotationIsLeast(b, |b|); }
    best + [best[0]]
  }

  lemma {:induction false} LeastRotationIsLeast(b: Cycle, n: nat)
    requires 1 <= n <= |b|
    ensures |LeastRotation(b, n)| == |b|
    ensures exists k :: 0 <= k < n && LeastRotation(b, n) == Rotate(b, k)
    ensures forall k :: 0 <= k < n ==> !LexLess(Rotate(b, k), LeastRotation(b, n))
  {
    var r := LeastRotation(b, n);
    if n == 1 {
      assert r == Rotate(b, 0);
      if LexLess(r, r) { LexAsymmetric(r, r); }
    } else {
      var best := LeastRotation(b, n - 1);
      LeastRotationIsLeast(b, n - 1);
      forall k | 0 <= k < n ensures !LexLess(Rotate(b, k), r) {
        if k == n - 1 && r == Rotate(b, k) {
          if LexLess(r, r) { LexAsymmetric(r, r); }
        } else if k < n - 1 && r != best && LexLess(Rotate(b, k), r) {
          LexTransitive(Rotate(b, k), r, best);
        }
      }
    }
  }

  lemma RotateTwice(b: Cycle, j: nat, k: nat)
    requires j < |b| && k < |b|
    ensures
      var m := if j + k < |b| then j + k else j + k - |b|;
      m < |b| && Rotate(Rotate(b, j), k) == Rotate(b, m)
  {
    if j + k < |b| {
      assert Rotate(b, j)[k..] == b[j + k..] + b[..j];
      assert Rotate(b, j)[..k] == b[j..j + k];
    } else {
      var m := j + k - |b|;
      assert Rotate(b, j)[k..] == b[m..j];
      assert Rotate(b, j)[..k] == b[j..] + b[..m];
    }
  }

  /** Every rotation of a rotation is a rotation, and every rotation can be undone. */
  lemma RotationsOfRotation(b: Cycle, j: nat, r: Cycle)
    requires j < |b|
    ensures IsRotation(r, Rotate(b, j)) <==> IsRotation(r, b)
  {
    if IsRotation(r, Rotate(b, j)) {
      var k :| 0 <= k < |b| && r == Rotate(Rotate(b, j), k);
      RotateTwice(b, j, k);
    }
    if IsRotation(r, b) {
      var m :| 0 <= m < |b| && r == Rotate(b, m);
      var k := if m >= j then m - j else m - j + |b|;
      RotateTwice(b, j, k);
      assert r == Rotate(Rotate(b, j), k);
    }
  }

  lemma LeastRotationIsRotation(b: Cycle)
    requires b != []
    ensures IsRotation(LeastRotation(b, |b|), b)
    ensures forall r :: IsRotation(r, b) ==> !LexLess(r, LeastRotation(b, |b|))
  {
    LeastRotationIsLeast(b, |b|);
  }

  /** `canon` gives the same tuple for every rotation of a body. */
  lemma CanonIsRotationInvariant(b: Cycle, j: nat)
    requires j < |b|
    ensures Canon(Rotate(b, j)) == Canon(b)
  {
    var c := Rotate(b, j);
    var x, y := LeastRotation(b, |b|), LeastRotation(c, |c|);
    LeastRotationIsRotation(b);
    LeastRotationIsRotation(c);
    RotationsOfRotation(b, j, x);
    RotationsOfRotation(b, j, y);
    LexTotal(x, y);
  }

  /** A body that starts at its strictly least module is its own least rotation. */
  lemma CanonOfLeast(b: Cycle)
    requires StartsLeast(b)
    ensures Canon(b) == b + [b[0]]
  {
    var r := LeastRotation(b, |b|);
    LeastRotationIsLeast(b, |b|);
    var k :| 0 <= k < |b| && r == Rotate(b, k);
    assert Rotate(b, 0) == b;
    assert r[0] == b[k];
    assert k > 0 ==> LexLess(b, r);
  }

  /** Every rotation of a simple cycle is a simple cycle. */
  lemma RotationIsCycle(g: Graph, b: Cycle, k: nat)
    requires IsSimpleCycle(g, b) && k < |b|
    ensures IsSimpleCycle(g, Rotate(b, k))
  {
    var n, r := |b|, Rotate(b, k);
    forall i | 0 <= i < n ensures r[i] == b[if i + k < n then i + k else i + k - n] { }
    forall i | 0 <= i < n - 1 ensures r[i + 1] in Successors(g, r[i]) {
      if i + k == n - 1 {
        assert r[i] == b[n - 1] && r[i + 1] == b[0];
      }
    }
    assert r[n - 1] == b[if k == 0 then n - 1 else k - 1];
  }

  /** A simple cycle has a rotation that starts at its strictly least module. */
  lemma LeastStart(b: Cycle) returns (k: nat)
    requires b != [] && IsDistinct(b)
    ensures k < |b| && StartsLeast(Rotate(b, k))
  {
    var elements := set i | 0 <= i < |b| :: b[i];
    assert b[0] in elements;
    k :| 0 <= k < |b| && b[k] == Least(elements);
    var r := Rotate(b, k);
    assert r[0] == b[k];
    forall i | 0 < i < |r| ensures r[0] < r[i] {
      var j := if i + k < |b| then i + k else i + k - |b|;
      assert r[i] == b[j] && b[j] in elements;
      assert b[k] != b[j] by { assert j < k || k < j; }
      assert Least(elements) <= b[j];
    }
  }

  /** Two bodies have the same canonical tuple exactly when one is a rotation of the other. */
  lemma CanonSeparates(b: Cycle, c: Cycle)
    requires b != [] && c != []
    ensures Canon(b) == Canon(c) <==> IsRotation(b, c)
  {
    if IsRotation(b, c) {
      var k :| 0 <= k < |c| && b == Rotate(c, k);
      CanonIsRotationInvariant(c, k);
    }
    if Canon(b) == Canon(c) {
      LeastRotationIsLeast(b, |b|);
      LeastRotationIsLeast(c, |c|);
      var x := LeastRotation(b, |b|);
      assert Canon(b)[..|b|] == x && |Canon(b)| == |b| + 1;
      assert Canon(c)[..|c|] == LeastRotation(c, |c|);
      var k :| 0 <= k < |b| && x == Rotate(b, k);
      var j :| 0 <= j < |c| && x == Rotate(c, j);
      assert Rotate(b, 0) == b;
      RotationsOfRotation(b, k, b);
      RotationsOfRotation(c, j, b);
    }
  }

  // ----- the search, as a function

  /** The bodies that the search closes from a path, in the order in which it closes them. */
  function Closings(g: Graph, maxLen: int, start: int, path: Cycle): seq<Cycle>
    requires path != []
    decreases if maxLen >= |path| then maxLen - |path| + 1 else 0, 1, 0
  {
    if |path| > maxLen then []
    else ClosingsVia(g, maxLen, start, path, Sorted(Successors(g, path[|path| - 1])))
  }

  function ClosingsVia(g: Graph, maxLen: int, start: int, path: Cycle, kids: seq<int>): seq<Cycle>
    requires path != [] && |path| <= maxLen
    decreases maxLen - |path| + 1, 0, |kids|
  {
    if kids == [] then []
    else
      (if kids[0] == start && |path| >= 2 then [path]
       else if kids[0] !in path && kids[0] > start then Closings(g, maxLen, start, path + [kids[0]])
       else [])
      + ClosingsVia(g, maxLen, start, path, kids[1..])
  }

  /** A path of the search: it walks from its strictly least module without repeating one. */
  ghost predicate IsSearchPath(g: Graph, start: int, path: Cycle) {
    StartsLeast(path) && path[0] == start && IsDistinct(path) && IsWalk(g, path)
  }

  ghost predicate IsHit(g: Graph, maxLen: int, path: Cycle, b: Cycle) {
    path <= b && |b| <= maxLen && IsSimpleCycle(g, b) && StartsLeast(b)
  }

  /** Where a body goes on after the path: to its next module, or back to the start. */
  ghost function NextAfter(start: int, path: Cycle, b: Cycle): int {
    if |path| < |b| then b[|path|] else start
  }

  lemma ExtendPath(g: Graph, start: int, path: Cycle, k: int)
    requires IsSearchPath(g, start, path) && k in Successors(g, path[|path| - 1]) && k !in path && k > start
    ensures IsSearchPath(g, start, path + [k])
  {
  }

  lemma HitsOfExtension(g: Graph, maxLen: int, start: int, path: Cycle, k: int, b: Cycle)
    requires IsSearchPath(g, start, path) && k != start
    ensures IsHit(g, maxLen, path + [k], b) <==> IsHit(g, maxLen, path, b) && NextAfter(start, path, b) == k
  {
    if IsHit(g, maxLen, path, b) && |path| < |b| && b[|path|] == k {
      assert b[..|path| + 1] == path + [k];
    }
    if path + [k] <= b {
      assert b[|path|] == (path + [k])[|path|] == k;
      assert path <= b;
    }
  }

  /** The search from a path closes exactly the bounded simple cycles that extend it. */
  lemma {:induction false} ClosingsAreHits(g: Graph, maxLen: int, start: int, path: Cycle, b: Cycle)
    requires IsSearchPath(g, start, path)
    ensures b in Closings(g, maxLen, start, path) <==> IsHit(g, maxLen, path, b)
    decreases if maxLen >= |path| then maxLen - |path| + 1 else 0, 1, 0
  {
    if |path| <= maxLen {
      var kids := Sorted(Successors(g, path[|path| - 1]));
      ClosingsViaAreHits(g, maxLen, start, path, kids, b);
      if IsHit(g, maxLen, path, b) {
        assert NextAfter(start, path, b) in Successors(g, path[|path| - 1]);
      }
    }
  }

  lemma {:induction false} ClosingsViaAreHits(g: Graph, maxLen: int, start: int, path: Cycle, kids: seq<int>, b: Cycle)
    requires IsSearchPath(g, start, path) && |path| <= maxLen
    requires forall k :: k in kids ==> k in Successors(g, path[|path| - 1])
    ensures b in ClosingsVia(g, maxLen, start, path, kids) <==>
      IsHit(g, maxLen, path, b) && NextAfter(start, path, b) in kids
    decreases maxLen - |path| + 1, 0, |kids|
  {
    if kids == [] {
    } else {
      var k := kids[0];
      assert k in kids && forall x :: x in kids[1..] ==> x in kids;
      assert kids == [k] + kids[1..];
      ClosingsViaAreHits(g, maxLen, start, path, kids[1..], b);
      if k == start {
        HitBackToStart(g, maxLen, start, path, b);
      } else if k !in path && k > start {
        ExtendPath(g, start, path, k);
        ClosingsAreHits(g, maxLen, start, path + [k], b);
        HitsOfExtension(g, maxLen, start, path, k, b);
      } else {
        NoHitThrough(g, maxLen, start, path, k, b);
      }
    }
  }

  /** Only the path itself goes straight back to the start. */
  lemma HitBackToStart(g: Graph, maxLen: int, start: int, path: Cycle, b: Cycle)
    requires IsSearchPath(g, start, path) && |path| <= maxLen && start in Successors(g, path[|path| - 1])
    ensures IsHit(g, maxLen, path, b) && NextAfter(start, path, b) == start <==> b == path && |path| >= 2
  {
    if IsHit(g, maxLen, path, b) && |path| < |b| {
      assert b[0] == path[0] && b[0] != b[|path|];
    }
  }

  /** No cycle goes on through a module on the path or one below the start. */
  lemma NoHitThrough(g: Graph, maxLen: int, start: int, path: Cycle, k: int, b: Cycle)
    requires IsSearchPath(g, start, path) && k != start && (k in path || k < start)
    ensures !(IsHit(g, maxLen, path, b) && NextAfter(start, path, b) == k)
  {
    if IsHit(g, maxLen, path, b) && |path| < |b| {
      assert b[0] == path[0];
      assert forall i :: 0 <= i < |path| ==> path[i] == b[i] != b[|path|];
    }
  }

  lemma JoinWithoutRepeats(a: seq<Cycle>, b: seq<Cycle>)
    requires HasNoRepeats(a) && HasNoRepeats(b)
    requires forall x :: x in a ==> x !in b
    ensures HasNoRepeats(a + b)
  {
    forall i, j | 0 <= i < j < |a + b| ensures (a + b)[i] != (a + b)[j] {
      if i < |a| <= j {
        assert a[i] in a && b[j - |a|] in b;
      }
    }
  }

  lemma {:induction false} ClosingsDoNotRepeat(g: Graph, maxLen: int, start: int, path: Cycle)
    requires IsSearchPath(g, start, path)
    ensures HasNoRepeats(Closings(g, maxLen, start, path))
    decreases if maxLen >= |path| then maxLen - |path| + 1 else 0, 1, 0
  {
    if |path| <= maxLen {
      ClosingsViaDoNotRepeat(g, maxLen, start, path, Sorted(Successors(g, path[|path| - 1])));
    }
  }

  lemma {:induction false} ClosingsViaDoNotRepeat(g: Graph, maxLen: int, start: int, path: Cycle, kids: seq<int>)
    requires IsSearchPath(g, start, path) && |path| <= maxLen && IsAscending(kids)
    requires forall k :: k in kids ==> k in Successors(g, path[|path| - 1])
    ensures HasNoRepeats(ClosingsVia(g, maxLen, start, path, kids))
    decreases maxLen - |path| + 1, 0, |kids|
  {
    if kids == [] {
    } else {
      var k := kids[0];
      assert k in kids && forall x :: x in kids[1..] ==> x in kids;
      ClosingsViaDoNotRepeat(g, maxLen, start, path, kids[1..]);
      var first := FirstBranch(g, maxLen, start, path, k);
      var rest := ClosingsVia(g, maxLen, start, path, kids[1..]);
      if k != start && k !in path && k > start {
        ExtendPath(g, start, path, k);
        ClosingsDoNotRepeat(g, maxLen, start, path + [k]);
      }
      BranchesAreDisjoint(g, maxLen, start, path, kids);
      JoinWithoutRepeats(first, rest);
    }
  }

  /** What the search closes through one successor. */
  function FirstBranch(g: Graph, maxLen: int, start: int, path: Cycle, k: int): seq<Cycle>
    requires path != [] && |path| <= maxLen
  {
    if k == start && |path| >= 2 then [path]
    else if k !in path && k > start then Closings(g, maxLen, start, path + [k])
    else []
  }

  lemma BranchesAreDisjoint(g: Graph, maxLen: int, start: int, path: Cycle, kids: seq<int>)
    requires IsSearchPath(g, start, path) && |path| <= maxLen && kids != [] && IsAscending(kids)
    requires forall k :: k in kids ==> k in Successors(g, path[|path| - 1])
    ensures forall b :: b in FirstBranch(g, maxLen, start, path, kids[0]) ==>
      b !in ClosingsVia(g, maxLen, start, path, kids[1..])
  {
    assert kids[0] in kids && forall x :: x in kids[1..] ==> x in kids;
    assert kids[0] !in kids[1..];
    forall b | b in FirstBranch(g, maxLen, start, path, kids[0])
      ensures b !in ClosingsVia(g, maxLen, start, path, kids[1..])
    {
      assert b in ClosingsVia(g, maxLen, start, path, [kids[0]]) by {
        assert [kids[0]][1..] == [];
        assert ClosingsVia(g, maxLen, start, path, []) == [];
      }
      ClosingsViaAreHits(g, maxLen, start, path, [kids[0]], b);
      ClosingsViaAreHits(g, maxLen, start, path, kids[1..], b);
    }
  }

  // ----- the whole enumeration

  /** A cycle as it is reported: the body and its first module again. */
  function Close(b: Cycle): Cycle {
    if b == [] then [] else b + [b[0]]
  }

  function CloseAll(bodies: seq<Cycle>): seq<Cycle> {
    if bodies == [] then [] else [Close(bodies[0])] + CloseAll(bodies[1..])
  }

  lemma {:induction false} CloseAllMembers(bodies: seq<Cycle>, c: Cycle)
    ensures c in CloseAll(bodies) <==> exists b :: b in bodies && c == Close(b)
  {
    if bodies == [] {
    } else {
      assert bodies == [bodies[0]] + bodies[1..];
      CloseAllMembers(bodies[1..], c);
    }
  }

  lemma NothingClosesTwice(bodies: seq<Cycle>, b: Cycle)
    requires b !in bodies
    ensures Close(b) !in CloseAll(bodies)
  {
    CloseAllMembers(bodies, Close(b));
    if Close(b) in CloseAll(bodies) {
      var a :| a in bodies && Close(b) == Close(a);
      CloseIsInjective(a, b);
    }
  }

  lemma {:induction false} CloseAllJoins(a: seq<Cycle>, b: seq<Cycle>)
    ensures CloseAll(a + b) == CloseAll(a) + CloseAll(b)
  {
    if a == [] {
      assert a + b == b;
    } else {
      assert (a + b)[1..] == a[1..] + b;
      CloseAllJoins(a[1..], b);
    }
  }

  lemma Associate(a: seq<Cycle>, b: seq<Cycle>, c: seq<Cycle>)
    ensures a + (b + c) == (a + b) + c
    ensures a + [] == a
  {
  }

  lemma CloseIsInjective(a: Cycle, b: Cycle)
    requires Close(a) == Close(b)
    ensures a == b
  {
    if a != [] && b != [] {
      assert Close(a)[..|Close(a)| - 1] == a;
      assert Close(b)[..|Close(b)| - 1] == b;
    }
  }

  lemma {:induction false} CloseAllDoesNotRepeat(bodies: seq<Cycle>)
    requires HasNoRepeats(bodies)
    ensures HasNoRepeats(CloseAll(bodies))
  {
    if bodies == [] {
    } else {
      CloseAllDoesNotRepeat(bodies[1..]);
      NothingClosesTwice(bodies[1..], bodies[0]);
      JoinWithoutRepeats([Close(bodies[0])], CloseAll(bodies[1..]));
    }
  }

  function ClosingsFrom(g: Graph, maxLen: int, starts: seq<int>): seq<Cycle>
    decreases |starts|
  {
    if starts == [] then []
    else Closings(g, maxLen, starts[0], [starts[0]]) + ClosingsFrom(g, maxLen, starts[1..])
  }

  lemma SingletonPath(g: Graph, start: int)
    ensures IsSearchPath(g, start, [start])
  {
  }

  lemma {:induction false} ClosingsFromAreHits(g: Graph, maxLen: int, starts: seq<int>, b: Cycle)
    ensures b in ClosingsFrom(g, maxLen, starts) <==>
      |b| <= maxLen && IsSimpleCycle(g, b) && StartsLeast(b) && b[0] in starts
    decreases |starts|
  {
    if starts == [] {
    } else {
      SingletonPath(g, starts[0]);
      ClosingsAreHits(g, maxLen, starts[0], [starts[0]], b);
      ClosingsFromAreHits(g, maxLen, starts[1..], b);
      assert starts == [starts[0]] + starts[1..];
      assert b != [] ==> ([starts[0]] <= b <==> b[0] == starts[0]);
    }
  }

  lemma {:induction false} ClosingsFromDoNotRepeat(g: Graph, maxLen: int, starts: seq<int>)
    requires IsAscending(starts)
    ensures HasNoRepeats(ClosingsFrom(g, maxLen, starts))
    decreases |starts|
  {
    if starts == [] {
    } else {
      SingletonPath(g, starts[0]);
      ClosingsDoNotRepeat(g, maxLen, starts[0], [starts[0]]);
      ClosingsFromDoNotRepeat(g, maxLen, starts[1..]);
      StartsAreDisjoint(g, maxLen, starts);
      JoinWithoutRepeats(Closings(g, maxLen, starts[0], [starts[0]]), ClosingsFrom(g, maxLen, starts[1..]));
    }
  }

  lemma StartsAreDisjoint(g: Graph, maxLen: int, starts: seq<int>)
    requires starts != [] && IsAscending(starts)
    ensures forall b :: b in Closings(g, maxLen, starts[0], [starts[0]]) ==> b !in ClosingsFrom(g, maxLen, starts[1..])
  {
    forall b | b in Closings(g, maxLen, starts[0], [starts[0]]) ensures b !in ClosingsFrom(g, maxLen, starts[1..]) {
      SingletonPath(g, starts[0]);
      ClosingsAreHits(g, maxLen, starts[0], [starts[0]], b);
      ClosingsFromAreHits(g, maxLen, starts[1..], b);
    }
  }

  // ----- found.sort(key=lambda cyc: (len(cyc), cyc))

  ghost predicate IsSortedStrictly(s: seq<Cycle>) {
    forall i, j :: 0 <= i < j < |s| ==> Before(s[i], s[j])
  }

  function InsertSorted(c: Cycle, s: seq<Cycle>): (r: seq<Cycle>)
    ensures forall x :: x in r <==> x == c || x in s
  {
    if s == [] || !Before(s[0], c) then [c] + s
    else
      assert s == [s[0]] + s[1..];
      [s[0]] + InsertSorted(c, s[1..])
  }

  function SortCycles(s: seq<Cycle>): (r: seq<Cycle>)
    ensures forall x :: x in r <==> x in s
  {
    if s == [] then []
    else
      assert s == [s[0]] + s[1..];
      InsertSorted(s[0], SortCycles(s[1..]))
  }

  lemma {:induction false} InsertKeepsSorted(c: Cycle, s: seq<Cycle>)
    requires IsSortedStrictly(s) && c !in s
    ensures IsSortedStrictly(InsertSorted(c, s))
  {
    if s == [] {
    } else {
      BeforeTotal(c, s[0]);
      if Before(s[0], c) {
        InsertKeepsSorted(c, s[1..]);
        var rest := InsertSorted(c, s[1..]);
        forall j | 0 <= j < |rest| ensures Before(s[0], rest[j]) {
          assert rest[j] in rest;
        }
      } else {
        forall j | 0 <= j < |s| ensures Before(c, s[j]) {
          if j > 0 { BeforeTransitive(c, s[0], s[j]); }
        }
      }
    }
  }

  lemma {:induction false} SortSorts(s: seq<Cycle>)
    requires HasNoRepeats(s)
    ensures IsSortedStrictly(SortCycles(s))
  {
    if s == [] {
    } else {
      SortSorts(s[1..]);
      InsertKeepsSorted(s[0], SortCycles(s[1..]));
    }
  }

  // ----- the search, as it runs

  /** `seen` is the set of what was found, and holds nothing that is still to come. */
  ghost predicate AreAhead(seen: set<Cycle>, found: seq<Cycle>, bodies: seq<Cycle>) {
    && (forall c :: c in seen <==> c in found)
    && (forall b :: b in bodies ==> Close(b) !in seen)
  }

  lemma AheadSplits(seen: set<Cycle>, found: seq<Cycle>, first: seq<Cycle>, rest: seq<Cycle>)
    requires AreAhead(seen, found, first + rest)
    ensures AreAhead(seen, found, first) && AreAhead(seen, found, rest)
  {
    assert forall b :: b in first || b in rest ==> b in first + rest;
  }

  /** What was ahead stays ahead when something else is found. */
  lemma StaysAhead(seen: set<Cycle>, found: seq<Cycle>, seen': set<Cycle>, first: seq<Cycle>, rest: seq<Cycle>)
    requires AreAhead(seen, found, rest)
    requires forall c :: c in seen' <==> c in found + CloseAll(first)
    requires forall b :: b in rest ==> Close(b) !in CloseAll(first)
    ensures AreAhead(seen', found + CloseAll(first), rest)
  {
    forall b | b in rest ensures Close(b) !in seen' {
      assert Close(b) !in found;
    }
  }

  /** The lists and sets that the nested search function shares with its caller. */
  class CycleSearch {
    const graph: Graph
    const maxLen: int
    var visited: set<int>
    var seen: set<Cycle>
    var found: seq<Cycle>

    constructor (g: Graph, limit: int)
      ensures graph == g && maxLen == limit
      ensures visited == {} && seen == {} && found == []
    {
      graph, maxLen := g, limit;
      visited, seen, found := {}, {}, [];
    }

    ghost predicate Expects(bodies: seq<Cycle>)
      reads this
    {
      AreAhead(seen, found, bodies)
    }

    ghost predicate HasVisited(path: Cycle)
      reads this
    {
      forall v :: v in visited <==> v in path
    }

    /** The search from a path. `visited` is the path on entry and on exit, and every closed path
        is appended: the test against `seen` never suppresses one. */
    method Dfs(start: int, current: int, path: Cycle)
      requires IsSearchPath(graph, start, path) && current == path[|path| - 1]
      requires HasVisited(path)
      requires Expects(Closings(graph, maxLen, start, path))
      modifies this
      ensures HasVisited(path)
      ensures found == old(found) + CloseAll(Closings(graph, maxLen, start, path))
      ensures forall c :: c in seen <==> c in found
      decreases if maxLen >= |path| then maxLen - |path| + 1 else 0, 2
    {
      Associate(found, [], []);
      if |path| > maxLen { return; }
      var kids := Sorted(Successors(graph, current));
      ghost var target := found + CloseAll(ClosingsVia(graph, maxLen, start, path, kids));
      assert kids[0..] == kids;
      for i := 0 to |kids|
        invariant HasVisited(path)
        invariant found + CloseAll(ClosingsVia(graph, maxLen, start, path, kids[i..])) == target
        invariant Expects(ClosingsVia(graph, maxLen, start, path, kids[i..]))
      {
        Branch(start, path, kids, i);
      }
      assert kids[|kids|..] == [];
      Associate(found, [], []);
    }

    /** One successor of many: what it closes is found, and the rest is still to come. */
    method Branch(start: int, path: Cycle, kids: seq<int>, i: nat)
      requires IsSearchPath(graph, start, path) && |path| <= maxLen && i < |kids| && IsAscending(kids)
      requires forall k :: k in kids ==> k in Successors(graph, path[|path| - 1])
      requires HasVisited(path)
      requires Expects(ClosingsVia(graph, maxLen, start, path, kids[i..]))
      modifies this
      ensures HasVisited(path)
      ensures found + CloseAll(ClosingsVia(graph, maxLen, start, path, kids[i + 1..])) ==
        old(found) + CloseAll(ClosingsVia(graph, maxLen, start, path, kids[i..]))
      ensures Expects(ClosingsVia(graph, maxLen, start, path, kids[i + 1..]))
      decreases maxLen - |path| + 1, 1
    {
      ghost var first := FirstBranch(graph, maxLen, start, path, kids[i]);
      ghost var rest := ClosingsVia(graph, maxLen, start, path, kids[i + 1..]);
      SplitBranches(graph, maxLen, start, path, kids, i);
      AheadSplits(seen, found, first, rest);
      Step(start, path, kids[i]);
      StaysAhead(old(seen), old(found), seen, first, rest);
      CloseAllJoins(first, rest);
      Associate(old(found), CloseAll(first), CloseAll(rest));
    }

    /** The search from one start, with nothing visited but the start itself. */
    method From(start: int, ghost rest: seq<Cycle>)
      requires Expects(Closings(graph, maxLen, start, [start]) + rest)
      requires forall b :: b in rest ==> Close(b) !in CloseAll(Closings(graph, maxLen, start, [start]))
      modifies this
      ensures found == old(found) + CloseAll(Closings(graph, maxLen, start, [start]))
      ensures Expects(rest)
    {
      ghost var first := Closings(graph, maxLen, start, [start]);
      SingletonPath(graph, start);
      AheadSplits(seen, found, first, rest);
      visited := {start};
      Dfs(start, start, [start]);
      StaysAhead(old(seen), old(found), seen, first, rest);
    }

    /** The body of the loop over the successors. */
    method Step(start: int, path: Cycle, next: int)
      requires IsSearchPath(graph, start, path) && |path| <= maxLen
      requires next in Successors(graph, path[|path| - 1])
      requires HasVisited(path)
      requires Expects(FirstBranch(graph, maxLen, start, path, next))
      modifies this
      ensures HasVisited(path)
      ensures found == old(found) + CloseAll(FirstBranch(graph, maxLen, start, path, next))
      ensures forall c :: c in seen <==> c in found
      decreases maxLen - |path| + 1, 0
    {
      if next == start && |path| >= 2 {
        var canonical := Canon(path);
        CanonOfLeast(path);
        assert path in FirstBranch(graph, maxLen, start, path, next);
        if canonical !in seen {
          seen := seen + {canonical};
          found := found + [canonical];
        }
        assert CloseAll([path]) == [canonical];
      } else if next !in visited && next > start {
        visited := visited + {next};
        ExtendPath(graph, start, path, next);
        Dfs(start, next, path + [next]);
        visited := visited - {next};
      }
    }
  }

  /** What one successor closes is not what the later ones close. */
  lemma SplitBranches(g: Graph, maxLen: int, start: int, path: Cycle, kids: seq<int>, i: nat)
    requires IsSearchPath(g, start, path) && |path| <= maxLen && i < |kids| && IsAscending(kids)
    requires forall k :: k in kids ==> k in Successors(g, path[|path| - 1])
    ensures kids[i] in Successors(g, path[|path| - 1])
    ensures
      var first, rest := FirstBranch(g, maxLen, start, path, kids[i]),
        ClosingsVia(g, maxLen, start, path, kids[i + 1..]);
      && ClosingsVia(g, maxLen, start, path, kids[i..]) == first + rest
      && forall b :: b in rest ==> Close(b) !in CloseAll(first)
  {
    var first := FirstBranch(g, maxLen, start, path, kids[i]);
    assert kids[i] in kids;
    assert kids[i..][0] == kids[i] && kids[i..][1..] == kids[i + 1..];
    assert forall x :: x in kids[i..] ==> x in kids;
    BranchesAreDisjoint(g, maxLen, start, path, kids[i..]);
    forall b | b in ClosingsVia(g, maxLen, start, path, kids[i + 1..]) ensures Close(b) !in CloseAll(first) {
      NothingClosesTwice(first, b);
    }
  }

  /** All simple cycles with a body of 2 to `maxLen` modules: each exactly once up to rotation, as
      its canonical tuple, in strictly ascending order of (length, content). */
  method FindSimpleCycles(g: Graph, maxLen: int) returns (found: seq<Cycle>)
    ensures IsSortedStrictly(found)
    ensures forall c :: c in found <==> IsReported(g, maxLen, c)
  {
    var search := new CycleSearch(g, maxLen);
    var nodes := Sorted(g.Keys);
    ghost var target := CloseAll(ClosingsFrom(g, maxLen, nodes));
    assert nodes[0..] == nodes;
    Associate(search.found, [], target);
    for i := 0 to |nodes|
      invariant search.graph == g && search.maxLen == maxLen
      invariant search.found + CloseAll(ClosingsFrom(g, maxLen, nodes[i..])) == target
      invariant search.Expects(ClosingsFrom(g, maxLen, nodes[i..]))
    {
      ghost var first := Closings(g, maxLen, nodes[i], [nodes[i]]);
      ghost var rest := ClosingsFrom(g, maxLen, nodes[i + 1..]);
      SplitStarts(g, maxLen, nodes, i);
      CloseAllJoins(first, rest);
      Associate(search.found, CloseAll(first), CloseAll(rest));
      search.From(nodes[i], rest);
    }
    assert nodes[|nodes|..] == [];
    Associate(search.found, [], []);
    found := SortCycles(search.found);
    SortedReport(g, maxLen);
  }

  lemma SortedReport(g: Graph, maxLen: int)
    ensures
      var closed := CloseAll(ClosingsFrom(g, maxLen, Sorted(g.Keys)));
      && IsSortedStrictly(SortCycles(closed))
      && forall c :: c in SortCycles(closed) <==> IsReported(g, maxLen, c)
  {
    var bodies := ClosingsFrom(g, maxLen, Sorted(g.Keys));
    ClosingsFromDoNotRepeat(g, maxLen, Sorted(g.Keys));
    CloseAllDoesNotRepeat(bodies);
    SortSorts(CloseAll(bodies));
    forall c ensures c in CloseAll(bodies) <==> IsReported(g, maxLen, c) {
      ReportedAreClosed(g, maxLen, c);
    }
  }

  /** The canonical tuple of a bounded simple cycle. */
  ghost predicate IsReported(g: Graph, maxLen: int, c: Cycle) {
    exists b :: |b| <= maxLen && IsSimpleCycle(g, b) && c == Canon(b)
  }

  lemma SplitStarts(g: Graph, maxLen: int, nodes: seq<int>, i: nat)
    requires IsAscending(nodes) && i < |nodes|
    ensures
      var first, rest := Closings(g, maxLen, nodes[i], [nodes[i]]), ClosingsFrom(g, maxLen, nodes[i + 1..]);
      && ClosingsFrom(g, maxLen, nodes[i..]) == first + rest
      && forall b :: b in rest ==> Close(b) !in CloseAll(first)
  {
    var first, rest := Closings(g, maxLen, nodes[i], [nodes[i]]), ClosingsFrom(g, maxLen, nodes[i + 1..]);
    assert nodes[i..][0] == nodes[i] && nodes[i..][1..] == nodes[i + 1..];
    StartsAreDisjoint(g, maxLen, nodes[i..]);
    forall b | b in rest ensures Close(b) !in CloseAll(first) {
      NothingClosesTwice(first, b);
    }
  }

  lemma ReportedAreClosed(g: Graph, maxLen: int, c: Cycle)
    ensures c in CloseAll(ClosingsFrom(g, maxLen, Sorted(g.Keys))) <==> IsReported(g, maxLen, c)
  {
    var bodies := ClosingsFrom(g, maxLen, Sorted(g.Keys));
    CloseAllMembers(bodies, c);
    if c in CloseAll(bodies) {
      var b :| b in bodies && c == Close(b);
      ClosingsFromAreHits(g, maxLen, Sorted(g.Keys), b);
      CanonOfLeast(b);
    }
    if IsReported(g, maxLen, c) {
      var b :| |b| <= maxLen && IsSimpleCycle(g, b) && c == Canon(b);
      var k := LeastStart(b);
      var r := Rotate(b, k);
      RotationIsCycle(g, b, k);
      CanonIsRotationInvariant(b, k);
      CanonOfLeast(r);
      assert r[1] in Successors(g, r[0]);
      ClosingsFromAreHits(g, maxLen, Sorted(g.Keys), r);
    }
  }

  /** Complete and free of repetition, in terms of cycles rather than tuples: every bounded simple
      cycle is reported, and reported tuples of two cycles agree exactly for rotations. */
  lemma ReportsEachCycleOnce(g: Graph, maxLen: int, b: Cycle, c: Cycle)
    requires IsSimpleCycle(g, b) && |b| <= maxLen && IsSimpleCycle(g, c) && |c| <= maxLen
    ensures IsReported(g, maxLen, Canon(b)) && IsReported(g, maxLen, Canon(c))
    ensures Canon(b) == Canon(c) <==> IsRotation(b, c)
  {
    CanonSeparates(b, c);
  }

  // ----- the guard

  const MAX_CYCLE_LEN: int := 5

  /** Drift against the allowlist: newly detected cycles, and listed cycles no longer detected. */
  method ComputeDrift(detected: seq<Cycle>, baseline: seq<Cycle>) returns (added: seq<Cycle>, removed: seq<Cycle>)
    ensures IsSortedStrictly(added) && forall c :: c in added <==> c in detected && c !in baseline
    ensures IsSortedStrictly(removed) && forall c :: c in removed <==> c in baseline && c !in detected
  {
    added := SortCycles(Minus(detected, baseline));
    removed := SortCycles(Minus(baseline, detected));
    MinusDoesNotRepeat(detected, baseline);
    MinusDoesNotRepeat(baseline, detected);
    SortSorts(Minus(detected, baseline));
    SortSorts(Minus(baseline, detected));
  }

  /** The elements of one list that are not in the other, each once. */
  function Minus(a: seq<Cycle>, b: seq<Cycle>): (d: seq<Cycle>)
    ensures forall c :: c in d <==> c in a && c !in b
  {
    if a == [] then []
    else
      assert a == [a[0]] + a[1..];
      (if a[0] in b || a[0] in a[1..] then [] else [a[0]]) + Minus(a[1..], b)
  }

  lemma {:induction false} MinusDoesNotRepeat(a: seq<Cycle>, b: seq<Cycle>)
    ensures HasNoRepeats(Minus(a, b))
  {
    if a == [] {
    } else {
      MinusDoesNotRepeat(a[1..], b);
      JoinWithoutRepeats(if a[0] in b || a[0] in a[1..] then [] else [a[0]], Minus(a[1..], b));
    }
  }

  /** The exit code of the guard for an allowlist of canonical cycles. */
  method Guard(g: Graph, allowlist: seq<Cycle>, advisory: bool) returns (exitCode: int)
    ensures exitCode == 0 <==> advisory || forall c :: c in allowlist <==> IsReported(g, 5, c)
    ensures exitCode == 0 || exitCode == 1
    ensures allowlist == [] && !advisory ==>
      (exitCode == 0 <==> !exists b :: |b| <= 5 && IsSimpleCycle(g, b))
  {
    var detected := FindSimpleCycles(g, MAX_CYCLE_LEN);
    var added, removed := ComputeDrift(detected, allowlist);
    if added == [] && removed == [] {
      forall c ensures c in allowlist <==> IsReported(g, MAX_CYCLE_LEN, c) {
        assert c !in added && c !in removed;
      }
      forall b | |b| <= MAX_CYCLE_LEN && IsSimpleCycle(g, b) ensures allowlist != [] {
        assert IsReported(g, MAX_CYCLE_LEN, Canon(b));
      }
      return 0;
    }
    var c := if added != [] then added[0] else removed[0];
    assert c in added || c in removed;
    return if advisory then 0 else 1;
  }
}
