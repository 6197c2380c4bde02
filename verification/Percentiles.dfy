/** Order statistics of integer samples: nearest-rank percentiles, the median, and the summary. */
module Percentiles {
  import opened Results

  ghost predicate IsSorted(s: seq<int>) {
    forall i, j :: 0 <= i < j < |s| ==> s[i] <= s[j]
  }

  // ----- sorting and filtering the samples

  function Insert(x: int, s: seq<int>): seq<int> {
    if s == [] || x <= s[0] then [x] + s else [s[0]] + Insert(x, s[1..])
  }

  function Sort(s: seq<int>): seq<int> {
    if s == [] then [] else Insert(s[0], Sort(s[1..]))
  }

  /** The samples that are integers. */
  function Integers(samples: seq<Option<int>>): seq<int> {
    if samples == [] then []
    else (if samples[0].Some? then [samples[0].value] else []) + Integers(samples[1..])
  }

  lemma {:induction false} InsertSorts(x: int, s: seq<int>)
    requires IsSorted(s)
    ensures IsSorted(Insert(x, s))
    ensures |Insert(x, s)| == |s| + 1
    ensures forall v :: v in Insert(x, s) ==> v == x || v in s
  {
    if s != [] && x > s[0] {
      InsertSorts(x, s[1..]);
      var rest := Insert(x, s[1..]);
      forall j | 0 <= j < |rest| ensures s[0] <= rest[j] {
        assert rest[j] in rest;
      }
    }
  }

  lemma {:induction false} SortSorts(s: seq<int>)
    ensures IsSorted(Sort(s)) && |Sort(s)| == |s|
  {
    if s == [] {
    } else {
      SortSorts(s[1..]);
      InsertSorts(s[0], Sort(s[1..]));
    }
  }

  lemma {:induction false} InsertKeepsSamples(x: int, s: seq<int>)
    ensures multiset(Insert(x, s)) == multiset(s) + multiset{x}
  {
    if s != [] && x > s[0] {
      InsertKeepsSamples(x, s[1..]);
      assert s == [s[0]] + s[1..];
    }
  }

  lemma {:induction false} SortKeepsSamples(s: seq<int>)
    ensures multiset(Sort(s)) == multiset(s)
  {
    if s == [] {
    } else {
      SortKeepsSamples(s[1..]);
      InsertKeepsSamples(s[0], Sort(s[1..]));
      assert s == [s[0]] + s[1..];
    }
  }

  // ----- percentiles

  function Ceil(num: int, den: int): int
    requires den > 0
  {
    -((-num) / den)
  }

  function Clamp(low: int, high: int, x: int): int {
    var capped := if x < high then x else high;
    if capped > low then capped else low
  }

  /** The place of a percentile among `n` sorted samples. */
  function Rank(n: nat, pct: int): (i: nat)
    requires n > 0
    ensures i < n
  {
    Clamp(0, n - 1, Ceil(pct * n, 100) - 1)
  }

  function Percentile(values: seq<int>, pct: int): Option<int> {
    if values == [] then None else Some(values[Rank(|values|, pct)])
  }

  function CountAtMost(values: seq<int>, x: int): nat {
    if values == [] then 0 else (if values[0] <= x then 1 else 0) + CountAtMost(values[1..], x)
  }

  function CountBelow(values: seq<int>, x: int): nat {
    if values == [] then 0 else (if values[0] < x then 1 else 0) + CountBelow(values[1..], x)
  }

  lemma {:induction false} CountsAt(values: seq<int>, x: int, i: nat)
    requires IsSorted(values) && i < |values| && values[i] == x
    ensures CountAtMost(values, x) >= i + 1 && CountBelow(values, x) <= i
  {
    if i > 0 {
      assert values[0] <= values[i];
      CountsAt(values[1..], x, i - 1);
    } else {
      NothingBelow(values, x);
    }
  }

  lemma {:induction false} NothingBelow(values: seq<int>, x: int)
    requires forall j :: 0 <= j < |values| ==> values[j] >= x
    ensures CountBelow(values, x) == 0
  {
    if values == [] {
    } else {
      NothingBelow(values[1..], x);
    }
  }

  lemma {:induction false} CountsOfInsert(x: int, s: seq<int>, v: int)
    ensures CountAtMost(Insert(x, s), v) == CountAtMost([x] + s, v)
    ensures CountBelow(Insert(x, s), v) == CountBelow([x] + s, v)
  {
    assert ([x] + s)[1..] == s;
    if s != [] && x > s[0] {
      CountsOfInsert(x, s[1..], v);
      assert ([x] + s[1..])[1..] == s[1..];
      var rest := Insert(x, s[1..]);
      assert Insert(x, s) == [s[0]] + rest && ([s[0]] + rest)[1..] == rest;
    }
  }

  /** Sorting leaves both counts as they are. */
  lemma {:induction false} CountsOfSort(s: seq<int>, v: int)
    ensures CountAtMost(Sort(s), v) == CountAtMost(s, v)
    ensures CountBelow(Sort(s), v) == CountBelow(s, v)
  {
    if s == [] {
    } else {
      CountsOfSort(s[1..], v);
      CountsOfInsert(s[0], Sort(s[1..]), v);
      assert ([s[0]] + Sort(s[1..]))[1..] == Sort(s[1..]);
    }
  }

  lemma {:induction false} CountsAreOrdered(values: seq<int>, v: int, w: int)
    requires v < w
    ensures CountAtMost(values, v) <= CountBelow(values, w)
  {
    if values == [] {
    } else {
      CountsAreOrdered(values[1..], v, w);
    }
  }

  lemma RankIsNearest(n: nat, pct: int)
    requires n > 0 && 0 <= pct <= 100
    ensures (Rank(n, pct) + 1) * 100 >= pct * n
    ensures pct > 0 ==> Rank(n, pct) * 100 < pct * n
  {
    var c := Ceil(pct * n, 100);
    assert (c - 1) * 100 < pct * n <= c * 100;
    assert pct * n <= 100 * n by { Scaled(pct, 100, n); }
    assert 0 <= pct * n;
    assert 0 <= c <= n;
    if pct > 0 {
      assert pct * n >= n by { Scaled(1, pct, n); }
      assert c >= 1;
    }
  }

  lemma Scaled(a: int, b: int, n: nat)
    requires a <= b
    ensures a * n <= b * n
  {
  }

  /** One of the samples, with at least pct percent of them at most as large and fewer than pct
      percent below it. */
  ghost predicate IsNearestRank(v: int, values: seq<int>, pct: int) {
    && v in values
    && 100 * CountAtMost(values, v) >= pct * |values|
    && 100 * CountBelow(values, v) < pct * |values|
  }

  lemma NearestRankIsUnique(v: int, w: int, values: seq<int>, pct: int)
    requires IsNearestRank(v, values, pct) && IsNearestRank(w, values, pct)
    ensures v == w
  {
    if v < w {
      CountsAreOrdered(values, v, w);
    } else if w < v {
      CountsAreOrdered(values, w, v);
    }
  }

  /** The percentile of sorted samples is one of them, at least pct percent of the samples are at
      most as large, and it is the least sample of which that holds. */
  lemma PercentileIsNearestRank(values: seq<int>, pct: int)
    requires values != [] && IsSorted(values) && 0 <= pct <= 100
    ensures
      var v := Percentile(values, pct).value;
      && v in values
      && 100 * CountAtMost(values, v) >= pct * |values|
      && (pct > 0 ==> IsNearestRank(v, values, pct))
  {
    var i := Rank(|values|, pct);
    CountsAt(values, values[i], i);
    RankIsNearest(|values|, pct);
  }

  /** The percentile of the sorted samples is the nearest rank of the samples as they came. */
  lemma SortedPercentile(values: seq<int>, pct: int)
    requires values != [] && 0 < pct <= 100
    ensures Sort(values) != [] && IsNearestRank(Percentile(Sort(values), pct).value, values, pct)
  {
    SortSorts(values);
    PercentileIsNearestRank(Sort(values), pct);
    var v := Percentile(Sort(values), pct).value;
    CountsOfSort(values, v);
    SortKeepsSamples(values);
    assert v in multiset(values);
  }

  lemma RankIsMonotone(n: nat, pct: int, more: int)
    requires n > 0 && pct <= more
    ensures Rank(n, pct) <= Rank(n, more)
  {
    Scaled(pct, more, n);
  }

  /** Percentiles grow with the percentage, for any percentages at all. */
  lemma PercentileIsMonotone(values: seq<int>, pct: int, more: int)
    requires values != [] && IsSorted(values) && pct <= more
    ensures Percentile(values, pct).value <= Percentile(values, more).value
  {
    RankIsMonotone(|values|, pct, more);
  }

  // ----- the summary

  /** `int(x / 2)`, which truncates toward zero. */
  function Half(x: int): int {
    if x >= 0 then x / 2 else -((-x) / 2)
  }

  function Median(values: seq<int>): int
    requires values != []
  {
    var n := |values|;
    if n % 2 == 1 then values[n / 2] else Half(values[n / 2 - 1] + values[n / 2])
  }

  /** The samples in ascending order. */
  ghost predicate IsSortedForm(sorted: seq<int>, values: seq<int>) {
    IsSorted(sorted) && multiset(sorted) == multiset(values)
  }

  /** Half of `x` toward zero. */
  ghost predicate IsTruncatedHalf(h: int, x: int) {
    if x >= 0 then 0 <= x - 2 * h <= 1 else -1 <= x - 2 * h <= 0
  }

  /** The middle of an odd number of samples, and half the sum of the two middle ones of an even number. */
  ghost predicate IsMiddle(m: int, sorted: seq<int>) {
    && sorted != []
    && var n := |sorted|;
    if n % 2 == 1 then m == sorted[n / 2] else IsTruncatedHalf(m, sorted[n / 2 - 1] + sorted[n / 2])
  }

  ghost predicate IsMedianOf(m: int, values: seq<int>) {
    exists sorted :: IsSortedForm(sorted, values) && IsMiddle(m, sorted)
  }

  lemma SameSize(a: seq<int>, b: seq<int>)
    requires multiset(a) == multiset(b)
    ensures |a| == |b|
  {
    assert |multiset(a)| == |multiset(b)|;
  }

  lemma SmallestFirst(a: seq<int>, b: seq<int>)
    requires IsSortedForm(b, a) && IsSorted(a) && a != [] && b != []
    ensures a[0] == b[0]
  {
    assert a[0] in multiset(b) && b[0] in multiset(a);
  }

  /** There is one way to sort. */
  lemma {:induction false} SortedFormIsUnique(a: seq<int>, b: seq<int>)
    requires IsSorted(a) && IsSortedForm(b, a)
    ensures a == b
  {
    SameSize(a, b);
    if a == [] {
    } else {
      SmallestFirst(a, b);
      assert a == [a[0]] + a[1..] && b == [b[0]] + b[1..];
      assert multiset(a[1..]) == multiset(a) - multiset{a[0]};
      assert multiset(b[1..]) == multiset(b) - multiset{b[0]};
      SortedFormIsUnique(a[1..], b[1..]);
    }
  }

  lemma MedianIsUnique(m: int, n: int, values: seq<int>)
    requires IsMedianOf(m, values) && IsMedianOf(n, values)
    ensures m == n
  {
    var a :| IsSortedForm(a, values) && IsMiddle(m, a);
    var b :| IsSortedForm(b, values) && IsMiddle(n, b);
    SortedFormIsUnique(a, b);
  }

  lemma SortedMedian(values: seq<int>)
    requires values != []
    ensures Sort(values) != [] && IsMedianOf(Median(Sort(values)), values)
  {
    SortSorts(values);
    SortKeepsSamples(values);
    assert IsMiddle(Median(Sort(values)), Sort(values));
  }

  datatype Summary = Summary(count: nat, min: Option<int>, median: Option<int>, p90: Option<int>, p95: Option<int>,
      max: Option<int>)

  function Summarize(samples: seq<Option<int>>): Summary {
    var ints := Sort(Integers(samples));
    if ints == [] then Summary(0, None, None, None, None, None)
    else
      Summary(|ints|, Some(ints[0]), Some(Median(ints)), Percentile(ints, 90), Percentile(ints, 95),
          Some(ints[|ints| - 1]))
  }

  /** What a summary says of the samples. */
  ghost predicate IsSummary(s: Summary, values: seq<int>) {
    if values == [] then s == Summary(0, None, None, None, None, None)
    else
      && s.count == |values|
      && s.min.Some? && s.min.value in values && (forall v :: v in values ==> s.min.value <= v)
      && s.max.Some? && s.max.value in values && (forall v :: v in values ==> v <= s.max.value)
      && s.median.Some? && IsMedianOf(s.median.value, values)
      && s.p90.Some? && IsNearestRank(s.p90.value, values, 90)
      && s.p95.Some? && IsNearestRank(s.p95.value, values, 95)
  }

  lemma SortedEnds(values: seq<int>)
    requires values != []
    ensures
      var sorted := Sort(values);
      && sorted != [] && sorted[0] in values && sorted[|sorted| - 1] in values
      && forall v :: v in values ==> sorted[0] <= v <= sorted[|sorted| - 1]
  {
    var sorted := Sort(values);
    SortSorts(values);
    SortKeepsSamples(values);
    assert sorted[0] in multiset(values) && sorted[|sorted| - 1] in multiset(values);
    forall v | v in values ensures sorted[0] <= v <= sorted[|sorted| - 1] {
      assert v in multiset(sorted);
    }
  }

  /** The summary of any samples is exactly what `IsSummary` says of the integers among them, and
      nothing else is. */
  lemma SummaryMeans(samples: seq<Option<int>>, s: Summary)
    ensures Summarize(samples) == s <==> IsSummary(s, Integers(samples))
  {
    var ints := Integers(samples);
    SortSorts(ints);
    if ints == [] {
    } else {
      SortedEnds(ints);
      SortedMedian(ints);
      SortedPercentile(ints, 90);
      SortedPercentile(ints, 95);
      assert IsSummary(Summarize(samples), ints);
      if IsSummary(s, ints) {
        SummaryIsUnique(s, Summarize(samples), ints);
      }
    }
  }

  lemma SummaryIsUnique(s: Summary, t: Summary, values: seq<int>)
    requires IsSummary(s, values) && IsSummary(t, values)
    ensures s == t
  {
    if values == [] {
    } else {
      MedianIsUnique(s.median.value, t.median.value, values);
      NearestRankIsUnique(s.p90.value, t.p90.value, values, 90);
      NearestRankIsUnique(s.p95.value, t.p95.value, values, 95);
    }
  }

  lemma RankOfNinety(n: nat)
    requires n > 0
    ensures Rank(n, 90) >= n / 2
  {
  }

  lemma MedianIsBetween(values: seq<int>)
    requires values != [] && IsSorted(values)
    ensures values[0] <= Median(values) <= values[|values| / 2]
  {
  }

  /** For any integer samples, negative ones included, the summary is in order. */
  lemma SummaryIsOrdered(samples: seq<Option<int>>)
    requires Integers(samples) != []
    ensures
      var s := Summarize(samples);
      && s.count == |Integers(samples)|
      && s.min.Some? && s.median.Some? && s.p90.Some? && s.p95.Some? && s.max.Some?
      && s.min.value <= s.median.value <= s.p90.value <= s.p95.value <= s.max.value
      && s.min.value in Integers(samples) && s.max.value in Integers(samples)
  {
    var ints := Integers(samples);
    var sorted := Sort(ints);
    SortSorts(ints);
    SortedEnds(ints);
    MedianIsBetween(sorted);
    RankOfNinety(|sorted|);
    PercentileIsMonotone(sorted, 90, 95);
  }
}
