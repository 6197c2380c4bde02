/** The order behind the exact ratchets: a baseline maps each tracked item to its counters, and a
    new measurement either equals it, raises something, or lowers it. */
module Ratchet {

  datatype Counts = Counts(first: int, second: int)

  predicate AtMost(a: Counts, b: Counts) {
    a.first <= b.first && a.second <= b.second
  }

  /** Something is new, or a counter grew: an update is refused. */
  predicate Raises<K(==)>(measured: map<K, Counts>, baseline: map<K, Counts>) {
    exists k :: k in measured && (k !in baseline || !AtMost(measured[k], baseline[k]))
  }

  /** Something went away, or a counter shrank. */
  predicate Differs<K(==)>(measured: map<K, Counts>, baseline: map<K, Counts>) {
    || measured.Keys != baseline.Keys
    || exists k :: k in measured && k in baseline &&
         (measured[k].first < baseline[k].first || measured[k].second < baseline[k].second)
  }

  /** Pointwise at most the baseline, and not the same. */
  predicate Lowers<K(==)>(measured: map<K, Counts>, baseline: map<K, Counts>) {
    && (forall k :: k in measured ==> k in baseline && AtMost(measured[k], baseline[k]))
    && measured != baseline
  }

  /** A measurement equals the baseline, raises it or lowers it, and only one of these. */
  lemma Trichotomy<K>(measured: map<K, Counts>, baseline: map<K, Counts>)
    ensures measured == baseline || Raises(measured, baseline) || Lowers(measured, baseline)
    ensures measured == baseline ==> !Raises(measured, baseline) && !Lowers(measured, baseline)
    ensures !(Raises(measured, baseline) && Lowers(measured, baseline))
    ensures !Raises(measured, baseline) ==> (Differs(measured, baseline) <==> measured != baseline)
  {
    if measured.Keys == baseline.Keys && forall k :: k in measured && k in baseline ==> measured[k] == baseline[k] {
      assert measured == baseline;
    }
  }

  // ----- lowering cannot go on forever

  ghost predicate IsCounted<K>(m: map<K, Counts>) {
    forall k :: k in m ==> m[k].first >= 0 && m[k].second >= 0
  }

  ghost function Positive(n: int): nat {
    if n > 0 then n else 0
  }

  ghost function Size(c: Counts): nat {
    1 + Positive(c.first) + Positive(c.second)
  }

  ghost function Weight<K>(m: map<K, Counts>): nat
    decreases |m|
  {
    if m == map[] then 0
    else
      var k :| k in m;
      assert (m - {k}).Keys == m.Keys - {k};
      Size(m[k]) + Weight(m - {k})
  }

  lemma {:induction false} WeightOfPart<K>(m: map<K, Counts>, k: K)
    requires k in m
    ensures Weight(m) == Size(m[k]) + Weight(m - {k})
    decreases |m|
  {
    var j :| j in m && Weight(m) == Size(m[j]) + Weight(m - {j});
    if j != k {
      assert (m - {j}).Keys == m.Keys - {j};
      assert (m - {k}).Keys == m.Keys - {k};
      WeightOfPart(m - {j}, k);
      WeightOfPart(m - {k}, j);
      assert m - {j} - {k} == m - {k} - {j};
    }
  }

  lemma {:induction false} WeightIsMonotone<K>(a: map<K, Counts>, b: map<K, Counts>)
    requires forall k :: k in a ==> k in b && AtMost(a[k], b[k])
    ensures Weight(a) <= Weight(b)
    decreases |b|
  {
    if b == map[] {
      assert a == map[];
    } else {
      var k :| k in b;
      assert (b - {k}).Keys == b.Keys - {k};
      WeightOfPart(b, k);
      WeightIsMonotone(a - {k}, b - {k});
      if k in a {
        WeightOfPart(a, k);
      } else {
        assert a - {k} == a;
      }
    }
  }

  /** Lowering to counters that are not negative strictly reduces the weight. */
  lemma LoweringReducesWeight<K>(a: map<K, Counts>, b: map<K, Counts>)
    requires Lowers(a, b) && IsCounted(a)
    ensures Weight(a) < Weight(b)
  {
    if a.Keys == b.Keys {
      var k :| k in a && a[k] != b[k];
      WeightOfPart(a, k);
      WeightOfPart(b, k);
      WeightIsMonotone(a - {k}, b - {k});
    } else {
      var k :| k in b && k !in a;
      WeightOfPart(b, k);
      WeightIsMonotone(a, b - {k});
    }
  }

  ghost predicate IsLoweringChain<K>(chain: seq<map<K, Counts>>) {
    forall i :: 0 < i < |chain| ==> IsCounted(chain[i]) && Lowers(chain[i], chain[i - 1])
  }

  /** A baseline can be lowered at most as often as its weight, and every later baseline is
      pointwise below every earlier one. */
  lemma {:induction false} ChainsAreFinite<K>(chain: seq<map<K, Counts>>)
    requires chain != [] && IsLoweringChain(chain)
    ensures |chain| - 1 <= Weight(chain[0])
    ensures forall k :: k in chain[|chain| - 1] ==> k in chain[0] && AtMost(chain[|chain| - 1][k], chain[0][k])
    decreases |chain|
  {
    if |chain| > 1 {
      var rest := chain[1..];
      assert forall i :: 0 <= i < |rest| ==> rest[i] == chain[i + 1];
      ChainsAreFinite(rest);
      LoweringReducesWeight(chain[1], chain[0]);
    }
  }
}
