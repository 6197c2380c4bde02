/** Metrics of an interval between two process snapshots: differences of cumulative counters, and
    the rates derived from them. */
module Intervals {
  import opened Results
  import opened Rounding

  datatype Counter =
    | ProcessCpu | TreeCpu
    | VoluntarySwitches | InvoluntarySwitches | TreeVoluntarySwitches | TreeInvoluntarySwitches

  const COUNTERS: seq<Counter> :=
    [ProcessCpu, TreeCpu, VoluntarySwitches, InvoluntarySwitches, TreeVoluntarySwitches, TreeInvoluntarySwitches]

  predicate IsTree(c: Counter) {
    c.TreeCpu? || c.TreeVoluntarySwitches? || c.TreeInvoluntarySwitches?
  }

  /** Parts per million of the interval for CPU time, events per second for context switches. */
  function Scale(c: Counter): int {
    if c.ProcessCpu? || c.TreeCpu? then 1_000_000 else 1_000_000_000
  }

  /** The counters that could be read, and the hash of the process tree (empty when unknown). */
  datatype Snapshot = Snapshot(counters: map<Counter, int>, treeHash: string)

  datatype Metric = Delta(counter: Counter) | Rate(counter: Counter)

  datatype Reason = InvalidInterval | TreeChanged | CounterUnavailable | CounterDecreased

  /** The difference of one counter over an interval, or why there is none. */
  function CounterDelta(before: Snapshot, after: Snapshot, c: Counter): Result<int, Reason> {
    if IsTree(c) && (before.treeHash == "" || before.treeHash != after.treeHash) then Err(TreeChanged)
    else if c !in before.counters || c !in after.counters then Err(CounterUnavailable)
    else if after.counters[c] < before.counters[c] then Err(CounterDecreased)
    else Ok(after.counters[c] - before.counters[c])
  }

  datatype Report = Report(metrics: map<Metric, int>, unavailable: map<Metric, Reason>)

  /** Every derived metric has a value or a reason, never both. */
  ghost predicate IsAccounted(r: Report) {
    forall m: Metric :: m in r.metrics <==> m !in r.unavailable
  }

  method IntervalMetrics(before: Snapshot, after: Snapshot, elapsed: int) returns (r: Report)
    ensures IsAccounted(r)
    ensures forall c :: IsReported(before, after, elapsed, c, r)
  {
    r := Report(map[], map[]);
    for i := 0 to |COUNTERS|
      invariant forall k :: 0 <= k < i ==> IsReported(before, after, elapsed, COUNTERS[k], r)
      invariant forall m: Metric :: (m in r.metrics || m in r.unavailable) <==> m.counter in COUNTERS[..i]
      invariant r.metrics.Keys !! r.unavailable.Keys
    {
      var c := COUNTERS[i];
      CountersDiffer(i);
      var next := RecordCounter(before, after, elapsed, c, r);
      forall k | 0 <= k < i ensures IsReported(before, after, elapsed, COUNTERS[k], next) {
        ReportPersists(before, after, elapsed, COUNTERS[k], r, next);
      }
      assert COUNTERS[..i + 1] == COUNTERS[..i] + [c];
      r := next;
    }
    forall c: Counter ensures c in COUNTERS[..6] && IsReported(before, after, elapsed, c, r) {
      var k := EveryCounterIsListed(c);
    }
  }

  lemma CountersDiffer(i: nat)
    requires i < |COUNTERS|
    ensures COUNTERS[i] !in COUNTERS[..i]
    ensures forall k :: 0 <= k < i ==> COUNTERS[k] != COUNTERS[i]
  {
  }

  lemma EveryCounterIsListed(c: Counter) returns (k: nat)
    ensures k < |COUNTERS| && COUNTERS[k] == c && c in COUNTERS[..6]
  {
    match c
    case ProcessCpu => k := 0;
    case TreeCpu => k := 1;
    case VoluntarySwitches => k := 2;
    case InvoluntarySwitches => k := 3;
    case TreeVoluntarySwitches => k := 4;
    case TreeInvoluntarySwitches => k := 5;
    assert COUNTERS[..6] == COUNTERS;
  }

  function Excuse(r: Report, c: Counter, reason: Reason): Report {
    r.(unavailable := r.unavailable[Delta(c) := reason][Rate(c) := reason])
  }

  function Fill(r: Report, c: Counter, delta: int, rate: int): Report {
    r.(metrics := r.metrics[Delta(c) := delta][Rate(c) := rate])
  }

  ghost predicate IsFreeFor(r: Report, c: Counter) {
    && r.metrics.Keys !! r.unavailable.Keys
    && forall m: Metric :: m.counter == c ==> m !in r.metrics && m !in r.unavailable
  }

  /** Both metrics of the counter are accounted for, and nothing else changed. */
  ghost predicate IsFilledFor(r: Report, next: Report, c: Counter) {
    && next.metrics.Keys !! next.unavailable.Keys
    && (forall m: Metric :: (m in next.metrics || m in next.unavailable) <==>
          m.counter == c || m in r.metrics || m in r.unavailable)
    && forall m: Metric :: m.counter != c ==> Agree(r, next, m)
  }

  lemma ExcuseFills(r: Report, c: Counter, reason: Reason)
    requires IsFreeFor(r, c)
    ensures IsFilledFor(r, Excuse(r, c, reason), c)
  {
  }

  lemma FillFills(r: Report, c: Counter, delta: int, rate: int)
    requires IsFreeFor(r, c)
    ensures IsFilledFor(r, Fill(r, c, delta, rate), c)
  {
  }

  /** Fills in both metrics of one counter, or the reason for both. */
  method RecordCounter(before: Snapshot, after: Snapshot, elapsed: int, c: Counter, r: Report) returns (next: Report)
    requires IsFreeFor(r, c)
    ensures IsReported(before, after, elapsed, c, next) && IsFilledFor(r, next, c)
  {
    if elapsed <= 0 {
      ExcuseFills(r, c, InvalidInterval);
      return Excuse(r, c, InvalidInterval);
    }
    match CounterDelta(before, after, c) {
      case Err(reason) =>
        ExcuseFills(r, c, reason);
        next := Excuse(r, c, reason);
      case Ok(d) =>
        RoundIsNearest(d * Scale(c), elapsed, Round(d * Scale(c), elapsed));
        FillFills(r, c, d, Round(d * Scale(c), elapsed));
        next := Fill(r, c, d, Round(d * Scale(c), elapsed));
    }
  }

  ghost predicate Agree(r: Report, s: Report, m: Metric) {
    && (m in r.metrics <==> m in s.metrics) && (m in r.metrics && m in s.metrics ==> r.metrics[m] == s.metrics[m])
    && (m in r.unavailable <==> m in s.unavailable)
    && (m in r.unavailable && m in s.unavailable ==> r.unavailable[m] == s.unavailable[m])
  }

  lemma ReportPersists(before: Snapshot, after: Snapshot, elapsed: int, c: Counter, r: Report, s: Report)
    requires IsReported(before, after, elapsed, c, r) && Agree(r, s, Delta(c)) && Agree(r, s, Rate(c))
    ensures IsReported(before, after, elapsed, c, s)
  {
  }

  // ----- what a report means

  ghost predicate CountsTree(c: Counter) {
    c in {TreeCpu, TreeVoluntarySwitches, TreeInvoluntarySwitches}
  }

  ghost predicate IsSameTree(before: Snapshot, after: Snapshot) {
    before.treeHash == after.treeHash != ""
  }

  ghost predicate IsRead(before: Snapshot, after: Snapshot, c: Counter) {
    c in before.counters && c in after.counters
  }

  /** A counter that was read twice and did not fall, over time that passed, and for a tree counter over
      one known process tree. */
  ghost predicate HasValue(before: Snapshot, after: Snapshot, elapsed: int, c: Counter) {
    && elapsed > 0
    && (CountsTree(c) ==> IsSameTree(before, after))
    && IsRead(before, after, c) && before.counters[c] <= after.counters[c]
  }

  ghost predicate IsReason(before: Snapshot, after: Snapshot, elapsed: int, c: Counter, reason: Reason) {
    match reason
    case InvalidInterval => elapsed <= 0
    case TreeChanged => elapsed > 0 && CountsTree(c) && !IsSameTree(before, after)
    case CounterUnavailable => elapsed > 0 && (CountsTree(c) ==> IsSameTree(before, after)) && !IsRead(before, after, c)
    case CounterDecreased =>
      && elapsed > 0 && (CountsTree(c) ==> IsSameTree(before, after))
      && IsRead(before, after, c) && after.counters[c] < before.counters[c]
  }

  /** The counter's difference and its rate, in parts per million of the interval for CPU time and per
      second for context switches, or for both the one reason that applies. */
  ghost predicate IsReported(before: Snapshot, after: Snapshot, elapsed: int, c: Counter, r: Report) {
    if HasValue(before, after, elapsed, c) then
      var d := after.counters[c] - before.counters[c];
      && Delta(c) in r.metrics && r.metrics[Delta(c)] == d
      && Rate(c) in r.metrics
      && IsNearest(r.metrics[Rate(c)], d * (if c in {ProcessCpu, TreeCpu} then 1_000_000 else 1_000_000_000), elapsed)
    else
      && Delta(c) in r.unavailable && Rate(c) in r.unavailable
      && r.unavailable[Rate(c)] == r.unavailable[Delta(c)]
      && IsReason(before, after, elapsed, c, r.unavailable[Delta(c)])
  }

  /** Exactly one reason applies where there is no value, and none where there is one. */
  lemma ReasonsAreExclusive(before: Snapshot, after: Snapshot, elapsed: int, c: Counter, reason: Reason, other: Reason)
    requires IsReason(before, after, elapsed, c, reason)
    ensures !HasValue(before, after, elapsed, c)
    ensures IsReason(before, after, elapsed, c, other) ==> other == reason
  {
  }

  /** Adjacent intervals with a value add up: the outer interval has a value, its difference is the
      sum, and its rounded rate lies between the rates of the two parts. */
  lemma AdjacentIntervalsAddUp(first: Snapshot, middle: Snapshot, last: Snapshot, e: int, f: int, c: Counter,
                               r: Report, s: Report, whole: Report)
    requires IsAccounted(r) && IsAccounted(s) && IsAccounted(whole)
    requires IsReported(first, middle, e, c, r) && IsReported(middle, last, f, c, s)
      && IsReported(first, last, e + f, c, whole)
    requires Delta(c) in r.metrics && Delta(c) in s.metrics
    ensures Delta(c) in whole.metrics && Rate(c) in whole.metrics && Rate(c) in r.metrics && Rate(c) in s.metrics
    ensures whole.metrics[Delta(c)] == r.metrics[Delta(c)] + s.metrics[Delta(c)]
    ensures
      var x, y, z := r.metrics[Rate(c)], s.metrics[Rate(c)], whole.metrics[Rate(c)];
      x <= z <= y || y <= z <= x
  {
    assert HasValue(first, middle, e, c) && HasValue(middle, last, f, c);
    assert HasValue(first, last, e + f, c);
    var k := if c in {ProcessCpu, TreeCpu} then 1_000_000 else 1_000_000_000;
    var d1, d2 := r.metrics[Delta(c)], s.metrics[Delta(c)];
    RoundIsNearest(d1 * k, e, r.metrics[Rate(c)]);
    RoundIsNearest(d2 * k, f, s.metrics[Rate(c)]);
    RoundIsNearest((d1 + d2) * k, e + f, whole.metrics[Rate(c)]);
    var a, b := d1 * k, d2 * k;
    assert (d1 + d2) * k == a + b;
    if a * f <= b * e {
      MediantIsBetween(a, e, b, f);
    } else {
      MediantIsBetween(b, f, a, e);
      assert b + a == a + b && f + e == e + f;
    }
  }
}
