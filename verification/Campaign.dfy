/** A measuring campaign end to end: its runs are grouped into scenarios, every scenario is summarised
    and judged, and the verdicts give the exit code. */
module Campaign {
  import opened Results
  import opened Percentiles
  import opened Identity
  import opened PerformanceGate

  /** One measured sample; a metric that is not an integer counts as absent. */
  datatype Run = Run(scenario: string, ok: bool, identity: Carried, variance: string, metrics: map<string, int>)

  const METRICS: seq<string> := [
    "wall_time_ms", "wall_time_ns", "process_cpu_time_ns", IDLE_CPU, "idle_process_tree_cpu_duty_ppm", IDLE_SWITCHES,
    "idle_involuntary_context_switch_rate_per_second", "python_gc_collection_count", "rss_delta_bytes",
    "tracemalloc_peak_bytes", "prompt_tokens_estimated", IMPORTED, OPENMINION]

  // ----- what a scenario's runs amount to

  function RunsOf(runs: seq<Run>, id: string): seq<Run> {
    if runs == [] then []
    else (if runs[0].scenario == id then [runs[0]] else []) + RunsOf(runs[1..], id)
  }

  function OkCount(runs: seq<Run>): nat {
    if runs == [] then 0 else (if runs[0].ok then 1 else 0) + OkCount(runs[1..])
  }

  function SamplesOf(runs: seq<Run>, name: string): seq<Option<int>> {
    seq(|runs|, i requires 0 <= i < |runs| =>
      if name in runs[i].metrics then Some(runs[i].metrics[name]) else None)
  }

  function Sum(values: seq<int>): int {
    if values == [] then 0 else values[0] + Sum(values[1..])
  }

  function SquaredDeviations(values: seq<int>, mean: real): real {
    if values == [] then 0.0
    else (values[0] as real - mean) * (values[0] as real - mean) + SquaredDeviations(values[1..], mean)
  }

  /** Standard deviation over mean, rounded to four decimals, is above 0.20: it is above 0.20005,
      and here both sides are squared. Undefined, and so not noisy, unless the mean is positive. */
  predicate IsSpread(values: seq<int>) {
    && values != []
    && var n := |values| as real;
    var mean := Sum(values) as real / n;
    mean > 0.0 && SquaredDeviations(values, mean) / n > 0.20005 * 0.20005 * mean * mean
  }

  function MetricFrom(samples: seq<Option<int>>): Metric {
    var s := Summarize(samples);
    Metric(Some(s.count), s.median, s.p95, IsSpread(Sort(Integers(samples))))
  }

  function MetricsOf(runs: seq<Run>, names: seq<string>): map<string, Metric> {
    map name | name in names :: MetricFrom(SamplesOf(runs, name))
  }

  ghost predicate AreOneCampaign(runs: seq<Run>) {
    forall i, j :: 0 <= i < j < |runs| ==> AreSameCampaign(runs[i].identity, runs[j].identity)
  }

  ghost function ScenarioOf(runs: seq<Run>): Scenario
    requires runs != []
  {
    Scenario(|runs|, OkCount(runs), OrEmpty(runs[0].identity.comparison), !AreOneCampaign(runs),
             runs[0].variance == WARN_ONLY, MetricsOf(runs, METRICS))
  }

  // ----- the same on the runs alone

  /** The integer values of a metric, in the order of the runs. */
  ghost function ValuesOf(runs: seq<Run>, name: string): seq<int> {
    if runs == [] then []
    else (if name in runs[0].metrics then [runs[0].metrics[name]] else []) + ValuesOf(runs[1..], name)
  }

  ghost function SumOfSquares(values: seq<int>): int {
    if values == [] then 0 else values[0] * values[0] + SumOfSquares(values[1..])
  }

  /** A coefficient of variation above 0.20005, in integers: with `n` values of sum `S` and sum of squares
      `Q`, the variance is `(n * Q - S * S) / (n * n)` and the mean is `S / n`. */
  ghost predicate IsNoisy(values: seq<int>) {
    && Sum(values) > 0
    && 10_000_000_000 * (|values| * SumOfSquares(values) - Sum(values) * Sum(values)) >
         400_200_025 * (Sum(values) * Sum(values))
  }

  /** What the metric of a scenario says of its values. */
  ghost predicate IsMetricOf(m: Metric, values: seq<int>) {
    && m.count == Some(|values|)
    && (m.noisy <==> IsNoisy(values))
    && if values == [] then m.median.None? && m.p95.None?
       else
         && m.median.Some? && IsMedianOf(m.median.value, values)
         && m.p95.Some? && IsNearestRank(m.p95.value, values, 95)
  }

  ghost predicate AreMetricsOf(metrics: map<string, Metric>, runs: seq<Run>, names: seq<string>) {
    && (forall name :: name in metrics <==> name in names)
    && forall name :: name in metrics ==> IsMetricOf(metrics[name], ValuesOf(runs, name))
  }

  ghost function OkRuns(runs: seq<Run>): set<nat> {
    set i: nat | i < |runs| && runs[i].ok
  }

  /** What a scenario says of its runs. */
  ghost predicate IsScenarioOf(s: Scenario, runs: seq<Run>)
    requires runs != []
  {
    && s.count == |runs|
    && s.okCount == |OkRuns(runs)|
    && s.comparison == Some(if runs[0].identity.comparison.Some? then runs[0].identity.comparison.value else map[])
    && (s.incompatible <==> !AreOneCampaign(runs))
    && (s.warnOnly <==> runs[0].variance == "provider_warn_only")
    && AreMetricsOf(s.metrics, runs, METRICS)
  }

  lemma MetricNames(name: string)
    ensures name in METRICS <==>
      || name == "wall_time_ms" || name == "wall_time_ns" || name == "process_cpu_time_ns"
      || name == "idle_process_cpu_duty_ppm" || name == "idle_process_tree_cpu_duty_ppm"
      || name == "idle_voluntary_context_switch_rate_per_second"
      || name == "idle_involuntary_context_switch_rate_per_second"
      || name == "python_gc_collection_count" || name == "rss_delta_bytes" || name == "tracemalloc_peak_bytes"
      || name == "prompt_tokens_estimated" || name == "imported_module_count" || name == "openminion_module_count"
  {
  }

  lemma {:induction false} IntegersAreValues(runs: seq<Run>, name: string)
    ensures Integers(SamplesOf(runs, name)) == ValuesOf(runs, name)
  {
    if runs == [] {
    } else {
      IntegersAreValues(runs[1..], name);
      assert SamplesOf(runs, name)[1..] == SamplesOf(runs[1..], name);
    }
  }

  lemma {:induction false} SumsOfInsert(x: int, s: seq<int>)
    ensures Sum(Insert(x, s)) == x + Sum(s)
    ensures SumOfSquares(Insert(x, s)) == x * x + SumOfSquares(s)
  {
    if s == [] || x <= s[0] {
      assert ([x] + s)[1..] == s;
    } else {
      SumsOfInsert(x, s[1..]);
      assert ([s[0]] + Insert(x, s[1..]))[1..] == Insert(x, s[1..]);
    }
  }

  lemma {:induction false} SumsOfSort(s: seq<int>)
    ensures Sum(Sort(s)) == Sum(s) && SumOfSquares(Sort(s)) == SumOfSquares(s)
  {
    if s == [] {
    } else {
      SumsOfSort(s[1..]);
      SumsOfInsert(s[0], Sort(s[1..]));
    }
  }

  lemma {:induction false} DeviationsExpand(values: seq<int>, mean: real)
    ensures SquaredDeviations(values, mean) ==
      SumOfSquares(values) as real - 2.0 * mean * Sum(values) as real + |values| as real * (mean * mean)
  {
    if values == [] {
    } else {
      DeviationsExpand(values[1..], mean);
      var x := values[0] as real;
      assert (values[0] * values[0]) as real == x * x;
      assert (x - mean) * (x - mean) == x * x - 2.0 * mean * x + mean * mean;
      assert |values| as real == 1.0 + |values[1..]| as real;
      Distribute(mean, x, Sum(values[1..]) as real);
    }
  }

  lemma Distribute(mean: real, x: real, rest: real)
    ensures 2.0 * mean * (x + rest) == 2.0 * mean * x + 2.0 * mean * rest
  {
  }

  /** The comparison of the rounded coefficient with 0.20 needs no roots and no division. */
  lemma SpreadMeans(values: seq<int>)
    ensures IsSpread(values) <==> IsNoisy(values)
  {
    if values == [] {
    } else {
      var mean := Sum(values) as real / |values| as real;
      DeviationsExpand(values, mean);
      SpreadArithmetic(|values|, Sum(values), SumOfSquares(values), SquaredDeviations(values, mean));
    }
  }

  lemma SpreadArithmetic(n: nat, total: int, squares: int, deviations: real)
    requires n > 0
    requires
      var mean := total as real / n as real;
      deviations == squares as real - 2.0 * mean * total as real + n as real * (mean * mean)
    ensures
      var mean := total as real / n as real;
      (mean > 0.0 && deviations / n as real > 0.20005 * 0.20005 * mean * mean) <==>
      (total > 0 && 10_000_000_000 * (n * squares - total * total) > 400_200_025 * (total * total))
  {
    var mean := total as real / n as real;
    assert mean * n as real == total as real;
    ScaledSpread(n as real, total as real, squares as real, mean, deviations);
    SpreadInIntegers(n, total, squares);
  }

  lemma ProductAsReal(a: int, b: int)
    ensures (a * b) as real == a as real * b as real
  {
  }

  lemma SpreadInIntegers(n: int, total: int, squares: int)
    ensures 10_000_000_000 * (n * squares - total * total) > 400_200_025 * (total * total) <==>
      10_000_000_000.0 * (n as real * squares as real - total as real * total as real) >
        400_200_025.0 * (total as real * total as real)
  {
    ProductAsReal(n, squares);
    ProductAsReal(total, total);
    var a, b := n * squares, total * total;
    assert (10_000_000_000 * (a - b)) as real == 10_000_000_000.0 * (a as real - b as real);
    assert (400_200_025 * b) as real == 400_200_025.0 * b as real;
  }

  lemma ScaledSpread(n: real, total: real, squares: real, mean: real, deviations: real)
    requires n > 0.0 && mean * n == total
    requires deviations == squares - 2.0 * mean * total + n * (mean * mean)
    ensures mean > 0.0 <==> total > 0.0
    ensures deviations / n > 0.20005 * 0.20005 * mean * mean <==>
      10_000_000_000.0 * (n * squares - total * total) > 400_200_025.0 * (total * total)
  {
    var m2 := mean * mean;
    assert total * total == n * (n * m2);
    assert mean * total == n * m2;
    assert deviations == squares - n * m2;
    assert 0.20005 * 0.20005 * mean * mean == 0.0400200025 * m2;
    var gap := deviations / n - 0.0400200025 * m2;
    assert n * gap == deviations - 0.0400200025 * (n * m2);
    assert n * (n * gap) == n * squares - total * total - 0.0400200025 * (total * total);
    SignOfProduct(n, gap);
    SignOfProduct(n, n * gap);
    SignOfProduct(n, mean);
  }

  lemma SignOfProduct(n: real, x: real)
    requires n > 0.0
    ensures n * x > 0.0 <==> x > 0.0
  {
    if x <= 0.0 {
      assert n * (-x) >= 0.0;
    }
  }

  lemma MetricMeans(runs: seq<Run>, name: string)
    ensures IsMetricOf(MetricFrom(SamplesOf(runs, name)), ValuesOf(runs, name))
  {
    var samples := SamplesOf(runs, name);
    IntegersAreValues(runs, name);
    SummaryMeans(samples, Summarize(samples));
    SortSorts(Integers(samples));
    SumsOfSort(Integers(samples));
    SpreadMeans(Sort(Integers(samples)));
  }

  lemma {:induction false} OkCountLast(runs: seq<Run>, run: Run)
    ensures OkCount(runs + [run]) == OkCount(runs) + (if run.ok then 1 else 0)
  {
    if runs == [] {
      assert runs + [run] == [run];
    } else {
      OkCountLast(runs[1..], run);
      assert (runs + [run])[1..] == runs[1..] + [run];
    }
  }

  lemma OkRunsLast(runs: seq<Run>, run: Run)
    ensures |OkRuns(runs + [run])| == |OkRuns(runs)| + (if run.ok then 1 else 0)
  {
    var end: nat := |runs|;
    assert end !in OkRuns(runs);
    assert OkRuns(runs + [run]) == OkRuns(runs) + (if run.ok then {end} else {});
  }

  lemma {:induction false} OkCountIsCount(runs: seq<Run>)
    ensures OkCount(runs) == |OkRuns(runs)|
  {
    if runs == [] {
    } else {
      var last := |runs| - 1;
      var most := runs[..last];
      OkCountIsCount(most);
      OkCountLast(most, runs[last]);
      OkRunsLast(most, runs[last]);
      assert runs == most + [runs[last]];
    }
  }

  lemma MetricIsUnique(m: Metric, n: Metric, values: seq<int>)
    requires IsMetricOf(m, values) && IsMetricOf(n, values)
    ensures m == n
  {
    if values == [] {
    } else {
      MedianIsUnique(m.median.value, n.median.value, values);
      NearestRankIsUnique(m.p95.value, n.p95.value, values, 95);
    }
  }

  lemma MetricsMean(metrics: map<string, Metric>, runs: seq<Run>, names: seq<string>)
    ensures metrics == MetricsOf(runs, names) <==> AreMetricsOf(metrics, runs, names)
  {
    forall name ensures IsMetricOf(MetricFrom(SamplesOf(runs, name)), ValuesOf(runs, name)) {
      MetricMeans(runs, name);
    }
    if AreMetricsOf(metrics, runs, names) {
      forall name | name in metrics ensures metrics[name] == MetricsOf(runs, names)[name] {
        MetricIsUnique(metrics[name], MetricsOf(runs, names)[name], ValuesOf(runs, name));
      }
    }
  }

  /** A scenario is exactly what is said of its runs. */
  lemma ScenarioMeans(runs: seq<Run>, s: Scenario)
    requires runs != []
    ensures s == ScenarioOf(runs) <==> IsScenarioOf(s, runs)
  {
    OkCountIsCount(runs);
    MetricsMean(s.metrics, runs, METRICS);
  }

  /** The verdict on a scenario: its threshold, unless its samples are of mixed origin. */
  ghost function Verdict(runs: seq<Run>, id: string, baseline: Option<BaselineDocument>, mode: Mode): Status
    requires runs != []
  {
    if !AreOneCampaign(runs) then Ineligible else Threshold(ScenarioOf(runs), baseline, id, mode)
  }

  datatype Entry = Entry(scenario: Scenario, status: Status)

  type Report = map<string, Entry>

  // ----- summarize_runs

  method Group(runs: seq<Run>) returns (groups: map<string, seq<Run>>)
    ensures forall id :: id in groups <==> RunsOf(runs, id) != []
    ensures forall id :: id in groups ==> groups[id] == RunsOf(runs, id)
  {
    groups := map[];
    for i := 0 to |runs|
      invariant forall id :: id in groups <==> RunsOf(runs[..i], id) != []
      invariant forall id :: id in groups ==> groups[id] == RunsOf(runs[..i], id)
    {
      var id := runs[i].scenario;
      forall other ensures
        RunsOf(runs[..i + 1], other) == RunsOf(runs[..i], other) + (if other == id then [runs[i]] else [])
      {
        RunsOfLast(runs[..i], runs[i], other);
        assert runs[..i + 1] == runs[..i] + [runs[i]];
      }
      groups := groups[id := (if id in groups then groups[id] else []) + [runs[i]]];
    }
    assert runs[..|runs|] == runs;
  }

  lemma {:induction false} RunsOfLast(runs: seq<Run>, run: Run, id: string)
    ensures RunsOf(runs + [run], id) == RunsOf(runs, id) + (if run.scenario == id then [run] else [])
  {
    if runs == [] {
      assert runs + [run] == [run];
    } else {
      RunsOfLast(runs[1..], run, id);
      assert (runs + [run])[1..] == runs[1..] + [run];
    }
  }

  method SummarizeScenario(runs: seq<Run>, id: string, baseline: Option<BaselineDocument>, mode: Mode)
    returns (entry: Entry)
    requires runs != []
    ensures entry == Entry(ScenarioOf(runs), Verdict(runs, id, baseline, mode))
    ensures IsScenarioOf(entry.scenario, runs)
  {
    var carried := seq(|runs|, i requires 0 <= i < |runs| => runs[i].identity);
    var offsets := Incompatibilities(carried);
    var scenario := Scenario(|runs|, OkCount(runs), OrEmpty(runs[0].identity.comparison), offsets != [],
                             runs[0].variance == WARN_ONLY,
                             MetricsOf(runs, METRICS));
    PairwiseIsOneCampaign(runs, carried);
    entry := Entry(scenario, Threshold(scenario, baseline, id, mode));
    if offsets != [] {
      entry := entry.(status := Ineligible);
    }
    ScenarioMeans(runs, entry.scenario);
  }

  lemma PairwiseIsOneCampaign(runs: seq<Run>, carried: seq<Carried>)
    requires |carried| == |runs| && forall i :: 0 <= i < |runs| ==> carried[i] == runs[i].identity
    ensures AreOneCampaign(runs) <==> forall i, j :: 0 <= i < j < |carried| ==> AreSameCampaign(carried[i], carried[j])
  {
    if forall i, j :: 0 <= i < j < |carried| ==> AreSameCampaign(carried[i], carried[j]) {
      forall i, j | 0 <= i < j < |runs| ensures AreSameCampaign(runs[i].identity, runs[j].identity) {
        assert AreSameCampaign(carried[i], carried[j]);
      }
    }
  }

  ghost predicate IsReport(report: Report, runs: seq<Run>, baseline: Option<BaselineDocument>, mode: Mode) {
    && (forall id :: id in report <==> RunsOf(runs, id) != [])
    && forall id :: id in report ==>
         report[id] == Entry(ScenarioOf(RunsOf(runs, id)), Verdict(RunsOf(runs, id), id, baseline, mode))
  }

  method SummarizeRuns(runs: seq<Run>, baseline: Option<BaselineDocument>, mode: Mode) returns (report: Report)
    ensures IsReport(report, runs, baseline, mode)
  {
    var groups := Group(runs);
    report := map[];
    var left := groups.Keys;
    while left != {}
      invariant left <= groups.Keys && report.Keys == groups.Keys - left
      invariant forall id :: id in report ==>
        report[id] == Entry(ScenarioOf(groups[id]), Verdict(groups[id], id, baseline, mode))
    {
      var id :| id in left;
      var entry := SummarizeScenario(groups[id], id, baseline, mode);
      report := report[id := entry];
      left := left - {id};
    }
  }

  // ----- the failure collectors

  predicate HasInvalidSamples(e: Entry) {
    e.scenario.okCount < e.scenario.count || e.scenario.incompatible
  }

  predicate IsUndecided(e: Entry) {
    e.status.Ineligible? || e.status.NotApplicable?
  }

  predicate IsFailed(e: Entry) {
    e.status.Fail?
  }

  /** The scenarios of the report with a given defect. */
  method Failures(report: Report, defect: Entry -> bool) returns (ids: seq<string>)
    ensures forall id :: id in ids <==> id in report && defect(report[id])
  {
    ids := [];
    var left := report.Keys;
    while left != {}
      invariant left <= report.Keys
      invariant forall id :: id in ids <==> id in report.Keys - left && defect(report[id])
    {
      var id :| id in left;
      if defect(report[id]) {
        ids := ids + [id];
      }
      left := left - {id};
    }
  }

  ghost predicate HasNoDefect(e: Entry, comparing: bool, mode: Mode) {
    && e.scenario.okCount >= e.scenario.count && !e.scenario.incompatible
    && (comparing ==> !e.status.Ineligible? && !e.status.NotApplicable?)
    && (mode.Hard? ==> !e.status.Fail?)
  }

  ghost predicate HasNoDefects(report: Report, comparing: bool, mode: Mode) {
    forall id :: id in report ==> HasNoDefect(report[id], comparing, mode)
  }

  /** From the report to the exit code; `comparing` says that a baseline file was named. */
  method ExitCode(report: Report, comparing: bool, mode: Mode) returns (code: int)
    ensures code == 0 || code == 1
    ensures code == 0 <==> HasNoDefects(report, comparing, mode)
  {
    var invalid := Failures(report, HasInvalidSamples);
    if invalid != [] {
      assert invalid[0] in invalid;
      return 1;
    }
    if comparing {
      var undecided := Failures(report, IsUndecided);
      if undecided != [] {
        assert undecided[0] in undecided;
        return 1;
      }
    }
    if mode.Hard? {
      var failed := Failures(report, IsFailed);
      if failed != [] {
        assert failed[0] in failed;
        return 1;
      }
    }
    return 0;
  }

  // ----- the whole campaign

  ghost predicate AreAllOk(runs: seq<Run>) {
    forall i :: 0 <= i < |runs| ==> runs[i].ok
  }

  lemma {:induction false} OkCountMeans(runs: seq<Run>)
    ensures OkCount(runs) <= |runs|
    ensures OkCount(runs) == |runs| <==> AreAllOk(runs)
  {
    if runs == [] {
    } else {
      OkCountMeans(runs[1..]);
      assert forall i :: 0 < i < |runs| ==> runs[i] == runs[1..][i - 1];
      assert AreAllOk(runs) <==> runs[0].ok && AreAllOk(runs[1..]);
    }
  }

  /** What a scenario needs to get through a hard gate, on its samples: all of them ok, any two of one
      origin, twenty or more on both sides and a baseline that may be compared, all the evidence, and
      limits that are met or only warned about. */
  ghost predicate GetsThrough(runs: seq<Run>, id: string, baseline: Option<BaselineDocument>)
    requires runs != []
  {
    && AreAllOk(runs) && AreOneCampaign(runs)
    && |runs| >= 20
    && baseline.Some? && id in baseline.value.scenarios
    && var base := baseline.value.scenarios[id];
    && base.okCount >= base.count >= 20
    && exists current :: IsScenarioOf(current, runs) && IsJudged(current, baseline.value, id)
         && (MeetsLimits(current, base, id) || runs[0].variance == "provider_warn_only")
  }

  /** What the exit code asks of one scenario. */
  ghost predicate IsAccepted(runs: seq<Run>, id: string, comparing: bool, baseline: Option<BaselineDocument>,
                             mode: Mode)
    requires runs != []
  {
    && AreAllOk(runs) && AreOneCampaign(runs)
    && var status := Verdict(runs, id, baseline, mode);
    && (comparing ==> !status.Ineligible? && !status.NotApplicable?)
    && (mode.Hard? ==> !status.Fail?)
  }

  ghost predicate AreAllAccepted(runs: seq<Run>, comparing: bool, baseline: Option<BaselineDocument>, mode: Mode) {
    forall id :: RunsOf(runs, id) != [] ==> IsAccepted(RunsOf(runs, id), id, comparing, baseline, mode)
  }

  lemma AcceptedIsCleared(runs: seq<Run>, id: string, baseline: Option<BaselineDocument>)
    requires runs != []
    ensures IsAccepted(runs, id, true, baseline, Hard) <==>
      AreAllOk(runs) && AreOneCampaign(runs) && IsCleared(Threshold(ScenarioOf(runs), baseline, id, Hard))
  {
  }

  lemma TheScenarioGetsThrough(runs: seq<Run>, id: string, baseline: Option<BaselineDocument>, current: Scenario)
    requires runs != [] && current == ScenarioOf(runs)
    ensures GetsThrough(runs, id, baseline) <==>
      && AreAllOk(runs) && AreOneCampaign(runs) && baseline.Some? && IsJudged(current, baseline.value, id)
      && (MeetsLimits(current, baseline.value.scenarios[id], id) || current.warnOnly)
  {
    forall s: Scenario ensures IsScenarioOf(s, runs) <==> s == current {
      ScenarioMeans(runs, s);
    }
  }

  /** In hard mode with a baseline, a scenario is accepted exactly when it gets through. */
  lemma HardGateMeans(runs: seq<Run>, id: string, baseline: Option<BaselineDocument>)
    requires runs != []
    ensures IsAccepted(runs, id, true, baseline, Hard) <==> GetsThrough(runs, id, baseline)
  {
    AcceptedIsCleared(runs, id, baseline);
    ClearedMeans(ScenarioOf(runs), baseline, id);
    TheScenarioGetsThrough(runs, id, baseline, ScenarioOf(runs));
  }

  /** The whole command after measuring. A hard gate with a baseline exits with zero exactly when every
      scenario that was run gets through. */
  method Gate(runs: seq<Run>, comparing: bool, baseline: Option<BaselineDocument>, mode: Mode) returns (code: int)
    ensures code == 0 || code == 1
    ensures code == 0 <==> AreAllAccepted(runs, comparing, baseline, mode)
    ensures comparing && mode.Hard? ==> (code == 0 <==> DoAllGetThrough(runs, baseline))
  {
    var report := SummarizeRuns(runs, baseline, mode);
    code := ExitCode(report, comparing, mode);
    ReportDecides(report, runs, comparing, baseline, mode);
    HardGateIsAll(runs, baseline);
  }

  ghost predicate DoAllGetThrough(runs: seq<Run>, baseline: Option<BaselineDocument>) {
    forall id :: RunsOf(runs, id) != [] ==> GetsThrough(RunsOf(runs, id), id, baseline)
  }

  lemma HardGateIsAll(runs: seq<Run>, baseline: Option<BaselineDocument>)
    ensures AreAllAccepted(runs, true, baseline, Hard) <==> DoAllGetThrough(runs, baseline)
  {
    if !AreAllAccepted(runs, true, baseline, Hard) {
      var id :| RunsOf(runs, id) != [] && !IsAccepted(RunsOf(runs, id), id, true, baseline, Hard);
      HardGateMeans(RunsOf(runs, id), id, baseline);
    } else if !DoAllGetThrough(runs, baseline) {
      var id :| RunsOf(runs, id) != [] && !GetsThrough(RunsOf(runs, id), id, baseline);
      HardGateMeans(RunsOf(runs, id), id, baseline);
    }
  }

  lemma EntryDecides(runs: seq<Run>, id: string, comparing: bool, baseline: Option<BaselineDocument>, mode: Mode)
    requires runs != []
    ensures IsAccepted(runs, id, comparing, baseline, mode) <==>
      HasNoDefect(Entry(ScenarioOf(runs), Verdict(runs, id, baseline, mode)), comparing, mode)
  {
    OkCountMeans(runs);
  }

  lemma ReportDecides(report: Report, runs: seq<Run>, comparing: bool, baseline: Option<BaselineDocument>, mode: Mode)
    requires IsReport(report, runs, baseline, mode)
    ensures HasNoDefects(report, comparing, mode) <==> AreAllAccepted(runs, comparing, baseline, mode)
  {
    forall id | id in report
      ensures RunsOf(runs, id) != []
      ensures IsAccepted(RunsOf(runs, id), id, comparing, baseline, mode) <==> HasNoDefect(report[id], comparing, mode)
    {
      EntryDecides(RunsOf(runs, id), id, comparing, baseline, mode);
    }
    if AreAllAccepted(runs, comparing, baseline, mode) {
      assert HasNoDefects(report, comparing, mode);
    } else {
      var id :| RunsOf(runs, id) != [] && !IsAccepted(RunsOf(runs, id), id, comparing, baseline, mode);
      assert id in report && !HasNoDefect(report[id], comparing, mode);
    }
  }
}
