/** The comparison gate of the performance baseline: from the samples of a campaign and a stored
    baseline to the exit code. */
module PerformanceGate {
  import opened Results
  import opened Rounding
  import opened Percentiles
  import opened Identity

  const SCHEMA_VERSION: string := "pomv2.performance.v4"
  const MIN_SAMPLES: int := 20
  const WARN_ONLY: string := "provider_warn_only"
  const IDLE: string := "runtime_manager_idle"
  const IMPORT_SURFACE: string := "terminal_import_surface"
  const IDLE_SWITCHES: string := "idle_voluntary_context_switch_rate_per_second"
  const IDLE_CPU: string := "idle_process_cpu_duty_ppm"
  const IMPORTED: string := "imported_module_count"
  const OPENMINION: string := "openminion_module_count"
  const CPU_DUTY_FLOOR: int := 20_000

  const STARTUP_SCENARIOS: seq<string> := [
    "cold_focus_startup", "warm_focus_startup", "cold_focus_prompt_ready", "warm_focus_prompt_ready",
    IMPORT_SURFACE, "interactive_runtime_import_surface"]

  predicate RequiresMedian(id: string) {
    id in STARTUP_SCENARIOS || id == "deterministic_full_turn"
  }

  function WallMetric(id: string): string {
    if id in STARTUP_SCENARIOS then "wall_time_ms" else "wall_time_ns"
  }

  /** The part of a metric summary that the gate reads; `noisy` says that the coefficient of
      variation is known and above 0.20. */
  datatype Metric = Metric(count: Option<int>, median: Option<int>, p95: Option<int>, noisy: bool)

  const NO_METRIC: Metric := Metric(None, None, None, false)

  datatype Scenario = Scenario(
    count: int,
    okCount: int,
    comparison: Option<Document>,
    incompatible: bool,
    warnOnly: bool,
    metrics: map<string, Metric>)

  datatype BaselineDocument = BaselineDocument(schemaVersion: string, scenarios: map<string, Scenario>)

  datatype Mode = Off | Warn | Hard

  datatype Status = NotApplicable | Ineligible | Fail | Eligible | Pass | Warned

  function MetricOf(s: Scenario, name: string): Metric {
    if name in s.metrics then s.metrics[name] else NO_METRIC
  }

  function Larger(a: int, b: int): int {
    if a >= b then a else b
  }

  /** `round(current / max(1, baseline), 4)` in units of one ten-thousandth. */
  function Ratio(current: int, baseline: int): int {
    Round(current * 10_000, Larger(1, baseline))
  }

  /** 1.05 for scenarios with a median, 1.10 for the others, in the same units. */
  function RatioLimit(id: string): int {
    if RequiresMedian(id) then 10_500 else 11_000
  }

  function Judge(passed: bool, mode: Mode, warnOnly: bool): Status {
    if passed then Pass else if mode != Hard || warnOnly then Warned else Fail
  }

  // ----- _threshold_result

  function Threshold(current: Scenario, baseline: Option<BaselineDocument>, id: string, mode: Mode): Status {
    if baseline.None? then NotApplicable
    else if id !in baseline.value.scenarios then Ineligible
    else if baseline.value.schemaVersion != SCHEMA_VERSION then Ineligible
    else
      var base := baseline.value.scenarios[id];
      if !IsComparable(current.comparison, base.comparison, true) then Ineligible
      else if base.incompatible then Ineligible
      else if current.okCount < current.count then Fail
      else if base.okCount < base.count then Ineligible
      else if current.count < MIN_SAMPLES || base.count < MIN_SAMPLES then Ineligible
      else if MetricOf(base, WallMetric(id)).noisy || MetricOf(current, WallMetric(id)).noisy then Ineligible
      else if id == IDLE then IdleThreshold(current, base, mode)
      else TimingThreshold(current, base, id, mode)
  }

  predicate HasEnough(m: Metric) {
    m.count.Some? && m.count.value >= MIN_SAMPLES
  }

  function IdleThreshold(current: Scenario, base: Scenario, mode: Mode): Status {
    var was, now := MetricOf(base, IDLE_SWITCHES), MetricOf(current, IDLE_SWITCHES);
    var wasCpu, nowCpu := MetricOf(base, IDLE_CPU), MetricOf(current, IDLE_CPU);
    if !HasEnough(was) || !HasEnough(now) || !HasEnough(wasCpu) || !HasEnough(nowCpu) then Ineligible
    else if was.noisy || now.noisy || wasCpu.noisy || nowCpu.noisy then Ineligible
    else if was.median.None? || now.median.None? || wasCpu.p95.None? || nowCpu.p95.None? then NotApplicable
    else if mode.Off? then Eligible
    else
      Judge(2 * now.median.value <= was.median.value && nowCpu.p95.value <= Larger(wasCpu.p95.value, CPU_DUTY_FLOOR),
            mode, current.warnOnly)
  }

  function TimingThreshold(current: Scenario, base: Scenario, id: string, mode: Mode): Status {
    var was, now := MetricOf(base, WallMetric(id)), MetricOf(current, WallMetric(id));
    if was.p95.None? || now.p95.None? then NotApplicable
    else if RequiresMedian(id) && (was.median.None? || now.median.None?) then NotApplicable
    else if mode.Off? then Eligible
    else
      var timing :=
        && Ratio(now.p95.value, was.p95.value) <= RatioLimit(id)
        && (RequiresMedian(id) ==> Ratio(now.median.value, was.median.value) <= RatioLimit(id));
      if id == IMPORT_SURFACE then
        if !HasMedians(current, base, IMPORTED) || !HasMedians(current, base, OPENMINION) then NotApplicable
        else Judge(timing && Fell(current, base, IMPORTED) && Fell(current, base, OPENMINION), mode, current.warnOnly)
      else Judge(timing, mode, current.warnOnly)
  }

  predicate HasMedians(current: Scenario, base: Scenario, name: string) {
    MetricOf(base, name).median.Some? && MetricOf(current, name).median.Some?
  }

  predicate Fell(current: Scenario, base: Scenario, name: string)
    requires HasMedians(current, base, name)
  {
    MetricOf(current, name).median.value < MetricOf(base, name).median.value
  }

  // ----- what the gate promises, written out without rounding

  ghost predicate IsStartup(id: string) {
    id in {"cold_focus_startup", "warm_focus_startup", "cold_focus_prompt_ready", "warm_focus_prompt_ready",
           "terminal_import_surface", "interactive_runtime_import_surface"}
  }

  ghost predicate NeedsMedian(id: string) {
    IsStartup(id) || id == "deterministic_full_turn"
  }

  ghost function TimingName(id: string): string {
    if IsStartup(id) then "wall_time_ms" else "wall_time_ns"
  }

  ghost predicate IsKnownNoisy(s: Scenario, name: string) {
    name in s.metrics && s.metrics[name].noisy
  }

  ghost predicate HasMedian(s: Scenario, name: string) {
    name in s.metrics && s.metrics[name].median.Some?
  }

  ghost predicate HasP95(s: Scenario, name: string) {
    name in s.metrics && s.metrics[name].p95.Some?
  }

  ghost predicate HasTwenty(s: Scenario, name: string) {
    name in s.metrics && s.metrics[name].count.Some? && s.metrics[name].count.value >= 20
  }

  /** Current and baseline are about the same thing, and the baseline is of one origin. */
  ghost predicate IsMatched(current: Scenario, doc: BaselineDocument, id: string) {
    && id in doc.scenarios && doc.schemaVersion == "pomv2.performance.v4"
    && IsComparable(current.comparison, doc.scenarios[id].comparison, true)
    && !doc.scenarios[id].incompatible
  }

  /** Neither side is too small or too noisy, and both are valid and about the same thing. */
  ghost predicate IsFairComparison(current: Scenario, doc: BaselineDocument, id: string) {
    && IsMatched(current, doc, id)
    && current.okCount >= current.count >= 20
    && doc.scenarios[id].okCount >= doc.scenarios[id].count >= 20
    && !IsKnownNoisy(current, TimingName(id)) && !IsKnownNoisy(doc.scenarios[id], TimingName(id))
  }

  /** At most 1.05, and 1.10 where there is no median, up to half a ten-thousandth. */
  ghost predicate IsWithinRatio(current: int, baseline: int, id: string) {
    20_000 * current <= (if NeedsMedian(id) then 21_001 else 22_001) * (if baseline > 1 then baseline else 1)
  }

  ghost predicate HasWallTimes(current: Scenario, base: Scenario, id: string) {
    && HasP95(current, TimingName(id)) && HasP95(base, TimingName(id))
    && (NeedsMedian(id) ==> HasMedian(current, TimingName(id)) && HasMedian(base, TimingName(id)))
  }

  ghost predicate HasModuleCounts(current: Scenario, base: Scenario) {
    && HasMedian(current, "imported_module_count") && HasMedian(base, "imported_module_count")
    && HasMedian(current, "openminion_module_count") && HasMedian(base, "openminion_module_count")
  }

  ghost predicate IsMedianLower(current: Scenario, base: Scenario, name: string)
    requires HasMedian(current, name) && HasMedian(base, name)
  {
    current.metrics[name].median.value < base.metrics[name].median.value
  }

  ghost predicate HasTimings(current: Scenario, base: Scenario, id: string) {
    HasWallTimes(current, base, id) && (id == "terminal_import_surface" ==> HasModuleCounts(current, base))
  }

  ghost predicate MeetsTimings(current: Scenario, base: Scenario, id: string)
    requires HasTimings(current, base, id)
  {
    var name := TimingName(id);
    && IsWithinRatio(current.metrics[name].p95.value, base.metrics[name].p95.value, id)
    && (NeedsMedian(id) ==> IsWithinRatio(current.metrics[name].median.value, base.metrics[name].median.value, id))
    && (id == "terminal_import_surface" ==>
          && IsMedianLower(current, base, "imported_module_count")
          && IsMedianLower(current, base, "openminion_module_count"))
  }

  /** Twenty samples of each resource, none of them known to be noisy. */
  ghost predicate HasQuietResources(s: Scenario) {
    && HasTwenty(s, "idle_voluntary_context_switch_rate_per_second") && HasTwenty(s, "idle_process_cpu_duty_ppm")
    && !IsKnownNoisy(s, "idle_voluntary_context_switch_rate_per_second")
    && !IsKnownNoisy(s, "idle_process_cpu_duty_ppm")
  }

  ghost predicate HasIdleEvidence(current: Scenario, base: Scenario) {
    && HasQuietResources(current) && HasQuietResources(base)
    && HasMedian(current, "idle_voluntary_context_switch_rate_per_second")
    && HasMedian(base, "idle_voluntary_context_switch_rate_per_second")
    && HasP95(current, "idle_process_cpu_duty_ppm") && HasP95(base, "idle_process_cpu_duty_ppm")
  }

  /** Half the context switches, and no more CPU than before or two percent. */
  ghost predicate MeetsIdle(current: Scenario, base: Scenario)
    requires HasIdleEvidence(current, base)
  {
    var switches, cpu := "idle_voluntary_context_switch_rate_per_second", "idle_process_cpu_duty_ppm";
    && 2 * current.metrics[switches].median.value <= base.metrics[switches].median.value
    && (current.metrics[cpu].p95.value <= base.metrics[cpu].p95.value || current.metrics[cpu].p95.value <= 20_000)
  }

  ghost predicate HasEvidence(current: Scenario, base: Scenario, id: string) {
    if id == "runtime_manager_idle" then HasIdleEvidence(current, base) else HasTimings(current, base, id)
  }

  ghost predicate MeetsLimits(current: Scenario, base: Scenario, id: string)
    requires HasEvidence(current, base, id)
  {
    if id == "runtime_manager_idle" then MeetsIdle(current, base) else MeetsTimings(current, base, id)
  }

  /** The limits are looked at: a fair comparison with all the evidence. */
  ghost predicate IsJudged(current: Scenario, doc: BaselineDocument, id: string) {
    IsFairComparison(current, doc, id) && HasEvidence(current, doc.scenarios[id], id)
  }

  /** Limits that are not met are only warned about. */
  ghost predicate IsLenient(current: Scenario, mode: Mode) {
    mode.Warn? || current.warnOnly
  }

  lemma NamesAgree(id: string)
    ensures WallMetric(id) == TimingName(id) && (RequiresMedian(id) <==> NeedsMedian(id))
  {
  }

  lemma RatioIsExact(current: int, baseline: int, id: string)
    ensures Ratio(current, baseline) <= RatioLimit(id) <==> IsWithinRatio(current, baseline, id)
  {
    NamesAgree(id);
    RoundAtMost(current * 10_000, Larger(1, baseline), RatioLimit(id));
  }

  lemma TimingThresholdMeans(current: Scenario, base: Scenario, id: string, mode: Mode)
    ensures
      var status := TimingThreshold(current, base, id, mode);
      if mode.Off? then status == if HasWallTimes(current, base, id) then Eligible else NotApplicable
      else if !HasTimings(current, base, id) then status == NotApplicable
      else if MeetsTimings(current, base, id) then status == Pass
      else status == if IsLenient(current, mode) then Warned else Fail
  {
    NamesAgree(id);
    var was, now := MetricOf(base, WallMetric(id)), MetricOf(current, WallMetric(id));
    if was.p95.Some? && now.p95.Some? {
      RatioIsExact(now.p95.value, was.p95.value, id);
    }
    if was.median.Some? && now.median.Some? {
      RatioIsExact(now.median.value, was.median.value, id);
    }
  }

  lemma IdleThresholdMeans(current: Scenario, base: Scenario, mode: Mode)
    ensures
      var status := IdleThreshold(current, base, mode);
      if !HasQuietResources(current) || !HasQuietResources(base) then status == Ineligible
      else if !HasIdleEvidence(current, base) then status == NotApplicable
      else if mode.Off? then status == Eligible
      else if MeetsIdle(current, base) then status == Pass
      else status == if IsLenient(current, mode) then Warned else Fail
  {
  }

  /** Every status of a comparison, in every mode: without a fair comparison there is none; a current
      scenario with a failed sample fails; and otherwise the evidence, the limits and the leniency decide. */
  lemma ThresholdMeans(current: Scenario, doc: BaselineDocument, id: string, mode: Mode)
    ensures
      var status := Threshold(current, Some(doc), id, mode);
      if !IsMatched(current, doc, id) then status == Ineligible
      else if current.okCount < current.count then status == Fail
      else if !IsFairComparison(current, doc, id) then status == Ineligible
      else
        var base := doc.scenarios[id];
        if id == "runtime_manager_idle" && (!HasQuietResources(current) || !HasQuietResources(base)) then
          status == Ineligible
        else if mode.Off? && id != "runtime_manager_idle" then
          status == if HasWallTimes(current, base, id) then Eligible else NotApplicable
        else if !HasEvidence(current, base, id) then status == NotApplicable
        else if mode.Off? then status == Eligible
        else if MeetsLimits(current, base, id) then status == Pass
        else status == if IsLenient(current, mode) then Warned else Fail
    ensures Threshold(current, None, id, mode) == NotApplicable
  {
    NamesAgree(id);
    if id in doc.scenarios {
      if id == IDLE {
        IdleThresholdMeans(current, doc.scenarios[id], mode);
      } else {
        TimingThresholdMeans(current, doc.scenarios[id], id, mode);
      }
    }
  }

  /** A scenario passes exactly when the comparison is fair, the evidence is there and the limits are
      met; without meeting them it gets through with a warning in warn mode and when it is warn-only. */
  lemma PassingMeans(current: Scenario, doc: BaselineDocument, id: string, mode: Mode)
    requires !mode.Off?
    ensures
      var status := Threshold(current, Some(doc), id, mode);
      && !status.Eligible?
      && (status.Pass? <==> IsJudged(current, doc, id) && MeetsLimits(current, doc.scenarios[id], id))
      && (status.Pass? || status.Warned? <==>
            IsJudged(current, doc, id) && (MeetsLimits(current, doc.scenarios[id], id) || IsLenient(current, mode)))
  {
    ThresholdMeans(current, doc, id, mode);
  }

  ghost predicate IsCleared(status: Status) {
    !status.Ineligible? && !status.NotApplicable? && !status.Fail?
  }

  /** What clears a hard comparison. */
  lemma ClearedMeans(current: Scenario, baseline: Option<BaselineDocument>, id: string)
    ensures IsCleared(Threshold(current, baseline, id, Hard)) <==>
      && baseline.Some? && IsJudged(current, baseline.value, id)
      && (MeetsLimits(current, baseline.value.scenarios[id], id) || current.warnOnly)
  {
    if baseline.Some? {
      PassingMeans(current, baseline.value, id, Hard);
    }
  }

  // ----- lowering the current timings

  ghost predicate IsLowered(a: Option<int>, b: Option<int>) {
    if b.None? then a.None? else a.Some? && a.value <= b.value
  }

  /** The same scenario with lower p95 and median values. */
  ghost predicate IsFaster(fast: Scenario, slow: Scenario) {
    && fast.count == slow.count && fast.okCount == slow.okCount && fast.comparison == slow.comparison
    && fast.incompatible == slow.incompatible && fast.warnOnly == slow.warnOnly
    && forall name :: IsFasterMetric(MetricOf(fast, name), MetricOf(slow, name))
  }

  ghost predicate IsFasterMetric(a: Metric, b: Metric) {
    a.count == b.count && a.noisy == b.noisy && IsLowered(a.median, b.median) && IsLowered(a.p95, b.p95)
  }

  /** Lowering the current timings, medians or p95 alike, never turns a pass into anything else, and
      never turns a scenario that got through into one that does not, in every mode. */
  lemma FasterNeverFails(fast: Scenario, slow: Scenario, doc: BaselineDocument, id: string, mode: Mode)
    requires IsFaster(fast, slow)
    ensures
      var was, now := Threshold(slow, Some(doc), id, mode), Threshold(fast, Some(doc), id, mode);
      && (was.Pass? ==> now.Pass?)
      && (was.Warned? ==> now.Pass? || now.Warned?)
      && (was.Eligible? ==> now.Eligible?)
  {
    if mode.Off? {
      FasterStaysEligible(fast, slow, doc, id);
    } else {
      PassingMeans(slow, doc, id, mode);
      PassingMeans(fast, doc, id, mode);
      if id in doc.scenarios {
        FasterIsJudged(fast, slow, doc, id);
      }
    }
  }

  lemma FasterStaysEligible(fast: Scenario, slow: Scenario, doc: BaselineDocument, id: string)
    requires IsFaster(fast, slow)
    ensures Threshold(fast, Some(doc), id, Off) == Threshold(slow, Some(doc), id, Off)
  {
    assert IsFasterMetric(MetricOf(fast, WallMetric(id)), MetricOf(slow, WallMetric(id)));
    assert IsFasterMetric(MetricOf(fast, IDLE_SWITCHES), MetricOf(slow, IDLE_SWITCHES));
    assert IsFasterMetric(MetricOf(fast, IDLE_CPU), MetricOf(slow, IDLE_CPU));
  }

  lemma FasterIsJudged(fast: Scenario, slow: Scenario, doc: BaselineDocument, id: string)
    requires IsFaster(fast, slow) && id in doc.scenarios
    ensures IsJudged(slow, doc, id) ==> IsJudged(fast, doc, id)
    ensures IsJudged(slow, doc, id) && MeetsLimits(slow, doc.scenarios[id], id) ==>
      MeetsLimits(fast, doc.scenarios[id], id)
  {
    FasterHasMore(fast, slow, TimingName(id));
    FasterKeepsTimings(fast, slow, doc.scenarios[id], id);
    FasterKeepsIdle(fast, slow, doc.scenarios[id]);
  }

  lemma FasterHasMore(fast: Scenario, slow: Scenario, name: string)
    requires IsFaster(fast, slow)
    ensures IsKnownNoisy(fast, name) == IsKnownNoisy(slow, name)
    ensures HasTwenty(fast, name) == HasTwenty(slow, name)
    ensures HasMedian(slow, name) ==>
      HasMedian(fast, name) && fast.metrics[name].median.value <= slow.metrics[name].median.value
    ensures HasP95(slow, name) ==>
      HasP95(fast, name) && fast.metrics[name].p95.value <= slow.metrics[name].p95.value
  {
    assert IsFasterMetric(MetricOf(fast, name), MetricOf(slow, name));
  }

  lemma FasterKeepsTimings(fast: Scenario, slow: Scenario, base: Scenario, id: string)
    requires IsFaster(fast, slow)
    ensures HasTimings(slow, base, id) ==> HasTimings(fast, base, id)
    ensures HasTimings(slow, base, id) && MeetsTimings(slow, base, id) ==> MeetsTimings(fast, base, id)
  {
    FasterHasMore(fast, slow, TimingName(id));
    FasterHasMore(fast, slow, "imported_module_count");
    FasterHasMore(fast, slow, "openminion_module_count");
  }

  lemma FasterKeepsIdle(fast: Scenario, slow: Scenario, base: Scenario)
    requires IsFaster(fast, slow)
    ensures HasIdleEvidence(slow, base) ==> HasIdleEvidence(fast, base)
    ensures HasIdleEvidence(slow, base) && MeetsIdle(slow, base) ==> MeetsIdle(fast, base)
  {
    FasterHasMore(fast, slow, "idle_voluntary_context_switch_rate_per_second");
    FasterHasMore(fast, slow, "idle_process_cpu_duty_ppm");
  }
}
