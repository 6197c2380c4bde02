/** The mypy error budget: per-package ceilings that an update may only lower, resets that a
    reviewed artifact must announce, and the report that compares a measurement with them. */
module MypyBudget {

  type Package = string

  type CountMap = map<Package, int>

  datatype Baseline = Baseline(packageErrors: CountMap, totalErrors: int, reviewArtifact: string)

  function Get(m: CountMap, p: Package): int {
    if p in m then m[p] else 0
  }

  // ----- totals

  ghost function Sum(m: CountMap): int
    decreases |m|
  {
    if m == map[] then 0
    else
      var p :| p in m;
      assert (m - {p}).Keys == m.Keys - {p};
      m[p] + Sum(m - {p})
  }

  lemma {:induction false} SumOfPart(m: CountMap, p: Package)
    requires p in m
    ensures Sum(m) == m[p] + Sum(m - {p})
    decreases |m|
  {
    var q :| q in m && Sum(m) == m[q] + Sum(m - {q});
    if q != p {
      assert (m - {q}).Keys == m.Keys - {q};
      assert (m - {p}).Keys == m.Keys - {p};
      SumOfPart(m - {q}, p);
      SumOfPart(m - {p}, q);
      assert m - {q} - {p} == m - {p} - {q};
    }
  }

  /** Pointwise at most, with an absent package counting as zero. */
  predicate AtMost(a: CountMap, b: CountMap) {
    forall p :: p in a.Keys + b.Keys ==> Get(a, p) <= Get(b, p)
  }

  lemma SumSplits(m: CountMap, p: Package)
    ensures Sum(m) == Get(m, p) + Sum(m - {p})
  {
    if p in m { SumOfPart(m, p); } else { assert m - {p} == m; }
  }

  lemma AtMostElsewhere(a: CountMap, b: CountMap, p: Package)
    requires AtMost(a, b)
    ensures AtMost(a - {p}, b - {p}) && Get(a, p) <= Get(b, p)
  {
    forall q | q in (a - {p}).Keys + (b - {p}).Keys ensures Get(a - {p}, q) <= Get(b - {p}, q) {
      assert q in a.Keys + b.Keys;
    }
    assert p in a.Keys + b.Keys ==> Get(a, p) <= Get(b, p);
  }

  lemma {:induction false} SumIsAtMost(a: CountMap, b: CountMap)
    requires AtMost(a, b)
    ensures Sum(a) <= Sum(b)
    decreases |a| + |b|
  {
    if a.Keys + b.Keys == {} {
    } else {
      var p :| p in a.Keys + b.Keys;
      AtMostElsewhere(a, b, p);
      SumSplits(a, p);
      SumSplits(b, p);
      assert (a - {p}).Keys == a.Keys - {p} && (b - {p}).Keys == b.Keys - {p};
      SumIsAtMost(a - {p}, b - {p});
    }
  }

  lemma SumIsMonotone(a: CountMap, b: CountMap)
    requires AtMost(a, b)
    ensures Sum(a) <= Sum(b)
    ensures (exists p :: p in b && Get(a, p) < b[p]) ==> Sum(a) < Sum(b)
  {
    SumIsAtMost(a, b);
    if p :| p in b && Get(a, p) < b[p] {
      AtMostElsewhere(a, b, p);
      SumSplits(a, p);
      SumSplits(b, p);
      SumIsAtMost(a - {p}, b - {p});
    }
  }

  // ----- regressions

  datatype Regression = PackageRose(package: Package) | TotalRose

  /** Packages above their ceiling, then the total above the sum of the ceilings. */
  method Increases(current: CountMap, allowed: CountMap, currentTotal: int)
    returns (regressions: seq<Regression>, allowedTotal: int)
    ensures allowedTotal == Sum(allowed)
    ensures forall r :: r in regressions <==> IsRegression(r, current, allowed, currentTotal)
  {
    regressions := [];
    var rest := current.Keys + allowed.Keys;
    while rest != {}
      invariant rest <= current.Keys + allowed.Keys
      invariant forall r :: r in regressions <==>
        r.PackageRose? && r.package !in rest && IsRegression(r, current, allowed, currentTotal)
      decreases rest
    {
      var p :| p in rest;
      if Get(current, p) > Get(allowed, p) {
        regressions := regressions + [PackageRose(p)];
      }
      rest := rest - {p};
    }
    allowedTotal := Total(allowed);
    if currentTotal > allowedTotal {
      regressions := regressions + [TotalRose];
    }
  }

  method Total(m: CountMap) returns (t: int)
    ensures t == Sum(m)
  {
    t := 0;
    var rest := m;
    while rest != map[]
      invariant t + Sum(rest) == Sum(m)
      decreases |rest|
    {
      var p :| p in rest;
      SumOfPart(rest, p);
      t := t + rest[p];
      assert (rest - {p}).Keys == rest.Keys - {p};
      rest := rest - {p};
    }
  }

  ghost predicate IsRegression(r: Regression, current: CountMap, allowed: CountMap, currentTotal: int) {
    match r
    case PackageRose(p) => p in current.Keys + allowed.Keys && Get(current, p) > Get(allowed, p)
    case TotalRose => currentTotal > Sum(allowed)
  }

  ghost predicate HasRegression(current: CountMap, allowed: CountMap, currentTotal: int) {
    exists r :: IsRegression(r, current, allowed, currentTotal)
  }

  /** The check on the total never fires alone: without a risen package the total has not risen. */
  lemma TotalNeverRisesAlone(current: CountMap, allowed: CountMap)
    ensures IsRegression(TotalRose, current, allowed, Sum(current)) ==>
      exists p :: IsRegression(PackageRose(p), current, allowed, Sum(current))
    ensures HasRegression(current, allowed, Sum(current)) <==> !AtMost(current, allowed)
  {
    if AtMost(current, allowed) {
      SumIsMonotone(current, allowed);
      forall r ensures !IsRegression(r, current, allowed, Sum(current)) { }
    } else {
      var p :| p in current.Keys + allowed.Keys && Get(current, p) > Get(allowed, p);
      assert IsRegression(PackageRose(p), current, allowed, Sum(current));
    }
  }

  // ----- updates

  ghost predicate HasImprovement(current: CountMap, allowed: CountMap) {
    exists p :: p in allowed && Get(current, p) < allowed[p]
  }

  /** When an ordinary update is accepted. */
  ghost predicate AcceptsEmit(b: Baseline, current: CountMap) {
    b.packageErrors == map[] ||
    (!HasRegression(current, b.packageErrors, Sum(current)) && HasImprovement(current, b.packageErrors))
  }

  /** A reviewed artifact: the counts it replaces and the counts it announces. */
  datatype Review = Review(previous: CountMap, previousTotal: int, proposed: CountMap, proposedTotal: int, path: string)

  /** `_assert_count_block` on both blocks. */
  ghost predicate IsWellFormedReview(review: Review) {
    && review.previous != map[] && review.previousTotal == Sum(review.previous)
    && review.proposed != map[] && review.proposedTotal == Sum(review.proposed)
  }

  ghost predicate AcceptsReset(b: Baseline, review: Review, current: CountMap) {
    && IsWellFormedReview(review)
    && b.packageErrors == review.previous
    && current == review.proposed
    && review.proposedTotal == Sum(current)
  }

  /** The baseline file as the tool rewrites it. */
  class BudgetFile {
    var baseline: Baseline

    constructor (b: Baseline)
      ensures baseline == b
    {
      baseline := b;
    }

    method EmitMonotonic(current: CountMap) returns (exitCode: int)
      modifies this
      ensures exitCode == 0 <==> AcceptsEmit(old(baseline), current)
      ensures baseline ==
        if exitCode == 0 then Baseline(current, Sum(current), old(baseline.reviewArtifact)) else old(baseline)
    {
      var allowed := baseline.packageErrors;
      var total := Total(current);
      var regressions, allowedTotal := Increases(current, allowed, total);
      if allowed != map[] && regressions != [] {
        assert regressions[0] in regressions;
        return 1;
      }
      if allowed != map[] && !exists p :: p in allowed && Get(current, p) < allowed[p] {
        return 1;
      }
      assert allowed == map[] || forall r :: !IsRegression(r, current, allowed, total);
      baseline := Baseline(current, total, baseline.reviewArtifact);
      exitCode := 0;
    }

    method EmitReviewedReset(review: Review, current: CountMap) returns (exitCode: int)
      modifies this
      ensures exitCode == 0 <==> AcceptsReset(old(baseline), review, current)
      ensures baseline == if exitCode == 0 then Baseline(current, Sum(current), review.path) else old(baseline)
    {
      var previousTotal := Total(review.previous);
      var proposedTotal := Total(review.proposed);
      if review.previous == map[] || review.proposed == map[]
         || review.previousTotal != previousTotal || review.proposedTotal != proposedTotal {
        return 1;
      }
      if baseline.packageErrors != review.previous || current != review.proposed {
        return 1;
      }
      var total := Total(current);
      if review.proposedTotal != total {
        return 1;
      }
      baseline := Baseline(current, total, review.path);
      exitCode := 0;
    }

    /** The report passes exactly when no package is above its ceiling and no ceiling has room. */
    method Report(current: CountMap) returns (exitCode: int)
      ensures exitCode == 0 <==> ReportPasses(baseline, current)
      ensures exitCode == 0 || exitCode == 1
    {
      var allowed := baseline.packageErrors;
      var total := Total(current);
      var regressions, allowedTotal := Increases(current, allowed, total);
      TotalNeverRisesAlone(current, allowed);
      var improved := exists p :: p in allowed && Get(current, p) < allowed[p];
      if regressions != [] {
        assert regressions[0] in regressions;
        return 1;
      }
      exitCode := if improved then 1 else 0;
    }
  }

  ghost predicate ReportPasses(b: Baseline, current: CountMap) {
    AtMost(current, b.packageErrors) && !HasImprovement(current, b.packageErrors)
  }

  /** For measured counts, which are positive, a passing report means equality. */
  lemma PassingMeansEqual(b: Baseline, current: CountMap)
    requires forall p :: p in current ==> current[p] > 0
    requires forall p :: p in b.packageErrors ==> b.packageErrors[p] > 0
    ensures ReportPasses(b, current) <==> current == b.packageErrors
  {
    var allowed := b.packageErrors;
    if ReportPasses(b, current) {
      forall p ensures p in current <==> p in allowed
               ensures p in current && p in allowed ==> current[p] == allowed[p]
      {
        if p in current.Keys + allowed.Keys {
          assert Get(current, p) <= Get(allowed, p);
        }
      }
    }
  }

  // ----- runs of updates

  datatype Op = Update(current: CountMap) | Reset(review: Review, current: CountMap)

  ghost predicate IsAccepted(b: Baseline, op: Op) {
    match op
    case Update(current) => AcceptsEmit(b, current)
    case Reset(review, current) => AcceptsReset(b, review, current)
  }

  ghost function Apply(b: Baseline, op: Op): Baseline {
    if !IsAccepted(b, op) then b
    else Baseline(op.current, Sum(op.current), if op.Reset? then op.review.path else b.reviewArtifact)
  }

  ghost function ApplyAll(b: Baseline, ops: seq<Op>): Baseline
    decreases |ops|
  {
    if ops == [] then b else ApplyAll(Apply(b, ops[0]), ops[1..])
  }

  /** No reset takes effect, and no update starts from a baseline without packages. */
  ghost predicate IsGuarded(b: Baseline, ops: seq<Op>)
    decreases |ops|
  {
    ops == [] ||
    (!(ops[0].Reset? && IsAccepted(b, ops[0])) && b.packageErrors != map[] && IsGuarded(Apply(b, ops[0]), ops[1..]))
  }

  ghost function AcceptedCount(b: Baseline, ops: seq<Op>): nat
    decreases |ops|
  {
    if ops == [] then 0
    else (if IsAccepted(b, ops[0]) then 1 else 0) + AcceptedCount(Apply(b, ops[0]), ops[1..])
  }

  /** From a baseline with packages, an accepted update raises no package, strictly lowers the
      total, and leaves a baseline on which the report passes. */
  lemma UpdateLowers(b: Baseline, current: CountMap)
    requires b.packageErrors != map[] && AcceptsEmit(b, current)
    ensures AtMost(current, b.packageErrors)
    ensures Sum(current) < Sum(b.packageErrors)
    ensures ReportPasses(Apply(b, Update(current)), current)
  {
    TotalNeverRisesAlone(current, b.packageErrors);
    SumIsMonotone(current, b.packageErrors);
  }

  lemma AtMostIsTransitive(a: CountMap, b: CountMap, c: CountMap)
    requires AtMost(a, b) && AtMost(b, c)
    ensures AtMost(a, c)
  {
    forall p | p in a.Keys + c.Keys ensures Get(a, p) <= Get(c, p) {
      assert p in a.Keys + b.Keys || (p !in a && p !in b);
      assert p in b.Keys + c.Keys || (p !in b && p !in c);
    }
  }

  /** Over any run, ceilings rise only at an accepted reset or from a baseline without packages;
      otherwise they fall pointwise, and each accepted update lowers the total. */
  lemma {:induction false} GuardedRunsOnlyLower(b: Baseline, ops: seq<Op>)
    requires IsGuarded(b, ops)
    ensures AtMost(ApplyAll(b, ops).packageErrors, b.packageErrors)
    ensures Sum(ApplyAll(b, ops).packageErrors) + AcceptedCount(b, ops) <= Sum(b.packageErrors)
    decreases |ops|
  {
    if ops == [] {
    } else {
      var next := Apply(b, ops[0]);
      GuardedRunsOnlyLower(next, ops[1..]);
      if IsAccepted(b, ops[0]) {
        UpdateLowers(b, ops[0].current);
        AtMostIsTransitive(ApplyAll(b, ops).packageErrors, next.packageErrors, b.packageErrors);
      }
    }
  }

  /** The only two ways up: an update of a baseline without packages, which accepts anything, and an
      accepted reset whose reviewed new counts are not below the reviewed old ones. */
  lemma CeilingsRiseExactly(b: Baseline, op: Op)
    ensures !AtMost(Apply(b, op).packageErrors, b.packageErrors) <==>
      if op.Update? then b.packageErrors == map[] && !AtMost(op.current, map[])
      else AcceptsReset(b, op.review, op.current) && !AtMost(op.review.proposed, op.review.previous)
    ensures b.packageErrors == map[] ==> (IsAccepted(b, op) <==> op.Update?)
    ensures IsAccepted(b, op) && b.packageErrors != map[] ==> ReportPasses(Apply(b, op), op.current)
  {
    if op.Update? && b.packageErrors != map[] && AcceptsEmit(b, op.current) {
      UpdateLowers(b, op.current);
    }
  }

  /** Reaching zero errors is one way to get there: the update is accepted, and the next one may
      raise any package to any count without a review. */
  lemma ZeroErrorsOpenTheBudget(b: Baseline, current: CountMap)
    requires exists p :: p in b.packageErrors && b.packageErrors[p] > 0
    requires forall p :: p in b.packageErrors ==> b.packageErrors[p] >= 0
    ensures ApplyAll(b, [Update(map[]), Update(current)]).packageErrors == current
  {
    TotalNeverRisesAlone(map[], b.packageErrors);
    var p :| p in b.packageErrors && b.packageErrors[p] > 0;
    assert Get(map[], p) < b.packageErrors[p];
    assert IsAccepted(b, Update(map[]));
    var next := Apply(b, Update(map[]));
    var ops := [Update(map[]), Update(current)];
    assert ops[1..] == [Update(current)] && [Update(current)][1..] == [];
    assert ApplyAll(Apply(next, Update(current)), []) == Apply(next, Update(current));
  }

  // ----- reset debt

  const FLOOR: CountMap := map["api" := 125, "cli" := 576, "modules" := 2717, "root" := 1, "services" := 373,
      "tools" := 227]
  const FLOOR_TOTAL: int := 4019

  function AboveZero(n: int): int {
    if n > 0 then n else 0
  }

  function Debts(counts: CountMap, floor: CountMap): CountMap {
    map p | p in counts :: AboveZero(counts[p] - Get(floor, p))
  }

  /** Every measured package has a debt, which is its excess over its floor, and zero without one. */
  lemma DebtMeans(counts: CountMap, floor: CountMap, p: Package)
    ensures p in Debts(counts, floor) <==> p in counts
    ensures p in counts ==>
      var debt, allowed := Debts(counts, floor)[p], if p in floor then floor[p] else 0;
      && (debt == 0 <==> counts[p] <= allowed)
      && (counts[p] > allowed ==> debt == counts[p] - allowed)
  {
  }

  lemma DebtsSplit(counts: CountMap, floor: CountMap, p: Package)
    requires p in counts
    ensures
      var debts := Debts(counts, floor);
      && debts[p] >= 0 && debts[p] >= counts[p] - Get(floor, p)
      && debts - {p} == Debts(counts - {p}, floor - {p})
  {
  }

  lemma {:induction false} DebtsCoverTheExcess(counts: CountMap, floor: CountMap)
    requires forall p :: p in floor ==> floor[p] >= 0
    ensures Sum(Debts(counts, floor)) >= Sum(counts) - Sum(floor)
    ensures Sum(Debts(counts, floor)) >= 0
    decreases |counts|
  {
    if counts == map[] {
      assert Debts(counts, floor) == map[];
      assert AtMost(map[], floor);
      SumIsMonotone(map[], floor);
    } else {
      var p :| p in counts;
      assert (counts - {p}).Keys == counts.Keys - {p};
      DebtsCoverTheExcess(counts - {p}, floor - {p});
      SumOfPart(counts, p);
      DebtsSplit(counts, floor, p);
      SumOfPart(Debts(counts, floor), p);
      SumSplits(floor, p);
    }
  }

  lemma SumWith(m: CountMap, p: Package, n: int)
    requires p !in m
    ensures Sum(m[p := n]) == Sum(m) + n
  {
    SumOfPart(m[p := n], p);
    assert m[p := n] - {p} == m;
  }

  lemma FloorAddsUp()
    ensures Sum(FLOOR) == FLOOR_TOTAL
  {
    var m1: CountMap := map["api" := 125];
    var m2 := m1["cli" := 576];
    var m3 := m2["modules" := 2717];
    var m4 := m3["root" := 1];
    var m5 := m4["services" := 373];
    assert m1 == map[]["api" := 125];
    SumWith(map[], "api", 125);
    SumWith(m1, "cli", 576);
    SumWith(m2, "modules", 2717);
    SumWith(m3, "root", 1);
    SumWith(m4, "services", 373);
    SumWith(m5, "tools", 227);
    assert m5["tools" := 227] == FLOOR;
  }

  lemma FloorIsNotNegative()
    ensures forall p :: p in FLOOR ==> FLOOR[p] >= 0
  {
  }

  lemma DebtsCoverAnyFloor(counts: CountMap, floor: CountMap, total: int)
    requires Sum(floor) == total && forall p :: p in floor ==> floor[p] >= 0
    ensures Sum(Debts(counts, floor)) >= AboveZero(Sum(counts) - total)
  {
    DebtsCoverTheExcess(counts, floor);
  }

  /** The package debts of a reset add up to at least its total debt. */
  lemma PackageDebtsCoverTotalDebt(counts: CountMap)
    ensures Sum(Debts(counts, FLOOR)) >= AboveZero(Sum(counts) - FLOOR_TOTAL)
  {
    FloorAddsUp();
    FloorIsNotNegative();
    DebtsCoverAnyFloor(counts, FLOOR, FLOOR_TOTAL);
  }
}
