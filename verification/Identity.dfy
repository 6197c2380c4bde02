/** When two performance samples may be compared: the identity checks, and that passing them is an
    equivalence on well-formed identities. */
module Identity {
  import opened Results
  import opened Tsv

  /** A value of an identity document, as far as the checks look at it. */
  datatype Value = Null | Text(text: string) | Number(n: int) | Flag(on: bool) | Compound(items: seq<string>)

  type Document = map<string, Value>

  function Get(d: Document, key: string): Value {
    if key in d then d[key] else Null
  }

  predicate IsFalsy(v: Value) {
    match v
    case Null => true
    case Text(t) => t == ""
    case Number(n) => n == 0
    case Flag(on) => !on
    case Compound(items) => items == []
  }

  /** Empty, or a text that says nothing is known. */
  predicate IsBlank(v: Value) {
    IsFalsy(v) || (v.Text? && Strip(v.text) in ["", "unknown", "unavailable"])
  }

  /** A value that says something. */
  ghost predicate IsFilled(v: Value) {
    && v != Null && v != Number(0) && v != Flag(false) && v != Compound([])
    && (v.Text? ==> Strip(v.text) != "" && Strip(v.text) != "unknown" && Strip(v.text) != "unavailable")
  }

  lemma BlankMeans(v: Value)
    ensures IsBlank(v) <==> !IsFilled(v)
  {
  }

  const NONEMPTY_KEYS: seq<string> := [
    "artifact_schema_version", "scenario_id", "command_shape", "fixture_revision", "measured_boundary",
    "python_implementation", "python_version", "python_build", "resolved_python_executable",
    "runner_source_sha256", "host_runtime_hash", "runtime_dependency_hash", "effective_sys_path_shape",
    "bytecode_cache_posture", "process_posture"]

  const REQUIRED_KEYS: seq<string> := NONEMPTY_KEYS + ["inherited_pythonpath_shape"]

  const COMPARED_KEYS: seq<string> := REQUIRED_KEYS + [
    "provider_posture", "model_posture", "include_importtime", "profile", "warmup_runs", "scenario_config"]

  const SOURCE_KEYS: seq<string> := [
    "git_head", "dirty_tree_fingerprint", "runner_path", "runner_source_sha256",
    "loaded_openminion_package_root", "loaded_openminion_package_source_sha256"]

  const EDITABLE: string := "editable_dependency_names"

  /** What is wrong with one compared key. */
  predicate IsKeyError(key: string, a: Document, b: Document) {
    || (key in REQUIRED_KEYS && (key !in a || key !in b))
    || (key in NONEMPTY_KEYS && (IsBlank(Get(a, key)) || IsBlank(Get(b, key))))
    || Get(a, key) != Get(b, key)
  }

  const MISSING_COMPARISON: string := "missing comparison identity"
  const MISSING_MEASUREMENT: string := "missing measurement identity"

  method ComparisonErrors(current: Option<Document>, baseline: Option<Document>, rejectEditable: bool)
    returns (errors: seq<string>)
    ensures errors == [] <==> IsComparable(current, baseline, rejectEditable)
  {
    if current.None? || baseline.None? { return [MISSING_COMPARISON]; }
    var a, b := current.value, baseline.value;
    errors := [];
    for i := 0 to |COMPARED_KEYS|
      invariant errors == [] <==> forall k :: 0 <= k < i ==> !IsKeyError(COMPARED_KEYS[k], a, b)
    {
      if IsKeyError(COMPARED_KEYS[i], a, b) {
        errors := errors + [COMPARED_KEYS[i]];
      }
    }
    assert errors == [] <==> forall key :: key in COMPARED_KEYS ==> !IsKeyError(key, a, b);
    if rejectEditable && (!IsFalsy(Get(a, EDITABLE)) || !IsFalsy(Get(b, EDITABLE))) {
      errors := errors + [EDITABLE];
    }
  }

  /** No comparison error between two documents. */
  predicate IsComparable(a: Option<Document>, b: Option<Document>, rejectEditable: bool) {
    && a.Some? && b.Some?
    && (forall key :: key in COMPARED_KEYS ==> !IsKeyError(key, a.value, b.value))
    && (rejectEditable ==> IsFalsy(Get(a.value, EDITABLE)) && IsFalsy(Get(b.value, EDITABLE)))
  }

  /** A document with every required key present and filled in. */
  ghost predicate IsWellFormed(a: Option<Document>, rejectEditable: bool) {
    && a.Some?
    && (forall key :: key in REQUIRED_KEYS ==> key in a.value)
    && (forall key :: key in NONEMPTY_KEYS ==> IsFilled(Get(a.value, key)))
    && (rejectEditable ==> IsFalsy(Get(a.value, EDITABLE)))
  }

  /** The comparison accepts exactly two well-formed documents that agree on every compared key. */
  lemma ComparableMeans(a: Option<Document>, b: Option<Document>, rejectEditable: bool)
    ensures IsComparable(a, b, rejectEditable) <==>
      && IsWellFormed(a, rejectEditable) && IsWellFormed(b, rejectEditable)
      && forall key :: key in COMPARED_KEYS ==> Get(a.value, key) == Get(b.value, key)
  {
    if IsComparable(a, b, rejectEditable) {
      forall key | key in REQUIRED_KEYS ensures key in a.value && key in b.value {
        assert key in COMPARED_KEYS && !IsKeyError(key, a.value, b.value);
      }
      forall key | key in NONEMPTY_KEYS ensures IsFilled(Get(a.value, key)) && IsFilled(Get(b.value, key)) {
        BlankMeans(Get(a.value, key));
        BlankMeans(Get(b.value, key));
        assert key in REQUIRED_KEYS && key in COMPARED_KEYS && !IsKeyError(key, a.value, b.value);
      }
    }
  }

  /** Passing the comparison is symmetric and transitive, and reflexive exactly on well-formed
      documents. */
  lemma ComparableIsPartialEquivalence(a: Option<Document>, b: Option<Document>, c: Option<Document>,
                                       rejectEditable: bool)
    ensures IsComparable(a, b, rejectEditable) ==> IsComparable(b, a, rejectEditable)
    ensures IsComparable(a, b, rejectEditable) && IsComparable(b, c, rejectEditable) ==>
      IsComparable(a, c, rejectEditable)
    ensures IsComparable(a, a, rejectEditable) <==> IsWellFormed(a, rejectEditable)
  {
    ComparableMeans(a, b, rejectEditable);
    ComparableMeans(b, a, rejectEditable);
    ComparableMeans(b, c, rejectEditable);
    ComparableMeans(a, c, rejectEditable);
    ComparableMeans(a, a, rejectEditable);
  }

  // ----- samples of one campaign

  /** The two identity documents a sample carries. */
  datatype Carried = Carried(measurement: Option<Document>, comparison: Option<Document>)

  method SampleErrors(expected: Option<Document>, actual: Option<Document>,
                      expectedComparison: Option<Document>, actualComparison: Option<Document>)
    returns (errors: seq<string>)
    ensures errors == [] <==> AreSameCampaign(Carried(expected, expectedComparison), Carried(actual, actualComparison))
  {
    if expected.None? || actual.None? { return [MISSING_MEASUREMENT]; }
    var a, b := expected.value, actual.value;
    errors := [];
    for i := 0 to |SOURCE_KEYS|
      invariant errors == [] <==> forall k :: 0 <= k < i ==> IsSameSource(SOURCE_KEYS[k], a, b)
    {
      BlankMeans(Get(a, SOURCE_KEYS[i]));
      if IsSourceError(SOURCE_KEYS[i], a, b) {
        errors := errors + [SOURCE_KEYS[i]];
      }
    }
    assert errors == [] <==> forall key :: key in SOURCE_KEYS ==> IsSameSource(key, a, b);
    var more := ComparisonErrors(expectedComparison, actualComparison, false);
    errors := errors + more;
  }

  predicate IsSourceError(key: string, expected: Document, actual: Document) {
    IsBlank(Get(expected, key)) || Get(expected, key) != Get(actual, key)
  }

  /** Both measured the same sources, and agree on every compared key. */
  ghost predicate AreSameCampaign(x: Carried, y: Carried) {
    && x.measurement.Some? && y.measurement.Some?
    && (forall key :: key in SOURCE_KEYS ==> IsSameSource(key, x.measurement.value, y.measurement.value))
    && IsComparable(x.comparison, y.comparison, false)
  }

  ghost predicate IsSameSource(key: string, a: Document, b: Document) {
    IsFilled(Get(a, key)) && Get(a, key) == Get(b, key)
  }

  lemma SameCampaignIsPartialEquivalence(x: Carried, y: Carried, z: Carried)
    ensures AreSameCampaign(x, y) ==> AreSameCampaign(y, x)
    ensures AreSameCampaign(x, y) && AreSameCampaign(y, z) ==> AreSameCampaign(x, z)
  {
    ComparableIsPartialEquivalence(x.comparison, y.comparison, z.comparison, false);
    if AreSameCampaign(x, y) {
      forall key | key in SOURCE_KEYS ensures IsSameSource(key, y.measurement.value, x.measurement.value) {
        assert IsSameSource(key, x.measurement.value, y.measurement.value);
      }
      if AreSameCampaign(y, z) {
        forall key | key in SOURCE_KEYS ensures IsSameSource(key, x.measurement.value, z.measurement.value) {
          assert IsSameSource(key, x.measurement.value, y.measurement.value);
          assert IsSameSource(key, y.measurement.value, z.measurement.value);
        }
      }
    }
  }

  /** A missing document stands for an empty one in the first sample. */
  function OrEmpty(d: Option<Document>): Option<Document> {
    if d.None? then Some(map[]) else d
  }

  lemma EmptyIsNeverComparable(b: Option<Document>)
    ensures !IsComparable(Some(map[]), b, false)
  {
    if b.Some? {
      assert NONEMPTY_KEYS[0] in REQUIRED_KEYS && NONEMPTY_KEYS[0] in COMPARED_KEYS;
      assert IsKeyError(NONEMPTY_KEYS[0], map[], b.value);
    }
  }

  lemma EmptyMeasurementNeverMatches(x: Carried, y: Carried)
    requires x.measurement == Some(map[])
    ensures !AreSameCampaign(x, y)
  {
    assert SOURCE_KEYS[0] in SOURCE_KEYS;
    if y.measurement.Some? {
      assert !IsSameSource(SOURCE_KEYS[0], map[], y.measurement.value);
    }
  }

  /** Comparing every sample with the first one only: the offsets of those that do not match. */
  method Incompatibilities(samples: seq<Carried>) returns (offsets: seq<nat>)
    requires samples != []
    ensures offsets == [] <==> forall i, j :: 0 <= i < j < |samples| ==> AreSameCampaign(samples[i], samples[j])
  {
    var first := Carried(OrEmpty(samples[0].measurement), OrEmpty(samples[0].comparison));
    offsets := [];
    for i := 1 to |samples|
      invariant offsets == [] <==> forall k :: 1 <= k < i ==> AreSameCampaign(first, samples[k])
    {
      var errors := SampleErrors(first.measurement, samples[i].measurement, first.comparison, samples[i].comparison);
      if errors != [] {
        offsets := offsets + [i];
      }
    }
    FirstDecides(samples, first);
  }

  /** Matching the first sample is matching every sample. */
  lemma FirstDecides(samples: seq<Carried>, first: Carried)
    requires samples != []
    requires first == Carried(OrEmpty(samples[0].measurement), OrEmpty(samples[0].comparison))
    ensures (forall k :: 1 <= k < |samples| ==> AreSameCampaign(first, samples[k])) <==>
      forall i, j :: 0 <= i < j < |samples| ==> AreSameCampaign(samples[i], samples[j])
  {
    forall k | 1 <= k < |samples|
      ensures AreSameCampaign(first, samples[k]) <==> AreSameCampaign(samples[0], samples[k])
    {
      EmptyIsNeverComparable(samples[k].comparison);
      if samples[0].measurement.None? { EmptyMeasurementNeverMatches(first, samples[k]); }
    }
    if forall k :: 1 <= k < |samples| ==> AreSameCampaign(first, samples[k]) {
      forall i, j | 0 <= i < j < |samples| ensures AreSameCampaign(samples[i], samples[j]) {
        if i > 0 {
          SameCampaignIsPartialEquivalence(samples[0], samples[i], samples[0]);
          SameCampaignIsPartialEquivalence(samples[i], samples[0], samples[j]);
        }
      }
    }
  }
}
