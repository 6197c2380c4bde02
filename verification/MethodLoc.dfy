/** The exact ratchet on long methods. */
module MethodLoc {
  import opened Results
  import opened Tsv
  import opened Ratchet
  import opened BaselineFiles

  /** A method of the source tree and its length in lines. */
  datatype Method = Method(key: Key, loc: nat)

  // ----- measuring and validating

  /** The methods above the ceiling; of methods with one name the last one counts. */
  function OverCeiling(rows: seq<Method>, ceiling: nat): map<Key, nat> {
    if rows == [] then map[]
    else
      var rest, last := OverCeiling(rows[..|rows| - 1], ceiling), rows[|rows| - 1];
      if last.loc > ceiling then rest[last.key := last.loc] else rest
  }

  lemma {:induction false} OverCeilingMeans(rows: seq<Method>, ceiling: nat, k: Key)
    ensures k in OverCeiling(rows, ceiling) <==> exists m :: m in rows && m.key == k && m.loc > ceiling
    ensures k in OverCeiling(rows, ceiling) ==>
      Method(k, OverCeiling(rows, ceiling)[k]) in rows && OverCeiling(rows, ceiling)[k] > ceiling
  {
    if rows == [] {
    } else {
      var rest, last := rows[..|rows| - 1], rows[|rows| - 1];
      assert rows == rest + [last];
      OverCeilingMeans(rest, ceiling, k);
      if last.loc > ceiling && last.key == k {
        assert last in rows && last == Method(k, last.loc);
      }
    }
  }

  /** The measured length of a name is that of its last method above the ceiling. */
  lemma {:induction false} OverCeilingIsLast(rows: seq<Method>, ceiling: nat, i: nat)
    requires i < |rows| && rows[i].loc > ceiling
    requires forall j :: i < j < |rows| && rows[j].loc > ceiling ==> rows[j].key != rows[i].key
    ensures rows[i].key in OverCeiling(rows, ceiling) && OverCeiling(rows, ceiling)[rows[i].key] == rows[i].loc
  {
    if i < |rows| - 1 {
      OverCeilingIsLast(rows[..|rows| - 1], ceiling, i);
    }
  }

  /** Methods that share a name with one above the ceiling have its length. */
  ghost predicate IsConsistent(rows: seq<Method>, ceiling: nat) {
    forall m, n :: m in rows && n in rows && m.key == n.key && m.loc > ceiling ==> n.loc == m.loc
  }

  ghost predicate HasDistinctKeys(rows: seq<Method>) {
    forall m, n :: m in rows && n in rows && m.key == n.key ==> m == n
  }

  /** What a tree measures. */
  function Measure(rows: seq<Method>, ceiling: nat): (measured: map<Key, Counts>)
    ensures IsCounted(measured) && forall k :: k in measured ==> measured[k].second == 0
  {
    map k | k in OverCeiling(rows, ceiling) :: Counts(OverCeiling(rows, ceiling)[k], 0)
  }

  /** A baseline as this validator's file gives it: one counter. */
  ghost predicate IsMethodBaseline(b: Baseline) {
    forall k :: k in b ==> b[k].counts.second == 0
  }

  datatype Finding =
    | NewOverCeiling(row: Method)
    | Grew(row: Method, was: int)
    | StaleHeadroom(row: Method, was: int)
    | StaleBaseline(row: Method)
    | Missing(key: Key)

  predicate IsFinding(f: Finding, rows: seq<Method>, b: Baseline, ceiling: nat) {
    match f
    case NewOverCeiling(m) => m in rows && m.loc > ceiling && m.key !in b
    case Grew(m, was) => m in rows && m.loc > ceiling && m.key in b && was == b[m.key].counts.first && m.loc > was
    case StaleHeadroom(m, was) => m in rows && m.loc > ceiling && m.key in b && was == b[m.key].counts.first
        && m.loc < was
    case StaleBaseline(m) => m in rows && m.loc <= ceiling && m.key in b
    case Missing(k) => k in b && forall m :: m in rows ==> m.key != k
  }

  /** The findings about one method. */
  function FindingsFor(m: Method, b: Baseline, ceiling: nat): seq<Finding> {
    if m.loc > ceiling then
      if m.key !in b then [NewOverCeiling(m)]
      else if m.loc > b[m.key].counts.first then [Grew(m, b[m.key].counts.first)]
      else if m.loc < b[m.key].counts.first then [StaleHeadroom(m, b[m.key].counts.first)]
      else []
    else if m.key in b then [StaleBaseline(m)]
    else []
  }

  method Validate(rows: seq<Method>, b: Baseline, ceiling: nat) returns (findings: seq<Finding>)
    ensures forall f :: f in findings <==> IsFinding(f, rows, b, ceiling)
  {
    findings := [];
    var seen: set<Key> := {};
    for i := 0 to |rows|
      invariant forall k :: k in seen <==> k in b && exists m :: m in rows[..i] && m.key == k
      invariant forall f :: f in findings <==> !f.Missing? && IsFinding(f, rows[..i], b, ceiling)
    {
      var row := rows[i];
      assert rows[..i + 1] == rows[..i] + [row];
      if row.key in b { seen := seen + {row.key}; }
      findings := findings + FindingsFor(row, b, ceiling);
    }
    assert rows[..|rows|] == rows;
    var unseen := b.Keys - seen;
    while unseen != {}
      invariant unseen <= b.Keys - seen
      invariant forall f :: f in findings <==>
        if f.Missing? then f.key in b.Keys - seen - unseen else IsFinding(f, rows, b, ceiling)
      decreases unseen
    {
      var k :| k in unseen;
      findings := findings + [Missing(k)];
      unseen := unseen - {k};
    }
  }

  ghost predicate IsClean(rows: seq<Method>, b: Baseline, ceiling: nat) {
    forall f :: !IsFinding(f, rows, b, ceiling)
  }

  /** Validation is clean exactly when the methods above the ceiling are the baseline, entry for
      entry, and methods that share a name agree. */
  lemma CleanMeansExact(rows: seq<Method>, b: Baseline, ceiling: nat)
    requires IsMethodBaseline(b)
    ensures IsClean(rows, b, ceiling) <==>
      IsConsistent(rows, ceiling) && Measure(rows, ceiling) == CountsOf(b)
  {
    var over := OverCeiling(rows, ceiling);
    forall k ensures k in over <==> exists m :: m in rows && m.key == k && m.loc > ceiling {
      OverCeilingMeans(rows, ceiling, k);
    }
    if IsClean(rows, b, ceiling) {
      CleanIsConsistent(rows, b, ceiling);
      CleanIsEqual(rows, b, ceiling);
    }
    if IsConsistent(rows, ceiling) && Measure(rows, ceiling) == CountsOf(b) {
      ExactIsClean(rows, b, ceiling);
    }
  }

  lemma CleanRow(rows: seq<Method>, b: Baseline, ceiling: nat, m: Method)
    requires IsClean(rows, b, ceiling) && m in rows
    ensures m.key in b <==> m.loc > ceiling
    ensures m.key in b ==> b[m.key].counts.first == m.loc
  {
    assert !IsFinding(NewOverCeiling(m), rows, b, ceiling);
    assert !IsFinding(StaleBaseline(m), rows, b, ceiling);
    if m.key in b {
      assert !IsFinding(Grew(m, b[m.key].counts.first), rows, b, ceiling);
      assert !IsFinding(StaleHeadroom(m, b[m.key].counts.first), rows, b, ceiling);
    }
  }

  lemma CleanIsConsistent(rows: seq<Method>, b: Baseline, ceiling: nat)
    requires IsClean(rows, b, ceiling)
    ensures IsConsistent(rows, ceiling)
  {
    forall m, n | m in rows && n in rows && m.key == n.key && m.loc > ceiling ensures n.loc == m.loc {
      CleanRow(rows, b, ceiling, m);
      CleanRow(rows, b, ceiling, n);
    }
  }

  lemma CleanIsEqual(rows: seq<Method>, b: Baseline, ceiling: nat)
    requires IsMethodBaseline(b) && IsClean(rows, b, ceiling)
    ensures Measure(rows, ceiling) == CountsOf(b)
  {
    var over := OverCeiling(rows, ceiling);
    forall k ensures k in over <==> k in b
             ensures k in over && k in b ==> over[k] == b[k].counts.first
    {
      OverCeilingMeans(rows, ceiling, k);
      if k in over {
        CleanRow(rows, b, ceiling, Method(k, over[k]));
      }
      if k in b {
        assert !IsFinding(Missing(k), rows, b, ceiling);
        var m :| m in rows && m.key == k;
        CleanRow(rows, b, ceiling, m);
      }
    }
  }

  lemma ExactIsClean(rows: seq<Method>, b: Baseline, ceiling: nat)
    requires IsConsistent(rows, ceiling) && Measure(rows, ceiling) == CountsOf(b)
    ensures IsClean(rows, b, ceiling)
  {
    var over := OverCeiling(rows, ceiling);
    forall k ensures k in over <==> k in b
             ensures k in over && k in b ==> over[k] == b[k].counts.first
    {
      assert k in Measure(rows, ceiling) <==> k in CountsOf(b);
      if k in over { assert Measure(rows, ceiling)[k] == CountsOf(b)[k]; }
    }
    forall f ensures !IsFinding(f, rows, b, ceiling) {
      var k := if f.Missing? then f.key else f.row.key;
      OverCeilingMeans(rows, ceiling, k);
      if !f.Missing? && k in over && f.row in rows {
        assert f.row.loc == over[k];
      }
    }
  }

  /** The entries read from this validator's file have one counter. */
  lemma {:induction false} ReadEntriesHaveOneCounter(lines: seq<string>, number: nat, m: Baseline)
    requires IsMethodBaseline(m)
    ensures ParseLines(MethodLines, lines, number, m).Ok? ==>
      IsMethodBaseline(ParseLines(MethodLines, lines, number, m).value)
    decreases |lines|
  {
    if lines == [] {
    } else {
      match ParseRow(lines[0])
      case Skipped => ReadEntriesHaveOneCounter(lines[1..], number + 1, m);
      case Malformed =>
      case Data(c) =>
        var read := FromCells(MethodLines, c);
        if read.Some? {
          ReadEntriesHaveOneCounter(lines[1..], number + 1, m[read.value.0 := read.value.1]);
        }
    }
  }

  // ----- the ratchet

  lemma WrittenIsCleanIff(rows: seq<Method>, b: Baseline, ceiling: nat)
    requires Emit(Measure(rows, ceiling), b).Written?
    ensures IsMethodBaseline(Emit(Measure(rows, ceiling), b).baseline)
    ensures IsClean(rows, Emit(Measure(rows, ceiling), b).baseline, ceiling) <==> IsConsistent(rows, ceiling)
  {
    EmitMeans(Measure(rows, ceiling), b);
    var next := Emit(Measure(rows, ceiling), b).baseline;
    forall k | k in next ensures next[k].counts.second == 0 {
      assert CountsOf(next)[k] == Measure(rows, ceiling)[k];
    }
    CleanMeansExact(rows, next, ceiling);
  }

  // ----- the ratchet on the file

  lemma LoadedHasOneCounter(file: Option<string>)
    requires Load(MethodLines, file).Ok?
    ensures IsMethodBaseline(Load(MethodLines, file).value)
  {
    if file.Some? {
      ReadEntriesHaveOneCounter(SplitLines(file.value), 1, map[]);
    }
  }

  /** On any tree and any baseline file that loads: validation is clean exactly if methods of one name
      agree and the update says unchanged; the update is blocked exactly if something is new or grew;
      and a file that it writes, in any order of rows, is pointwise lower and validates clean exactly if
      methods of one name agree and no measured path looks like a comment. Distinct names agree. */
  lemma FileRatchet(rows: seq<Method>, file: Option<string>, ceiling: nat, order: seq<Key>)
    requires Load(MethodLines, file).Ok?
    ensures
      var b, measured := Load(MethodLines, file).value, Measure(rows, ceiling);
      && (IsClean(rows, b, ceiling) <==> IsConsistent(rows, ceiling) && Emit(measured, b).Unchanged?)
      && (Emit(measured, b).Blocked? <==> Raises(measured, CountsOf(b)))
      && (Emit(measured, b).Written? && (forall k :: k in order <==> k in Emit(measured, b).baseline) ==>
          var next := Emit(measured, b).baseline;
          && Lowers(CountsOf(next), CountsOf(b))
          && IsFittingBaseline(MethodLines, next)
          && var written := Load(MethodLines, Some(Encode(MethodLines, order, next)));
          && written.Ok?
          && (IsClean(rows, written.value, ceiling) <==>
                IsConsistent(rows, ceiling) && forall k :: k in measured ==> !LooksLikeComment(k)))
    ensures HasDistinctKeys(rows) ==> IsConsistent(rows, ceiling)
  {
    var b, measured := Load(MethodLines, file).value, Measure(rows, ceiling);
    LoadedHasOneCounter(file);
    CleanMeansExact(rows, b, ceiling);
    EmitMeans(measured, b);
    Trichotomy(measured, CountsOf(b));
    if Emit(measured, b).Written? && forall k :: k in order <==> k in Emit(measured, b).baseline {
      WrittenFileValidates(rows, file, ceiling, order);
    }
  }

  lemma WrittenFileValidates(rows: seq<Method>, file: Option<string>, ceiling: nat, order: seq<Key>)
    requires Load(MethodLines, file).Ok? && Emit(Measure(rows, ceiling), Load(MethodLines, file).value).Written?
    requires forall k :: k in order <==> k in Emit(Measure(rows, ceiling), Load(MethodLines, file).value).baseline
    ensures
      var measured := Measure(rows, ceiling);
      var next := Emit(measured, Load(MethodLines, file).value).baseline;
      && IsFittingBaseline(MethodLines, next)
      && var written := Load(MethodLines, Some(Encode(MethodLines, order, next)));
      && written == Ok(Readable(next))
      && (IsClean(rows, Readable(next), ceiling) <==>
            IsConsistent(rows, ceiling) && forall k :: k in measured ==> !LooksLikeComment(k))
  {
    var b, measured := Load(MethodLines, file).value, Measure(rows, ceiling);
    WrittenFileIsExact(MethodLines, file, measured, order);
    WrittenIsCleanIff(rows, b, ceiling);
    CleanMeansExact(rows, Readable(Emit(measured, b).baseline), ceiling);
  }

  /** A path that starts with a comment sign: it is read behind a blank, written back without it, and
      so lost. The update succeeds, and validation of the file it wrote fails. */
  lemma CommentPathDefeatsTheRatchet(m: Method, was: Entry, ceiling: nat, order: seq<Key>)
    requires LooksLikeComment(m.key) && ceiling < m.loc < was.counts.first && was.counts.second == 0
    requires IsPlainEntry(m.key, was) && forall k :: k in order <==> k == m.key
    ensures
      var file, next := Some(PaddedFile(MethodLines, m.key, was)), map[m.key := Entry(Counts(m.loc, 0), was.reason)];
      && Load(MethodLines, file) == Ok(map[m.key := was])
      && Emit(Measure([m], ceiling), map[m.key := was]) == Written(next)
      && var written := Load(MethodLines, Some(Encode(MethodLines, order, next)));
      written.Ok? && !IsClean([m], written.value, ceiling)
  {
    PaddedFileLoads(MethodLines, m.key, was);
    OneMethodLowers(m.key, was, m.loc, ceiling);
    FileRatchet([m], Some(PaddedFile(MethodLines, m.key, was)), ceiling, order);
  }

  /** There is such a method and such an entry. */
  lemma CommentPathExists() returns (m: Method, was: Entry)
    ensures LooksLikeComment(m.key) && 100 < m.loc < was.counts.first && was.counts.second == 0
    ensures IsPlainEntry(m.key, was)
  {
    m, was := Method(Key("#x.py", "f"), 120), Entry(Counts(150, 0), "old");
  }

  lemma OneMethodLowers(k: Key, was: Entry, loc: nat, ceiling: nat)
    requires ceiling < loc < was.counts.first && was.counts.second == 0
    ensures Measure([Method(k, loc)], ceiling) == map[k := Counts(loc, 0)]
    ensures Emit(Measure([Method(k, loc)], ceiling), map[k := was]) ==
      Written(map[k := Entry(Counts(loc, 0), was.reason)])
  {
    var rows := [Method(k, loc)];
    assert rows[..0] == [];
    assert OverCeiling(rows, ceiling) == map[k := loc];
    var measured, b := Measure(rows, ceiling), CountsOf(map[k := was]);
    assert measured == map[k := Counts(loc, 0)] && b == map[k := was.counts];
    assert !Raises(measured, b) && Differs(measured, b);
  }

  /** Two methods of one name and different length: the update succeeds, and validation still fails. */
  lemma EqualNamesDefeatTheRatchet(k: Key)
    ensures
      var rows := [Method(k, 150), Method(k, 120)];
      var b: Baseline := map[k := Entry(Counts(200, 0), "")];
      && Emit(Measure(rows, 100), b).Written?
      && !IsClean(rows, Emit(Measure(rows, 100), b).baseline, 100)
  {
    var first, second := Method(k, 150), Method(k, 120);
    var rows := [first, second];
    var b: Baseline := map[k := Entry(Counts(200, 0), "")];
    assert rows[..1] == [first] && [first][..0] == [];
    assert OverCeiling([], 100) == map[];
    assert OverCeiling([first], 100) == map[k := 150];
    assert OverCeiling(rows, 100) == map[k := 150][k := 120];
    var measured, was := Measure(rows, 100), CountsOf(b);
    assert measured.Keys == was.Keys == {k} && measured[k] == Counts(120, 0) && was[k] == Counts(200, 0);
    assert !Raises(measured, was) && Differs(measured, was);
    assert first in rows && second in rows;
    WrittenIsCleanIff(rows, b, 100);
  }
}
