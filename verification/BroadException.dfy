/** The exact ratchet on broad exception handlers: two counters for each file. */
module BroadException {
  import opened Results
  import opened Ratchet
  import opened BaselineFiles

  /** A scanned file: its broad handlers, and how many of them silently pass. */
  datatype FileRow = FileRow(path: string, total: nat, silentPass: nat)

  function KeyOf(row: FileRow): Key {
    Key(row.path, "")
  }

  function CountsIn(row: FileRow): Counts {
    Counts(row.total, row.silentPass)
  }

  /** What a scan measures; of rows for one path the last one counts. */
  function Measure(rows: seq<FileRow>): (measured: map<Key, Counts>)
    ensures IsCounted(measured) && forall k :: k in measured ==> k.name == ""
  {
    if rows == [] then map[]
    else Measure(rows[..|rows| - 1])[KeyOf(rows[|rows| - 1]) := CountsIn(rows[|rows| - 1])]
  }

  lemma {:induction false} MeasureMeans(rows: seq<FileRow>, k: Key)
    ensures k in Measure(rows) <==> exists r :: r in rows && KeyOf(r) == k
    ensures k in Measure(rows) ==> exists r :: r in rows && KeyOf(r) == k && CountsIn(r) == Measure(rows)[k]
  {
    if rows == [] {
    } else {
      var rest, last := rows[..|rows| - 1], rows[|rows| - 1];
      assert rows == rest + [last];
      MeasureMeans(rest, k);
      assert last in rows;
    }
  }

  datatype Finding =
    | NewFile(row: FileRow)
    | CountGrew(row: FileRow, was: Counts)
    | SilentGrew(row: FileRow, was: Counts)
    | StaleHeadroom(row: FileRow, was: Counts)
    | StaleBaseline(row: FileRow)
    | Missing(key: Key)

  predicate IsFinding(f: Finding, rows: seq<FileRow>, b: Baseline) {
    match f
    case NewFile(r) => r in rows && KeyOf(r) !in b
    case CountGrew(r, was) => r in rows && KeyOf(r) in b && was == b[KeyOf(r)].counts && r.total > was.first
    case SilentGrew(r, was) => r in rows && KeyOf(r) in b && was == b[KeyOf(r)].counts && r.silentPass > was.second
    case StaleHeadroom(r, was) =>
      r in rows && KeyOf(r) in b && was == b[KeyOf(r)].counts && (r.total < was.first || r.silentPass < was.second)
    case StaleBaseline(r) => r in rows && KeyOf(r) in b && r.total == 0
    case Missing(k) => k in b && forall r :: r in rows ==> KeyOf(r) != k
  }

  function FindingsFor(r: FileRow, b: Baseline): seq<Finding> {
    if KeyOf(r) !in b then [NewFile(r)]
    else
      var was := b[KeyOf(r)].counts;
      (if r.total > was.first then [CountGrew(r, was)] else [])
      + (if r.silentPass > was.second then [SilentGrew(r, was)] else [])
      + (if r.total < was.first || r.silentPass < was.second then [StaleHeadroom(r, was)] else [])
      + (if r.total == 0 then [StaleBaseline(r)] else [])
  }

  lemma FindingsForOne(r: FileRow, b: Baseline, f: Finding)
    ensures f in FindingsFor(r, b) <==> !f.Missing? && IsFinding(f, [r], b)
  {
    assert !f.Missing? && f.row == r ==> f.row in [r];
  }

  method Validate(rows: seq<FileRow>, b: Baseline) returns (findings: seq<Finding>)
    ensures forall f :: f in findings <==> IsFinding(f, rows, b)
  {
    findings := [];
    var seen: set<Key> := {};
    for i := 0 to |rows|
      invariant forall k :: k in seen <==> k in b && exists r :: r in rows[..i] && KeyOf(r) == k
      invariant forall f :: f in findings <==> !f.Missing? && IsFinding(f, rows[..i], b)
    {
      var row := rows[i];
      assert rows[..i + 1] == rows[..i] + [row];
      if KeyOf(row) in b { seen := seen + {KeyOf(row)}; }
      forall f ensures f in FindingsFor(row, b) <==> !f.Missing? && IsFinding(f, [row], b) {
        FindingsForOne(row, b, f);
      }
      findings := findings + FindingsFor(row, b);
    }
    assert rows[..|rows|] == rows;
    var unseen := b.Keys - seen;
    while unseen != {}
      invariant unseen <= b.Keys - seen
      invariant forall f :: f in findings <==>
        if f.Missing? then f.key in b.Keys - seen - unseen else IsFinding(f, rows, b)
      decreases unseen
    {
      var k :| k in unseen;
      findings := findings + [Missing(k)];
      unseen := unseen - {k};
    }
  }

  ghost predicate IsClean(rows: seq<FileRow>, b: Baseline) {
    forall f :: !IsFinding(f, rows, b)
  }

  /** What the scan gives: one row for each path, and only files with a handler. */
  ghost predicate IsScan(rows: seq<FileRow>) {
    && (forall r, q :: r in rows && q in rows && r.path == q.path ==> r == q)
    && (forall r :: r in rows ==> r.total > 0)
  }

  lemma CleanRow(rows: seq<FileRow>, b: Baseline, r: FileRow)
    requires IsClean(rows, b) && r in rows
    ensures KeyOf(r) in b && b[KeyOf(r)].counts == CountsIn(r)
  {
    assert !IsFinding(NewFile(r), rows, b);
    var was := b[KeyOf(r)].counts;
    assert !IsFinding(CountGrew(r, was), rows, b);
    assert !IsFinding(SilentGrew(r, was), rows, b);
    assert !IsFinding(StaleHeadroom(r, was), rows, b);
  }

  /** Validation of a scan is clean exactly when it measures the baseline. */
  lemma CleanMeansExact(rows: seq<FileRow>, b: Baseline)
    requires IsScan(rows)
    ensures IsClean(rows, b) <==> Measure(rows) == CountsOf(b)
  {
    if IsClean(rows, b) {
      forall k ensures k in Measure(rows) <==> k in CountsOf(b)
               ensures k in Measure(rows) && k in CountsOf(b) ==> Measure(rows)[k] == CountsOf(b)[k]
      {
        MeasureMeans(rows, k);
        if k in Measure(rows) {
          var r :| r in rows && KeyOf(r) == k && CountsIn(r) == Measure(rows)[k];
          CleanRow(rows, b, r);
        }
        if k in b {
          assert !IsFinding(Missing(k), rows, b);
        }
      }
    }
    if Measure(rows) == CountsOf(b) {
      forall f ensures !IsFinding(f, rows, b) {
        ExactHasNoFinding(rows, b, f);
      }
    }
  }

  lemma ExactHasNoFinding(rows: seq<FileRow>, b: Baseline, f: Finding)
    requires IsScan(rows) && Measure(rows) == CountsOf(b)
    ensures !IsFinding(f, rows, b)
  {
    var k := if f.Missing? then f.key else KeyOf(f.row);
    MeasureMeans(rows, k);
    assert k in Measure(rows) <==> k in b;
    if k in b {
      assert CountsOf(b)[k] == b[k].counts;
    }
  }

  /** On any scan and any baseline file that loads: validation is clean exactly if the update says
      unchanged, the update is blocked exactly if something is new or grew, and a file that it writes, in
      any order of rows, is pointwise lower and validates clean exactly if no scanned path looks like a
      comment. */
  lemma FileRatchet(rows: seq<FileRow>, file: Option<string>, order: seq<Key>)
    requires IsScan(rows) && Load(HandlerCounts, file).Ok?
    ensures
      var b, measured := Load(HandlerCounts, file).value, Measure(rows);
      && (IsClean(rows, b) <==> Emit(measured, b).Unchanged?)
      && (Emit(measured, b).Blocked? <==> Raises(measured, CountsOf(b)))
      && (Emit(measured, b).Written? && (forall k :: k in order <==> k in Emit(measured, b).baseline) ==>
          var next := Emit(measured, b).baseline;
          && Lowers(CountsOf(next), CountsOf(b))
          && IsFittingBaseline(HandlerCounts, next)
          && var written := Load(HandlerCounts, Some(Encode(HandlerCounts, order, next)));
          && written.Ok?
          && (IsClean(rows, written.value) <==> forall k :: k in measured ==> !LooksLikeComment(k)))
  {
    var b, measured := Load(HandlerCounts, file).value, Measure(rows);
    CleanMeansExact(rows, b);
    EmitMeans(measured, b);
    Trichotomy(measured, CountsOf(b));
    if Emit(measured, b).Written? && forall k :: k in order <==> k in Emit(measured, b).baseline {
      WrittenFileIsExact(HandlerCounts, file, measured, order);
      CleanMeansExact(rows, Readable(Emit(measured, b).baseline));
    }
  }

  /** A scanned path that starts with a comment sign is lost when the file is written: whatever it was
      read from, the update succeeds and validation of the file it wrote fails. */
  lemma CommentPathDefeatsTheRatchet(row: FileRow, was: Entry, order: seq<Key>)
    requires LooksLikeComment(KeyOf(row)) && 0 < row.total < was.counts.first && row.silentPass <= was.counts.second
    requires IsPlainEntry(KeyOf(row), was) && forall k :: k in order <==> k == KeyOf(row)
    ensures
      var k := KeyOf(row);
      var file, next := Some(PaddedFile(HandlerCounts, k, was)), map[k := Entry(CountsIn(row), was.reason)];
      && Load(HandlerCounts, file) == Ok(map[k := was])
      && Emit(Measure([row]), map[k := was]) == Written(next)
      && var written := Load(HandlerCounts, Some(Encode(HandlerCounts, order, next)));
      written.Ok? && !IsClean([row], written.value)
  {
    var k := KeyOf(row);
    PaddedFileLoads(HandlerCounts, k, was);
    OneFileLowers(k, was, row);
    FileRatchet([row], Some(PaddedFile(HandlerCounts, k, was)), order);
  }

  /** There is such a row and such an entry. */
  lemma CommentPathExists() returns (row: FileRow, was: Entry)
    ensures LooksLikeComment(KeyOf(row)) && 0 < row.total < was.counts.first && row.silentPass <= was.counts.second
    ensures IsPlainEntry(KeyOf(row), was)
  {
    row, was := FileRow("#x.py", 1, 0), Entry(Counts(2, 0), "old");
  }

  lemma OneFileLowers(k: Key, was: Entry, row: FileRow)
    requires k == KeyOf(row) && row.total < was.counts.first && row.silentPass <= was.counts.second
    ensures Measure([row]) == map[k := CountsIn(row)]
    ensures Emit(Measure([row]), map[k := was]) == Written(map[k := Entry(CountsIn(row), was.reason)])
  {
    assert [row][..0] == [] && Measure([]) == map[];
    var measured, b := Measure([row]), CountsOf(map[k := was]);
    assert measured == map[k := CountsIn(row)] && b == map[k := was.counts];
    assert k in measured && k in b && measured[k].first < b[k].first;
    assert !Raises(measured, b) && Differs(measured, b);
  }
}
