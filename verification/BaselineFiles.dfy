/** The baseline files of the exact ratchets: reading, writing, and updating them. Two validators
    share the format: four tab-separated fields, with one or two counters among them. */
module BaselineFiles {
  import opened Results
  import opened Sequences
  import opened Texts
  import opened Tsv
  import opened Ratchet

  /** A tracked item: a method by path and qualified name, or a file by its path alone. */
  datatype Key = Key(path: string, name: string)

  datatype Entry = Entry(counts: Counts, reason: string)

  type Baseline = map<Key, Entry>

  /** path, qualified name, lines, reason; or path, handlers, silent handlers, reason. */
  datatype Layout = MethodLines | HandlerCounts

  // ----- the baseline file

  datatype LoadError = WrongFields(line: nat) | InvalidCount(line: nat)

  /** The key and entry in the four fields of a line. */
  function FromCells(layout: Layout, c: Cells): Option<(Key, Entry)> {
    match layout
    case MethodLines =>
      var loc := ParseInt(c.third);
      if loc.None? then None else Some((Key(c.first, c.second), Entry(Counts(loc.value, 0), c.fourth)))
    case HandlerCounts =>
      var total, silent := ParseInt(c.second), ParseInt(c.third);
      if total.None? || silent.None? then None
      else Some((Key(c.first, ""), Entry(Counts(total.value, silent.value), c.fourth)))
  }

  function ParseLines(layout: Layout, lines: seq<string>, number: nat, entries: Baseline): Result<Baseline, LoadError> {
    if lines == [] then Ok(entries)
    else
      match ParseRow(lines[0])
      case Skipped => ParseLines(layout, lines[1..], number + 1, entries)
      case Malformed => Err(WrongFields(number))
      case Data(c) =>
        var read := FromCells(layout, c);
        if read.None? then Err(InvalidCount(number))
        else ParseLines(layout, lines[1..], number + 1, entries[read.value.0 := read.value.1])
  }

  function Load(layout: Layout, file: Option<string>): Result<Baseline, LoadError> {
    if file.None? then Ok(map[]) else ParseLines(layout, SplitLines(file.value), 1, map[])
  }

  method LoadBaseline(layout: Layout, file: Option<string>) returns (r: Result<Baseline, LoadError>)
    ensures r == Load(layout, file)
  {
    var entries: Baseline := map[];
    if file.None? { return Ok(entries); }
    var lines := SplitLines(file.value);
    assert lines[0..] == lines;
    for i := 0 to |lines|
      invariant Load(layout, file) == ParseLines(layout, lines[i..], i + 1, entries)
    {
      assert lines[i..][0] == lines[i] && lines[i..][1..] == lines[i + 1..];
      match ParseRow(lines[i]) {
        case Skipped =>
        case Malformed => return Err(WrongFields(i + 1));
        case Data(c) =>
          var read := FromCells(layout, c);
          if read.None? { return Err(InvalidCount(i + 1)); }
          entries := entries[read.value.0 := read.value.1];
      }
    }
    r := Ok(entries);
  }

  // ----- what loading a file gives, line by line

  /** What one line says: its key and its entry. */
  ghost predicate IsEntryLine(layout: Layout, raw: string, k: Key, e: Entry) {
    !IsIgnored(raw) && exists c :: IsSplit(raw, c) && HoldsEntry(layout, Stripped(c), k, e)
  }

  ghost predicate HoldsEntry(layout: Layout, c: Cells, k: Key, e: Entry) {
    && k.path == c.first && e.reason == c.fourth
    && match layout
       case MethodLines => k.name == c.second && Some(e.counts.first) == ParseInt(c.third) && e.counts.second == 0
       case HandlerCounts =>
         k.name == "" && Some(e.counts.first) == ParseInt(c.second) && Some(e.counts.second) == ParseInt(c.third)
  }

  /** Neither blank nor a comment, and with fewer than four fields. */
  ghost predicate HasFewFields(raw: string) {
    !IsIgnored(raw) && forall c :: !IsSplit(raw, c)
  }

  /** Not ignored, and no entry. */
  ghost predicate IsBadLine(layout: Layout, raw: string) {
    !IsIgnored(raw) && forall k, e :: !IsEntryLine(layout, raw, k, e)
  }

  ghost predicate IsFirstBad(layout: Layout, lines: seq<string>, i: nat) {
    i < |lines| && IsBadLine(layout, lines[i]) && forall j :: 0 <= j < i ==> !IsBadLine(layout, lines[j])
  }

  /** The last line of a key. */
  ghost predicate IsLastEntry(layout: Layout, lines: seq<string>, i: nat, k: Key, e: Entry) {
    && i < |lines| && IsEntryLine(layout, lines[i], k, e)
    && forall j, other :: i < j < |lines| ==> !IsEntryLine(layout, lines[j], k, other)
  }

  ghost function ReadLine(layout: Layout, raw: string): Option<(Key, Entry)> {
    match ParseRow(raw)
    case Data(c) => FromCells(layout, c)
    case _ => None
  }

  lemma ReadLineMeans(layout: Layout, raw: string, k: Key, e: Entry)
    ensures ReadLine(layout, raw) == Some((k, e)) <==> IsEntryLine(layout, raw, k, e)
  {
    RowMeans(raw);
    if ReadLine(layout, raw) == Some((k, e)) {
      var c :| IsSplit(raw, c);
      assert HoldsEntry(layout, Stripped(c), k, e);
    }
  }

  lemma BadLineMeans(layout: Layout, raw: string)
    ensures IsBadLine(layout, raw) <==> !ParseRow(raw).Skipped? && ReadLine(layout, raw).None?
    ensures HasFewFields(raw) <==> ParseRow(raw).Malformed?
  {
    RowMeans(raw);
    forall k, e ensures ReadLine(layout, raw) == Some((k, e)) <==> IsEntryLine(layout, raw, k, e) {
      ReadLineMeans(layout, raw, k, e);
    }
    if ReadLine(layout, raw).Some? {
      var read := ReadLine(layout, raw).value;
      assert IsEntryLine(layout, raw, read.0, read.1);
    }
  }

  /** Loading stops at the first bad line. */
  lemma {:induction false} ParseStops(layout: Layout, lines: seq<string>, number: nat, entries: Baseline)
    returns (i: nat)
    ensures
      var r := ParseLines(layout, lines, number, entries);
      if r.Ok? then forall j :: 0 <= j < |lines| ==> !IsBadLine(layout, lines[j])
      else
        && IsFirstBad(layout, lines, i)
        && r.error == if HasFewFields(lines[i]) then WrongFields(number + i) else InvalidCount(number + i)
  {
    if lines == [] {
      i := 0;
    } else {
      BadLineMeans(layout, lines[0]);
      if IsBadLine(layout, lines[0]) {
        i := 0;
      } else {
        var read := ReadLine(layout, lines[0]);
        var next := if read.Some? then entries[read.value.0 := read.value.1] else entries;
        var k := ParseStops(layout, lines[1..], number + 1, next);
        i := k + 1;
        assert forall j :: 0 < j < |lines| ==> lines[j] == lines[1..][j - 1];
      }
    }
  }

  /** An entry that was loaded stands in the last line of its key, or was there before. */
  lemma {:induction false} ParseKeepsLast(layout: Layout, lines: seq<string>, number: nat, entries: Baseline, k: Key)
    returns (i: int)
    requires ParseLines(layout, lines, number, entries).Ok?
    ensures
      var b := ParseLines(layout, lines, number, entries).value;
      && -1 <= i < |lines|
      && (i >= 0 ==> k in b && ReadLine(layout, lines[i]) == Some((k, b[k])))
      && (forall j, e :: i < j < |lines| ==> ReadLine(layout, lines[j]) != Some((k, e)))
      && (i == -1 ==> (k in b <==> k in entries) && (k in b ==> b[k] == entries[k]))
  {
    if lines == [] {
      i := -1;
    } else {
      var read := ReadLine(layout, lines[0]);
      var next := if read.Some? then entries[read.value.0 := read.value.1] else entries;
      assert ParseLines(layout, lines, number, entries) == ParseLines(layout, lines[1..], number + 1, next);
      var at := ParseKeepsLast(layout, lines[1..], number + 1, next, k);
      i := if at >= 0 then at + 1 else if read.Some? && read.value.0 == k then 0 else -1;
      assert forall j :: 0 < j < |lines| ==> lines[j] == lines[1..][j - 1];
    }
  }

  ghost predicate IsRefusal(layout: Layout, lines: seq<string>, i: nat, error: LoadError) {
    && IsFirstBad(layout, lines, i)
    && error == if HasFewFields(lines[i]) then WrongFields(i + 1) else InvalidCount(i + 1)
  }

  /** A file is refused exactly when one of its lines is bad, with the first such line and what is wrong
      with it. */
  lemma RefusedMeans(layout: Layout, text: string)
    ensures Load(layout, Some(text)).Ok? <==> forall raw :: raw in SplitLines(text) ==> !IsBadLine(layout, raw)
    ensures Load(layout, Some(text)).Err? ==>
      exists i :: IsRefusal(layout, SplitLines(text), i, Load(layout, Some(text)).error)
  {
    var i := ParseStops(layout, SplitLines(text), 1, map[]);
    if Load(layout, Some(text)).Err? {
      assert IsRefusal(layout, SplitLines(text), i, Load(layout, Some(text)).error);
    }
  }

  lemma LoadedIsLast(layout: Layout, lines: seq<string>, b: Baseline, k: Key) returns (i: nat)
    requires ParseLines(layout, lines, 1, map[]) == Ok(b) && k in b
    ensures IsLastEntry(layout, lines, i, k, b[k])
  {
    i := ParseKeepsLast(layout, lines, 1, map[], k);
    ReadLineMeans(layout, lines[i], k, b[k]);
    forall j, other | i < j < |lines| ensures !IsEntryLine(layout, lines[j], k, other) {
      ReadLineMeans(layout, lines[j], k, other);
    }
  }

  lemma LastIsLoaded(layout: Layout, lines: seq<string>, b: Baseline, k: Key, e: Entry, i: nat)
    requires ParseLines(layout, lines, 1, map[]) == Ok(b) && IsLastEntry(layout, lines, i, k, e)
    ensures k in b && b[k] == e
  {
    ReadLineMeans(layout, lines[i], k, e);
    var at := ParseKeepsLast(layout, lines, 1, map[], k);
    assert at >= i;
    ReadLineMeans(layout, lines[at], k, b[k]);
  }

  ghost predicate StandsIn(layout: Layout, lines: seq<string>, k: Key, e: Entry) {
    exists i :: IsLastEntry(layout, lines, i, k, e)
  }

  lemma LoadedStands(layout: Layout, lines: seq<string>, b: Baseline, k: Key, e: Entry)
    requires ParseLines(layout, lines, 1, map[]) == Ok(b)
    ensures k in b && b[k] == e <==> StandsIn(layout, lines, k, e)
  {
    if StandsIn(layout, lines, k, e) {
      var i: nat :| IsLastEntry(layout, lines, i, k, e);
      LastIsLoaded(layout, lines, b, k, e, i);
    } else if k in b {
      var i := LoadedIsLast(layout, lines, b, k);
    }
  }

  /** Of a file that is not refused, an entry is loaded exactly when it stands in the last line of its key. */
  lemma LoadedMeans(layout: Layout, text: string, k: Key, e: Entry)
    requires Load(layout, Some(text)).Ok?
    ensures
      var b := Load(layout, Some(text)).value;
      k in b && b[k] == e <==> StandsIn(layout, SplitLines(text), k, e)
  {
    LoadedStands(layout, SplitLines(text), Load(layout, Some(text)).value, k, e);
  }

  const METHOD_HEADER: string := "# path\tqualname\tloc\treason"
  const HANDLER_HEADER: string := "# path\ttotal\tsilent_pass\treason"

  function Header(layout: Layout): string {
    if layout.MethodLines? then METHOD_HEADER else HANDLER_HEADER
  }

  /** Counters that are written as plain numbers, in the fields the layout has. */
  ghost predicate IsFitting(layout: Layout, k: Key, e: Entry) {
    && e.counts.first >= 0 && e.counts.second >= 0
    && (if layout.MethodLines? then e.counts.second == 0 else k.name == "")
  }

  function CellsOf(layout: Layout, k: Key, e: Entry): Cells
    requires e.counts.first >= 0 && e.counts.second >= 0
  {
    match layout
    case MethodLines => Cells(k.path, k.name, ToText(e.counts.first), e.reason)
    case HandlerCounts => Cells(k.path, ToText(e.counts.first), ToText(e.counts.second), e.reason)
  }

  ghost predicate IsFittingBaseline(layout: Layout, b: Baseline) {
    forall k :: k in b ==> IsFitting(layout, k, b[k])
  }

  function EntryLines(layout: Layout, order: seq<Key>, b: Baseline): seq<string>
    requires forall k :: k in order ==> k in b && IsFitting(layout, k, b[k])
  {
    if order == [] then []
    else
      assert order[0] in order && forall k :: k in order[1..] ==> k in order;
      assert IsFitting(layout, order[0], b[order[0]]);
      [Line(CellsOf(layout, order[0], b[order[0]]))] + EntryLines(layout, order[1..], b)
  }

  function Encode(layout: Layout, order: seq<Key>, b: Baseline): string
    requires forall k :: k in order ==> k in b && IsFitting(layout, k, b[k])
  {
    JoinLines([Header(layout)] + EntryLines(layout, order, b))
  }

  /** An entry that the file can hold: one line, fields that `strip` leaves alone, no tab before the
      reason, and a path that does not turn the line into a comment. */
  ghost predicate IsStorable(k: Key, e: Entry) {
    IsPlainEntry(k, e) && !LooksLikeComment(k)
  }

  ghost predicate IsPlainEntry(k: Key, e: Entry) {
    && IsOneLine(k.path) && IsOneLine(k.name) && IsOneLine(e.reason)
    && IsTrim(k.path) && IsTrim(k.name) && IsTrim(e.reason)
    && IsFreeOf(k.path, '\t') && IsFreeOf(k.name, '\t')
  }

  ghost predicate ArePlain(b: Baseline) {
    forall k :: k in b ==> IsPlainEntry(k, b[k])
  }

  lemma NumberIsPlain(n: nat)
    ensures IsTrim(ToText(n)) && IsFreeOf(ToText(n), '\t') && IsOneLine(ToText(n))
  {
    var t := ToText(n);
    forall c | c in t ensures IsDigit(c) {
      var i :| 0 <= i < |t| && t[i] == c;
    }
  }

  lemma EntryLineIsOneLine(layout: Layout, k: Key, e: Entry)
    requires IsFitting(layout, k, e) && IsPlainEntry(k, e)
    ensures IsWritable(CellsOf(layout, k, e)) && IsOneLine(Line(CellsOf(layout, k, e)))
  {
    NumberIsPlain(e.counts.first);
    NumberIsPlain(e.counts.second);
    assert !IsBreak('\t');
  }

  lemma {:induction false} EntryLinesAreLines(layout: Layout, order: seq<Key>, b: Baseline)
    requires forall k :: k in order ==> k in b && IsFitting(layout, k, b[k]) && IsPlainEntry(k, b[k])
    ensures forall l :: l in EntryLines(layout, order, b) ==> IsOneLine(l)
  {
    if order == [] {
    } else {
      assert order[0] in order && forall k :: k in order[1..] ==> k in order;
      EntryLineIsOneLine(layout, order[0], b[order[0]]);
      EntryLinesAreLines(layout, order[1..], b);
    }
  }

  ghost function Kept(order: seq<Key>, b: Baseline): Baseline
    requires forall k :: k in order ==> k in b
  {
    map k | k in order && !LooksLikeComment(k) :: b[k]
  }

  predicate LooksLikeComment(k: Key) {
    k.path != [] && k.path[0] == '#'
  }

  lemma ParseWrittenLine(layout: Layout, k: Key, e: Entry, rest: seq<string>, number: nat, m: Baseline)
    requires IsFitting(layout, k, e) && IsPlainEntry(k, e)
    ensures ParseLines(layout, [Line(CellsOf(layout, k, e))] + rest, number, m) ==
      ParseLines(layout, rest, number + 1, if LooksLikeComment(k) then m else m[k := e])
  {
    var c := CellsOf(layout, k, e);
    WrittenRow(layout, k, e);
    CellsRoundTrip(layout, k, e);
    assert ([Line(c)] + rest)[1..] == rest && ([Line(c)] + rest)[0] == Line(c);
  }

  lemma WrittenRow(layout: Layout, k: Key, e: Entry)
    requires IsFitting(layout, k, e) && IsPlainEntry(k, e)
    ensures ParseRow(Line(CellsOf(layout, k, e))) ==
      if LooksLikeComment(k) then Skipped else Data(CellsOf(layout, k, e))
  {
    EntryLineIsOneLine(layout, k, e);
    LineRoundTrip(CellsOf(layout, k, e), if layout.MethodLines? then e.counts.first else e.counts.second);
  }

  /** Reading the written lines back drops what looks like a comment and keeps the rest. */
  lemma {:induction false} ParseWritten(layout: Layout, order: seq<Key>, b: Baseline, number: nat, m: Baseline)
    requires forall k :: k in order ==> k in b && IsFitting(layout, k, b[k]) && IsPlainEntry(k, b[k])
    ensures ParseLines(layout, EntryLines(layout, order, b), number, m) == Ok(m + Kept(order, b))
    decreases |order|
  {
    if order == [] {
      assert m + Kept(order, b) == m;
    } else {
      var k := order[0];
      assert k in order && forall x :: x in order[1..] ==> x in order;
      ParseWrittenLine(layout, k, b[k], EntryLines(layout, order[1..], b), number, m);
      var next := if LooksLikeComment(k) then m else m[k := b[k]];
      ParseWritten(layout, order[1..], b, number + 1, next);
      KeptSplits(order, b, m);
    }
  }

  lemma KeptSplits(order: seq<Key>, b: Baseline, m: Baseline)
    requires order != [] && forall k :: k in order ==> k in b
    ensures
      var k := order[0];
      (forall x :: x in order[1..] ==> x in b) &&
      (if LooksLikeComment(k) then m else m[k := b[k]]) + Kept(order[1..], b) == m + Kept(order, b)
  {
    assert order == [order[0]] + order[1..];
    assert forall x :: x in order[1..] ==> x in order;
  }

  /** Whatever a file holds, its entries are plain. */
  lemma {:induction false} ParsedEntriesArePlain(layout: Layout, lines: seq<string>, number: nat, m: Baseline)
    requires forall l :: l in lines ==> IsOneLine(l)
    requires ArePlain(m)
    ensures ParseLines(layout, lines, number, m).Ok? ==> ArePlain(ParseLines(layout, lines, number, m).value)
    decreases |lines|
  {
    if lines == [] {
    } else {
      assert lines[0] in lines && forall l :: l in lines[1..] ==> l in lines;
      match ParseRow(lines[0])
      case Skipped => ParsedEntriesArePlain(layout, lines[1..], number + 1, m);
      case Malformed =>
      case Data(c) =>
        ParsedIsWritable(lines[0]);
        var read := FromCells(layout, c);
        if read.Some? {
          ParsedEntriesArePlain(layout, lines[1..], number + 1, m[read.value.0 := read.value.1]);
        }
    }
  }

  lemma ParseSkipsHeader(layout: Layout, lines: seq<string>)
    ensures ParseLines(layout, [Header(layout)] + lines, 1, map[]) == ParseLines(layout, lines, 2, map[])
  {
    assert Header(layout)[0] == '#';
    assert ([Header(layout)] + lines)[1..] == lines;
  }

  /** Reading back a header and some lines is reading the lines. */
  lemma LoadLines(layout: Layout, lines: seq<string>)
    requires forall l :: l in lines ==> IsOneLine(l)
    ensures Load(layout, Some(JoinLines([Header(layout)] + lines))) == ParseLines(layout, lines, 2, map[])
  {
    HeaderIsOneLine(layout);
    var all := [Header(layout)] + lines;
    assert forall l :: l in all ==> l == Header(layout) || l in lines;
    LinesRoundTrip(all);
    ParseSkipsHeader(layout, lines);
  }

  lemma LoadWritten(layout: Layout, order: seq<Key>, b: Baseline)
    requires forall k :: k in order ==> k in b && IsFitting(layout, k, b[k]) && IsPlainEntry(k, b[k])
    ensures Load(layout, Some(Encode(layout, order, b))) == Ok(Kept(order, b))
  {
    var lines := EntryLines(layout, order, b);
    EntryLinesAreLines(layout, order, b);
    LoadLines(layout, lines);
    ParseWritten(layout, order, b, 2, map[]);
    assert map[] + Kept(order, b) == Kept(order, b);
  }

  lemma LoadedIsPlain(layout: Layout, text: string)
    requires Load(layout, Some(text)).Ok?
    ensures ArePlain(Load(layout, Some(text)).value)
  {
    var lines := SplitLines(text);
    SplitLinesAreLines(text);
    ParsedEntriesArePlain(layout, lines, 1, map[]);
  }

  lemma KeptIsAll(order: seq<Key>, b: Baseline)
    requires forall k :: k in order <==> k in b
    ensures Kept(order, b) == b <==> forall k :: k in b ==> !LooksLikeComment(k)
  {
    forall k | k in b && LooksLikeComment(k) ensures Kept(order, b) != b {
      assert k !in Kept(order, b);
    }
  }

  /** A written baseline reads back as it was exactly when every entry is storable. */
  lemma FileRoundTrip(layout: Layout, order: seq<Key>, b: Baseline)
    requires IsFittingBaseline(layout, b) && forall k :: k in order <==> k in b
    ensures Load(layout, Some(Encode(layout, order, b))) == Ok(b) <==> forall k :: k in b ==> IsStorable(k, b[k])
  {
    if Load(layout, Some(Encode(layout, order, b))) == Ok(b) {
      LoadedIsPlain(layout, Encode(layout, order, b));
    }
    if ArePlain(b) {
      LoadWritten(layout, order, b);
      KeptIsAll(order, b);
    }
  }

  lemma HeaderIsOneLine(layout: Layout)
    ensures IsOneLine(Header(layout))
  {
  }

  /** A file with one entry behind a blank, as `load_baseline` reads it. */
  function PaddedFile(layout: Layout, k: Key, e: Entry): string
    requires e.counts.first >= 0 && e.counts.second >= 0
  {
    var c := CellsOf(layout, k, e);
    JoinLines([Line(c.(first := " " + c.first))])
  }

  lemma PaddedFileLoads(layout: Layout, k: Key, e: Entry)
    requires IsFitting(layout, k, e) && IsPlainEntry(k, e)
    ensures Load(layout, Some(PaddedFile(layout, k, e))) == Ok(map[k := e])
  {
    var c := CellsOf(layout, k, e);
    var line := Line(c.(first := " " + c.first));
    EntryLineIsOneLine(layout, k, e);
    PaddedIsOneLine(c);
    LinesRoundTrip([line]);
    PaddedRow(c, if layout.MethodLines? then e.counts.first else e.counts.second);
    CellsRoundTrip(layout, k, e);
    OneLineParses(layout, line, k, e);
  }

  lemma PaddedIsOneLine(c: Cells)
    requires IsOneLine(Line(c))
    ensures IsOneLine(Line(c.(first := " " + c.first)))
  {
    assert !IsBreak(' ') && Line(c.(first := " " + c.first)) == " " + Line(c);
  }

  lemma CellsRoundTrip(layout: Layout, k: Key, e: Entry)
    requires IsFitting(layout, k, e)
    ensures FromCells(layout, CellsOf(layout, k, e)) == Some((k, e))
  {
    NumberRoundTrip(e.counts.first);
    NumberRoundTrip(e.counts.second);
  }

  lemma OneLineParses(layout: Layout, line: string, k: Key, e: Entry)
    requires ParseRow(line).Data? && FromCells(layout, ParseRow(line).cells) == Some((k, e))
    ensures ParseLines(layout, [line], 1, map[]) == Ok(map[k := e])
  {
    assert [line][1..] == [];
    assert ParseLines(layout, [], 2, map[k := e]) == Ok(map[k := e]);
  }

  // ----- writing back

  /** What of a baseline survives in the file. */
  ghost function Readable(b: Baseline): Baseline {
    map k | k in b && !LooksLikeComment(k) :: b[k]
  }

  lemma LoadedEntriesArePlain(layout: Layout, file: Option<string>)
    requires Load(layout, file).Ok?
    ensures ArePlain(Load(layout, file).value)
  {
    if file.Some? { LoadedIsPlain(layout, file.value); }
  }

  /** Entries taken from a file, with new counters, can be written to it. */
  lemma WrittenIsReadable(layout: Layout, b: Baseline, next: Baseline, order: seq<Key>)
    requires ArePlain(b)
    requires IsFittingBaseline(layout, next) && forall k :: k in next ==> k in b && next[k].reason == b[k].reason
    requires forall k :: k in order <==> k in next
    ensures Load(layout, Some(Encode(layout, order, next))) == Ok(Readable(next))
  {
    LoadWritten(layout, order, next);
    assert Kept(order, next) == Readable(next);
  }

  // ----- the rule for updates

  function CountsOf(b: Baseline): map<Key, Counts> {
    map k | k in b :: b[k].counts
  }

  datatype EmitResult = Blocked | Unchanged | Written(baseline: Baseline)

  /** Refuses what raises the baseline, and otherwise takes over the measurement if it differs. */
  function Emit(measured: map<Key, Counts>, b: Baseline): EmitResult {
    if Raises(measured, CountsOf(b)) then Blocked
    else if !Differs(measured, CountsOf(b)) then Unchanged
    else Written(map k | k in measured && k in b :: Entry(measured[k], b[k].reason))
  }

  /** The three outcomes of an update, told apart by the measurement alone. */
  lemma EmitMeans(measured: map<Key, Counts>, b: Baseline)
    ensures
      match Emit(measured, b)
      case Blocked => Raises(measured, CountsOf(b))
      case Unchanged => measured == CountsOf(b)
      case Written(next) =>
        && Lowers(measured, CountsOf(b)) && CountsOf(next) == measured
        && forall k :: k in next ==> k in b && next[k].reason == b[k].reason
  {
    Trichotomy(measured, CountsOf(b));
    if Emit(measured, b).Written? {
      forall k | k in measured ensures k in b {
        assert k in CountsOf(b);
      }
    }
  }

  /** Successive updates end: a baseline admits at most its weight of them. */
  lemma UpdatesEnd(trees: seq<map<Key, Counts>>, baselines: seq<Baseline>)
    requires |baselines| == |trees| + 1
    requires forall i :: 0 <= i < |trees| ==>
      IsCounted(trees[i]) && Emit(trees[i], baselines[i]) == Written(baselines[i + 1])
    ensures |trees| <= Weight(CountsOf(baselines[0]))
    ensures
      var last := CountsOf(baselines[|trees|]);
      forall k :: k in last ==> k in baselines[0] && AtMost(last[k], baselines[0][k].counts)
  {
    var chain := seq(|baselines|, i requires 0 <= i < |baselines| => CountsOf(baselines[i]));
    forall i | 0 < i < |chain| ensures IsCounted(chain[i]) && Lowers(chain[i], chain[i - 1]) {
      assert IsCounted(trees[i - 1]);
      EmitMeans(trees[i - 1], baselines[i - 1]);
    }
    ChainsAreFinite(chain);
    var first, last := CountsOf(baselines[0]), CountsOf(baselines[|trees|]);
    assert chain[0] == first && chain[|chain| - 1] == last;
    forall k | k in last ensures k in baselines[0] && AtMost(last[k], baselines[0][k].counts) {
      assert k in first && AtMost(last[k], first[k]);
    }
  }

  /** What a written update leaves in the file reads back as the measurement exactly if no measured path
      looks like a comment. */
  lemma WrittenFileIsExact(layout: Layout, file: Option<string>, measured: map<Key, Counts>, order: seq<Key>)
    requires Load(layout, file).Ok? && Emit(measured, Load(layout, file).value).Written?
    requires IsFittingMeasurement(layout, measured)
    requires
      var next := Emit(measured, Load(layout, file).value).baseline;
      forall k :: k in order <==> k in next
    ensures
      var next := Emit(measured, Load(layout, file).value).baseline;
      && IsFittingBaseline(layout, next)
      && Load(layout, Some(Encode(layout, order, next))) == Ok(Readable(next))
      && (CountsOf(Readable(next)) == measured <==> forall k :: k in measured ==> !LooksLikeComment(k))
  {
    var b := Load(layout, file).value;
    var next := Emit(measured, b).baseline;
    LoadedEntriesArePlain(layout, file);
    EmitMeans(measured, b);
    WrittenFits(layout, measured, next);
    WrittenIsReadable(layout, b, next, order);
    ReadableIsExact(next);
  }

  lemma ReadableIsExact(b: Baseline)
    ensures CountsOf(Readable(b)) == CountsOf(b) <==> forall k :: k in CountsOf(b) ==> !LooksLikeComment(k)
  {
    if k :| k in b && LooksLikeComment(k) {
      assert k in CountsOf(b) && k !in CountsOf(Readable(b));
    } else {
      assert Readable(b) == b;
    }
  }

  ghost predicate IsFittingMeasurement(layout: Layout, measured: map<Key, Counts>) {
    && IsCounted(measured)
    && forall k :: k in measured ==> if layout.MethodLines? then measured[k].second == 0 else k.name == ""
  }

  lemma WrittenFits(layout: Layout, measured: map<Key, Counts>, next: Baseline)
    requires IsFittingMeasurement(layout, measured) && CountsOf(next) == measured
    ensures IsFittingBaseline(layout, next)
  {
    forall k | k in next ensures IsFitting(layout, k, next[k]) {
      assert CountsOf(next)[k] == measured[k] == next[k].counts;
    }
  }

  class BaselineFile {
    const layout: Layout
    var text: Option<string>

    constructor (kind: Layout, content: Option<string>)
      ensures layout == kind && text == content
    {
      layout, text := kind, content;
    }

    /** Reads the baseline and replaces the file when the measurement lowers it. Reading again
        gives the new baseline, but for paths that look like comments. */
    method EmitBaseline(measured: map<Key, Counts>) returns (r: Result<EmitResult, LoadError>)
      requires IsFittingMeasurement(layout, measured)
      modifies this
      ensures Load(layout, old(text)).Err? ==> r == Err(Load(layout, old(text)).error) && text == old(text)
      ensures Load(layout, old(text)).Ok? ==> r == Ok(Emit(measured, Load(layout, old(text)).value))
      ensures r.Ok? && !r.value.Written? ==> text == old(text)
      ensures r.Ok? && r.value.Written? ==> Load(layout, text) == Ok(Readable(r.value.baseline))
    {
      var loaded := LoadBaseline(layout, text);
      if loaded.Err? { return Err(loaded.error); }
      var b := loaded.value;
      r := Ok(Emit(measured, b));
      if r.value.Written? {
        var next := r.value.baseline;
        var order := Enumerate(next.Keys);
        WrittenFileIsExact(layout, text, measured, order);
        text := Some(Encode(layout, order, next));
      }
    }
  }
}
