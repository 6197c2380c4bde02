/** The tab-separated baseline files of the validators: lines, fields, numbers, and exactly which
    rows survive being written and read back. */
module Tsv {
  import opened Results
  import opened Texts

  // ----- characters

  /** What `str.splitlines` splits on. */
  predicate IsBreak(c: char) {
    var n := c as int;
    0x0A <= n <= 0x0D || 0x1C <= n <= 0x1E || n == 0x85 || n == 0x2028 || n == 0x2029
  }

  /** What `str.strip` removes. */
  predicate IsSpace(c: char) {
    var n := c as int;
    || IsBreak(c) || n == 0x09 || n == 0x1F || n == 0x20 || n == 0xA0 || n == 0x1680
    || 0x2000 <= n <= 0x200A || n == 0x202F || n == 0x205F || n == 0x3000
  }

  function StripLeft(s: string): string {
    if s == [] || !IsSpace(s[0]) then s else StripLeft(s[1..])
  }

  function StripRight(s: string): string {
    if s == [] || !IsSpace(s[|s| - 1]) then s else StripRight(s[..|s| - 1])
  }

  function Strip(s: string): string {
    StripRight(StripLeft(s))
  }

  /** A text that `strip` leaves alone. */
  predicate IsTrim(s: string) {
    s == [] || (!IsSpace(s[0]) && !IsSpace(s[|s| - 1]))
  }

  lemma {:induction false} StripLeftTrims(s: string)
    ensures StripLeft(s) == [] || !IsSpace(StripLeft(s)[0])
    ensures |StripLeft(s)| <= |s| && StripLeft(s) == s[|s| - |StripLeft(s)|..]
  {
    if s != [] && IsSpace(s[0]) {
      StripLeftTrims(s[1..]);
    }
  }

  lemma {:induction false} StripRightTrims(s: string)
    ensures StripRight(s) == [] || !IsSpace(StripRight(s)[|StripRight(s)| - 1])
    ensures StripRight(s) <= s
    decreases |s|
  {
    if s != [] && IsSpace(s[|s| - 1]) {
      StripRightTrims(s[..|s| - 1]);
    }
  }

  lemma StripTrims(s: string)
    ensures IsTrim(Strip(s))
    ensures IsTrim(s) <==> Strip(s) == s
    ensures forall c :: c in Strip(s) ==> c in s
  {
    var l := StripLeft(s);
    StripLeftTrims(s);
    StripRightTrims(l);
    var r := StripRight(l);
    if r != [] {
      assert r[0] == l[0];
    }
  }

  ghost predicate IsAllSpace(s: string) {
    forall i :: 0 <= i < |s| ==> IsSpace(s[i])
  }

  lemma {:induction false} StripLeftCuts(s: string) returns (i: nat)
    ensures i <= |s| && StripLeft(s) == s[i..] && IsAllSpace(s[..i])
  {
    if s == [] || !IsSpace(s[0]) {
      i := 0;
    } else {
      var k := StripLeftCuts(s[1..]);
      i := k + 1;
      assert s[..i] == [s[0]] + s[1..][..k];
    }
  }

  lemma {:induction false} StripRightCuts(s: string) returns (j: nat)
    ensures j <= |s| && StripRight(s) == s[..j] && IsAllSpace(s[j..])
    decreases |s|
  {
    if s == [] || !IsSpace(s[|s| - 1]) {
      j := |s|;
    } else {
      var most := s[..|s| - 1];
      j := StripRightCuts(most);
      assert s[j..] == most[j..] + [s[|s| - 1]];
    }
  }

  /** Stripping cuts the white space at both ends and nothing else. */
  lemma StripMeans(s: string) returns (i: nat, j: nat)
    ensures i <= j <= |s| && Strip(s) == s[i..j]
    ensures IsAllSpace(s[..i]) && IsAllSpace(s[j..]) && IsTrim(s[i..j])
    ensures Strip(s) == [] <==> IsAllSpace(s)
  {
    i := StripLeftCuts(s);
    var k := StripRightCuts(s[i..]);
    j := i + k;
    assert s[i..][..k] == s[i..j] && s[i..][k..] == s[j..];
    StripTrims(s);
    if Strip(s) == [] {
      assert s == s[..i] + s[j..];
    } else {
      assert !IsSpace(s[i]);
    }
  }

  ghost predicate IsFreeOf(s: string, c: char) {
    c !in s
  }

  ghost predicate IsOneLine(s: string) {
    forall c :: c in s ==> !IsBreak(c)
  }

  // ----- numbers

  function Digit(n: nat): char
    requires n < 10
  {
    ('0' as int + n) as char
  }

  function DigitValue(c: char): nat
    requires IsDigit(c)
  {
    c as int - '0' as int
  }

  function ToText(n: nat): (s: string)
    ensures s != [] && forall i :: 0 <= i < |s| ==> IsDigit(s[i])
  {
    if n < 10 then [Digit(n)] else ToText(n / 10) + [Digit(n % 10)]
  }

  function FromDigits(s: string): nat
    requires forall i :: 0 <= i < |s| ==> IsDigit(s[i])
  {
    if s == [] then 0 else FromDigits(s[..|s| - 1]) * 10 + DigitValue(s[|s| - 1])
  }

  /** `int(text)` on an optional sign and decimal digits. */
  function ParseInt(s: string): Option<int> {
    var digits := if s != [] && (s[0] == '-' || s[0] == '+') then s[1..] else s;
    if digits == [] || exists i :: 0 <= i < |digits| && !IsDigit(digits[i]) then None
    else if s[0] == '-' then Some(-(FromDigits(digits) as int))
    else Some(FromDigits(digits))
  }

  lemma {:induction false} DigitsRoundTrip(n: nat)
    ensures FromDigits(ToText(n)) == n
  {
    if n < 10 {
      assert ToText(n)[..0] == [];
    } else {
      DigitsRoundTrip(n / 10);
      assert ToText(n)[..|ToText(n)| - 1] == ToText(n / 10);
    }
  }

  lemma NumberRoundTrip(n: nat)
    ensures ParseInt(ToText(n)) == Some(n) && ParseInt("-" + ToText(n)) == Some(-(n as int))
  {
    DigitsRoundTrip(n);
    assert IsDigit(ToText(n)[0]);
    assert ("-" + ToText(n))[1..] == ToText(n);
  }

  // ----- fields

  function FirstTab(s: string): (i: nat)
    ensures i <= |s| && IsFreeOf(s[..i], '\t')
    ensures i < |s| ==> s[i] == '\t'
  {
    if s == [] || s[0] == '\t' then 0
    else
      assert s[..1 + FirstTab(s[1..])] == [s[0]] + s[1..][..FirstTab(s[1..])];
      1 + FirstTab(s[1..])
  }

  /** `raw.split("\t", n)`. */
  function SplitTabs(raw: string, n: nat): (parts: seq<string>)
    ensures 1 <= |parts| <= n + 1
    decreases n
  {
    var i := FirstTab(raw);
    if n == 0 || i == |raw| then [raw] else [raw[..i]] + SplitTabs(raw[i + 1..], n - 1)
  }

  datatype Cells = Cells(first: string, second: string, third: string, fourth: string)

  function Join(s: string, rest: string): string {
    s + "\t" + rest
  }

  function Line(c: Cells): string {
    Join(c.first, Join(c.second, Join(c.third, c.fourth)))
  }

  datatype Row = Skipped | Malformed | Data(cells: Cells)

  /** One line of a baseline file: blank and comment lines are skipped, others have four fields. */
  function ParseRow(raw: string): Row {
    if Strip(raw) == [] || (raw != [] && raw[0] == '#') then Skipped
    else
      var parts := SplitTabs(raw, 3);
      if |parts| != 4 then Malformed
      else Data(Cells(Strip(parts[0]), Strip(parts[1]), Strip(parts[2]), Strip(parts[3])))
  }

  /** Blank and comment lines. */
  ghost predicate IsIgnored(raw: string) {
    IsAllSpace(raw) || (raw != [] && raw[0] == '#')
  }

  /** The line is these four fields with tabs between them, and only the last field may have more tabs. */
  ghost predicate IsSplit(raw: string, c: Cells) {
    && raw == Line(c)
    && IsFreeOf(c.first, '\t') && IsFreeOf(c.second, '\t') && IsFreeOf(c.third, '\t')
  }

  function Stripped(c: Cells): Cells {
    Cells(Strip(c.first), Strip(c.second), Strip(c.third), Strip(c.fourth))
  }

  lemma SplitHead(raw: string, n: nat) returns (rest: string)
    requires n > 0 && |SplitTabs(raw, n)| > 1
    ensures IsFreeOf(SplitTabs(raw, n)[0], '\t') && raw == Join(SplitTabs(raw, n)[0], rest)
    ensures SplitTabs(raw, n) == [SplitTabs(raw, n)[0]] + SplitTabs(rest, n - 1)
  {
    var i := FirstTab(raw);
    rest := raw[i + 1..];
  }

  lemma SplitIsLine(raw: string)
    requires |SplitTabs(raw, 3)| == 4
    ensures
      var parts := SplitTabs(raw, 3);
      IsSplit(raw, Cells(parts[0], parts[1], parts[2], parts[3]))
  {
    var tail := SplitHead(raw, 3);
    var last := SplitHead(tail, 2);
    var end := SplitHead(last, 1);
    var a, b, c := SplitTabs(raw, 3)[0], SplitTabs(tail, 2)[0], SplitTabs(last, 1)[0];
    assert SplitTabs(end, 0) == [end];
    FourParts(a, b, c, end);
    assert raw == Line(Cells(a, b, c, end));
  }

  /** What a line is read as: it is ignored, or has its four fields stripped, or has fewer than four. */
  lemma RowMeans(raw: string)
    ensures ParseRow(raw) == Skipped <==> IsIgnored(raw)
    ensures ParseRow(raw) == Malformed <==> !IsIgnored(raw) && forall c :: !IsSplit(raw, c)
    ensures forall c :: IsSplit(raw, c) && !IsIgnored(raw) ==> ParseRow(raw) == Data(Stripped(c))
  {
    var i, j := StripMeans(raw);
    if |SplitTabs(raw, 3)| == 4 {
      SplitIsLine(raw);
    }
    forall c | IsSplit(raw, c) ensures SplitTabs(raw, 3) == [c.first, c.second, c.third, c.fourth] {
      SplitLine(c);
    }
  }

  lemma {:induction false} FirstTabAfter(s: string, rest: string)
    requires IsFreeOf(s, '\t')
    ensures FirstTab(Join(s, rest)) == |s|
  {
    if s == [] {
      assert Join(s, rest) == "\t" + rest;
    } else {
      assert Join(s, rest)[1..] == Join(s[1..], rest);
      FirstTabAfter(s[1..], rest);
    }
  }

  lemma SplitAfter(s: string, rest: string, n: nat)
    requires IsFreeOf(s, '\t') && n > 0
    ensures SplitTabs(Join(s, rest), n) == [s] + SplitTabs(rest, n - 1)
  {
    FirstTabAfter(s, rest);
    var raw := Join(s, rest);
    assert raw[..|s|] == s && raw[|s| + 1..] == rest;
  }

  lemma SplitLine(c: Cells)
    requires IsFreeOf(c.first, '\t') && IsFreeOf(c.second, '\t') && IsFreeOf(c.third, '\t')
    ensures SplitTabs(Line(c), 3) == [c.first, c.second, c.third, c.fourth]
  {
    var last := Join(c.third, c.fourth);
    var tail := Join(c.second, last);
    SplitAfter(c.first, tail, 3);
    SplitAfter(c.second, last, 2);
    SplitAfter(c.third, c.fourth, 1);
    assert SplitTabs(c.fourth, 0) == [c.fourth];
    FourParts(c.first, c.second, c.third, c.fourth);
  }

  lemma FourParts(a: string, b: string, c: string, d: string)
    ensures [a] + ([b] + ([c] + [d])) == [a, b, c, d]
  {
  }

  /** The fields of a split have no tab, but for the last, and no character that was not there. */
  lemma {:induction false} SplitIsTabFree(raw: string, n: nat, i: nat)
    requires i < |SplitTabs(raw, n)|
    ensures forall c :: c in SplitTabs(raw, n)[i] ==> c in raw
    ensures i < n ==> IsFreeOf(SplitTabs(raw, n)[i], '\t')
    decreases n
  {
    var k := FirstTab(raw);
    if n == 0 || k == |raw| {
      assert k == |raw| ==> raw[..k] == raw;
    } else if i > 0 {
      SplitIsTabFree(raw[k + 1..], n - 1, i - 1);
    }
  }

  /** Fields that one line can carry. */
  ghost predicate IsWritable(c: Cells) {
    && IsTrim(c.first) && IsTrim(c.second) && IsTrim(c.third) && IsTrim(c.fourth)
    && IsFreeOf(c.first, '\t') && IsFreeOf(c.second, '\t') && IsFreeOf(c.third, '\t')
  }

  lemma ParsedIsWritable(raw: string)
    requires ParseRow(raw).Data?
    ensures IsWritable(ParseRow(raw).cells)
    ensures
      var c := ParseRow(raw).cells;
      IsOneLine(raw) ==> IsOneLine(c.first) && IsOneLine(c.second) && IsOneLine(c.third) && IsOneLine(c.fourth)
  {
    var parts := SplitTabs(raw, 3);
    forall i | 0 <= i < 4
      ensures IsTrim(Strip(parts[i])) && (i < 3 ==> IsFreeOf(Strip(parts[i]), '\t'))
      ensures IsOneLine(raw) ==> IsOneLine(Strip(parts[i]))
    {
      SplitIsTabFree(raw, 3, i);
      StripTrims(parts[i]);
    }
  }

  lemma JoinKeepsContent(s: string, rest: string, i: nat)
    requires i < |rest| && !IsSpace(rest[i])
    ensures |s| + 1 + i < |Join(s, rest)| && !IsSpace(Join(s, rest)[|s| + 1 + i])
  {
  }

  lemma LineHasContent(c: Cells)
    requires c.third != [] && !IsSpace(c.third[0])
    ensures Strip(Line(c)) != []
  {
    var last := Join(c.third, c.fourth);
    var tail := Join(c.second, last);
    assert last[0] == c.third[0];
    JoinKeepsContent(c.second, last, 0);
    JoinKeepsContent(c.first, tail, |c.second| + 1);
    var i, j := StripMeans(Line(c));
    assert !IsSpace(Line(c)[|c.first| + 1 + |c.second| + 1]);
  }

  predicate IsComment(c: Cells) {
    c.first != [] && c.first[0] == '#'
  }

  lemma CommentShows(c: Cells)
    ensures Line(c) != [] && (Line(c)[0] == '#' <==> IsComment(c))
  {
    assert c.first == [] ==> Line(c)[0] == '\t';
  }

  lemma ParseSplitRow(raw: string, c: Cells)
    requires Strip(raw) != [] && raw != [] && raw[0] != '#'
    requires SplitTabs(raw, 3) == [c.first, c.second, c.third, c.fourth] && IsWritable(c)
    ensures ParseRow(raw) == Data(c)
  {
    StripTrims(c.first);
    StripTrims(c.second);
    StripTrims(c.third);
    StripTrims(c.fourth);
  }

  lemma ParsedIsNoComment(raw: string)
    requires ParseRow(raw).Data?
    ensures raw == [] || raw[0] != '#'
  {
  }

  /** Writing a line with a number in it and reading it back: the fields return exactly when they
      are writable and the line is not taken for a comment. */
  lemma LineRoundTrip(c: Cells, n: nat)
    requires c.third == ToText(n)
    ensures ParseRow(Line(c)) == Data(c) <==> IsWritable(c) && !IsComment(c)
    ensures IsComment(c) ==> ParseRow(Line(c)) == Skipped
  {
    var raw := Line(c);
    CommentShows(c);
    if IsWritable(c) && !IsComment(c) {
      assert IsDigit(c.third[0]);
      LineHasContent(c);
      SplitLine(c);
      ParseSplitRow(raw, c);
    } else if ParseRow(raw) == Data(c) {
      ParsedIsWritable(raw);
      ParsedIsNoComment(raw);
    }
  }

  lemma PaddedIsStripped(s: string)
    requires IsTrim(s)
    ensures Strip(" " + s) == s
  {
    assert (" " + s)[1..] == s;
    StripTrims(s);
    assert StripLeft(" " + s) == StripLeft(s) == s;
  }

  /** A blank before the path hides a comment sign from the reader, and is stripped from the field. */
  lemma PaddedRow(c: Cells, n: nat)
    requires IsWritable(c) && c.third == ToText(n)
    ensures ParseRow(Line(c.(first := " " + c.first))) == Data(c)
  {
    var padded := c.(first := " " + c.first);
    assert IsDigit(c.third[0]);
    LineHasContent(padded);
    SplitLine(padded);
    assert Line(padded)[0] == ' ';
    PaddedIsStripped(c.first);
    StripTrims(c.second);
    StripTrims(c.third);
    StripTrims(c.fourth);
  }

  // ----- lines

  function FirstBreak(s: string): (i: nat)
    ensures i <= |s| && IsOneLine(s[..i])
    ensures i < |s| ==> IsBreak(s[i])
  {
    if s == [] || IsBreak(s[0]) then 0
    else
      assert s[..1 + FirstBreak(s[1..])] == [s[0]] + s[1..][..FirstBreak(s[1..])];
      1 + FirstBreak(s[1..])
  }

  /** Where the next line starts; a carriage return and a line feed are one break. */
  function AfterBreak(s: string, i: nat): (j: nat)
    requires i < |s|
    ensures i < j <= |s|
  {
    if s[i] == '\r' && i + 1 < |s| && s[i + 1] == '\n' then i + 2 else i + 1
  }

  function SplitLines(s: string): seq<string>
    decreases |s|
  {
    if s == [] then []
    else
      var i := FirstBreak(s);
      if i == |s| then [s] else [s[..i]] + SplitLines(s[AfterBreak(s, i)..])
  }

  function JoinLines(lines: seq<string>): string {
    if lines == [] then [] else lines[0] + "\n" + JoinLines(lines[1..])
  }

  lemma {:induction false} SplitLinesAreLines(s: string)
    ensures forall l :: l in SplitLines(s) ==> IsOneLine(l)
    decreases |s|
  {
    if s == [] {
    } else {
      var i := FirstBreak(s);
      if i == |s| {
        assert s[..i] == s;
      } else {
        SplitLinesAreLines(s[AfterBreak(s, i)..]);
      }
    }
  }

  lemma {:induction false} FirstBreakAfter(l: string, rest: string)
    requires IsOneLine(l)
    ensures FirstBreak(l + "\n" + rest) == |l|
  {
    if l == [] {
      assert l + "\n" + rest == "\n" + rest;
    } else {
      assert (l + "\n" + rest)[1..] == l[1..] + "\n" + rest;
      assert l[0] in l;
      FirstBreakAfter(l[1..], rest);
    }
  }

  lemma {:induction false} LinesRoundTrip(lines: seq<string>)
    requires forall l :: l in lines ==> IsOneLine(l)
    ensures SplitLines(JoinLines(lines)) == lines
  {
    if lines == [] {
    } else {
      var l, rest := lines[0], JoinLines(lines[1..]);
      assert l in lines && forall x :: x in lines[1..] ==> x in lines;
      LinesRoundTrip(lines[1..]);
      FirstBreakAfter(l, rest);
      var text := l + "\n" + rest;
      assert text[|l|] == '\n' && AfterBreak(text, |l|) == |l| + 1;
      assert text[..|l|] == l && text[|l| + 1..] == rest;
      assert lines == [l] + lines[1..];
    }
  }
}
