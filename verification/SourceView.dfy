/** Numbered windows of source lines, with markers for the current line and for breakpoints. */
module SourceView {
  import opened GoStrings
  import opened Highlight
  import opened LineNumbers

  const YELLOW: string := [ESC] + "[33m"
  const DIM: string := [ESC] + "[2m"
  const RED: string := [ESC] + "[31m"
  const BULLET: string := [0xe2 as char, 0x97 as char, 0x8f as char]

  /** %4d of a positive number. */
  function Padded(n: nat): (s: string)
    ensures ESC !in s && '\n' !in s
  {
    var digits := Itoa(n);
    if |digits| >= 4 then digits else seq(4 - |digits|, _ => ' ') + digits
  }

  lemma {:induction false} SpacesAreTrimmed(n: nat, digits: string)
    requires digits != "" && AllDigits(digits)
    ensures TrimSpace(seq(n, _ => ' ') + digits) == digits
  {
    if n == 0 {
      assert seq(n, _ => ' ') + digits == digits;
      assert IsDigit(digits[0]) && IsDigit(digits[|digits| - 1]);
    } else {
      var spaced := seq(n, _ => ' ') + digits;
      assert spaced[0] == ' ' && spaced[1..] == seq(n - 1, _ => ' ') + digits;
      SpacesAreTrimmed(n - 1, digits);
    }
  }

  lemma {:induction false} FewDigits(n: nat, k: nat)
    requires k > 0 && n < Power(k)
    ensures |Itoa(n)| <= k
    decreases n
  {
    if n >= 10 {
      assert Power(k) == 10 * Power(k - 1);
      assert k > 1 by {
        assert Power(1) == 10 * Power(0);
      }
      FewDigits(n / 10, k - 1);
    }
  }

  lemma FourPlaces(n: nat)
    requires n < 10000
    ensures |Itoa(n)| <= 4
  {
    assert Power(4) == 10 * Power(3) && Power(3) == 10 * Power(2) && Power(2) == 10 * Power(1) && Power(1) == 10;
    FewDigits(n, 4);
  }

  lemma PaddedSplits(n: nat) returns (spaces: nat)
    ensures Padded(n) == seq(spaces, _ => ' ') + Itoa(n) && |Padded(n)| >= 4
    ensures spaces == if |Itoa(n)| < 4 then 4 - |Itoa(n)| else 0
  {
    hide Itoa;
    spaces := if |Itoa(n)| < 4 then 4 - |Itoa(n)| else 0;
    assert seq(0, _ => ' ') + Itoa(n) == Itoa(n);
  }

  /** A padded number is the number, at the right of at least four places filled with spaces. */
  lemma PaddedIsTheNumber(n: nat)
    ensures TrimSpace(Padded(n)) == Itoa(n) && DigitsValue(Itoa(n)) == n
    ensures n <= MAX_INT ==> Atoi(TrimSpace(Padded(n))) == Some(n)
    ensures |Padded(n)| >= 4 && (n < 10000 ==> |Padded(n)| == 4)
    ensures IsDigit(Padded(n)[|Padded(n)| - 1])
    ensures forall i :: 0 <= i < |Padded(n)| ==> Padded(n)[i] == ' ' || IsDigit(Padded(n)[i])
  {
    hide Itoa, Atoi, DigitsValue, TrimSpace, Padded;
    var spaces := PaddedSplits(n);
    SpacesAreTrimmed(spaces, Itoa(n));
    if n <= MAX_INT {
      AtoiOfItoa(n);
    }
    if n < 10000 {
      FourPlaces(n);
    }
  }

  function BreakpointMarker(line: int, breakpoints: set<int>): string {
    if line in breakpoints then RED + BULLET + RESET else " "
  }

  /** One row of a window. */
  function Row(number: nat, current: bool, text: string, breakpoints: set<int>): string {
    (if current then YELLOW + DIM + ">" else DIM + " ")
    + Padded(number) + RESET + " " + BreakpointMarker(number, breakpoints) + " " + text + "\n"
  }

  /** A row, byte by byte: yellow and dim in front of the current line, dim in front of any other, and a red
      bullet for a breakpoint. */
  lemma RowInBytes(number: nat, current: bool, text: string, breakpoints: set<int>)
    ensures var escape := [27 as char];
            var bullet := escape + "[31m" + [0xe2 as char, 0x97 as char, 0x8f as char] + escape + "[0m";
            Row(number, current, text, breakpoints)
              == (if current then escape + "[33m" + (escape + "[2m") + ">" else escape + "[2m" + " ")
                 + Padded(number) + (escape + "[0m") + " " + (if number in breakpoints then bullet else " ")
                 + " " + text + "\n"
  {
    hide Padded;
    var escape := [27 as char];
    assert BULLET + RESET == BULLET + (escape + "[0m");
    assert RED + BULLET + RESET == RED + BULLET + escape + "[0m";
  }

  function Rows(lines: seq<string>, current: int, first: nat, count: nat, breakpoints: set<int>): string
    requires 1 <= first && first + count <= |lines| + 1
    decreases count
  {
    if count == 0 then ""
    else
      Row(first, first == current, lines[first - 1], breakpoints)
      + Rows(lines, current, first + 1, count - 1, breakpoints)
  }

  predicate InLines(lines: seq<string>, n: int) {
    1 <= n <= |lines|
  }

  /** formatRange: the text of rows start to end, or an error exactly when a line is out of range or the
      range is backward. */
  method FormatRange(lines: seq<string>, current: int, start: int, end: int, breakpoints: set<int>)
    returns (text: Option<string>)
    ensures text.Some? <==> InLines(lines, current) && InLines(lines, start) && InLines(lines, end) && start <= end
    ensures text.Some? ==> text.value == "\n" + Rows(lines, current, start, end - start + 1, breakpoints) + "\n"
  {
    hide Row;
    if current <= 0 || current > |lines| {
      return None;
    }
    if start <= 0 || start > |lines| {
      return None;
    }
    if end <= 0 || end > |lines| {
      return None;
    }
    if start > end {
      return None;
    }
    var out := "\n";
    for i := start to end + 1
      invariant "\n" + Rows(lines, current, start, end - start + 1, breakpoints)
                  == out + Rows(lines, current, i, end + 1 - i, breakpoints)
    {
      RowsStep(lines, current, i, end + 1 - i, breakpoints, out);
      out := out + Row(i, i == current, lines[i - 1], breakpoints);
    }
    assert out + "" == out;
    text := Some(out + "\n");
  }

  lemma RowsStep(lines: seq<string>, current: int, first: nat, count: nat, breakpoints: set<int>, out: string)
    requires 1 <= first && first + count <= |lines| + 1 && count > 0
    ensures out + Rows(lines, current, first, count, breakpoints)
              == (out + Row(first, first == current, lines[first - 1], breakpoints))
                + Rows(lines, current, first + 1, count - 1, breakpoints)
  {
    hide Row;
  }

  function Max(a: int, b: int): int {
    if a < b then b else a
  }

  function Min(a: int, b: int): int {
    if a < b then a else b
  }

  /** RenderWindowWithBreakpoints, over the rendered lines of a file. */
  method RenderWindow(lines: seq<string>, current: int, context: int, breakpoints: set<int>)
    returns (text: Option<string>, ghost first: int, ghost last: int)
    ensures first == if current - context > 1 then current - context else 1
    ensures last == if current + context < |lines| then current + context else |lines|
    ensures text.Some? <==> InLines(lines, current) && context >= 0
    ensures text.Some? ==> 1 <= first <= current <= last <= |lines|
    ensures text.Some? ==> text.value == Window(lines, current, first, last, breakpoints)
  {
    hide Rows;
    var start := Max(1, current - context);
    var end := Min(|lines|, current + context);
    first, last := start, end;
    text := FormatRange(lines, current, start, end, breakpoints);
  }

  // ---------- the stripped window ----------

  /** A row without colours and without its line end. */
  function RowText(number: nat, current: bool, text: string, breakpoints: set<int>): (row: string)
    ensures row != "" && (row[0] == '>' <==> current)
  {
    (if current then ">" else " ") + (Padded(number) + " " + PlainMarker(number, breakpoints) + " " + text)
  }

  function PlainMarker(line: int, breakpoints: set<int>): string {
    if line in breakpoints then BULLET else " "
  }

  function PlainRows(lines: seq<string>, current: int, first: nat, count: nat, breakpoints: set<int>): string
    requires 1 <= first && first + count <= |lines| + 1
    decreases count
  {
    if count == 0 then ""
    else
      RowText(first, first == current, lines[first - 1], breakpoints)
      + ['\n'] + PlainRows(lines, current, first + 1, count - 1, breakpoints)
  }

  lemma MarkerStrips(line: int, breakpoints: set<int>, rest: string)
    ensures Strip(BreakpointMarker(line, breakpoints) + rest) == PlainMarker(line, breakpoints) + Strip(rest)
  {
    hide Strip;
    if line in breakpoints {
      var after := RESET + rest;
      SequenceThenRest("31", BULLET + after);
      assert BreakpointMarker(line, breakpoints) + rest == [ESC] + "[" + "31" + "m" + (BULLET + after);
      PlainPrefixStays(BULLET, after);
      SequenceThenRest("0", rest);
      assert after == [ESC] + "[" + "0" + "m" + rest;
    } else {
      PlainPrefixStays(" ", rest);
    }
  }

  lemma {:induction false} HeadStrips(current: bool, rest: string)
    ensures var mark := if current then ">" else " ";
            Strip((if current then YELLOW + DIM + ">" else DIM + " ") + rest) == mark + Strip(rest)
  {
    hide Strip;
    var mark := if current then ">" else " ";
    var dimmed := DIM + mark + rest;
    PlainPrefixStays(mark, rest);
    SequenceThenRest("2", mark + rest);
    assert dimmed == [ESC] + "[" + "2" + "m" + (mark + rest);
    SequenceThenRest("33", dimmed);
    assert YELLOW + DIM + mark + rest == [ESC] + "[" + "33" + "m" + dimmed;
  }

  /** Stripping a row leaves its marks, its number and its stripped text. */
  lemma {:induction false} RowStrips(number: nat, current: bool, text: string, breakpoints: set<int>, rest: string)
    ensures Strip(Row(number, current, text, breakpoints) + rest)
              == RowText(number, current, Strip(text), breakpoints) + ['\n'] + Strip(rest)
  {
    hide Strip, BreakpointMarker, PlainMarker, Padded;
    var head := if current then YELLOW + DIM + ">" else DIM + " ";
    var marker, plain := BreakpointMarker(number, breakpoints), PlainMarker(number, breakpoints);
    var t3 := " " + (text + ['\n'] + rest);
    var t2 := " " + (marker + t3);
    var t1 := Padded(number) + (RESET + t2);
    assert Row(number, current, text, breakpoints) + rest == head + t1;
    StripByLine(text, rest);
    PlainPrefixStays(" ", text + ['\n'] + rest);
    MarkerStrips(number, breakpoints, t3);
    PlainPrefixStays(" ", marker + t3);
    SequenceThenRest("0", t2);
    assert RESET + t2 == [ESC] + "[" + "0" + "m" + t2;
    PlainPrefixStays(Padded(number), RESET + t2);
    HeadStrips(current, t1);
    var mark := if current then ">" else " ";
    assert Strip(head + t1) == mark + (Padded(number) + (" " + (plain + (" " + (Strip(text) + ['\n'] + Strip(rest))))));
  }

  lemma {:induction false} RowsStrip(lines: seq<string>, current: int, first: nat, count: nat, breakpoints: set<int>,
                                     rest: string)
    requires 1 <= first && first + count <= |lines| + 1
    ensures Strip(Rows(lines, current, first, count, breakpoints) + rest)
              == PlainRows(StripAll(lines), current, first, count, breakpoints) + Strip(rest)
    decreases count
  {
    hide Strip, Row, RowText;
    if count == 0 {
      assert "" + rest == rest;
    } else {
      var row := Row(first, first == current, lines[first - 1], breakpoints);
      var others := Rows(lines, current, first + 1, count - 1, breakpoints);
      RowStrips(first, first == current, lines[first - 1], breakpoints, others + rest);
      RowsStrip(lines, current, first + 1, count - 1, breakpoints, rest);
      assert row + others + rest == row + (others + rest);
      var plain := RowText(first, first == current, Strip(lines[first - 1]), breakpoints);
      var plains := PlainRows(StripAll(lines), current, first + 1, count - 1, breakpoints);
      assert plain + ['\n'] + (plains + Strip(rest)) == plain + ['\n'] + plains + Strip(rest);
    }
  }

  /** The row texts of a window, in order. */
  function RowTexts(lines: seq<string>, current: int, first: nat, count: nat,
                    breakpoints: set<int>): (rows: seq<string>)
    requires 1 <= first && first + count <= |lines| + 1
    ensures |rows| == count
    ensures forall i :: 0 <= i < count ==>
                          rows[i] == RowText(first + i, first + i == current, lines[first + i - 1], breakpoints)
  {
    seq(count, i requires 0 <= i < count => RowText(first + i, first + i == current, lines[first + i - 1], breakpoints))
  }

  predicate NoLineEnds(lines: seq<string>) {
    forall i :: 0 <= i < |lines| ==> '\n' !in lines[i]
  }

  lemma RowTextIsOneLine(number: nat, current: bool, text: string, breakpoints: set<int>)
    requires '\n' !in text
    ensures '\n' !in RowText(number, current, text, breakpoints)
  {
    hide Padded;
  }

  lemma {:induction false} RowsSplit(lines: seq<string>, current: int, first: nat, count: nat, breakpoints: set<int>,
                                     rest: string)
    requires 1 <= first && first + count <= |lines| + 1 && NoLineEnds(lines)
    ensures Split(PlainRows(lines, current, first, count, breakpoints) + rest, '\n')
              == RowTexts(lines, current, first, count, breakpoints) + Split(rest, '\n')
    decreases count
  {
    hide RowText, Split;
    if count == 0 {
      assert "" + rest == rest;
    } else {
      var row := RowText(first, first == current, lines[first - 1], breakpoints);
      var others := PlainRows(lines, current, first + 1, count - 1, breakpoints);
      RowTextIsOneLine(first, first == current, lines[first - 1], breakpoints);
      RowsSplit(lines, current, first + 1, count - 1, breakpoints, rest);
      assert row + ['\n'] + others + rest == row + ['\n'] + (others + rest);
      SplitAt(row, '\n', others + rest);
      assert RowTexts(lines, current, first, count, breakpoints)
        == [row] + RowTexts(lines, current, first + 1, count - 1, breakpoints);
    }
  }

  lemma StrippedLinesHaveNoEnds(lines: seq<string>)
    requires NoLineEnds(lines)
    ensures NoLineEnds(StripAll(lines))
  {
    hide Strip;
    forall i | 0 <= i < |lines|
      ensures '\n' !in StripAll(lines)[i]
    {
      StripNoLineEnd(lines[i]);
    }
  }

  /** The text of a window. */
  function Window(lines: seq<string>, current: int, first: int, last: int, breakpoints: set<int>): string
    requires 1 <= first <= last <= |lines|
  {
    "\n" + Rows(lines, current, first, last - first + 1, breakpoints) + "\n"
  }

  lemma {:induction false} WindowLines(lines: seq<string>, current: int, first: int, last: int, breakpoints: set<int>)
    requires 1 <= first <= last <= |lines| && NoLineEnds(lines)
    ensures Split(Strip(Window(lines, current, first, last, breakpoints)), '\n')
              == [""] + RowTexts(StripAll(lines), current, first, last - first + 1, breakpoints) + ["", ""]
  {
    hide Strip, Rows, PlainRows, Split, RowTexts;
    var count := last - first + 1;
    var rows := Rows(lines, current, first, count, breakpoints);
    var plain := PlainRows(StripAll(lines), current, first, count, breakpoints);
    StrippedLinesHaveNoEnds(lines);
    RowsStrip(lines, current, first, count, breakpoints, "\n");
    StripOfPlain("\n");
    StripOfPlain("");
    StripByLine("", rows + "\n");
    assert "\n" + rows + "\n" == "" + ['\n'] + (rows + "\n");
    RowsSplit(StripAll(lines), current, first, count, breakpoints, "\n");
    SplitAt("", '\n', plain + "\n");
    TwoEmptyLines();
  }

  /** The row texts of a window are its stripped lines, but for an empty one before and two after them. */
  lemma WindowRows(lines: seq<string>, current: int, first: int, last: int, breakpoints: set<int>)
    requires 1 <= first <= current <= last <= |lines| && NoLineEnds(lines)
    ensures var shown := Split(Strip(Window(lines, current, first, last, breakpoints)), '\n');
            && |shown| == last - first + 4
            && shown[0] == shown[last - first + 2] == shown[last - first + 3] == ""
            && forall j :: 1 <= j <= last - first + 1 ==>
                             shown[j] == RowText(first + j - 1, first + j - 1 == current,
                                                 Strip(lines[first + j - 2]), breakpoints)
  {
    hide Strip, Split, Window, RowText;
    WindowLines(lines, current, first, last, breakpoints);
    var texts := RowTexts(StripAll(lines), current, first, last - first + 1, breakpoints);
    var shown := Split(Strip(Window(lines, current, first, last, breakpoints)), '\n');
    assert shown == [""] + texts + ["", ""];
  }

  /** A row with the mark of the current line or a space, a field, the marker of a breakpoint or a space,
      and a text. */
  predicate RowIs(row: string, current: bool, field: string, marked: bool, text: string) {
    row == (if current then ">" else " ") + field + " "
           + (if marked then [0xe2 as char, 0x97 as char, 0x8f as char] else " ") + " " + text
  }

  /** The field of a row holds a number: after spaces and at the end of at least four places. */
  predicate Holds(field: string, number: int) {
    && |field| >= 4 && IsDigit(field[|field| - 1]) && AllDigits(TrimSpace(field))
    && DigitsValue(TrimSpace(field)) == number
    && forall i :: 0 <= i < |field| ==> field[i] == ' ' || IsDigit(field[i])
  }

  ghost predicate ReadsAs(row: string, current: bool, number: int, marked: bool, text: string) {
    exists field :: Holds(field, number) && RowIs(row, current, field, marked, text)
  }

  lemma RowReads(number: nat, current: bool, text: string, breakpoints: set<int>)
    ensures ReadsAs(RowText(number, current, text, breakpoints), current, number, number in breakpoints, text)
  {
    hide Padded, Itoa, TrimSpace, DigitsValue, Atoi;
    PaddedIsTheNumber(number);
    var mark := if current then ">" else " ";
    var plain := PlainMarker(number, breakpoints);
    assert mark + (Padded(number) + " " + plain + " " + text) == mark + Padded(number) + " " + plain + " " + text;
    assert RowIs(RowText(number, current, text, breakpoints), current, Padded(number), number in breakpoints, text);
    assert Holds(Padded(number), number);
  }

  /** A window, stripped and read line by line: an empty line, one row for every line from first to last with
      its own number, its breakpoint and its stripped text, and two empty lines. Exactly one line begins with
      the mark: the row of the current line. */
  lemma WindowReadsBack(lines: seq<string>, current: int, first: int, last: int, breakpoints: set<int>)
    requires 1 <= first <= current <= last <= |lines| && NoLineEnds(lines)
    ensures var shown := Split(Strip(Window(lines, current, first, last, breakpoints)), '\n');
            && |shown| == last - first + 4
            && shown[0] == shown[last - first + 2] == shown[last - first + 3] == ""
            && (forall j :: 1 <= j <= last - first + 1 ==>
                              var n := first + j - 1;
                              ReadsAs(shown[j], n == current, n, n in breakpoints, Strip(lines[n - 1])))
            && (forall j :: 0 <= j < |shown| ==> ((shown[j] != "" && shown[j][0] == '>') <==> j == current - first + 1))
  {
    hide Strip, Split, Window, RowText, ReadsAs;
    WindowRows(lines, current, first, last, breakpoints);
    var shown := Split(Strip(Window(lines, current, first, last, breakpoints)), '\n');
    forall j | 1 <= j <= last - first + 1
      ensures var n := first + j - 1;
              && ReadsAs(shown[j], n == current, n, n in breakpoints, Strip(lines[n - 1]))
              && shown[j] != "" && (shown[j][0] == '>' <==> n == current)
    {
      var n := first + j - 1;
      RowReads(n, n == current, Strip(lines[n - 1]), breakpoints);
    }
  }

  lemma RenderedHaveNoEnds(src: string, shape: Shape)
    requires Scans(src, shape)
    ensures NoLineEnds(Rendered(src, shape))
  {
    hide Split, HighlightFrom, Fits, Stream;
    StreamIsInFile(src, shape, 0);
    NoSeparatorInside(HighlightFrom(src, Stream(|src|, shape), 0, |src|), '\n');
  }

  lemma RowTextIsInjective(number: nat, current: bool, a: string, b: string, breakpoints: set<int>)
    requires RowText(number, current, a, breakpoints) == RowText(number, current, b, breakpoints)
    ensures a == b
  {
    var mark := if current then ">" else " ";
    var front := Padded(number) + " " + PlainMarker(number, breakpoints) + " ";
    assert mark + (front + a) == mark + (front + b);
    assert (mark + (front + a))[1 + |front|..] == a && (mark + (front + b))[1 + |front|..] == b;
  }

  /** In a window over highlighted Go source, the row of a number shows, when stripped, the source line of that
      number exactly when that line keeps its number; and in any case what the stream makes of the source. */
  lemma {:induction false} WindowShowsTheSource(src: string, shape: Shape, current: int, first: int, last: int,
                                                breakpoints: set<int>, i: int)
    requires Scans(src, shape) && 1 <= first <= current <= last <= |Rendered(src, shape)|
    requires first <= i <= last && i <= |Lines(src)|
    ensures Reaches(src, shape, 0, i - 1)
    ensures var shown := Split(Strip(Window(Rendered(src, shape), current, first, last, breakpoints)), '\n');
            && |shown| == last - first + 4
            && shown[i - first + 1] == RowText(i, i == current, Shown(src, shape, 0, i - 1), breakpoints)
            && (shown[i - first + 1] == RowText(i, i == current, Lines(src)[i - 1], breakpoints) <==>
                Keeps(src, shape, i - 1))
  {
    hide Strip, Split, Window, RowText, Fits, HighlightFrom, Shown, Keeps, Reaches, Stream;
    var lines := Rendered(src, shape);
    assert src[..0] == "";
    CountAbsent("", '\n');
    NoLineIsMissing(src, shape, 0, i - 1);
    LineShows(src, shape, i - 1);
    LineKeepsItsNumberExactlyWhen(src, shape, i - 1);
    RenderedHaveNoEnds(src, shape);
    WindowRows(lines, current, first, last, breakpoints);
    if RowText(i, i == current, Strip(lines[i - 1]), breakpoints)
      == RowText(i, i == current, Lines(src)[i - 1], breakpoints) {
      RowTextIsInjective(i, i == current, Strip(lines[i - 1]), Lines(src)[i - 1], breakpoints);
    }
  }

  lemma TwoEmptyLines()
    ensures Split("\n", '\n') == ["", ""]
  {
    SplitAt("", '\n', "");
    assert "" + ['\n'] + "" == "\n";
  }
}
