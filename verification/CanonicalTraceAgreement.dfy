/**
 * Where the two readers of the canonical trace agree: what the replay reader
 * refuses or overruns on, against what the strict reader does.
 */
module CanonicalTraceAgreement {
  import opened CanonicalTrace
  import opened Options
  import opened Text

  // ---------- what the replay reader refuses ----------

  /** A character other than the separator is in one of the fields. */
  lemma {:induction false} SplitKeeps(line: string, c: char, d: char)
    requires d in line && d != c
    ensures exists k :: 0 <= k < |SplitOn(line, c)| && d in SplitOn(line, c)[k]
    decreases |line|
  {
    var i := IndexOf(line, c);
    hide IndexOf;
    var fields := SplitOn(line, c);
    if i == |line| {
      assert d in fields[0];
    } else if d in line[..i] {
      assert d in fields[0];
    } else {
      var rest := line[i + 1..];
      assert line == line[..i] + [line[i]] + rest;
      SplitKeeps(rest, c, d);
      var k :| 0 <= k < |SplitOn(rest, c)| && d in SplitOn(rest, c)[k];
      assert fields[k + 1] == SplitOn(rest, c)[k];
    }
  }

  lemma NumberIsClean(text: string, base: nat)
    requires IsBase(base) && IsNumber(text, base)
    ensures '\r' !in text
  {
    assert DigitValue('\r') == 16;
  }

  lemma ReadFrameIsClean(line: string)
    requires ReadFrame(line).Read?
    ensures '\r' !in line
  {
    var fields := SplitOn(line, ',');
    hide Value;
    hide HexData;
    hide Padded;
    NumberIsClean(fields[0], 10);
    NumberIsClean(fields[1][2..], 16);
    assert fields[1] == fields[1][..2] + fields[1][2..];
    NumberIsClean(fields[3], 10);
    assert DigitValue('\r') == 16;
    assert AllHex(fields[4]);
    assert forall k :: 0 <= k < 5 ==> '\r' !in fields[k];
    if '\r' in line {
      SplitKeeps(line, ',', '\r');
    }
  }

  lemma {:induction false} ReadFramesLast(front: seq<string>, line: string, maximum: nat)
    requires ReadFrames(front + [line], maximum).Read?
    ensures ReadFrames(front, maximum).Read? && (line == "" || ReadFrame(line).Read?)
  {
    hide ReadFrame;
    assert (front + [line])[..|front|] == front;
  }

  lemma {:induction false} ReadFramesAreClean(lines: seq<string>, maximum: nat)
    requires ReadFrames(lines, maximum).Read?
    ensures Clean(lines)
  {
    if lines == [] {
    } else {
      hide *;
      var front, line := lines[..|lines| - 1], lines[|lines| - 1];
      assert lines == front + [line];
      ReadFramesLast(front, line, maximum);
      ReadFramesAreClean(front, maximum);
      if line != "" {
        ReadFrameIsClean(line);
      }
      CleanLast(front, line);
    }
  }

  lemma {:induction false} CleanLast(front: seq<string>, line: string)
    requires Clean(front) && '\r' !in line
    ensures Clean(front + [line])
  {
  }

  /** A text the replay tools read has settled line ends. */
  lemma {:induction false} ReplayedIsSettled(text: string, maximum: nat)
    requires ReadCanTrace(StrippedLines(text), maximum).Read?
    ensures Settled(text)
  {
    hide ReadFrames;
    hide StrippedLines;
    hide Settled;
    var lines := StrippedLines(text);
    ReadFramesAreClean(lines[1..], maximum);
    HeaderIsPlain();
    hide HEADER;
    forall i | 0 <= i < |lines|
      ensures '\r' !in lines[i]
    {
      assert 0 < i ==> lines[i] == lines[1..][i - 1];
    }
    CleanIsSettled(text);
  }

  // ---------- what overruns is refused by the strict reader ----------

  /** The fields of the beginning of a line, but for the last, are those of the line. */
  lemma {:induction false} FieldsOfBeginning(line: string, k: nat, c: char)
    requires k <= |line|
    ensures var part, fields := SplitOn(line[..k], c), SplitOn(line, c);
            |part| <= |fields| && forall n :: 0 <= n < |part| - 1 ==> part[n] == fields[n]
    decreases |line|
  {
    var i := IndexOf(line[..k], c);
    FieldsCut(line[..k], c);
    FieldsCut(line, c);
    hide *;
    if i < k {
      CutAgrees(line, k, c, i);
      FieldsOfBeginning(line[i + 1..], k - i - 1, c);
      SameBeginning([line[..i]], SplitOn(line[i + 1..][..k - i - 1], c), SplitOn(line[i + 1..], c));
    }
  }

  lemma {:induction false} CutAgrees(line: string, k: nat, c: char, i: nat)
    requires k <= |line| && i == IndexOf(line[..k], c) < k
    ensures IndexOf(line, c) == i && line[..k][..i] == line[..i] && line[..k][i + 1..] == line[i + 1..][..k - i - 1]
  {
    assert line[i] == c && c !in line[..i] by {
      assert line[..k][..i] == line[..i];
    }
    hide IndexOf;
    FirstAt(line, c, i);
  }

  lemma {:induction false} SameBeginning(first: seq<string>, part: seq<string>, fields: seq<string>)
    requires |part| <= |fields| && forall n :: 0 <= n < |part| - 1 ==> part[n] == fields[n]
    ensures |first + part| <= |first + fields|
    ensures |part| > 0 ==> forall n :: 0 <= n < |first + part| - 1 ==> (first + part)[n] == (first + fields)[n]
  {
  }

  /** The first field and the others, or the only one. */
  lemma {:induction false} FieldsCut(line: string, c: char)
    ensures var i := IndexOf(line, c);
            SplitOn(line, c) == if i == |line| then [line] else [line[..i]] + SplitOn(line[i + 1..], c)
  {
    hide IndexOf;
  }

  function FirstPart(line: string): string {
    line[..EndOfLine(line)]
  }

  /** Up to its first line end, an overrunning line is one the strict reader refuses. */
  lemma {:induction false} FirstPartRefused(line: string)
    requires Overruns(line)
    ensures FirstPart(line) != "" && ReadRow(FirstPart(line)).None?
  {
    var fields := SplitOn(line, ',');
    FieldsOfBeginning(line, EndOfLine(line), ',');
    assert fields[0] == line[..|fields[0]|] && IsNumber(fields[0], 10);
    assert line[0] == fields[0][0];
    hide SplitOn;
    hide AllHex;
    hide HexData;
    hide Value;
  }

  /** The first newline of a text is at j. */
  predicate NewlineAt(text: string, j: nat) {
    j < |text| && text[j] == '\n' && forall k :: 0 <= k < j ==> text[k] != '\n'
  }

  lemma {:induction false} EndBefore(text: string, j: nat)
    requires NewlineAt(text, j)
    ensures var i := EndOfLine(text);
            i <= j && (i < j ==> text[i] == '\r') && (i + 1 < j ==> text[i + 1] != '\n')
  {
    hide EndOfLine;
  }

  lemma {:induction false} NewlineAfter(text: string, i: nat, j: nat)
    requires NewlineAt(text, j) && i < j
    ensures NewlineAt(text[i + 1..], j - i - 1) && text[i + 1..][j - i..] == text[j + 1..]
  {
  }

  /** The first line ends at the first newline or at the carriage return before it; or earlier, at another. */
  lemma {:induction false} LineBefore(text: string, i: nat, j: nat)
    requires NewlineAt(text, j) && i == EndOfLine(text) && i + 1 >= j
    ensures UniversalLines(text) == [FirstPart(text)] + UniversalLines(text[j + 1..])
  {
    EndBefore(text, j);
    hide EndOfLine;
    UniversalStep(text, i);
    hide UniversalLines;
    if i + 1 == j {
      assert text[i + 2..] == text[j + 1..];
    } else {
      assert i == j;
    }
  }

  lemma {:induction false} LineEarlier(text: string, i: nat, j: nat)
    requires NewlineAt(text, j) && i == EndOfLine(text) && i + 1 < j
    ensures UniversalLines(text) == [FirstPart(text)] + UniversalLines(text[i + 1..])
  {
    EndBefore(text, j);
    hide EndOfLine;
    UniversalStep(text, i);
    hide UniversalLines;
  }

  /** The lines up to the first newline, and the lines after it. */
  lemma {:induction false} UniversalSplits(text: string, j: nat) returns (part: seq<string>)
    requires NewlineAt(text, j)
    ensures part != [] && part[0] == FirstPart(text)
    ensures UniversalLines(text) == part + UniversalLines(text[j + 1..])
    decreases |text|
  {
    EndBefore(text, j);
    var i := EndOfLine(text);
    hide *;
    part := [FirstPart(text)];
    if i + 1 >= j {
      LineBefore(text, i, j);
    } else {
      LineEarlier(text, i, j);
      NewlineAfter(text, i, j);
      var rest, after := text[i + 1..], UniversalLines(text[j + 1..]);
      var more := UniversalSplits(rest, j - i - 1);
      assert part + (more + after) == (part + more) + after;
      part := part + more;
    }
  }

  lemma {:induction false} FirstAt(s: string, c: char, k: nat)
    requires k < |s| && s[k] == c && c !in s[..k]
    ensures IndexOf(s, c) == k
  {
    IndexOfFirst(s[..k], c, s[k + 1..]);
    assert s == s[..k] + [c] + s[k + 1..];
  }

  /** The first parts of a text up to a newline and of that text stripped are the same. */
  lemma {:induction false} FirstPartStripped(text: string, j: nat)
    requires j == IndexOf(text, '\n')
    ensures FirstPart(Stripped(text[..j])) == FirstPart(text)
  {
    var i, line := EndOfLine(text), Stripped(text[..j]);
    var k := EndOfLine(line);
    hide EndOfLine;
    NoNewlineBefore(text, j);
    hide IndexOf;
    assert i <= j && forall n :: 0 <= n < |line| ==> line[n] == text[n];
    assert i < j ==> text[i] == '\r';
    assert k == i;
  }

  lemma {:induction false} FirstLine(text: string)
    requires text != ""
    ensures |UniversalLines(text)| > 0 && UniversalLines(text)[0] == FirstPart(text)
  {
    UniversalStep(text, EndOfLine(text));
    hide EndOfLine;
    hide UniversalLines;
    assert text[..|text|] == text;
  }

  lemma {:induction false} LaterLines(text: string, j: nat)
    requires text != "" && j == IndexOf(text, '\n')
    ensures StrippedLines(text) == [Stripped(text[..j])] + if NewlineAt(text, j) then StrippedLines(text[j + 1..]) else []
  {
    StrippedStep(text, j);
    NoNewlineBefore(text, j);
    hide IndexOf;
    hide StrippedLines;
    hide Stripped;
    assert text[..|text|] == text;
  }

  /** Each line of the replay reader begins with a line of the strict reader. */
  lemma {:induction false} FirstPartIsLine(text: string, n: nat) returns (m: nat)
    requires n < |StrippedLines(text)|
    ensures m < |UniversalLines(text)| && UniversalLines(text)[m] == FirstPart(StrippedLines(text)[n])
    ensures 0 < n ==> 0 < m
    decreases |text|
  {
    assert text != "";
    var j := IndexOf(text, '\n');
    LaterLines(text, j);
    assert NewlineAt(text, j) ==> j < |text|;
    hide *;
    if n == 0 {
      m := 0;
      FirstLine(text);
      FirstPartStripped(text, j);
    } else {
      var rest := text[j + 1..];
      assert StrippedLines(text)[n] == StrippedLines(rest)[n - 1];
      var part := UniversalSplits(text, j);
      m := FirstPartIsLine(rest, n - 1);
      assert (part + UniversalLines(rest))[|part| + m] == UniversalLines(rest)[m];
      m := |part| + m;
    }
  }

  lemma {:induction false} RefusedLineRefuses(lines: seq<string>, maximum: nat, m: nat)
    requires m < |lines| && lines[m] != "" && ReadRow(lines[m]).None?
    ensures ReadRows(lines, maximum).None?
  {
    hide ReadRow;
    if m < |lines| - 1 {
      RefusedLineRefuses(lines[..|lines| - 1], maximum, m);
    }
  }

  /** A text that overruns the array in the replay tools is refused by the strict reader. */
  lemma {:induction false} OverrunTextRefused(text: string, maximum: nat)
    requires ReadCanTrace(StrippedLines(text), maximum).Overrun?
    ensures ReadTrace(UniversalLines(text), maximum).None?
  {
    hide ReadFrames;
    hide ReadRows;
    hide StrippedLines;
    hide UniversalLines;
    hide FirstPart;
    hide ReadRow;
    hide Overruns;
    var lines := StrippedLines(text);
    TextOverrunsExactly(lines[1..], maximum);
    var n :| 0 <= n < |lines[1..]| && Overruns(lines[1..][n]);
    FirstPartRefused(lines[n + 1]);
    var m := FirstPartIsLine(text, n + 1);
    RefusedLineRefuses(UniversalLines(text)[1..], maximum, m - 1);
  }

  /**
   * When the two programs agree on a text: exactly when the fill stays inside
   * the array and either every carriage return is followed by a newline or is
   * last, or the strict reader refuses. A text that overruns is one it refuses.
   */
  lemma {:induction false} ReadersAgree(text: string, maximum: nat)
    ensures var rows, frames := ReadTrace(UniversalLines(text), maximum), ReadCanTrace(StrippedLines(text), maximum);
            && (frames.Overrun? ==> rows.None?)
            && (SameTrace(rows, frames) <==> !frames.Overrun? && (Settled(text) || rows.None?))
  {
    var lines, frames := StrippedLines(text), ReadCanTrace(StrippedLines(text), maximum);
    if frames.Overrun? {
      OverrunTextRefused(text, maximum);
    } else if Settled(text) {
      SameLines(text);
      if lines != [] {
        SameRows(lines[1..], maximum);
      }
    } else if frames.Read? {
      ReplayedIsSettled(text, maximum);
    }
    hide StrippedLines;
    hide UniversalLines;
    hide ReadRows;
    hide ReadFrames;
    hide Settled;
    hide HeaderAccepted;
  }

  // ---------- bytes and characters ----------

  predicate Ascii(s: string) {
    forall i :: 0 <= i < |s| ==> s[i] as int < 0x80
  }

  /** A character other than the separator is in one of the fields, so fields of plain characters make a plain line. */
  lemma {:induction false} ReadRowIsAscii(line: string)
    requires ReadRow(line).Some?
    ensures Ascii(line)
  {
    var fields := SplitOn(line, ',');
    hide Value;
    hide HexData;
    assert Ascii(fields[0]) && Ascii(fields[1][2..]) && Ascii(fields[3]) && Ascii(fields[4]) by {
      DigitsAreAscii();
    }
    assert fields[1] == fields[1][..2] + fields[1][2..];
    assert Ascii(fields[2]);
    assert forall k :: 0 <= k < 5 ==> Ascii(fields[k]);
    forall i | 0 <= i < |line|
      ensures line[i] as int < 0x80
    {
      if line[i] != ',' {
        SplitKeeps(line, ',', line[i]);
      }
    }
  }

  lemma DigitsAreAscii()
    ensures forall c :: DigitValue(c) < 16 ==> c as int < 0x80
  {
  }

  /** The lines of a text after its first, and where they begin in it. */
  lemma {:induction false} AfterFirstLine(text: string) returns (next: nat)
    requires text != ""
    ensures EndOfLine(text) <= next <= |text| && (next == |text| || EndOfLine(text) < next)
    ensures forall k :: EndOfLine(text) <= k < next ==> text[k] == '\n' || text[k] == '\r'
    ensures UniversalLines(text) == [FirstPart(text)] + UniversalLines(text[next..])
  {
    var e := EndOfLine(text);
    UniversalStep(text, e);
    hide EndOfLine;
    assert UniversalLines("") == [];
    hide UniversalLines;
    if e == |text| {
      next := e;
      assert text[..e] == text && text[e..] == "";
    } else if e + 1 < |text| && text[e] == '\r' && text[e + 1] == '\n' {
      next := e + 2;
    } else {
      next := e + 1;
      assert e + 1 == |text| ==> text[e + 1..] == "";
    }
  }

  lemma {:induction false} OneLineLater(lines: seq<string>, first: string, rest: seq<string>, k: nat)
    requires lines == [first] + rest && k < |rest|
    ensures k + 1 < |lines| && lines[k + 1] == rest[k]
  {
  }

  lemma {:induction false} SameCharacter(text: string, next: nat, i: nat)
    requires next <= i < |text|
    ensures text[next..][i - next] == text[i]
  {
  }

  lemma {:induction false} InFirstPart(text: string, i: nat)
    requires i < EndOfLine(text)
    ensures i < |FirstPart(text)| && text[i] in FirstPart(text)
  {
    assert FirstPart(text)[i] == text[i];
    hide EndOfLine;
  }

  /** A character that ends no line is in one; in the first, at its own place. */
  lemma {:induction false} InALine(text: string, i: nat) returns (m: nat)
    requires i < |text| && text[i] != '\n' && text[i] != '\r'
    ensures m < |UniversalLines(text)| && text[i] in UniversalLines(text)[m]
    ensures m == 0 ==> i < |UniversalLines(text)[0]| && UniversalLines(text)[0] == FirstPart(text)
    decreases |text|
  {
    var next := AfterFirstLine(text);
    hide *;
    if i < EndOfLine(text) {
      m := 0;
      InFirstPart(text, i);
    } else {
      SameCharacter(text, next, i);
      m := InALine(text[next..], i - next);
      OneLineLater(UniversalLines(text), FirstPart(text), UniversalLines(text[next..]), m);
      m := m + 1;
    }
  }

  lemma HeaderIsAscii()
    ensures Ascii(HEADER) && |BOM| == 3
  {
    assert Ascii("timestamp_ms,") && Ascii("identifier,") && Ascii("extended,") && Ascii("dlc,") && Ascii("data_hex");
  }

  /** Beyond ASCII, an accepted header has only the mark. */
  lemma HeaderBeyondAscii(line: string, i: nat)
    requires HeaderAccepted(line) && i < |line| && line[i] as int >= 0x80
    ensures i < 3 && BOM <= line
  {
    HeaderIsAscii();
    hide HEADER;
    hide BOM;
    assert forall k :: 3 <= k < |BOM + HEADER| ==> (BOM + HEADER)[k] == HEADER[k - 3];
  }

  /**
   * A text the strict reader accepts is ASCII but for a mark at its start; so
   * it does not matter that it decodes the bytes before it looks at them.
   */
  lemma StrictTextIsAscii(text: string, maximum: nat)
    requires ReadTrace(UniversalLines(text), maximum).Some?
    ensures forall i :: 0 <= i < |text| && text[i] as int >= 0x80 ==> i < 3 && BOM <= text
  {
    hide ReadRows;
    hide ReadRow;
    hide UniversalLines;
    hide HeaderAccepted;
    hide BOM;
    hide EndOfLine;
    forall i | 0 <= i < |text| && text[i] as int >= 0x80
      ensures i < 3 && BOM <= text
    {
      AcceptedCharacter(text, maximum, i);
    }
  }

  lemma AcceptedCharacter(text: string, maximum: nat, i: nat)
    requires ReadTrace(UniversalLines(text), maximum).Some? && i < |text| && text[i] as int >= 0x80
    ensures i < 3 && BOM <= text
  {
    hide ReadRows;
    hide ReadRow;
    hide UniversalLines;
    hide HeaderAccepted;
    hide BOM;
    hide EndOfLine;
    var lines := UniversalLines(text);
    var m := InALine(text, i);
    if m > 0 {
      assert lines[1..][m - 1] == lines[m];
      if ReadRow(lines[m]).None? {
        RefusedLineRefuses(lines[1..], maximum, m - 1);
      } else {
        ReadRowIsAscii(lines[m]);
      }
    } else {
      HeaderBeyondAscii(lines[0], i);
    }
  }

  // ---------- written traces ----------

  lemma {:induction false} WrittenHasNoReturns(rows: seq<Row>)
    ensures '\r' !in RowsText(rows)
  {
    hide RowText;
    if rows != [] {
      RowFields(rows[0]);
      WrittenHasNoReturns(rows[1..]);
    }
  }

  /** The replay tools read a written trace as the same frames. */
  lemma WrittenTraceReplays(rows: seq<Row>, maximum: nat)
    requires ZeroBased(rows) && rows != [] && |rows| <= maximum
    ensures SameTrace(Some(rows), ReadCanTrace(StrippedLines(TraceText(rows)), maximum))
  {
    TraceRoundTrip(rows, maximum);
    HeaderIsPlain();
    WrittenHasNoReturns(rows);
    hide ReadTrace;
    hide ReadCanTrace;
    hide UniversalLines;
    hide StrippedLines;
    hide RowsText;
    hide SameFrames;
    assert Settled(TraceText(rows));
    ReadersAgree(TraceText(rows), maximum);
  }

  /**
   * A carriage return alone ends a line for the strict reader only: a trace
   * whose header ends that way is read by it and refused by the replay tools.
   */
  lemma LoneReturnsDiffer(r: Row)
    requires ValidRow(r) && r.timestampMs == 0
    ensures var text := HEADER + "\r" + RowText(r);
            && ReadTrace(UniversalLines(text), 1) == Some([r])
            && ReadCanTrace(StrippedLines(text), 1) == Refused
  {
    HeaderIsPlain();
    hide *;
    var text, row := HEADER + "\r" + RowText(r), RowText(r);
    RowFields(r);
    RowRoundTrip(r);
    TwoLines(HEADER, row);
    OneRow(row, r);
    assert text[|text| - 1] == row[|row| - 1];
    OneLine(text);
    LongerThanHeader(row);
    LineRefused(text);
  }

  lemma OneRow(row: string, r: Row)
    requires row != "" && ReadRow(row) == Some(r) && r.timestampMs == 0
    ensures ReadTrace([HEADER, row], 1) == Some([r])
  {
    hide ReadRow;
    hide HEADER;
    assert [HEADER, row][1..] == [row] && [row][..0] == [];
    var none: seq<Row> := [];
    assert ReadRows([], 1) == Some(none) && none + [r] == [r];
    assert ReadRows([row], 1) == Some([r]);
  }

  lemma LineRefused(line: string)
    requires !HeaderAccepted(line)
    ensures ReadCanTrace([line], 1) == Refused
  {
    hide HeaderAccepted;
  }

  lemma LongerThanHeader(row: string)
    requires row != ""
    ensures !HeaderAccepted(HEADER + "\r" + row)
  {
    var line := HEADER + "\r" + row;
    assert HEADER[0] == "timestamp_ms,"[0] == 't' && (BOM + HEADER)[0] == BOM[0] != 't';
    hide HEADER;
    hide BOM;
    assert |line| == |HEADER| + 1 + |row| && line[0] == HEADER[0];
  }

  lemma {:induction false} NoEnding(line: string)
    requires '\n' !in line && '\r' !in line
    ensures EndOfLine(line) == |line|
  {
    if line != "" {
      NoEnding(line[1..]);
    }
  }

  lemma {:induction false} TwoLines(a: string, b: string)
    requires '\n' !in a && '\r' !in a && '\n' !in b && '\r' !in b && b != ""
    ensures UniversalLines(a + "\r" + b) == [a, b]
  {
    hide EndOfLine;
    var text := a + "\r" + b;
    assert text[|a|] == '\r' && forall k :: 0 <= k < |a| ==> text[k] == a[k];
    assert text[|a| + 1] == b[0] != '\n';
    assert text[..|a|] == a && text[|a| + 1..] == b;
    assert EndOfLine(text) == |a|;
    NoEnding(b);
    assert UniversalLines(b) == [b];
  }

  lemma {:induction false} OneLine(text: string)
    requires text != "" && '\n' !in text && text[|text| - 1] != '\r'
    ensures StrippedLines(text) == [text]
  {
    IndexOfAbsent(text, '\n');
    hide IndexOf;
  }
}
