/**
 * The canonical trace text: its writer and strict reader on the recording
 * side, the second reader of the replay tools, and where the two readers agree.
 * A text is the bytes of its file, one character to a byte.
 */
module CanonicalTrace {
  import opened Bytes
  import opened CanFrames
  import opened Options
  import opened Text

  const HEADER: string := "timestamp_ms," + "identifier," + "extended," + "dlc," + "data_hex"
  /** The byte-order mark, in UTF-8. */
  const BOM: string := "\U{EF}\U{BB}\U{BF}"
  const UINT32_MAXIMUM: nat := 0xFFFF_FFFF

  datatype Row = Row(timestampMs: nat, identifier: nat, extended: bool, data: seq<byte>)

  // ---------- data bytes ----------

  function Nibble(c: char): byte {
    DigitValue(c) as byte
  }

  function HexByte(high: char, low: char): byte {
    (Nibble(high) << 4) | Nibble(low)
  }

  /** Pairs of hexadecimal digits as bytes. */
  function HexData(text: string): (data: seq<byte>)
    requires |text| % 2 == 0
    ensures |data| == |text| / 2
  {
    if text == "" then [] else HexData(text[..|text| - 2]) + [HexByte(text[|text| - 2], text[|text| - 1])]
  }

  predicate AllHex(text: string) {
    forall i :: 0 <= i < |text| ==> DigitValue(text[i]) < 16
  }

  function ByteText(b: byte): (s: string)
    ensures |s| == 2
  {
    [DIGITS[((b >> 4) & 0xF) as int % 16], DIGITS[(b & 0xF) as int % 16]]
  }

  function DataText(data: seq<byte>): (s: string)
    ensures |s| == 2 * |data|
  {
    if data == [] then "" else DataText(data[..|data| - 1]) + ByteText(data[|data| - 1])
  }

  lemma NibbleInRange(n: byte)
    requires n < 16
    ensures n as int < 16 && (n as int % 16) as byte == n
  {
  }

  lemma NibblesJoin(b: byte)
    ensures b & 0xF < 16 && (b >> 4) & 0xF < 16
    ensures (((b >> 4) & 0xF) << 4) | (b & 0xF) == b
  {
  }

  lemma ByteRoundTrip(b: byte)
    ensures HexByte(ByteText(b)[0], ByteText(b)[1]) == b && AllHex(ByteText(b))
  {
    NibblesJoin(b);
    NibbleInRange((b >> 4) & 0xF);
    NibbleInRange(b & 0xF);
    DigitOf(((b >> 4) & 0xF) as int % 16);
    DigitOf((b & 0xF) as int % 16);
    hide DigitValue;
  }

  lemma HexDataGrows(s: string, t: string)
    requires |s| % 2 == 0 && |t| == 2
    ensures HexData(s + t) == HexData(s) + [HexByte(t[0], t[1])]
    ensures AllHex(s) && AllHex(t) ==> AllHex(s + t)
  {
    hide HexByte;
    hide DigitValue;
    assert (s + t)[..|s|] == s;
  }

  lemma DataTextStep(front: seq<byte>, b: byte)
    ensures DataText(front + [b]) == DataText(front) + ByteText(b)
    ensures HexData("") == [] && AllHex("") && DataText([]) == ""
  {
    hide ByteText;
    assert (front + [b])[..|front|] == front;
  }

  lemma EvenLength(data: seq<byte>)
    ensures |DataText(data)| % 2 == 0
  {
  }

  lemma {:induction false} DataRoundTrip(data: seq<byte>)
    ensures |DataText(data)| % 2 == 0 && HexData(DataText(data)) == data && AllHex(DataText(data))
  {
    hide *;
    EvenLength(data);
    if data == [] {
      DataTextStep([], 0);
    } else {
      var front, b := data[..|data| - 1], data[|data| - 1];
      assert front + [b] == data;
      DataTextStep(front, b);
      DataRoundTrip(front);
      ByteRoundTrip(b);
      HexDataGrows(DataText(front), ByteText(b));
    }
  }

  // ---------- one row, as each reader parses it ----------

  predicate IdentifierText(text: string) {
    |text| > 2 && text[0] == '0' && (text[1] == 'x' || text[1] == 'X') && IsNumber(text[2..], 16)
  }

  function BooleanText(text: string): Option<bool> {
    if text == "1" || text == "true" then Some(true)
    else if text == "0" || text == "false" then Some(false)
    else None
  }

  function MaximumIdentifier(extended: bool): nat {
    if extended then MAXIMUM_EXTENDED_IDENTIFIER else MAXIMUM_STANDARD_IDENTIFIER
  }

  /** The strict reader: fields first, ranges afterwards, on integers of any size. */
  function ReadFields(timestamp: string, identifier: string, extended: string, dlc: string, data: string): Option<Row> {
    if !IsNumber(timestamp, 10) || !IdentifierText(identifier) || BooleanText(extended).None? || !IsNumber(dlc, 10) then None
    else
      var length := Value(dlc, 10);
      if length > 8 || |data| != 2 * length || !AllHex(data) then None
      else
        var r := Row(Value(timestamp, 10), Value(identifier[2..], 16), BooleanText(extended).value, HexData(data));
        if r.timestampMs > UINT32_MAXIMUM || r.identifier > MaximumIdentifier(r.extended) then None else Some(r)
  }

  function ReadRow(line: string): Option<Row> {
    var fields := SplitOn(line, ',');
    if |fields| != 5 then None else ReadFields(fields[0], fields[1], fields[2], fields[3], fields[4])
  }

  /** A number that fits 64 bits while parsing, and its own width afterwards. */
  function Unsigned(text: string, base: nat, maximum: nat): (r: Option<nat>)
    requires IsBase(base)
    ensures r.Some? ==> r.value <= maximum
  {
    if IsNumber(text, base) && Value(text, base) <= 0xFFFF_FFFF_FFFF_FFFF && Value(text, base) <= maximum
    then Some(Value(text, base)) else None
  }

  function Padded(data: seq<byte>): Octets
    requires |data| <= MAXIMUM_DATA_LENGTH
  {
    data + seq(MAXIMUM_DATA_LENGTH - |data|, _ => 0)
  }

  /**
   * What the replay reader makes of a text. It fills the eight bytes of a
   * frame before it looks at their number, so the fill can leave the array.
   */
  datatype Outcome<+T> = Read(value: T) | Refused | Overrun

  /** Two digits to a byte of the array, as far as there are digits and room. */
  function ReadData(text: string, dataLength: nat): (r: Outcome<seq<byte>>)
    ensures r.Read? ==> |r.value| == dataLength <= MAXIMUM_DATA_LENGTH
  {
    if |text| != 2 * dataLength then Refused
    else if dataLength > MAXIMUM_DATA_LENGTH then
      if AllHex(text[..2 * (MAXIMUM_DATA_LENGTH + 1)]) then Overrun else Refused
    else if AllHex(text) then Read(HexData(text))
    else Refused
  }

  function UnsignedIdentifier(text: string): (r: Option<nat>)
    ensures r.Some? ==> r.value <= UINT32_MAXIMUM
  {
    if |text| > 2 && text[0] == '0' && (text[1] == 'x' || text[1] == 'X') then Unsigned(text[2..], 16, UINT32_MAXIMUM) else None
  }

  /** The replay reader: each field into its machine width, then the frame as a whole. */
  function ReadFrame(line: string): Outcome<CanFrame> {
    var fields := SplitOn(line, ',');
    if |fields| != 5 then Refused
    else
      var timestamp, identifier := Unsigned(fields[0], 10, UINT32_MAXIMUM), UnsignedIdentifier(fields[1]);
      var extended, length := BooleanText(fields[2]), Unsigned(fields[3], 10, 255);
      if timestamp.None? || identifier.None? || extended.None? || length.None? then Refused
      else
        match ReadData(fields[4], length.value)
        case Overrun => Overrun
        case Refused => Refused
        case Read(data) =>
          var f := CanFrame(timestamp.value * 1_000, 0, 0, identifier.value, 0, length.value, extended.value, NO_STATUS, Padded(data));
          if f.IsValid() then Read(f) else Refused
  }

  /** The frame a row stands for. */
  function FrameOf(r: Row): CanFrame
    requires r.identifier <= UINT32_MAXIMUM && |r.data| <= MAXIMUM_DATA_LENGTH
  {
    CanFrame(r.timestampMs * 1_000, 0, 0, r.identifier, 0, |r.data|, r.extended, NO_STATUS, Padded(r.data))
  }

  predicate ValidRow(r: Row) {
    r.timestampMs <= UINT32_MAXIMUM && r.identifier <= MaximumIdentifier(r.extended) && |r.data| <= MAXIMUM_DATA_LENGTH
  }

  /** The lines on which the replay reader writes past the end of the frame's data. */
  predicate Overruns(line: string) {
    var fields := SplitOn(line, ',');
    && |fields| == 5
    && Unsigned(fields[0], 10, UINT32_MAXIMUM).Some?
    && UnsignedIdentifier(fields[1]).Some?
    && BooleanText(fields[2]).Some?
    && IsNumber(fields[3], 10) && MAXIMUM_DATA_LENGTH < Value(fields[3], 10) <= 255
    && |fields[4]| == 2 * Value(fields[3], 10)
    && AllHex(fields[4][..2 * (MAXIMUM_DATA_LENGTH + 1)])
  }

  /** The fill leaves the array exactly on those lines, and the strict reader refuses every one of them. */
  lemma OverrunsExactly(line: string)
    ensures ReadFrame(line).Overrun? <==> Overruns(line)
    ensures Overruns(line) ==> ReadRow(line).None?
  {
    hide SplitOn;
    hide IsNumber;
    hide Value;
    hide AllHex;
    hide Padded;
    hide HexData;
    hide UnsignedIdentifier;
  }

  lemma {:induction false} FieldsOverrun(timestamp: string, identifier: string, extended: string, dlc: string, data: string)
    requires Plain(timestamp) && Plain(identifier) && Plain(extended) && Plain(dlc) && Plain(data)
    requires Unsigned(timestamp, 10, UINT32_MAXIMUM).Some? && UnsignedIdentifier(identifier).Some?
    requires BooleanText(extended).Some? && IsNumber(dlc, 10) && 8 < Value(dlc, 10) <= 255
    requires |data| == 2 * Value(dlc, 10) && AllHex(data[..18])
    ensures ReadFrame(timestamp + "," + identifier + "," + extended + "," + dlc + "," + data) == Overrun
  {
    FiveFields(timestamp, identifier, extended, dlc, data);
    hide SplitOn;
    hide Value;
    hide IsNumber;
    hide AllHex;
    hide Plain;
    hide HexData;
    hide UnsignedIdentifier;
    hide BooleanText;
  }

  const NINE_ZEROS: string := "000000000000000000"

  /** A row of nine zero bytes is such a line. */
  lemma {:induction false} NineBytesOverrun()
    ensures ReadFrame("0" + "," + "0x1" + "," + "0" + "," + "9" + "," + NINE_ZEROS) == Overrun
  {
    hide ReadFrame;
    hide SplitOn;
    hide Value;
    hide IsNumber;
    SingleDigit('0', 10);
    SingleDigit('1', 16);
    SingleDigit('9', 10);
    assert "0x1"[2..] == "1";
    assert Plain("0") && Plain("0x1") && Plain("9");
    assert Plain(NINE_ZEROS) && AllHex(NINE_ZEROS) && |NINE_ZEROS| == 18;
    assert NINE_ZEROS[..18] == NINE_ZEROS;
    hide Plain;
    hide AllHex;
    hide NINE_ZEROS;
    FieldsOverrun("0", "0x1", "0", "9", NINE_ZEROS);
  }

  /** An accented letter, which is no digit, in UTF-8. */
  const ACCENTED: string := "\U{C3}\U{A9}"

  lemma AccentedIsPlain()
    ensures Plain(NINE_ZEROS + ACCENTED) && |NINE_ZEROS + ACCENTED| == 20
    ensures (NINE_ZEROS + ACCENTED)[..18] == NINE_ZEROS && AllHex(NINE_ZEROS)
  {
    assert |NINE_ZEROS| == 18 && AllHex(NINE_ZEROS) && Plain(NINE_ZEROS) && Plain(ACCENTED);
    hide NINE_ZEROS;
    hide ACCENTED;
    assert (NINE_ZEROS + ACCENTED)[..18] == NINE_ZEROS;
  }

  lemma TenIsPlain()
    ensures Plain("10") && IsNumber("10", 10) && Value("10", 10) == 10
  {
    SingleDigit('1', 10);
    assert "10" == ['1'] + [DIGITS[0]];
    AnotherDigit(['1'], 0, 10);
  }

  /**
   * So is one whose length is counted right by two bytes of one letter: the
   * ninth pair is stored before they are found to be no digits.
   */
  lemma {:induction false} AccentedOverruns()
    ensures var line := "0" + "," + "0x1" + "," + "0" + "," + "10" + "," + (NINE_ZEROS + ACCENTED);
            ReadFrame(line) == Overrun && ReadRow(line) == None
  {
    hide ReadFrame;
    hide SplitOn;
    hide Value;
    hide IsNumber;
    hide NINE_ZEROS;
    hide ACCENTED;
    SingleDigit('0', 10);
    SingleDigit('1', 16);
    assert "0x1"[2..] == "1";
    assert Plain("0") && Plain("0x1");
    AccentedIsPlain();
    TenIsPlain();
    hide Plain;
    hide AllHex;
    hide ReadRow;
    hide Overruns;
    FieldsOverrun("0", "0x1", "0", "10", NINE_ZEROS + ACCENTED);
    OverrunsExactly("0" + "," + "0x1" + "," + "0" + "," + "10" + "," + (NINE_ZEROS + ACCENTED));
  }

  lemma SingleDigit(c: char, base: nat)
    requires IsBase(base) && DigitValue(c) < base
    ensures IsNumber([c], base) && Value([c], base) == DigitValue(c)
  {
    hide DigitValue;
    assert [c][..0] == "";
    assert Value("", base) == 0;
  }

  /** Both readers refuse, or both read the same frame. */
  predicate SameReading(row: Option<Row>, frame: Outcome<CanFrame>) {
    if row.Some? then ValidRow(row.value) && frame == Read(FrameOf(row.value)) else frame.Refused?
  }

  /** The two readers make the same of a line exactly when the fill stays inside the array. */
  lemma SameRow(line: string)
    ensures SameReading(ReadRow(line), ReadFrame(line)) <==> !Overruns(line)
  {
    OverrunsExactly(line);
    hide SplitOn;
    hide IsNumber;
    hide Value;
    hide AllHex;
    hide Padded;
    hide HexData;
    hide Overruns;
  }

  // ---------- whole texts ----------

  predicate Follows(rows: seq<Row>, r: Row) {
    if rows == [] then r.timestampMs == 0 else rows[|rows| - 1].timestampMs <= r.timestampMs
  }

  function ReadRows(lines: seq<string>, maximum: nat): Option<seq<Row>> {
    if lines == [] then Some([])
    else
      var rows, line := ReadRows(lines[..|lines| - 1], maximum), lines[|lines| - 1];
      if rows.None? then None
      else if line == "" then rows
      else if |rows.value| >= maximum || ReadRow(line).None? || !Follows(rows.value, ReadRow(line).value) then None
      else Some(rows.value + [ReadRow(line).value])
  }

  predicate FrameFollows(frames: seq<CanFrame>, f: CanFrame) {
    if frames == [] then f.timestampUs == 0 else frames[|frames| - 1].timestampUs <= f.timestampUs
  }

  function ReadFrames(lines: seq<string>, maximum: nat): Outcome<seq<CanFrame>> {
    if lines == [] then Read([])
    else
      var frames, line := ReadFrames(lines[..|lines| - 1], maximum), lines[|lines| - 1];
      if !frames.Read? || line == "" then frames
      else if |frames.value| >= maximum then Refused
      else
        match ReadFrame(line)
        case Overrun => Overrun
        case Refused => Refused
        case Read(f) => if FrameFollows(frames.value, f) then Read(frames.value + [f]) else Refused
  }

  predicate HeaderAccepted(line: string) {
    line == HEADER || line == BOM + HEADER
  }

  function ReadTrace(lines: seq<string>, maximum: nat): Option<seq<Row>> {
    if maximum == 0 || lines == [] || !HeaderAccepted(lines[0]) then None
    else
      var rows := ReadRows(lines[1..], maximum);
      if rows == Some([]) then None else rows
  }

  function ReadCanTrace(lines: seq<string>, maximum: nat): Outcome<seq<CanFrame>> {
    if maximum == 0 || lines == [] || !HeaderAccepted(lines[0]) then Refused
    else
      var frames := ReadFrames(lines[1..], maximum);
      if frames == Read([]) then Refused else frames
  }

  /** Line n overruns the array once all before it are read, with room for one more frame. */
  predicate OverrunsAt(lines: seq<string>, n: nat, maximum: nat)
    requires n < |lines|
  {
    && Overruns(lines[n])
    && ReadFrames(lines[..n], maximum).Read? && |ReadFrames(lines[..n], maximum).value| < maximum
  }

  lemma {:induction false} OverrunIsAt(lines: seq<string>, maximum: nat) returns (n: nat)
    requires ReadFrames(lines, maximum).Overrun?
    ensures n < |lines| && OverrunsAt(lines, n, maximum)
  {
    var last := |lines| - 1;
    OverrunsExactly(lines[last]);
    hide ReadFrame;
    hide Overruns;
    if ReadFrames(lines[..last], maximum).Overrun? {
      n := OverrunIsAt(lines[..last], maximum);
      assert lines[..last][..n] == lines[..n];
    } else {
      n := last;
    }
  }

  lemma {:induction false} OverrunStays(front: seq<string>, line: string, maximum: nat)
    requires var frames := ReadFrames(front, maximum);
             frames.Overrun? || (frames.Read? && |frames.value| < maximum && line != "" && ReadFrame(line).Overrun?)
    ensures ReadFrames(front + [line], maximum).Overrun?
  {
    hide ReadFrame;
    assert (front + [line])[..|front|] == front;
  }

  lemma {:induction false} AtIsOverrun(lines: seq<string>, n: nat, maximum: nat)
    requires n < |lines| && OverrunsAt(lines, n, maximum)
    ensures ReadFrames(lines, maximum).Overrun?
  {
    var front, line := lines[..|lines| - 1], lines[|lines| - 1];
    assert lines == front + [line];
    hide ReadFrames;
    hide ReadFrame;
    hide Overruns;
    if n == |front| {
      OverrunsExactly(line);
      OverrunIsLine(line);
    } else {
      assert front[..n] == lines[..n];
      AtIsOverrun(front, n, maximum);
    }
    OverrunStays(front, line, maximum);
  }

  lemma {:induction false} OverrunIsLine(line: string)
    requires Overruns(line)
    ensures line != ""
  {
    LastField("", ',');
  }

  /** The lines of a text overrun the array exactly when one that does is reached. */
  lemma {:induction false} TextOverrunsExactly(lines: seq<string>, maximum: nat)
    ensures ReadFrames(lines, maximum).Overrun? <==> exists n :: 0 <= n < |lines| && OverrunsAt(lines, n, maximum)
  {
    hide ReadFrames;
    hide OverrunsAt;
    if ReadFrames(lines, maximum).Overrun? {
      var n := OverrunIsAt(lines, maximum);
    }
    if n :| 0 <= n < |lines| && OverrunsAt(lines, n, maximum) {
      AtIsOverrun(lines, n, maximum);
    }
  }

  ghost predicate SameFrames(rows: seq<Row>, frames: seq<CanFrame>) {
    |rows| == |frames| && forall i :: 0 <= i < |rows| ==> ValidRow(rows[i]) && frames[i] == FrameOf(rows[i])
  }

  /** Both programs refuse, or both read the same frames. */
  ghost predicate SameTrace(rows: Option<seq<Row>>, frames: Outcome<seq<CanFrame>>) {
    if rows.Some? then frames.Read? && SameFrames(rows.value, frames.value) else frames.Refused?
  }

  lemma SameOrder(rows: seq<Row>, frames: seq<CanFrame>, r: Row)
    requires SameFrames(rows, frames) && ValidRow(r)
    ensures Follows(rows, r) <==> FrameFollows(frames, FrameOf(r))
    ensures SameFrames(rows + [r], frames + [FrameOf(r)])
  {
    hide Padded;
    hide ValidRow;
  }

  /** On the same lines the two readers read the same frames or both refuse, unless the array is overrun; then the strict one refuses. */
  lemma {:induction false} SameRows(lines: seq<string>, maximum: nat)
    ensures if ReadFrames(lines, maximum).Overrun? then ReadRows(lines, maximum).None?
            else SameTrace(ReadRows(lines, maximum), ReadFrames(lines, maximum))
  {
    if lines != [] {
      var front, line := lines[..|lines| - 1], lines[|lines| - 1];
      SameRows(front, maximum);
      SameRow(line);
      OverrunsExactly(line);
      hide ReadRow;
      hide ReadFrame;
      hide Overruns;
      if ReadRows(front, maximum).Some? && ReadRow(line).Some? {
        SameOrder(ReadRows(front, maximum).value, ReadFrames(front, maximum).value, ReadRow(line).value);
      }
      hide SameFrames;
      hide Follows;
      hide FrameFollows;
      hide FrameOf;
      hide ValidRow;
    }
  }

  // ---------- line endings ----------

  /** The first carriage return or newline, or the length. */
  function EndOfLine(s: string): (i: nat)
    ensures i <= |s| && (forall j :: 0 <= j < i ==> s[j] != '\n' && s[j] != '\r')
    ensures i < |s| ==> s[i] == '\n' || s[i] == '\r'
  {
    if s == "" || s[0] == '\n' || s[0] == '\r' then 0 else 1 + EndOfLine(s[1..])
  }

  /** Lines ended by a newline, a carriage return, or both. */
  function UniversalLines(text: string): seq<string>
    decreases |text|
  {
    if text == "" then []
    else
      var i := EndOfLine(text);
      if i == |text| then [text]
      else if text[i] == '\r' && i + 1 < |text| && text[i + 1] == '\n' then [text[..i]] + UniversalLines(text[i + 2..])
      else [text[..i]] + UniversalLines(text[i + 1..])
  }

  function Stripped(line: string): string {
    if line != "" && line[|line| - 1] == '\r' then line[..|line| - 1] else line
  }

  /** Lines ended by a newline, less one carriage return before it. */
  function StrippedLines(text: string): seq<string>
    decreases |text|
  {
    if text == "" then []
    else
      var j := IndexOf(text, '\n');
      if j == |text| then [Stripped(text)] else [Stripped(text[..j])] + StrippedLines(text[j + 1..])
  }

  /** Every carriage return is followed by a newline or ends the text. */
  predicate Settled(text: string) {
    forall i :: 0 <= i < |text| && text[i] == '\r' ==> i + 1 == |text| || text[i + 1] == '\n'
  }

  /** Free of carriage returns. */
  predicate Clean(lines: seq<string>) {
    forall i :: 0 <= i < |lines| ==> '\r' !in lines[i]
  }

  lemma {:induction false} UniversalStep(text: string, i: nat)
    requires text != "" && i == EndOfLine(text)
    ensures i == |text| ==> UniversalLines(text) == [text]
    ensures i < |text| && text[i] == '\n' ==> UniversalLines(text) == [text[..i]] + UniversalLines(text[i + 1..])
    ensures i + 1 < |text| && text[i] == '\r' && text[i + 1] == '\n' ==>
              UniversalLines(text) == [text[..i]] + UniversalLines(text[i + 2..])
    ensures i + 1 < |text| && text[i] == '\r' && text[i + 1] != '\n' ==>
              UniversalLines(text) == [text[..i]] + UniversalLines(text[i + 1..])
    ensures i + 1 == |text| ==> UniversalLines(text) == [text[..i]]
  {
    hide EndOfLine;
    if i + 1 == |text| {
      assert text[i + 1..] == "";
    }
  }

  lemma {:induction false} StrippedStep(text: string, j: nat)
    requires text != "" && j == IndexOf(text, '\n')
    ensures StrippedLines(text) == if j == |text| then [Stripped(text)] else [Stripped(text[..j])] + StrippedLines(text[j + 1..])
  {
    hide IndexOf;
    hide Stripped;
  }

  lemma {:induction false} SameLines(text: string)
    requires Settled(text)
    ensures UniversalLines(text) == StrippedLines(text)
    decreases |text|
  {
    if text == "" {
    } else {
      hide *;
      var i, j := EndOfLine(text), IndexOf(text, '\n');
      FirstEnding(text, i, j);
      UniversalStep(text, i);
      StrippedStep(text, j);
      if j < |text| {
        SettledRest(text, j + 1);
        SameLines(text[j + 1..]);
      } else {
        assert text[..j] == text;
      }
    }
  }

  lemma SettledRest(text: string, k: nat)
    requires Settled(text) && k <= |text|
    ensures Settled(text[k..])
  {
    var rest := text[k..];
    forall i | 0 <= i < |rest| && rest[i] == '\r'
      ensures i + 1 == |rest| || rest[i + 1] == '\n'
    {
      assert text[k + i] == '\r';
    }
  }

  /** With settled endings the first line ends at the first newline, or one before it at its carriage return. */
  lemma FirstEnding(text: string, i: nat, j: nat)
    requires text != "" && Settled(text) && i == EndOfLine(text) && j == IndexOf(text, '\n')
    ensures i == j || (i + 1 == j && text[i] == '\r')
    ensures Stripped(text[..j]) == text[..i]
  {
    hide EndOfLine;
    hide IndexOf;
    NoNewlineBefore(text, j);
    if i < |text| && text[i] == '\r' {
      assert i + 1 == |text| || text[i + 1] == '\n';
      assert i < j ==> text[..j][i] == text[i];
    }
    if 0 < j && text[j - 1] == '\r' {
      assert i <= j - 1;
    }
  }

  lemma NoNewlineBefore(text: string, j: nat)
    requires j == IndexOf(text, '\n')
    ensures forall k :: 0 <= k < j ==> text[k] != '\n'
  {
    hide IndexOf;
    forall k | 0 <= k < j
      ensures text[k] != '\n'
    {
      assert text[..j][k] == text[k];
    }
  }

  lemma {:induction false} CleanMore(line: string, lines: seq<string>)
    ensures Clean([line] + lines) <==> '\r' !in line && Clean(lines)
  {
    var more := [line] + lines;
    assert more[0] == line && forall i :: 0 <= i < |lines| ==> more[i + 1] == lines[i];
  }

  lemma {:induction false} UniversalIsClean(text: string)
    ensures Clean(UniversalLines(text))
    decreases |text|
  {
    if text != "" {
      var i := EndOfLine(text);
      assert '\r' !in text[..i];
      UniversalStep(text, i);
      hide EndOfLine;
      hide UniversalLines;
      hide Clean;
      CleanMore(text[..i], []);
      assert Clean([]) by {
        UniversalNone();
      }
      assert [text[..i]] + [] == [text[..i]];
      if i + 1 < |text| {
        if text[i] == '\r' && text[i + 1] == '\n' {
          UniversalIsClean(text[i + 2..]);
          CleanMore(text[..i], UniversalLines(text[i + 2..]));
        } else {
          UniversalIsClean(text[i + 1..]);
          CleanMore(text[..i], UniversalLines(text[i + 1..]));
        }
      } else if i == |text| {
        assert text[..i] == text;
      }
    }
  }

  lemma UniversalNone()
    ensures Clean([]) && UniversalLines("") == []
  {
  }

  /** A stripped line is clean exactly when its only carriage return is the last character. */
  lemma {:induction false} StrippedIsClean(line: string)
    requires '\r' !in Stripped(line)
    ensures forall i :: 0 <= i < |line| - 1 ==> line[i] != '\r'
  {
    forall i | 0 <= i < |line| - 1
      ensures line[i] != '\r'
    {
      assert Stripped(line)[i] == line[i];
    }
  }

  lemma {:induction false} CleanIsSettled(text: string)
    requires Clean(StrippedLines(text))
    ensures Settled(text)
    decreases |text|
  {
    if text != "" {
      var j := IndexOf(text, '\n');
      StrippedStep(text, j);
      hide *;
      if j < |text| {
        CleanMore(Stripped(text[..j]), StrippedLines(text[j + 1..]));
        CleanIsSettled(text[j + 1..]);
      } else {
        CleanMore(Stripped(text), []);
        assert [Stripped(text)] + [] == [Stripped(text)] && text[..j] == text;
      }
      StrippedIsClean(text[..j]);
      SettledMore(text, j);
    }
  }

  lemma {:induction false} SettledMore(text: string, j: nat)
    requires j <= |text| && forall i :: 0 <= i < j - 1 ==> text[..j][i] != '\r'
    requires j < |text| ==> text[j] == '\n' && Settled(text[j + 1..])
    ensures Settled(text)
  {
    forall i | 0 <= i < |text| && text[i] == '\r'
      ensures i + 1 == |text| || text[i + 1] == '\n'
    {
      if i < j {
        assert text[..j][i] == '\r';
      } else {
        assert text[j + 1..][i - j - 1] == '\r';
      }
    }
  }

  /** The two programs cut a text into the same lines exactly when every carriage return is followed by a newline or is last. */
  lemma {:induction false} SameLinesExactly(text: string)
    ensures UniversalLines(text) == StrippedLines(text) <==> Settled(text)
  {
    hide UniversalLines;
    hide StrippedLines;
    hide Settled;
    if Settled(text) {
      SameLines(text);
    } else if UniversalLines(text) == StrippedLines(text) {
      UniversalIsClean(text);
      CleanIsSettled(text);
    }
  }

  // ---------- writing, and reading back ----------

  function RowText(r: Row): string {
    Printed(r.timestampMs, 10) + "," + ("0x" + Printed(r.identifier, 16)) + "," + (if r.extended then "1" else "0") + ","
    + Printed(|r.data|, 10) + "," + DataText(r.data)
  }

  function RowsText(rows: seq<Row>): string {
    if rows == [] then "" else RowText(rows[0]) + "\n" + RowsText(rows[1..])
  }

  function TraceText(rows: seq<Row>): string {
    HEADER + "\n" + RowsText(rows)
  }

  /** Free of separators and line ends. */
  predicate Plain(s: string) {
    ',' !in s && '\n' !in s && '\r' !in s
  }

  lemma NumberIsPlain(n: nat, base: nat)
    requires IsBase(base)
    ensures Plain(Printed(n, base))
  {
    PrintedPlain(n, base);
  }

  lemma ByteIsPlain(b: byte)
    ensures Plain(ByteText(b))
  {
    DigitOf(((b >> 4) & 0xF) as int % 16);
    DigitOf((b & 0xF) as int % 16);
    hide DigitValue;
  }

  lemma {:induction false} DataIsPlain(data: seq<byte>)
    ensures Plain(DataText(data))
  {
    hide ByteText;
    if data != [] {
      DataIsPlain(data[..|data| - 1]);
      ByteIsPlain(data[|data| - 1]);
    }
  }

  lemma FiveFields(a: string, b: string, c: string, d: string, e: string)
    requires Plain(a) && Plain(b) && Plain(c) && Plain(d) && Plain(e)
    ensures SplitOn(a + "," + b + "," + c + "," + d + "," + e, ',') == [a, b, c, d, e]
    ensures var line := a + "," + b + "," + c + "," + d + "," + e; '\n' !in line && '\r' !in line && line != ""
  {
    hide SplitOn;
    LastField(e, ',');
    FirstField(d, ',', e);
    FirstField(c, ',', d + "," + e);
    FirstField(b, ',', c + "," + (d + "," + e));
    FirstField(a, ',', b + "," + (c + "," + (d + "," + e)));
    assert a + "," + b + "," + c + "," + d + "," + e == a + "," + (b + "," + (c + "," + (d + "," + e)));
  }

  lemma RowFields(r: Row)
    ensures var b := "0x" + Printed(r.identifier, 16);
            SplitOn(RowText(r), ',')
            == [Printed(r.timestampMs, 10), b, if r.extended then "1" else "0", Printed(|r.data|, 10), DataText(r.data)]
    ensures '\n' !in RowText(r) && '\r' !in RowText(r) && RowText(r) != ""
  {
    NumberIsPlain(r.timestampMs, 10);
    NumberIsPlain(r.identifier, 16);
    NumberIsPlain(|r.data|, 10);
    DataIsPlain(r.data);
    hide SplitOn;
    hide Printed;
    hide DataText;
    FiveFields(Printed(r.timestampMs, 10), "0x" + Printed(r.identifier, 16), if r.extended then "1" else "0",
               Printed(|r.data|, 10), DataText(r.data));
  }

  lemma IdentifierRoundTrip(n: nat)
    ensures IdentifierText("0x" + Printed(n, 16)) && Value(("0x" + Printed(n, 16))[2..], 16) == n
  {
    ValueOfPrinted(n, 16);
    hide Printed;
    hide Value;
    hide IsNumber;
    assert ("0x" + Printed(n, 16))[2..] == Printed(n, 16);
  }

  lemma FieldsRead(timestamp: string, identifier: string, extended: string, dlc: string, data: string, r: Row)
    requires ValidRow(r)
    requires IsNumber(timestamp, 10) && Value(timestamp, 10) == r.timestampMs
    requires IdentifierText(identifier) && Value(identifier[2..], 16) == r.identifier
    requires BooleanText(extended) == Some(r.extended)
    requires IsNumber(dlc, 10) && Value(dlc, 10) == |r.data|
    requires |data| == 2 * |r.data| && AllHex(data) && HexData(data) == r.data
    ensures ReadFields(timestamp, identifier, extended, dlc, data) == Some(r)
  {
    hide Value;
    hide IsNumber;
    hide IdentifierText;
    hide BooleanText;
    hide HexData;
    hide AllHex;
  }

  lemma BooleanRoundTrip(b: bool)
    ensures BooleanText(if b then "1" else "0") == Some(b)
  {
  }

  lemma FieldsRoundTrip(r: Row)
    requires ValidRow(r)
    ensures ReadFields(Printed(r.timestampMs, 10), "0x" + Printed(r.identifier, 16), if r.extended then "1" else "0",
                       Printed(|r.data|, 10), DataText(r.data)) == Some(r)
  {
    hide ReadFields;
    hide ValidRow;
    hide Printed;
    hide Value;
    hide IsNumber;
    hide DataText;
    hide HexData;
    hide AllHex;
    hide IdentifierText;
    hide BooleanText;
    ValueOfPrinted(r.timestampMs, 10);
    IdentifierRoundTrip(r.identifier);
    BooleanRoundTrip(r.extended);
    ValueOfPrinted(|r.data|, 10);
    DataRoundTrip(r.data);
    FieldsRead(Printed(r.timestampMs, 10), "0x" + Printed(r.identifier, 16), if r.extended then "1" else "0",
               Printed(|r.data|, 10), DataText(r.data), r);
  }

  /** Reading a written row returns it. */
  lemma RowRoundTrip(r: Row)
    requires ValidRow(r)
    ensures ReadRow(RowText(r)) == Some(r)
  {
    RowFields(r);
    FieldsRoundTrip(r);
    hide SplitOn;
    hide RowText;
    hide ReadFields;
    hide Printed;
    hide DataText;
  }

  function RowTexts(rows: seq<Row>): seq<string> {
    seq(|rows|, i requires 0 <= i < |rows| => RowText(rows[i]))
  }

  lemma EndOfLineAt(a: string, rest: string)
    requires '\n' !in a && '\r' !in a
    ensures EndOfLine(a + "\n" + rest) == |a|
  {
    hide EndOfLine;
    var text := a + "\n" + rest;
    var i := EndOfLine(text);
    assert text[|a|] == '\n' && forall k :: 0 <= k < |a| ==> text[k] == a[k];
  }

  lemma FirstUniversalLine(a: string, rest: string)
    requires '\n' !in a && '\r' !in a
    ensures UniversalLines(a + "\n" + rest) == [a] + UniversalLines(rest)
  {
    EndOfLineAt(a, rest);
    hide EndOfLine;
    var text := a + "\n" + rest;
    assert text[..|a|] == a && text[|a| + 1..] == rest;
  }

  lemma {:induction false} RowsLines(rows: seq<Row>)
    ensures UniversalLines(RowsText(rows)) == RowTexts(rows)
  {
    hide RowText;
    if rows != [] {
      RowFields(rows[0]);
      FirstUniversalLine(RowText(rows[0]), RowsText(rows[1..]));
      hide UniversalLines;
      RowsLines(rows[1..]);
      assert RowTexts(rows) == [RowText(rows[0])] + RowTexts(rows[1..]);
    }
  }

  ghost predicate ZeroBased(rows: seq<Row>) {
    && (forall i :: 0 <= i < |rows| ==> ValidRow(rows[i]))
    && (rows != [] ==> rows[0].timestampMs == 0)
    && forall i :: 0 < i < |rows| ==> rows[i - 1].timestampMs <= rows[i].timestampMs
  }

  lemma {:induction false} RowsRoundTrip(rows: seq<Row>, maximum: nat)
    requires ZeroBased(rows) && |rows| <= maximum
    ensures ReadRows(RowTexts(rows), maximum) == Some(rows)
  {
    hide RowText;
    hide ReadRow;
    hide ValidRow;
    if rows != [] {
      var front, r := rows[..|rows| - 1], rows[|rows| - 1];
      RowsRoundTrip(front, maximum);
      RowFields(r);
      assert ValidRow(r);
      RowRoundTrip(r);
      assert RowTexts(rows)[..|front|] == RowTexts(front);
      assert front + [r] == rows;
    }
  }

  /** Reading a written trace returns it, for every non-empty, valid, zero-based trace in order. */
  lemma TraceRoundTrip(rows: seq<Row>, maximum: nat)
    requires ZeroBased(rows) && rows != [] && |rows| <= maximum
    ensures ReadTrace(UniversalLines(TraceText(rows)), maximum) == Some(rows)
  {
    hide ReadRows;
    hide RowsText;
    hide RowTexts;
    hide ZeroBased;
    HeaderIsPlain();
    FirstUniversalLine(HEADER, RowsText(rows));
    RowsLines(rows);
    RowsRoundTrip(rows, maximum);
    hide UniversalLines;
    var lines := UniversalLines(TraceText(rows));
    assert lines[0] == HEADER && lines[1..] == RowTexts(rows);
  }

  lemma HeaderIsPlain()
    ensures '\n' !in HEADER && '\r' !in HEADER
  {
    assert '\n' !in "timestamp_ms," && '\r' !in "timestamp_ms,";
    assert '\n' !in "identifier," && '\r' !in "identifier,";
    assert '\n' !in "extended," && '\r' !in "extended,";
    assert '\n' !in "data_hex" && '\r' !in "data_hex";
  }
}
