/** The two readers of the canonical trace as the loops they are. */
module CanonicalTraceReaders {
  import opened Bytes
  import opened CanFrames
  import opened CanonicalTrace
  import opened Options
  import opened Text

  // ---------- the strict reader ----------

  method ParseCanonicalTrace(lines: seq<string>, maximumFrames: nat) returns (trace: Option<seq<Row>>)
    ensures trace == ReadTrace(lines, maximumFrames)
  {
    hide ReadRow;
    hide HeaderAccepted;
    if maximumFrames == 0 || lines == [] || !HeaderAccepted(lines[0]) {
      return None;
    }
    var frames: seq<Row> := [];
    ghost var body := lines[1..];
    for n := 0 to |lines| - 1
      invariant ReadRows(body[..n], maximumFrames) == Some(frames)
    {
      ReadRowsPrefix(body, n, maximumFrames);
      var line := lines[n + 1];
      if line == "" {
        continue;
      }
      if |frames| >= maximumFrames {
        ReadRowsStay(body, n + 1, maximumFrames);
        return None;
      }
      var row := ReadRow(line);
      if row.None? || !Follows(frames, row.value) {
        ReadRowsStay(body, n + 1, maximumFrames);
        return None;
      }
      frames := frames + [row.value];
    }
    assert body[..|body|] == body;
    return if frames == [] then None else Some(frames);
  }

  lemma {:induction false} ReadRowsPrefix(lines: seq<string>, n: nat, maximum: nat)
    requires n < |lines|
    ensures lines[..n + 1][..n] == lines[..n] && lines[..n + 1][n] == lines[n]
  {
  }

  /** Once a prefix is refused the whole is. */
  lemma {:induction false} ReadRowsStay(lines: seq<string>, n: nat, maximum: nat)
    requires n <= |lines| && ReadRows(lines[..n], maximum) == None
    ensures ReadRows(lines, maximum) == None
    decreases |lines| - n
  {
    hide ReadRow;
    if n < |lines| {
      ReadRowsPrefix(lines, n, maximum);
      ReadRowsStay(lines, n + 1, maximum);
    } else {
      assert lines[..n] == lines;
    }
  }

  // ---------- the replay reader ----------

  /** Cuts a line at its first four separators and refuses a fifth. */
  method SplitFields(line: string) returns (fields: Option<seq<string>>)
    ensures fields == if |SplitOn(line, ',')| == 5 then Some(SplitOn(line, ',')) else None
  {
    var start, found := 0, [];
    for index := 0 to 4
      invariant 0 <= start <= |line| && |found| == index
      invariant SplitOn(line, ',') == found + SplitOn(line[start..], ',')
    {
      var separator := IndexOf(line[start..], ',');
      if separator == |line| - start {
        return None;
      }
      ghost var field, rest := line[start..start + separator], SplitOn(line[start + separator + 1..], ',');
      assert line[start..][separator + 1..] == line[start + separator + 1..];
      assert line[start..][..separator] == field;
      assert SplitOn(line[start..], ',') == [field] + rest;
      assert found + ([field] + rest) == (found + [field]) + rest;
      found := found + [line[start..start + separator]];
      start := start + separator + 1;
    }
    if IndexOf(line[start..], ',') != |line| - start {
      assert |SplitOn(line[start..], ',')| >= 2;
      return None;
    }
    return Some(found + [line[start..]]);
  }

  /**
   * Fills the data two digits to a byte, until one of them is no digit. Nothing
   * holds the index inside the array; here the loop stops where it would leave.
   */
  method ParseData(text: string, dataLength: nat, data: array<byte>) returns (outcome: Outcome<()>)
    requires data.Length == MAXIMUM_DATA_LENGTH
    modifies data
    ensures outcome.Overrun? <==> ReadData(text, dataLength).Overrun?
    ensures outcome.Read? <==> ReadData(text, dataLength).Read?
    ensures outcome.Read? ==> data[..] == ReadData(text, dataLength).value + old(data[dataLength..])
  {
    hide HexByte;
    hide DigitValue;
    hide HexData;
    hide AllHex;
    if |text| != 2 * dataLength {
      return Refused;
    }
    FilledNone(text);
    assert data[..0] == [];
    for index := 0 to dataLength
      invariant index <= data.Length && Filled(text, index, data[..index])
      invariant forall k :: index <= k < data.Length ==> data[k] == old(data[k])
    {
      var high, low := text[2 * index], text[2 * index + 1];
      if DigitValue(high) >= 16 || DigitValue(low) >= 16 {
        NoDigit(text, 2 * index, dataLength);
        return Refused;
      }
      FilledMore(text, index, data[..index]);
      if index >= data.Length {
        return Overrun;
      }
      ghost var before := data[..];
      data[index] := HexByte(high, low);
      assert data[..index + 1] == before[..index] + [HexByte(high, low)];
    }
    FilledAll(text, dataLength, data[..dataLength]);
    assert data[..] == data[..dataLength] + data[dataLength..] && data[dataLength..] == old(data[dataLength..]);
    return Read(());
  }

  /** So many pairs of digits have been read into bytes. */
  predicate Filled(text: string, pairs: nat, bytes: seq<byte>) {
    2 * pairs <= |text| && AllHex(text[..2 * pairs]) && HexData(text[..2 * pairs]) == bytes
  }

  lemma FilledNone(text: string)
    ensures Filled(text, 0, [])
  {
    assert text[..0] == "";
  }

  lemma {:induction false} FilledMore(text: string, pairs: nat, bytes: seq<byte>)
    requires Filled(text, pairs, bytes) && 2 * pairs + 1 < |text|
    requires DigitValue(text[2 * pairs]) < 16 && DigitValue(text[2 * pairs + 1]) < 16
    ensures Filled(text, pairs + 1, bytes + [HexByte(text[2 * pairs], text[2 * pairs + 1])])
  {
    var before, pair, after := text[..2 * pairs], [text[2 * pairs], text[2 * pairs + 1]], text[..2 * (pairs + 1)];
    assert AllHex(pair);
    assert |before| % 2 == 0 && after == before + pair;
    hide HexByte;
    hide DigitValue;
    hide HexData;
    hide AllHex;
    HexDataGrows(before, pair);
  }

  lemma {:induction false} FilledAll(text: string, dataLength: nat, bytes: seq<byte>)
    requires |text| == 2 * dataLength && dataLength <= MAXIMUM_DATA_LENGTH && Filled(text, dataLength, bytes)
    ensures ReadData(text, dataLength) == Read(bytes)
  {
    hide AllHex;
    hide HexData;
    assert text[..2 * dataLength] == text;
  }

  /** A character that is no digit, and not beyond the ninth pair, stops the fill. */
  lemma {:induction false} NoDigit(text: string, k: nat, dataLength: nat)
    requires k + 1 < |text| == 2 * dataLength && k <= 2 * MAXIMUM_DATA_LENGTH
    requires DigitValue(text[k]) >= 16 || DigitValue(text[k + 1]) >= 16
    ensures ReadData(text, dataLength) == Refused
  {
    hide DigitValue;
    hide HexData;
    var bad := if DigitValue(text[k]) >= 16 then k else k + 1;
    if dataLength > MAXIMUM_DATA_LENGTH {
      assert text[..2 * (MAXIMUM_DATA_LENGTH + 1)][bad] == text[bad];
    }
  }

  method ParseFrame(line: string) returns (frame: Outcome<CanFrame>)
    ensures frame == ReadFrame(line)
  {
    hide SplitOn;
    hide Unsigned;
    hide HexData;
    hide AllHex;
    hide Value;
    hide IsNumber;
    var split := SplitFields(line);
    if split.None? {
      return Refused;
    }
    var fields := split.value;
    var timestamp := Unsigned(fields[0], 10, UINT32_MAXIMUM);
    if timestamp.None? {
      return Refused;
    }
    if |fields[1]| <= 2 || fields[1][0] != '0' || (fields[1][1] != 'x' && fields[1][1] != 'X') {
      return Refused;
    }
    var identifier := Unsigned(fields[1][2..], 16, UINT32_MAXIMUM);
    if identifier.None? {
      return Refused;
    }
    var extended := BooleanText(fields[2]);
    if extended.None? {
      return Refused;
    }
    var dataLength := Unsigned(fields[3], 10, 255);
    if dataLength.None? {
      return Refused;
    }
    var data := new byte[MAXIMUM_DATA_LENGTH](_ => 0);
    var filled := ParseData(fields[4], dataLength.value, data);
    if filled.Overrun? {
      return Overrun;
    }
    if filled.Refused? {
      return Refused;
    }
    assert data[..] == Padded(ReadData(fields[4], dataLength.value).value);
    var f := CanFrame(timestamp.value * 1_000, 0, 0, identifier.value, 0, dataLength.value, extended.value, NO_STATUS, data[..]);
    return if f.IsValid() then Read(f) else Refused;
  }

  method ParseCanonicalCanTrace(lines: seq<string>, maximumFrames: nat) returns (trace: Outcome<seq<CanFrame>>)
    ensures trace == ReadCanTrace(lines, maximumFrames)
  {
    hide ReadFrame;
    hide HeaderAccepted;
    if maximumFrames == 0 || lines == [] || !HeaderAccepted(lines[0]) {
      return Refused;
    }
    var parsedFrames: seq<CanFrame> := [];
    ghost var body := lines[1..];
    for n := 0 to |lines| - 1
      invariant ReadFrames(body[..n], maximumFrames) == Read(parsedFrames)
    {
      ReadRowsPrefix(body, n, maximumFrames);
      var line := lines[n + 1];
      if line == "" {
        continue;
      }
      if |parsedFrames| >= maximumFrames {
        ReadFramesStay(body, n + 1, maximumFrames);
        return Refused;
      }
      var frame := ParseFrame(line);
      if !frame.Read? {
        ReadFramesStay(body, n + 1, maximumFrames);
        return if frame.Overrun? then Overrun else Refused;
      }
      if !FrameFollows(parsedFrames, frame.value) {
        ReadFramesStay(body, n + 1, maximumFrames);
        return Refused;
      }
      parsedFrames := parsedFrames + [frame.value];
    }
    assert body[..|body|] == body;
    return if parsedFrames == [] then Refused else Read(parsedFrames);
  }

  /** A prefix that is not read through decides the outcome. */
  lemma {:induction false} ReadFramesStay(lines: seq<string>, n: nat, maximum: nat)
    requires n <= |lines| && !ReadFrames(lines[..n], maximum).Read?
    ensures ReadFrames(lines, maximum) == ReadFrames(lines[..n], maximum)
    decreases |lines| - n
  {
    hide ReadFrame;
    if n < |lines| {
      ReadRowsPrefix(lines, n, maximum);
      ReadFramesStay(lines, n + 1, maximum);
    } else {
      assert lines[..n] == lines;
    }
  }
}
