/** The settings file: its writer, its parser, and the round trip between them. */
module SettingsFile {
  import opened Options
  import opened Text
  import opened UserSettings

  const UINT32_MAXIMUM: nat := 0xFFFF_FFFF
  const MINUTE: nat := 60_000
  const SECOND: nat := 1_000

  /** The keys, in the order they are written. */
  const KEYS: seq<string> := [
    "remote_start_enabled", "hood_monitoring", "remote_run_minutes", "driver_entry_mode", "takeover_timeout_seconds",
    "lock_press_count", "lock_minimum_gap_ms", "lock_maximum_gap_ms", "lock_sequence_window_ms",
    "cold_engine_maximum_rpm", "engine_warm_temperature_c", "transmission_overheat_temperature_c",
    "temperature_alert_hysteresis_c",
    "feature.cold_engine_guard", "feature.dpf_regeneration_indicator", "feature.transmission_overheat_alert"]

  const KEY_COUNT: nat := 16

  // ---------- one setting ----------

  function BooleanValue(text: string): Option<bool> {
    if text == "true" then Some(true) else if text == "false" then Some(false) else None
  }

  function NumberValue(text: string): Option<nat> {
    if IsNumber(text, 10) && Value(text, 10) <= UINT32_MAXIMUM then Some(Value(text, 10)) else None
  }

  /** A duration in milliseconds, from a whole number of longer units. */
  function ScaledValue(text: string, scale: nat): (r: Option<nat>)
    requires scale == MINUTE || scale == SECOND
    ensures r.Some? ==> r.value <= UINT32_MAXIMUM && r.value % scale == 0
  {
    match NumberValue(text)
    case None => None
    case Some(v) => if v > UINT32_MAXIMUM / scale then None else Some(v * scale)
  }

  const FEATURE_BITS: seq<bv64> := [1, 2, 4]

  function WithFeature(mask: bv64, feature: nat, enabled: bool): bv64
    requires feature < 3
  {
    if enabled then mask | FEATURE_BITS[feature] else mask & !FEATURE_BITS[feature]
  }

  function ApplyNumber(key: nat, n: nat, s: UserSettings): Option<UserSettings>
    requires 5 <= key < 13 && n <= UINT32_MAXIMUM
  {
    if key == 5 then if n > 255 then None else Some(s.(lockPressCount := n as bv8))
    else if key == 6 then Some(s.(lockMinimumGapMs := n as bv32))
    else if key == 7 then Some(s.(lockMaximumGapMs := n as bv32))
    else if key == 8 then Some(s.(lockMaximumSequenceMs := n as bv32))
    else if n > 0xFFFF then None
    else if key == 9 then Some(s.(coldEngineMaximumRpm := n as bv16))
    else if key == 10 then Some(s.(engineWarmTemperatureC := n as bv16))
    else if key == 11 then Some(s.(transmissionOverheatTemperatureC := n as bv16))
    else Some(s.(temperatureAlertHysteresisC := n as bv16))
  }

  /** The settings with the value of one key replaced, if the value is understood. */
  function Apply(key: nat, text: string, s: UserSettings): Option<UserSettings>
    requires key < KEY_COUNT
  {
    if key == 0 then
      match BooleanValue(text) case None => None case Some(b) => Some(s.(remoteStartEnabled := b))
    else if key == 1 then
      if text == "required" then Some(s.(hoodMonitoring := REQUIRED_HOOD))
      else if text == "disabled" || text == "optional" then Some(s.(hoodMonitoring := DISABLED_HOOD))
      else None
    else if key == 2 then
      match ScaledValue(text, MINUTE) case None => None case Some(v) => Some(s.(maximumRemoteRunTimeMs := v as bv32))
    else if key == 3 then
      if text == "require_takeover" || text == "require-takeover" then Some(s.(driverEntryMode := REQUIRE_TAKEOVER))
      else if text == "stop_immediately" || text == "stop-immediately" then Some(s.(driverEntryMode := STOP_IMMEDIATELY))
      else None
    else if key == 4 then
      match ScaledValue(text, SECOND) case None => None case Some(v) => Some(s.(driverTakeoverTimeoutMs := v as bv32))
    else if key < 13 then
      match NumberValue(text) case None => None case Some(n) => ApplyNumber(key, n, s)
    else
      match BooleanValue(text) case None => None case Some(b) => Some(s.(features := WithFeature(s.features, key - 13, b)))
  }

  // ---------- one line ----------

  predicate Space(c: char) {
    c == ' ' || c == '\t' || c == '\n' || c == '\r' || c == 0x0B as char || c == 0x0C as char
  }

  function TrimFront(s: string): (r: string)
    ensures |r| <= |s|
  {
    if s != "" && Space(s[0]) then TrimFront(s[1..]) else s
  }

  function TrimBack(s: string): (r: string)
    ensures |r| <= |s|
  {
    if s != "" && Space(s[|s| - 1]) then TrimBack(s[..|s| - 1]) else s
  }

  function Trim(s: string): string {
    TrimBack(TrimFront(s))
  }

  /** The first key with a name, if any. */
  function KeyNamed(name: string, from: nat): (k: Option<nat>)
    requires from <= KEY_COUNT
    ensures k.Some? ==> k.value < KEY_COUNT && KEYS[k.value] == name
    decreases KEY_COUNT - from
  {
    if from == KEY_COUNT then None else if KEYS[from] == name then Some(from) else KeyNamed(name, from + 1)
  }

  datatype Parsing = Parsing(settings: UserSettings, keys: seq<string>)

  const NOTHING_PARSED := Parsing(DEFAULT_SETTINGS, [])

  function ParseContent(content: string, p: Parsing): Option<Parsing> {
    var separator := IndexOf(content, '=');
    if separator == |content| || '=' in content[separator + 1..] then None
    else
      var key, value := Trim(content[..separator]), Trim(content[separator + 1..]);
      if key == "" || value == "" || KeyNamed(key, 0).None? || key in p.keys then None
      else
        match Apply(KeyNamed(key, 0).value, value, p.settings)
        case None => None
        case Some(s) => Some(Parsing(s, p.keys + [key]))
  }

  function ParseLine(line: string, p: Parsing): Option<Parsing> {
    var content := Trim(line[..IndexOf(line, '#')]);
    if content == "" then Some(p) else ParseContent(content, p)
  }

  function ParseLines(lines: seq<string>): Option<Parsing> {
    if lines == [] then Some(NOTHING_PARSED)
    else
      match ParseLines(lines[..|lines| - 1])
      case None => None
      case Some(p) => ParseLine(lines[|lines| - 1], p)
  }

  /** The settings of a file, unless a line is wrong or the result is out of bounds. */
  function ParseSettings(lines: seq<string>): Option<UserSettings> {
    match ParseLines(lines)
    case None => None
    case Some(p) => if Valid(p.settings) then Some(p.settings) else None
  }

  /** The settings of a text. */
  function ParseText(text: string): Option<UserSettings> {
    ParseSettings(Lines(text))
  }

  method ParseUserSettings(lines: seq<string>) returns (settings: Option<UserSettings>)
    ensures settings == ParseSettings(lines)
  {
    hide Valid;
    hide ParseContent;
    var parsed := NOTHING_PARSED;
    for n := 0 to |lines|
      invariant ParseLines(lines[..n]) == Some(parsed)
    {
      assert lines[..n + 1][..n] == lines[..n];
      var content := Trim(lines[n][..IndexOf(lines[n], '#')]);
      if content == "" {
        continue;
      }
      var next := ParseContent(content, parsed);
      if next.None? {
        RefusedPrefix(lines, n + 1);
        return None;
      }
      parsed := next.value;
    }
    assert lines[..|lines|] == lines;
    return if Valid(parsed.settings) then Some(parsed.settings) else None;
  }

  lemma {:induction false} RefusedPrefix(lines: seq<string>, n: nat)
    requires n <= |lines| && ParseLines(lines[..n]) == None
    ensures ParseLines(lines) == None
    decreases |lines| - n
  {
    if n < |lines| {
      assert lines[..n + 1][..n] == lines[..n];
      RefusedPrefix(lines, n + 1);
    } else {
      assert lines[..n] == lines;
    }
  }

  // ---------- writing ----------

  predicate WholeUnits(s: UserSettings) {
    s.maximumRemoteRunTimeMs as int % MINUTE == 0 && s.driverTakeoverTimeoutMs as int % SECOND == 0
  }

  predicate Writable(s: UserSettings) {
    Valid(s) && WholeUnits(s)
  }

  function BooleanText(b: bool): string {
    if b then "true" else "false"
  }

  function ValueText(key: nat, s: UserSettings): string
    requires key < KEY_COUNT
  {
    if key == 0 then BooleanText(s.remoteStartEnabled)
    else if key == 1 then if s.hoodMonitoring == REQUIRED_HOOD then "required" else "disabled"
    else if key == 2 then Printed(s.maximumRemoteRunTimeMs as int / MINUTE, 10)
    else if key == 3 then if s.driverEntryMode == REQUIRE_TAKEOVER then "require_takeover" else "stop_immediately"
    else if key == 4 then Printed(s.driverTakeoverTimeoutMs as int / SECOND, 10)
    else if key == 5 then Printed(s.lockPressCount as int, 10)
    else if key == 6 then Printed(s.lockMinimumGapMs as int, 10)
    else if key == 7 then Printed(s.lockMaximumGapMs as int, 10)
    else if key == 8 then Printed(s.lockMaximumSequenceMs as int, 10)
    else if key == 9 then Printed(s.coldEngineMaximumRpm as int, 10)
    else if key == 10 then Printed(s.engineWarmTemperatureC as int, 10)
    else if key == 11 then Printed(s.transmissionOverheatTemperatureC as int, 10)
    else if key == 12 then Printed(s.temperatureAlertHysteresisC as int, 10)
    else BooleanText(s.features & FEATURE_BITS[key - 13] != 0)
  }

  function EntryLine(key: nat, s: UserSettings): string
    requires key < KEY_COUNT
  {
    KEYS[key] + "=" + ValueText(key, s)
  }

  const TITLE: string := " BMW E9x Remote Control" + " - configuration" + " utilisateur"
  const ORIGIN: string := " Generee par le" + " configurateur ;" + " les valeurs" + " invalides" + " sont refusees."
  const THRESHOLDS: string := " Seuils de telemetrie" + " en lecture seule."
  const FEATURES: string := " Fonctionnalites" + " modulaires ;" + " toutes sont" + " desactivees" + " par defaut."

  /** Lines that carry no setting, before the entry with this number. */
  function Heading(key: nat): seq<string> {
    if key == 0 then ["#" + TITLE, "#" + ORIGIN, ""]
    else if key == 9 then ["", "#" + THRESHOLDS]
    else if key == 13 then ["", "#" + FEATURES]
    else []
  }

  /** The lines up to the entry with this number. */
  function EntryLines(s: UserSettings, count: nat): seq<string>
    requires count <= KEY_COUNT
  {
    if count == 0 then [] else EntryLines(s, count - 1) + Heading(count - 1) + [EntryLine(count - 1, s)]
  }

  /** The text of a file, each line ended by a newline. */
  function Written(s: UserSettings): Option<string> {
    if Writable(s) then Some(Joined(EntryLines(s, KEY_COUNT))) else None
  }

  // ---------- words and keys ----------

  /** Neither a space nor a character with a meaning in the file. */
  predicate WordChar(c: char) {
    !Space(c) && c != '#' && c != '='
  }

  predicate Word(s: string) {
    s != "" && forall i :: 0 <= i < |s| ==> WordChar(s[i])
  }

  const LENGTHS: seq<nat> := [20, 15, 18, 17, 24, 16, 19, 19, 23, 23, 25, 35, 30, 25, 34, 35]

  lemma KeyLengths()
    ensures forall k :: 0 <= k < KEY_COUNT ==> |KEYS[k]| == LENGTHS[k]
  {
    assert |KEYS[0]| == 20 && |KEYS[1]| == 15 && |KEYS[2]| == 18 && |KEYS[3]| == 17;
    assert |KEYS[4]| == 24 && |KEYS[5]| == 16 && |KEYS[6]| == 19 && |KEYS[7]| == 19;
    assert |KEYS[8]| == 23 && |KEYS[9]| == 23 && |KEYS[10]| == 25 && |KEYS[11]| == 35;
    assert |KEYS[12]| == 30 && |KEYS[13]| == 25 && |KEYS[14]| == 34 && |KEYS[15]| == 35;
  }

  lemma KeysDiffer(j: nat, k: nat)
    requires j < k < KEY_COUNT
    ensures KEYS[j] != KEYS[k]
  {
    KeyLengths();
    assert KEYS[6] != KEYS[7];
    assert KEYS[8] != KEYS[9];
    assert KEYS[10] != KEYS[13];
    assert KEYS[11] != KEYS[15];
    hide KEYS;
    assert |KEYS[j]| == LENGTHS[j] && |KEYS[k]| == LENGTHS[k];
  }

  lemma {:induction false} KeyFound(k: nat, from: nat)
    requires from <= k < KEY_COUNT
    ensures KeyNamed(KEYS[k], from) == Some(k)
    decreases k - from
  {
    hide KEYS;
    if from < k {
      KeysDiffer(from, k);
      KeyFound(k, from + 1);
    }
  }

  lemma ControlKeysAreWords()
    ensures Word("remote_start_enabled") && Word("hood_monitoring")
  {
  }

  lemma RunKeysAreWords()
    ensures Word("remote_run_minutes") && Word("driver_entry_mode")
  {
  }

  lemma TimeoutKeysAreWords()
    ensures Word("takeover_timeout_seconds") && Word("lock_press_count")
  {
  }

  lemma GapKeysAreWords()
    ensures Word("lock_minimum_gap_ms") && Word("lock_maximum_gap_ms")
  {
  }

  lemma WindowKeysAreWords()
    ensures Word("lock_sequence_window_ms") && Word("cold_engine_maximum_rpm")
  {
  }

  lemma WarmKeysAreWords()
    ensures Word("engine_warm_temperature_c") && Word("temperature_alert_hysteresis_c")
  {
  }

  lemma OverheatKeysAreWords()
    ensures Word("transmission_overheat_temperature_c") && Word("feature.cold_engine_guard")
  {
  }

  lemma RegenerationKeysAreWords()
    ensures Word("feature.dpf_regeneration_indicator")
  {
  }

  lemma AlertKeysAreWords()
    ensures Word("feature.transmission_overheat_alert")
  {
  }

  lemma KeysAreWords(k: nat)
    requires k < KEY_COUNT
    ensures Word(KEYS[k])
  {
    ControlKeysAreWords();
    RunKeysAreWords();
    TimeoutKeysAreWords();
    GapKeysAreWords();
    WindowKeysAreWords();
    WarmKeysAreWords();
    OverheatKeysAreWords();
    RegenerationKeysAreWords();
    AlertKeysAreWords();
    hide Word;
  }

  lemma NumbersAreWords(n: nat)
    ensures Word(Printed(n, 10))
  {
    PrintedPlain(n, 10);
    var s := Printed(n, 10);
    hide Printed;
    forall i | 0 <= i < |s|
      ensures WordChar(s[i])
    {
      assert s[i] in s;
    }
  }

  lemma ValueWords()
    ensures Word("true") && Word("false") && Word("required") && Word("disabled")
    ensures Word("require_takeover") && Word("stop_immediately")
  {
  }

  lemma ValuesAreWords(key: nat, s: UserSettings)
    requires key < KEY_COUNT
    ensures Word(ValueText(key, s))
  {
    ValueWords();
    hide Word;
    hide Printed;
    if key == 2 {
      NumbersAreWords(s.maximumRemoteRunTimeMs as int / MINUTE);
    } else if key == 4 {
      NumbersAreWords(s.driverTakeoverTimeoutMs as int / SECOND);
    } else if key == 5 {
      NumbersAreWords(s.lockPressCount as int);
    } else if key == 6 {
      NumbersAreWords(s.lockMinimumGapMs as int);
    } else if key == 7 {
      NumbersAreWords(s.lockMaximumGapMs as int);
    } else if key == 8 {
      NumbersAreWords(s.lockMaximumSequenceMs as int);
    } else if key == 9 {
      NumbersAreWords(s.coldEngineMaximumRpm as int);
    } else if key == 10 {
      NumbersAreWords(s.engineWarmTemperatureC as int);
    } else if key == 11 {
      NumbersAreWords(s.transmissionOverheatTemperatureC as int);
    } else if key == 12 {
      NumbersAreWords(s.temperatureAlertHysteresisC as int);
    }
  }

  // ---------- an entry parses to its key and value ----------

  lemma {:induction false} TrimWord(s: string)
    requires Word(s)
    ensures Trim(s) == s
  {
  }

  lemma {:induction false} EntryChars(key: string, value: string)
    requires Word(key) && Word(value)
    ensures var line := key + "=" + value;
            '#' !in line && '=' !in key && '=' !in value && !Space(line[0]) && !Space(line[|line| - 1])
  {
    assert '#' !in key && '#' !in value;
  }

  lemma {:induction false} EntryContent(key: string, value: string)
    requires Word(key) && Word(value)
    ensures var line := key + "=" + value;
            && IndexOf(line, '#') == |line| && Trim(line) == line && line != ""
            && IndexOf(line, '=') == |key| && line[..|key|] == key && line[|key| + 1..] == value && '=' !in value
  {
    EntryChars(key, value);
    hide Word;
    hide IndexOf;
    hide Trim;
    hide Space;
    IndexOfAbsent(key + "=" + value, '#');
    IndexOfFirst(key, '=', value);
    Ends(key + "=" + value);
  }

  lemma {:induction false} Ends(line: string)
    requires line != "" && !Space(line[0]) && !Space(line[|line| - 1])
    ensures Trim(line) == line
  {
  }

  lemma EntryParses(k: nat, value: string, p: Parsing)
    requires k < KEY_COUNT && Word(value) && KEYS[k] !in p.keys
    ensures ParseLine(KEYS[k] + "=" + value, p)
            == match Apply(k, value, p.settings) case None => None case Some(s) => Some(Parsing(s, p.keys + [KEYS[k]]))
  {
    KeysAreWords(k);
    KeyFound(k, 0);
    var line := KEYS[k] + "=" + value;
    EntryContent(KEYS[k], value);
    TrimWord(KEYS[k]);
    TrimWord(value);
    WordsAreNotEmpty(KEYS[k]);
    WordsAreNotEmpty(value);
    hide KEYS;
    hide Word;
    hide Trim;
    hide IndexOf;
    hide KeyNamed;
    hide Apply;
    assert line[..|line|] == line;
  }

  lemma WordsAreNotEmpty(s: string)
    requires Word(s)
    ensures s != ""
  {
  }

  // ---------- each value reads back ----------

  lemma NumberReadsBack(n: nat)
    requires n <= UINT32_MAXIMUM
    ensures NumberValue(Printed(n, 10)) == Some(n)
  {
    ValueOfPrinted(n, 10);
    hide Printed;
    hide Value;
    hide IsNumber;
  }

  lemma WholeUnitsFit(n: nat, scale: nat)
    requires scale == MINUTE || scale == SECOND
    requires n <= UINT32_MAXIMUM && n % scale == 0
    ensures n / scale <= UINT32_MAXIMUM / scale && n / scale * scale == n && n / scale <= UINT32_MAXIMUM
  {
    if scale == MINUTE {
      assert n / 60_000 * 60_000 == n;
    } else {
      assert n / 1_000 * 1_000 == n;
    }
  }

  lemma DurationReadsBack(n: nat, scale: nat)
    requires scale == MINUTE || scale == SECOND
    requires n <= UINT32_MAXIMUM && n % scale == 0
    ensures ScaledValue(Printed(n / scale, 10), scale) == Some(n)
  {
    WholeUnitsFit(n, scale);
    NumberReadsBack(n / scale);
    hide NumberValue;
    hide Printed;
  }

  lemma WordFits(w: bv32)
    ensures w as int <= UINT32_MAXIMUM
  {
  }

  lemma BooleanReadsBack(b: bool)
    ensures BooleanValue(BooleanText(b)) == Some(b)
  {
  }

  /** The defaults with the values of the first keys taken from s. */
  function Filled(s: UserSettings, count: nat): UserSettings {
    UserSettings(
      if count > 0 then s.remoteStartEnabled else DEFAULT_SETTINGS.remoteStartEnabled,
      if count > 1 then s.hoodMonitoring else DEFAULT_SETTINGS.hoodMonitoring,
      if count > 3 then s.driverEntryMode else DEFAULT_SETTINGS.driverEntryMode,
      if count > 2 then s.maximumRemoteRunTimeMs else DEFAULT_SETTINGS.maximumRemoteRunTimeMs,
      if count > 4 then s.driverTakeoverTimeoutMs else DEFAULT_SETTINGS.driverTakeoverTimeoutMs,
      if count > 5 then s.lockPressCount else DEFAULT_SETTINGS.lockPressCount,
      if count > 6 then s.lockMinimumGapMs else DEFAULT_SETTINGS.lockMinimumGapMs,
      if count > 7 then s.lockMaximumGapMs else DEFAULT_SETTINGS.lockMaximumGapMs,
      if count > 8 then s.lockMaximumSequenceMs else DEFAULT_SETTINGS.lockMaximumSequenceMs,
      FilledFeatures(s.features, count),
      if count > 9 then s.coldEngineMaximumRpm else DEFAULT_SETTINGS.coldEngineMaximumRpm,
      if count > 10 then s.engineWarmTemperatureC else DEFAULT_SETTINGS.engineWarmTemperatureC,
      if count > 11 then s.transmissionOverheatTemperatureC else DEFAULT_SETTINGS.transmissionOverheatTemperatureC,
      if count > 12 then s.temperatureAlertHysteresisC else DEFAULT_SETTINGS.temperatureAlertHysteresisC)
  }

  function FilledFeatures(mask: bv64, count: nat): bv64 {
    if count <= 13 then 0 else if count == 14 then mask & 1 else if count == 15 then mask & 3 else mask & 7
  }

  lemma FeatureStep(mask: bv64, feature: nat)
    requires feature < 3
    ensures WithFeature(FilledFeatures(mask, 13 + feature), feature, mask & FEATURE_BITS[feature] != 0)
            == FilledFeatures(mask, 14 + feature)
  {
  }

  lemma AllFeatures(mask: bv64)
    requires mask & !FEATURE_MASK == 0
    ensures FilledFeatures(mask, KEY_COUNT) == mask
  {
  }

  /** Reading the written value of a key fills that key in. */
  predicate ReadsBack(key: nat, s: UserSettings)
    requires key < KEY_COUNT
  {
    Apply(key, ValueText(key, s), Filled(s, key)) == Some(Filled(s, key + 1))
  }

  lemma SwitchSteps(s: UserSettings)
    requires Valid(s)
    ensures ReadsBack(0, s) && ReadsBack(1, s) && ReadsBack(3, s)
  {
    BooleanReadsBack(s.remoteStartEnabled);
    hide BooleanValue;
    hide BooleanText;
    hide LockTimingConsistent;
  }

  lemma RunTimeStep(s: UserSettings)
    requires WholeUnits(s)
    ensures ReadsBack(2, s)
  {
    WordFits(s.maximumRemoteRunTimeMs);
    DurationReadsBack(s.maximumRemoteRunTimeMs as int, MINUTE);
    hide ScaledValue;
    hide Printed;
  }

  lemma TimeoutStep(s: UserSettings)
    requires WholeUnits(s)
    ensures ReadsBack(4, s)
  {
    WordFits(s.driverTakeoverTimeoutMs);
    DurationReadsBack(s.driverTakeoverTimeoutMs as int, SECOND);
    hide ScaledValue;
    hide Printed;
  }

  lemma PressCountStep(s: UserSettings)
    ensures ReadsBack(5, s)
  {
    NumberReadsBack(s.lockPressCount as int);
    hide NumberValue;
    hide Printed;
  }

  lemma MinimumGapStep(s: UserSettings)
    ensures ReadsBack(6, s)
  {
    NumberReadsBack(s.lockMinimumGapMs as int);
    hide NumberValue;
    hide Printed;
  }

  lemma MaximumGapStep(s: UserSettings)
    ensures ReadsBack(7, s)
  {
    NumberReadsBack(s.lockMaximumGapMs as int);
    hide NumberValue;
    hide Printed;
  }

  lemma WindowStep(s: UserSettings)
    ensures ReadsBack(8, s)
  {
    NumberReadsBack(s.lockMaximumSequenceMs as int);
    hide NumberValue;
    hide Printed;
  }

  lemma ColdRpmStep(s: UserSettings)
    ensures ReadsBack(9, s)
  {
    NumberReadsBack(s.coldEngineMaximumRpm as int);
    hide NumberValue;
    hide Printed;
  }

  lemma WarmStep(s: UserSettings)
    ensures ReadsBack(10, s)
  {
    NumberReadsBack(s.engineWarmTemperatureC as int);
    hide NumberValue;
    hide Printed;
  }

  lemma OverheatStep(s: UserSettings)
    ensures ReadsBack(11, s)
  {
    NumberReadsBack(s.transmissionOverheatTemperatureC as int);
    hide NumberValue;
    hide Printed;
  }

  lemma HysteresisStep(s: UserSettings)
    ensures ReadsBack(12, s)
  {
    NumberReadsBack(s.temperatureAlertHysteresisC as int);
    hide NumberValue;
    hide Printed;
  }

  lemma GuardStep(s: UserSettings)
    ensures ReadsBack(13, s)
  {
    BooleanReadsBack(s.features & 1 != 0);
    FeatureStep(s.features, 0);
    hide BooleanValue;
    hide BooleanText;
    hide WithFeature;
    hide FilledFeatures;
  }

  lemma RegenerationStep(s: UserSettings)
    ensures ReadsBack(14, s)
  {
    BooleanReadsBack(s.features & 2 != 0);
    FeatureStep(s.features, 1);
    hide BooleanValue;
    hide BooleanText;
    hide WithFeature;
    hide FilledFeatures;
  }

  lemma AlertStep(s: UserSettings)
    ensures ReadsBack(15, s)
  {
    BooleanReadsBack(s.features & 4 != 0);
    FeatureStep(s.features, 2);
    hide BooleanValue;
    hide BooleanText;
    hide WithFeature;
    hide FilledFeatures;
  }

  lemma EveryKeyReadsBack(key: nat, s: UserSettings)
    requires key < KEY_COUNT && Writable(s)
    ensures ReadsBack(key, s)
  {
    hide ReadsBack;
    hide Valid;
    hide WholeUnits;
    SwitchSteps(s);
    RunTimeStep(s);
    TimeoutStep(s);
    PressCountStep(s);
    MinimumGapStep(s);
    MaximumGapStep(s);
    WindowStep(s);
    ColdRpmStep(s);
    WarmStep(s);
    OverheatStep(s);
    HysteresisStep(s);
    GuardStep(s);
    RegenerationStep(s);
    AlertStep(s);
  }

  // ---------- a whole file ----------

  /** A line with nothing left of its comment. */
  predicate Skipped(line: string) {
    Trim(line[..IndexOf(line, '#')]) == ""
  }

  lemma {:induction false} CommentsAreSkipped(text: string)
    ensures Skipped("#" + text) && Skipped("")
  {
    assert IndexOf("#" + text, '#') == 0 && ("#" + text)[..0] == "";
    assert ""[..0] == "";
  }

  lemma HeadingsAreSkipped(key: nat)
    ensures forall i :: 0 <= i < |Heading(key)| ==> Skipped(Heading(key)[i])
  {
    hide Skipped;
    CommentsAreSkipped(TITLE);
    CommentsAreSkipped(ORIGIN);
    CommentsAreSkipped(THRESHOLDS);
    CommentsAreSkipped(FEATURES);
  }

  lemma {:induction false} SkippedLinesParse(lines: seq<string>, extra: seq<string>)
    requires forall i :: 0 <= i < |extra| ==> Skipped(extra[i])
    ensures ParseLines(lines + extra) == ParseLines(lines)
    decreases |extra|
  {
    hide Trim;
    hide IndexOf;
    hide ParseContent;
    if extra == [] {
      assert lines + extra == lines;
    } else {
      var front := extra[..|extra| - 1];
      SkippedLinesParse(lines, front);
      assert lines + extra == (lines + front) + [extra[|extra| - 1]];
      OneMoreLine(lines + front, extra[|extra| - 1]);
    }
  }

  lemma {:induction false} OneMoreLine(lines: seq<string>, line: string)
    ensures ParseLines(lines + [line]) == match ParseLines(lines) case None => None case Some(p) => ParseLine(line, p)
  {
    hide ParseLine;
    assert (lines + [line])[..|lines|] == lines;
  }

  lemma FreshKey(k: nat)
    requires k < KEY_COUNT
    ensures KEYS[k] !in KEYS[..k]
  {
    assert |KEYS| == KEY_COUNT;
    hide KEYS;
    forall j | 0 <= j < k
      ensures KEYS[j] != KEYS[k]
    {
      KeysDiffer(j, k);
    }
  }

  lemma {:induction false} EntryStep(s: UserSettings, k: nat, lines: seq<string>)
    requires Writable(s) && k < KEY_COUNT && ParseLines(lines) == Some(Parsing(Filled(s, k), KEYS[..k]))
    ensures ParseLines(lines + Heading(k) + [EntryLine(k, s)]) == Some(Parsing(Filled(s, k + 1), KEYS[..k + 1]))
  {
    assert |KEYS| == KEY_COUNT;
    assert KEYS[..k] + [KEYS[k]] == KEYS[..k + 1];
    hide KEYS;
    hide Skipped;
    hide Writable;
    hide Filled;
    hide ParseLines;
    hide ParseLine;
    hide Heading;
    hide Apply;
    hide Word;
    hide ValueText;
    HeadingsAreSkipped(k);
    SkippedLinesParse(lines, Heading(k));
    OneMoreLine(lines + Heading(k), EntryLine(k, s));
    FreshKey(k);
    ValuesAreWords(k, s);
    EntryParses(k, ValueText(k, s), Parsing(Filled(s, k), KEYS[..k]));
    EveryKeyReadsBack(k, s);
  }

  lemma {:induction false} EntriesParse(s: UserSettings, count: nat)
    requires Writable(s) && count <= KEY_COUNT
    ensures ParseLines(EntryLines(s, count)) == Some(Parsing(Filled(s, count), KEYS[..count]))
  {
    hide KEYS;
    hide Writable;
    hide Filled;
    hide ParseLines;
    hide EntryLine;
    hide Heading;
    if count == 0 {
      NothingFilled(s);
    } else {
      EntriesParse(s, count - 1);
      EntryStep(s, count - 1, EntryLines(s, count - 1));
    }
  }

  lemma NothingFilled(s: UserSettings)
    ensures ParseLines([]) == Some(Parsing(Filled(s, 0), []))
  {
  }

  lemma AllFilled(s: UserSettings)
    requires Valid(s)
    ensures Filled(s, KEY_COUNT) == s
  {
    AllFeatures(s.features);
    hide FilledFeatures;
    hide LockTimingConsistent;
  }

  lemma {:induction false} WordHasNoNewline(s: string)
    requires Word(s)
    ensures '\n' !in s
  {
  }

  lemma TitleIsOneLine()
    ensures '\n' !in TITLE
  {
    assert '\n' !in " BMW E9x Remote Control" && '\n' !in " - configuration" && '\n' !in " utilisateur";
  }

  lemma OriginIsOneLine()
    ensures '\n' !in ORIGIN
  {
    assert '\n' !in " Generee par le" && '\n' !in " configurateur ;" && '\n' !in " les valeurs";
    assert '\n' !in " invalides" && '\n' !in " sont refusees.";
  }

  lemma ThresholdsAreOneLine()
    ensures '\n' !in THRESHOLDS
  {
    assert '\n' !in " Seuils de telemetrie" && '\n' !in " en lecture seule.";
  }

  lemma FeaturesAreOneLine()
    ensures '\n' !in FEATURES
  {
    assert '\n' !in " Fonctionnalites" && '\n' !in " modulaires ;" && '\n' !in " toutes sont";
    assert '\n' !in " desactivees" && '\n' !in " par defaut.";
  }

  lemma HeadingsHaveNoNewlines(key: nat)
    ensures NoNewlines(Heading(key))
  {
    TitleIsOneLine();
    OriginIsOneLine();
    ThresholdsAreOneLine();
    FeaturesAreOneLine();
    hide TITLE;
    hide ORIGIN;
    hide THRESHOLDS;
    hide FEATURES;
  }

  lemma EntryHasNoNewline(key: nat, s: UserSettings)
    requires key < KEY_COUNT
    ensures '\n' !in EntryLine(key, s)
  {
    KeysAreWords(key);
    ValuesAreWords(key, s);
    WordHasNoNewline(KEYS[key]);
    WordHasNoNewline(ValueText(key, s));
    hide KEYS;
    hide Word;
    hide ValueText;
  }

  lemma {:induction false} EntriesHaveNoNewlines(s: UserSettings, count: nat)
    requires count <= KEY_COUNT
    ensures NoNewlines(EntryLines(s, count))
  {
    hide EntryLine;
    hide Heading;
    if count > 0 {
      EntriesHaveNoNewlines(s, count - 1);
      HeadingsHaveNoNewlines(count - 1);
      EntryHasNoNewline(count - 1, s);
    }
  }

  /** Reading a written file returns the settings. */
  lemma FileRoundTrip(s: UserSettings)
    requires Written(s).Some?
    ensures ParseText(Written(s).value) == Some(s)
  {
    EntriesParse(s, KEY_COUNT);
    AllFilled(s);
    EntriesHaveNoNewlines(s, KEY_COUNT);
    hide ParseLines;
    hide EntryLines;
    hide Valid;
    hide Filled;
    hide Joined;
    hide Lines;
    LinesOfJoined(EntryLines(s, KEY_COUNT));
  }
}
