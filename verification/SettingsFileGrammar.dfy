/**
 * The grammar of a settings file, stated on the characters of its lines: which
 * lines are skipped, which set a key to a value, what the value means, and so
 * which files are accepted and what they set.
 */
module SettingsFileGrammar {
  import opened Options
  import opened SettingsFile
  import opened Text
  import opened UserSettings

  predicate Blank(c: char) {
    c == ' ' || 9 <= c as int <= 13
  }

  /** From a to b there are blanks, the text from i to j with no blank at either end, and blanks. */
  ghost predicate Core(s: string, a: nat, b: nat, i: nat, j: nat) {
    && a <= i <= j <= b <= |s|
    && (forall k :: a <= k < i ==> Blank(s[k]))
    && (forall k :: j <= k < b ==> Blank(s[k]))
    && (i < j ==> !Blank(s[i]) && !Blank(s[j - 1]))
  }

  /** From a to b there is this text with blanks around it. */
  ghost predicate Surrounded(s: string, a: nat, b: nat, core: string) {
    exists i: nat, j: nat :: Core(s, a, b, i, j) && s[i..j] == core
  }

  // ---------- trimming ----------

  lemma {:induction false} FrontTrimmed(s: string, a: nat, b: nat) returns (i: nat)
    requires a <= b <= |s|
    ensures a <= i <= b && TrimFront(s[a..b]) == s[i..b]
    ensures (forall k :: a <= k < i ==> Blank(s[k])) && (i < b ==> !Blank(s[i]))
    decreases b - a
  {
    i := a;
    if a < b && Blank(s[a]) {
      assert s[a..b][1..] == s[a + 1..b];
      i := FrontTrimmed(s, a + 1, b);
    }
  }

  lemma {:induction false} BackTrimmed(s: string, a: nat, b: nat) returns (j: nat)
    requires a <= b <= |s|
    ensures a <= j <= b && TrimBack(s[a..b]) == s[a..j]
    ensures (forall k :: j <= k < b ==> Blank(s[k])) && (a < j ==> !Blank(s[j - 1]))
    decreases b - a
  {
    j := b;
    if a < b && Blank(s[b - 1]) {
      assert s[a..b][..b - a - 1] == s[a..b - 1];
      j := BackTrimmed(s, a, b - 1);
    }
  }

  lemma TrimIsCore(s: string, a: nat, b: nat) returns (i: nat, j: nat)
    requires a <= b <= |s|
    ensures Core(s, a, b, i, j) && s[i..j] == Trim(s[a..b])
  {
    i := FrontTrimmed(s, a, b);
    j := BackTrimmed(s, i, b);
  }

  lemma CoreIsUnique(s: string, a: nat, b: nat, i: nat, j: nat, k: nat, l: nat)
    requires Core(s, a, b, i, j) && Core(s, a, b, k, l)
    ensures s[i..j] == s[k..l]
  {
    assert i < j ==> k <= i && j <= l;
    assert k < l ==> i <= k && l <= j;
  }

  /** Trimming gives exactly the text that blanks surround. */
  lemma TrimExactly(s: string, a: nat, b: nat, core: string)
    requires a <= b <= |s|
    ensures Trim(s[a..b]) == core <==> Surrounded(s, a, b, core)
  {
    var i, j := TrimIsCore(s, a, b);
    hide Trim;
    hide Core;
    if Surrounded(s, a, b, core) {
      var k: nat, l: nat :| Core(s, a, b, k, l) && s[k..l] == core;
      CoreIsUnique(s, a, b, i, j, k, l);
    }
  }

  // ---------- a line ----------

  /** Where the comment of a line begins, or where the line ends. */
  predicate EndsAt(line: string, h: nat) {
    h <= |line| && (h < |line| ==> line[h] == '#') && forall i :: 0 <= i < h ==> line[i] != '#'
  }

  /** Nothing but blanks before the comment. */
  ghost predicate Empty(line: string) {
    exists h: nat :: EndsAt(line, h) && forall k :: 0 <= k < h ==> Blank(line[k])
  }

  /** The one equals sign before the comment stands at e, with the key before it and a value after it. */
  ghost predicate SetsAt(line: string, key: nat, value: string, h: nat, e: nat) {
    && EndsAt(line, h) && e < h && key < KEY_COUNT && value != ""
    && (forall i :: 0 <= i < h ==> (line[i] == '=' <==> i == e))
    && Surrounded(line, 0, e, KEYS[key])
    && Surrounded(line, e + 1, h, value)
  }

  /** The line sets a key to a value. */
  ghost predicate Sets(line: string, key: nat, value: string) {
    exists h: nat, e: nat :: SetsAt(line, key, value, h, e)
  }

  /** The first position of a character in a part of a text. */
  lemma {:induction false} IndexInside(s: string, a: nat, b: nat, c: char, k: nat)
    requires a <= b <= |s| && a <= k <= b && (k < b ==> s[k] == c) && forall i :: a <= i < k ==> s[i] != c
    ensures IndexOf(s[a..b], c) == k - a
    decreases b - a
  {
    if a < k {
      assert s[a..b][1..] == s[a + 1..b];
      IndexInside(s, a + 1, b, c, k);
    }
  }

  /** Where the search for a character in a part of a text ends. */
  lemma {:induction false} IndexAt(s: string, a: nat, b: nat, c: char) returns (k: nat)
    requires a <= b <= |s|
    ensures a <= k <= b && k - a == IndexOf(s[a..b], c) && (k < b ==> s[k] == c) && forall i :: a <= i < k ==> s[i] != c
    decreases b - a
  {
    k := a;
    if a < b && s[a] != c {
      assert s[a..b][1..] == s[a + 1..b];
      k := IndexAt(s, a + 1, b, c);
    }
  }

  lemma EndExists(line: string) returns (h: nat)
    ensures EndsAt(line, h) && h == IndexOf(line, '#')
  {
    assert line[0..|line|] == line;
    h := IndexAt(line, 0, |line|, '#');
  }

  lemma EndIsUnique(line: string, h: nat, k: nat)
    requires EndsAt(line, h) && EndsAt(line, k)
    ensures h == k
  {
  }

  lemma BodyOf(line: string, h: nat)
    requires h <= |line|
    ensures line[..h] == line[0..h]
  {
  }

  lemma EmptyExactly(line: string)
    ensures Empty(line) <==> Skipped(line)
  {
    var h := EndExists(line);
    BodyOf(line, h);
    var i, j := TrimIsCore(line, 0, h);
    hide Trim;
    hide IndexOf;
    if Empty(line) {
      var k: nat :| EndsAt(line, k) && forall n :: 0 <= n < k ==> Blank(line[n]);
      EndIsUnique(line, h, k);
      assert i == j;
    }
  }

  /** The line as it is read: the body trimmed, cut at the equals sign, and each part trimmed again. */
  ghost predicate Reads(line: string, key: nat, value: string, h: nat, i: nat, j: nat, e: nat) {
    && EndsAt(line, h) && Core(line, 0, h, i, j) && i <= e < j && line[e] == '='
    && (forall n :: i <= n < j && n != e ==> line[n] != '=')
    && key < KEY_COUNT && KEYS[key] == Trim(line[i..e]) && value == Trim(line[e + 1..j]) && value != ""
  }

  /** Around the equals sign, trimming first and cutting then is cutting first and trimming then. */
  lemma CutFirst(s: string, a: nat, b: nat, i: nat, j: nat, e: nat)
    requires Core(s, a, b, i, j) && a <= e < b && !Blank(s[e])
    ensures i <= e < j && Trim(s[i..e]) == Trim(s[a..e]) && Trim(s[e + 1..j]) == Trim(s[e + 1..b])
  {
    hide Trim;
    assert i <= e < j;
    var k, l := TrimIsCore(s, i, e);
    assert Core(s, a, e, k, l);
    TrimExactly(s, a, e, s[k..l]);
    var m, n := TrimIsCore(s, e + 1, j);
    assert Core(s, e + 1, b, m, n);
    TrimExactly(s, e + 1, b, s[m..n]);
  }

  /** With the ends of the body and of its core known, where the equals sign stands decides. */
  lemma SignsAgree(line: string, h: nat, i: nat, j: nat, e: nat)
    requires EndsAt(line, h) && Core(line, 0, h, i, j) && i <= e < j
    ensures (forall n :: 0 <= n < h ==> (line[n] == '=' <==> n == e))
       <==> line[e] == '=' && forall n :: i <= n < j && n != e ==> line[n] != '='
  {
    assert forall n :: 0 <= n < h && !(i <= n < j) ==> Blank(line[n]);
  }

  lemma CoreRange(s: string, a: nat, b: nat, i: nat, j: nat)
    requires Core(s, a, b, i, j)
    ensures a <= i <= j <= b <= |s|
  {
  }

  /** What the two views of a line share, cut at the equals sign. */
  lemma PartsAgree(line: string, key: nat, value: string, h: nat, i: nat, j: nat, e: nat)
    requires EndsAt(line, h) && Core(line, 0, h, i, j) && e < h && line[e] == '=' && key < KEY_COUNT
    ensures i <= e < j <= h <= |line|
    ensures (forall n :: 0 <= n < h ==> (line[n] == '=' <==> n == e)) <==> (forall n :: i <= n < j && n != e ==> line[n] != '=')
    ensures Trim(line[e + 1..j]) == value <==> Surrounded(line, e + 1, h, value)
    ensures KEYS[key] == Trim(line[i..e]) <==> Surrounded(line, 0, e, KEYS[key])
  {
    assert |KEYS| == KEY_COUNT;
    CoreRange(line, 0, h, i, j);
    hide KEYS;
    hide Trim;
    hide Surrounded;
    hide EndsAt;
    hide Core;
    CutFirst(line, 0, h, i, j, e);
    SignsAgree(line, h, i, j, e);
    TrimExactly(line, e + 1, h, value);
    TrimExactly(line, 0, e, KEYS[key]);
  }

  lemma SetsReads(line: string, key: nat, value: string, h: nat, i: nat, j: nat, e: nat)
    requires EndsAt(line, h) && Core(line, 0, h, i, j)
    ensures SetsAt(line, key, value, h, e) <==> Reads(line, key, value, h, i, j, e)
  {
    CoreRange(line, 0, h, i, j);
    hide KEYS;
    hide Trim;
    hide Surrounded;
    hide EndsAt;
    hide Core;
    if e < h && line[e] == '=' && key < KEY_COUNT {
      PartsAgree(line, key, value, h, i, j, e);
    }
  }

  lemma KeyNamedExactly(name: string, key: nat)
    ensures KeyNamed(name, 0) == Some(key) <==> key < KEY_COUNT && KEYS[key] == name
  {
    if key < KEY_COUNT && KEYS[key] == name {
      KeyFound(key, 0);
    }
  }

  /** What is parsed once a key has taken a value, if it may. */
  function Taken(p: Parsing, key: nat, value: string): Option<Parsing>
    requires key < KEY_COUNT
  {
    if KEYS[key] in p.keys then None
    else
      match Apply(key, value, p.settings)
      case None => None
      case Some(s) => Some(Parsing(s, p.keys + [KEYS[key]]))
  }

  lemma TrimmedKey(line: string, i: nat, e: nat, key: nat)
    requires i <= e <= |line| && key < KEY_COUNT && KEYS[key] == Trim(line[i..e])
    ensures Trim(line[i..e]) != ""
  {
    KeysAreWords(key);
  }

  lemma ParsesAs(content: string, separator: nat, p: Parsing, key: nat, value: string)
    requires separator == IndexOf(content, '=') < |content| && '=' !in content[separator + 1..] && key < KEY_COUNT
    requires Trim(content[..separator]) == KEYS[key] != "" && KeyNamed(KEYS[key], 0) == Some(key)
    requires Trim(content[separator + 1..]) == value != ""
    ensures ParseContent(content, p) == Taken(p, key, value)
  {
    hide KEYS;
    hide Trim;
    hide IndexOf;
    hide Apply;
    hide KeyNamed;
  }

  lemma NoSecondSign(line: string, i: nat, j: nat, e: nat)
    requires i <= e < j <= |line|
    ensures line[i..j][..e - i] == line[i..e] && line[i..j][e - i + 1..] == line[e + 1..j]
    ensures '=' !in line[i..j][e - i + 1..] <==> forall n :: e < n < j ==> line[n] != '='
  {
    assert line[i..j][e - i + 1..] == line[e + 1..j];
    assert forall n :: e < n < j ==> line[e + 1..j][n - e - 1] == line[n];
  }

  lemma ContentParses(line: string, p: Parsing, key: nat, value: string, h: nat, i: nat, j: nat, e: nat)
    requires Reads(line, key, value, h, i, j, e)
    ensures ParseContent(line[i..j], p) == Taken(p, key, value)
  {
    assert |KEYS| == KEY_COUNT;
    hide KEYS;
    hide Trim;
    hide IndexOf;
    hide ParseContent;
    hide Taken;
    hide KeyNamed;
    hide Blank;
    KeyNamedExactly(KEYS[key], key);
    IndexInside(line, i, j, '=', e);
    TrimmedKey(line, i, e, key);
    NoSecondSign(line, i, j, e);
    ParsesAs(line[i..j], e - i, p, key, value);
  }

  /** What content that parses must look like. */
  lemma ParsedLooks(content: string, p: Parsing)
    requires ParseContent(content, p).Some?
    ensures var separator := IndexOf(content, '=');
            && separator < |content| && '=' !in content[separator + 1..]
            && KeyNamed(Trim(content[..separator]), 0).Some? && Trim(content[separator + 1..]) != ""
  {
    hide KEYS;
    hide Trim;
    hide IndexOf;
    hide Apply;
    hide KeyNamed;
  }

  lemma ContentReads(line: string, p: Parsing, h: nat, i: nat, j: nat) returns (key: nat, e: nat)
    requires EndsAt(line, h) && Core(line, 0, h, i, j) && ParseContent(line[i..j], p).Some?
    ensures i <= e < j && key < KEY_COUNT && Reads(line, key, Trim(line[e + 1..j]), h, i, j, e)
  {
    CoreRange(line, 0, h, i, j);
    hide Core;
    e := IndexAt(line, i, j, '=');
    ParsedLooks(line[i..j], p);
    hide KEYS;
    hide Trim;
    hide IndexOf;
    hide ParseContent;
    hide KeyNamed;
    hide Blank;
    hide EndsAt;
    NoSecondSign(line, i, j, e);
    key := KeyNamed(Trim(line[i..e]), 0).value;
  }

  /**
   * An empty line changes nothing, a line that sets a key to a value has that
   * key take it, and every other line is refused.
   */
  lemma LineExactly(line: string, p: Parsing)
    ensures Empty(line) ==> ParseLine(line, p) == Some(p)
    ensures forall key: nat, value :: Sets(line, key, value) ==>
              key < KEY_COUNT && !Empty(line) && ParseLine(line, p) == Taken(p, key, value)
    ensures !Empty(line) && (forall key: nat, value :: !Sets(line, key, value)) ==> ParseLine(line, p) == None
  {
    var h := EndExists(line);
    BodyOf(line, h);
    EmptyExactly(line);
    var i, j := TrimIsCore(line, 0, h);
    hide Trim;
    hide IndexOf;
    hide ParseContent;
    hide Taken;
    hide Core;
    hide SetsAt;
    hide Reads;
    hide Empty;
    forall key: nat, value | Sets(line, key, value)
      ensures key < KEY_COUNT && line[i..j] != "" && ParseLine(line, p) == Taken(p, key, value)
    {
      var k: nat, e: nat :| SetsAt(line, key, value, k, e);
      SetsEnds(line, key, value, k, e, h);
      SetsReads(line, key, value, h, i, j, e);
      ReadsBounds(line, key, value, h, i, j, e);
      ContentParses(line, p, key, value, h, i, j, e);
    }
    if line[i..j] != "" && ParseContent(line[i..j], p).Some? {
      var key, e := ContentReads(line, p, h, i, j);
      SetsReads(line, key, Trim(line[e + 1..j]), h, i, j, e);
      assert Sets(line, key, Trim(line[e + 1..j]));
    }
  }

  lemma SetsEnds(line: string, key: nat, value: string, k: nat, e: nat, h: nat)
    requires SetsAt(line, key, value, k, e) && EndsAt(line, h)
    ensures k == h
  {
    hide Surrounded;
    EndIsUnique(line, k, h);
  }

  lemma ReadsBounds(line: string, key: nat, value: string, h: nat, i: nat, j: nat, e: nat)
    requires Reads(line, key, value, h, i, j, e)
    ensures key < KEY_COUNT && i < j <= |line|
  {
  }

  /** A line sets one key to one value at most. */
  lemma SetsOnce(line: string, key: nat, value: string, other: nat, otherValue: string)
    requires Sets(line, key, value) && Sets(line, other, otherValue)
    ensures key == other && value == otherValue
  {
    hide Surrounded;
    var h: nat, e: nat :| SetsAt(line, key, value, h, e);
    var k: nat, d: nat :| SetsAt(line, other, otherValue, k, d);
    EndIsUnique(line, h, k);
    assert line[e] == '=' && line[d] == '=';
    hide KEYS;
    SameSurrounded(line, 0, e, KEYS[key], KEYS[other]);
    SameSurrounded(line, e + 1, h, value, otherValue);
    if key < other {
      KeysDiffer(key, other);
    } else if other < key {
      KeysDiffer(other, key);
    }
  }

  lemma SameSurrounded(s: string, a: nat, b: nat, core: string, other: string)
    requires a <= b <= |s| && Surrounded(s, a, b, core) && Surrounded(s, a, b, other)
    ensures core == other
  {
    TrimExactly(s, a, b, core);
    TrimExactly(s, a, b, other);
  }

  // ---------- what a value means ----------

  predicate Digits(text: string) {
    text != "" && forall i :: 0 <= i < |text| ==> '0' <= text[i] <= '9'
  }

  function Decimal(text: string): nat
    requires forall i :: 0 <= i < |text| ==> '0' <= text[i] <= '9'
  {
    if text == "" then 0 else 10 * Decimal(text[..|text| - 1]) + (text[|text| - 1] - '0') as nat
  }

  lemma {:induction false} DecimalIsValue(text: string)
    requires forall i :: 0 <= i < |text| ==> '0' <= text[i] <= '9'
    ensures Decimal(text) == Value(text, 10)
  {
    if text != "" {
      DecimalIsValue(text[..|text| - 1]);
    }
  }

  lemma DigitsExactly(text: string)
    ensures Digits(text) <==> IsNumber(text, 10)
  {
  }

  /** Minutes and seconds are given whole and kept in milliseconds. */
  function Unit(key: nat): nat {
    if key == 2 then 60_000 else if key == 4 then 1_000 else 1
  }

  /** The largest number the field of the key can keep. */
  function Limit(key: nat): nat {
    if key == 1 || key == 3 || key == 5 then 255 else if 9 <= key <= 12 then 65_535 else 4_294_967_295
  }

  function Choice(text: string, zero: seq<string>, one: seq<string>): (n: Option<nat>)
    ensures n.Some? ==> n.value <= 1
  {
    if text in zero then Some(0) else if text in one then Some(1) else None
  }

  const OFF: seq<string> := ["false"]
  const ON: seq<string> := ["true"]
  const HOOD_REQUIRED: seq<string> := ["required"]
  const HOOD_DISABLED: seq<string> := ["disabled", "optional"]
  const TAKEOVER: seq<string> := ["require_takeover", "require-takeover"]
  const STOP: seq<string> := ["stop_immediately", "stop-immediately"]

  /** What a key understands a value as, if it does. */
  function Meaning(key: nat, text: string): (n: Option<nat>)
    ensures n.Some? ==> n.value <= Limit(key)
  {
    if key == 0 || key >= 13 then Choice(text, OFF, ON)
    else if key == 1 then Choice(text, HOOD_REQUIRED, HOOD_DISABLED)
    else if key == 3 then Choice(text, TAKEOVER, STOP)
    else if Digits(text) && Decimal(text) * Unit(key) <= Limit(key) then Some(Decimal(text) * Unit(key))
    else None
  }

  /** The settings keep this number for the key. */
  predicate Keeps(key: nat, s: UserSettings, n: nat)
    requires n <= Limit(key)
  {
    && (key == 0 ==> (s.remoteStartEnabled <==> n == 1))
    && (key == 1 ==> s.hoodMonitoring == n as bv8)
    && (key == 2 ==> s.maximumRemoteRunTimeMs == n as bv32)
    && (key == 3 ==> s.driverEntryMode == n as bv8)
    && (key == 4 ==> s.driverTakeoverTimeoutMs == n as bv32)
    && (key == 5 ==> s.lockPressCount == n as bv8)
    && (key == 6 ==> s.lockMinimumGapMs == n as bv32)
    && (key == 7 ==> s.lockMaximumGapMs == n as bv32)
    && (key == 8 ==> s.lockMaximumSequenceMs == n as bv32)
    && (key == 9 ==> s.coldEngineMaximumRpm == n as bv16)
    && (key == 10 ==> s.engineWarmTemperatureC == n as bv16)
    && (key == 11 ==> s.transmissionOverheatTemperatureC == n as bv16)
    && (key == 12 ==> s.temperatureAlertHysteresisC == n as bv16)
    && (key >= 13 ==> (HasFeature(s.features, key) <==> n == 1))
  }

  predicate HasFeature(features: bv64, key: nat) {
    if key == 13 then features & 1 != 0 else if key == 14 then features & 2 != 0 else features & 4 != 0
  }

  /** Two settings keep the same for the key. */
  predicate SameField(key: nat, s: UserSettings, t: UserSettings) {
    && (key == 0 ==> s.remoteStartEnabled == t.remoteStartEnabled)
    && (key == 1 ==> s.hoodMonitoring == t.hoodMonitoring)
    && (key == 2 ==> s.maximumRemoteRunTimeMs == t.maximumRemoteRunTimeMs)
    && (key == 3 ==> s.driverEntryMode == t.driverEntryMode)
    && (key == 4 ==> s.driverTakeoverTimeoutMs == t.driverTakeoverTimeoutMs)
    && (key == 5 ==> s.lockPressCount == t.lockPressCount)
    && (key == 6 ==> s.lockMinimumGapMs == t.lockMinimumGapMs)
    && (key == 7 ==> s.lockMaximumGapMs == t.lockMaximumGapMs)
    && (key == 8 ==> s.lockMaximumSequenceMs == t.lockMaximumSequenceMs)
    && (key == 9 ==> s.coldEngineMaximumRpm == t.coldEngineMaximumRpm)
    && (key == 10 ==> s.engineWarmTemperatureC == t.engineWarmTemperatureC)
    && (key == 11 ==> s.transmissionOverheatTemperatureC == t.transmissionOverheatTemperatureC)
    && (key == 12 ==> s.temperatureAlertHysteresisC == t.temperatureAlertHysteresisC)
    && (key >= 13 ==> HasFeature(s.features, key) == HasFeature(t.features, key))
  }

  lemma FeatureOneStored(features: bv64, enabled: bool)
    ensures HasFeature(WithFeature(features, 0, enabled), 13) == enabled
    ensures HasFeature(WithFeature(features, 0, enabled), 14) == HasFeature(features, 14)
    ensures HasFeature(WithFeature(features, 0, enabled), 15) == HasFeature(features, 15)
  {
  }

  lemma FeatureTwoStored(features: bv64, enabled: bool)
    ensures HasFeature(WithFeature(features, 1, enabled), 13) == HasFeature(features, 13)
    ensures HasFeature(WithFeature(features, 1, enabled), 14) == enabled
    ensures HasFeature(WithFeature(features, 1, enabled), 15) == HasFeature(features, 15)
  {
  }

  lemma FeatureThreeStored(features: bv64, enabled: bool)
    ensures HasFeature(WithFeature(features, 2, enabled), 13) == HasFeature(features, 13)
    ensures HasFeature(WithFeature(features, 2, enabled), 14) == HasFeature(features, 14)
    ensures HasFeature(WithFeature(features, 2, enabled), 15) == enabled
  {
  }

  lemma FeatureStored(features: bv64, feature: nat, enabled: bool, other: nat)
    requires feature < 3 && other < 3
    ensures HasFeature(WithFeature(features, feature, enabled), 13 + other)
            == if other == feature then enabled else HasFeature(features, 13 + other)
  {
    hide HasFeature;
    hide WithFeature;
    FeatureOneStored(features, enabled);
    FeatureTwoStored(features, enabled);
    FeatureThreeStored(features, enabled);
  }

  lemma NumberMeans(text: string)
    ensures NumberValue(text) == if Digits(text) && Decimal(text) <= UINT32_MAXIMUM then Some(Decimal(text)) else None
  {
    DigitsExactly(text);
    if Digits(text) {
      DecimalIsValue(text);
    }
  }

  lemma ScaledMeans(text: string, scale: nat)
    requires scale == MINUTE || scale == SECOND
    ensures ScaledValue(text, scale)
            == if Digits(text) && Decimal(text) * scale <= UINT32_MAXIMUM then Some(Decimal(text) * scale) else None
  {
    NumberMeans(text);
    hide Digits;
    hide Decimal;
    hide NumberValue;
  }

  lemma SwitchMeans(text: string)
    ensures BooleanValue(text)
            == match Choice(text, OFF, ON) case None => None case Some(n) => Some(n == 1)
  {
  }

  lemma ApplyEnabled(text: string, s: UserSettings)
    ensures Apply(0, text, s) == match BooleanValue(text) case None => None case Some(b) => Some(s.(remoteStartEnabled := b))
  {
    hide BooleanValue;
  }

  lemma ApplyHood(text: string, s: UserSettings)
    ensures Apply(1, text, s)
            == match Choice(text, HOOD_REQUIRED, HOOD_DISABLED)
               case None => None
               case Some(n) => Some(s.(hoodMonitoring := if n == 0 then REQUIRED_HOOD else DISABLED_HOOD))
  {
  }

  lemma ApplyEntryMode(text: string, s: UserSettings)
    ensures Apply(3, text, s)
            == match Choice(text, TAKEOVER, STOP)
               case None => None
               case Some(n) => Some(s.(driverEntryMode := if n == 0 then REQUIRE_TAKEOVER else STOP_IMMEDIATELY))
  {
  }

  lemma ApplyFeature(key: nat, text: string, s: UserSettings)
    requires 13 <= key < KEY_COUNT
    ensures Apply(key, text, s)
            == match BooleanValue(text) case None => None case Some(b) => Some(s.(features := WithFeature(s.features, key - 13, b)))
  {
    hide BooleanValue;
    hide WithFeature;
  }

  lemma ApplyKeepsNumber(key: nat, text: string, s: UserSettings)
    requires 5 <= key < 13
    ensures Apply(key, text, s) == match NumberValue(text) case None => None case Some(n) => ApplyNumber(key, n, s)
  {
    hide NumberValue;
    hide ApplyNumber;
  }

  lemma ApplyDuration(text: string, s: UserSettings)
    ensures Apply(2, text, s)
            == match ScaledValue(text, MINUTE) case None => None case Some(v) => Some(s.(maximumRemoteRunTimeMs := v as bv32))
    ensures Apply(4, text, s)
            == match ScaledValue(text, SECOND) case None => None case Some(v) => Some(s.(driverTakeoverTimeoutMs := v as bv32))
  {
    hide ScaledValue;
  }

  lemma LockNumberStored(key: nat, n: nat, s: UserSettings)
    requires 5 <= key <= 8 && n <= UINT32_MAXIMUM
    ensures ApplyNumber(key, n, s).Some? <==> n <= Limit(key)
    ensures n <= Limit(key) ==> Keeps(key, ApplyNumber(key, n, s).value, n)
  {
    hide HasFeature;
  }

  lemma ThresholdStored(key: nat, n: nat, s: UserSettings)
    requires 9 <= key <= 12 && n <= UINT32_MAXIMUM
    ensures ApplyNumber(key, n, s).Some? <==> n <= Limit(key)
    ensures n <= Limit(key) ==> Keeps(key, ApplyNumber(key, n, s).value, n)
  {
    hide HasFeature;
  }

  /** A number is stored exactly when the field can keep it. */
  lemma NumberStored(key: nat, n: nat, s: UserSettings)
    requires 5 <= key < 13 && n <= UINT32_MAXIMUM
    ensures ApplyNumber(key, n, s).Some? <==> n <= Limit(key)
    ensures n <= Limit(key) ==> Keeps(key, ApplyNumber(key, n, s).value, n)
  {
    hide Keeps;
    hide ApplyNumber;
    hide Limit;
    if key <= 8 {
      LockNumberStored(key, n, s);
    } else {
      ThresholdStored(key, n, s);
    }
  }

  lemma PressCountLeaves(s: UserSettings, x: bv8, k: nat)
    requires k != 5
    ensures SameField(k, s.(lockPressCount := x), s)
  {
    hide HasFeature;
  }

  lemma MinimumGapLeaves(s: UserSettings, x: bv32, k: nat)
    requires k != 6
    ensures SameField(k, s.(lockMinimumGapMs := x), s)
  {
    hide HasFeature;
  }

  lemma MaximumGapLeaves(s: UserSettings, x: bv32, k: nat)
    requires k != 7
    ensures SameField(k, s.(lockMaximumGapMs := x), s)
  {
    hide HasFeature;
  }

  lemma WindowLeaves(s: UserSettings, x: bv32, k: nat)
    requires k != 8
    ensures SameField(k, s.(lockMaximumSequenceMs := x), s)
  {
    hide HasFeature;
  }

  lemma ColdRpmLeaves(s: UserSettings, x: bv16, k: nat)
    requires k != 9
    ensures SameField(k, s.(coldEngineMaximumRpm := x), s)
  {
    hide HasFeature;
  }

  lemma WarmLeaves(s: UserSettings, x: bv16, k: nat)
    requires k != 10
    ensures SameField(k, s.(engineWarmTemperatureC := x), s)
  {
    hide HasFeature;
  }

  lemma OverheatLeaves(s: UserSettings, x: bv16, k: nat)
    requires k != 11
    ensures SameField(k, s.(transmissionOverheatTemperatureC := x), s)
  {
    hide HasFeature;
  }

  lemma HysteresisLeaves(s: UserSettings, x: bv16, k: nat)
    requires k != 12
    ensures SameField(k, s.(temperatureAlertHysteresisC := x), s)
  {
    hide HasFeature;
  }

  lemma NumberLeaves(key: nat, n: nat, s: UserSettings, k: nat)
    requires 5 <= key < 13 && n <= Limit(key) && k < KEY_COUNT && k != key
    ensures n <= UINT32_MAXIMUM && ApplyNumber(key, n, s).Some? && SameField(k, ApplyNumber(key, n, s).value, s)
  {
    hide SameField;
    if key == 5 {
      PressCountLeaves(s, n as bv8, k);
    } else if key == 6 {
      MinimumGapLeaves(s, n as bv32, k);
    } else if key == 7 {
      MaximumGapLeaves(s, n as bv32, k);
    } else if key == 8 {
      WindowLeaves(s, n as bv32, k);
    } else if key == 9 {
      ColdRpmLeaves(s, n as bv16, k);
    } else if key == 10 {
      WarmLeaves(s, n as bv16, k);
    } else if key == 11 {
      OverheatLeaves(s, n as bv16, k);
    } else if key == 12 {
      HysteresisLeaves(s, n as bv16, k);
    }
  }

  lemma SwitchesLeave(s: UserSettings, enabled: bool, hood: bv8, mode: bv8, k: nat)
    ensures k != 0 ==> SameField(k, s.(remoteStartEnabled := enabled), s)
    ensures k != 1 ==> SameField(k, s.(hoodMonitoring := hood), s)
    ensures k != 3 ==> SameField(k, s.(driverEntryMode := mode), s)
  {
    hide HasFeature;
  }

  lemma DurationsLeave(s: UserSettings, runTime: bv32, timeout: bv32, k: nat)
    ensures k != 2 ==> SameField(k, s.(maximumRemoteRunTimeMs := runTime), s)
    ensures k != 4 ==> SameField(k, s.(driverTakeoverTimeoutMs := timeout), s)
  {
    hide HasFeature;
  }

  lemma FeatureLeaves(feature: nat, enabled: bool, s: UserSettings, k: nat)
    requires feature < 3 && k < KEY_COUNT && k != 13 + feature
    ensures SameField(k, s.(features := WithFeature(s.features, feature, enabled)), s)
  {
    if k >= 13 {
      FeatureStored(s.features, feature, enabled, k - 13);
    }
    hide WithFeature;
    hide HasFeature;
  }

  /** What an applied value leaves: its own key keeps it and every other key is left alone. */
  ghost predicate Stored(key: nat, n: nat, s: UserSettings, t: UserSettings) {
    n <= Limit(key) && Keeps(key, t, n) && forall k: nat :: k < KEY_COUNT && k != key ==> SameField(k, t, s)
  }

  lemma ModeBytes()
    ensures REQUIRED_HOOD == REQUIRE_TAKEOVER == 0 as bv8 && DISABLED_HOOD == STOP_IMMEDIATELY == 1 as bv8
  {
  }

  lemma SwitchStored(n: nat, s: UserSettings)
    requires n <= 1
    ensures Stored(0, n, s, s.(remoteStartEnabled := n == 1))
    ensures Stored(1, n, s, s.(hoodMonitoring := if n == 0 then REQUIRED_HOOD else DISABLED_HOOD))
    ensures Stored(3, n, s, s.(driverEntryMode := if n == 0 then REQUIRE_TAKEOVER else STOP_IMMEDIATELY))
  {
    ModeBytes();
    var hood := if n == 0 then REQUIRED_HOOD else DISABLED_HOOD;
    var mode := if n == 0 then REQUIRE_TAKEOVER else STOP_IMMEDIATELY;
    forall k: nat | k < KEY_COUNT
      ensures k != 0 ==> SameField(k, s.(remoteStartEnabled := n == 1), s)
      ensures k != 1 ==> SameField(k, s.(hoodMonitoring := hood), s)
      ensures k != 3 ==> SameField(k, s.(driverEntryMode := mode), s)
    {
      SwitchesLeave(s, n == 1, hood, mode, k);
    }
    hide SameField;
  }

  lemma DurationStored(n: nat, s: UserSettings)
    requires n <= UINT32_MAXIMUM
    ensures Stored(2, n, s, s.(maximumRemoteRunTimeMs := n as bv32)) && Stored(4, n, s, s.(driverTakeoverTimeoutMs := n as bv32))
  {
    var w := n as bv32;
    forall k: nat | k < KEY_COUNT
      ensures k != 2 ==> SameField(k, s.(maximumRemoteRunTimeMs := w), s)
      ensures k != 4 ==> SameField(k, s.(driverTakeoverTimeoutMs := w), s)
    {
      DurationsLeave(s, w, w, k);
    }
    hide SameField;
  }

  lemma FieldStored(key: nat, n: nat, s: UserSettings)
    requires 5 <= key < 13 && n <= Limit(key)
    ensures n <= UINT32_MAXIMUM && ApplyNumber(key, n, s).Some? && Stored(key, n, s, ApplyNumber(key, n, s).value)
  {
    NumberStored(key, n, s);
    forall k: nat | k < KEY_COUNT && k != key
      ensures SameField(k, ApplyNumber(key, n, s).value, s)
    {
      NumberLeaves(key, n, s, k);
    }
    hide SameField;
    hide ApplyNumber;
    hide Keeps;
  }

  lemma BitStored(feature: nat, enabled: bool, s: UserSettings)
    requires feature < 3
    ensures Stored(13 + feature, if enabled then 1 else 0, s, s.(features := WithFeature(s.features, feature, enabled)))
  {
    FeatureStored(s.features, feature, enabled, feature);
    hide WithFeature;
    hide HasFeature;
    forall k: nat | k < KEY_COUNT && k != 13 + feature
      ensures SameField(k, s.(features := WithFeature(s.features, feature, enabled)), s)
    {
      FeatureLeaves(feature, enabled, s, k);
    }
    hide SameField;
  }

  /**
   * A key takes a value exactly when it understands it; it then keeps what the
   * value means and every other key is left alone.
   */
  lemma ApplyExactly(key: nat, text: string, s: UserSettings)
    requires key < KEY_COUNT
    ensures match Apply(key, text, s)
            case None => Meaning(key, text).None?
            case Some(t) => Meaning(key, text).Some? && Stored(key, Meaning(key, text).value, s, t)
  {
    hide Stored;
    hide Apply;
    hide Choice;
    hide Digits;
    hide Decimal;
    hide NumberValue;
    hide ScaledValue;
    hide BooleanValue;
    hide ApplyNumber;
    hide WithFeature;
    if key == 0 || key == 1 || key == 3 {
      SwitchesApply(key, text, s);
    } else if key == 2 || key == 4 {
      DurationsApply(key, text, s);
    } else if key < 13 {
      NumbersApply(key, text, s);
    } else {
      FeaturesApply(key, text, s);
    }
  }

  lemma SwitchesApply(key: nat, text: string, s: UserSettings)
    requires key == 0 || key == 1 || key == 3
    ensures match Apply(key, text, s)
            case None => Meaning(key, text).None?
            case Some(t) => Meaning(key, text).Some? && Stored(key, Meaning(key, text).value, s, t)
  {
    SwitchMeans(text);
    ApplyEnabled(text, s);
    ApplyHood(text, s);
    ApplyEntryMode(text, s);
    hide Apply;
    hide Choice;
    hide BooleanValue;
    hide Stored;
    hide Digits;
    hide Decimal;
    if Meaning(key, text).Some? {
      SwitchStored(Meaning(key, text).value, s);
    }
  }

  lemma DurationMeaning(key: nat, text: string)
    requires key == 2 || key == 4
    ensures Meaning(key, text)
            == if Digits(text) && Decimal(text) * Unit(key) <= UINT32_MAXIMUM then Some(Decimal(text) * Unit(key)) else None
  {
    hide Choice;
    hide Digits;
    hide Decimal;
  }

  lemma DurationsApply(key: nat, text: string, s: UserSettings)
    requires key == 2 || key == 4
    ensures match Apply(key, text, s)
            case None => Meaning(key, text).None?
            case Some(t) => Meaning(key, text).Some? && Stored(key, Meaning(key, text).value, s, t)
  {
    ApplyDuration(text, s);
    hide Apply;
    hide ScaledValue;
    hide Choice;
    hide Stored;
    hide Digits;
    hide Decimal;
    ScaledMeans(text, if key == 2 then MINUTE else SECOND);
    DurationMeaning(key, text);
    hide Meaning;
    if Meaning(key, text).Some? {
      DurationStored(Meaning(key, text).value, s);
    }
  }

  lemma NumbersApply(key: nat, text: string, s: UserSettings)
    requires 5 <= key < 13
    ensures match Apply(key, text, s)
            case None => Meaning(key, text).None?
            case Some(t) => Meaning(key, text).Some? && Stored(key, Meaning(key, text).value, s, t)
  {
    NumberMeans(text);
    ApplyKeepsNumber(key, text, s);
    if NumberValue(text).Some? {
      NumberStored(key, NumberValue(text).value, s);
    }
    hide Apply;
    hide ApplyNumber;
    hide NumberValue;
    hide Choice;
    hide Stored;
    hide Digits;
    hide Decimal;
    if Meaning(key, text).Some? {
      FieldStored(key, Meaning(key, text).value, s);
    }
  }

  lemma FeaturesApply(key: nat, text: string, s: UserSettings)
    requires 13 <= key < KEY_COUNT
    ensures match Apply(key, text, s)
            case None => Meaning(key, text).None?
            case Some(t) => Meaning(key, text).Some? && Stored(key, Meaning(key, text).value, s, t)
  {
    SwitchMeans(text);
    ApplyFeature(key, text, s);
    hide Apply;
    hide BooleanValue;
    hide Choice;
    hide WithFeature;
    hide Stored;
    hide Digits;
    hide Decimal;
    if BooleanValue(text).Some? {
      BitStored(key - 13, BooleanValue(text).value, s);
    }
  }

  // ---------- a file ----------

  /** The line sets the key, and to a value the key understands as this. */
  ghost predicate Gives(line: string, key: nat, n: nat) {
    exists value :: Sets(line, key, value) && Meaning(key, value) == Some(n)
  }

  ghost predicate GoodLine(line: string) {
    Empty(line) || exists key: nat, n: nat :: Gives(line, key, n)
  }

  /** Line i is the one that gives the key this. */
  ghost predicate GivenAt(lines: seq<string>, i: nat, key: nat, n: nat) {
    i < |lines| && Gives(lines[i], key, n)
  }

  /** Every line is empty or gives some key something, and no two lines give the same key. */
  ghost predicate WellFormed(lines: seq<string>) {
    && (forall i :: 0 <= i < |lines| ==> GoodLine(lines[i]))
    && forall i: nat, j: nat, key: nat, m: nat, n: nat :: GivenAt(lines, i, key, m) && GivenAt(lines, j, key, n) ==> i == j
  }

  /** The settings hold what the file gives each key, and the default for every other key. */
  ghost predicate Holds(lines: seq<string>, s: UserSettings) {
    forall key: nat :: key < KEY_COUNT ==>
      && (forall i: nat, n: nat :: GivenAt(lines, i, key, n) ==> n <= Limit(key) && Keeps(key, s, n))
      && ((forall i: nat, n: nat :: !GivenAt(lines, i, key, n)) ==> SameField(key, s, DEFAULT_SETTINGS))
  }

  /** The keys taken so far are those the lines give. */
  ghost predicate Knows(lines: seq<string>, keys: seq<string>) {
    forall key: nat :: key < KEY_COUNT ==> (KEYS[key] in keys <==> exists i: nat, n: nat :: GivenAt(lines, i, key, n))
  }

  lemma GivesOnce(line: string, key: nat, n: nat, other: nat, m: nat)
    requires Gives(line, key, n) && Gives(line, other, m)
    ensures key == other && n == m && key < KEY_COUNT && !Empty(line) && n <= Limit(key)
  {
    var value :| Sets(line, key, value) && Meaning(key, value) == Some(n);
    var otherValue :| Sets(line, other, otherValue) && Meaning(other, otherValue) == Some(m);
    SetsOnce(line, key, value, other, otherValue);
    LineExactly(line, NOTHING_PARSED);
    hide Sets;
    hide ParseLine;
    hide Taken;
  }

  /** What one more line makes of what is parsed: nothing, a new key with what it is given, or a refusal. */
  lemma LineStep(line: string, p: Parsing)
    ensures Empty(line) ==> ParseLine(line, p) == Some(p)
    ensures forall key: nat, n: nat :: Gives(line, key, n) ==>
              && key < KEY_COUNT && !Empty(line)
              && if KEYS[key] in p.keys then ParseLine(line, p) == None
                 else
                   && ParseLine(line, p).Some? && ParseLine(line, p).value.keys == p.keys + [KEYS[key]]
                   && Stored(key, n, p.settings, ParseLine(line, p).value.settings)
    ensures !GoodLine(line) ==> ParseLine(line, p) == None
  {
    LineExactly(line, p);
    assert |KEYS| == KEY_COUNT;
    hide Sets;
    hide Empty;
    hide ParseLine;
    hide Meaning;
    hide Stored;
    hide KEYS;
    forall key: nat, value | Sets(line, key, value)
      ensures key < KEY_COUNT && match Meaning(key, value)
              case None => ParseLine(line, p) == None
              case Some(n) =>
                if KEYS[key] in p.keys then ParseLine(line, p) == None
                else
                  && ParseLine(line, p).Some? && ParseLine(line, p).value.keys == p.keys + [KEYS[key]]
                  && Stored(key, n, p.settings, ParseLine(line, p).value.settings)
    {
      ApplyExactly(key, value, p.settings);
    }
    hide Taken;
    forall key: nat, value | Sets(line, key, value) && Meaning(key, value).Some?
      ensures GoodLine(line)
    {
      assert Gives(line, key, Meaning(key, value).value);
    }
  }

  lemma GivenInFront(front: seq<string>, line: string)
    ensures forall i: nat, key: nat, n: nat ::
              GivenAt(front + [line], i, key, n) <==> GivenAt(front, i, key, n) || (i == |front| && Gives(line, key, n))
  {
    hide Gives;
  }

  lemma FrontWellFormed(front: seq<string>, line: string)
    ensures WellFormed(front + [line]) <==>
            && WellFormed(front) && GoodLine(line)
            && forall i: nat, key: nat, m: nat, n: nat :: Gives(line, key, n) ==> !GivenAt(front, i, key, m)
  {
    var lines := front + [line];
    GivenInFront(front, line);
    hide Gives;
    hide GoodLine;
    assert lines[|front|] == line && forall i :: 0 <= i < |front| ==> lines[i] == front[i];
    hide GivenAt;
    if WellFormed(lines) {
      forall i: nat, key: nat, m: nat, n: nat | Gives(line, key, n)
        ensures !GivenAt(front, i, key, m)
      {
        assert GivenAt(lines, |front|, key, n);
        if GivenAt(front, i, key, m) {
          GivenBefore(front, i, key, m);
        }
      }
    }
  }

  lemma GivenBefore(lines: seq<string>, i: nat, key: nat, n: nat)
    requires GivenAt(lines, i, key, n)
    ensures i < |lines|
  {
  }

  lemma SameKeeps(key: nat, s: UserSettings, t: UserSettings, n: nat)
    requires n <= Limit(key) && SameField(key, t, s)
    ensures Keeps(key, s, n) ==> Keeps(key, t, n)
  {
    hide HasFeature;
  }

  lemma SameAsDefault(key: nat, s: UserSettings, t: UserSettings)
    requires SameField(key, t, s) && SameField(key, s, DEFAULT_SETTINGS)
    ensures SameField(key, t, DEFAULT_SETTINGS)
  {
    hide HasFeature;
    hide DEFAULT_SETTINGS;
  }

  lemma EmptyLineHolds(front: seq<string>, line: string, p: Parsing)
    requires Empty(line) && WellFormed(front) && Holds(front, p.settings) && Knows(front, p.keys)
    ensures WellFormed(front + [line]) && Holds(front + [line], p.settings) && Knows(front + [line], p.keys)
  {
    forall key: nat, n: nat
      ensures !Gives(line, key, n)
    {
      if Gives(line, key, n) {
        GivesOnce(line, key, n, key, n);
      }
    }
    GivenInFront(front, line);
    FrontWellFormed(front, line);
    hide Empty;
    hide Gives;
    hide GivenAt;
    hide Keeps;
    hide SameField;
    hide KEYS;
    hide WellFormed;
  }

  lemma GivenLineHolds(front: seq<string>, line: string, p: Parsing, key: nat, n: nat, q: Parsing)
    requires Gives(line, key, n) && key < KEY_COUNT && KEYS[key] !in p.keys
    requires WellFormed(front) && Holds(front, p.settings) && Knows(front, p.keys)
    requires q.keys == p.keys + [KEYS[key]] && Stored(key, n, p.settings, q.settings)
    ensures WellFormed(front + [line]) && Holds(front + [line], q.settings) && Knows(front + [line], q.keys)
  {
    forall other: nat, m: nat | Gives(line, other, m)
      ensures other == key && m == n
    {
      GivesOnce(line, key, n, other, m);
    }
    GivenInFront(front, line);
    FrontWellFormed(front, line);
    GivenLineKnows(front, line, p, key, n, q);
    assert GoodLine(line);
    hide Gives;
    hide GivenAt;
    hide Keeps;
    hide SameField;
    hide GoodLine;
    hide KEYS;
    hide WellFormed;
    forall k: nat | k < KEY_COUNT
      ensures forall i: nat, m: nat :: GivenAt(front + [line], i, k, m) ==> m <= Limit(k) && Keeps(k, q.settings, m)
      ensures (forall i: nat, m: nat :: !GivenAt(front + [line], i, k, m)) ==> SameField(k, q.settings, DEFAULT_SETTINGS)
    {
      if k == key {
        assert GivenAt(front + [line], |front|, key, n);
      } else {
        forall i: nat, m: nat | GivenAt(front + [line], i, k, m)
          ensures m <= Limit(k) && Keeps(k, q.settings, m)
        {
          SameKeeps(k, p.settings, q.settings, m);
        }
        if forall i: nat, m: nat :: !GivenAt(front + [line], i, k, m) {
          SameAsDefault(k, p.settings, q.settings);
        }
      }
    }
  }

  lemma GivenLineKnows(front: seq<string>, line: string, p: Parsing, key: nat, n: nat, q: Parsing)
    requires Gives(line, key, n) && key < KEY_COUNT && Knows(front, p.keys) && q.keys == p.keys + [KEYS[key]]
    ensures Knows(front + [line], q.keys)
  {
    forall other: nat, m: nat | Gives(line, other, m)
      ensures other == key && m == n
    {
      GivesOnce(line, key, n, other, m);
    }
    GivenInFront(front, line);
    assert |KEYS| == KEY_COUNT;
    hide Gives;
    hide GivenAt;
    hide KEYS;
    forall k: nat | k < KEY_COUNT
      ensures KEYS[k] in q.keys <==> exists i: nat, m: nat :: GivenAt(front + [line], i, k, m)
    {
      if k == key {
        assert GivenAt(front + [line], |front|, key, n);
      } else if k < key {
        KeysDiffer(k, key);
      } else {
        KeysDiffer(key, k);
      }
    }
  }

  /**
   * A file parses exactly when every line is empty or gives some key a value it
   * understands, and no two lines give the same key; the settings then hold
   * what each key is given, and the default for every other key.
   */
  lemma {:induction false} FileExactly(lines: seq<string>)
    ensures match ParseLines(lines)
            case None => !WellFormed(lines)
            case Some(p) => WellFormed(lines) && Holds(lines, p.settings) && Knows(lines, p.keys)
  {
    if lines == [] {
      NothingGiven();
    } else {
      var front, line := lines[..|lines| - 1], lines[|lines| - 1];
      assert front + [line] == lines;
      FileExactly(front);
      FrontWellFormed(front, line);
      hide ParseLine;
      hide WellFormed;
      hide Holds;
      hide Knows;
      if ParseLines(front).Some? {
        FileStep(front, line, ParseLines(front).value);
      }
    }
  }

  lemma NothingGiven()
    ensures WellFormed([]) && Holds([], DEFAULT_SETTINGS) && Knows([], [])
  {
    hide DEFAULT_SETTINGS;
  }

  lemma FileStep(front: seq<string>, line: string, p: Parsing)
    requires WellFormed(front) && Holds(front, p.settings) && Knows(front, p.keys)
    ensures match ParseLine(line, p)
            case None => !WellFormed(front + [line])
            case Some(q) => WellFormed(front + [line]) && Holds(front + [line], q.settings) && Knows(front + [line], q.keys)
  {
    LineStep(line, p);
    FrontWellFormed(front, line);
    assert |KEYS| == KEY_COUNT;
    hide ParseLine;
    hide WellFormed;
    hide Holds;
    hide Empty;
    hide Gives;
    hide Stored;
    hide GivenAt;
    hide KEYS;
    if Empty(line) {
      EmptyLineHolds(front, line, p);
    } else if exists key: nat, n: nat :: Gives(line, key, n) {
      var key: nat, n: nat :| Gives(line, key, n);
      if KEYS[key] !in p.keys {
        GivenLineHolds(front, line, p, key, n, ParseLine(line, p).value);
      }
    }
  }

  /** A newline after each line gives the text back, but for the one missing at its end. */
  predicate Rebuilds(lines: seq<string>, text: string) {
    Joined(lines) == text || (text != "" && text[|text| - 1] != '\n' && Joined(lines) == text + "\n")
  }

  lemma {:induction false} OneMoreInFront(line: string, lines: seq<string>, rest: string)
    requires Rebuilds(lines, rest)
    ensures Rebuilds([line] + lines, line + "\n" + rest)
  {
    assert ([line] + lines)[1..] == lines;
    var text := line + "\n" + rest;
    assert rest != "" ==> text[|text| - 1] == rest[|rest| - 1];
    assert line + "\n" + (rest + "\n") == text + "\n";
  }

  /** The lines of a text hold no newline and give the text back. */
  lemma {:induction false} LinesRebuild(text: string)
    ensures NoNewlines(Lines(text)) && Rebuilds(Lines(text), text)
    decreases |text|
  {
    if text != "" {
      var j := IndexOf(text, '\n');
      hide Rebuilds;
      hide Lines;
      if j == |text| {
        LastLine(text);
      } else {
        FirstLine(text);
        LinesRebuild(text[j + 1..]);
        OneMoreInFront(text[..j], Lines(text[j + 1..]), text[j + 1..]);
      }
    }
  }

  lemma {:induction false} FirstLine(text: string)
    requires IndexOf(text, '\n') < |text|
    ensures var j := IndexOf(text, '\n');
            && '\n' !in text[..j] && text == text[..j] + "\n" + text[j + 1..]
            && Lines(text) == [text[..j]] + Lines(text[j + 1..])
  {
    hide IndexOf;
  }

  lemma {:induction false} LastLine(text: string)
    requires text != "" && IndexOf(text, '\n') == |text|
    ensures Lines(text) == [text] && NoNewlines([text]) && Rebuilds([text], text)
  {
    assert text[..|text|] == text && Joined([]) == "" && [text][1..] == [];
    assert text[|text| - 1] in text;
  }

  /**
   * So a text is accepted exactly when its lines are well formed and what they
   * hold is within bounds, and then it is what they hold.
   */
  lemma TextExactly(text: string)
    ensures match ParseText(text)
            case Some(s) => WellFormed(Lines(text)) && Holds(Lines(text), s) && Valid(s)
            case None => WellFormed(Lines(text)) ==> exists s :: Holds(Lines(text), s) && !Valid(s)
  {
    FileExactly(Lines(text));
    hide ParseLines;
    hide WellFormed;
    hide Holds;
    hide Valid;
    hide Lines;
  }
}
