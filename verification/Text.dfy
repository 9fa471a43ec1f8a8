/** Fields and numbers in text. */
module Text {

  /** The first position of a character, or the length. */
  function IndexOf(s: string, c: char): (i: nat)
    ensures i <= |s| && c !in s[..i] && (i < |s| ==> s[i] == c)
  {
    if s == "" || s[0] == c then 0
    else
      var i := IndexOf(s[1..], c);
      assert s[..1 + i] == [s[0]] + s[1..][..i];
      1 + i
  }

  /** The fields between separators, at least one. */
  function SplitOn(line: string, c: char): (fields: seq<string>)
    ensures |fields| > 0
    decreases |line|
  {
    var i := IndexOf(line, c);
    if i == |line| then [line] else [line[..i]] + SplitOn(line[i + 1..], c)
  }

  lemma {:induction false} IndexOfFirst(a: string, c: char, b: string)
    requires c !in a
    ensures IndexOf(a + [c] + b, c) == |a|
  {
    if a == "" {
      assert a + [c] + b == [c] + b;
    } else {
      assert (a + [c] + b)[1..] == a[1..] + [c] + b;
      IndexOfFirst(a[1..], c, b);
    }
  }

  lemma {:induction false} IndexOfAbsent(a: string, c: char)
    requires c !in a
    ensures IndexOf(a, c) == |a|
  {
    if a != "" {
      IndexOfAbsent(a[1..], c);
    }
  }

  lemma FirstField(a: string, c: char, rest: string)
    requires c !in a
    ensures SplitOn(a + [c] + rest, c) == [a] + SplitOn(rest, c)
  {
    IndexOfFirst(a, c, rest);
    var line := a + [c] + rest;
    assert line[..|a|] == a && line[|a| + 1..] == rest;
  }

  lemma LastField(a: string, c: char)
    requires c !in a
    ensures SplitOn(a, c) == [a]
  {
    IndexOfAbsent(a, c);
  }

  // ---------- lines ----------

  /** The lines of a text, each ended by a newline but perhaps the last. */
  function Lines(text: string): seq<string>
    decreases |text|
  {
    if text == "" then []
    else
      var j := IndexOf(text, '\n');
      if j == |text| then [text] else [text[..j]] + Lines(text[j + 1..])
  }

  /** The lines with a newline after each. */
  function Joined(lines: seq<string>): string {
    if lines == [] then "" else lines[0] + "\n" + Joined(lines[1..])
  }

  predicate NoNewlines(lines: seq<string>) {
    forall i :: 0 <= i < |lines| ==> '\n' !in lines[i]
  }

  lemma {:induction false} FirstOfLines(line: string, rest: string)
    requires '\n' !in line
    ensures Lines(line + "\n" + rest) == [line] + Lines(rest)
  {
    IndexOfFirst(line, '\n', rest);
    hide IndexOf;
    var text := line + "\n" + rest;
    assert text[..|line|] == line && text[|line| + 1..] == rest;
  }

  /** Lines joined with newlines and cut at newlines are the same lines. */
  lemma {:induction false} LinesOfJoined(lines: seq<string>)
    requires NoNewlines(lines)
    ensures Lines(Joined(lines)) == lines
  {
    if lines == [] {
    } else {
      hide Lines;
      FirstOfLines(lines[0], Joined(lines[1..]));
      LinesOfJoined(lines[1..]);
    }
  }

  // ---------- numbers ----------

  const DIGITS: string := "0123456789ABCDEF"

  /** The value of a digit of a base up to sixteen; both letter cases count. */
  function DigitValue(c: char): (v: nat)
    ensures v <= 16
  {
    if '0' <= c <= '9' then (c - '0') as nat
    else if 'a' <= c <= 'f' then (c - 'a') as nat + 10
    else if 'A' <= c <= 'F' then (c - 'A') as nat + 10
    else 16
  }

  /** A non-empty text of digits of the base. */
  predicate IsNumber(s: string, base: nat) {
    s != "" && forall i :: 0 <= i < |s| ==> DigitValue(s[i]) < base
  }

  /** Numbers are written in base ten or sixteen. */
  predicate IsBase(base: nat) {
    base == 10 || base == 16
  }

  function Times(v: nat, base: nat): nat
    requires IsBase(base)
  {
    if base == 10 then 10 * v else 16 * v
  }

  function Quotient(n: nat, base: nat): nat
    requires IsBase(base)
  {
    if base == 10 then n / 10 else n / 16
  }

  function Remainder(n: nat, base: nat): (r: nat)
    requires IsBase(base)
    ensures r < base
  {
    if base == 10 then n % 10 else n % 16
  }

  lemma Division(n: nat, base: nat)
    requires IsBase(base)
    ensures n == Times(Quotient(n, base), base) + Remainder(n, base)
    ensures n >= base ==> 0 < Quotient(n, base) < n
  {
  }

  function Value(s: string, base: nat): nat
    requires IsBase(base)
  {
    if s == "" then 0 else Times(Value(s[..|s| - 1], base), base) + DigitValue(s[|s| - 1])
  }

  /** The digits of a number, without leading zeros. */
  function Printed(n: nat, base: nat): (s: string)
    requires IsBase(base)
    ensures s != ""
    decreases n
  {
    Division(n, base);
    if n < base then [DIGITS[n]] else Printed(Quotient(n, base), base) + [DIGITS[Remainder(n, base)]]
  }

  lemma DigitOf(d: nat)
    requires d < 16
    ensures DigitValue(DIGITS[d]) == d && (d < 10 ==> '0' <= DIGITS[d] <= '9') && (d >= 10 ==> 'A' <= DIGITS[d] <= 'F')
  {
  }

  lemma AnotherDigit(s: string, d: nat, base: nat)
    requires IsBase(base) && d < base && IsNumber(s, base)
    ensures IsNumber(s + [DIGITS[d]], base) && Value(s + [DIGITS[d]], base) == Times(Value(s, base), base) + d
  {
    DigitOf(d);
    hide DigitValue;
    hide Times;
    assert (s + [DIGITS[d]])[..|s|] == s;
  }

  /** Printing a number and reading it back returns it. */
  lemma {:induction false} ValueOfPrinted(n: nat, base: nat)
    requires IsBase(base)
    ensures IsNumber(Printed(n, base), base) && Value(Printed(n, base), base) == n
    decreases n
  {
    Division(n, base);
    if n < base {
      DigitOf(n);
      assert [DIGITS[n]][..0] == "";
    } else {
      ValueOfPrinted(Quotient(n, base), base);
      AnotherDigit(Printed(Quotient(n, base), base), Remainder(n, base), base);
    }
  }

  /** A printed number is made of capital digits only. */
  lemma {:induction false} PrintedPlain(n: nat, base: nat)
    requires IsBase(base)
    ensures forall c :: c in Printed(n, base) ==> '0' <= c <= '9' || 'A' <= c <= 'F'
    decreases n
  {
    Division(n, base);
    if n < base {
      DigitOf(n);
    } else {
      PrintedPlain(Quotient(n, base), base);
      DigitOf(Remainder(n, base));
    }
  }
}
