/** Character-level helpers standing in for the JDK calls the plugin makes:
    `BufferedReader.readLine`, `String.startsWith`, `Integer.toString` and
    the digit scanning inside `Integer.parseInt`. */
module Text {

  predicate StartsWith(s: string, prefix: string) {
    |prefix| <= |s| && s[..|prefix|] == prefix
  }

  // ---------------------------------------------------------------------
  // Lines, as java.io.BufferedReader.readLine splits them
  // ---------------------------------------------------------------------

  /** readLine ends a line at '\n', at '\r', or at "\r\n". */
  predicate IsLineTerminator(c: char) {
    c == '\n' || c == '\r'
  }

  predicate NoLineTerminator(s: string) {
    forall i :: 0 <= i < |s| ==> !IsLineTerminator(s[i])
  }

  /** Length of the first line of `s`, i.e. the index of its first terminator. */
  function LineEnd(s: string): (k: nat)
    ensures k <= |s|
    ensures NoLineTerminator(s[..k])
    ensures k < |s| ==> IsLineTerminator(s[k])
  {
    if s == [] || IsLineTerminator(s[0]) then 0
    else
      var k := 1 + LineEnd(s[1..]);
      assert s[..k] == [s[0]] + s[1..][..k - 1];
      k
  }

  /** The lines successive readLine calls return before they return null:
      terminators are dropped, "\r\n" counts as one terminator, and a final
      terminator does not start an empty last line. */
  function ReadLines(text: string): (lines: seq<string>)
    ensures forall i :: 0 <= i < |lines| ==> NoLineTerminator(lines[i])
    ensures text != [] <==> lines != []
    decreases |text|
  {
    if text == [] then []
    else
      var k := LineEnd(text);
      if k == |text| then [text]
      else
        var next := if text[k] == '\r' && k + 1 < |text| && text[k + 1] == '\n' then k + 2 else k + 1;
        [text[..k]] + ReadLines(text[next..])
  }

  /** Every line followed by "\n": the text readLine splits back into those lines. */
  function Unlines(lines: seq<string>): string {
    if lines == [] then [] else lines[0] + "\n" + Unlines(lines[1..])
  }

  lemma {:induction false} LineEndOfLine(line: string, rest: string)
    requires NoLineTerminator(line)
    ensures LineEnd(line + "\n" + rest) == |line|
  {
    if line != [] {
      assert (line + "\n" + rest)[1..] == line[1..] + "\n" + rest;
      LineEndOfLine(line[1..], rest);
    }
  }

  /** Splitting is the inverse of joining with newlines. */
  lemma {:induction false} ReadLinesUnlines(lines: seq<string>)
    requires forall i :: 0 <= i < |lines| ==> NoLineTerminator(lines[i])
    ensures ReadLines(Unlines(lines)) == lines
  {
    if lines != [] {
      var text := Unlines(lines);
      LineEndOfLine(lines[0], Unlines(lines[1..]));
      assert text[..|lines[0]|] == lines[0];
      assert text[|lines[0]|] == '\n';
      assert text[|lines[0]| + 1..] == Unlines(lines[1..]);
      ReadLinesUnlines(lines[1..]);
    }
  }

  // ---------------------------------------------------------------------
  // Decimal numbers
  // ---------------------------------------------------------------------

  /** The regular-expression class [0-9]: ASCII digits only. */
  predicate IsDigit(c: char) {
    '0' <= c <= '9'
  }

  predicate AllDigits(s: string) {
    forall i :: 0 <= i < |s| ==> IsDigit(s[i])
  }

  function DigitValue(c: char): (d: nat)
    requires IsDigit(c)
    ensures d < 10
  {
    c as int - '0' as int
  }

  function DigitChar(d: nat): (c: char)
    requires d < 10
    ensures IsDigit(c) && DigitValue(c) == d
  {
    ('0' as int + d) as char
  }

  /** Length of the run of digits that `s` starts with. */
  function DigitRun(s: string): (k: nat)
    ensures k <= |s|
    ensures AllDigits(s[..k])
    ensures k < |s| ==> !IsDigit(s[k])
  {
    if s == [] || !IsDigit(s[0]) then 0
    else
      var k := 1 + DigitRun(s[1..]);
      assert s[..k] == [s[0]] + s[1..][..k - 1];
      k
  }

  /** The value of a digit string read most significant digit first, as
      Integer.parseInt reads it (leading zeros allowed). */
  function DigitsValue(s: string): nat
    requires AllDigits(s)
  {
    if s == [] then 0 else DigitsValue(s[..|s| - 1]) * 10 + DigitValue(s[|s| - 1])
  }

  /** The shortest decimal form of `n`, without sign or leading zeros. */
  function NatToDigits(n: nat): (s: string)
    ensures |s| > 0 && AllDigits(s)
    ensures |s| > 1 ==> s[0] != '0'
  {
    if n < 10 then [DigitChar(n)] else NatToDigits(n / 10) + [DigitChar(n % 10)]
  }

  lemma {:induction false} DigitsValueOfNatToDigits(n: nat)
    ensures DigitsValue(NatToDigits(n)) == n
  {
    if n >= 10 {
      var s := NatToDigits(n);
      assert s[..|s| - 1] == NatToDigits(n / 10);
      DigitsValueOfNatToDigits(n / 10);
    }
  }

  lemma {:induction false} DigitRunOfDigits(ds: string, rest: string)
    requires AllDigits(ds)
    requires rest == [] || !IsDigit(rest[0])
    ensures DigitRun(ds + rest) == |ds|
  {
    if ds != [] {
      assert (ds + rest)[1..] == ds[1..] + rest;
      DigitRunOfDigits(ds[1..], rest);
    }
  }

  /** Integer.toString: a minus sign for negative values, then the digits. */
  function IntToString(i: int): (s: string)
    ensures i < 0 ==> |s| > 1 && s[0] == '-' && AllDigits(s[1..]) && DigitsValue(s[1..]) == -i
    ensures i >= 0 ==> AllDigits(s) && DigitsValue(s) == i
  {
    DigitsValueOfNatToDigits(if i < 0 then -i else i);
    if i < 0 then
      assert ("-" + NatToDigits(-i))[1..] == NatToDigits(-i);
      "-" + NatToDigits(-i)
    else NatToDigits(i)
  }
}
