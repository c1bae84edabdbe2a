/** HunkRange and UnifiedDiff: the new-file line ranges of the hunks of one
    file's unified diff, as GitLab returns it for a commit. */
module Diff {
  import opened Wrappers
  import opened Text
  import opened Api

  /** The new-file lines [start, start + lineCount) of one hunk. */
  datatype HunkRange = HunkRange(start: int, lineCount: int) {
    /** A hunk holds only lines from its start on, and only when it covers
        at least one new-file line. */
    predicate ContainsLine(line: int)
      ensures ContainsLine(line) ==> lineCount > 0 && start <= line
    {
      line >= start && line < start + lineCount
    }
  }

  lemma ContainsLineExamples()
    ensures HunkRange(5, 7).ContainsLine(5) && !HunkRange(5, 7).ContainsLine(4)
    ensures HunkRange(5, 7).ContainsLine(11) && !HunkRange(5, 7).ContainsLine(12)
    ensures !HunkRange(5, 7).ContainsLine(25)
  {
  }

  /** A hunk that covers no new-file line (a pure deletion) contains no line. */
  lemma EmptyRangeContainsNothing(h: HunkRange, line: int)
    requires h.lineCount <= 0
    ensures !h.ContainsLine(line)
  {
  }

  // ---------------------------------------------------------------------
  // The hunk header: HEADER_REGEX, matched against a whole line. It reads
  // "@@", one White_Space character, "-", the old start, an optional comma
  // and old count, one White_Space character, "+", the new start (group 1),
  // an optional comma and new count (group 2), one White_Space character,
  // "@@", and then any characters other than line terminators.
  // ---------------------------------------------------------------------

  /** The Unicode White_Space property, which \p{IsWhite_Space} matches. */
  predicate IsWhiteSpace(c: char) {
    var n := c as int;
    (0x09 <= n <= 0x0D) || n == 0x20 || n == 0x85 || n == 0xA0 || n == 0x1680
    || (0x2000 <= n <= 0x200A) || n == 0x2028 || n == 0x2029 || n == 0x202F
    || n == 0x205F || n == 0x3000
  }

  /** The characters that Java's `.` does not match (no DOTALL, no UNIX_LINES). */
  predicate IsRegexLineTerminator(c: char) {
    var n := c as int;
    n == 0x0A || n == 0x0D || n == 0x85 || n == 0x2028 || n == 0x2029
  }

  function Skip(prefix: string, s: string): (r: Option<string>)
    ensures r.Some? ==> s == prefix + r.value
  {
    if StartsWith(s, prefix) then
      assert s == s[..|prefix|] + s[|prefix|..];
      Some(s[|prefix|..])
    else None
  }

  function Space(s: string): (r: Option<string>)
    ensures r.Some? ==> s != [] && IsWhiteSpace(s[0]) && r.value == s[1..]
  {
    if s != [] && IsWhiteSpace(s[0]) then Some(s[1..]) else None
  }

  /** [0-9]+ : a non-empty run of digits and its value. */
  function Number(s: string): (r: Option<(nat, string)>)
    ensures r.Some? ==> |r.value.1| < |s|
  {
    var k := DigitRun(s);
    if k == 0 then None else Some((DigitsValue(s[..k]), s[k..]))
  }

  /** (?:,([0-9]+))? followed by a character that is neither a digit nor a
      comma: the group is absent unless a comma follows, and a comma must be
      followed by digits. */
  function Count(s: string): Option<(Option<nat>, string)> {
    if s != [] && s[0] == ',' then
      var n :- Number(s[1..]);
      Some((Some(n.0), n.1))
    else Some((None, s))
  }

  /** The characters `.*` may run over: none of them ends a line. */
  predicate NoRegexLineTerminator(section: string) {
    forall i :: 0 <= i < |section| ==> !IsRegexLineTerminator(section[i])
  }

  /** One side of the header: the sign, the start, the optional comma and
      count, and the White_Space character after them. On success, the
      start, the count and the text after the separator. */
  function MatchRange(sign: string, s: string): Option<(nat, Option<nat>, string)> {
    var s1 :- Skip(sign, s);
    var start :- Number(s1);
    var count :- Count(start.1);
    var rest :- Space(count.1);
    Some((start.0, count.0, rest))
  }

  /** Match the whole line against HEADER_REGEX; on success, group 1 (the
      new-file start) and group 2 (the new-file count, absent when the
      header omits it). The old-file numbers are matched and dropped. */
  function MatchHeader(line: string): (r: Option<(nat, Option<nat>)>)
    ensures r.Some? ==> StartsWith(line, "@@")
  {
    var opening :- Opening(line);
    var oldSide :- MatchRange("-", opening.1);
    var newSide :- MatchRange("+", oldSide.2);
    var _ :- Closing(newSide.2);
    assert line[..2] == "@@";
    Some((newSide.0, newSide.1))
  }

  /** The header's start: "@@" and one White_Space character; that
      character and the text after it. */
  function Opening(line: string): (r: Option<(char, string)>)
    ensures r.Some? ==> IsWhiteSpace(r.value.0) && line == "@@" + ([r.value.0] + r.value.1)
  {
    var s1 :- Skip("@@", line);
    var s2 :- Space(s1);
    assert s1 == [s1[0]] + s2;
    Some((s1[0], s2))
  }

  /** The header's end: "@@" and a section `.*` runs over to the end of
      the line; the section. */
  function Closing(s: string): (r: Option<string>)
    ensures r.Some? ==> s == "@@" + r.value && NoRegexLineTerminator(r.value)
  {
    var section :- Skip("@@", s);
    if NoRegexLineTerminator(section) then Some(section) else None
  }

  function HeaderError(hunkHeader: string): Exception {
    IllegalArgument("Failed to parse hunk header: " + hunkHeader)
  }

  /** parseHeader, with an omitted new-file count read as 1, the one-line
      hunk of the unified format. A line that does not match fails with
      "Failed to parse hunk header: <line>". */
  function ParseHeader(hunkHeader: string): (r: Result<HunkRange, Exception>)
    ensures r.Err? ==> r.error == HeaderError(hunkHeader)
    ensures r.Ok? ==> StartsWith(hunkHeader, "@@") && r.value.start >= 0 && r.value.lineCount >= 0
  {
    match MatchHeader(hunkHeader)
    case None => Err(HeaderError(hunkHeader))
    case Some((start, count)) => Ok(HunkRange(start, count.GetOr(1)))
  }

  /** parseHeader as the source states it: `Integer.parseInt(matcher.group(2))`
      is also applied when group 2 did not participate in the match, and
      parseInt(null) throws NumberFormatException("null"), the message JDK 8
      gives (later JDKs say "Cannot parse null string: null"). */
  function ParseHeaderAsWritten(hunkHeader: string): (r: Result<HunkRange, Exception>)
    ensures r.Ok? ==> ParseHeader(hunkHeader) == r
  {
    match MatchHeader(hunkHeader)
    case None => Err(HeaderError(hunkHeader))
    case Some((start, None)) => Err(NumberFormat("null"))
    case Some((start, Some(count))) => Ok(HunkRange(start, count))
  }

  // ---------------------------------------------------------------------
  // The header grammar as text, and reading it back
  // ---------------------------------------------------------------------

  /** [0-9]+ : a non-empty run of ASCII digits, leading zeros allowed. */
  predicate IsNumeral(ds: string) {
    ds != [] && AllDigits(ds)
  }

  /** The optional ",<digits>" of a range; None when it is left out. */
  predicate IsCountNumeral(count: Option<string>) {
    count.Some? ==> IsNumeral(count.value)
  }

  function CountPart(count: Option<string>): string {
    if count.None? then "" else "," + count.value
  }

  /** What group 2 captures, read as a number. */
  function CountValue(count: Option<string>): Option<nat>
    requires IsCountNumeral(count)
  {
    if count.None? then None else Some(DigitsValue(count.value))
  }

  /** One side of a header as text: the sign, the start, the optional
      ",<count>", the separator, and what follows it. */
  function RangeText(sign: string, start: string, count: Option<string>, w: char, rest: string): string {
    sign + (start + (CountPart(count) + ([w] + rest)))
  }

  /** A hunk header "@@ -l[,s] +l[,s] @@<section>" assembled from its
      parts: the numerals as written, the three White_Space separators and
      the trailing section. */
  function HeaderText(oldStart: string, oldCount: Option<string>, newStart: string, newCount: Option<string>,
                      w1: char, w2: char, w3: char, section: string): string
  {
    "@@" + ([w1] + RangeText("-", oldStart, oldCount, w2, RangeText("+", newStart, newCount, w3, "@@" + section)))
  }

  /** The parts of a text that HEADER_REGEX matches in full. */
  predicate HeaderParts(oldStart: string, oldCount: Option<string>, newStart: string, newCount: Option<string>,
                        w1: char, w2: char, w3: char, section: string)
  {
    && IsNumeral(oldStart) && IsCountNumeral(oldCount) && IsNumeral(newStart) && IsCountNumeral(newCount)
    && IsWhiteSpace(w1) && IsWhiteSpace(w2) && IsWhiteSpace(w3)
    && NoRegexLineTerminator(section)
  }

  /** The lines of the header grammar: those assembled from valid parts. */
  ghost predicate IsHeaderLine(line: string) {
    exists oldStart, oldCount, newStart, newCount, w1, w2, w3, section ::
      HeaderParts(oldStart, oldCount, newStart, newCount, w1, w2, w3, section)
      && line == HeaderText(oldStart, oldCount, newStart, newCount, w1, w2, w3, section)
  }

  lemma SkipPrefix(prefix: string, s: string)
    ensures Skip(prefix, prefix + s) == Some(s)
  {
    assert (prefix + s)[..|prefix|] == prefix;
    assert (prefix + s)[|prefix|..] == s;
  }

  lemma SkipMismatch(prefix: string, s: string)
    requires prefix != [] && s != [] && s[0] != prefix[0]
    ensures Skip(prefix, s) == None
  {
    if |prefix| <= |s| {
      assert s[..|prefix|][0] == s[0];
    }
  }

  lemma SpaceFirst(w: char, s: string)
    requires IsWhiteSpace(w)
    ensures Space([w] + s) == Some(s)
  {
    assert ([w] + s)[1..] == s;
  }

  lemma {:induction false} NumberOfNumeral(ds: string, rest: string)
    requires IsNumeral(ds)
    requires rest == [] || !IsDigit(rest[0])
    ensures Number(ds + rest) == Some((DigitsValue(ds), rest))
  {
    DigitRunOfDigits(ds, rest);
    assert (ds + rest)[..|ds|] == ds;
    assert (ds + rest)[|ds|..] == rest;
  }

  /** A count part followed by a character that is neither a digit nor a
      comma is read whole. */
  lemma {:induction false} CountOfPart(count: Option<string>, rest: string)
    requires IsCountNumeral(count) && rest != [] && !IsDigit(rest[0]) && rest[0] != ','
    ensures Count(CountPart(count) + rest) == Some((CountValue(count), rest))
  {
    if count.None? {
      assert CountPart(count) + rest == rest;
    } else {
      var s := CountPart(count) + rest;
      assert s == "," + (count.value + rest);
      assert s[1..] == count.value + rest;
      NumberOfNumeral(count.value, rest);
    }
  }

  /** A side written from valid parts matches and yields its values. */
  lemma {:induction false} MatchRangeText(sign: string, start: string, count: Option<string>, w: char, rest: string)
    requires IsNumeral(start) && IsCountNumeral(count) && IsWhiteSpace(w)
    ensures MatchRange(sign, RangeText(sign, start, count, w, rest)) == Some((DigitsValue(start), CountValue(count), rest))
  {
    SkipPrefix(sign, start + (CountPart(count) + ([w] + rest)));
    NumberOfNumeral(start, CountPart(count) + ([w] + rest));
    CountOfPart(count, [w] + rest);
    SpaceFirst(w, rest);
  }

  /** What Number consumed: a numeral, and its value. */
  lemma NumberSplit(s: string) returns (ds: string)
    requires Number(s).Some?
    ensures IsNumeral(ds) && s == ds + Number(s).value.1 && Number(s).value.0 == DigitsValue(ds)
  {
    var k := DigitRun(s);
    ds := s[..k];
    assert s == s[..k] + s[k..];
  }

  /** What Count consumed: the optional ",<numeral>", and its value. */
  lemma CountSplit(s: string) returns (count: Option<string>)
    requires Count(s).Some?
    ensures IsCountNumeral(count) && s == CountPart(count) + Count(s).value.1
    ensures Count(s).value.0 == CountValue(count)
  {
    if s != [] && s[0] == ',' {
      var n := Number(s[1..]);
      assert n.Some? && Count(s) == Some((Some(n.value.0), n.value.1));
      var ds := NumberSplit(s[1..]);
      count := Some(ds);
      calc {
        s;
        [s[0]] + s[1..];
        "," + s[1..];
        "," + (ds + n.value.1);
        ("," + ds) + n.value.1;
        CountPart(count) + Count(s).value.1;
      }
    } else {
      count := None;
    }
  }

  /** What a matched side consumed: its parts, and the values it yields. */
  lemma {:induction false} MatchRangeSplit(sign: string, s: string)
    returns (start: string, count: Option<string>, w: char)
    requires MatchRange(sign, s).Some?
    ensures IsNumeral(start) && IsCountNumeral(count) && IsWhiteSpace(w)
    ensures s == RangeText(sign, start, count, w, MatchRange(sign, s).value.2)
    ensures MatchRange(sign, s) == Some((DigitsValue(start), CountValue(count), MatchRange(sign, s).value.2))
  {
    var s1 := Skip(sign, s).value;
    start := NumberSplit(s1);
    var n := Number(s1).value.1;
    count := CountSplit(n);
    var c := Count(n).value.1;
    w := c[0];
    var rest := Space(c).value;
    assert MatchRange(sign, s).value.2 == rest;
    assert c == [w] + rest;
  }

  /** Every line of the grammar matches, and the match captures its new-file
      start and count, whatever the old side, the separators, the leading
      zeros or the trailing section. */
  lemma {:induction false} MatchHeaderText(oldStart: string, oldCount: Option<string>, newStart: string,
                                           newCount: Option<string>, w1: char, w2: char, w3: char,
                                           section: string)
    requires HeaderParts(oldStart, oldCount, newStart, newCount, w1, w2, w3, section)
    ensures MatchHeader(HeaderText(oldStart, oldCount, newStart, newCount, w1, w2, w3, section))
            == Some((DigitsValue(newStart), CountValue(newCount)))
  {
    var newText := RangeText("+", newStart, newCount, w3, "@@" + section);
    var oldText := RangeText("-", oldStart, oldCount, w2, newText);
    OpeningOf(w1, oldText);
    MatchRangeText("-", oldStart, oldCount, w2, newText);
    MatchRangeText("+", newStart, newCount, w3, "@@" + section);
    SkipPrefix("@@", section);
  }

  lemma OpeningOf(w: char, s: string)
    requires IsWhiteSpace(w)
    ensures Opening("@@" + ([w] + s)) == Some((w, s))
  {
    SkipPrefix("@@", [w] + s);
    SpaceFirst(w, s);
  }

  /** Every line that matches is a line of the grammar; the parts it is
      made of are returned, and the match captured their values. */
  lemma {:induction false} MatchHeaderSplit(line: string)
    returns (oldStart: string, oldCount: Option<string>, newStart: string, newCount: Option<string>,
             w1: char, w2: char, w3: char, section: string)
    requires MatchHeader(line).Some?
    ensures HeaderParts(oldStart, oldCount, newStart, newCount, w1, w2, w3, section)
    ensures line == HeaderText(oldStart, oldCount, newStart, newCount, w1, w2, w3, section)
    ensures MatchHeader(line) == Some((DigitsValue(newStart), CountValue(newCount)))
  {
    var opening := Opening(line).value;
    w1 := opening.0;
    var oldSide := MatchRange("-", opening.1).value;
    var newSide := MatchRange("+", oldSide.2).value;
    section := Closing(newSide.2).value;
    oldStart, oldCount, w2 := MatchRangeSplit("-", opening.1);
    newStart, newCount, w3 := MatchRangeSplit("+", oldSide.2);
    assert newSide.2 == "@@" + section;
  }

  /** HEADER_REGEX matches a line exactly when the line belongs to the
      grammar. */
  lemma MatchHeaderGrammar(line: string)
    ensures MatchHeader(line).Some? <==> IsHeaderLine(line)
  {
    if MatchHeader(line).Some? {
      var oldStart, oldCount, newStart, newCount, w1, w2, w3, section := MatchHeaderSplit(line);
    }
    if IsHeaderLine(line) {
      var oldStart, oldCount, newStart, newCount, w1, w2, w3, section :|
        HeaderParts(oldStart, oldCount, newStart, newCount, w1, w2, w3, section)
        && line == HeaderText(oldStart, oldCount, newStart, newCount, w1, w2, w3, section);
      MatchHeaderText(oldStart, oldCount, newStart, newCount, w1, w2, w3, section);
    }
  }

  /** parseHeader succeeds exactly on the lines of the grammar; every other
      line fails with "Failed to parse hunk header: <line>". */
  lemma ParseHeaderGrammar(line: string)
    ensures ParseHeader(line).Ok? <==> IsHeaderLine(line)
    ensures !IsHeaderLine(line) ==> ParseHeader(line) == Err(HeaderError(line))
  {
    MatchHeaderGrammar(line);
  }

  /** Every line of the grammar parses to (new start, new count), with an
      omitted count read as 1. */
  lemma {:induction false} ParseHeaderText(oldStart: string, oldCount: Option<string>, newStart: string,
                                           newCount: Option<string>, w1: char, w2: char, w3: char,
                                           section: string)
    requires HeaderParts(oldStart, oldCount, newStart, newCount, w1, w2, w3, section)
    ensures ParseHeader(HeaderText(oldStart, oldCount, newStart, newCount, w1, w2, w3, section))
            == Ok(HunkRange(DigitsValue(newStart), if newCount.None? then 1 else DigitsValue(newCount.value)))
  {
    MatchHeaderText(oldStart, oldCount, newStart, newCount, w1, w2, w3, section);
  }

  /** The header of a hunk that adds the single line of a new file, as
      GitLab reports it: the new-file count is omitted. */
  lemma {:induction false} OmittedCountExample()
    ensures ParseHeaderAsWritten("@@ -0,0 +1 @@") == Err(NumberFormat("null"))
    ensures ParseHeader("@@ -0,0 +1 @@") == Ok(HunkRange(1, 1))
  {
    assert DigitsValue("1") == 1;
    assert HeaderText("0", Some("0"), "1", None, ' ', ' ', ' ', "") == "@@ -0,0 +1 @@";
    MatchHeaderText("0", Some("0"), "1", None, ' ', ' ', ' ', "");
  }

  lemma {:induction false} ModifiedHeaderExample()
    ensures ParseHeader("@@ -1,10 +1,9 @@") == Ok(HunkRange(1, 9))
    ensures ParseHeaderAsWritten("@@ -1,10 +1,9 @@") == Ok(HunkRange(1, 9))
  {
    assert DigitsValue("1") == 1 && DigitsValue("9") == 9;
    assert HeaderText("1", Some("10"), "1", Some("9"), ' ', ' ', ' ', "") == "@@ -1,10 +1,9 @@";
    MatchHeaderText("1", Some("10"), "1", Some("9"), ' ', ' ', ' ', "");
  }

  /** Numerals keep their leading zeros, and the section may hold any
      text without a line terminator. */
  lemma {:induction false} LeadingZerosExample()
    ensures ParseHeader("@@ -01 +007,02 @@x") == Ok(HunkRange(7, 2))
  {
    assert "0"[..0] == "" && "00"[..1] == "0" && "007"[..2] == "00" && "02"[..1] == "0";
    assert DigitsValue("0") == 0;
    assert DigitsValue("00") == 0;
    assert DigitsValue("007") == 7 && DigitsValue("02") == 2;
    assert HeaderText("01", None, "007", Some("02"), ' ', ' ', ' ', "x") == "@@ -01 +007,02 @@x";
    MatchHeaderText("01", None, "007", Some("02"), ' ', ' ', ' ', "x");
  }

  /** A line whose old side does not match fails. */
  lemma MismatchedOldSide(w: char, s: string)
    requires IsWhiteSpace(w) && MatchRange("-", s).None?
    ensures ParseHeader("@@" + ([w] + s)) == Err(HeaderError("@@" + ([w] + s)))
  {
    OpeningOf(w, s);
  }

  /** A line whose old side matches but whose new side does not fails. */
  lemma MismatchedNewSide(w: char, s: string)
    requires IsWhiteSpace(w) && MatchRange("-", s).Some? && MatchRange("+", MatchRange("-", s).value.2).None?
    ensures ParseHeader("@@" + ([w] + s)) == Err(HeaderError("@@" + ([w] + s)))
  {
    OpeningOf(w, s);
  }

  /** A closing "@@" straight after the new side's numbers, with no
      White_Space character before it, ends the match. */
  lemma NewSideUnseparated(start: string, count: Option<string>, rest: string)
    requires IsNumeral(start) && IsCountNumeral(count)
    ensures MatchRange("+", "+" + (start + (CountPart(count) + ("@@" + rest)))) == None
  {
    var close := "@@" + rest;
    var tail := CountPart(count) + close;
    SkipPrefix("+", start + tail);
    assert close[0] == '@';
    assert tail[0] == if count.Some? then ',' else '@';
    NumberOfNumeral(start, tail);
    CountOfPart(count, close);
    assert Space(close) == None;
  }

  /** A comma followed by a character other than a digit ends the match. */
  lemma CommaWithoutDigits(sign: string, start: string, c: char, rest: string)
    requires IsNumeral(start) && !IsDigit(c)
    ensures MatchRange(sign, sign + (start + ([','] + ([c] + rest)))) == None
  {
    SkipPrefix(sign, start + ([','] + ([c] + rest)));
    NumberOfNumeral(start, [','] + ([c] + rest));
    assert ([','] + ([c] + rest))[1..] == [c] + rest;
  }

  /** A line that starts with "@@" but breaks the grammar fails: here the
      closing "@@" lacks the White_Space character before it. */
  lemma RejectsMissingSeparator(line: string)
    requires line == "@@ -1 +1@@"
    ensures ParseHeader(line) == Err(HeaderError(line))
  {
    var oldText := line[3..];
    var one := line[4..5];
    var newText := line[6..];
    assert line == "@@" + ([' '] + oldText);
    assert oldText == RangeText("-", one, None, ' ', newText);
    assert newText == "+" + (one + (CountPart(None) + ("@@" + [])));
    MatchRangeText("-", one, None, ' ', newText);
    NewSideUnseparated(one, None, []);
    MismatchedNewSide(' ', oldText);
  }

  /** A comma must be followed by digits. */
  lemma RejectsEmptyCount(line: string)
    requires line == "@@ -1, +1 @@"
    ensures ParseHeader(line) == Err(HeaderError(line))
  {
    var oldText := line[3..];
    var one := line[4..5];
    var tail := line[7..];
    assert line == "@@" + ([' '] + oldText);
    assert oldText == "-" + (one + ([','] + ([' '] + tail)));
    CommaWithoutDigits("-", one, ' ', tail);
    MismatchedOldSide(' ', oldText);
  }

  /** Exactly one White_Space character separates the parts. */
  lemma RejectsDoubleSeparator(line: string)
    requires line == "@@  -1 +1 @@"
    ensures ParseHeader(line) == Err(HeaderError(line))
  {
    var oldText := line[3..];
    assert line == "@@" + ([' '] + oldText);
    SkipMismatch("-", oldText);
    MismatchedOldSide(' ', oldText);
  }

  /** The new side must carry its "+". */
  lemma RejectsMissingPlus(line: string)
    requires line == "@@ -1 1 @@"
    ensures ParseHeader(line) == Err(HeaderError(line))
  {
    var oldText := line[3..];
    var one := line[4..5];
    var newText := line[6..];
    assert line == "@@" + ([' '] + oldText);
    assert oldText == RangeText("-", one, None, ' ', newText);
    MatchRangeText("-", one, None, ' ', newText);
    SkipMismatch("+", newText);
    MismatchedNewSide(' ', oldText);
  }

  /** `.` does not run over a line terminator, so a section that holds one
      fails the match, however well formed the rest of the line is. */
  lemma {:induction false} SectionWithTerminator(oldStart: string, oldCount: Option<string>, newStart: string,
                                                 newCount: Option<string>, w1: char, w2: char, w3: char,
                                                 section: string)
    requires IsNumeral(oldStart) && IsCountNumeral(oldCount) && IsNumeral(newStart) && IsCountNumeral(newCount)
    requires IsWhiteSpace(w1) && IsWhiteSpace(w2) && IsWhiteSpace(w3)
    requires !NoRegexLineTerminator(section)
    ensures var line := HeaderText(oldStart, oldCount, newStart, newCount, w1, w2, w3, section);
            ParseHeader(line) == Err(HeaderError(line))
  {
    var newText := RangeText("+", newStart, newCount, w3, "@@" + section);
    var oldText := RangeText("-", oldStart, oldCount, w2, newText);
    OpeningOf(w1, oldText);
    MatchRangeText("-", oldStart, oldCount, w2, newText);
    MatchRangeText("+", newStart, newCount, w3, "@@" + section);
    SkipPrefix("@@", section);
  }

  /** NEL (U+0085) is such a terminator, though readLine does not split
      at it. */
  lemma RejectsTerminatorInSection(line: string)
    requires line == "@@ -1 +1 @@\U{0085}"
    ensures ParseHeader(line) == Err(HeaderError(line))
  {
    var one := line[4..5];
    var section := line[11..];
    assert IsRegexLineTerminator(section[0]);
    assert line == HeaderText(one, None, one, None, ' ', ' ', ' ', section);
    SectionWithTerminator(one, None, one, None, ' ', ' ', ' ', section);
  }

  // ---------------------------------------------------------------------
  // parseDiff: one range per hunk header, in text order
  // ---------------------------------------------------------------------

  predicate IsHunkHeader(line: string) {
    StartsWith(line, "@@")
  }

  /** The lines of a diff that parseDiff hands to parseHeader. */
  function HeaderLines(lines: seq<string>): (hs: seq<string>)
    ensures |hs| <= |lines|
    ensures forall i :: 0 <= i < |hs| ==> IsHunkHeader(hs[i])
  {
    if lines == [] then []
    else (if IsHunkHeader(lines[0]) then [lines[0]] else []) + HeaderLines(lines[1..])
  }

  /** The ranges of a sequence of hunk headers, in order, or the exception
      of the first header that does not parse. */
  function ParseHeaders(hs: seq<string>): (r: Result<seq<HunkRange>, Exception>)
    ensures r.Ok? ==> |r.value| == |hs|
  {
    if hs == [] then Ok([])
    else
      var h :- ParseHeader(hs[0]);
      var rest :- ParseHeaders(hs[1..]);
      Ok([h] + rest)
  }

  /** The headers parse exactly when each of them does, and then yield one
      range per header, in order. */
  lemma {:induction false} ParseHeadersOk(hs: seq<string>)
    ensures ParseHeaders(hs).Ok? <==> forall i :: 0 <= i < |hs| ==> ParseHeader(hs[i]).Ok?
    ensures ParseHeaders(hs).Ok? ==>
      |ParseHeaders(hs).value| == |hs|
      && forall i :: 0 <= i < |hs| ==> Ok(ParseHeaders(hs).value[i]) == ParseHeader(hs[i])
  {
    if hs != [] {
      ParseHeadersOk(hs[1..]);
      var first := ParseHeader(hs[0]);
      if first.Ok? && ParseHeaders(hs[1..]).Ok? {
        var r := ParseHeaders(hs).value;
        assert r == [first.value] + ParseHeaders(hs[1..]).value;
        forall i | 0 <= i < |hs| ensures Ok(r[i]) == ParseHeader(hs[i]) {
          if i > 0 {
            assert hs[i] == hs[1..][i - 1];
          }
        }
      } else if first.Ok? {
        var k :| 0 <= k < |hs[1..]| && !ParseHeader(hs[1..][k]).Ok?;
        assert hs[k + 1] == hs[1..][k];
      }
    }
  }

  /** A failure is the exception of the first header that does not parse. */
  lemma {:induction false} ParseHeadersFirstError(hs: seq<string>, k: int)
    requires 0 <= k < |hs| && ParseHeader(hs[k]).Err?
    requires forall j :: 0 <= j < k ==> ParseHeader(hs[j]).Ok?
    ensures ParseHeaders(hs) == Err(ParseHeader(hs[k]).error)
  {
    ParseHeadersCons(hs[0], hs[1..]);
    assert [hs[0]] + hs[1..] == hs;
    if k > 0 {
      assert ParseHeader(hs[0]).Ok?;
      forall j | 0 <= j < k - 1 ensures ParseHeader(hs[1..][j]).Ok? {
        assert hs[1..][j] == hs[j + 1];
      }
      ParseHeadersFirstError(hs[1..], k - 1);
    }
  }

  /** The ranges parseDiff collects from the diff's lines, or the exception
      of the first header that does not parse. */
  function ParseHunks(lines: seq<string>): (r: Result<seq<HunkRange>, Exception>)
    ensures r.Ok? ==> |r.value| <= |lines|
    ensures r.Ok? ==> forall i :: 0 <= i < |r.value| ==> r.value[i].start >= 0 && r.value[i].lineCount >= 0
  {
    if lines == [] then Ok([])
    else if IsHunkHeader(lines[0]) then
      var h :- ParseHeader(lines[0]);
      var rest :- ParseHunks(lines[1..]);
      Ok([h] + rest)
    else ParseHunks(lines[1..])
  }

  /** Only hunk headers matter: every other line is ignored, and the ranges
      are those of the header lines, one per header, in text order. */
  lemma {:induction false} ParseHunksOnlyHeaders(lines: seq<string>)
    ensures ParseHunks(lines) == ParseHeaders(HeaderLines(lines))
  {
    if lines != [] {
      var tail := lines[1..];
      ParseHunksOnlyHeaders(tail);
      if IsHunkHeader(lines[0]) {
        ParseHeadersCons(lines[0], HeaderLines(tail));
        assert HeaderLines(lines) == [lines[0]] + HeaderLines(tail);
      } else {
        assert HeaderLines(lines) == HeaderLines(tail);
      }
    }
  }

  lemma ParseHeadersCons(h: string, hs: seq<string>)
    ensures ParseHeaders([h] + hs) == (var first := ParseHeader(h); var rest := ParseHeaders(hs);
      if first.Err? then Err(first.error) else if rest.Err? then rest else Ok([first.value] + rest.value))
  {
    assert ([h] + hs)[0] == h && ([h] + hs)[1..] == hs;
  }

  /** parseDiff: reads the diff line by line and appends the range of every
      line that starts with "@@"; a header that does not parse aborts. */
  method ParseDiff(diff: string) returns (r: Result<seq<HunkRange>, Exception>)
    ensures r == ParseHunks(ReadLines(diff))
  {
    var lines := ReadLines(diff);
    var ranges: seq<HunkRange> := [];
    var i := 0;
    assert lines[0..] == lines;
    ghost var all := ParseHunks(lines);
    if all.Ok? {
      assert [] + all.value == all.value;
    }
    while i < |lines|
      invariant 0 <= i <= |lines|
      invariant ParseHunks(lines) == (var rest := ParseHunks(lines[i..]);
                                       if rest.Ok? then Ok(ranges + rest.value) else rest)
    {
      assert lines[i..][1..] == lines[i + 1..];
      var line := lines[i];
      if IsHunkHeader(line) {
        var parsed := ParseHeader(line);
        if parsed.Err? {
          return Err(parsed.error);
        }
        ghost var rest := ParseHunks(lines[i + 1..]);
        if rest.Ok? {
          assert (ranges + [parsed.value]) + rest.value == ranges + ([parsed.value] + rest.value);
        }
        ranges := ranges + [parsed.value];
      }
      i := i + 1;
    }
    assert ranges + [] == ranges;
    r := Ok(ranges);
  }

  /** A parsed diff: the file's new path and its hunks' new-file ranges.
      Both are fixed at construction and exposed read-only. */
  datatype UnifiedDiff = UnifiedDiff(filepath: string, ranges: seq<HunkRange>)

  /** The UnifiedDiff constructor. */
  method NewUnifiedDiff(commitDiff: CommitDiff) returns (r: Result<UnifiedDiff, Exception>)
    ensures var parsed := ParseHunks(ReadLines(commitDiff.diff));
      && (r.Ok? <==> parsed.Ok?)
      && (r.Ok? ==> r.value == UnifiedDiff(commitDiff.newPath, parsed.value))
      && (r.Err? ==> r.error == parsed.error)
  {
    var ranges :- ParseDiff(commitDiff.diff);
    r := Ok(UnifiedDiff(commitDiff.newPath, ranges));
  }

  /** A diff with one hunk, preceded by two non-header lines, yields the
      range of its header alone. */
  lemma {:induction false} SingleHunk(a: string, b: string, header: string, body: seq<string>)
    requires !IsHunkHeader(a) && !IsHunkHeader(b) && IsHunkHeader(header)
    requires forall i :: 0 <= i < |body| ==> !IsHunkHeader(body[i])
    requires ParseHeader(header).Ok?
    ensures ParseHunks([a, b, header] + body) == Ok([ParseHeader(header).value])
  {
    var l3 := [header] + body;
    var l2 := [b] + l3;
    var l1 := [a] + l2;
    var v := ParseHeader(header).value;
    ParseHunksNone(body);
    ParseHunksHeader(header, body);
    assert [v] + [] == [v];
    ParseHunksSkip(b, l3);
    ParseHunksSkip(a, l2);
    assert [a, b, header] + body == l1;
  }

  /** The single-hunk diff of a modified file yields exactly one range,
      that of the new side. */
  lemma SingleHunkExample(a: string, b: string, body: seq<string>)
    requires !IsHunkHeader(a) && !IsHunkHeader(b)
    requires forall i :: 0 <= i < |body| ==> !IsHunkHeader(body[i])
    ensures ParseHunks([a, b, "@@ -1,10 +1,9 @@"] + body) == Ok([HunkRange(1, 9)])
  {
    ModifiedHeaderExample();
    SingleHunk(a, b, "@@ -1,10 +1,9 @@", body);
  }

  /** The diff GitLab reports for a new one-line file, its lines each
      followed by "\n": a single hunk whose header omits the new-file count,
      read as the range of line 1 alone. */
  lemma {:induction false} FileAddedExample(path: string)
    requires NoLineTerminator(path)
    ensures ParseHunks(ReadLines(Unlines(FileAddedLines(path)))) == Ok([HunkRange(1, 1)])
  {
    var b := "+++ b/" + path;
    var lines := FileAddedLines(path);
    FileAddedReadBack(path);
    assert ReadLines(Unlines(lines)) == lines;
    FileAddedHeaders(b);
    assert forall i :: 0 <= i < |["+[]"]| ==> !IsHunkHeader(["+[]"][i]);
    OmittedCountExample();
    SingleHunk("--- /dev/null", b, "@@ -0,0 +1 @@", ["+[]"]);
    assert ["--- /dev/null", b, "@@ -0,0 +1 @@"] + ["+[]"] == lines;
  }

  /** The lines of the diff of a new file `path` holding the line "[]". */
  function FileAddedLines(path: string): seq<string> {
    ["--- /dev/null", "+++ b/" + path, "@@ -0,0 +1 @@", "+[]"]
  }

  lemma FileAddedReadBack(path: string)
    requires NoLineTerminator(path)
    ensures ReadLines(Unlines(FileAddedLines(path))) == FileAddedLines(path)
  {
    var lines := FileAddedLines(path);
    var b := "+++ b/" + path;
    assert forall i :: 0 <= i < |path| ==> b[6 + i] == path[i];
    assert NoLineTerminator(lines[0]) && NoLineTerminator(lines[1]);
    assert NoLineTerminator(lines[2]) && NoLineTerminator(lines[3]);
    ReadLinesUnlines(lines);
  }

  lemma FileAddedHeaders(b: string)
    requires |b| >= 2 && b[..2] == "++"
    ensures !IsHunkHeader("--- /dev/null") && !IsHunkHeader(b) && IsHunkHeader("@@ -0,0 +1 @@")
    ensures !IsHunkHeader("+[]")
  {
    assert "--- /dev/null"[..2] == "--";
    assert "@@ -0,0 +1 @@"[..2] == "@@";
    assert "+[]"[..2] == "+[";
  }

  lemma {:induction false} ParseHunksNone(lines: seq<string>)
    requires forall i :: 0 <= i < |lines| ==> !IsHunkHeader(lines[i])
    ensures ParseHunks(lines) == Ok([])
  {
    if lines != [] {
      ParseHunksNone(lines[1..]);
    }
  }

  lemma ParseHunksSkip(line: string, rest: seq<string>)
    requires !IsHunkHeader(line)
    ensures ParseHunks([line] + rest) == ParseHunks(rest)
  {
    assert ([line] + rest)[1..] == rest;
  }

  lemma ParseHunksHeader(line: string, rest: seq<string>)
    requires IsHunkHeader(line) && ParseHeader(line).Ok? && ParseHunks(rest).Ok?
    ensures ParseHunks([line] + rest) == Ok([ParseHeader(line).value] + ParseHunks(rest).value)
  {
    assert ([line] + rest)[1..] == rest;
  }

  lemma {:induction false} HeaderLinesNone(lines: seq<string>)
    requires forall i :: 0 <= i < |lines| ==> !IsHunkHeader(lines[i])
    ensures HeaderLines(lines) == []
  {
    if lines != [] {
      HeaderLinesNone(lines[1..]);
    }
  }
}
