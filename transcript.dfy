/**
 * The one data transformation of the extension: from the texts of the
 * rendered transcript lines, drop the lines that are nothing but a
 * timestamp and join the rest with single spaces.
 */
module Transcript {
  import opened Options
  import opened JsBuiltins

  /** `\d` of a regular expression without the `u` flag: an ASCII digit. */
  predicate IsDigit(c: char) {
    '0' <= c <= '9'
  }

  predicate AllDigits(s: string) {
    forall i :: 0 <= i < |s| ==> IsDigit(s[i])
  }

  /** The `:\d{2}` unit of the timestamp pattern. */
  predicate IsColonPair(s: string) {
    |s| == 3 && s[0] == ':' && IsDigit(s[1]) && IsDigit(s[2])
  }

  /**
   * `\d{hours}` then `:\d{2}(?::\d{2})?` to the end of `s`, for an hours
   * field of one or two digits.
   */
  predicate MatchesAfterHours(s: string, hours: nat)
    requires hours == 1 || hours == 2
  {
    (|s| == hours + 3 || |s| == hours + 6) &&
    IsDigit(s[0]) && (hours == 2 ==> IsDigit(s[1])) &&
    IsColonPair(s[hours..hours + 3]) &&
    (|s| == hours + 6 ==> IsColonPair(s[hours + 3..]))
  }

  /**
   * Whether `s` fully matches `^\d{1,2}:\d{2}(?::\d{2})?$`: one or two
   * digits, then one or two colon-and-two-digit groups.
   */
  predicate IsTimestamp(s: string) {
    MatchesAfterHours(s, 1) || MatchesAfterHours(s, 2)
  }

  /** The text of a timestamp assembled from its fields. */
  function Render(lead: string, minutes: string, seconds: Option<string>): string {
    lead + ":" + minutes + (match seconds case None => "" case Some(sec) => ":" + sec)
  }

  /** The fields of a timestamp's grammar, each of the right length and all digits. */
  ghost predicate WellFormedFields(lead: string, minutes: string, seconds: Option<string>) {
    1 <= |lead| <= 2 && AllDigits(lead) &&
    |minutes| == 2 && AllDigits(minutes) &&
    (seconds.Some? ==> |seconds.value| == 2 && AllDigits(seconds.value))
  }

  /**
   * The pattern read as a grammar, independently of how IsTimestamp scans:
   * one or two digits, a colon, two digits, and optionally a colon and two
   * more digits, nothing before and nothing after.
   */
  ghost predicate TimestampShape(s: string) {
    exists lead: string, minutes: string, seconds: Option<string> ::
      WellFormedFields(lead, minutes, seconds) && s == Render(lead, minutes, seconds)
  }

  /** Every string IsTimestamp accepts is built by the grammar. */
  lemma TimestampHasShape(s: string)
    requires IsTimestamp(s)
    ensures TimestampShape(s)
  {
    var h := if MatchesAfterHours(s, 1) then 1 else 2;
    var lead, minutes := s[..h], s[h + 1..h + 3];
    var seconds := if |s| == h + 6 then Some(s[h + 4..]) else None;
    assert s[h..h + 3] == ":" + minutes;
    if seconds.Some? {
      assert s[h + 3..] == ":" + seconds.value;
      assert s == lead + s[h..h + 3] + s[h + 3..];
    } else {
      assert s == lead + s[h..h + 3];
    }
    assert s == Render(lead, minutes, seconds);
    assert WellFormedFields(lead, minutes, seconds);
  }

  /** Every string the grammar builds is accepted by IsTimestamp. */
  lemma ShapeIsTimestamp(lead: string, minutes: string, seconds: Option<string>)
    requires WellFormedFields(lead, minutes, seconds)
    ensures IsTimestamp(Render(lead, minutes, seconds))
  {
    var s := Render(lead, minutes, seconds);
    var h := |lead|;
    assert s[0] == lead[0];
    assert h == 2 ==> s[1] == lead[1];
    assert s[h..h + 3] == ":" + minutes;
    if seconds.Some? {
      assert s[h + 3..] == ":" + seconds.value;
    }
    assert MatchesAfterHours(s, h);
  }

  /** IsTimestamp accepts exactly the strings of the anchored pattern. */
  lemma IsTimestampIffShape(s: string)
    ensures IsTimestamp(s) <==> TimestampShape(s)
  {
    if IsTimestamp(s) {
      TimestampHasShape(s);
    }
    if TimestampShape(s) {
      var lead: string, minutes: string, seconds: Option<string> :|
        WellFormedFields(lead, minutes, seconds) && s == Render(lead, minutes, seconds);
      ShapeIsTimestamp(lead, minutes, seconds);
    }
  }

  /** The filter's test: a line survives unless its trimmed text is a timestamp. */
  predicate KeepLine(line: string) {
    !IsTimestamp(Trim(line))
  }

  /**
   * `.filter(text => !/^\d{1,2}:\d{2}(?::\d{2})?$/.test(text.trim()))`:
   * the surviving lines, untrimmed, in their order.
   */
  function KeptLines(lines: seq<string>): (kept: seq<string>)
    ensures |kept| <= |lines|
    ensures forall line :: line in kept ==> line in lines && KeepLine(line)
  {
    Filter(lines, KeepLine)
  }

  /**
   * The kept lines are the lines at a strictly increasing list of positions,
   * verbatim, and a position is on the list exactly when its line survives.
   */
  lemma KeptLinesSelect(lines: seq<string>)
    ensures exists idx: seq<nat> :: SelectsAt(lines, KeepLine, KeptLines(lines), idx)
  {
    assert KeptLines(lines) == Filter(lines, KeepLine);
    FilterIsSubsequence(lines, KeepLine);
  }

  /** The extracted transcript: the kept lines joined with single spaces. */
  function ExtractText(lines: seq<string>): string
  {
    JoinSpace(KeptLines(lines))
  }

  /**
   * The text is empty exactly when no line survives, or the only survivor is
   * an empty line.
   */
  lemma ExtractTextEmpty(lines: seq<string>)
    ensures ExtractText(lines) == "" <==> (KeptLines(lines) == [] || KeptLines(lines) == [""])
  {
    JoinSpaceEmpty(KeptLines(lines));
  }

  /** A list of nothing but timestamps, or no list at all, yields the empty text. */
  lemma AllTimestampsExtractEmpty(lines: seq<string>)
    requires forall i :: 0 <= i < |lines| ==> IsTimestamp(Trim(lines[i]))
    ensures KeptLines(lines) == [] && ExtractText(lines) == ""
  {
    FilterNone(lines, KeepLine);
  }

  /** Bare timestamps of every allowed shape match; digits without the colon layout, or with other text around them, do not. */
  lemma TimestampExamples()
    ensures IsTimestamp("0:00") && IsTimestamp("12:34") && IsTimestamp("1:23:45") && IsTimestamp("00:00:00")
    ensures !IsTimestamp("123:45") && !IsTimestamp("1:2") && !IsTimestamp("1:23:4")
    ensures !IsTimestamp("at 1:23 we") && !IsTimestamp("1:23 ") && !IsTimestamp("")
  {
  }

  /**
   * A timestamp line padded with blanks is still dropped: the test looks at
   * the trimmed text. The line is given with its blank prefix, its timestamp
   * and its blank suffix.
   */
  lemma PaddedTimestampDropped(line: string, before: string, core: string, after: string)
    requires line == " 0:00\n" && before == " " && core == "0:00" && after == "\n"
    ensures !KeepLine(line)
  {
    assert line == before + core + after;
    assert AllWhitespace(before) && AllWhitespace(after);
    assert core[0] == '0' && core[|core| - 1] == '0';
    TrimUnique(line, before, core, after);
    assert MatchesAfterHours(core, 1);
  }

  /** For a line with no whitespace at either end, the filter's test is the pattern itself. */
  lemma KeepLineWhenTrimmed(line: string)
    requires line == [] || (!IsWhitespace(line[0]) && !IsWhitespace(line[|line| - 1]))
    ensures KeepLine(line) <==> !IsTimestamp(line)
  {
    TrimUnique(line, [], line, []);
  }

  /** The spoken lines of the worked example survive the filter. */
  lemma ExampleSpokenLinesKept(line: string)
    requires line == "Hello world" || line == "Goodbye"
    ensures KeepLine(line)
  {
    assert line[0] in "HG" && line[|line| - 1] in "de";
    assert |line| == 11 || |line| == 7;
    assert !IsDigit(line[0]);
    KeepLineWhenTrimmed(line);
  }

  /** The timestamp lines of the worked example are dropped. */
  lemma ExampleTimestampLinesDropped(line: string)
    requires line == "0:00" || line == "1:23:45"
    ensures !KeepLine(line)
  {
    assert line[0] in "01" && line[|line| - 1] in "05";
    assert MatchesAfterHours(line, 1);
    KeepLineWhenTrimmed(line);
  }

  /** In the worked example, the two spoken lines survive and the two timestamps do not. */
  lemma ExampleKeptLines(a: string, b: string, c: string, d: string)
    requires a == "0:00" && b == "Hello world" && c == "1:23:45" && d == "Goodbye"
    ensures KeptLines([a, b, c, d]) == [b, d]
  {
    ExampleTimestampLinesDropped(a);
    ExampleSpokenLinesKept(b);
    ExampleTimestampLinesDropped(c);
    ExampleSpokenLinesKept(d);
    FilterDropKeepDropKeep(a, b, c, d, KeepLine);
  }

  /** Filtering four elements of which the second and fourth pass. */
  lemma FilterDropKeepDropKeep<T>(a: T, b: T, c: T, d: T, keep: T -> bool)
    requires !keep(a) && keep(b) && !keep(c) && keep(d)
    ensures Filter([a, b, c, d], keep) == [b, d]
  {
    assert [d][1..] == [];
    assert Filter([d], keep) == [d];
    assert [c, d][1..] == [d];
    assert Filter([c, d], keep) == [d];
    assert [b, c, d][1..] == [c, d];
    assert Filter([b, c, d], keep) == [b, d];
    assert [a, b, c, d][1..] == [b, c, d];
  }

  /** The worked example: timestamps vanish and the spoken lines are joined by one space. */
  lemma ExtractExample(lines: seq<string>)
    requires lines == ["0:00", "Hello world", "1:23:45", "Goodbye"]
    ensures ExtractText(lines) == "Hello world Goodbye"
  {
    ExampleKeptLines(lines[0], lines[1], lines[2], lines[3]);
    assert lines == [lines[0], lines[1], lines[2], lines[3]];
    assert KeptLines(lines) == [lines[1], lines[3]];
    assert JoinSpace([lines[1], lines[3]]) == lines[1] + " " + lines[3] by {
      assert [lines[1], lines[3]][1..] == [lines[3]];
    }
  }
}
