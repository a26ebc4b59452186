/**
 * Properties of `parse_markdown_structure` (utilities/save_pdf.py:150-296),
 * stated on `Blocks.Parse`, which the cursor loop is proved to compute.
 */
module ParseFacts {
  import opened Common
  import opened Inline
  import opened Blocks

  // ---------------------------------------------------------------------------
  // Termination and size

  /** Every iteration of the outer loop consumes at least one line and appends at most one element. */
  lemma StepBounds(lines: seq<string>, i: nat)
    requires i < |lines|
    ensures i < StepAt(lines, i).next <= |lines| + 1
    ensures |StepAt(lines, i).out| <= 1
  {
  }

  /** The parser produces at most one element per remaining line. */
  lemma {:induction false} ParseBound(lines: seq<string>, i: nat)
    ensures |Parse(lines, i)| <= if i <= |lines| then |lines| - i else 0
    decreases |lines| - i
  {
    if i < |lines| {
      StepBounds(lines, i);
      ParseBound(lines, StepAt(lines, i).next);
    }
  }

  /** A document yields at most as many elements as it has lines. */
  lemma DocumentBound(content: string)
    ensures |Parse(SplitLines(content), 0)| <= |SplitLines(content)|
  {
    ParseBound(SplitLines(content), 0);
  }

  // ---------------------------------------------------------------------------
  // Text elements have content

  /** A line that no block rule claims yields a text element only when its cleaned form is not blank. */
  lemma LineTextNonBlank(line: string)
    ensures forall e :: e in LineElements(line) && e.Text? ==> !IsBlank(e.text)
  {
  }

  /** One iteration of the outer loop never appends a blank text element: only `LineElements` makes text. */
  lemma StepTextNonBlank(lines: seq<string>, i: nat)
    requires i < |lines|
    ensures forall e :: e in StepAt(lines, i).out && e.Text? ==> !IsBlank(e.text)
  {
    LineTextNonBlank(lines[i]);
  }

  /** Every text element of the document has content left after cleaning. */
  lemma {:induction false} TextNonBlank(lines: seq<string>, i: nat)
    ensures forall e :: e in Parse(lines, i) && e.Text? ==> !IsBlank(e.text)
    decreases |lines| - i
  {
    if i < |lines| {
      var s := StepAt(lines, i);
      StepTextNonBlank(lines, i);
      TextNonBlank(lines, s.next);
      ParseVia(lines, i, s.out, s.next);
    }
  }

  // ---------------------------------------------------------------------------
  // Where the first visible character of a line sits

  /** A line whose first character is not whitespace is not indented: its stripped form starts with that character. */
  lemma StripFirst(line: string)
    requires line != [] && !IsSpace(line[0])
    ensures SpanSpaces(line, 0) == 0
    ensures Strip(line) != [] && Strip(line)[0] == line[0]
  {
    StripPlace(line);
  }

  /**
   * The stripped form of a line begins at its first non-whitespace
   * character: the first two characters of the stripped form are the
   * characters there, and anything before is whitespace.
   */
  lemma StripHead(line: string)
    requires !IsBlank(line)
    ensures var a := SpanSpaces(line, 0);
      && a + |Strip(line)| <= |line|
      && Strip(line)[0] == line[a]
      && (|Strip(line)| >= 2 ==> Strip(line)[1] == line[a + 1])
      && (a > 0 ==> IsSpace(line[0]))
  {
    StripPlace(line);
  }

  /** A heading needs its first `#` at column 0. */
  lemma HeadingStartsWithHash(line: string)
    requires Heading(line).Some?
    ensures line != [] && line[0] == '#'
  {
  }

  // ---------------------------------------------------------------------------
  // Fenced code

  /** The lines strictly between two fence lines become one code element, their texts joined with newlines. */
  lemma FenceBlock(lines: seq<string>, i: nat, j: nat)
    requires i + 1 < j < |lines|
    requires IsFence(lines[i]) && IsFence(lines[j])
    requires forall k :: i < k < j ==> !IsFence(lines[k])
    ensures Parse(lines, i) == [Code(JoinLines(lines[i + 1..j]))] + Parse(lines, j + 1)
  {
    var out := [Code(JoinLines(lines[i + 1..j]))];
    FenceEndAt(lines, i + 1, j);
    StepFence(lines, i);
    assert StepAt(lines, i) == Step(out, j + 1);
    ParseViaSucc(lines, i, out, j);
  }

  /**
   * The code element keeps its lines verbatim: since the lines come from
   * splitting at newlines, splitting the joined text gives them back.
   */
  lemma Verbatim(lines: seq<string>, from: nat, to: nat)
    requires from < to <= |lines|
    requires forall k :: 0 <= k < |lines| ==> '\n' !in lines[k]
    ensures SplitLines(JoinLines(lines[from..to])) == lines[from..to]
  {
    var run := lines[from..to];
    assert forall k :: 0 <= k < |run| ==> '\n' !in run[k] by {
      forall k | 0 <= k < |run| ensures '\n' !in run[k] { assert run[k] == lines[from + k]; }
    }
    SplitJoinLines(run);
  }

  /** Two fence lines in a row emit nothing. */
  lemma EmptyFence(lines: seq<string>, i: nat)
    requires i + 1 < |lines| && IsFence(lines[i]) && IsFence(lines[i + 1])
    ensures Parse(lines, i) == Parse(lines, i + 2)
  {
    FenceEndAt(lines, i + 1, i + 1);
    StepFence(lines, i);
    ParseVia(lines, i, [], i + 2);
  }

  /** A fence that is never closed takes every remaining line into one code element. */
  lemma UnterminatedFence(lines: seq<string>, i: nat)
    requires i < |lines| && IsFence(lines[i])
    requires forall k :: i < k < |lines| ==> !IsFence(lines[k])
    ensures Parse(lines, i) == if i + 1 == |lines| then [] else [Code(JoinLines(lines[i + 1..]))]
  {
    FenceEndAt(lines, i + 1, |lines|);
    StepFence(lines, i);
    ParseViaSucc(lines, i, if i + 1 == |lines| then [] else [Code(JoinLines(lines[i + 1..|lines|]))], |lines|);
    assert Parse(lines, |lines| + 1) == [];
    assert lines[i + 1..|lines|] == lines[i + 1..];
  }

  // ---------------------------------------------------------------------------
  // Headings

  /**
   * Exactly `n` hashes (1 to 3) at column 0, whitespace, and at least one
   * more character give a level-`n` heading; its text is the cleaned capture.
   */
  lemma HeadingLine(line: string, n: nat)
    requires 1 <= n <= 3 && n + 2 <= |line|
    requires forall k :: 0 <= k < n ==> line[k] == '#'
    requires IsSpace(line[n])
    ensures HeadingGroup(line, n).Some?
    ensures var t := CleanHeading(HeadingGroup(line, n).value);
      Heading(line) == Some(if n == 1 then H1(t) else if n == 2 then H2(t) else H3(t))
  {
    if n >= 2 {
      HashNoGroup(line, 1);
    }
    if n == 3 {
      HashNoGroup(line, 2);
    }
  }

  /** When a `#` follows the first `m` characters, the level-`m` pattern does not match. */
  lemma HashNoGroup(line: string, m: nat)
    requires m < |line| && line[m] == '#'
    ensures HeadingGroup(line, m).None?
  {
    assert !IsSpace('#');
  }

  /** Four hashes at column 0 never make a heading, nor does an indented line. */
  lemma NoHeading(line: string)
    requires StartsWith(line, "####") || (line != [] && line[0] != '#')
    ensures Heading(line).None?
  {
    if StartsWith(line, "####") {
      assert line[1] == line[..4][1] && line[2] == line[..4][2] && line[3] == line[..4][3];
      assert !IsSpace('#');
    }
  }

  /** A heading line emits its heading and moves to the next line. */
  lemma HeadingStep(lines: seq<string>, i: nat)
    requires i < |lines| && Heading(lines[i]).Some?
    ensures Parse(lines, i) == [Heading(lines[i]).value] + Parse(lines, i + 1)
  {
    HeadingLineFirst(lines[i]);
    StepHeading(lines, i);
    ParseViaSucc(lines, i, [Heading(lines[i]).value], i);
  }

  /** A heading line is not a fence. */
  lemma HeadingLineFirst(line: string)
    requires Heading(line).Some?
    ensures !IsFence(line)
  {
    HeadingStartsWithHash(line);
    StripFirst(line);
  }

  // ---------------------------------------------------------------------------
  // Lists and blockquotes

  /** The bullet rule removes the indentation, the marker and the whitespace after it, and nothing else. */
  lemma BulletItemOf(indent: string, m: char, gap: string, rest: string)
    requires IsBlank(indent) && IsBulletMarker(m) && gap != [] && IsBlank(gap)
    requires rest == [] || !IsSpace(rest[0])
    ensures BulletItem(indent + [m] + gap + rest) == Some(rest)
  {
    var line := indent + [m] + gap + rest;
    var a := |indent|;
    SpanSpacesAt(line, 0, a);
    SpanSpacesAt(line, a + 1, a + 1 + |gap|);
    assert line[a + 1 + |gap|..] == rest;
  }

  /** `-` followed only by whitespace is still a bullet line, with an empty item. */
  lemma BulletOfSpaces(line: string)
    requires |line| >= 2 && line[0] == '-' && IsBlank(line[1..])
    ensures BulletItem(line) == Some("")
  {
    BulletItemOf("", '-', line[1..], "");
    assert line == "" + ['-'] + line[1..] + "";
  }

  /** The numbered rule removes the indentation, the digits, the dot and the whitespace after it: the number is not kept. */
  lemma NumberedItemOf(indent: string, digits: string, gap: string, rest: string)
    requires IsBlank(indent) && digits != [] && (forall k :: 0 <= k < |digits| ==> IsDigit(digits[k]))
    requires gap != [] && IsBlank(gap)
    requires rest == [] || !IsSpace(rest[0])
    ensures NumberedItem(indent + digits + "." + gap + rest) == Some(rest)
  {
    var line := indent + digits + "." + gap + rest;
    var a := |indent|;
    var d := a + |digits|;
    SpanSpacesAt(line, 0, a);
    SpanDigitsAt(line, a, d);
    SpanSpacesAt(line, d + 1, d + 1 + |gap|);
    assert line[d + 1 + |gap|..] == rest;
  }

  /** A bullet line is claimed by no earlier rule. */
  lemma BulletLineFirst(line: string)
    requires BulletItem(line).Some?
    ensures !IsFence(line) && Heading(line).None?
  {
    StripHead(line);
    NotHashStart(line);
    NoHeading(line);
  }

  /** A line whose stripped form does not start with `#` does not start with `#` either. */
  lemma NotHashStart(line: string)
    requires !IsBlank(line) && Strip(line)[0] != '#'
    ensures line[0] != '#'
  {
    StripHead(line);
    if SpanSpaces(line, 0) > 0 {
      assert !IsSpace('#');
    }
  }

  /** A numbered line is claimed by no earlier rule. */
  lemma NumberedLineFirst(line: string)
    requires NumberedItem(line).Some?
    ensures !IsFence(line) && Heading(line).None? && BulletItem(line).None?
  {
    var a := SpanSpaces(line, 0);
    var d := SpanDigits(line, a);
    assert a < d && IsDigit(line[a]);
    assert !IsBlank(line) by { assert !IsSpace(line[a]); }
    StripHead(line);
    assert Strip(line)[0] == line[a];
    assert !IsBulletMarker(line[a]);
    NotHashStart(line);
    NoHeading(line);
  }

  /** A blockquote line is claimed by no earlier rule. */
  lemma QuoteLineFirst(line: string)
    requires IsQuote(line)
    ensures !IsFence(line) && Heading(line).None? && BulletItem(line).None? && NumberedItem(line).None?
  {
    StripHead(line);
    NotHashStart(line);
    NoHeading(line);
  }

  /** A maximal run of bullet lines becomes one bullet list with one cleaned item per line, in order. */
  lemma BulletRun(lines: seq<string>, i: nat, j: nat)
    requires i < j <= |lines|
    requires forall k :: i <= k < j ==> BulletItem(lines[k]).Some?
    requires j < |lines| ==> BulletItem(lines[j]).None?
    ensures Parse(lines, i) == [BulletList(BulletItems(lines[i..j]))] + Parse(lines, j)
  {
    var out := [BulletList(BulletItems(lines[i..j]))];
    BulletLineFirst(lines[i]);
    BulletEndAt(lines, i, j);
    StepBullets(lines, i);
    assert StepAt(lines, i) == Step(out, j);
    ParseVia(lines, i, out, j);
  }

  /** A maximal run of numbered lines becomes one numbered list with one cleaned item per line, in order. */
  lemma NumberedRun(lines: seq<string>, i: nat, j: nat)
    requires i < j <= |lines|
    requires forall k :: i <= k < j ==> NumberedItem(lines[k]).Some?
    requires j < |lines| ==> NumberedItem(lines[j]).None?
    ensures Parse(lines, i) == [NumberedList(NumberedItems(lines[i..j]))] + Parse(lines, j)
  {
    var out := [NumberedList(NumberedItems(lines[i..j]))];
    NumberedLineFirst(lines[i]);
    NumberedEndAt(lines, i, j);
    StepNumbered(lines, i);
    assert StepAt(lines, i) == Step(out, j);
    ParseVia(lines, i, out, j);
  }

  /** A maximal run of blockquote lines becomes one info box: the quoted texts joined by single spaces. */
  lemma QuoteRun(lines: seq<string>, i: nat, j: nat)
    requires i < j <= |lines|
    requires forall k :: i <= k < j ==> IsQuote(lines[k])
    requires j < |lines| ==> !IsQuote(lines[j])
    ensures Parse(lines, i) == [InfoBox(JoinWith(QuoteTexts(lines[i..j]), " "))] + Parse(lines, j)
  {
    var out := [InfoBox(JoinWith(QuoteTexts(lines[i..j]), " "))];
    QuoteLineFirst(lines[i]);
    QuoteEndAt(lines, i, j);
    StepQuotes(lines, i);
    assert StepAt(lines, i) == Step(out, j);
    ParseVia(lines, i, out, j);
  }

  // ---------------------------------------------------------------------------
  // Single lines

  /** A whitespace-only line emits exactly one blank element. */
  lemma BlankLine(lines: seq<string>, i: nat)
    requires i < |lines| && IsBlank(lines[i])
    ensures Parse(lines, i) == [Blank] + Parse(lines, i + 1)
  {
    BlankLineClass(lines[i]);
    StepLine(lines, i);
    ParseViaSucc(lines, i, [Blank], i);
  }

  /** No block rule claims a whitespace-only line. */
  lemma BlankLineClass(line: string)
    requires IsBlank(line)
    ensures !IsFence(line) && Heading(line).None? && BulletItem(line).None? && NumberedItem(line).None? && !IsQuote(line)
    ensures LineElements(line) == [Blank]
  {
    assert !IsSpace('#');
    assert line != [] ==> IsSpace(line[0]);
  }

  /** A horizontal rule (three or more of `-`, `*`, `_` once stripped) emits nothing. */
  lemma RuleLine(lines: seq<string>, i: nat)
    requires i < |lines| && IsRule(Strip(lines[i]))
    ensures Parse(lines, i) == Parse(lines, i + 1)
  {
    RuleLineClass(lines[i]);
    StepLine(lines, i);
    ParseViaSucc(lines, i, [], i);
  }

  /** No block rule claims a horizontal rule, and it contributes no element. */
  lemma RuleLineClass(line: string)
    requires IsRule(Strip(line))
    ensures !IsFence(line) && Heading(line).None? && BulletItem(line).None? && NumberedItem(line).None? && !IsQuote(line)
    ensures LineElements(line) == []
  {
    RuleNotBlock(line);
    RuleAfterIndent(line);
    RuleColumnZero(line);
    NoHeading(line);
  }

  /** A horizontal rule is not blank, not a fence and not a blockquote. */
  lemma RuleNotBlock(line: string)
    requires IsRule(Strip(line))
    ensures !IsBlank(line) && !IsFence(line) && !IsQuote(line)
  {
    var t := Strip(line);
    assert IsRuleChar(t[0]);
  }

  /** After its indentation, a horizontal rule starts with two rule characters. */
  lemma RuleAfterIndent(line: string)
    requires IsRule(Strip(line))
    ensures var a := SpanSpaces(line, 0);
      a + 2 <= |line| && IsRuleChar(line[a]) && IsRuleChar(line[a + 1])
  {
    var t := Strip(line);
    StripHead(line);
    assert IsRuleChar(t[0]) && IsRuleChar(t[1]);
  }

  /** A horizontal rule does not start with `#`. */
  lemma RuleColumnZero(line: string)
    requires IsRule(Strip(line))
    ensures line != [] && line[0] != '#'
  {
    var t := Strip(line);
    StripHead(line);
    assert IsRuleChar(t[0]);
    if SpanSpaces(line, 0) > 0 {
      assert !IsSpace('#');
    }
  }

  /**
   * A line whose stripped text has no markup character and does not start
   * like a heading, list item or blockquote is emitted as text, unchanged.
   */
  lemma PlainTextLine(lines: seq<string>, i: nat)
    requires i < |lines| && !IsBlank(lines[i])
    requires var t := Strip(lines[i]); Plain(t) && t[0] !in "#-+>" && !IsDigit(t[0])
    ensures Parse(lines, i) == [Text(Strip(lines[i]))] + Parse(lines, i + 1)
  {
    PlainLineClass(lines[i]);
    StepLine(lines, i);
    ParseViaSucc(lines, i, [Text(Strip(lines[i]))], i);
  }

  lemma PlainLineClass(line: string)
    requires !IsBlank(line)
    requires var t := Strip(line); Plain(t) && t[0] !in "#-+>" && !IsDigit(t[0])
    ensures !IsFence(line) && Heading(line).None? && BulletItem(line).None? && NumberedItem(line).None? && !IsQuote(line)
    ensures LineElements(line) == [Text(Strip(line))]
  {
    PlainNotBlock(line);
    PlainAfterIndent(line);
    PlainColumnZero(line);
    NoHeading(line);
    CleanTextPlain(Strip(line));
  }

  /** Such a line is not a fence, a blockquote or a horizontal rule. */
  lemma PlainNotBlock(line: string)
    requires !IsBlank(line)
    requires var t := Strip(line); Plain(t) && t[0] !in "#-+>" && !IsDigit(t[0])
    ensures !IsFence(line) && !IsQuote(line) && !IsRule(Strip(line))
  {
  }

  /** After its indentation, such a line starts with neither a list marker nor a digit. */
  lemma PlainAfterIndent(line: string)
    requires !IsBlank(line)
    requires var t := Strip(line); Plain(t) && t[0] !in "#-+>" && !IsDigit(t[0])
    ensures var a := SpanSpaces(line, 0);
      a < |line| && !IsBulletMarker(line[a]) && !IsDigit(line[a])
  {
    StripHead(line);
  }

  /** Such a line does not start with `#`. */
  lemma PlainColumnZero(line: string)
    requires !IsBlank(line)
    requires var t := Strip(line); Plain(t) && t[0] !in "#-+>" && !IsDigit(t[0])
    ensures line[0] != '#'
  {
    StripHead(line);
    if SpanSpaces(line, 0) > 0 {
      assert !IsSpace('#');
    }
  }

  /** A text line that cleaning reduces to whitespace, such as `** **`, emits nothing. */
  lemma CleanedToBlank(lines: seq<string>, i: nat, x: string)
    requires i < |lines| && lines[i] == "**" + x + "**"
    requires x != [] && IsBlank(x)
    ensures Parse(lines, i) == Parse(lines, i + 1)
  {
    StarredBlankClass(lines[i], x);
    StepLine(lines, i);
    ParseViaSucc(lines, i, [], i);
  }

  lemma StarredBlankClass(line: string, x: string)
    requires line == "**" + x + "**" && x != [] && IsBlank(x)
    ensures !IsFence(line) && Heading(line).None? && BulletItem(line).None? && NumberedItem(line).None? && !IsQuote(line)
    ensures LineElements(line) == []
  {
    StarredBlankShape(line, x);
    NoHeading(line);
    assert Plain(x);
    CleanTextUnwraps("**", x);
  }

  /** `**` + whitespace + `**` is its own stripped form, and is not a rule since it holds whitespace. */
  lemma StarredBlankShape(line: string, x: string)
    requires line == "**" + x + "**" && x != [] && IsBlank(x)
    ensures SpanSpaces(line, 0) == 0 && line[1] == '*'
    ensures Strip(line) == line && !IsBlank(line) && !IsRule(line)
  {
    StripFirst(line);
    StripPlace(line);
    assert IsSpace(line[2]);
  }
}
