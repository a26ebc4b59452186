/**
 * `parse_markdown_structure` (utilities/save_pdf.py:150-296): a single pass
 * over the lines of `content.split("\n")` that turns them into an ordered list
 * of typed elements. Rules are tried in a fixed order on the line at the
 * cursor: code fence, heading, bullet item, numbered item, blockquote, text
 * (or horizontal rule), blank.
 *
 * `Parse` states the result as a function of the lines and the cursor;
 * `ParseMarkdownStructure` is the source's loop, proved to compute it.
 */
module Blocks {
  import opened Common
  import opened Inline

  /** One `(tag, payload)` pair of the element list. */
  datatype Element =
    | H1(text: string)
    | H2(text: string)
    | H3(text: string)
    | Text(text: string)
    | BulletList(items: seq<string>)
    | NumberedList(items: seq<string>)
    | Code(code: string)
    | InfoBox(text: string)
    | Blank

  /** The tag string the source pairs with each element. */
  function Tag(e: Element): string {
    match e
    case H1(_) => "h1"
    case H2(_) => "h2"
    case H3(_) => "h3"
    case Text(_) => "text"
    case BulletList(_) => "bullet_list"
    case NumberedList(_) => "numbered_list"
    case Code(_) => "code"
    case InfoBox(_) => "info_box"
    case Blank => "blank"
  }

  /** Two elements of the same kind, whatever their payloads. */
  predicate SameKind(a: Element, b: Element) {
    || (a.H1? && b.H1?) || (a.H2? && b.H2?) || (a.H3? && b.H3?) || (a.Text? && b.Text?)
    || (a.BulletList? && b.BulletList?) || (a.NumberedList? && b.NumberedList?)
    || (a.Code? && b.Code?) || (a.InfoBox? && b.InfoBox?) || (a.Blank? && b.Blank?)
  }

  /** The tag tells the kinds apart: the dispatch on it in `save_pdf` sees exactly the element's kind. */
  lemma TagOfKind(a: Element, b: Element)
    ensures Tag(a) == Tag(b) <==> SameKind(a, b)
  {
  }

  // ---------------------------------------------------------------------------
  // Line rules

  /** `line.strip().startswith("```")`: the line opens or closes a code block. */
  predicate IsFence(line: string) {
    var t := Strip(line);
    |t| >= 3 && t[0] == '`' && t[1] == '`' && t[2] == '`'
  }

  /**
   * `re.match(r"^#{n}\s+(.+)$", line)`, for `n` in 1..3: the captured group
   * when the line matches. The greedy `\s+` takes the whole run of
   * whitespace unless that would leave nothing for `(.+)`, in which case it
   * gives back the last character.
   */
  function HeadingGroup(line: string, n: nat): (g: Option<string>)
    ensures g.Some? ==> n + 2 <= |line| && IsSpace(line[n])
    ensures g.Some? ==> forall k :: 0 <= k < n ==> line[k] == '#'
    ensures g.Some? ==> g.value != [] && n < |line| - |g.value| && g.value == line[|line| - |g.value|..]
    ensures g.Some? ==> forall k :: n <= k < |line| - |g.value| ==> IsSpace(line[k])
    ensures g.Some? && |g.value| > 1 ==> !IsSpace(g.value[0])
  {
    if n + 2 <= |line| && (forall k :: 0 <= k < n ==> line[k] == '#') && IsSpace(line[n]) then
      var s := SpanSpaces(line, n);
      Some(line[if s < |line| then s else |line| - 1..])
    else None
  }

  /** The three heading patterns in the source's order, each followed by the 5-step chain. */
  function Heading(line: string): Option<Element> {
    match HeadingGroup(line, 1)
    case Some(g) => Some(H1(CleanHeading(g)))
    case None =>
      match HeadingGroup(line, 2)
      case Some(g) => Some(H2(CleanHeading(g)))
      case None =>
        match HeadingGroup(line, 3)
        case Some(g) => Some(H3(CleanHeading(g)))
        case None => None
  }

  predicate IsBulletMarker(c: char) {
    c == '-' || c == '*' || c == '+'
  }

  /**
   * `re.match(r"^[\s]*[-*+]\s+", line)` and, when it matches, what
   * `re.sub` of the same pattern leaves: the line after the marker and the
   * whitespace that follows it.
   */
  function BulletItem(line: string): (r: Option<string>)
    ensures r.Some? ==> |r.value| + 2 <= |line| && r.value == line[|line| - |r.value|..]
    ensures r.Some? && r.value != [] ==> !IsSpace(r.value[0])
  {
    var a := SpanSpaces(line, 0);
    if a + 2 <= |line| && IsBulletMarker(line[a]) && IsSpace(line[a + 1]) then
      Some(line[SpanSpaces(line, a + 1)..])
    else None
  }

  /** The end of the run of ASCII digits that starts at index `i`. */
  function SpanDigits(s: string, i: nat): (j: nat)
    requires i <= |s|
    ensures i <= j <= |s|
    ensures forall k :: i <= k < j ==> IsDigit(s[k])
    ensures j < |s| ==> !IsDigit(s[j])
    decreases |s| - i
  {
    if i < |s| && IsDigit(s[i]) then SpanDigits(s, i + 1) else i
  }

  /** A run of digits from `i` that stops at `j` ends at `j`. */
  lemma {:induction false} SpanDigitsAt(s: string, i: nat, j: nat)
    requires i <= j <= |s|
    requires forall k :: i <= k < j ==> IsDigit(s[k])
    requires j < |s| ==> !IsDigit(s[j])
    ensures SpanDigits(s, i) == j
    decreases j - i
  {
    if i < j {
      SpanDigitsAt(s, i + 1, j);
    }
  }

  /** `re.match(r"^[\s]*\d+\.\s+", line)` and what the same `re.sub` leaves. */
  function NumberedItem(line: string): (r: Option<string>)
    ensures r.Some? ==> |r.value| + 3 <= |line| && r.value == line[|line| - |r.value|..]
    ensures r.Some? && r.value != [] ==> !IsSpace(r.value[0])
  {
    var a := SpanSpaces(line, 0);
    var d := SpanDigits(line, a);
    if a < d && d + 2 <= |line| && line[d] == '.' && IsSpace(line[d + 1]) then
      Some(line[SpanSpaces(line, d + 1)..])
    else None
  }

  /** `line.strip().startswith(">")`. */
  predicate IsQuote(line: string) {
    var t := Strip(line);
    t != [] && t[0] == '>'
  }

  /** `line.strip()[1:].strip()`: the quoted text. */
  function QuoteText(line: string): (t: string)
    requires IsQuote(line)
    ensures |t| < |Strip(line)|
  {
    Strip(Strip(line)[1..])
  }

  /**
   * The quoted text is what follows the `>` of the stripped line, with the
   * whitespace on both sides of it removed: it sits at offset `a` in
   * `u == line.strip()[1:]`, and only whitespace lies before and after it.
   */
  lemma QuoteTextPlace(line: string)
    requires IsQuote(line)
    ensures var u := Strip(line)[1..]; var a := SpanSpaces(u, 0);
      && a + |QuoteText(line)| <= |u|
      && (forall k :: 0 <= k < a ==> IsSpace(u[k]))
      && (forall k :: 0 <= k < |QuoteText(line)| ==> QuoteText(line)[k] == u[a + k])
      && (forall k :: a + |QuoteText(line)| <= k < |u| ==> IsSpace(u[k]))
  {
    StripPlace(Strip(line)[1..]);
  }

  /** The character class `[-*_]` of the horizontal-rule pattern. */
  predicate IsRuleChar(c: char) {
    c == '-' || c == '*' || c == '_'
  }

  /** `re.match(r"^[-*_]{3,}$", text)` on a stripped line. */
  predicate IsRule(t: string) {
    |t| >= 3 && forall k :: 0 <= k < |t| ==> IsRuleChar(t[k])
  }

  // ---------------------------------------------------------------------------
  // Runs of lines

  /** From `from`, the next fence line (the code-block loop), or the end of the lines. */
  function FenceEnd(lines: seq<string>, from: nat): (j: nat)
    requires from <= |lines|
    ensures from <= j <= |lines|
    ensures forall k :: from <= k < j ==> !IsFence(lines[k])
    ensures j < |lines| ==> IsFence(lines[j])
    decreases |lines| - from
  {
    if from == |lines| || IsFence(lines[from]) then from else FenceEnd(lines, from + 1)
  }

  /** A run that holds on `[from, j)` and stops at `j` ends at `j`. */
  lemma {:induction false} FenceEndAt(lines: seq<string>, from: nat, j: nat)
    requires from <= j <= |lines|
    requires forall k :: from <= k < j ==> !IsFence(lines[k])
    requires j < |lines| ==> IsFence(lines[j])
    ensures FenceEnd(lines, from) == j
    decreases j - from
  {
    if from < j {
      FenceEndAt(lines, from + 1, j);
    }
  }

  /** From `from`, the first line that is not a bullet item, or the end of the lines. */
  function BulletEnd(lines: seq<string>, from: nat): (j: nat)
    requires from <= |lines|
    ensures from <= j <= |lines|
    ensures forall k :: from <= k < j ==> BulletItem(lines[k]).Some?
    ensures j < |lines| ==> BulletItem(lines[j]).None?
    decreases |lines| - from
  {
    if from == |lines| || BulletItem(lines[from]).None? then from else BulletEnd(lines, from + 1)
  }

  /** A run that holds on `[from, j)` and stops at `j` ends at `j`. */
  lemma {:induction false} BulletEndAt(lines: seq<string>, from: nat, j: nat)
    requires from <= j <= |lines|
    requires forall k :: from <= k < j ==> BulletItem(lines[k]).Some?
    requires j < |lines| ==> BulletItem(lines[j]).None?
    ensures BulletEnd(lines, from) == j
    decreases j - from
  {
    if from < j {
      BulletEndAt(lines, from + 1, j);
    }
  }

  /** From `from`, the first line that is not a numbered item, or the end of the lines. */
  function NumberedEnd(lines: seq<string>, from: nat): (j: nat)
    requires from <= |lines|
    ensures from <= j <= |lines|
    ensures forall k :: from <= k < j ==> NumberedItem(lines[k]).Some?
    ensures j < |lines| ==> NumberedItem(lines[j]).None?
    decreases |lines| - from
  {
    if from == |lines| || NumberedItem(lines[from]).None? then from else NumberedEnd(lines, from + 1)
  }

  /** A run that holds on `[from, j)` and stops at `j` ends at `j`. */
  lemma {:induction false} NumberedEndAt(lines: seq<string>, from: nat, j: nat)
    requires from <= j <= |lines|
    requires forall k :: from <= k < j ==> NumberedItem(lines[k]).Some?
    requires j < |lines| ==> NumberedItem(lines[j]).None?
    ensures NumberedEnd(lines, from) == j
    decreases j - from
  {
    if from < j {
      NumberedEndAt(lines, from + 1, j);
    }
  }

  /** From `from`, the first line that is not a blockquote line, or the end of the lines. */
  function QuoteEnd(lines: seq<string>, from: nat): (j: nat)
    requires from <= |lines|
    ensures from <= j <= |lines|
    ensures forall k :: from <= k < j ==> IsQuote(lines[k])
    ensures j < |lines| ==> !IsQuote(lines[j])
    decreases |lines| - from
  {
    if from == |lines| || !IsQuote(lines[from]) then from else QuoteEnd(lines, from + 1)
  }

  /** A run that holds on `[from, j)` and stops at `j` ends at `j`. */
  lemma {:induction false} QuoteEndAt(lines: seq<string>, from: nat, j: nat)
    requires from <= j <= |lines|
    requires forall k :: from <= k < j ==> IsQuote(lines[k])
    requires j < |lines| ==> !IsQuote(lines[j])
    ensures QuoteEnd(lines, from) == j
    decreases j - from
  {
    if from < j {
      QuoteEndAt(lines, from + 1, j);
    }
  }

  /** The cleaned item of every line of a bullet run. */
  function BulletItems(run: seq<string>): seq<string>
    requires forall k :: 0 <= k < |run| ==> BulletItem(run[k]).Some?
  {
    seq(|run|, k requires 0 <= k < |run| => CleanItem(BulletItem(run[k]).value))
  }

  /** The cleaned item of every line of a numbered run. */
  function NumberedItems(run: seq<string>): seq<string>
    requires forall k :: 0 <= k < |run| ==> NumberedItem(run[k]).Some?
  {
    seq(|run|, k requires 0 <= k < |run| => CleanItem(NumberedItem(run[k]).value))
  }

  /** The quoted text of every line of a blockquote run. */
  function QuoteTexts(run: seq<string>): seq<string>
    requires forall k :: 0 <= k < |run| ==> IsQuote(run[k])
  {
    seq(|run|, k requires 0 <= k < |run| => QuoteText(run[k]))
  }

  /** Extending a bullet run by one line adds that line's item at the end. */
  lemma BulletItemsSnoc(lines: seq<string>, from: nat, j: nat)
    requires from <= j < |lines|
    requires forall k :: from <= k <= j ==> BulletItem(lines[k]).Some?
    ensures BulletItems(lines[from..j + 1]) == BulletItems(lines[from..j]) + [CleanItem(BulletItem(lines[j]).value)]
  {
  }

  /** Extending a numbered run by one line adds that line's item at the end. */
  lemma NumberedItemsSnoc(lines: seq<string>, from: nat, j: nat)
    requires from <= j < |lines|
    requires forall k :: from <= k <= j ==> NumberedItem(lines[k]).Some?
    ensures NumberedItems(lines[from..j + 1]) == NumberedItems(lines[from..j]) + [CleanItem(NumberedItem(lines[j]).value)]
  {
  }

  /** Extending a blockquote run by one line adds that line's text at the end. */
  lemma QuoteTextsSnoc(lines: seq<string>, from: nat, j: nat)
    requires from <= j < |lines|
    requires forall k :: from <= k <= j ==> IsQuote(lines[k])
    ensures QuoteTexts(lines[from..j + 1]) == QuoteTexts(lines[from..j]) + [QuoteText(lines[j])]
  {
  }

  // ---------------------------------------------------------------------------
  // The parser

  /** What one iteration of the outer loop appends, and where it leaves the cursor. */
  datatype Step = Step(out: seq<Element>, next: nat)

  /** One iteration of the outer loop at cursor `i`: the first rule that claims the line decides. */
  function StepAt(lines: seq<string>, i: nat): (s: Step)
    requires i < |lines|
    ensures i < s.next
  {
    var line := lines[i];
    if IsFence(line) then
      var j := FenceEnd(lines, i + 1);
      Step(if j == i + 1 then [] else [Code(JoinLines(lines[i + 1..j]))], j + 1)
    else if Heading(line).Some? then
      Step([Heading(line).value], i + 1)
    else if BulletItem(line).Some? then
      var j := BulletEnd(lines, i);
      Step([BulletList(BulletItems(lines[i..j]))], j)
    else if NumberedItem(line).Some? then
      var j := NumberedEnd(lines, i);
      Step([NumberedList(NumberedItems(lines[i..j]))], j)
    else if IsQuote(line) then
      var j := QuoteEnd(lines, i);
      Step([InfoBox(JoinWith(QuoteTexts(lines[i..j]), " "))], j)
    else
      Step(LineElements(line), i + 1)
  }

  /** The elements produced from the lines at and after cursor `i`. */
  function Parse(lines: seq<string>, i: nat): seq<Element>
    decreases |lines| - i
  {
    if i >= |lines| then []
    else
      var s := StepAt(lines, i);
      s.out + Parse(lines, s.next)
  }

  /**
   * A line that no block rule claims: a blank line gives one blank element,
   * a horizontal rule gives nothing, and text gives its cleaned form unless
   * cleaning leaves only whitespace.
   */
  function LineElements(line: string): seq<Element> {
    if IsBlank(line) then [Blank]
    else
      var t := Strip(line);
      if IsRule(t) then []
      else
        var c := CleanText(t);
        if IsBlank(c) then [] else [Text(c)]
  }

  // ---------------------------------------------------------------------------
  // One step of the parser per rule

  /** `Parse` at a line whose iteration is known. */
  lemma ParseVia(lines: seq<string>, i: nat, out: seq<Element>, next: nat)
    requires i < |lines| && StepAt(lines, i) == Step(out, next)
    ensures Parse(lines, i) == out + Parse(lines, next)
  {
  }

  /** `ParseVia` for an iteration that leaves the cursor just after line `j`. */
  lemma ParseViaSucc(lines: seq<string>, i: nat, out: seq<Element>, j: nat)
    requires i < |lines| && StepAt(lines, i) == Step(out, j + 1)
    ensures Parse(lines, i) == out + Parse(lines, j + 1)
  {
    ParseVia(lines, i, out, j + 1);
  }

  /** A fence line: the lines up to the next fence become one code element, unless there are none. */
  lemma StepFence(lines: seq<string>, i: nat)
    requires i < |lines| && IsFence(lines[i])
    ensures var j := FenceEnd(lines, i + 1);
      StepAt(lines, i) == Step(if j == i + 1 then [] else [Code(JoinLines(lines[i + 1..j]))], j + 1)
  {
  }

  lemma StepHeading(lines: seq<string>, i: nat)
    requires i < |lines| && !IsFence(lines[i]) && Heading(lines[i]).Some?
    ensures StepAt(lines, i) == Step([Heading(lines[i]).value], i + 1)
  {
  }

  lemma StepBullets(lines: seq<string>, i: nat)
    requires i < |lines| && !IsFence(lines[i]) && Heading(lines[i]).None? && BulletItem(lines[i]).Some?
    ensures var j := BulletEnd(lines, i);
      StepAt(lines, i) == Step([BulletList(BulletItems(lines[i..j]))], j)
  {
  }

  lemma StepNumbered(lines: seq<string>, i: nat)
    requires i < |lines| && !IsFence(lines[i]) && Heading(lines[i]).None? && BulletItem(lines[i]).None?
    requires NumberedItem(lines[i]).Some?
    ensures var j := NumberedEnd(lines, i);
      StepAt(lines, i) == Step([NumberedList(NumberedItems(lines[i..j]))], j)
  {
  }

  lemma StepQuotes(lines: seq<string>, i: nat)
    requires i < |lines| && !IsFence(lines[i]) && Heading(lines[i]).None? && BulletItem(lines[i]).None?
    requires NumberedItem(lines[i]).None? && IsQuote(lines[i])
    ensures var j := QuoteEnd(lines, i);
      StepAt(lines, i) == Step([InfoBox(JoinWith(QuoteTexts(lines[i..j]), " "))], j)
  {
  }

  /** Any other line: a rule is skipped, text is kept when something is left after cleaning, and a blank line is kept. */
  lemma StepLine(lines: seq<string>, i: nat)
    requires i < |lines| && !IsFence(lines[i]) && Heading(lines[i]).None? && BulletItem(lines[i]).None?
    requires NumberedItem(lines[i]).None? && !IsQuote(lines[i])
    ensures StepAt(lines, i) == Step(LineElements(lines[i]), i + 1)
  {
  }

  /** The code-block loop (save_pdf.py:166-168): the lines up to the next fence, and where it stopped. */
  method CollectCode(lines: seq<string>, from: nat) returns (codeLines: seq<string>, j: nat)
    requires from <= |lines|
    ensures j == FenceEnd(lines, from)
    ensures codeLines == lines[from..j]
  {
    codeLines := [];
    j := from;
    while j < |lines| && !IsFence(lines[j])
      invariant from <= j <= |lines|
      invariant codeLines == lines[from..j]
      invariant forall k :: from <= k < j ==> !IsFence(lines[k])
    {
      codeLines := codeLines + [lines[j]];
      j := j + 1;
    }
    FenceEndAt(lines, from, j);
  }

  /** The bullet loop (save_pdf.py:209-221): the cleaned items of the run, and where it stopped. */
  method CollectBullets(lines: seq<string>, from: nat) returns (items: seq<string>, j: nat)
    requires from <= |lines|
    ensures j == BulletEnd(lines, from)
    ensures items == BulletItems(lines[from..j])
  {
    items := [];
    j := from;
    while j < |lines| && BulletItem(lines[j]).Some?
      invariant from <= j <= |lines|
      invariant forall k :: from <= k < j ==> BulletItem(lines[k]).Some?
      invariant items == BulletItems(lines[from..j])
    {
      BulletItemsSnoc(lines, from, j);
      items := items + [CleanItem(BulletItem(lines[j]).value)];
      j := j + 1;
    }
    BulletEndAt(lines, from, j);
  }

  /** The numbered loop (save_pdf.py:227-238): the cleaned items of the run, and where it stopped. */
  method CollectNumbered(lines: seq<string>, from: nat) returns (items: seq<string>, j: nat)
    requires from <= |lines|
    ensures j == NumberedEnd(lines, from)
    ensures items == NumberedItems(lines[from..j])
  {
    items := [];
    j := from;
    while j < |lines| && NumberedItem(lines[j]).Some?
      invariant from <= j <= |lines|
      invariant forall k :: from <= k < j ==> NumberedItem(lines[k]).Some?
      invariant items == NumberedItems(lines[from..j])
    {
      NumberedItemsSnoc(lines, from, j);
      items := items + [CleanItem(NumberedItem(lines[j]).value)];
      j := j + 1;
    }
    NumberedEndAt(lines, from, j);
  }

  /** The blockquote loop (save_pdf.py:245-247): the quoted texts of the run, and where it stopped. */
  method CollectQuotes(lines: seq<string>, from: nat) returns (quoteLines: seq<string>, j: nat)
    requires from <= |lines|
    ensures j == QuoteEnd(lines, from)
    ensures quoteLines == QuoteTexts(lines[from..j])
  {
    quoteLines := [];
    j := from;
    while j < |lines| && IsQuote(lines[j])
      invariant from <= j <= |lines|
      invariant forall k :: from <= k < j ==> IsQuote(lines[k])
      invariant quoteLines == QuoteTexts(lines[from..j])
    {
      QuoteTextsSnoc(lines, from, j);
      quoteLines := quoteLines + [QuoteText(lines[j])];
      j := j + 1;
    }
    QuoteEndAt(lines, from, j);
  }

  /** One iteration of the outer loop (save_pdf.py:161-294): what it appends and where the cursor goes. */
  method ParseOne(lines: seq<string>, i: nat) returns (out: seq<Element>, next: nat)
    requires i < |lines|
    ensures Step(out, next) == StepAt(lines, i)
  {
    var line := lines[i];
    if IsFence(line) {
      var codeLines, j := CollectCode(lines, i + 1);
      out := if codeLines != [] then [Code(JoinLines(codeLines))] else [];
      next := j + 1;
      return;
    }
    var heading := Heading(line);
    if heading.Some? {
      out, next := [heading.value], i + 1;
    } else if BulletItem(line).Some? {
      var items, j := CollectBullets(lines, i);
      out, next := [BulletList(items)], j;
    } else if NumberedItem(line).Some? {
      var items, j := CollectNumbered(lines, i);
      out, next := [NumberedList(items)], j;
    } else if IsQuote(line) {
      var quoteLines, j := CollectQuotes(lines, i);
      out, next := [InfoBox(JoinWith(quoteLines, " "))], j;
    } else if !IsBlank(line) {
      var text := Strip(line);
      if IsRule(text) {
        out, next := [], i + 1;
        return;
      }
      text := CleanText(text);
      out := if !IsBlank(text) then [Text(text)] else [];
      next := i + 1;
    } else {
      out, next := [Blank], i + 1;
    }
  }

  /** `parse_markdown_structure(content)`: the cursor loop. */
  method ParseMarkdownStructure(content: string) returns (elements: seq<Element>)
    ensures elements == Parse(SplitLines(content), 0)
  {
    var lines := SplitLines(content);
    elements := [];
    var i := 0;
    while i < |lines|
      invariant elements + Parse(lines, i) == Parse(lines, 0)
      decreases |lines| - i
    {
      var out, next := ParseOne(lines, i);
      AppendStep(elements, elements + out, out, Parse(lines, i), Parse(lines, next));
      elements := elements + out;
      i := next;
    }
  }

  lemma AppendStep<T>(before: seq<T>, after: seq<T>, out: seq<T>, p: seq<T>, q: seq<T>)
    requires after == before + out && p == out + q
    ensures before + p == after + q
  {
  }
}
