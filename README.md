# Mini-PharmaMind report and lookup core, in Dafny

Mini-PharmaMind is a set of research agents. Each agent writes its findings as Markdown, and the system turns that Markdown into a PDF report. The agents also query two public services: ChEMBL, for compounds and bioactivities, and Open Targets, for diseases and their targets. This project models the deterministic core of three utilities and proves properties of that model.

- **utilities/save_pdf.py**
  - `parse_markdown_structure` reads the Markdown line by line. It produces typed elements: headings, text, bullet lists, numbered lists, code blocks, info boxes and blanks. Its inline cleaning chains remove emphasis, code, link, image and escape markup. The modules are `Inline`, `Blocks` and `ParseFacts`.
  - The `EnhancedPDF` drawing methods and the element dispatch of `save_pdf` are modelled as a trace of the FPDF calls they make. The modules are `Render` and `RenderFacts`.
- **utilities/chembl.py** (module `Chembl`)
  - `validate_chembl_id`.
  - The argument checks of `search_compounds`, `get_compound_structure`, `search_activities` and `batch_compound_lookup`.
  - The query parameters `search_activities` builds.
  - The per-identifier loop of `batch_compound_lookup` and its success and failure counts.
- **utilities/opentargets_tool.py** (module `OpenTargets`)
  - The disease filter and the stable sort by descending score in `search_disease_by_name`.
  - The per-target summary of `extract_top_targets_summary`: tractable labels, drug count and highest clinical phase.

`Common` holds the shared pieces of Python semantics that the model needs:
- `str.strip` over Python's whitespace set;
- `split("\n")` and `"\n".join`, with their round trip;
- decimal rendering of list numbers.

Some parts are imperative in the source, and the model keeps them imperative:
- the parser loop and its inner collection loops;
- the PDF object, a class whose `ops` field records every drawing call;
- the in-place sort, on an array;
- the batch loop.

Each of these methods is proved against a specification function. The promised properties are then proved about those functions.

Some behaviours of the code are easy to miss, and the model keeps them:
- `add_table` draws `len(row)` cells for each data row, whatever the number of headers (utilities/save_pdf.py:142-145).
- A list line such as `"- "` yields an empty item, because `\s+` may take the rest of the line (utilities/save_pdf.py:207-210).
- The text cleaning is not idempotent. The escape step turns `\\*` into `\*`, and a second pass would turn that into `*` (utilities/save_pdf.py:284).
- A document that ends in a newline splits into lines whose last one is empty. When the outer loop reaches that line it gives a `blank` element (`ParseFacts.BlankLine`); when the line falls inside a code fence that is never closed, the fence loop takes it instead and no `blank` follows (`ParseFacts.UnterminatedFence`) (utilities/save_pdf.py:157, 165-171, 291-292).

## Model

| member | source | states |
|---|---|---|
| Common.SpanSpaces | utilities/save_pdf.py:164 | the index of the first non-whitespace character at or after `i`; everything skipped is whitespace |
| Common.SpanSpacesBack | utilities/save_pdf.py:164 | the start of the trailing whitespace run that ends at `hi`, never below `lo` |
| Common.IsSpace | utilities/save_pdf.py:164 | the characters `str.isspace` accepts, by code point |
| Common.IsBlank | utilities/save_pdf.py:253 | a line is blank when every character is whitespace, so `strip()` leaves nothing |
| Common.StartsWith | utilities/save_pdf.py:164 | `str.startswith` |
| Common.Strip | utilities/save_pdf.py:253-255 | `str.strip()` is no longer than its input; it is empty exactly when the line is blank; otherwise it neither starts nor ends with whitespace |
| Common.StripPlace | utilities/save_pdf.py:253-255 | the stripped text is the input without its leading and its trailing whitespace runs, character for character |
| Common.SplitLines | utilities/save_pdf.py:157 | `content.split("\n")` yields at least one piece, and no piece contains a newline |
| Common.JoinSplitLines | utilities/save_pdf.py:157 | joining the pieces of `split("\n")` with newlines gives back the content |
| Common.SplitJoinLines | utilities/save_pdf.py:171 | splitting `"\n".join(parts)` gives back the parts when none contains a newline |
| Common.SplitLinesNoNewline | utilities/save_pdf.py:101 | a string without a newline splits into itself alone |
| Common.SplitLinesCons | utilities/save_pdf.py:101 | splitting `a + "\n" + b` gives `a` followed by the pieces of `b` |
| Common.JoinWith | utilities/save_pdf.py:249 | `sep.join(parts)` |
| Common.JoinLines | utilities/save_pdf.py:171 | `"\n".join(parts)` |
| Common.NatToString | utilities/save_pdf.py:91 | decimal rendering of a number: at least one digit, only digits, no leading zero |
| Common.DecimalRoundTrip | utilities/save_pdf.py:91 | reading back the decimal rendering of `n` gives `n` |
| Common.NatToStringInjective | utilities/save_pdf.py:91 | different numbers render differently |
| Common.DigitChar | utilities/save_pdf.py:91 | the digit character for `d` has value `d` |
| Common.DigitValue | utilities/save_pdf.py:226 | the value of a digit character, inverse of `DigitChar` |
| Common.IsDigit | utilities/save_pdf.py:226 | the ASCII digits that `\d` is read as |
| Inline.FindFrom | utilities/save_pdf.py:183 | the lazy `(.+?)` search: a found position lies at or after `from`, with the pattern inside the string |
| Inline.FindFromFirst | utilities/save_pdf.py:183 | a found position is the first occurrence at or after `from`; when nothing is found there is no occurrence |
| Inline.FindFromAt | utilities/save_pdf.py:183 | the first occurrence at or after `from` is what the search returns |
| Inline.PairMatch | utilities/save_pdf.py:183 | a match of `open(.+?)close` starts with `open`, has a non-empty body and ends inside the string |
| Inline.LinkMatch | utilities/save_pdf.py:219 | a match of `\[(.+?)\]\((.+?)\)` starts with `[`, with a non-empty label and a non-empty target |
| Inline.LinkFrom | utilities/save_pdf.py:219 | the backtracking search for the `](` that ends a link label ends a well-formed link |
| Inline.ImageMatch | utilities/save_pdf.py:278 | a match of `!\[.*?\]\(.*?\)` ends inside the string after its `![`, `](` and `)` |
| Inline.ImageFrom | utilities/save_pdf.py:278 | the search for the image's closing `)` ends inside the string |
| Inline.SubPair | utilities/save_pdf.py:183 | `re.sub(open(.+?)close, pre\1post)`: each leftmost match, scanning on after it |
| Inline.SubLink | utilities/save_pdf.py:219 | `re.sub(r"\[(.+?)\]\((.+?)\)", r"\1")`: each link replaced by its label |
| Inline.SubImage | utilities/save_pdf.py:278 | `re.sub(r"!\[.*?\]\(.*?\)", "")`: each image removed |
| Inline.Replace | utilities/save_pdf.py:284 | `str.replace`: left to right, without rescanning the replacement |
| Inline.Apply | utilities/save_pdf.py:183-187 | one step of a cleaning chain |
| Inline.Chain | utilities/save_pdf.py:183-187 | the steps of a chain, each applied to the result of the one before |
| Inline.CleanHeading | utilities/save_pdf.py:183-187 | the five heading steps: bold, italic, both underscore forms, inline code |
| Inline.CleanItem | utilities/save_pdf.py:212-219 | the heading steps, then links |
| Inline.CleanText | utilities/save_pdf.py:263-284 | the nine regex steps of a text line, then the three escape replacements |
| Inline.CharAbsent | utilities/save_pdf.py:183 | a pattern with a character missing from the text does not occur in it |
| Inline.AbsentTail | utilities/save_pdf.py:183 | a pattern missing from a text is missing from its tail |
| Inline.SubPairAbsent | utilities/save_pdf.py:183-187 | a delimited-span substitution leaves a text without its opening delimiter unchanged |
| Inline.UnpairedTail | utilities/save_pdf.py:183 | an opening delimiter with no closing one after it stays so in the tail |
| Inline.SubPairUnpaired | utilities/save_pdf.py:183-187 | a substitution whose opening delimiter is never closed leaves the text unchanged |
| Inline.SubLinkAbsent | utilities/save_pdf.py:219 | the link substitution leaves a text without `[` unchanged |
| Inline.SubImageAbsent | utilities/save_pdf.py:278 | the image substitution leaves a text without `[` unchanged |
| Inline.ReplaceAbsent | utilities/save_pdf.py:284 | `str.replace` leaves a text without the pattern unchanged |
| Inline.SubPairSpan | utilities/save_pdf.py:183-187 | `open x close`, where `x` has no closing character, becomes `pre x post`; with empty replacements it becomes `x` |
| Inline.ApplyInert | utilities/save_pdf.py:183-187 | a rule whose leading marker is absent from the text changes nothing |
| Inline.PlainInert | utilities/save_pdf.py:183-187 | every markup-led rule leaves plain text unchanged |
| Inline.ChainFixed | utilities/save_pdf.py:183-187 | a chain of rules that each fix the text leaves it unchanged |
| Inline.ChainThrough | utilities/save_pdf.py:262-284 | a chain in which exactly rule `k` rewrites `s` to `x`, and the later rules fix `x`, yields `x` |
| Inline.HeadingRulesMarkupLed | utilities/save_pdf.py:183-187 | every heading and list-item rule starts with a markup character |
| Inline.TextRulesMarkupLed | utilities/save_pdf.py:263-284 | every text-line rule starts with a markup character |
| Inline.CleanHeadingPlain | utilities/save_pdf.py:183-187 | heading cleaning leaves text without markup characters unchanged |
| Inline.CleanItemPlain | utilities/save_pdf.py:212-219 | list-item cleaning leaves text without markup characters unchanged |
| Inline.CleanTextPlain | utilities/save_pdf.py:262-284 | text-line cleaning leaves text without markup characters unchanged |
| Inline.TextFixesPlain | utilities/save_pdf.py:263-284 | each regex step and the escape chain fix plain text |
| Inline.ApplyUntouched | utilities/save_pdf.py:263-281 | a rule with no match in the text leaves it unchanged |
| Inline.ChainUntouched | utilities/save_pdf.py:263-281 | a chain with no match in the text leaves it unchanged |
| Inline.TextThrough | utilities/save_pdf.py:262-284 | when the regex steps before `k` do not match and step `k` yields plain text, the text cleaning yields that text |
| Inline.SpanThrough | utilities/save_pdf.py:263-281 | a span that only regex step `k` matches is cleaned to that step's replacement |
| Inline.UnwrapBoldItalic | utilities/save_pdf.py:263 | `***x***` with plain `x` is cleaned to `x` |
| Inline.UnwrapBold | utilities/save_pdf.py:264 | `**x**` with plain `x` is cleaned to `x` |
| Inline.UnwrapBoldAlt | utilities/save_pdf.py:265 | `__x__` with plain `x` is cleaned to `x` |
| Inline.UnwrapItalic | utilities/save_pdf.py:268 | `*x*` with plain `x` is cleaned to `x` |
| Inline.UnwrapItalicAlt | utilities/save_pdf.py:269 | `_x_` with plain `x` is cleaned to `x` |
| Inline.UnwrapStrike | utilities/save_pdf.py:281 | `~~x~~` with plain `x` is cleaned to `x` |
| Inline.CleanTextUnwraps | utilities/save_pdf.py:263-281 | each of the six emphasis and strikethrough delimiters around plain text is removed |
| Inline.CleanTextQuotesCode | utilities/save_pdf.py:272 | inline code `` `x` `` becomes `"x"` |
| Inline.CleanTextImageBecomesBangLabel | utilities/save_pdf.py:275-278 | because links are removed before images, `![a](u)` is cleaned to `!a`, not to the empty string |
| Inline.ImageLinkStep | utilities/save_pdf.py:275 | the link step turns `![a](u)` into `!a` |
| Inline.LinkLabelEnd | utilities/save_pdf.py:219 | in `[a](u)` with no `]` in `a`, the label ends right after `a` |
| Inline.FindCloseAfter | utilities/save_pdf.py:219 | the lazy search for a single closing character finds its first occurrence |
| Inline.LinkTargetEnd | utilities/save_pdf.py:219 | in `[a](u)` with no `)` in `u`, the target ends right after `u` |
| Inline.LinkOfPlainSpan | utilities/save_pdf.py:219 | the link step turns `[a](u)` into its label `a` |
| Inline.SubLinkSkip | utilities/save_pdf.py:219 | text before the first `[` is copied unchanged |
| Inline.LoneStarSurvivesRegexes | utilities/save_pdf.py:263-281 | a trailing `*` preceded only by backslashes and non-markup passes the regex steps unchanged |
| Inline.LoneStarUntouched | utilities/save_pdf.py:263-281 | no regex step matches such a text |
| Inline.EscapesGive | utilities/save_pdf.py:284 | with no `#` or `_` left, the escape chain is the `\*` replacement alone |
| Inline.CleanTextNotIdempotent | utilities/save_pdf.py:284 | `\\*` is cleaned to `\*`, and cleaning again gives `*`: the cleaning is not idempotent |
| Inline.EscapedStarOnce | utilities/save_pdf.py:284 | backslashes followed by `*` are cleaned by one left-to-right `replace` pass |
| Inline.ReplaceEscapedStars | utilities/save_pdf.py:284 | `replace("\\*", "*")` on `\\*` gives `\*`, and on `\*` gives `*` |
| Inline.ApplyKeepsHead | utilities/save_pdf.py:263-284 | a rule that cannot start at the first character keeps it |
| Inline.ChainKeepsHead | utilities/save_pdf.py:263-284 | a chain of such rules keeps the first character |
| Inline.CleanTextKeepsHead | utilities/save_pdf.py:262-284 | a text line that starts with a non-markup character other than `!` keeps that first character |
| Inline.SingleWrapNoDouble | utilities/save_pdf.py:263-268 | `c x c`, with no `c` in `x`, contains neither `cc` nor `ccc` |
| Inline.DoubleWrapNoTriple | utilities/save_pdf.py:263-265 | `cc x cc`, with no `c` in `x`, does not contain `ccc` |
| Inline.LoneStarUnchanged | utilities/save_pdf.py:268 | the italic step leaves a text whose only `*` is the last character unchanged |
| Inline.SubPairHead | utilities/save_pdf.py:183-187 | a span substitution keeps a first character that cannot open the span |
| Inline.SubLinkHead | utilities/save_pdf.py:219 | the link substitution keeps a first character other than `[` |
| Inline.SubImageHead | utilities/save_pdf.py:278 | the image substitution keeps a first character other than `!` |
| Inline.ReplaceHead | utilities/save_pdf.py:284 | `replace` keeps a first character that cannot start the pattern |
| Inline.ChainAppend | utilities/save_pdf.py:262-284 | applying two chains in turn is applying their concatenation |
| Inline.TextRulesSplit | utilities/save_pdf.py:262-284 | text cleaning is the regex steps followed by the escape replacements |
| Blocks.TagOfKind | utilities/save_pdf.py:373-391 | two elements have the same tag exactly when they are of the same kind, so the dispatch on the tag sees the element's kind |
| Blocks.Tag | utilities/save_pdf.py:373-391 | the tag string of each element kind |
| Blocks.IsFence | utilities/save_pdf.py:164 | `line.strip().startswith("```")` |
| Blocks.Heading | utilities/save_pdf.py:176-204 | the three heading patterns tried in order `#`, `##`, `###`, each group cleaned by the heading chain |
| Blocks.IsBulletMarker | utilities/save_pdf.py:207 | the marker class `[-*+]` |
| Blocks.IsQuote | utilities/save_pdf.py:243 | `line.strip().startswith(">")` |
| Blocks.IsRuleChar | utilities/save_pdf.py:258 | the character class `[-*_]` of the rule pattern |
| Blocks.IsRule | utilities/save_pdf.py:258 | `^[-*_]{3,}$` on the stripped line |
| Blocks.HeadingGroup | utilities/save_pdf.py:176-178 | `^#{n}\s+(.+)$` matches exactly: `n` hashes, whitespace, then a non-empty group that ends the line and starts with a non-space unless it is one character long |
| Blocks.BulletItem | utilities/save_pdf.py:207-210 | the text after the bullet marker and its whitespace is a suffix of the line, shorter by at least two characters, and starts with a non-space |
| Blocks.SpanDigits | utilities/save_pdf.py:226 | the end of the digit run at `i` |
| Blocks.SpanDigitsAt | utilities/save_pdf.py:226 | a digit run that ends at `j` is the one `SpanDigits` finds |
| Blocks.NumberedItem | utilities/save_pdf.py:226-229 | the text after `\d+\.` and its whitespace is a suffix of the line, shorter by at least three characters, and starts with a non-space |
| Blocks.QuoteText | utilities/save_pdf.py:246 | `line.strip()[1:].strip()`: the quoted text is shorter than the stripped line |
| Blocks.QuoteTextPlace | utilities/save_pdf.py:246 | the quoted text is the part of `line.strip()[1:]` between its leading and trailing whitespace, character by character |
| Blocks.FenceEnd | utilities/save_pdf.py:167 | the index of the next fence line at or after `from`, or the end of the document |
| Blocks.FenceEndAt | utilities/save_pdf.py:167 | any index with only non-fence lines before it, and a fence or the end at it, is `FenceEnd` |
| Blocks.BulletEnd | utilities/save_pdf.py:209 | the end of the run of bullet lines starting at `from` |
| Blocks.BulletEndAt | utilities/save_pdf.py:209 | a run of bullet lines that ends at `j` is the one `BulletEnd` finds |
| Blocks.NumberedEnd | utilities/save_pdf.py:228 | the end of the run of numbered lines starting at `from` |
| Blocks.NumberedEndAt | utilities/save_pdf.py:228 | a run of numbered lines that ends at `j` is the one `NumberedEnd` finds |
| Blocks.QuoteEnd | utilities/save_pdf.py:245 | the end of the run of quote lines starting at `from` |
| Blocks.QuoteEndAt | utilities/save_pdf.py:245 | a run of quote lines that ends at `j` is the one `QuoteEnd` finds |
| Blocks.BulletItems | utilities/save_pdf.py:208-220 | `list_items` of a bullet run: the cleaned item of each line, in order |
| Blocks.NumberedItems | utilities/save_pdf.py:227-237 | `list_items` of a numbered run: the cleaned item of each line, in order |
| Blocks.QuoteTexts | utilities/save_pdf.py:244-246 | `quote_lines` of a blockquote run: the quoted text of each line, in order |
| Blocks.BulletItemsSnoc | utilities/save_pdf.py:209-221 | one more bullet line adds its cleaned item at the end |
| Blocks.NumberedItemsSnoc | utilities/save_pdf.py:228-238 | one more numbered line adds its cleaned item at the end |
| Blocks.QuoteTextsSnoc | utilities/save_pdf.py:245-247 | one more quote line adds its text at the end |
| Blocks.StepAt | utilities/save_pdf.py:160-294 | every iteration of the outer loop moves the cursor forward |
| Blocks.Parse | utilities/save_pdf.py:156-296 | the elements from the cursor on: what the iteration at the cursor appends, then the elements from where it leaves the cursor |
| Blocks.LineElements | utilities/save_pdf.py:253-292 | a line no block rule claims: blank gives `blank`, a horizontal rule gives nothing, other text gives its cleaned form unless that is blank |
| Blocks.ParseVia | utilities/save_pdf.py:160-294 | the elements from `i` on are what the step at `i` appends, then the elements from where it leaves the cursor |
| Blocks.ParseViaSucc | utilities/save_pdf.py:160-294 | the same, for a step that leaves the cursor at `j + 1` |
| Blocks.StepFence | utilities/save_pdf.py:164-173 | a fence line collects the lines up to the next fence, appends a code element only when there are some, and skips the closing fence |
| Blocks.StepHeading | utilities/save_pdf.py:176-204 | a heading line appends its heading and advances by one line |
| Blocks.StepBullets | utilities/save_pdf.py:207-223 | a bullet line appends one bullet list of the whole run and continues after it |
| Blocks.StepNumbered | utilities/save_pdf.py:226-240 | a numbered line appends one numbered list of the whole run and continues after it |
| Blocks.StepQuotes | utilities/save_pdf.py:243-250 | a quote line appends one info box of the whole run, joined by spaces, and continues after it |
| Blocks.StepLine | utilities/save_pdf.py:253-294 | any other line appends its text, blank or nothing, and advances by one line |
| Blocks.CollectCode | utilities/save_pdf.py:165-169 | the code loop collects exactly the lines before the next fence and stops there |
| Blocks.CollectBullets | utilities/save_pdf.py:208-221 | the bullet loop collects the cleaned items of the whole run and stops at its end |
| Blocks.CollectNumbered | utilities/save_pdf.py:227-238 | the numbered loop collects the cleaned items of the whole run and stops at its end |
| Blocks.CollectQuotes | utilities/save_pdf.py:244-247 | the quote loop collects the texts of the whole run and stops at its end |
| Blocks.ParseOne | utilities/save_pdf.py:161-294 | one iteration of the outer loop appends and advances as `StepAt` says |
| Blocks.ParseMarkdownStructure | utilities/save_pdf.py:150-296 | the loop computes `Parse` of the lines of `content` from the first line |
| ParseFacts.StepBounds | utilities/save_pdf.py:160-294 | one iteration appends at most one element and moves the cursor at most one past the end |
| ParseFacts.ParseBound | utilities/save_pdf.py:150-296 | from line `i` on, there are no more elements than lines left |
| ParseFacts.DocumentBound | utilities/save_pdf.py:150-296 | a document never has more elements than lines |
| ParseFacts.LineTextNonBlank | utilities/save_pdf.py:286-288 | a line yields a text element only when its cleaned text is not blank |
| ParseFacts.StepTextNonBlank | utilities/save_pdf.py:160-294 | no iteration of the outer loop appends a blank text element |
| ParseFacts.TextNonBlank | utilities/save_pdf.py:150-296 | every text element of the document has content after cleaning |
| ParseFacts.StripFirst | utilities/save_pdf.py:164 | a line that starts with a non-space keeps its first character after stripping |
| ParseFacts.StripHead | utilities/save_pdf.py:255 | the first two characters of the stripped line are those after the leading whitespace |
| ParseFacts.HeadingStartsWithHash | utilities/save_pdf.py:176-178 | every heading line starts with `#` in column zero |
| ParseFacts.FenceBlock | utilities/save_pdf.py:164-173 | a fenced block with at least one line inside becomes one code element holding the inner lines joined by newlines; parsing resumes after the closing fence |
| ParseFacts.Verbatim | utilities/save_pdf.py:171 | the code of a block splits back into exactly its lines |
| ParseFacts.EmptyFence | utilities/save_pdf.py:170-172 | two adjacent fences produce nothing |
| ParseFacts.UnterminatedFence | utilities/save_pdf.py:167-172 | an unclosed fence takes every remaining line into one code element, or nothing when it is the last line |
| ParseFacts.HeadingLine | utilities/save_pdf.py:176-204 | `n` hashes (one to three), a whitespace character and at least one more character make a level-`n` heading whose text is the cleaned group; no shallower level matches first |
| ParseFacts.HashNoGroup | utilities/save_pdf.py:176-178 | a `#` where the whitespace should be means the level does not match |
| ParseFacts.NoHeading | utilities/save_pdf.py:176-180 | a line that starts with four hashes, or not with `#`, is no heading |
| ParseFacts.HeadingStep | utilities/save_pdf.py:176-204 | a heading line yields its heading element, followed by the rest of the document |
| ParseFacts.HeadingLineFirst | utilities/save_pdf.py:164-180 | a heading line is never a fence, so the heading rule is reached |
| ParseFacts.BulletItemOf | utilities/save_pdf.py:207-210 | indentation, a marker from `-*+`, whitespace and a rest make a bullet line whose item is exactly the rest |
| ParseFacts.BulletOfSpaces | utilities/save_pdf.py:207-210 | `-` followed only by whitespace is a bullet line with an empty item |
| ParseFacts.NumberedItemOf | utilities/save_pdf.py:226-229 | indentation, digits, `.`, whitespace and a rest make a numbered line whose item is exactly the rest |
| ParseFacts.BulletLineFirst | utilities/save_pdf.py:164-207 | a bullet line is neither a fence nor a heading, so the bullet rule is reached |
| ParseFacts.NotHashStart | utilities/save_pdf.py:176-178 | a line whose stripped form does not start with `#` does not start with `#` |
| ParseFacts.NumberedLineFirst | utilities/save_pdf.py:164-226 | a numbered line is no fence, no heading and no bullet, so the numbered rule is reached |
| ParseFacts.QuoteLineFirst | utilities/save_pdf.py:164-243 | a quote line matches none of the earlier rules |
| ParseFacts.BulletRun | utilities/save_pdf.py:207-223 | a maximal run of bullet lines becomes one bullet-list element of its cleaned items |
| ParseFacts.NumberedRun | utilities/save_pdf.py:226-240 | a maximal run of numbered lines becomes one numbered-list element of its cleaned items |
| ParseFacts.QuoteRun | utilities/save_pdf.py:243-250 | a maximal run of quote lines becomes one info box of the quoted texts joined by spaces |
| ParseFacts.BlankLine | utilities/save_pdf.py:291-292 | a blank line yields a blank element |
| ParseFacts.BlankLineClass | utilities/save_pdf.py:164-292 | a blank line matches no earlier rule and yields exactly a blank element |
| ParseFacts.RuleLine | utilities/save_pdf.py:258-260 | a horizontal rule yields nothing |
| ParseFacts.RuleLineClass | utilities/save_pdf.py:164-260 | a horizontal-rule line matches no block rule and yields nothing |
| ParseFacts.RuleNotBlock | utilities/save_pdf.py:164-258 | a horizontal rule is not blank, not a fence and not a quote |
| ParseFacts.RuleAfterIndent | utilities/save_pdf.py:207-258 | after its indentation, a horizontal rule starts with one of `-*_` |
| ParseFacts.RuleColumnZero | utilities/save_pdf.py:176-178 | a horizontal rule does not start with `#` |
| ParseFacts.PlainTextLine | utilities/save_pdf.py:253-288 | a line of plain text that starts with none of `#-+>` and no digit yields its stripped text |
| ParseFacts.PlainLineClass | utilities/save_pdf.py:164-288 | such a line matches no block rule and yields exactly its stripped text |
| ParseFacts.PlainNotBlock | utilities/save_pdf.py:164-258 | such a line is not a fence, not a quote and not a horizontal rule |
| ParseFacts.PlainAfterIndent | utilities/save_pdf.py:207-226 | after its indentation, such a line starts with neither a list marker nor a digit |
| ParseFacts.PlainColumnZero | utilities/save_pdf.py:176-178 | such a line does not start with `#` |
| ParseFacts.CleanedToBlank | utilities/save_pdf.py:264-288 | `**` around whitespace is cleaned to whitespace and the line yields nothing |
| ParseFacts.StarredBlankClass | utilities/save_pdf.py:164-288 | such a line matches no block rule and yields nothing |
| ParseFacts.StarredBlankShape | utilities/save_pdf.py:255-258 | such a line is already stripped, is not blank and is not a horizontal rule |
| Render.BulletRows | utilities/save_pdf.py:75-81 | the bullet loop draws three calls per item |
| Render.NumberedRows | utilities/save_pdf.py:88-93 | the numbered loop draws three calls per item |
| Render.CodeRows | utilities/save_pdf.py:102-103 | the code loop draws one cell per line |
| Render.RowOps | utilities/save_pdf.py:143-145 | a table row draws one cell per item, then a line break |
| Render.HeaderCells | utilities/save_pdf.py:134-135 | the header loop draws one cell per header |
| Render.HeaderOps | utilities/save_pdf.py:15-25 | the header: bold 16-point blue banner "Agentic Pharma Research", a grey rule and a 5-unit break |
| Render.ChapterTitleOps | utilities/save_pdf.py:42-48 | the calls of `chapter_title` |
| Render.SectionTitleOps | utilities/save_pdf.py:50-55 | the calls of `section_title` |
| Render.SubsectionTitleOps | utilities/save_pdf.py:57-62 | the calls of `subsection_title` |
| Render.BodyTextOps | utilities/save_pdf.py:64-69 | the calls of `body_text` |
| Render.ListItemOps | utilities/save_pdf.py:77-81 | one list entry: the label cell, the indent from the position before it, and the stripped item |
| Render.BulletListOps | utilities/save_pdf.py:71-82 | the calls of `bullet_list` |
| Render.Label | utilities/save_pdf.py:88-91 | the label `f"{i}."` of the item at position `k`, counting from 1 |
| Render.NumberedListOps | utilities/save_pdf.py:84-94 | the calls of `numbered_list` |
| Render.CodeRow | utilities/save_pdf.py:103 | one filled full-width cell of a code line |
| Render.CodeBlockOps | utilities/save_pdf.py:96-104 | the calls of `code_block` |
| Render.InfoStyle | utilities/save_pdf.py:109-116 | the colours and icon of the four kinds, and the info style for any other kind |
| Render.InfoBoxOps | utilities/save_pdf.py:106-123 | the calls of `info_box` |
| Render.DataRows | utilities/save_pdf.py:141-146 | the data rows, filled from the second row on every other row |
| Render.TableStartOps | utilities/save_pdf.py:127-128 | the two style calls before the column width is computed |
| Render.TableOps | utilities/save_pdf.py:125-147 | the calls of `add_table` for non-empty headers |
| Render.ElementOps | utilities/save_pdf.py:373-391 | the branch of the dispatch taken for one element |
| Render.ElementsOps | utilities/save_pdf.py:373-391 | the dispatch of every element, in order |
| Render.PageStartOps | utilities/save_pdf.py:365-367 | the first page with its header, then auto page breaks with margin 25 |
| Render.BulletRowsSnoc | utilities/save_pdf.py:75-81 | one more item adds its dash, indent and stripped text at the end |
| Render.NumberedRowsSnoc | utilities/save_pdf.py:88-93 | one more item adds its `k.` label, indent and stripped text at the end |
| Render.CodeRowsSnoc | utilities/save_pdf.py:102-103 | one more line adds its filled cell at the end |
| Render.DataRowsSnoc | utilities/save_pdf.py:142-146 | one more data row is drawn with fill exactly when its index is odd |
| Render.ElementsOpsSnoc | utilities/save_pdf.py:373-391 | one more element adds its own drawing at the end |
| Render.Pdf.constructor | utilities/save_pdf.py:10-13 | a new PDF has drawn nothing |
| Render.Pdf.AddFirstPage | utilities/save_pdf.py:15-25 | adding a page draws the header: title banner, rule and spacing |
| Render.Pdf.SetAutoPageBreakMargin | utilities/save_pdf.py:367 | only the page-break margin is recorded |
| Render.Pdf.ChapterTitle | utilities/save_pdf.py:42-48 | appends the chapter-title style, a filled full-width cell of the title, and a 4-unit break |
| Render.Pdf.SectionTitle | utilities/save_pdf.py:50-55 | appends the section-title style, the title cell and a 2-unit break |
| Render.Pdf.SubsectionTitle | utilities/save_pdf.py:57-62 | appends the subsection-title style, the title cell and a 1-unit break |
| Render.Pdf.BodyText | utilities/save_pdf.py:64-69 | appends the body style, a wrapped cell of the text and a 2-unit break |
| Render.Pdf.LineBreak | utilities/save_pdf.py:391 | appends a line break of the given height |
| Render.Pdf.BulletList | utilities/save_pdf.py:71-82 | appends the list style, a dash, an indent and the stripped text per item in order, then a 2-unit break |
| Render.Pdf.NumberedList | utilities/save_pdf.py:84-94 | appends the list style, the label `k.` counting from 1, an indent and the stripped text per item in order, then a break |
| Render.Pdf.CodeBlock | utilities/save_pdf.py:96-104 | appends the code style, one filled cell per line of `code.split("\n")`, and a 3-unit break |
| Render.Pdf.InfoBox | utilities/save_pdf.py:106-123 | appends the colours and icon of the box kind, falling back to info, and the bordered text with its icon |
| Render.Pdf.TableRow | utilities/save_pdf.py:143-145 | appends one bordered, centred cell per item with the row's fill, then a line break |
| Render.Pdf.HeaderRow | utilities/save_pdf.py:134-135 | appends one filled header cell per header |
| Render.Pdf.AddTable | utilities/save_pdf.py:125-147 | succeeds exactly when there are headers; then it draws the header row, the data rows with alternating fill starting unfilled, and a 3-unit break; without headers it fails after the two style calls |
| Render.Pdf.RenderElement | utilities/save_pdf.py:373-391 | each tag is drawn by its method; info boxes use the info kind; a blank is a 3-unit break |
| Render.Pdf.RenderElements | utilities/save_pdf.py:373-391 | the elements are drawn one after the other, in order |
| Render.SavePdf | utilities/save_pdf.py:340-391 | a new PDF draws the first page, sets auto page breaks with margin 25, then draws the parsed elements of the content in order |
| RenderFacts.BulletEntry | utilities/save_pdf.py:75-81 | entry `k` of a bullet list is the dash, the indent and the stripped `k`-th item, at calls `3k..3k+3` |
| RenderFacts.NumberedEntry | utilities/save_pdf.py:88-93 | entry `k` of a numbered list is label `k+1.`, the indent and the stripped `k`-th item, at calls `3k..3k+3` |
| RenderFacts.LabelValue | utilities/save_pdf.py:88-91 | the label of item `k` is the decimal number `k+1` followed by `.` |
| RenderFacts.LabelsDistinct | utilities/save_pdf.py:88-91 | different items get different labels |
| RenderFacts.CodeRowAt | utilities/save_pdf.py:102-103 | row `k` of a code block is the cell of line `k` |
| RenderFacts.CodeBlockOfLines | utilities/save_pdf.py:96-104 | a code block of lines draws three style calls, exactly one row per line in order, and a break |
| RenderFacts.CodeBlockRows | utilities/save_pdf.py:101-103 | the rows of a code block are the code rows of its lines |
| RenderFacts.InfoFallback | utilities/save_pdf.py:116 | an unknown box kind is drawn as an info box |
| RenderFacts.RowStartPrefix | utilities/save_pdf.py:142-146 | where row `k` starts depends only on the rows before it |
| RenderFacts.DataRowsLength | utilities/save_pdf.py:142-146 | the data rows take one call per cell plus one per row |
| RenderFacts.DataRowAt | utilities/save_pdf.py:142-146 | data row `k` is drawn in its own slice, filled exactly when `k` is odd |
| RenderFacts.TableHeaderRow | utilities/save_pdf.py:127-136 | after the two style calls, a table draws each header in a filled, bordered, centred cell, then a line break |
| RenderFacts.TableDataRow | utilities/save_pdf.py:139-146 | data row `k` draws each of its items, in order, in a bordered, centred cell filled when `k` is odd, then a line break |
| RenderFacts.ElementsOpsAppend | utilities/save_pdf.py:373-391 | drawing two element lists in turn is drawing their concatenation |
| RenderFacts.DrawnHead | utilities/save_pdf.py:373-391 | a document draws its first element, then the rest |
| RenderFacts.NumberedListDrawn | utilities/save_pdf.py:384-385 | a numbered-list element is drawn by `numbered_list` |
| RenderFacts.CodeDrawn | utilities/save_pdf.py:386-387 | a code element is drawn by `code_block` |
| RenderFacts.NumberedLabelAt | utilities/save_pdf.py:91 | the label cell of item `k` is an 8-wide cell holding `k+1.` |
| RenderFacts.FenceDrawn | utilities/save_pdf.py:164-173 | a fenced block in a document is drawn as one code block with exactly one row per inner line, in order |
| RenderFacts.NumberedRunDrawn | utilities/save_pdf.py:226-240 | the `k`-th line of a numbered run is drawn with label `k+1.`, whatever number the Markdown line carried |
| Chembl.ValidIdShape | utilities/chembl.py:473-475 | an id is valid exactly when it is a string made of `CHEMBL` and at least one more character; so `CHEMBL` alone and every non-string are rejected |
| Chembl.ValidateChemblId | utilities/chembl.py:463-475 | `validate_chembl_id`: a string that starts with `CHEMBL` and is longer than 6 characters |
| Chembl.SearchCompounds | utilities/chembl.py:84-97 | a request is made exactly when the query is a non-empty string, `1 <= limit <= 1000` and `offset >= 0`; it goes to the molecule search endpoint with exactly `q`, `limit` and `offset` |
| Chembl.SearchCompoundsFirstError | utilities/chembl.py:84-89 | the checks run in order: the query error comes first, then the limit error, then the offset error, each with its message |
| Chembl.GetCompoundStructure | utilities/chembl.py:188-195 | the molecule record is requested exactly when the id is a non-empty string and the format is one of the four accepted |
| Chembl.StructureFormatsAccepted | utilities/chembl.py:188-193 | exactly `smiles`, `inchi`, `molfile` and `sdf` are accepted; an empty id fails with its message |
| Chembl.MoleculeRequest | utilities/chembl.py:195 | the request for `/molecule/{id}.json`, without parameters |
| Chembl.Keys | utilities/chembl.py:281-290 | the keys of the `params` dict |
| Chembl.DistinctKeys | utilities/chembl.py:281-290 | no key of the `params` dict occurs twice |
| Chembl.Truthy | utilities/chembl.py:275 | an optional string is truthy when present and non-empty |
| Chembl.FilterParam | utilities/chembl.py:283-290 | the key and value a truthy filter adds, and nothing otherwise |
| Chembl.ActivityParams | utilities/chembl.py:281-290 | `limit`, then each truthy filter in the order of the code |
| Chembl.SearchActivities | utilities/chembl.py:275-292 | a request is made exactly when at least one filter is truthy and `1 <= limit <= 1000`; the missing-filter error comes first, then the limit error, each with its message; the request goes to `/activity.json` with the built parameters |
| Chembl.KeysFilter | utilities/chembl.py:283-290 | an optional filter adds its key exactly when its value is truthy |
| Chembl.ActivityParamsKeys | utilities/chembl.py:281-290 | the parameter keys are `limit` plus the key of each truthy filter, `standard_type` for the activity type |
| Chembl.ActivityParamsValues | utilities/chembl.py:281-290 | `limit` comes first, and each truthy filter's value is sent under its key |
| Chembl.ActivityParamsDistinct | utilities/chembl.py:281-290 | no parameter key is set twice |
| Chembl.BatchCheck | utilities/chembl.py:412-419 | the batch passes exactly when it is a list of 1 to 50 non-empty strings |
| Chembl.UsableId | utilities/chembl.py:418 | `isinstance(id, str) and len(id) > 0` |
| Chembl.Readable | utilities/chembl.py:427-436 | `response.get` and `mol_properties.get` do not raise: the answer is an object whose `molecule_properties` is missing or an object |
| Chembl.Succeeds | utilities/chembl.py:424-440 | the whole `try` body for an id runs through: the request answers and the answer is readable |
| Chembl.NoGetMessage | utilities/chembl.py:441-445 | the `AttributeError` text of `.get` on a value that is not a dict |
| Chembl.EntryFor | utilities/chembl.py:423-446 | the entry for one id: its record when the `try` body runs through; otherwise the request's error text, or the `.get` error on a non-object answer or non-object `molecule_properties` |
| Chembl.NullPropertiesFail | utilities/chembl.py:427-445 | an answer whose `molecule_properties` is `null` gives a failed entry with `'NoneType' object has no attribute 'get'` |
| Chembl.SuccessCount | utilities/chembl.py:448 | the success count is at most the number of results |
| Chembl.BatchCompoundLookup | utilities/chembl.py:412-457 | fails exactly when the checks fail, with their message; otherwise gives one entry per id in input order, and `successful + failed == batch_size` |
| Chembl.EntryForId | utilities/chembl.py:423-446 | each entry carries its own id; it succeeds, with the answer's record, exactly when the request answered with an object whose `molecule_properties` is missing or an object; otherwise it carries the request's error text or the `.get` error on the offending value |
| Chembl.AnsweredSnoc | utilities/chembl.py:423-448 | one more id adds one to the count exactly when its `try` body runs through |
| Chembl.Answered | utilities/chembl.py:448 | the positions of the ids whose `try` body runs through |
| Chembl.SuccessCountOfEntries | utilities/chembl.py:421-448 | the success count is the number of ids whose `try` body runs through |
| Chembl.SuccessCountBounds | utilities/chembl.py:448-449 | all successes give `successful == batch_size`, and all failures give `successful == 0` |
| OpenTargets.DiseaseHitsSnoc | utilities/opentargets_tool.py:40 | one more hit is kept at the end exactly when it is a disease |
| OpenTargets.DiseaseHitsExact | utilities/opentargets_tool.py:40 | the kept hits are exactly the disease hits, each as often as in the input |
| OpenTargets.DiseaseHitsAppend | utilities/opentargets_tool.py:40 | filtering distributes over concatenation, so the input order is kept |
| OpenTargets.DiseaseHits | utilities/opentargets_tool.py:40 | `[r for r in hits if r["entity"] == "disease"]` |
| OpenTargets.SortedDesc | utilities/opentargets_tool.py:41 | scores do not increase along the list |
| OpenTargets.InsertDesc | utilities/opentargets_tool.py:41 | inserting into a sorted list adds one element |
| OpenTargets.InsertDescPermutation | utilities/opentargets_tool.py:41 | insertion adds exactly the inserted hit |
| OpenTargets.SortDesc | utilities/opentargets_tool.py:41 | sorting keeps the length |
| OpenTargets.InsertDescLowerBound | utilities/opentargets_tool.py:41 | insertion keeps every score above a common lower bound |
| OpenTargets.InsertDescSorted | utilities/opentargets_tool.py:41 | insertion into a descending list keeps it descending |
| OpenTargets.SortDescSorted | utilities/opentargets_tool.py:41 | `sort(key=score, reverse=True)` yields descending scores |
| OpenTargets.SortDescPermutation | utilities/opentargets_tool.py:41 | sorting is a permutation of its input |
| OpenTargets.WithScoreSnoc | utilities/opentargets_tool.py:41 | the hits with a given score, after one more hit, gain that hit exactly when it has that score |
| OpenTargets.InsertDescWithScore | utilities/opentargets_tool.py:41 | an inserted hit goes after every hit with the same score |
| OpenTargets.SortDescStable | utilities/opentargets_tool.py:41 | the sort is stable: hits with equal scores keep their input order |
| OpenTargets.SortDescOfSorted | tests/test_tools/test_opentargets_tool.py:29-33 | a list already in descending order comes back unchanged |
| OpenTargets.InsertDescSplit | utilities/opentargets_tool.py:41 | inserting at the first position whose score is lower than the new hit's gives the sorted insertion |
| OpenTargets.ShiftLower | utilities/opentargets_tool.py:41 | shifts right the run of hits, just below `i`, whose scores are lower than the new score; the rest of the array is unchanged |
| OpenTargets.InsertNext | utilities/opentargets_tool.py:41 | one step of the in-place sort: the prefix grows by the next hit, inserted in order; the rest is unchanged |
| OpenTargets.SortByScore | utilities/opentargets_tool.py:41 | the in-place sort leaves the array equal to `SortDesc` of its old contents |
| OpenTargets.SearchDiseaseByName | utilities/opentargets_tool.py:37-43 | the result is the disease hits, stably sorted by descending score |
| OpenTargets.TractableLabelsAppend | utilities/opentargets_tool.py:115-117 | label collection distributes over concatenation, so the input order is kept |
| OpenTargets.TractableLabelsCount | utilities/opentargets_tool.py:115-117 | there is one label per tractability entry whose value is true |
| OpenTargets.TractableLabelsMembers | utilities/opentargets_tool.py:115-117 | a label is listed exactly when some entry with a true value carries it |
| OpenTargets.TractableLabels | utilities/opentargets_tool.py:115-117 | `[l["label"] for l in tractability if l["value"]]` |
| OpenTargets.HighestPhase | utilities/opentargets_tool.py:120-128 | `N/A` exactly when no drug row has a phase; otherwise a phase that occurs, at least every other phase |
| OpenTargets.SummarizeTarget | utilities/opentargets_tool.py:108-133 | the summary keeps symbol, name and score; `functions` is `functionDescriptions` or `[]` when absent; `tractability` is the tractable labels, or `[]` when absent; with known drugs it has their count and highest phase; without them, no count and `N/A` |
| OpenTargets.AsWrittenNeverFallsBack | utilities/opentargets_tool.py:119-131 | as written, the summary fails exactly when `knownDrugs` is null, and it agrees with the corrected summary whenever it succeeds |
| OpenTargets.SummarizeTargetAsWritten | utilities/opentargets_tool.py:108-133 | the entry as the code is written: reading `gene["knownDrugs"]["count"]` raises `TypeError` when `knownDrugs` is null |
| OpenTargets.TargetWithoutDrugs | utilities/opentargets_tool.py:119-131 | a target with null `knownDrugs` makes the written code fail, where the intended result is `N/A` |
| OpenTargets.ExtractTopTargetsSummary | utilities/opentargets_tool.py:105-136 | one summary per target row, in order |
| OpenTargets.ExtractAsWrittenOk | utilities/opentargets_tool.py:106-134 | as written, the whole summary fails exactly when some target has null `knownDrugs` |
| OpenTargets.ExtractAsWritten | utilities/opentargets_tool.py:105-136 | the loop as written: it stops at the first row that raises |
| OpenTargets.ExtractAsWrittenValue | utilities/opentargets_tool.py:106-134 | when the written loop succeeds, it gives the corrected summaries |

## Left out

- `clean_markdown` and the legacy branch of `save_pdf` (`use_structure=False`): the legacy branch relies on `str.isupper` and `str.title`, which need Unicode case tables, so it is not modelled.
- FPDF itself is not modelled: fonts, wrapping of `multi_cell`, automatic page breaks, the page number and timestamp of `footer`, and writing the file. The PDF is the ordered trace of calls made on it. `os.makedirs` and the returned path are left out too.
- `get_x`/`set_x`: the indent after a list label is recorded as a move relative to the position before the label.
- Render.Pdf.AddTable: the column width `(self.w - 20) / len(headers)` is a float and is recorded only as `Column`. The `ZeroDivisionError` for empty headers is the `false` result. `str(item)` of the cells is taken as already applied, since cells are strings.
- OpenTargets.SortDesc: scores are modelled as integers, not floats. Only their order matters to the sort; `round(score, 3)` in the summary is not modelled.
- The HTTP requests to ChEMBL and Open Targets are not modelled: the search hits, the target rows and the batch lookup answers (`fetch`: the decoded JSON answer of `_make_request`, or the text of the exception it raised) are inputs. The `size` variable that `search_disease_by_name` sends is not used by its GraphQL query, so it is not modelled.
- The response dictionaries the ChEMBL functions build are not modelled: the fields they copy from the service, and the timestamps. This includes `molecular_formula` in `get_compound_structure`, which is filled from `ro5_violations`.
- Chembl.BatchCompoundLookup: a failed lookup records its error message; the Python exception type is not kept.
- Chembl.EntryFor: an answer is modelled only as far as the `try` body can raise on it: an object or another JSON value, and its `molecule_properties` missing, an object or another value. The fields copied into a successful entry (`pref_name`, `mw`, ...) are one abstract record, so a missing field read as `None` is not spelled out.
- OpenTargets.SummarizeTarget: `functionDescriptions` and `tractability` are modelled as present or missing. A key that is present but null, which would make the comprehension raise, is not modelled.
- Blocks.NumberedItem: `\d` is read as the ASCII digits `0`-`9`, not every Unicode decimal digit. `\s` and `str.strip` use Python's whitespace set.
- Regex `.` is treated as any character: the parser only ever applies patterns to single lines, which contain no newline.
- `format_activity_value`, `get_tool_definitions`, `get_compound_info` and the other ChEMBL tools outside the four checked functions, and the PubMed tool, are not part of this model.
- Chembl.SearchActivities: a filter argument is a string or `None`; other Python values, with their own truthiness, are not modelled.

## Findings

| source | as written | input that shows it | evidently intended | confidence | as-written member | corrected member |
|---|---|---|---|---|---|---|
| utilities/opentargets_tool.py:119-131 | `"count": gene["knownDrugs"]["count"]` is evaluated before the `if gene.get("knownDrugs")` guard of `max_phase`, so a target whose `knownDrugs` is null raises `TypeError` | a target row whose `knownDrugs` is null, as in `OpenTargets.TargetWithoutDrugs` | no drug count and `max_phase` `"N/A"` for such a target, as the guard's fallback says | not executed | OpenTargets.SummarizeTargetAsWritten, OpenTargets.TargetWithoutDrugs | OpenTargets.SummarizeTarget |
