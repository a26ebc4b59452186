/**
 * The inline cleaning done inside `parse_markdown_structure`
 * (utilities/save_pdf.py): each `re.sub` of the three substitution chains is
 * a left-to-right scanner that, at every position, either matches the
 * pattern there (and resumes after the match) or copies one character.
 *
 * The patterns only ever see pieces of one line of `content.split("\n")`, so
 * no newline reaches them and `.` is modelled as matching any character.
 * A lazy `(.+?)` or `.*?` stops at the FIRST occurrence of what follows it,
 * which is what `FindFrom` computes.
 */
module Inline {
  import opened Common

  /** The first index at or after `from` where `pat` occurs. */
  function FindFrom(s: string, from: nat, pat: string): (r: Option<nat>)
    ensures r.Some? ==> from <= r.value && r.value + |pat| <= |s|
    decreases |s| - from
  {
    if from + |pat| > |s| then None
    else if OccursAt(s, from, pat) then Some(from)
    else FindFrom(s, from + 1, pat)
  }

  /** `FindFrom` finds the first occurrence at or after `from`, and `None` means there is none. */
  lemma {:induction false} FindFromFirst(s: string, from: nat, pat: string)
    ensures FindFrom(s, from, pat).Some? ==>
      OccursAt(s, FindFrom(s, from, pat).value, pat) &&
      forall k :: from <= k < FindFrom(s, from, pat).value ==> !OccursAt(s, k, pat)
    ensures FindFrom(s, from, pat).None? ==> forall k :: from <= k ==> !OccursAt(s, k, pat)
    decreases |s| - from
  {
    if from + |pat| <= |s| && !OccursAt(s, from, pat) {
      FindFromFirst(s, from + 1, pat);
    }
  }

  /** An occurrence at `p` with none between `from` and `p` is the one `FindFrom` returns. */
  lemma FindFromAt(s: string, from: nat, pat: string, p: nat)
    requires from <= p && OccursAt(s, p, pat)
    requires forall k :: from <= k < p ==> !OccursAt(s, k, pat)
    ensures FindFrom(s, from, pat) == Some(p)
  {
    FindFromFirst(s, from, pat);
  }

  /**
   * A match of `open(.+?)close` at the start of `s`: the index where the
   * closing delimiter begins. The group is `s[|open|..j]`, at least one character.
   */
  function PairMatch(s: string, open: string, close: string): (r: Option<nat>)
    ensures r.Some? ==> StartsWith(s, open) && |open| < r.value && r.value + |close| <= |s|
  {
    if StartsWith(s, open) then FindFrom(s, |open| + 1, close) else None
  }

  /** `re.sub(open + r"(.+?)" + close, pre + r"\1" + post, s)` for literal delimiters. */
  function SubPair(s: string, open: string, close: string, pre: string, post: string): string
    decreases |s|
  {
    if s == [] then []
    else
      match PairMatch(s, open, close)
      case Some(j) => pre + s[|open|..j] + post + SubPair(s[j + |close|..], open, close, pre, post)
      case None => [s[0]] + SubPair(s[1..], open, close, pre, post)
  }

  /**
   * A match of `\[(.+?)\]\((.+?)\)` at the start of `s`: the index of "](" and
   * the index of the closing ")". When no ")" follows the first "](", the
   * first group is lengthened to the next "](", as the regex engine backtracks.
   */
  function LinkMatch(s: string): (r: Option<(nat, nat)>)
    ensures r.Some? ==> s != [] && s[0] == '[' && 2 <= r.value.0 && r.value.0 + 3 <= r.value.1 < |s|
  {
    if s != [] && s[0] == '[' then LinkFrom(s, 2) else None
  }

  function LinkFrom(s: string, from: nat): (r: Option<(nat, nat)>)
    ensures r.Some? ==> from <= r.value.0 && r.value.0 + 3 <= r.value.1 < |s|
    decreases |s| - from
  {
    match FindFrom(s, from, "](")
    case None => None
    case Some(m) =>
      match FindFrom(s, m + 3, ")")
      case Some(e) => Some((m, e))
      case None => LinkFrom(s, m + 1)
  }

  /** `re.sub(r"\[(.+?)\]\((.+?)\)", r"\1", s)`: a link keeps its label. */
  function SubLink(s: string): string
    decreases |s|
  {
    if s == [] then []
    else
      match LinkMatch(s)
      case Some((m, e)) => s[1..m] + SubLink(s[e + 1..])
      case None => [s[0]] + SubLink(s[1..])
  }

  /** A match of `!\[.*?\]\(.*?\)` at the start of `s`: the index of the closing ")". */
  function ImageMatch(s: string): (r: Option<nat>)
    ensures r.Some? ==> 4 <= r.value < |s|
  {
    if StartsWith(s, "![") then ImageFrom(s, 2) else None
  }

  function ImageFrom(s: string, from: nat): (r: Option<nat>)
    ensures r.Some? ==> from + 2 <= r.value < |s|
    decreases |s| - from
  {
    match FindFrom(s, from, "](")
    case None => None
    case Some(m) =>
      match FindFrom(s, m + 2, ")")
      case Some(e) => Some(e)
      case None => ImageFrom(s, m + 1)
  }

  /** `re.sub(r"!\[.*?\]\(.*?\)", "", s)`: an image is removed. */
  function SubImage(s: string): string
    decreases |s|
  {
    if s == [] then []
    else
      match ImageMatch(s)
      case Some(e) => SubImage(s[e + 1..])
      case None => [s[0]] + SubImage(s[1..])
  }

  /** Python's `s.replace(pat, rep)`: non-overlapping, left to right. */
  function Replace(s: string, pat: string, rep: string): string
    requires pat != []
    decreases |s|
  {
    if s == [] then []
    else if StartsWith(s, pat) then rep + Replace(s[|pat|..], pat, rep)
    else [s[0]] + Replace(s[1..], pat, rep)
  }

  /**
   * One step of a cleaning chain: a `re.sub` of a delimited span, of a link
   * or of an image, or a `str.replace` of a literal.
   */
  datatype Rule =
    | Pair(open: string, close: string, pre: string, post: string)
    | Link
    | Image
    | Literal(pat: string, rep: string)

  function Apply(r: Rule, t: string): string {
    match r
    case Pair(open, close, pre, post) => SubPair(t, open, close, pre, post)
    case Link => SubLink(t)
    case Image => SubImage(t)
    case Literal(pat, rep) => if pat == [] then t else Replace(t, pat, rep)
  }

  /** The rules applied in order, each to the result of the one before. */
  function Chain(rules: seq<Rule>, t: string): string
    decreases |rules|
  {
    if rules == [] then t else Chain(rules[1..], Apply(rules[0], t))
  }

  /** The five-step chain applied to heading text (save_pdf.py:183-187). */
  const HeadingRules: seq<Rule> := [
    Pair("**", "**", "", ""), Pair("*", "*", "", ""), Pair("__", "__", "", ""),
    Pair("_", "_", "", ""), Pair("`", "`", "\"", "\"")]

  /** The six-step chain applied to list items (save_pdf.py:212-219): the heading chain, then links. */
  const ItemRules: seq<Rule> := HeadingRules + [Link]

  /**
   * The chain applied to a stripped text line (save_pdf.py:263-284): emphasis,
   * inline code, links, images, strikethrough, then the three escapes.
   */
  const TextRules: seq<Rule> := RegexRules + EscapeRules

  /** The nine `re.sub` steps of the text chain (save_pdf.py:263-281). */
  const RegexRules: seq<Rule> := [
    Pair("***", "***", "", ""), Pair("**", "**", "", ""), Pair("__", "__", "", ""),
    Pair("*", "*", "", ""), Pair("_", "_", "", ""), Pair("`", "`", "\"", "\""),
    Link, Image, Pair("~~", "~~", "", "")]

  /** The three `str.replace` steps that undo escapes, last of all (save_pdf.py:284). */
  const EscapeRules: seq<Rule> := [Literal("\\*", "*"), Literal("\\#", "#"), Literal("\\_", "_")]

  function CleanHeading(t: string): string {
    Chain(HeadingRules, t)
  }

  function CleanItem(t: string): string {
    Chain(ItemRules, t)
  }

  function CleanText(t: string): string {
    Chain(TextRules, t)
  }

  // ---------------------------------------------------------------------------
  // Properties of the scanners

  /** `pat` occurs nowhere in `s`. */
  predicate Absent(s: string, pat: string) {
    forall k :: 0 <= k < |s| ==> !OccursAt(s, k, pat)
  }

  /** A pattern holding a character that `s` lacks occurs nowhere in `s`. */
  lemma CharAbsent(s: string, pat: string, i: nat)
    requires i < |pat| && pat[i] !in s
    ensures Absent(s, pat)
  {
    forall k | 0 <= k < |s| ensures !OccursAt(s, k, pat) {
      if k + |pat| <= |s| {
        assert s[k..k + |pat|][i] == s[k + i];
      }
    }
  }

  lemma AbsentTail(s: string, pat: string)
    requires s != [] && Absent(s, pat)
    ensures Absent(s[1..], pat)
  {
    forall k | 0 <= k < |s[1..]| ensures !OccursAt(s[1..], k, pat) {
      assert !OccursAt(s, k + 1, pat);
      if k + |pat| <= |s[1..]| {
        assert s[1..][k..k + |pat|] == s[k + 1..k + 1 + |pat|];
      }
    }
  }

  /** Where the opening delimiter occurs nowhere, the substitution changes nothing. */
  lemma {:induction false} SubPairAbsent(s: string, open: string, close: string, pre: string, post: string)
    requires open != [] && Absent(s, open)
    ensures SubPair(s, open, close, pre, post) == s
    decreases |s|
  {
    if s != [] {
      assert !OccursAt(s, 0, open);
      assert !StartsWith(s, open);
      AbsentTail(s, open);
      SubPairAbsent(s[1..], open, close, pre, post);
      assert s == [s[0]] + s[1..];
    }
  }

  /** No occurrence of `open` is followed, one character or more later, by an occurrence of `close`. */
  predicate Unpaired(s: string, open: string, close: string) {
    forall k: nat, j: nat :: k + |open| < j < |s| && OccursAt(s, k, open) ==> !OccursAt(s, j, close)
  }

  lemma UnpairedTail(s: string, open: string, close: string)
    requires s != [] && Unpaired(s, open, close)
    ensures Unpaired(s[1..], open, close)
  {
    forall k: nat, j: nat | k + |open| < j < |s[1..]| && OccursAt(s[1..], k, open) ensures !OccursAt(s[1..], j, close) {
      assert s[1..][k..k + |open|] == s[k + 1..k + 1 + |open|];
      assert OccursAt(s, k + 1, open);
      if j + |close| <= |s[1..]| {
        assert s[1..][j..j + |close|] == s[j + 1..j + 1 + |close|];
      }
      assert !OccursAt(s, j + 1, close);
    }
  }

  /** Where no span opens and closes, the substitution changes nothing. */
  lemma {:induction false} SubPairUnpaired(s: string, open: string, close: string, pre: string, post: string)
    requires open != [] && close != [] && Unpaired(s, open, close)
    ensures SubPair(s, open, close, pre, post) == s
    decreases |s|
  {
    if s != [] {
      if StartsWith(s, open) {
        assert OccursAt(s, 0, open);
        FindFromFirst(s, |open| + 1, close);
        assert forall v: nat :: |open| < v < |s| ==> !OccursAt(s, v, close);
      }
      assert PairMatch(s, open, close) == None;
      UnpairedTail(s, open, close);
      SubPairUnpaired(s[1..], open, close, pre, post);
      assert s == [s[0]] + s[1..];
    }
  }

  /** Without a "[" there is no link to rewrite. */
  lemma {:induction false} SubLinkAbsent(s: string)
    requires '[' !in s
    ensures SubLink(s) == s
    decreases |s|
  {
    if s != [] {
      assert '[' !in s[1..];
      SubLinkAbsent(s[1..]);
      assert s == [s[0]] + s[1..];
    }
  }

  /** Without a "[" there is no image to remove. */
  lemma {:induction false} SubImageAbsent(s: string)
    requires '[' !in s
    ensures SubImage(s) == s
    decreases |s|
  {
    if s != [] {
      assert !StartsWith(s, "![") by { if 2 <= |s| { assert s[..2][1] == s[1]; } }
      assert ImageMatch(s) == None;
      assert '[' !in s[1..];
      SubImageAbsent(s[1..]);
      assert s == [s[0]] + s[1..];
    }
  }

  /** Where `pat` occurs nowhere, replacing it changes nothing. */
  lemma {:induction false} ReplaceAbsent(s: string, pat: string, rep: string)
    requires pat != [] && Absent(s, pat)
    ensures Replace(s, pat, rep) == s
    decreases |s|
  {
    if s != [] {
      assert !OccursAt(s, 0, pat);
      AbsentTail(s, pat);
      ReplaceAbsent(s[1..], pat, rep);
      assert s == [s[0]] + s[1..];
    }
  }

  /**
   * A delimited span `open + x + close` whose content holds no character
   * starting the closing delimiter is rewritten to `pre + x + post`.
   */
  lemma SubPairSpan(open: string, x: string, close: string, pre: string, post: string)
    requires open != [] && close != [] && x != []
    requires close[0] !in x
    ensures SubPair(open + x + close, open, close, pre, post) == pre + x + post
    ensures pre == [] && post == [] ==> SubPair(open + x + close, open, close, pre, post) == x
  {
    var s := open + x + close;
    var j := |open| + |x|;
    assert StartsWith(s, open) by { assert s[..|open|] == open; }
    assert OccursAt(s, j, close) by { assert s[j..j + |close|] == close; }
    forall k | |open| < k < j ensures !OccursAt(s, k, close) {
      assert s[k] == x[k - |open|];
      if k + |close| <= |s| { assert s[k..k + |close|][0] == s[k]; }
    }
    FindFromFirst(s, |open| + 1, close);
    var r := PairMatch(s, open, close);
    assert r == Some(j);
    assert s[|open|..j] == x;
    assert s[j + |close|..] == [];
    assert pre == [] && post == [] ==> pre + x + post == x;
  }

  /** The characters that can start an inline rule: * _ ` [ ~ \ */
  predicate IsMarkupChar(c: char) {
    c == '*' || c == '_' || c == '`' || c == '[' || c == '~' || c == '\\'
  }

  /** A span with no character that can start an inline rule. */
  predicate Plain(s: string) {
    forall k :: 0 <= k < |s| ==> !IsMarkupChar(s[k])
  }

  // ---------------------------------------------------------------------------
  // Properties of the chains

  /** The leading character of the rule's pattern does not occur in `t`. */
  predicate Inert(r: Rule, t: string) {
    match r
    case Pair(open, _, _, _) => open != [] && open[0] !in t
    case Link => '[' !in t
    case Image => '[' !in t
    case Literal(pat, _) => pat != [] && pat[0] !in t
  }

  /** A rule whose pattern cannot start anywhere in `t` leaves `t` unchanged. */
  lemma ApplyInert(r: Rule, t: string)
    requires Inert(r, t)
    ensures Apply(r, t) == t
  {
    match r
    case Pair(open, close, pre, post) =>
      CharAbsent(t, open, 0);
      SubPairAbsent(t, open, close, pre, post);
    case Link => SubLinkAbsent(t);
    case Image => SubImageAbsent(t);
    case Literal(pat, rep) =>
      CharAbsent(t, pat, 0);
      ReplaceAbsent(t, pat, rep);
  }

  /** The rule's pattern starts with one of the markup characters. */
  predicate MarkupLed(r: Rule) {
    match r
    case Pair(open, _, _, _) => open != [] && IsMarkupChar(open[0])
    case Link => true
    case Image => true
    case Literal(pat, _) => pat != [] && IsMarkupChar(pat[0])
  }

  lemma PlainInert(rules: seq<Rule>, t: string)
    requires Plain(t)
    requires forall r :: r in rules ==> MarkupLed(r)
    ensures forall r :: r in rules ==> Apply(r, t) == t
  {
    forall r | r in rules ensures Apply(r, t) == t {
      ApplyInert(r, t);
    }
  }

  /** A chain of rules each of which leaves `t` unchanged leaves `t` unchanged. */
  lemma {:induction false} ChainFixed(rules: seq<Rule>, t: string)
    requires forall r :: r in rules ==> Apply(r, t) == t
    ensures Chain(rules, t) == t
    decreases |rules|
  {
    if rules != [] {
      assert rules[0] in rules;
      ChainFixed(rules[1..], t);
    }
  }

  /**
   * When the rules before `k` leave `s` alone, rule `k` turns `s` into `x`
   * and the rules after `k` leave `x` alone, the chain turns `s` into `x`.
   */
  lemma {:induction false} ChainThrough(rules: seq<Rule>, k: nat, s: string, x: string)
    requires k < |rules|
    requires forall i :: 0 <= i < k ==> Apply(rules[i], s) == s
    requires Apply(rules[k], s) == x
    requires forall i :: k < i < |rules| ==> Apply(rules[i], x) == x
    ensures Chain(rules, s) == x
    decreases k
  {
    if k == 0 {
      ChainFixed(rules[1..], x);
    } else {
      assert Apply(rules[0], s) == s;
      ChainThrough(rules[1..], k - 1, s, x);
    }
  }

  lemma HeadingRulesMarkupLed()
    ensures forall r :: r in HeadingRules ==> MarkupLed(r)
    ensures forall r :: r in ItemRules ==> MarkupLed(r)
  {
  }

  lemma TextRulesMarkupLed()
    ensures forall r :: r in RegexRules ==> MarkupLed(r)
    ensures forall r :: r in EscapeRules ==> MarkupLed(r)
    ensures forall r :: r in TextRules ==> MarkupLed(r)
  {
  }

  /** The heading chain leaves text without markup characters unchanged. */
  lemma CleanHeadingPlain(t: string)
    requires Plain(t)
    ensures CleanHeading(t) == t
  {
    HeadingRulesMarkupLed();
    PlainInert(HeadingRules, t);
    ChainFixed(HeadingRules, t);
  }

  /** The list-item chain leaves text without markup characters unchanged. */
  lemma CleanItemPlain(t: string)
    requires Plain(t)
    ensures CleanItem(t) == t
  {
    HeadingRulesMarkupLed();
    PlainInert(ItemRules, t);
    ChainFixed(ItemRules, t);
  }

  /** A text line with none of the characters * _ ` [ ~ \ is emitted as it is. */
  lemma CleanTextPlain(t: string)
    requires Plain(t)
    ensures CleanText(t) == t
  {
    TextRulesMarkupLed();
    PlainInert(TextRules, t);
    ChainFixed(TextRules, t);
  }

  /** Plain text passes every step of the text chain unchanged. */
  lemma TextFixesPlain(x: string)
    requires Plain(x)
    ensures forall r :: r in RegexRules ==> Apply(r, x) == x
    ensures Chain(EscapeRules, x) == x
  {
    TextRulesMarkupLed();
    PlainInert(RegexRules, x);
    PlainInert(EscapeRules, x);
    ChainFixed(EscapeRules, x);
  }

  /** The rule's pattern occurs nowhere in `s`. */
  predicate Untouched(r: Rule, s: string) {
    match r
    case Pair(open, close, _, _) => open != [] && close != [] && Unpaired(s, open, close)
    case Link => '[' !in s
    case Image => '[' !in s
    case Literal(pat, _) => pat != [] && Absent(s, pat)
  }

  lemma ApplyUntouched(r: Rule, s: string)
    requires Untouched(r, s)
    ensures Apply(r, s) == s
  {
    match r
    case Pair(open, close, pre, post) => SubPairUnpaired(s, open, close, pre, post);
    case Link => SubLinkAbsent(s);
    case Image => SubImageAbsent(s);
    case Literal(pat, rep) => ReplaceAbsent(s, pat, rep);
  }

  lemma ChainUntouched(rules: seq<Rule>, s: string)
    requires forall r :: r in rules ==> Untouched(r, s)
    ensures Chain(rules, s) == s
  {
    forall r | r in rules ensures Apply(r, s) == s {
      ApplyUntouched(r, s);
    }
    ChainFixed(rules, s);
  }

  /**
   * The text chain maps `s` to plain `x` when no rule before `k` finds its
   * pattern in `s` and rule `k` rewrites `s` to `x`.
   */
  lemma TextThrough(k: nat, s: string, x: string)
    requires k < |RegexRules|
    requires forall i :: 0 <= i < k ==> Untouched(RegexRules[i], s)
    requires Apply(RegexRules[k], s) == x && Plain(x)
    ensures CleanText(s) == x
  {
    forall i | 0 <= i < k ensures Apply(RegexRules[i], s) == s {
      ApplyUntouched(RegexRules[i], s);
    }
    TextFixesPlain(x);
    ChainThrough(RegexRules, k, s, x);
    TextRulesSplit(s);
  }

  /**
   * A span `open + x + close` that no earlier rule of the text chain touches
   * comes out of the chain as `pre + x + post`, when that is plain.
   */
  lemma SpanThrough(k: nat, open: string, x: string, close: string, pre: string, post: string)
    requires k < |RegexRules| && RegexRules[k] == Pair(open, close, pre, post)
    requires open != [] && close != [] && x != [] && close[0] !in x
    requires Plain(pre + x + post)
    requires forall i :: 0 <= i < k ==> Untouched(RegexRules[i], open + x + close)
    ensures CleanText(open + x + close) == pre + x + post
  {
    SubPairSpan(open, x, close, pre, post);
    TextThrough(k, open + x + close, pre + x + post);
  }

  /** `***x***` around non-empty plain `x` loses its delimiters. */
  lemma UnwrapBoldItalic(x: string)
    requires x != [] && Plain(x)
    ensures CleanText("***" + x + "***") == x
  {
    assert "" + x + "" == x;
    SpanThrough(0, "***", x, "***", "", "");
  }

  /** `**x**` around non-empty plain `x` loses its delimiters. */
  lemma UnwrapBold(x: string)
    requires x != [] && Plain(x)
    ensures CleanText("**" + x + "**") == x
  {
    var s := "**" + x + "**";
    assert Absent(s, "***") by {
      DoubleWrapNoTriple('*', x);
      assert s == ['*', '*'] + x + ['*', '*'];
    }
    assert "" + x + "" == x;
    SpanThrough(1, "**", x, "**", "", "");
  }

  /** `__x__` around non-empty plain `x` loses its delimiters. */
  lemma UnwrapBoldAlt(x: string)
    requires x != [] && Plain(x)
    ensures CleanText("__" + x + "__") == x
  {
    var s := "__" + x + "__";
    assert '*' !in s;
    CharAbsent(s, "***", 0);
    CharAbsent(s, "**", 0);
    assert "" + x + "" == x;
    SpanThrough(2, "__", x, "__", "", "");
  }

  /** `*x*` around non-empty plain `x` loses its delimiters. */
  lemma UnwrapItalic(x: string)
    requires x != [] && Plain(x)
    ensures CleanText("*" + x + "*") == x
  {
    var s := "*" + x + "*";
    assert Absent(s, "***") && Absent(s, "**") by {
      SingleWrapNoDouble('*', x);
      assert s == ['*'] + x + ['*'];
    }
    assert '_' !in s;
    CharAbsent(s, "__", 0);
    assert "" + x + "" == x;
    SpanThrough(3, "*", x, "*", "", "");
  }

  /** `_x_` around non-empty plain `x` loses its delimiters. */
  lemma UnwrapItalicAlt(x: string)
    requires x != [] && Plain(x)
    ensures CleanText("_" + x + "_") == x
  {
    var s := "_" + x + "_";
    assert '*' !in s;
    CharAbsent(s, "***", 0);
    CharAbsent(s, "**", 0);
    CharAbsent(s, "*", 0);
    assert Absent(s, "__") by {
      SingleWrapNoDouble('_', x);
      assert s == ['_'] + x + ['_'];
    }
    assert "" + x + "" == x;
    SpanThrough(4, "_", x, "_", "", "");
  }

  /** `~~x~~` around non-empty plain `x` loses its delimiters. */
  lemma UnwrapStrike(x: string)
    requires x != [] && Plain(x)
    ensures CleanText("~~" + x + "~~") == x
  {
    var s := "~~" + x + "~~";
    assert '*' !in s && '_' !in s && '`' !in s && '[' !in s;
    CharAbsent(s, "***", 0);
    CharAbsent(s, "**", 0);
    CharAbsent(s, "__", 0);
    CharAbsent(s, "*", 0);
    CharAbsent(s, "_", 0);
    CharAbsent(s, "`", 0);
    assert "" + x + "" == x;
    SpanThrough(8, "~~", x, "~~", "", "");
  }

  /** `***x***`, `**x**`, `__x__`, `*x*`, `_x_` and `~~x~~` around non-empty plain `x` lose their delimiters. */
  lemma CleanTextUnwraps(d: string, x: string)
    requires d in {"***", "**", "__", "*", "_", "~~"}
    requires x != [] && Plain(x)
    ensures CleanText(d + x + d) == x
  {
    if d == "***" { UnwrapBoldItalic(x); }
    else if d == "**" { UnwrapBold(x); }
    else if d == "__" { UnwrapBoldAlt(x); }
    else if d == "*" { UnwrapItalic(x); }
    else if d == "_" { UnwrapItalicAlt(x); }
    else { UnwrapStrike(x); }
  }

  /** Inline code `` `x` `` around non-empty plain `x` becomes `"x"`. */
  lemma CleanTextQuotesCode(x: string)
    requires x != [] && Plain(x)
    ensures CleanText("`" + x + "`") == "\"" + x + "\""
  {
    var s := "`" + x + "`";
    assert '*' !in s && '_' !in s;
    CharAbsent(s, "***", 0);
    CharAbsent(s, "**", 0);
    CharAbsent(s, "__", 0);
    CharAbsent(s, "*", 0);
    CharAbsent(s, "_", 0);
    assert Plain("\"" + x + "\"");
    SpanThrough(5, "`", x, "`", "\"", "\"");
  }

  /**
   * The link rule runs before the image rule, so an image `![a](u)` keeps
   * its "!" and its label: it becomes `!a` and is never removed.
   */
  lemma CleanTextImageBecomesBangLabel(a: string, u: string)
    requires a != [] && u != [] && Plain(a) && Plain(u)
    requires ']' !in a && ')' !in u
    ensures CleanText("![" + a + "](" + u + ")") == "!" + a
  {
    var s := "![" + a + "](" + u + ")";
    assert '*' !in s && '_' !in s && '`' !in s;
    CharAbsent(s, "***", 0);
    CharAbsent(s, "**", 0);
    CharAbsent(s, "__", 0);
    CharAbsent(s, "*", 0);
    CharAbsent(s, "_", 0);
    CharAbsent(s, "`", 0);
    ImageLinkStep(a, u);
    assert Plain("!" + a);
    TextThrough(6, s, "!" + a);
  }

  /** The link rule matches inside `![a](u)` one character in and keeps the label. */
  lemma ImageLinkStep(a: string, u: string)
    requires a != [] && u != [] && Plain(a) && Plain(u)
    requires ']' !in a && ')' !in u
    ensures SubLink("![" + a + "](" + u + ")") == "!" + a
  {
    var s := "![" + a + "](" + u + ")";
    LinkOfPlainSpan(a, u);
    assert s[1..] == "[" + a + "](" + u + ")";
    SubLinkSkip(s);
  }

  lemma {:induction false} ChainAppend(a: seq<Rule>, b: seq<Rule>, t: string)
    ensures Chain(a + b, t) == Chain(b, Chain(a, t))
    decreases |a|
  {
    if a != [] {
      assert (a + b)[0] == a[0] && (a + b)[1..] == a[1..] + b;
      ChainAppend(a[1..], b, Apply(a[0], t));
    } else {
      assert a + b == b;
    }
  }

  /** The text chain is its nine regex steps followed by the three escape replacements. */
  lemma TextRulesSplit(s: string)
    ensures CleanText(s) == Chain(EscapeRules, Chain(RegexRules, s))
  {
    ChainAppend(RegexRules, EscapeRules, s);
  }

  /**
   * A string whose only markup is backslashes and one final "*" passes the
   * nine regex steps unchanged: the lone "*" has nothing to pair with.
   */
  lemma LoneStarSurvivesRegexes(s: string)
    requires s != [] && s[|s| - 1] == '*'
    requires forall k :: 0 <= k < |s| - 1 ==> !IsMarkupChar(s[k]) || s[k] == '\\'
    ensures Chain(RegexRules, s) == s
  {
    LoneStarUntouched(s);
    ChainUntouched(RegexRules, s);
  }

  lemma LoneStarUntouched(s: string)
    requires s != [] && s[|s| - 1] == '*'
    requires forall k :: 0 <= k < |s| - 1 ==> !IsMarkupChar(s[k]) || s[k] == '\\'
    ensures forall r :: r in RegexRules ==> Untouched(r, s)
  {
    assert '_' !in s && '`' !in s && '[' !in s && '~' !in s;
    assert Absent(s, "**") && Absent(s, "***") && Unpaired(s, "*", "*") by {
      forall k | 0 <= k < |s| ensures !OccursAt(s, k, "**") && !OccursAt(s, k, "***") {
        if k + 2 <= |s| { assert s[k..k + 2][0] == s[k]; }
        if k + 3 <= |s| { assert s[k..k + 3][0] == s[k]; }
      }
      forall k: nat | OccursAt(s, k, "*") ensures k == |s| - 1 {
        assert s[k..k + 1][0] == s[k];
      }
    }
    CharAbsent(s, "__", 0);
    CharAbsent(s, "_", 0);
    CharAbsent(s, "`", 0);
    CharAbsent(s, "~~", 0);
  }

  /** The escape steps turn `s` into `t` when only the first of them finds anything. */
  lemma EscapesGive(s: string, t: string)
    requires Replace(s, "\\*", "*") == t
    requires '#' !in t && '_' !in t
    ensures Chain(EscapeRules, s) == t
  {
    CharAbsent(t, "\\#", 1);
    CharAbsent(t, "\\_", 1);
    ApplyUntouched(Literal("\\#", "#"), t);
    ApplyUntouched(Literal("\\_", "_"), t);
    ChainThrough(EscapeRules, 0, s, t);
  }

  /**
   * Escapes are undone after every other rule, so cleaning is not idempotent:
   * a doubled backslash before "*" leaves "\*", which a second pass turns into "*".
   */
  lemma CleanTextNotIdempotent()
    ensures CleanText(['\\', '\\', '*']) == ['\\', '*']
    ensures CleanText(['\\', '*']) == ['*']
    ensures CleanText(CleanText(['\\', '\\', '*'])) != CleanText(['\\', '\\', '*'])
  {
    ReplaceEscapedStars();
    EscapedStarOnce(['\\', '\\', '*'], ['\\', '*']);
    EscapedStarOnce(['\\', '*'], ['*']);
  }

  /** Cleaning a backslash-and-star string that the escape steps turn into `t`. */
  lemma EscapedStarOnce(s: string, t: string)
    requires s != [] && s[|s| - 1] == '*'
    requires forall k :: 0 <= k < |s| - 1 ==> s[k] == '\\'
    requires Replace(s, "\\*", "*") == t && '#' !in t && '_' !in t
    ensures CleanText(s) == t
  {
    LoneStarSurvivesRegexes(s);
    TextRulesSplit(s);
    EscapesGive(s, t);
  }

  lemma ReplaceEscapedStars()
    ensures Replace(['\\', '\\', '*'], "\\*", "*") == ['\\', '*']
    ensures Replace(['\\', '*'], "\\*", "*") == ['*']
  {
    var s := ['\\', '\\', '*'];
    var t := ['\\', '*'];
    assert !StartsWith(s, "\\*") by { assert s[..2][1] == '\\'; }
    assert s[1..] == t;
    assert StartsWith(t, "\\*");
    assert t[2..] == [];
  }

  /** The rule leaves a first character alone that its pattern cannot start with. */
  predicate SparesHead(r: Rule, c: char) {
    match r
    case Pair(open, _, _, _) => open != [] && open[0] != c
    case Link => c != '['
    case Image => c != '!'
    case Literal(pat, _) => pat != [] && pat[0] != c
  }

  lemma ApplyKeepsHead(r: Rule, t: string)
    requires t != [] && SparesHead(r, t[0])
    ensures Apply(r, t) != [] && Apply(r, t)[0] == t[0]
  {
    match r
    case Pair(open, close, pre, post) => SubPairHead(t, open, close, pre, post);
    case Link => SubLinkHead(t);
    case Image => SubImageHead(t);
    case Literal(pat, rep) => ReplaceHead(t, pat, rep);
  }

  lemma {:induction false} ChainKeepsHead(rules: seq<Rule>, t: string)
    requires t != [] && forall r :: r in rules ==> SparesHead(r, t[0])
    ensures Chain(rules, t) != [] && Chain(rules, t)[0] == t[0]
    decreases |rules|
  {
    if rules != [] {
      assert rules[0] in rules;
      ApplyKeepsHead(rules[0], t);
      ChainKeepsHead(rules[1..], Apply(rules[0], t));
    }
  }

  /** Cleaning never changes a first character that no rule can start with. */
  lemma CleanTextKeepsHead(t: string)
    requires t != [] && !IsMarkupChar(t[0]) && t[0] != '!'
    ensures CleanText(t) != [] && CleanText(t)[0] == t[0]
  {
    ChainKeepsHead(TextRules, t);
  }

  /** In `c + x + c` with `c` absent from `x`, two `c` in a row occur nowhere. */
  lemma SingleWrapNoDouble(c: char, x: string)
    requires x != [] && c !in x
    ensures Absent([c] + x + [c], [c, c]) && Absent([c] + x + [c], [c, c, c])
  {
    var s := [c] + x + [c];
    forall k | 0 <= k < |s| ensures !OccursAt(s, k, [c, c]) && !OccursAt(s, k, [c, c, c]) {
      if k + 2 <= |s| {
        assert s[k..k + 2] == [s[k], s[k + 1]];
        if k == 0 { assert s[1] == x[0]; } else { assert s[k] == x[k - 1]; }
      }
      if k + 3 <= |s| {
        assert s[k..k + 3] == [s[k], s[k + 1], s[k + 2]];
      }
    }
  }

  /** In `cc + x + cc` with `c` absent from `x`, three `c` in a row occur nowhere. */
  lemma DoubleWrapNoTriple(c: char, x: string)
    requires x != [] && c !in x
    ensures Absent([c, c] + x + [c, c], [c, c, c])
  {
    var s := [c, c] + x + [c, c];
    forall k | 0 <= k < |s| ensures !OccursAt(s, k, [c, c, c]) {
      if k + 3 <= |s| {
        assert s[k..k + 3] == [s[k], s[k + 1], s[k + 2]];
        if k <= 1 { assert s[2] == x[0]; } else { assert s[k] == x[k - 2]; }
      }
    }
  }

  /** In `[a](u)` with `a` free of "]", the first "](" follows `a`. */
  lemma LinkLabelEnd(a: string, u: string)
    requires a != [] && ']' !in a
    ensures FindFrom("[" + a + "](" + u + ")", 2, "](") == Some(1 + |a|)
  {
    var s := "[" + a + "](" + u + ")";
    var m := 1 + |a|;
    assert s[m..m + 2] == "](";
    forall k | 2 <= k < m ensures !OccursAt(s, k, "](") {
      assert s[k] == a[k - 1];
      if k + 2 <= |s| { assert s[k..k + 2][0] == s[k]; }
    }
    FindFromAt(s, 2, "](", m);
  }

  /** In `t + u + c`, with the one character of `c` absent from `u`, the first `c` from inside `u` on is the last character. */
  lemma FindCloseAfter(t: string, u: string, c: string, from: nat)
    requires |c| == 1 && c[0] !in u
    requires |t| <= from <= |t| + |u|
    ensures FindFrom(t + u + c, from, c) == Some(|t| + |u|)
  {
    var s := t + u + c;
    var e := |t| + |u|;
    assert s[e..e + 1] == c;
    forall k | from <= k < e ensures !OccursAt(s, k, c) {
      assert s[k] == u[k - |t|];
      assert s[k..k + 1][0] == s[k];
    }
    FindFromAt(s, from, c, e);
  }

  /** In `[a](u)` with `u` free of ")", the first ")" after the target starts is the last character. */
  lemma LinkTargetEnd(a: string, u: string)
    requires u != [] && ')' !in u
    ensures FindFrom("[" + a + "](" + u + ")", |"[" + a + "]("| + 1, ")") == Some(|"[" + a + "]("| + |u|)
  {
    FindCloseAfter("[" + a + "](", u, ")", |"[" + a + "]("| + 1);
  }

  /** A link `[a](u)` with plain label and target is rewritten to its label. */
  lemma LinkOfPlainSpan(a: string, u: string)
    requires a != [] && u != [] && Plain(a) && Plain(u)
    requires ']' !in a && ')' !in u
    ensures SubLink("[" + a + "](" + u + ")") == a
  {
    var s := "[" + a + "](" + u + ")";
    var m := 1 + |a|;
    var e := |a| + 3 + |u|;
    LinkLabelEnd(a, u);
    LinkTargetEnd(a, u);
    assert LinkMatch(s) == Some((m, e));
    assert s[1..m] == a;
    assert s[e + 1..] == [];
  }

  lemma SubLinkSkip(s: string)
    requires s != [] && s[0] != '['
    ensures SubLink(s) == [s[0]] + SubLink(s[1..])
  {
    assert LinkMatch(s) == None;
  }

  /** A single "*" at the very end has nothing to pair with. */
  lemma {:induction false} LoneStarUnchanged(s: string)
    requires s != [] && s[|s| - 1] == '*' && forall k :: 0 <= k < |s| - 1 ==> s[k] != '*'
    ensures SubPair(s, "*", "*", "", "") == s
    decreases |s|
  {
    if |s| == 1 {
      assert FindFrom(s, 2, "*") == None;
      assert SubPair(s, "*", "*", "", "") == [s[0]] + SubPair([], "*", "*", "", "");
    } else {
      assert !StartsWith(s, "*") by { assert s[..1][0] == s[0]; }
      LoneStarUnchanged(s[1..]);
      assert s == [s[0]] + s[1..];
    }
  }

  lemma SubPairHead(s: string, open: string, close: string, pre: string, post: string)
    requires s != [] && open != [] && s[0] != open[0]
    ensures SubPair(s, open, close, pre, post) != [] && SubPair(s, open, close, pre, post)[0] == s[0]
  {
    assert !StartsWith(s, open) by { if |open| <= |s| { assert s[..|open|][0] == s[0]; } }
  }

  lemma SubLinkHead(s: string)
    requires s != [] && s[0] != '['
    ensures SubLink(s) != [] && SubLink(s)[0] == s[0]
  {
    assert LinkMatch(s) == None;
  }

  lemma SubImageHead(s: string)
    requires s != [] && s[0] != '!'
    ensures SubImage(s) != [] && SubImage(s)[0] == s[0]
  {
    assert !StartsWith(s, "![") by { if 2 <= |s| { assert s[..2][0] == s[0]; } }
  }

  lemma ReplaceHead(s: string, pat: string, rep: string)
    requires s != [] && pat != [] && s[0] != pat[0]
    ensures Replace(s, pat, rep) != [] && Replace(s, pat, rep)[0] == s[0]
  {
    assert !StartsWith(s, pat) by { if |pat| <= |s| { assert s[..|pat|][0] == s[0]; } }
  }
}
