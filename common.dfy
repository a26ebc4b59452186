/**
 * Values and string operations shared by the model: the Option/Result
 * wrappers, Python's notion of whitespace, `str.strip`, `str.split("\n")`
 * with its inverse `"\n".join`, `sep.join` and decimal rendering of integers.
 */
module Common {

  datatype Option<+T> = None | Some(value: T)

  /** A value, or the exception the Python code raises instead of returning one. */
  datatype Result<+T, +E> = Ok(value: T) | Err(error: E)

  /**
   * The characters for which Python's `str.isspace()` holds. The same set is
   * matched by `\s` in a `str` pattern and removed by `str.strip()`.
   */
  predicate IsSpace(c: char) {
    var n := c as int;
    || (9 <= n <= 13) || (28 <= n <= 32)
    || n == 0x85 || n == 0xA0 || n == 0x1680
    || (0x2000 <= n <= 0x200A) || n == 0x2028 || n == 0x2029
    || n == 0x202F || n == 0x205F || n == 0x3000
  }

  /** `not s.strip()`: the string is empty or made only of whitespace. */
  predicate IsBlank(s: string) {
    forall k :: 0 <= k < |s| ==> IsSpace(s[k])
  }

  predicate StartsWith(s: string, prefix: string) {
    |prefix| <= |s| && s[..|prefix|] == prefix
  }

  /** Does `pat` occur in `s` starting at index `i`? */
  predicate OccursAt(s: string, i: nat, pat: string) {
    i + |pat| <= |s| && s[i..i + |pat|] == pat
  }

  /** The end of the run of whitespace that starts at index `i`. */
  function SpanSpaces(s: string, i: nat): (j: nat)
    requires i <= |s|
    ensures i <= j <= |s|
    ensures forall k :: i <= k < j ==> IsSpace(s[k])
    ensures j < |s| ==> !IsSpace(s[j])
    decreases |s| - i
  {
    if i < |s| && IsSpace(s[i]) then SpanSpaces(s, i + 1) else i
  }

  /** The start of the run of whitespace that ends at `hi`, going no further back than `lo`. */
  function SpanSpacesBack(s: string, lo: nat, hi: nat): (b: nat)
    requires lo <= hi <= |s|
    ensures lo <= b <= hi
    ensures forall k :: b <= k < hi ==> IsSpace(s[k])
    ensures lo < b ==> !IsSpace(s[b - 1])
    decreases hi
  {
    if lo < hi && IsSpace(s[hi - 1]) then SpanSpacesBack(s, lo, hi - 1) else hi
  }

  /** A run of whitespace from `i` that stops at `j` ends at `j`. */
  lemma {:induction false} SpanSpacesAt(s: string, i: nat, j: nat)
    requires i <= j <= |s|
    requires forall k :: i <= k < j ==> IsSpace(s[k])
    requires j < |s| ==> !IsSpace(s[j])
    ensures SpanSpaces(s, i) == j
    decreases j - i
  {
    if i < j {
      SpanSpacesAt(s, i + 1, j);
    }
  }

  /** Python's `s.strip()`: `s` without its leading and trailing whitespace. */
  function Strip(s: string): (r: string)
    ensures |r| <= |s|
    ensures r == [] <==> IsBlank(s)
    ensures r != [] ==> !IsSpace(r[0]) && !IsSpace(r[|r| - 1])
  {
    var a := SpanSpaces(s, 0);
    s[a..SpanSpacesBack(s, a, |s|)]
  }

  /** Where the stripped text sits in `s`: after the leading whitespace, and followed only by whitespace. */
  lemma StripPlace(s: string)
    ensures var a := SpanSpaces(s, 0);
      && a + |Strip(s)| <= |s|
      && (forall k :: 0 <= k < a ==> IsSpace(s[k]))
      && (forall k :: 0 <= k < |Strip(s)| ==> Strip(s)[k] == s[a + k])
      && (forall k :: a + |Strip(s)| <= k < |s| ==> IsSpace(s[k]))
  {
  }

  lemma AppendAssoc<T>(a: seq<T>, b: seq<T>, c: seq<T>)
    ensures (a + b) + c == a + (b + c)
  {
  }

  lemma IndexInMiddle<T>(pre: seq<T>, mid: seq<T>, post: seq<T>, i: nat)
    requires i < |mid|
    ensures (pre + mid + post)[|pre| + i] == mid[i]
  {
  }

  /** A suffix of a sequence is the suffix of all but its last element, then that element. */
  lemma SliceSnoc<T>(s: seq<T>, j: nat)
    requires j < |s|
    ensures s[j..] == s[..|s| - 1][j..] + [s[|s| - 1]]
  {
  }

  /** Python's `s.split("\n")`: never empty, and no piece holds a newline. */
  function SplitLines(s: string): (r: seq<string>)
    ensures |r| >= 1
    ensures forall k :: 0 <= k < |r| ==> '\n' !in r[k]
    decreases |s|
  {
    if s == [] then [""]
    else
      var rest := SplitLines(s[1..]);
      if s[0] == '\n' then [""] + rest
      else [[s[0]] + rest[0]] + rest[1..]
  }

  /** Python's `sep.join(parts)`. */
  function JoinWith(parts: seq<string>, sep: string): string {
    if parts == [] then ""
    else if |parts| == 1 then parts[0]
    else parts[0] + sep + JoinWith(parts[1..], sep)
  }

  /** Python's `"\n".join(parts)`. */
  function JoinLines(parts: seq<string>): string {
    JoinWith(parts, "\n")
  }

  /** Splitting at every newline and joining the pieces with newlines gives back the text. */
  lemma {:induction false} JoinSplitLines(s: string)
    ensures JoinLines(SplitLines(s)) == s
    decreases |s|
  {
    if s != [] {
      JoinSplitLines(s[1..]);
      var rest := SplitLines(s[1..]);
      if s[0] == '\n' {
        assert SplitLines(s) == [""] + rest;
        assert JoinLines(SplitLines(s)) == "" + "\n" + JoinLines(rest);
        assert s == [s[0]] + s[1..];
      } else {
        var r := SplitLines(s);
        assert r == [[s[0]] + rest[0]] + rest[1..];
        if |rest| == 1 {
          assert JoinLines(r) == [s[0]] + rest[0];
          assert JoinLines(rest) == rest[0];
        } else {
          assert r[1..] == rest[1..];
          assert JoinLines(r) == [s[0]] + rest[0] + "\n" + JoinLines(rest[1..]);
          assert JoinLines(rest) == rest[0] + "\n" + JoinLines(rest[1..]);
        }
        assert s == [s[0]] + s[1..];
      }
    }
  }

  lemma {:induction false} SplitLinesNoNewline(s: string)
    requires '\n' !in s
    ensures SplitLines(s) == [s]
    decreases |s|
  {
    if s != [] {
      assert '\n' !in s[1..] by {
        forall k | 0 <= k < |s[1..]| ensures s[1..][k] != '\n' { assert s[1..][k] == s[k + 1]; }
      }
      SplitLinesNoNewline(s[1..]);
      assert s == [s[0]] + s[1..];
    }
  }

  /** Splitting `a + "\n" + b` at its newlines, when `a` has none, yields `a` followed by the pieces of `b`. */
  lemma {:induction false} SplitLinesCons(a: string, b: string)
    requires '\n' !in a
    ensures SplitLines(a + "\n" + b) == [a] + SplitLines(b)
    decreases |a|
  {
    if a == [] {
      assert a + "\n" + b == ['\n'] + b;
      assert (['\n'] + b)[1..] == b;
    } else {
      var s := a + "\n" + b;
      assert s[0] == a[0];
      assert s[1..] == a[1..] + "\n" + b;
      assert '\n' !in a[1..] by {
        forall k | 0 <= k < |a[1..]| ensures a[1..][k] != '\n' { assert a[1..][k] == a[k + 1]; }
      }
      SplitLinesCons(a[1..], b);
      assert [a[0]] + a[1..] == a;
    }
  }

  /** Joining newline-free pieces with newlines and splitting again gives back the pieces. */
  lemma {:induction false} SplitJoinLines(parts: seq<string>)
    requires |parts| >= 1
    requires forall k :: 0 <= k < |parts| ==> '\n' !in parts[k]
    ensures SplitLines(JoinLines(parts)) == parts
    decreases |parts|
  {
    if |parts| == 1 {
      SplitLinesNoNewline(parts[0]);
    } else {
      SplitJoinLines(parts[1..]);
      assert JoinLines(parts) == parts[0] + "\n" + JoinLines(parts[1..]);
      SplitLinesCons(parts[0], JoinLines(parts[1..]));
      assert [parts[0]] + parts[1..] == parts;
    }
  }

  predicate IsDigit(c: char) {
    '0' <= c <= '9'
  }

  function DigitChar(d: nat): (c: char)
    requires d < 10
    ensures IsDigit(c) && c as int - '0' as int == d
  {
    (('0' as int) + d) as char
  }

  /** Python's `str(n)` for a non-negative integer: its decimal digits. */
  function NatToString(n: nat): (s: string)
    ensures |s| >= 1
    ensures forall k :: 0 <= k < |s| ==> IsDigit(s[k])
    ensures |s| > 1 ==> s[0] != '0'
  {
    if n < 10 then [DigitChar(n)] else NatToString(n / 10) + [DigitChar(n % 10)]
  }

  /** The value of a string of decimal digits (Python's `int(s)` for such a string). */
  function DecimalValue(s: string): nat
    requires forall k :: 0 <= k < |s| ==> IsDigit(s[k])
  {
    if s == [] then 0
    else DecimalValue(s[..|s| - 1]) * 10 + DigitValue(s[|s| - 1])
  }

  function DigitValue(c: char): (d: nat)
    requires IsDigit(c)
    ensures d < 10 && DigitChar(d) == c
  {
    c as int - '0' as int
  }

  /** Reading back the decimal rendering of `n` gives `n`. */
  lemma {:induction false} DecimalRoundTrip(n: nat)
    ensures DecimalValue(NatToString(n)) == n
  {
    if n >= 10 {
      DecimalRoundTrip(n / 10);
      var s := NatToString(n);
      assert s[..|s| - 1] == NatToString(n / 10);
    }
  }

  /** Distinct numbers render as distinct strings. */
  lemma NatToStringInjective(m: nat, n: nat)
    requires m != n
    ensures NatToString(m) != NatToString(n)
  {
    DecimalRoundTrip(m);
    DecimalRoundTrip(n);
  }
}
