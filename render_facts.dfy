/**
 * What the drawing trace of utilities/save_pdf.py promises: list labels and
 * entries, one row per code line, the info-box fallback, the striped table,
 * and how parsed blocks reach the page.
 */
module RenderFacts {
  import opened Common
  import opened Blocks
  import opened ParseFacts
  import opened Render

  // ---------------------------------------------------------------------------
  // Lists

  /** Entry `k` of a bullet list is a "-" cell, the indent, and the stripped item. */
  lemma {:induction false} BulletEntry(items: seq<string>, k: nat)
    requires k < |items|
    ensures 3 * k + 3 <= |BulletRows(items)|
    ensures BulletRows(items)[3 * k..3 * k + 3] == ListItemOps(5, "-", 8, items[k])
    decreases |items|
  {
    var n := |items|;
    var init := items[..n - 1];
    var a := BulletRows(init);
    var b := ListItemOps(5, "-", 8, items[n - 1]);
    assert BulletRows(items) == a + b;
    if k < n - 1 {
      BulletEntry(init, k);
      assert (a + b)[3 * k..3 * k + 3] == a[3 * k..3 * k + 3];
    } else {
      assert (a + b)[3 * k..3 * k + 3] == b;
    }
  }

  /** Entry `k` of a numbered list is labelled `Label(k)`, whatever the item holds. */
  lemma {:induction false} NumberedEntry(items: seq<string>, k: nat)
    requires k < |items|
    ensures 3 * k + 3 <= |NumberedRows(items)|
    ensures NumberedRows(items)[3 * k..3 * k + 3] == ListItemOps(8, Label(k), 10, items[k])
    decreases |items|
  {
    var n := |items|;
    var init := items[..n - 1];
    var a := NumberedRows(init);
    var b := ListItemOps(8, Label(n - 1), 10, items[n - 1]);
    assert NumberedRows(items) == a + b;
    if k < n - 1 {
      NumberedEntry(init, k);
      assert (a + b)[3 * k..3 * k + 3] == a[3 * k..3 * k + 3];
    } else {
      assert (a + b)[3 * k..3 * k + 3] == b;
    }
  }

  /** The label of entry `k` is the decimal number `k + 1` followed by a dot. */
  lemma LabelValue(k: nat)
    ensures |Label(k)| >= 2 && Label(k)[|Label(k)| - 1] == '.'
    ensures forall m :: 0 <= m < |Label(k)| - 1 ==> IsDigit(Label(k)[m])
    ensures DecimalValue(Label(k)[..|Label(k)| - 1]) == k + 1
  {
    var digits := NatToString(k + 1);
    assert Label(k)[..|Label(k)| - 1] == digits;
    DecimalRoundTrip(k + 1);
  }

  /** No two entries of a numbered list share a label. */
  lemma LabelsDistinct(j: nat, k: nat)
    requires j != k
    ensures Label(j) != Label(k)
  {
    NatToStringInjective(j + 1, k + 1);
    assert Label(j)[..|Label(j)| - 1] == NatToString(j + 1);
    assert Label(k)[..|Label(k)| - 1] == NatToString(k + 1);
  }

  // ---------------------------------------------------------------------------
  // Code blocks

  /** Row `k` of a code block shows line `k`, unchanged. */
  lemma {:induction false} CodeRowAt(lines: seq<string>, k: nat)
    requires k < |lines|
    ensures CodeRows(lines)[k] == CodeRow(lines[k])
    decreases |lines|
  {
    var n := |lines|;
    var init := lines[..n - 1];
    assert CodeRows(lines) == CodeRows(init) + [CodeRow(lines[n - 1])];
    if k < n - 1 {
      CodeRowAt(init, k);
    }
  }

  /**
   * Code assembled from newline-free lines is drawn as exactly those lines,
   * one filled row each, between the three style calls and `ln(3)`.
   */
  lemma CodeBlockOfLines(lines: seq<string>)
    requires |lines| >= 1
    requires forall k :: 0 <= k < |lines| ==> '\n' !in lines[k]
    ensures |CodeBlockOps(JoinLines(lines))| == |lines| + 4
    ensures forall k :: 0 <= k < |lines| ==> CodeBlockOps(JoinLines(lines))[3 + k] == CodeRow(lines[k])
    ensures CodeBlockOps(JoinLines(lines))[|lines| + 3] == Ln(3)
  {
    SplitJoinLines(lines);
    var ops := CodeBlockOps(JoinLines(lines));
    forall k | 0 <= k < |lines| ensures ops[3 + k] == CodeRow(lines[k]) {
      CodeRowAt(lines, k);
    }
  }

  /** The rows of a code block assembled from newline-free lines are those lines' rows. */
  lemma CodeBlockRows(lines: seq<string>)
    requires |lines| >= 1
    requires forall k :: 0 <= k < |lines| ==> '\n' !in lines[k]
    ensures |CodeBlockOps(JoinLines(lines))| == |lines| + 4
    ensures CodeBlockOps(JoinLines(lines))[3..|lines| + 3] == CodeRows(lines)
  {
    SplitJoinLines(lines);
  }

  // ---------------------------------------------------------------------------
  // Info boxes

  /** A kind that is none of the four known ones is drawn exactly like an "info" box. */
  lemma InfoFallback(text: string, kind: string)
    requires kind != "info" && kind != "warning" && kind != "success" && kind != "error"
    ensures InfoBoxOps(text, kind) == InfoBoxOps(text, "info")
  {
  }

  // ---------------------------------------------------------------------------
  // Tables

  /** Where data row `k` starts in the rows drawn by `add_table`: each earlier row took its cells and a line break. */
  function RowStart(data: seq<seq<string>>, k: nat): nat
    requires k <= |data|
  {
    if k == 0 then 0 else RowStart(data, k - 1) + |data[k - 1]| + 1
  }

  lemma {:induction false} RowStartPrefix(data: seq<seq<string>>, n: nat, k: nat)
    requires k <= n <= |data|
    ensures RowStart(data[..n], k) == RowStart(data, k)
    decreases k
  {
    if k > 0 {
      RowStartPrefix(data, n, k - 1);
      assert data[..n][k - 1] == data[k - 1];
    }
  }

  lemma {:induction false} DataRowsLength(data: seq<seq<string>>)
    ensures |DataRows(data)| == RowStart(data, |data|)
    decreases |data|
  {
    if data != [] {
      var n := |data|;
      DataRowsLength(data[..n - 1]);
      RowStartPrefix(data, n - 1, n - 1);
    }
  }

  /** Data row `k` is `len(row)` cells, all filled exactly when `k` is odd, then a line break. */
  lemma {:induction false} DataRowAt(data: seq<seq<string>>, k: nat)
    requires k < |data|
    ensures RowStart(data, k + 1) <= |DataRows(data)|
    ensures DataRows(data)[RowStart(data, k)..RowStart(data, k + 1)] == RowOps(data[k], k % 2 == 1)
    decreases |data|
  {
    var n := |data|;
    var init := data[..n - 1];
    var a := DataRows(init);
    var b := RowOps(data[n - 1], (n - 1) % 2 == 1);
    assert DataRows(data) == a + b;
    DataRowsLength(init);
    RowStartPrefix(data, n - 1, n - 1);
    if k < n - 1 {
      DataRowAt(init, k);
      RowStartPrefix(data, n - 1, k);
      RowStartPrefix(data, n - 1, k + 1);
      assert init[k] == data[k];
      assert (a + b)[RowStart(data, k)..RowStart(data, k + 1)] == a[RowStart(data, k)..RowStart(data, k + 1)];
    } else {
      assert (a + b)[RowStart(data, k)..RowStart(data, k + 1)] == b;
    }
  }

  /** The header row of a table: one filled cell per header, then a line break. */
  lemma TableHeaderRow(headers: seq<string>, data: seq<seq<string>>)
    ensures |headers| + 3 <= |TableOps(headers, data)|
    ensures forall j :: 0 <= j < |headers| ==> TableOps(headers, data)[2 + j] == Cell(Column, 7, headers[j], false, true, true, true)
    ensures TableOps(headers, data)[2 + |headers|] == LnDefault
  {
  }

  /**
   * Data row `k` of a table, at its place after the header: one cell per item
   * of the row (no padding, no truncation), each filled exactly when `k` is
   * odd, then a line break.
   */
  lemma TableDataRow(headers: seq<string>, data: seq<seq<string>>, k: nat)
    requires k < |data|
    ensures var at := |headers| + 5 + RowStart(data, k);
      && at + |data[k]| < |TableOps(headers, data)|
      && (forall j :: 0 <= j < |data[k]| ==>
            TableOps(headers, data)[at + j] == Cell(Column, 6, data[k][j], false, k % 2 == 1, true, true))
      && TableOps(headers, data)[at + |data[k]|] == LnDefault
  {
    DataRowAt(data, k);
    var pre := TableStartOps() + HeaderCells(headers) + [LnDefault, SetFont("Arial", "", 10), SetFillColor(Rgb(240, 240, 240))];
    assert |pre| == |headers| + 5;
    var rows := DataRows(data);
    var t := TableOps(headers, data);
    assert t == pre + rows + [Ln(3)];
    var lo := RowStart(data, k);
    var row := RowOps(data[k], k % 2 == 1);
    assert rows[lo..RowStart(data, k + 1)] == row;
    forall j | 0 <= j <= |data[k]|
      ensures t[|pre| + lo + j] == row[j]
    {
      assert rows[lo + j] == row[j];
      IndexInMiddle(pre, rows, [Ln(3)], lo + j);
    }
    assert row[|data[k]|] == LnDefault;
  }

  // ---------------------------------------------------------------------------
  // The dispatch

  lemma {:induction false} FlattenAppend<T>(f: T -> seq<DrawOp>, a: seq<T>, b: seq<T>)
    ensures Flatten(f, a + b) == Flatten(f, a) + Flatten(f, b)
    decreases |b|
  {
    if b != [] {
      var n := |b|;
      FlattenAppend(f, a, b[..n - 1]);
      assert (a + b)[..|a + b| - 1] == a + b[..n - 1];
      assert (a + b)[|a + b| - 1] == b[n - 1];
      calc {
        Flatten(f, a + b);
        Flatten(f, a + b[..n - 1]) + f(b[n - 1]);
        Flatten(f, a) + Flatten(f, b[..n - 1]) + f(b[n - 1]);
        Flatten(f, a) + Flatten(f, b);
      }
    } else {
      assert a + b == a;
    }
  }

  /** The trace of a sequence of elements is the traces of its parts, one after the other. */
  lemma ElementsOpsAppend(a: seq<Element>, b: seq<Element>)
    ensures ElementsOps(a + b) == ElementsOps(a) + ElementsOps(b)
  {
    FlattenAppend(ElementOps, a, b);
  }

  /** A document that starts with `e` is drawn as `e` (whose trace is `ops`), then the rest. */
  lemma DrawnHead(doc: seq<Element>, e: Element, ops: seq<DrawOp>, rest: seq<Element>)
    requires doc == [e] + rest
    requires ElementOps(e) == ops
    ensures ElementsOps(doc) == ops + ElementsOps(rest)
  {
    ElementsOpsAppend([e], rest);
    assert [e][..0] == [];
    assert Flatten(ElementOps, [e]) == Flatten(ElementOps, []) + ElementOps(e);
  }

  lemma NumberedListDrawn(items: seq<string>)
    ensures ElementOps(NumberedList(items)) == NumberedListOps(items)
  {
  }

  lemma CodeDrawn(code: string)
    ensures ElementOps(Code(code)) == CodeBlockOps(code)
  {
  }

  /** The label cell of entry `k` in the whole trace of `numbered_list`. */
  lemma NumberedLabelAt(items: seq<string>, k: nat)
    requires k < |items|
    ensures 2 + 3 * k < |NumberedListOps(items)|
    ensures NumberedListOps(items)[2 + 3 * k] == Cell(Fixed(8), 6, Label(k), false, false, false, false)
  {
    NumberedEntry(items, k);
    var rows := NumberedRows(items);
    assert rows[3 * k] == rows[3 * k..3 * k + 3][0];
    assert NumberedListOps(items)[2 + 3 * k] == rows[3 * k];
  }

  /**
   * A closed fence reaches the page as a code block whose rows are the lines
   * between the fences, verbatim and in order, followed by the rest of the document.
   */
  lemma FenceDrawn(lines: seq<string>, i: nat, j: nat)
    requires i + 1 < j < |lines|
    requires IsFence(lines[i]) && IsFence(lines[j])
    requires forall k :: i < k < j ==> !IsFence(lines[k])
    requires forall k :: 0 <= k < |lines| ==> '\n' !in lines[k]
    ensures var code := CodeBlockOps(JoinLines(lines[i + 1..j]));
      && ElementsOps(Parse(lines, i)) == code + ElementsOps(Parse(lines, j + 1))
      && |code| == j - i + 3
      && code[3..j - i + 2] == CodeRows(lines[i + 1..j])
  {
    var run := lines[i + 1..j];
    FenceBlock(lines, i, j);
    CodeDrawn(JoinLines(run));
    DrawnHead(Parse(lines, i), Code(JoinLines(run)), CodeBlockOps(JoinLines(run)), Parse(lines, j + 1));
    assert forall k :: 0 <= k < |run| ==> '\n' !in run[k] by {
      forall k | 0 <= k < |run| ensures '\n' !in run[k] { assert run[k] == lines[i + 1 + k]; }
    }
    CodeBlockRows(run);
  }

  /**
   * A maximal run of numbered lines is drawn with the labels "1.", "2.", ...
   * in order: the numbers written in the source are not used.
   */
  lemma NumberedRunDrawn(lines: seq<string>, i: nat, j: nat, k: nat)
    requires i < j <= |lines|
    requires forall m :: i <= m < j ==> NumberedItem(lines[m]).Some?
    requires j < |lines| ==> NumberedItem(lines[j]).None?
    requires k < j - i
    ensures var items := NumberedItems(lines[i..j]);
      && ElementsOps(Parse(lines, i)) == NumberedListOps(items) + ElementsOps(Parse(lines, j))
      && NumberedListOps(items)[2 + 3 * k] == Cell(Fixed(8), 6, Label(k), false, false, false, false)
  {
    var items := NumberedItems(lines[i..j]);
    NumberedRun(lines, i, j);
    NumberedListDrawn(items);
    DrawnHead(Parse(lines, i), NumberedList(items), NumberedListOps(items), Parse(lines, j));
    NumberedLabelAt(items, k);
  }
}
