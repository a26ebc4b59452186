/**
 * The drawing side of utilities/save_pdf.py: the `EnhancedPDF` methods
 * (lines 15-147) and the element dispatch of `save_pdf` (lines 340-410).
 *
 * The PDF object is modelled by the sequence of drawing calls it receives
 * from this repository's code (`ops`), in order. What FPDF does with them
 * (font metrics, line wrapping, page breaks, the output file) is not part
 * of the model.
 */
module Render {
  import opened Common
  import opened Blocks

  datatype Rgb = Rgb(r: nat, g: nat, b: nat)

  /** The width argument of `cell`: a fixed width, or the table's computed column width. */
  datatype Width = Fixed(w: nat) | Column

  /** One call on the FPDF object. */
  datatype DrawOp =
    | AddPage
    | SetAutoPageBreak(margin: nat)
    | SetFont(family: string, style: string, size: nat)
    | SetFillColor(fillColor: Rgb)
    | SetTextColor(textColor: Rgb)
    | SetDrawColor(drawColor: Rgb)
    | DrawLine(x1: nat, y1: nat, x2: nat, y2: nat)
    | Cell(width: Width, h: nat, text: string, ln: bool, fill: bool, border: bool, center: bool)
    | MultiCell(h: nat, text: string, fill: bool, border: bool)
    /** `set_x(x_before + dx)`, where `x_before` is the position before the preceding cell. */
    | MoveRight(dx: nat)
    /** `ln(h)`; `LnDefault` is `ln()`, which moves down by the height of the last cell. */
    | Ln(lh: nat)
    | LnDefault

  // ---------------------------------------------------------------------------
  // What each method draws

  /** `header()`, which FPDF calls when a page is added. */
  function HeaderOps(): seq<DrawOp> {
    [ SetFont("Arial", "B", 16), SetTextColor(Rgb(67, 97, 238)),
      Cell(Fixed(0), 10, "Agentic Pharma Research", true, false, false, true),
      SetDrawColor(Rgb(200, 200, 200)), DrawLine(10, 20, 200, 20), Ln(5) ]
  }

  function ChapterTitleOps(title: string): seq<DrawOp> {
    [ SetFont("Arial", "B", 16), SetFillColor(Rgb(240, 240, 255)), SetTextColor(Rgb(40, 40, 100)),
      Cell(Fixed(0), 12, title, true, true, false, false), Ln(4) ]
  }

  function SectionTitleOps(title: string): seq<DrawOp> {
    [ SetFont("Arial", "B", 14), SetTextColor(Rgb(60, 60, 150)),
      Cell(Fixed(0), 10, title, true, false, false, false), Ln(2) ]
  }

  function SubsectionTitleOps(title: string): seq<DrawOp> {
    [ SetFont("Arial", "B", 12), SetTextColor(Rgb(80, 80, 160)),
      Cell(Fixed(0), 8, title, true, false, false, false), Ln(1) ]
  }

  function BodyTextOps(text: string): seq<DrawOp> {
    [ SetFont("Arial", "", 11), SetTextColor(Rgb(40, 40, 40)), MultiCell(6, text, false, false), Ln(2) ]
  }

  /** One list entry: the label cell, the indent, and the stripped item text. */
  function ListItemOps(labelWidth: nat, mark: string, indent: nat, item: string): seq<DrawOp> {
    [ Cell(Fixed(labelWidth), 6, mark, false, false, false, false), MoveRight(indent), MultiCell(6, Strip(item), false, false) ]
  }

  /** The entries drawn by the loop of `bullet_list`, for the given items. */
  function BulletRows(items: seq<string>): (ops: seq<DrawOp>)
    ensures |ops| == 3 * |items|
  {
    if items == [] then []
    else BulletRows(items[..|items| - 1]) + ListItemOps(5, "-", 8, items[|items| - 1])
  }

  function BulletListOps(items: seq<string>): seq<DrawOp> {
    [SetFont("Arial", "", 11), SetTextColor(Rgb(40, 40, 40))] + BulletRows(items) + [Ln(2)]
  }

  /** The label `enumerate(items, 1)` gives the item at (0-based) position `k`. */
  function Label(k: nat): string {
    NatToString(k + 1) + "."
  }

  /** The entries drawn by the loop of `numbered_list`, for the given items. */
  function NumberedRows(items: seq<string>): (ops: seq<DrawOp>)
    ensures |ops| == 3 * |items|
  {
    if items == [] then []
    else NumberedRows(items[..|items| - 1]) + ListItemOps(8, Label(|items| - 1), 10, items[|items| - 1])
  }

  function NumberedListOps(items: seq<string>): seq<DrawOp> {
    [SetFont("Arial", "", 11), SetTextColor(Rgb(40, 40, 40))] + NumberedRows(items) + [Ln(2)]
  }

  function CodeRow(line: string): DrawOp {
    Cell(Fixed(0), 5, line, true, true, false, false)
  }

  /** The rows drawn by the loop of `code_block`, one per line. */
  function CodeRows(lines: seq<string>): (ops: seq<DrawOp>)
    ensures |ops| == |lines|
  {
    if lines == [] then [] else CodeRows(lines[..|lines| - 1]) + [CodeRow(lines[|lines| - 1])]
  }

  function CodeBlockOps(code: string): seq<DrawOp> {
    [SetFont("Courier", "", 9), SetFillColor(Rgb(245, 245, 245)), SetTextColor(Rgb(50, 50, 50))]
      + CodeRows(SplitLines(code)) + [Ln(3)]
  }

  /** The colours and icon of an info box. */
  datatype BoxStyle = BoxStyle(bg: Rgb, fg: Rgb, icon: string)

  /** `colors.get(box_type, colors["info"])`: the four known kinds, and the info style for any other. */
  function InfoStyle(kind: string): BoxStyle {
    if kind == "warning" then BoxStyle(Rgb(255, 245, 220), Rgb(160, 100, 0), "[!]")
    else if kind == "success" then BoxStyle(Rgb(220, 255, 220), Rgb(0, 120, 0), "[OK]")
    else if kind == "error" then BoxStyle(Rgb(255, 220, 220), Rgb(160, 0, 0), "[X]")
    else BoxStyle(Rgb(220, 240, 255), Rgb(0, 80, 160), "[i]")
  }

  function InfoBoxOps(text: string, kind: string): seq<DrawOp> {
    var style := InfoStyle(kind);
    [ SetFillColor(style.bg), SetTextColor(style.fg), SetFont("Arial", "B", 11),
      MultiCell(6, style.icon + " " + text, true, true), Ln(2) ]
  }

  /** One table row: a bordered, centred cell per item, all with the same fill, then a line break. */
  function RowOps(row: seq<string>, fill: bool): (ops: seq<DrawOp>)
    ensures |ops| == |row| + 1
  {
    seq(|row|, j requires 0 <= j < |row| => Cell(Column, 6, row[j], false, fill, true, true)) + [LnDefault]
  }

  /** The rows drawn by the data loop of `add_table`: row `k` is filled exactly when `k` is odd. */
  function DataRows(data: seq<seq<string>>): seq<DrawOp> {
    if data == [] then []
    else DataRows(data[..|data| - 1]) + RowOps(data[|data| - 1], (|data| - 1) % 2 == 1)
  }

  function HeaderCells(headers: seq<string>): (ops: seq<DrawOp>)
    ensures |ops| == |headers|
  {
    seq(|headers|, j requires 0 <= j < |headers| => Cell(Column, 7, headers[j], false, true, true, true))
  }

  /** What `add_table` draws before it computes the column width. */
  function TableStartOps(): seq<DrawOp> {
    [SetFont("Arial", "B", 10), SetFillColor(Rgb(200, 220, 255))]
  }

  function TableOps(headers: seq<string>, data: seq<seq<string>>): seq<DrawOp> {
    TableStartOps() + HeaderCells(headers) + [LnDefault, SetFont("Arial", "", 10), SetFillColor(Rgb(240, 240, 240))]
      + DataRows(data) + [Ln(3)]
  }

  /** The branch of the `save_pdf` loop taken for one element. */
  function ElementOps(e: Element): seq<DrawOp> {
    match e
    case H1(t) => ChapterTitleOps(t)
    case H2(t) => SectionTitleOps(t)
    case H3(t) => SubsectionTitleOps(t)
    case Text(t) => BodyTextOps(t)
    case BulletList(items) => BulletListOps(items)
    case NumberedList(items) => NumberedListOps(items)
    case Code(c) => CodeBlockOps(c)
    case InfoBox(t) => InfoBoxOps(t, "info")
    case Blank => [Ln(3)]
  }

  /** The traces of `xs`, one after the other. */
  function Flatten<T>(f: T -> seq<DrawOp>, xs: seq<T>): seq<DrawOp> {
    if xs == [] then [] else Flatten(f, xs[..|xs| - 1]) + f(xs[|xs| - 1])
  }

  function ElementsOps(es: seq<Element>): seq<DrawOp> {
    Flatten(ElementOps, es)
  }

  /** What `save_pdf` draws before the elements: the first page with its header, and auto page breaks. */
  function PageStartOps(): seq<DrawOp> {
    [AddPage] + HeaderOps() + [SetAutoPageBreak(25)]
  }

  // ---------------------------------------------------------------------------
  // One more entry at the end of a list, table or document

  lemma BulletRowsSnoc(items: seq<string>, k: nat)
    requires k < |items|
    ensures BulletRows(items[..k + 1]) == BulletRows(items[..k]) + ListItemOps(5, "-", 8, items[k])
  {
    assert items[..k + 1][..k] == items[..k];
  }

  lemma NumberedRowsSnoc(items: seq<string>, k: nat)
    requires k < |items|
    ensures NumberedRows(items[..k + 1]) == NumberedRows(items[..k]) + ListItemOps(8, Label(k), 10, items[k])
  {
    assert items[..k + 1][..k] == items[..k];
  }

  lemma CodeRowsSnoc(lines: seq<string>, k: nat)
    requires k < |lines|
    ensures CodeRows(lines[..k + 1]) == CodeRows(lines[..k]) + [CodeRow(lines[k])]
  {
    assert lines[..k + 1][..k] == lines[..k];
  }

  lemma DataRowsSnoc(data: seq<seq<string>>, k: nat)
    requires k < |data|
    ensures DataRows(data[..k + 1]) == DataRows(data[..k]) + RowOps(data[k], k % 2 == 1)
  {
    assert data[..k + 1][..k] == data[..k];
  }

  lemma ElementsOpsSnoc(es: seq<Element>, k: nat)
    requires k < |es|
    ensures ElementsOps(es[..k + 1]) == ElementsOps(es[..k]) + ElementOps(es[k])
  {
    assert es[..k + 1][..k] == es[..k];
  }

  // ---------------------------------------------------------------------------
  // The PDF object

  class Pdf {
    /** Every drawing call made on this object so far, in order. */
    var ops: seq<DrawOp>

    constructor()
      ensures ops == []
    {
      ops := [];
    }

    /** `add_page()`: FPDF starts a page and calls `header()`. */
    method AddFirstPage()
      modifies this
      ensures ops == old(ops) + [AddPage] + HeaderOps()
    {
      ops := ops + [AddPage] + HeaderOps();
    }

    method SetAutoPageBreakMargin(margin: nat)
      modifies this
      ensures ops == old(ops) + [SetAutoPageBreak(margin)]
    {
      ops := ops + [SetAutoPageBreak(margin)];
    }

    method ChapterTitle(title: string)
      modifies this
      ensures ops == old(ops) + ChapterTitleOps(title)
    {
      ops := ops + ChapterTitleOps(title);
    }

    method SectionTitle(title: string)
      modifies this
      ensures ops == old(ops) + SectionTitleOps(title)
    {
      ops := ops + SectionTitleOps(title);
    }

    method SubsectionTitle(title: string)
      modifies this
      ensures ops == old(ops) + SubsectionTitleOps(title)
    {
      ops := ops + SubsectionTitleOps(title);
    }

    method BodyText(text: string)
      modifies this
      ensures ops == old(ops) + BodyTextOps(text)
    {
      ops := ops + BodyTextOps(text);
    }

    /** `ln(h)`, as the dispatch does for a blank element. */
    method LineBreak(h: nat)
      modifies this
      ensures ops == old(ops) + [Ln(h)]
    {
      ops := ops + [Ln(h)];
    }

    method BulletList(items: seq<string>)
      modifies this
      ensures ops == old(ops) + BulletListOps(items)
    {
      ops := ops + [SetFont("Arial", "", 11), SetTextColor(Rgb(40, 40, 40))];
      ghost var start := ops;
      var k := 0;
      while k < |items|
        invariant k <= |items|
        invariant ops == start + BulletRows(items[..k])
      {
        BulletRowsSnoc(items, k);
        AppendAssoc(start, BulletRows(items[..k]), ListItemOps(5, "-", 8, items[k]));
        ops := ops + ListItemOps(5, "-", 8, items[k]);
        k := k + 1;
      }
      assert items[..k] == items;
      ops := ops + [Ln(2)];
    }

    method NumberedList(items: seq<string>)
      modifies this
      ensures ops == old(ops) + NumberedListOps(items)
    {
      ops := ops + [SetFont("Arial", "", 11), SetTextColor(Rgb(40, 40, 40))];
      ghost var start := ops;
      var k := 0;
      while k < |items|
        invariant k <= |items|
        invariant ops == start + NumberedRows(items[..k])
      {
        NumberedRowsSnoc(items, k);
        AppendAssoc(start, NumberedRows(items[..k]), ListItemOps(8, Label(k), 10, items[k]));
        ops := ops + ListItemOps(8, NatToString(k + 1) + ".", 10, items[k]);
        k := k + 1;
      }
      assert items[..k] == items;
      ops := ops + [Ln(2)];
    }

    method CodeBlock(code: string)
      modifies this
      ensures ops == old(ops) + CodeBlockOps(code)
    {
      ops := ops + [SetFont("Courier", "", 9), SetFillColor(Rgb(245, 245, 245)), SetTextColor(Rgb(50, 50, 50))];
      ghost var start := ops;
      var lines := SplitLines(code);
      var k := 0;
      while k < |lines|
        invariant k <= |lines|
        invariant ops == start + CodeRows(lines[..k])
      {
        CodeRowsSnoc(lines, k);
        AppendAssoc(start, CodeRows(lines[..k]), [CodeRow(lines[k])]);
        ops := ops + [Cell(Fixed(0), 5, lines[k], true, true, false, false)];
        k := k + 1;
      }
      assert lines[..k] == lines;
      ops := ops + [Ln(3)];
    }

    method InfoBox(text: string, kind: string)
      modifies this
      ensures ops == old(ops) + InfoBoxOps(text, kind)
    {
      var style := InfoStyle(kind);
      ops := ops + [SetFillColor(style.bg), SetTextColor(style.fg), SetFont("Arial", "B", 11)];
      ops := ops + [MultiCell(6, style.icon + " " + text, true, true), Ln(2)];
    }

    /** The body of the data loop of `add_table`: a cell per item of the row, then `ln()`. */
    method TableRow(row: seq<string>, fill: bool)
      modifies this
      ensures ops == old(ops) + RowOps(row, fill)
    {
      ghost var start := ops;
      var j := 0;
      while j < |row|
        invariant j <= |row|
        invariant ops == start + seq(j, m requires 0 <= m < j => Cell(Column, 6, row[m], false, fill, true, true))
      {
        ops := ops + [Cell(Column, 6, row[j], false, fill, true, true)];
        j := j + 1;
      }
      ops := ops + [LnDefault];
    }

    /** The header loop of `add_table`: one filled, bordered, centred cell per header. */
    method HeaderRow(headers: seq<string>)
      modifies this
      ensures ops == old(ops) + HeaderCells(headers)
    {
      ghost var start := ops;
      var h := 0;
      while h < |headers|
        invariant h <= |headers|
        invariant ops == start + HeaderCells(headers[..h])
      {
        ops := ops + [Cell(Column, 7, headers[h], false, true, true, true)];
        h := h + 1;
      }
      assert headers[..h] == headers;
    }

    /**
     * `add_table(headers, data)`. With no headers the column width divides by
     * zero: the call raises after setting the font and fill colour.
     */
    method AddTable(headers: seq<string>, data: seq<seq<string>>) returns (ok: bool)
      modifies this
      ensures ok <==> headers != []
      ensures ok ==> ops == old(ops) + TableOps(headers, data)
      ensures !ok ==> ops == old(ops) + TableStartOps()
    {
      ops := ops + [SetFont("Arial", "B", 10), SetFillColor(Rgb(200, 220, 255))];
      if headers == [] {
        return false;
      }
      HeaderRow(headers);
      ops := ops + [LnDefault, SetFont("Arial", "", 10), SetFillColor(Rgb(240, 240, 240))];
      ghost var body := ops;
      var fill := false;
      var k := 0;
      while k < |data|
        invariant k <= |data|
        invariant fill <==> k % 2 == 1
        invariant ops == body + DataRows(data[..k])
      {
        DataRowsSnoc(data, k);
        AppendAssoc(body, DataRows(data[..k]), RowOps(data[k], fill));
        TableRow(data[k], fill);
        fill := !fill;
        k := k + 1;
      }
      assert data[..k] == data;
      ops := ops + [Ln(3)];
      ok := true;
    }

    /** One branch of the element loop of `save_pdf`. */
    method RenderElement(e: Element)
      modifies this
      ensures ops == old(ops) + ElementOps(e)
    {
      match e {
        case H1(t) => ChapterTitle(t);
        case H2(t) => SectionTitle(t);
        case H3(t) => SubsectionTitle(t);
        case Text(t) => BodyText(t);
        case BulletList(items) => BulletList(items);
        case NumberedList(items) => NumberedList(items);
        case Code(c) => CodeBlock(c);
        case InfoBox(t) => InfoBox(t, "info");
        case Blank => LineBreak(3);
      }
    }

    /** The element loop of `save_pdf`. */
    method RenderElements(elements: seq<Element>)
      modifies this
      ensures ops == old(ops) + ElementsOps(elements)
    {
      ghost var start := ops;
      var k := 0;
      while k < |elements|
        invariant k <= |elements|
        invariant ops == start + ElementsOps(elements[..k])
      {
        ElementsOpsSnoc(elements, k);
        AppendAssoc(start, ElementsOps(elements[..k]), ElementOps(elements[k]));
        RenderElement(elements[k]);
        k := k + 1;
      }
      assert elements[..k] == elements;
    }
  }

  /**
   * `save_pdf(content)` in structured mode: a new PDF, its first page, and
   * one drawing branch per parsed element.
   */
  method SavePdf(content: string) returns (pdf: Pdf)
    ensures fresh(pdf)
    ensures pdf.ops == PageStartOps() + ElementsOps(Parse(SplitLines(content), 0))
  {
    pdf := new Pdf();
    pdf.AddFirstPage();
    pdf.SetAutoPageBreakMargin(25);
    assert pdf.ops == PageStartOps();
    var elements := ParseMarkdownStructure(content);
    pdf.RenderElements(elements);
  }
}
