/**
 * `layoutFourPerSheet` of pdf-extract-and-layout.js lays the pages of a
 * document out four to a portrait A4 sheet in a 2x2 grid, and writes the
 * label once, centred at the top of the first sheet. Coordinates are exact
 * reals; the PDF origin is the bottom-left corner of a sheet.
 */
module Composition {
  import opened Pdf

  const PageWidth: real := 595.28
  const PageHeight: real := 841.89
  /** The inset of a page inside its quarter of the sheet. */
  const Margin: real := 10.0
  const CellWidth: real := PageWidth / 2.0 - 20.0
  const CellHeight: real := PageHeight / 2.0 - 20.0
  const LabelSize: real := 24.0

  /** Bottom-left corner of quarter j: top-left, top-right, bottom-left,
      bottom-right. */
  function GridX(j: nat): real
    requires j < 4
  {
    if j == 0 || j == 2 then 0.0 else PageWidth / 2.0
  }

  function GridY(j: nat): real
    requires j < 4
  {
    if j < 2 then PageHeight / 2.0 else 0.0
  }

  /** An axis-aligned box on the sheet. */
  datatype Box = Box(x: real, y: real, width: real, height: real)

  /** The box a page in slot j is stretched into: slots 0 and 2 in the left
      half, 1 and 3 in the right half, 0 and 1 in the top half, 2 and 3 in
      the bottom half, each inset by the margin. */
  function Cell(j: nat): (b: Box)
    requires j < 4
    ensures b.x == (j % 2) as real * (PageWidth / 2.0) + Margin
    ensures b.y == (if j < 2 then PageHeight / 2.0 else 0.0) + Margin
    ensures 0.0 < b.x && b.x + b.width < PageWidth
    ensures 0.0 < b.y && b.y + b.height < PageHeight
    ensures b.width == CellWidth && b.height == CellHeight
  {
    Box(GridX(j) + Margin, GridY(j) + Margin, CellWidth, CellHeight)
  }

  predicate Disjoint(a: Box, b: Box) {
    a.x + a.width <= b.x || b.x + b.width <= a.x ||
    a.y + a.height <= b.y || b.y + b.height <= a.y
  }

  /** The four cells do not overlap. */
  lemma CellsDisjoint(i: nat, j: nat)
    requires i < 4 && j < 4 && i != j
    ensures Disjoint(Cell(i), Cell(j))
  {
  }

  /** Drawing page p into slot j. */
  function Place(p: Page, j: nat): Op
    requires j < 4
  {
    var b := Cell(j);
    DrawPage(p, b.x, b.y, b.width, b.height)
  }

  /** The label `name`, whose width at the label size is `nameWidth`. */
  function Label(name: string, nameWidth: real): (op: Op)
    ensures op.DrawText? && op.text == name && op.size == LabelSize
    ensures op.x + nameWidth / 2.0 == PageWidth / 2.0
    ensures op.y == PageHeight - 25.0
  {
    DrawText(name, (PageWidth - nameWidth) / 2.0, PageHeight - 25.0, LabelSize)
  }

  /** Number of sheets for `total` pages: one per group of up to four. */
  function SheetCount(total: nat): nat {
    (total + 3) / 4
  }

  /** The pages of the group that starts at index i. */
  function Group(pages: seq<Page>, i: nat): seq<Page>
    requires i < |pages|
  {
    pages[i..if i + 4 <= |pages| then i + 4 else |pages|]
  }

  /** One placement per page of the group, in slot order. */
  function Placements(group: seq<Page>): (ops: seq<Op>)
    requires |group| <= 4
  {
    seq(|group|, j requires 0 <= j < |group| => Place(group[j], j))
  }

  /** Placing one more page appends its placement in the next slot. */
  lemma PlacementsSnoc(group: seq<Page>, p: Page)
    requires |group| < 4
    ensures Placements(group + [p]) == Placements(group) + [Place(p, |group|)]
  {
    var a, b := Placements(group + [p]), Placements(group) + [Place(p, |group|)];
    assert |a| == |b|;
    forall j | 0 <= j < |a| ensures a[j] == b[j] {
      if j < |group| { assert (group + [p])[j] == group[j]; }
    }
  }

  /** The label operations of the sheet that starts at index i. */
  function LabelOps(i: nat, name: string, nameWidth: real): seq<Op> {
    if i == 0 && name != "" then [Label(name, nameWidth)] else []
  }

  /** The sheet holding the group that starts at index i. */
  function SheetAt(pages: seq<Page>, i: nat, name: string, nameWidth: real): Page
    requires i < |pages|
  {
    Sheet(PageWidth, PageHeight, Placements(Group(pages, i)) + LabelOps(i, name, nameWidth))
  }

  /** The document `layoutFourPerSheet` produces. */
  function Composed(pages: seq<Page>, name: string, nameWidth: real): seq<Page> {
    seq(SheetCount(|pages|), k requires 0 <= k < SheetCount(|pages|) => SheetAt(pages, 4 * k, name, nameWidth))
  }

  /** There are ceil(total/4) sheets: none for no pages, and just enough
      groups of four to hold every page. */
  lemma ComposedSheetCount(pages: seq<Page>, name: string, nameWidth: real)
    ensures var n := |Composed(pages, name, nameWidth)|;
      (n == 0 <==> |pages| == 0) && 4 * n - 4 < |pages| <= 4 * n
  {
  }

  /** Sheet k holds pages 4k .. min(4k+4, total)-1, page 4k+j in slot j,
      between one and four of them, four on every sheet but the last; after
      the placements comes the label, on sheet 0 only and only for a
      non-empty name. Nothing is drawn for a missing slot. */
  lemma ComposedSheet(pages: seq<Page>, name: string, nameWidth: real, k: nat)
    requires k < |Composed(pages, name, nameWidth)|
    ensures var s := Composed(pages, name, nameWidth)[k];
      var g := if 4 * k + 4 <= |pages| then 4 else |pages| - 4 * k;
      && 1 <= g <= 4
      && (k + 1 < |Composed(pages, name, nameWidth)| ==> g == 4)
      && s.Sheet? && s.width == PageWidth && s.height == PageHeight
      && |s.ops| == g + (if k == 0 && name != "" then 1 else 0)
      && (forall j :: 0 <= j < g ==> s.ops[j] == Place(pages[4 * k + j], j))
      && (k == 0 && name != "" ==> s.ops[g] == Label(name, nameWidth))
  {
  }

  /** Every input page lands exactly where its index says: page p is in
      slot p mod 4 of sheet p div 4. */
  lemma {:induction false} EveryPagePlaced(pages: seq<Page>, name: string, nameWidth: real, p: nat)
    requires p < |pages|
    ensures p / 4 < |Composed(pages, name, nameWidth)|
    ensures p % 4 < |Composed(pages, name, nameWidth)[p / 4].ops|
    ensures Composed(pages, name, nameWidth)[p / 4].ops[p % 4] == Place(pages[p], p % 4)
  {
    ComposedSheet(pages, name, nameWidth, p / 4);
  }

  /** Only sheet 0 can carry text, and only when the name is non-empty
      (FirstSheetLabelled gives the converse). */
  lemma LabelOnlyOnFirstSheet(pages: seq<Page>, name: string, nameWidth: real, k: nat, j: nat)
    requires k < |Composed(pages, name, nameWidth)|
    requires j < |Composed(pages, name, nameWidth)[k].ops|
    ensures Composed(pages, name, nameWidth)[k].ops[j].DrawText? ==> k == 0 && name != ""
  {
    ComposedSheet(pages, name, nameWidth, k);
  }

  /** With at least one page and a non-empty name, sheet 0 ends with the
      label. */
  lemma FirstSheetLabelled(pages: seq<Page>, name: string, nameWidth: real)
    requires pages != [] && name != ""
    ensures |Composed(pages, name, nameWidth)| > 0
    ensures var ops := Composed(pages, name, nameWidth)[0].ops;
      ops != [] && ops[|ops| - 1] == Label(name, nameWidth)
  {
    var sheet := Composed(pages, name, nameWidth)[0];
    assert sheet == SheetAt(pages, 0, name, nameWidth);
  }

  /** `layoutFourPerSheet`: the outer loop adds one sheet per group of four,
      the inner loop draws each page of the group into its slot, and the
      first sheet then receives the label when the name is non-empty. */
  method LayoutFourPerSheet(pdfDoc: Document, name: string, nameWidth: real) returns (outPdf: Document)
    ensures fresh(outPdf)
    ensures outPdf.pages == Composed(old(pdfDoc.pages), name, nameWidth)
  {
    var pages := pdfDoc.pages;
    var total := |pages|;
    ghost var composed := Composed(pages, name, nameWidth);
    outPdf := new Document.Create();
    var i := 0;
    while i < total
      invariant i % 4 == 0 && i / 4 <= |composed|
      invariant outPdf.pages == composed[..i / 4]
    {
      var sheet := outPdf.AddSheet(PageWidth, PageHeight);
      ghost var done := composed[..sheet];
      assert sheet == i / 4 && 4 * sheet == i;
      assert Placements(pages[i..i]) == [];
      var j := 0;
      while j < 4 && i + j < total
        invariant 0 <= j <= 4 && i + j <= total
        invariant outPdf.pages == done + [Sheet(PageWidth, PageHeight, Placements(pages[i..i + j]))]
      {
        ghost var before := outPdf.pages;
        outPdf.Draw(sheet, Place(pages[i + j], j));
        assert pages[i..i + j + 1] == pages[i..i + j] + [pages[i + j]];
        PlacementsSnoc(pages[i..i + j], pages[i + j]);
        assert outPdf.pages == done + [before[sheet].(ops := before[sheet].ops + [Place(pages[i + j], j)])];
        j := j + 1;
      }
      assert pages[i..i + j] == Group(pages, i);
      ghost var placed := Placements(Group(pages, i));
      assert outPdf.pages == done + [Sheet(PageWidth, PageHeight, placed)];
      if i == 0 && name != "" {
        ghost var before := outPdf.pages;
        outPdf.Draw(sheet, Label(name, nameWidth));
        assert outPdf.pages == done + [before[sheet].(ops := before[sheet].ops + [Label(name, nameWidth)])];
      } else {
        assert placed + LabelOps(i, name, nameWidth) == placed;
      }
      assert outPdf.pages == done + [Sheet(PageWidth, PageHeight, placed + LabelOps(i, name, nameWidth))];
      assert sheet < |composed| by {
        assert i < total;
      }
      assert composed[sheet] == SheetAt(pages, i, name, nameWidth);
      assert outPdf.pages == done + [composed[sheet]];
      assert composed[..sheet + 1] == done + [composed[sheet]];
      i := i + 4;
    }
    assert i / 4 == |composed|;
    assert composed[..i / 4] == composed;
  }
}
