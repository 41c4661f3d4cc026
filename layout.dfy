/**
 * The rendered layout of a PDF as the extractors walk it: pages hold
 * elements, an element that is a text container holds items, an item that is
 * a text line holds glyphs. A glyph is either a character (an `LTChar`, which
 * carries a font size) or an annotation (an `LTAnno`, a virtual space or
 * newline with no font). Everything else on a page (figures, images, rules)
 * and every non-line item of a container is an `Other` alternative.
 */
module Layout {
  import opened Wrappers

  datatype Glyph = Char(text: string, size: real) | Anno(text: string)

  type Line = seq<Glyph>

  datatype Item = TextLine(glyphs: Line) | OtherItem

  datatype Element = TextContainer(items: seq<Item>) | OtherElement

  type Page = seq<Element>

  type Document = seq<Page>

  /** `get_text()` of a text line: its glyphs' texts, concatenated. */
  function LineText(line: Line): string
  {
    if line == [] then "" else LineText(line[..|line| - 1]) + line[|line| - 1].text
  }

  /** The size of the first character glyph of the line, or `None` when it has none. */
  function FirstSize(line: Line): (r: Option<real>)
    ensures r.None? <==> forall i :: 0 <= i < |line| ==> line[i].Anno?
    ensures r.Some? ==> exists i :: && 0 <= i < |line| && line[i].Char? && line[i].size == r.value
                                    && forall j :: 0 <= j < i ==> line[j].Anno?
  {
    if line == [] then None
    else if line[0].Char? then Some(line[0].size)
    else
      var r := FirstSize(line[1..]);
      assert r.Some? ==> exists i :: && 0 <= i < |line[1..]| && line[1..][i].Char? && line[1..][i].size == r.value
                                     && forall j :: 0 <= j < i ==> line[1..][j].Anno?;
      r
  }

  predicate HasFontSize(line: Line)
  {
    FirstSize(line).Some?
  }

  /**
   * The scan both extractors run over a line: look at the glyphs in order and
   * stop at the first character glyph, taking its size.
   */
  method FirstCharSize(line: Line) returns (size: Option<real>)
    ensures size == FirstSize(line)
  {
    size := None;
    var i := 0;
    while i < |line|
      invariant 0 <= i <= |line|
      invariant size == None
      invariant FirstSize(line) == FirstSize(line[i..])
    {
      if line[i].Char? {
        size := Some(line[i].size);
        return;
      }
      assert line[i..][1..] == line[i + 1..];
      i := i + 1;
    }
  }

  /** The text lines of a sequence of container items, in order. */
  function ItemLines(items: seq<Item>): seq<Line>
  {
    if items == [] then []
    else
      var last := items[|items| - 1];
      ItemLines(items[..|items| - 1]) + (if last.TextLine? then [last.glyphs] else [])
  }

  /** The text lines of one page element: none unless it is a text container. */
  function ElementLines(element: Element): seq<Line>
  {
    match element
    case TextContainer(items) => ItemLines(items)
    case OtherElement => []
  }

  /** The text lines of a page, element by element. */
  function PageLines(page: Page): seq<Line>
  {
    if page == [] then [] else PageLines(page[..|page| - 1]) + ElementLines(page[|page| - 1])
  }

  /** The text lines of a document in page, then element, then line order. */
  function TextLines(doc: Document): seq<Line>
  {
    if doc == [] then [] else TextLines(doc[..|doc| - 1]) + PageLines(doc[|doc| - 1])
  }

  /** One more item of a prefix adds that item's line, if it is a text line. */
  lemma ItemLinesStep(items: seq<Item>, k: int)
    requires 0 <= k < |items|
    ensures ItemLines(items[..k + 1]) == ItemLines(items[..k]) + (if items[k].TextLine? then [items[k].glyphs] else [])
  {
    assert items[..k + 1][..k] == items[..k];
  }

  /** One more element of a prefix adds that element's lines. */
  lemma PageLinesStep(page: Page, e: int)
    requires 0 <= e < |page|
    ensures PageLines(page[..e + 1]) == PageLines(page[..e]) + ElementLines(page[e])
  {
    assert page[..e + 1][..e] == page[..e];
  }

  /** One more page of a prefix adds that page's lines. */
  lemma TextLinesStep(doc: Document, p: int)
    requires 0 <= p < |doc|
    ensures TextLines(doc[..p + 1]) == TextLines(doc[..p]) + PageLines(doc[p])
  {
    assert doc[..p + 1][..p] == doc[..p];
  }

  /** A document whose pages hold no text container has no text lines. */
  lemma {:induction false} NoContainersNoLines(doc: Document)
    requires forall p, e :: 0 <= p < |doc| && 0 <= e < |doc[p]| ==> doc[p][e].OtherElement?
    ensures TextLines(doc) == []
  {
    if doc != [] {
      NoContainersNoLines(doc[..|doc| - 1]);
      NoContainersPageNoLines(doc[|doc| - 1]);
    }
  }

  lemma {:induction false} NoContainersPageNoLines(page: Page)
    requires forall e :: 0 <= e < |page| ==> page[e].OtherElement?
    ensures PageLines(page) == []
  {
    if page != [] {
      NoContainersPageNoLines(page[..|page| - 1]);
    }
  }
}
