/**
 * `extract_text_with_font_size` of the main pipeline: one block per text
 * line that has a character glyph, holding the line's stripped text and the
 * size of its first character glyph, and beside the blocks a parallel list of
 * the same sizes.
 */
module Extraction {
  import opened Wrappers
  import opened Seqs
  import opened Text
  import opened Layout

  datatype TextBlock = TextBlock(text: string, fontSize: real)

  /** The block a sized line becomes. */
  function MakeBlock(line: Line): TextBlock
    requires HasFontSize(line)
  {
    TextBlock(Strip(LineText(line)), FirstSize(line).value)
  }

  /** The blocks of a sequence of lines: lines without a character glyph contribute nothing. */
  function LineBlocks(lines: seq<Line>): seq<TextBlock>
  {
    if lines == [] then []
    else
      var last := lines[|lines| - 1];
      LineBlocks(lines[..|lines| - 1]) + (if HasFontSize(last) then [MakeBlock(last)] else [])
  }

  /** The font-size column of a block list. */
  function SizesOf(blocks: seq<TextBlock>): (sizes: seq<real>)
    ensures |sizes| == |blocks|
  {
    seq(|blocks|, i requires 0 <= i < |blocks| => blocks[i].fontSize)
  }

  /**
   * The extractor's loop nest, outermost level: the pages in order; the
   * elements of each page are handled by `AppendPageLines`.
   */
  method ExtractTextWithFontSize(doc: Document) returns (blocks: seq<TextBlock>, sizes: seq<real>)
    ensures blocks == LineBlocks(TextLines(doc))
    ensures |sizes| == |blocks|
    ensures forall i :: 0 <= i < |blocks| ==> sizes[i] == blocks[i].fontSize
  {
    blocks, sizes := [], [];
    var p := 0;
    while p < |doc|
      invariant 0 <= p <= |doc|
      invariant blocks == LineBlocks(TextLines(doc[..p]))
      invariant sizes == SizesOf(blocks)
    {
      TextBlocksStep(doc, p);
      blocks, sizes := AppendPageLines(doc[p], blocks, sizes);
      p := p + 1;
    }
    assert doc[..p] == doc;
  }

  /** The middle loop of the extractor, over the elements of one page; only text containers are entered. */
  method AppendPageLines(page: Page, blocks0: seq<TextBlock>, sizes0: seq<real>)
    returns (blocks: seq<TextBlock>, sizes: seq<real>)
    requires sizes0 == SizesOf(blocks0)
    ensures blocks == blocks0 + LineBlocks(PageLines(page))
    ensures sizes == SizesOf(blocks)
  {
    blocks, sizes := blocks0, sizes0;
    var e := 0;
    while e < |page|
      invariant 0 <= e <= |page|
      invariant blocks == blocks0 + LineBlocks(PageLines(page[..e]))
      invariant sizes == SizesOf(blocks)
    {
      var element := page[e];
      ghost var done := LineBlocks(PageLines(page[..e]));
      PageBlocksStep(page, e);
      if element.TextContainer? {
        blocks, sizes := AppendContainerLines(element.items, blocks, sizes);
        ConcatAssoc(blocks0, done, LineBlocks(ItemLines(element.items)));
      } else {
        assert done + LineBlocks(ElementLines(element)) == done;
      }
      e := e + 1;
    }
    assert page[..e] == page;
  }

  /**
   * The innermost loop of the extractor, over the items of one text container:
   * a text line is scanned for its first character glyph and, when there is
   * one, appended as a block and its size appended to the size list.
   */
  method AppendContainerLines(items: seq<Item>, blocks0: seq<TextBlock>, sizes0: seq<real>)
    returns (blocks: seq<TextBlock>, sizes: seq<real>)
    requires sizes0 == SizesOf(blocks0)
    ensures blocks == blocks0 + LineBlocks(ItemLines(items))
    ensures sizes == SizesOf(blocks)
  {
    blocks, sizes := blocks0, sizes0;
    var k := 0;
    while k < |items|
      invariant 0 <= k <= |items|
      invariant blocks == blocks0 + LineBlocks(ItemLines(items[..k]))
      invariant sizes == SizesOf(blocks)
    {
      var item := items[k];
      ghost var done := LineBlocks(ItemLines(items[..k]));
      ItemBlocksStep(items, k);
      if item.TextLine? {
        var line := item.glyphs;
        var text := LineText(line);
        var size := FirstCharSize(line);
        if size.Some? {
          var block := TextBlock(Strip(text), size.value);
          assert block == MakeBlock(line);
          SizesSnoc(blocks, block);
          ConcatAssoc(blocks0, done, [block]);
          blocks := blocks + [block];
          sizes := sizes + [size.value];
        } else {
          assert done + [] == done;
        }
      } else {
        assert done + [] == done;
      }
      k := k + 1;
    }
    assert items[..k] == items;
  }

  /** One more page of the document adds that page's blocks. */
  lemma TextBlocksStep(doc: Document, p: int)
    requires 0 <= p < |doc|
    ensures LineBlocks(TextLines(doc[..p + 1])) == LineBlocks(TextLines(doc[..p])) + LineBlocks(PageLines(doc[p]))
  {
    TextLinesStep(doc, p);
    LineBlocksAppend(TextLines(doc[..p]), PageLines(doc[p]));
  }

  /** One more element of the page adds that element's blocks. */
  lemma PageBlocksStep(page: Page, e: int)
    requires 0 <= e < |page|
    ensures LineBlocks(PageLines(page[..e + 1])) == LineBlocks(PageLines(page[..e])) + LineBlocks(ElementLines(page[e]))
  {
    PageLinesStep(page, e);
    LineBlocksAppend(PageLines(page[..e]), ElementLines(page[e]));
  }

  /** One more item of the container adds the block of its line, if it is a text line with a character glyph. */
  lemma ItemBlocksStep(items: seq<Item>, k: int)
    requires 0 <= k < |items|
    ensures LineBlocks(ItemLines(items[..k + 1])) == LineBlocks(ItemLines(items[..k])) +
              (if items[k].TextLine? && HasFontSize(items[k].glyphs) then [MakeBlock(items[k].glyphs)] else [])
  {
    ItemLinesStep(items, k);
    if items[k].TextLine? {
      LineBlocksSnoc(ItemLines(items[..k]), items[k].glyphs);
    } else {
      assert ItemLines(items[..k]) + [] == ItemLines(items[..k]);
      assert LineBlocks(ItemLines(items[..k])) + [] == LineBlocks(ItemLines(items[..k]));
    }
  }

  lemma SizesSnoc(blocks: seq<TextBlock>, block: TextBlock)
    ensures SizesOf(blocks + [block]) == SizesOf(blocks) + [block.fontSize]
  {
  }

  lemma LineBlocksSnoc(lines: seq<Line>, line: Line)
    ensures LineBlocks(lines + [line]) == LineBlocks(lines) + (if HasFontSize(line) then [MakeBlock(line)] else [])
  {
    assert (lines + [line])[..|lines|] == lines;
  }

  /** Appending lines appends their blocks. */
  lemma {:induction false} LineBlocksAppend(a: seq<Line>, b: seq<Line>)
    ensures LineBlocks(a + b) == LineBlocks(a) + LineBlocks(b)
    decreases |b|
  {
    if b == [] {
      assert a + b == a;
    } else {
      assert (a + b)[..|a + b| - 1] == a + b[..|b| - 1];
      LineBlocksAppend(a, b[..|b| - 1]);
    }
  }

  /** A line with no character glyph can be dropped without changing the blocks. */
  lemma SizelessLineContributesNothing(a: seq<Line>, line: Line, b: seq<Line>)
    requires !HasFontSize(line)
    ensures LineBlocks(a + [line] + b) == LineBlocks(a + b)
  {
    LineBlocksAppend(a + [line], b);
    LineBlocksAppend(a, [line]);
    LineBlocksAppend(a, b);
    assert [line][..0] == [];
  }

  /**
   * The blocks are exactly the lines that have a character glyph, in their
   * original order, each turned into its block.
   */
  lemma {:induction false} LineBlocksAreSizedLines(lines: seq<Line>)
    ensures |LineBlocks(lines)| == |Filter(lines, HasFontSize)| == Count(lines, HasFontSize)
    ensures forall i :: 0 <= i < |LineBlocks(lines)| ==> LineBlocks(lines)[i] == MakeBlock(Filter(lines, HasFontSize)[i])
  {
    FilterLength(lines, HasFontSize);
    if lines != [] {
      var init, last := lines[..|lines| - 1], lines[|lines| - 1];
      LineBlocksAreSizedLines(init);
      var blocks, sized := LineBlocks(init), Filter(init, HasFontSize);
      if HasFontSize(last) {
        assert LineBlocks(lines) == blocks + [MakeBlock(last)];
        assert Filter(lines, HasFontSize) == sized + [last];
        forall i | 0 <= i < |LineBlocks(lines)|
          ensures LineBlocks(lines)[i] == MakeBlock(Filter(lines, HasFontSize)[i])
        {
          if i < |blocks| {
            assert LineBlocks(lines)[i] == blocks[i];
            assert Filter(lines, HasFontSize)[i] == sized[i];
          }
        }
      } else {
        assert LineBlocks(lines) == blocks + [];
        assert Filter(lines, HasFontSize) == sized + [];
      }
    }
  }

  /** Every block carries the stripped text and the first-character size of one of the lines. */
  lemma BlocksComeFromLines(lines: seq<Line>)
    ensures forall b :: b in LineBlocks(lines) ==>
              exists l :: l in lines && FirstSize(l) == Some(b.fontSize) && b.text == Strip(LineText(l))
  {
    LineBlocksAreSizedLines(lines);
    var sized := Filter(lines, HasFontSize);
    forall b | b in LineBlocks(lines)
      ensures exists l :: l in lines && FirstSize(l) == Some(b.fontSize) && b.text == Strip(LineText(l))
    {
      var i :| 0 <= i < |LineBlocks(lines)| && LineBlocks(lines)[i] == b;
      assert sized[i] in lines;
    }
  }
}
