/**
 * The diagnostic script: the word-level extractor, which turns every text
 * line with a character glyph into one block per whitespace-separated word,
 * each carrying the size of the line's first character glyph; the suffix of
 * the last hundred word blocks with its average size; and the whole
 * document's average size, which is 0 rather than undefined for no blocks.
 */
module WordExtraction {
  import opened Wrappers
  import opened Seqs
  import opened Text
  import opened Layout
  import opened Extraction
  import FontProfile

  /** One block per word, all with the same size. */
  function WordsAt(words: seq<string>, size: real): (r: seq<TextBlock>)
    ensures |r| == |words|
  {
    seq(|words|, i requires 0 <= i < |words| => TextBlock(words[i], size))
  }

  /** The blocks one line contributes: its words when it has a character glyph, nothing otherwise. */
  function LineWordBlocks(line: Line): seq<TextBlock>
  {
    if HasFontSize(line) then WordsAt(Split(LineText(line)), FirstSize(line).value) else []
  }

  /** The word blocks of a sequence of lines, line after line. */
  function WordBlocks(lines: seq<Line>): seq<TextBlock>
  {
    if lines == [] then []
    else WordBlocks(lines[..|lines| - 1]) + LineWordBlocks(lines[|lines| - 1])
  }

  /**
   * The word extractor's loop nest, outermost level: the pages in order; the
   * elements of each page are handled by `AppendPageWords`.
   */
  method ExtractTextWithFontSize(doc: Document) returns (blocks: seq<TextBlock>)
    ensures blocks == WordBlocks(TextLines(doc))
  {
    blocks := [];
    var p := 0;
    while p < |doc|
      invariant 0 <= p <= |doc|
      invariant blocks == WordBlocks(TextLines(doc[..p]))
    {
      TextWordsStep(doc, p);
      blocks := AppendPageWords(doc[p], blocks);
      p := p + 1;
    }
    assert doc[..p] == doc;
  }

  /** The middle loop, over the elements of one page; only text containers are entered. */
  method AppendPageWords(page: Page, blocks0: seq<TextBlock>) returns (blocks: seq<TextBlock>)
    ensures blocks == blocks0 + WordBlocks(PageLines(page))
  {
    blocks := blocks0;
    var e := 0;
    while e < |page|
      invariant 0 <= e <= |page|
      invariant blocks == blocks0 + WordBlocks(PageLines(page[..e]))
    {
      var element := page[e];
      ghost var done := WordBlocks(PageLines(page[..e]));
      PageWordsStep(page, e);
      if element.TextContainer? {
        blocks := AppendContainerWords(element.items, blocks);
        ConcatAssoc(blocks0, done, WordBlocks(ItemLines(element.items)));
      } else {
        assert done + WordBlocks(ElementLines(element)) == done;
      }
      e := e + 1;
    }
    assert page[..e] == page;
  }

  /**
   * The loop over the items of one text container: a text line is split into
   * words and scanned for its first character glyph; when it has one, every
   * word is appended as a block of that size.
   */
  method AppendContainerWords(items: seq<Item>, blocks0: seq<TextBlock>) returns (blocks: seq<TextBlock>)
    ensures blocks == blocks0 + WordBlocks(ItemLines(items))
  {
    blocks := blocks0;
    var k := 0;
    while k < |items|
      invariant 0 <= k <= |items|
      invariant blocks == blocks0 + WordBlocks(ItemLines(items[..k]))
    {
      var item := items[k];
      ghost var done := WordBlocks(ItemLines(items[..k]));
      ItemWordsStep(items, k);
      if item.TextLine? {
        blocks := AppendLineWords(item.glyphs, blocks);
        ConcatAssoc(blocks0, done, LineWordBlocks(item.glyphs));
      }
      k := k + 1;
    }
    assert items[..k] == items;
  }

  /**
   * The body of the item loop for a text line: the line is split into words
   * and scanned for its first character glyph; when it has one, every word is
   * appended as a block of that size.
   */
  method AppendLineWords(line: Line, blocks0: seq<TextBlock>) returns (blocks: seq<TextBlock>)
    ensures blocks == blocks0 + LineWordBlocks(line)
  {
    var words := Split(LineText(line));
    var size := FirstCharSize(line);
    LineWordBlocksCases(line);
    if size.Some? {
      blocks := AppendWords(words, size.value, blocks0);
    } else {
      blocks := blocks0;
      assert blocks0 + [] == blocks0;
    }
  }

  /** The innermost loop: one block per word, in order, all of the line's size. */
  method AppendWords(words: seq<string>, size: real, blocks0: seq<TextBlock>) returns (blocks: seq<TextBlock>)
    ensures blocks == blocks0 + WordsAt(words, size)
  {
    blocks := blocks0;
    var w := 0;
    while w < |words|
      invariant 0 <= w <= |words|
      invariant blocks == blocks0 + WordsAt(words[..w], size)
    {
      assert WordsAt(words[..w + 1], size) == WordsAt(words[..w], size) + [TextBlock(words[w], size)];
      blocks := blocks + [TextBlock(words[w], size)];
      w := w + 1;
    }
    assert words[..w] == words;
  }

  /** One more page of the document adds that page's word blocks. */
  lemma TextWordsStep(doc: Document, p: int)
    requires 0 <= p < |doc|
    ensures WordBlocks(TextLines(doc[..p + 1])) == WordBlocks(TextLines(doc[..p])) + WordBlocks(PageLines(doc[p]))
  {
    TextLinesStep(doc, p);
    WordBlocksAppend(TextLines(doc[..p]), PageLines(doc[p]));
  }

  /** One more element of the page adds that element's word blocks. */
  lemma PageWordsStep(page: Page, e: int)
    requires 0 <= e < |page|
    ensures WordBlocks(PageLines(page[..e + 1])) == WordBlocks(PageLines(page[..e])) + WordBlocks(ElementLines(page[e]))
  {
    PageLinesStep(page, e);
    WordBlocksAppend(PageLines(page[..e]), ElementLines(page[e]));
  }

  /** One more item of the container adds the word blocks of its line, if it is a text line. */
  lemma ItemWordsStep(items: seq<Item>, k: int)
    requires 0 <= k < |items|
    ensures items[k].TextLine? ==>
              WordBlocks(ItemLines(items[..k + 1])) == WordBlocks(ItemLines(items[..k])) + LineWordBlocks(items[k].glyphs)
    ensures !items[k].TextLine? ==> WordBlocks(ItemLines(items[..k + 1])) == WordBlocks(ItemLines(items[..k]))
  {
    ItemLinesStep(items, k);
    if items[k].TextLine? {
      WordBlocksSnoc(ItemLines(items[..k]), items[k].glyphs);
    } else {
      assert ItemLines(items[..k]) + [] == ItemLines(items[..k]);
    }
  }

  /** A line contributes its words at its size when it has a character glyph, and nothing otherwise. */
  lemma LineWordBlocksCases(line: Line)
    ensures HasFontSize(line) ==> LineWordBlocks(line) == WordsAt(Split(LineText(line)), FirstSize(line).value)
    ensures !HasFontSize(line) ==> LineWordBlocks(line) == []
  {
  }

  lemma WordBlocksSnoc(lines: seq<Line>, line: Line)
    ensures WordBlocks(lines + [line]) == WordBlocks(lines) + LineWordBlocks(line)
  {
    assert (lines + [line])[..|lines|] == lines;
  }

  /** Appending lines appends their word blocks. */
  lemma {:induction false} WordBlocksAppend(a: seq<Line>, b: seq<Line>)
    ensures WordBlocks(a + b) == WordBlocks(a) + WordBlocks(b)
    decreases |b|
  {
    if b == [] {
      assert a + b == a;
    } else {
      var init, last := b[..|b| - 1], b[|b| - 1];
      assert a + b == (a + init) + [last];
      assert b == init + [last];
      WordBlocksSnoc(a + init, last);
      WordBlocksSnoc(init, last);
      WordBlocksAppend(a, init);
      ConcatAssoc(WordBlocks(a), WordBlocks(init), LineWordBlocks(last));
    }
  }

  /**
   * The `i`-th word block holds a single non-empty, whitespace-free word of
   * the line `l` returned, and carries the size of that line's first
   * character glyph.
   */
  lemma {:induction false} WordBlockOrigin(lines: seq<Line>, i: int) returns (l: Line)
    requires 0 <= i < |WordBlocks(lines)|
    ensures IsWord(WordBlocks(lines)[i].text)
    ensures l in lines && FirstSize(l) == Some(WordBlocks(lines)[i].fontSize)
    ensures WordBlocks(lines)[i].text in Split(LineText(l))
    decreases |lines|
  {
    var init := lines[..|lines| - 1];
    var last := lines[|lines| - 1];
    var prev := WordBlocks(init);
    var tail := LineWordBlocks(last);
    assert WordBlocks(lines) == prev + tail;
    if i < |prev| {
      l := WordBlockOrigin(init, i);
      assert WordBlocks(lines)[i] == prev[i];
    } else {
      var j := i - |prev|;
      assert WordBlocks(lines)[i] == tail[j];
      var ws := Split(LineText(last));
      assert tail[j] == TextBlock(ws[j], FirstSize(last).value);
      l := last;
    }
  }

  /** The block is a word of one of the lines and has the size of that line's first character glyph. */
  predicate WordOfSomeLine(b: TextBlock, lines: seq<Line>)
  {
    exists l :: l in lines && FirstSize(l) == Some(b.fontSize) && b.text in Split(LineText(l))
  }

  /** Every word block is a word of some sized line, at that line's size. */
  lemma WordBlocksFromLines(lines: seq<Line>)
    ensures forall i :: 0 <= i < |WordBlocks(lines)| ==> IsWord(WordBlocks(lines)[i].text)
    ensures forall i :: 0 <= i < |WordBlocks(lines)| ==> WordOfSomeLine(WordBlocks(lines)[i], lines)
  {
    forall i | 0 <= i < |WordBlocks(lines)|
      ensures IsWord(WordBlocks(lines)[i].text)
      ensures WordOfSomeLine(WordBlocks(lines)[i], lines)
    {
      var l := WordBlockOrigin(lines, i);
    }
  }

  /** Each main-pipeline block broken into its words, each word keeping the block's size. */
  function BlockWords(blocks: seq<TextBlock>): seq<TextBlock>
  {
    if blocks == [] then []
    else
      var last := blocks[|blocks| - 1];
      BlockWords(blocks[..|blocks| - 1]) + WordsAt(Split(last.text), last.fontSize)
  }

  /**
   * The two extractors agree: the word blocks are the line blocks of the
   * main pipeline split into words, since splitting ignores the margins the
   * line extractor strips.
   */
  lemma {:induction false} WordBlocksSplitLineBlocks(lines: seq<Line>)
    ensures WordBlocks(lines) == BlockWords(LineBlocks(lines))
  {
    if lines != [] {
      var init := lines[..|lines| - 1];
      var last := lines[|lines| - 1];
      WordBlocksSplitLineBlocks(init);
      if HasFontSize(last) {
        var b := MakeBlock(last);
        assert LineBlocks(lines) == LineBlocks(init) + [b];
        BlockWordsSnoc(LineBlocks(init), b);
        LineWordsOfBlock(last);
        assert WordBlocks(lines) == WordBlocks(init) + LineWordBlocks(last);
      } else {
        assert LineBlocks(lines) == LineBlocks(init);
        assert WordBlocks(lines) == WordBlocks(init) + [];
      }
    }
  }

  lemma BlockWordsSnoc(blocks: seq<TextBlock>, b: TextBlock)
    ensures BlockWords(blocks + [b]) == BlockWords(blocks) + WordsAt(Split(b.text), b.fontSize)
  {
    assert (blocks + [b])[..|blocks|] == blocks;
  }

  /** A sized line's words are the words of its stripped block, at the block's size. */
  lemma LineWordsOfBlock(line: Line)
    requires HasFontSize(line)
    ensures LineWordBlocks(line) == WordsAt(Split(MakeBlock(line).text), MakeBlock(line).fontSize)
  {
    SplitStrip(LineText(line));
  }

  /** Python's `blocks[-100:]`: the last hundred blocks, or all of them when there are fewer. */
  function Last100(blocks: seq<TextBlock>): (r: seq<TextBlock>)
    ensures |r| == if |blocks| <= 100 then |blocks| else 100
    ensures r == blocks[|blocks| - |r|..]
  {
    if |blocks| <= 100 then blocks else blocks[|blocks| - 100..]
  }

  /** The mean size of the blocks, 0 when there are none. */
  function MeanSize(blocks: seq<TextBlock>): (avg: real)
    ensures blocks != [] ==> avg * (|blocks| as real) == FontProfile.Sum(SizesOf(blocks))
    ensures blocks == [] ==> avg == 0.0
  {
    if blocks == [] then 0.0 else FontProfile.Sum(SizesOf(blocks)) / (|blocks| as real)
  }

  /** `extract_last_100_words_with_font_size`: the last hundred word blocks and their mean size. */
  function ExtractLast100WordsWithFontSize(blocks: seq<TextBlock>): (r: (seq<TextBlock>, real))
    ensures r.0 == Last100(blocks)
    ensures r.0 == [] ==> r.1 == 0.0
    ensures r.0 != [] ==> r.1 * (|r.0| as real) == FontProfile.Sum(SizesOf(r.0))
  {
    var last := Last100(blocks);
    (last, MeanSize(last))
  }

  /** The debug script's `calculate_average_font_size`: 0 for no blocks, the mean size otherwise. */
  function CalculateAverageFontSize(blocks: seq<TextBlock>): (avg: real)
    ensures blocks == [] ==> avg == 0.0
    ensures blocks != [] ==> avg * (|blocks| as real) == FontProfile.Sum(SizesOf(blocks))
  {
    MeanSize(blocks)
  }

  /** For at most a hundred blocks, the last-hundred average is the whole-document average. */
  lemma ShortDocumentSameAverage(blocks: seq<TextBlock>)
    requires |blocks| <= 100
    ensures ExtractLast100WordsWithFontSize(blocks).1 == CalculateAverageFontSize(blocks)
  {
  }

  /**
   * The debug average agrees with the main pipeline's wherever the latter is
   * defined, and stands in with 0 where the main pipeline has no average.
   */
  lemma AverageAgreesWithMain(blocks: seq<TextBlock>)
    ensures blocks != [] ==> FontProfile.CalculateAverageFontSize(SizesOf(blocks)) == Some(CalculateAverageFontSize(blocks))
    ensures blocks == [] ==> FontProfile.CalculateAverageFontSize(SizesOf(blocks)).None? && CalculateAverageFontSize(blocks) == 0.0
  {
  }

  /** The last-hundred average lies between the smallest and the largest size of the suffix. */
  lemma Last100AverageBounds(blocks: seq<TextBlock>, lo: real, hi: real)
    requires blocks != []
    requires forall i :: 0 <= i < |blocks| ==> lo <= blocks[i].fontSize <= hi
    ensures lo <= ExtractLast100WordsWithFontSize(blocks).1 <= hi
  {
    var last := Last100(blocks);
    assert forall i :: 0 <= i < |last| ==> last[i] == blocks[|blocks| - |last| + i];
    FontProfile.AverageBounds(SizesOf(last), lo, hi);
  }
}
