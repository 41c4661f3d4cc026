/**
 * Font profiling and the body-text filter of the main pipeline: the mean
 * of all extracted font sizes (undefined when there is none), and the
 * single-space join, in order, of the blocks whose size lies within the
 * tolerance of that mean, boundary included.
 */
module FontProfile {
  import opened Wrappers
  import opened Seqs
  import opened Text
  import opened Extraction

  /** The body-text tolerance, hard-coded in the filter, in font-size units. */
  const Tolerance: real := 1.0

  function Sum(xs: seq<real>): real
  {
    if xs == [] then 0.0 else Sum(xs[..|xs| - 1]) + xs[|xs| - 1]
  }

  function Abs(x: real): real
  {
    if x < 0.0 then -x else x
  }

  /** `calculate_average_font_size`: `None` when there are no sizes, otherwise their mean. */
  function CalculateAverageFontSize(sizes: seq<real>): (avg: Option<real>)
    ensures avg.None? <==> sizes == []
    ensures avg.Some? ==> avg.value * (|sizes| as real) == Sum(sizes)
  {
    if sizes == [] then None else Some(Sum(sizes) / (|sizes| as real))
  }

  /** The body-text test: the size is within the tolerance of the average, the boundary included. */
  predicate IsBodySize(size: real, avg: real)
  {
    Abs(size - avg) <= Tolerance
  }

  function IsBodyBlock(avg: real): TextBlock -> bool
  {
    (b: TextBlock) => IsBodySize(b.fontSize, avg)
  }

  /** The blocks the filter keeps. */
  function BodyBlocks(blocks: seq<TextBlock>, avg: real): (body: seq<TextBlock>)
    ensures |body| <= |blocks|
    ensures forall i :: 0 <= i < |body| ==> body[i] in blocks && IsBodySize(body[i].fontSize, avg)
  {
    Filter(blocks, IsBodyBlock(avg))
  }

  /** The text column of a block list. */
  function Texts(blocks: seq<TextBlock>): (texts: seq<string>)
    ensures |texts| == |blocks|
  {
    seq(|blocks|, i requires 0 <= i < |blocks| => blocks[i].text)
  }

  /** `filter_by_average_font_size`: no average gives no text; otherwise the body blocks' texts joined by single spaces. */
  function FilterByAverageFontSize(blocks: seq<TextBlock>, avg: Option<real>): (r: string)
    ensures avg.None? ==> r == ""
  {
    match avg
    case None => ""
    case Some(a) => Join(Texts(BodyBlocks(blocks, a)), " ")
  }

  /** The sum of values that all lie in `[lo, hi]` lies between `n * lo` and `n * hi`. */
  lemma {:induction false} SumBounds(xs: seq<real>, lo: real, hi: real)
    requires forall i :: 0 <= i < |xs| ==> lo <= xs[i] <= hi
    ensures (|xs| as real) * lo <= Sum(xs) <= (|xs| as real) * hi
  {
    if xs != [] {
      var init := xs[..|xs| - 1];
      SumBounds(init, lo, hi);
      assert (|xs| as real) * lo == (|init| as real) * lo + lo;
      assert (|xs| as real) * hi == (|init| as real) * hi + hi;
    }
  }

  /** The average lies between the smallest and the largest size. */
  lemma AverageBounds(sizes: seq<real>, lo: real, hi: real)
    requires sizes != []
    requires forall i :: 0 <= i < |sizes| ==> lo <= sizes[i] <= hi
    ensures lo <= CalculateAverageFontSize(sizes).value <= hi
  {
    SumBounds(sizes, lo, hi);
    var n := |sizes| as real;
    var a := CalculateAverageFontSize(sizes).value;
    assert a * n == Sum(sizes);
    assert (a - lo) * n >= 0.0;
    assert (hi - a) * n >= 0.0;
  }

  /**
   * The filter keeps exactly the blocks that pass the body-text test, in
   * their original order.
   */
  lemma BodyBlocksCharacterization(blocks: seq<TextBlock>, avg: real)
    ensures forall i :: 0 <= i < |BodyBlocks(blocks, avg)| ==> IsBodySize(BodyBlocks(blocks, avg)[i].fontSize, avg)
    ensures forall i :: 0 <= i < |blocks| && IsBodySize(blocks[i].fontSize, avg) ==> blocks[i] in BodyBlocks(blocks, avg)
    ensures |BodyBlocks(blocks, avg)| == Count(blocks, IsBodyBlock(avg))
    ensures IsSubsequence(BodyBlocks(blocks, avg), blocks)
  {
    FilterLength(blocks, IsBodyBlock(avg));
    var _ := FilterIsSubsequence(blocks, IsBodyBlock(avg));
  }

  /** A document set in one font size throughout keeps every block. */
  lemma UniformSizeKeepsEverything(blocks: seq<TextBlock>, size: real)
    requires blocks != []
    requires forall i :: 0 <= i < |blocks| ==> blocks[i].fontSize == size
    ensures CalculateAverageFontSize(SizesOf(blocks)) == Some(size)
    ensures FilterByAverageFontSize(blocks, CalculateAverageFontSize(SizesOf(blocks))) == Join(Texts(blocks), " ")
  {
    AverageBounds(SizesOf(blocks), size, size);
    FilterAllKept(blocks, IsBodyBlock(size));
  }

  /**
   * Sizes 10, 10, 10 and 24 average 13.5; every block is more than one unit
   * away from it, so nothing is kept: body text need not be the majority size.
   */
  lemma MinorityScenario(t1: string, t2: string, t3: string, t4: string)
    ensures
      var blocks := [TextBlock(t1, 10.0), TextBlock(t2, 10.0), TextBlock(t3, 10.0), TextBlock(t4, 24.0)];
      && CalculateAverageFontSize(SizesOf(blocks)) == Some(13.5)
      && FilterByAverageFontSize(blocks, CalculateAverageFontSize(SizesOf(blocks))) == ""
  {
    var blocks := [TextBlock(t1, 10.0), TextBlock(t2, 10.0), TextBlock(t3, 10.0), TextBlock(t4, 24.0)];
    var sizes := SizesOf(blocks);
    assert sizes == [10.0, 10.0, 10.0, 24.0];
    assert sizes[..3] == [10.0, 10.0, 10.0] && sizes[..3][..2] == [10.0, 10.0] && sizes[..3][..2][..1] == [10.0];
    assert Sum([10.0]) == 10.0 by { assert [10.0][..0] == []; }
    assert Sum([10.0, 10.0]) == 20.0;
    assert Sum([10.0, 10.0, 10.0]) == 30.0;
    assert Sum(sizes) == 54.0;
    var keep := IsBodyBlock(13.5);
    assert !keep(blocks[0]) && !keep(blocks[1]) && !keep(blocks[2]) && !keep(blocks[3]);
    assert Filter(blocks[..1], keep) == [] by { assert blocks[..1][..0] == []; }
    assert blocks[..2][..1] == blocks[..1] && blocks[..3][..2] == blocks[..2] && blocks[..3] == blocks[..|blocks| - 1];
    assert Filter(blocks[..2], keep) == [];
    assert Filter(blocks[..3], keep) == [];
    assert BodyBlocks(blocks, 13.5) == [];
  }

  /** The boundary is inclusive: sizes 10 and 12 average 11, and both blocks, exactly one unit away, are kept. */
  lemma BoundaryScenario(t1: string, t2: string)
    ensures
      var blocks := [TextBlock(t1, 10.0), TextBlock(t2, 12.0)];
      FilterByAverageFontSize(blocks, CalculateAverageFontSize(SizesOf(blocks))) == t1 + " " + t2
  {
    var blocks := [TextBlock(t1, 10.0), TextBlock(t2, 12.0)];
    assert SizesOf(blocks) == [10.0, 12.0];
    assert Sum([10.0]) == 10.0 by { assert [10.0][..0] == []; }
    assert [10.0, 12.0][..1] == [10.0];
    assert Sum([10.0, 12.0]) == 22.0;
    assert CalculateAverageFontSize(SizesOf(blocks)) == Some(11.0);
    var keep := IsBodyBlock(11.0);
    assert keep(blocks[0]) && keep(blocks[1]);
    assert Filter(blocks[..1], keep) == blocks[..1] by { assert blocks[..1][..0] == []; }
    assert blocks[..1] == blocks[..|blocks| - 1] == [blocks[0]];
    assert BodyBlocks(blocks, 11.0) == blocks;
    assert Texts(blocks) == [t1, t2];
    assert Join([t1, t2], " ") == t1 + " " + Join([t2], " ") by { assert [t1, t2][1..] == [t2]; }
  }
}
