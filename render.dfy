/** The render pass of `draw`: each cell becomes one grey RGBA pixel of a
    flat byte buffer, at offset `(i + j·W)·4` for column i and row j. */
module Render {
  import opened Grid

  /** Grey level of a cell: `constrain(floor((a - b)·255), 0, 255)`. */
  function Intensity(c: Cell): (r: int)
    ensures 0 <= r <= 255
    ensures r as real <= Constrain((c.a - c.b) * 255.0, 0.0, 255.0) < r as real + 1.0
  {
    Constrain(((c.a - c.b) * 255.0).Floor as real, 0.0, 255.0).Floor
  }

  /** The byte written to channel `ch` (0 red, 1 green, 2 blue, 3 alpha). */
  function Channel(c: Cell, ch: int): (r: int)
    requires 0 <= ch < 4
    ensures 0 <= r <= 255
    ensures ch == 3 ==> r == 255
    ensures ch < 3 ==> r == Intensity(c)
  {
    if ch == 3 then 255 else Intensity(c)
  }

  /** Offset in the pixel buffer of channel `ch` of cell (i, j) on a w×h
      canvas. Every cell addresses bytes inside the w·h·4 buffer. */
  function PixelIndex(w: nat, h: nat, i: int, j: int, ch: int): (r: int)
    requires 0 <= i < w && 0 <= j < h && 0 <= ch < 4
    ensures 0 <= r < w * h * 4
  {
    OffsetInRange(w, h, i, j, ch);
    (i + j * w) * 4 + ch
  }

  lemma OffsetInRange(w: nat, h: nat, i: int, j: int, ch: int)
    requires 0 <= i < w && 0 <= j < h && 0 <= ch < 4
    ensures 0 <= (i + j * w) * 4 + ch < w * h * 4
  {
    MultipleGap(w, j, h);
  }

  /** Distinct (cell, channel) pairs address distinct bytes, so the render
      loop never overwrites a byte it wrote earlier. */
  lemma PixelIndexInjective(w: nat, h: nat, i: int, j: int, ch: int, i': int, j': int, ch': int)
    requires 0 <= i < w && 0 <= j < h && 0 <= ch < 4 && 0 <= i' < w && 0 <= j' < h && 0 <= ch' < 4
    requires PixelIndex(w, h, i, j, ch) == PixelIndex(w, h, i', j', ch')
    ensures i == i' && j == j' && ch == ch'
  {
    var n, n' := i + j * w, i' + j' * w;
    assert n * 4 + ch == n' * 4 + ch';
    assert n == n' && ch == ch';
    if j != j' {
      var lo, hi := if j < j' then j else j', if j < j' then j' else j;
      MultipleGap(w, lo, hi);
      assert false;
    }
  }

  /** Every byte of every other cell lies outside the four bytes of cell
      (i, j). */
  lemma OtherCellsOtherBytes(w: nat, h: nat, i: int, j: int)
    requires 0 <= i < w && 0 <= j < h
    ensures forall p, q, ch :: 0 <= p < w && 0 <= q < h && 0 <= ch < 4 && (p != i || q != j) ==>
      PixelIndex(w, h, p, q, ch) < PixelIndex(w, h, i, j, 0) ||
      PixelIndex(w, h, i, j, 3) < PixelIndex(w, h, p, q, ch)
  {
    forall p, q, ch | 0 <= p < w && 0 <= q < h && 0 <= ch < 4 && (p != i || q != j)
      ensures PixelIndex(w, h, p, q, ch) < PixelIndex(w, h, i, j, 0) ||
              PixelIndex(w, h, i, j, 3) < PixelIndex(w, h, p, q, ch)
    {
      var k := PixelIndex(w, h, p, q, ch) - PixelIndex(w, h, i, j, 0);
      if 0 <= k < 4 {
        assert PixelIndex(w, h, p, q, ch) == PixelIndex(w, h, i, j, k);
        PixelIndexInjective(w, h, p, q, ch, i, j, k);
      }
    }
  }

  /** Two different multiples of w are at least w apart. */
  lemma MultipleGap(w: nat, lo: int, hi: int)
    requires lo < hi
    ensures hi * w - lo * w >= w
  {
    assert hi * w - lo * w == (hi - lo) * w;
    assert (hi - lo) * w == (hi - lo - 1) * w + w;
  }

  /** Every byte of the w·h·4 buffer is addressed by some cell and channel:
      a render pass over all cells writes the whole buffer. */
  lemma PixelIndexCovers(w: nat, h: nat, k: int)
    requires 0 <= k < w * h * 4
    ensures 0 <= k / 4 % w < w && 0 <= k / 4 / w < h
    ensures PixelIndex(w, h, k / 4 % w, k / 4 / w, k % 4) == k
  {
    var n := k / 4;
    assert w > 0;
    assert n < w * h;
    assert n == n / w * w + n % w;
    if h <= n / w {
      MultipleGap(w, h - 1, n / w);
    }
  }

  /** The grey levels named by the mapping's boundary cases. */
  lemma IntensityExamples()
    ensures Intensity(Cell(1.0, 0.0)) == 255
    ensures Intensity(Cell(0.0, 1.0)) == 0
    ensures Intensity(Cell(0.5, 0.5)) == 0
  {
  }
}
