/** The per-glyph metric cache of the font: raw metrics as the rasteriser reports
    them, their normalisation against the reference glyph '{', and glyph boxes. */
module Glyphs {
  import opened Geometry

  /** Number of cached code points. */
  const GlyphCount: nat := 128

  /** A character that indexes the 128-entry metric arrays. */
  type Ascii = c: char | c as int < GlyphCount witness 'a'

  /** The reference glyph whose height becomes the unit of length. */
  const RefGlyph: Ascii := '{'

  /** Metrics of one glyph as the rasteriser reports them (26.6 fixed-point integers). */
  datatype RawGlyph = RawGlyph(width: int, height: int, horiAdvance: int, horiBearingY: int)

  /** The four parallel metric arrays, indexed by code point. */
  datatype FontMetrics = FontMetrics(heights: seq<real>, widths: seq<real>, advances: seq<real>, bearingY: seq<real>)

  predicate WellFormed(m: FontMetrics)
  {
    |m.heights| == GlyphCount && |m.widths| == GlyphCount &&
    |m.advances| == GlyphCount && |m.bearingY| == GlyphCount
  }

  /** The metrics before normalisation, converted to reals. */
  function FromRaw(raw: seq<RawGlyph>): (m: FontMetrics)
    requires |raw| == GlyphCount
    ensures WellFormed(m)
    ensures forall i :: 0 <= i < GlyphCount ==>
      m.heights[i] == raw[i].height as real && m.widths[i] == raw[i].width as real &&
      m.advances[i] == raw[i].horiAdvance as real && m.bearingY[i] == raw[i].horiBearingY as real
  {
    FontMetrics(seq(GlyphCount, i requires 0 <= i < GlyphCount => raw[i].height as real),
                seq(GlyphCount, i requires 0 <= i < GlyphCount => raw[i].width as real),
                seq(GlyphCount, i requires 0 <= i < GlyphCount => raw[i].horiAdvance as real),
                seq(GlyphCount, i requires 0 <= i < GlyphCount => raw[i].horiBearingY as real))
  }

  function Scaled(s: seq<real>, a: real): (r: seq<real>)
    ensures |r| == |s| && forall i :: 0 <= i < |s| ==> r[i] == s[i] * a
  {
    seq(|s|, i requires 0 <= i < |s| => s[i] * a)
  }

  /** Every metric multiplied by the same factor: an exact rescaling of the raw metrics. */
  function Magnified(m: FontMetrics, k: real): FontMetrics
  {
    FontMetrics(Scaled(m.heights, k), Scaled(m.widths, k), Scaled(m.advances, k), Scaled(m.bearingY, k))
  }

  /** All four arrays scaled by 1 / height of the reference glyph. */
  function Normalized(m: FontMetrics): (r: FontMetrics)
    requires WellFormed(m) && m.heights[RefGlyph as int] != 0.0
    ensures WellFormed(r)
    ensures r.heights[RefGlyph as int] == 1.0
    ensures forall i :: 0 <= i < GlyphCount ==>
      r.heights[i] * m.heights[RefGlyph as int] == m.heights[i] &&
      r.widths[i] * m.heights[RefGlyph as int] == m.widths[i] &&
      r.advances[i] * m.heights[RefGlyph as int] == m.advances[i] &&
      r.bearingY[i] * m.heights[RefGlyph as int] == m.bearingY[i]
  {
    Magnified(m, 1.0 / m.heights[RefGlyph as int])
  }

  lemma ScaledThenDivided(s: seq<real>, k: real, h: real)
    requires k != 0.0 && h != 0.0
    ensures Scaled(Scaled(s, k), 1.0 / (h * k)) == Scaled(s, 1.0 / h)
  {
    var lhs, rhs := Scaled(Scaled(s, k), 1.0 / (h * k)), Scaled(s, 1.0 / h);
    forall i | 0 <= i < |s|
      ensures lhs[i] == rhs[i]
    {
      calc {
        (s[i] * k) * (1.0 / (h * k));
        s[i] * (k / (h * k));
        { assert k / (h * k) == 1.0 / h; }
        s[i] * (1.0 / h);
      }
    }
    assert lhs == rhs;
  }

  /** The normalised metrics do not change under an exact rescaling: multiplying
      every raw metric by the same non-zero factor yields the same result. */
  lemma NormalizedSizeIndependent(m: FontMetrics, k: real)
    requires WellFormed(m) && m.heights[RefGlyph as int] != 0.0 && k != 0.0
    ensures WellFormed(Magnified(m, k))
    ensures Magnified(m, k).heights[RefGlyph as int] != 0.0
    ensures Normalized(Magnified(m, k)) == Normalized(m)
  {
    var h := m.heights[RefGlyph as int];
    assert Magnified(m, k).heights[RefGlyph as int] == h * k;
    ScaledThenDivided(m.heights, k, h);
    ScaledThenDivided(m.widths, k, h);
    ScaledThenDivided(m.advances, k, h);
    ScaledThenDivided(m.bearingY, k, h);
  }

  /** A glyph's box relative to its pen position: two corners, top-left and bottom-right. */
  datatype Box = Box(topLeft: R2, bottomRight: R2)

  function Bounds(m: FontMetrics, c: Ascii): (b: Box)
    requires WellFormed(m)
    ensures b.topLeft.x == 0.0
    ensures b.topLeft.y == m.bearingY[c as int]
    ensures b.bottomRight.x - b.topLeft.x == m.widths[c as int]
    ensures b.topLeft.y - b.bottomRight.y == m.heights[c as int]
  {
    Box(R2(0.0, m.bearingY[c as int]), R2(m.widths[c as int], m.bearingY[c as int] - m.heights[c as int]))
  }
}
