/** The font object: four 128-entry metric arrays and the texture handles, filled
    once at construction and normalised in place, with the measuring and
    drawing operations that read them. */
module Text {
  import opened Geometry
  import opened Glyphs
  import opened Measure
  import opened Layout

  lemma ScaledPointwise(r: seq<real>, s: seq<real>, a: real)
    requires |r| == |s| && forall k :: 0 <= k < |s| ==> r[k] == s[k] * a
    ensures r == Scaled(s, a)
  {
  }

  class Font {
    const texLibrary: array<nat>
    const charHeights: array<real>
    const charWidths: array<real>
    const charAdvances: array<real>
    const charBearingY: array<real>
    const lineSpacing: real := 1.5
    const topBorder: real := 0.9
    const bottomBorder: real := -0.9
    const leftBorder: real := -0.9
    const rightBorder: real := 0.9

    /** Every array has one entry per code point, and the metric arrays are distinct. */
    ghost predicate Allocated()
      reads this
    {
      texLibrary.Length == GlyphCount &&
      charHeights.Length == GlyphCount && charWidths.Length == GlyphCount &&
      charAdvances.Length == GlyphCount && charBearingY.Length == GlyphCount &&
      charHeights != charWidths && charHeights != charAdvances && charHeights != charBearingY &&
      charWidths != charAdvances && charWidths != charBearingY && charAdvances != charBearingY
    }

    /** The metrics are normalised: the reference glyph has height 1. */
    ghost predicate Valid()
      reads this, charHeights
    {
      Allocated() && charHeights[RefGlyph as int] == 1.0
    }

    /** The current contents of the four metric arrays. */
    ghost function Metrics(): (m: FontMetrics)
      reads this, charHeights, charWidths, charAdvances, charBearingY
      requires Allocated()
      ensures WellFormed(m)
    {
      FontMetrics(charHeights[..], charWidths[..], charAdvances[..], charBearingY[..])
    }

    /** Line spacing and borders of the layout box. */
    function LayoutBox(): (f: Frame)
      ensures ValidFrame(f)
    {
      Frame(lineSpacing, topBorder, bottomBorder, leftBorder, rightBorder)
    }

    /** Records the raw metrics and texture of every glyph, then normalises. */
    constructor (raw: seq<RawGlyph>, textures: seq<nat>)
      requires |raw| == GlyphCount && |textures| == GlyphCount
      requires raw[RefGlyph as int].height != 0
      ensures Valid()
      ensures Metrics() == Normalized(FromRaw(raw))
      ensures texLibrary[..] == textures
      ensures fresh(texLibrary) && fresh(charHeights) && fresh(charWidths)
      ensures fresh(charAdvances) && fresh(charBearingY)
    {
      texLibrary := new nat[GlyphCount];
      charHeights := new real[GlyphCount];
      charWidths := new real[GlyphCount];
      charAdvances := new real[GlyphCount];
      charBearingY := new real[GlyphCount];
      new;
      for i := 0 to GlyphCount
        invariant forall k :: 0 <= k < i ==>
          texLibrary[k] == textures[k] &&
          charHeights[k] == raw[k].height as real && charWidths[k] == raw[k].width as real &&
          charAdvances[k] == raw[k].horiAdvance as real && charBearingY[k] == raw[k].horiBearingY as real
      {
        texLibrary[i] := textures[i];
        charHeights[i] := raw[i].height as real;
        charWidths[i] := raw[i].width as real;
        charAdvances[i] := raw[i].horiAdvance as real;
        charBearingY[i] := raw[i].horiBearingY as real;
      }
      assert Metrics() == FromRaw(raw);
      Normalize();
    }

    /** Rescales all four metric arrays in place by 1 / height of the reference glyph. */
    method Normalize()
      requires Allocated() && charHeights[RefGlyph as int] != 0.0
      modifies charHeights, charWidths, charAdvances, charBearingY
      ensures Valid()
      ensures Metrics() == Normalized(old(Metrics()))
    {
      ghost var h0, w0, ad0, b0 := charHeights[..], charWidths[..], charAdvances[..], charBearingY[..];
      var a := 1.0 / charHeights[RefGlyph as int];
      for i := 0 to GlyphCount
        invariant forall k :: 0 <= k < GlyphCount ==>
          (charHeights[k] == if k < i then h0[k] * a else h0[k]) &&
          (charWidths[k] == if k < i then w0[k] * a else w0[k]) &&
          (charAdvances[k] == if k < i then ad0[k] * a else ad0[k]) &&
          (charBearingY[k] == if k < i then b0[k] * a else b0[k])
      {
        charHeights[i] := charHeights[i] * a;
        charWidths[i] := charWidths[i] * a;
        charBearingY[i] := charBearingY[i] * a;
        charAdvances[i] := charAdvances[i] * a;
      }
      ScaledPointwise(charHeights[..], h0, a);
      ScaledPointwise(charWidths[..], w0, a);
      ScaledPointwise(charAdvances[..], ad0, a);
      ScaledPointwise(charBearingY[..], b0, a);
      assert Metrics() == Magnified(old(Metrics()), a) == Normalized(old(Metrics()));
      assert charHeights[RefGlyph as int] == Normalized(old(Metrics())).heights[RefGlyph as int];
    }

    /** The glyph's box from the cached metrics. */
    function Bounds(c: Ascii): (b: Box)
      reads this, charHeights, charWidths, charAdvances, charBearingY
      requires Allocated()
      ensures b == Glyphs.Bounds(Metrics(), c)
    {
      Box(R2(0.0, charBearingY[c as int]), R2(charWidths[c as int], charBearingY[c as int] - charHeights[c as int]))
    }

    /** The largest running per-line sum of advances. */
    method TextWidth(text: seq<Ascii>) returns (widest: real)
      requires Allocated()
      ensures widest == Measure.TextWidth(charAdvances[..], text)
    {
      var lines := 1;
      var lineWidth := 0.0;
      widest := 0.0;
      ghost var e: seq<Ascii> := [];
      assert text[..0] == e && Lines(e) == [e];
      TextWidthWithoutGlyphs(charAdvances[..], e);
      for i := 0 to |text|
        invariant lines == |Lines(text[..i])|
        invariant lineWidth == Sum(charAdvances[..], Last(Lines(text[..i])))
        invariant widest == Measure.TextWidth(charAdvances[..], text[..i])
      {
        assert text[..i + 1] == text[..i] + [text[i]];
        TextWidthSnoc(charAdvances[..], text[..i], text[i]);
        if text[i] == Newline {
          LinesSnocNewline(text[..i]);
          lines := lines + 1;
          lineWidth := 0.0;
        } else {
          LinesSnocGlyph(text[..i], text[i]);
          var last := Last(Lines(text[..i])) + [text[i]];
          assert last[..|last| - 1] == Last(Lines(text[..i]));
          lineWidth := lineWidth + charAdvances[text[i] as int];
          if lineWidth > widest {
            widest := lineWidth;
          }
        }
      }
      assert text[..|text|] == text;
    }

    /** Line count times line spacing times the reference glyph's height. */
    method TextHeight(text: seq<Ascii>) returns (height: real)
      requires Allocated()
      ensures height == Measure.TextHeight(lineSpacing, charHeights[RefGlyph as int], text)
    {
      var lines := 1;
      ghost var e: seq<Ascii> := [];
      assert text[..0] == e;
      for i := 0 to |text|
        invariant lines == NewlineCount(text[..i]) + 1
      {
        assert text[..i + 1] == text[..i] + [text[i]];
        assert multiset(text[..i + 1]) == multiset(text[..i]) + multiset{text[i]};
        if text[i] == Newline {
          lines := lines + 1;
        }
      }
      assert text[..|text|] == text;
      height := lines as real * lineSpacing * charHeights[RefGlyph as int];
    }

    /** Lays the text out in the box and returns the draws it issues, in order. */
    method Write(text: seq<Ascii>) returns (draws: seq<Draw>)
      requires Valid()
      ensures draws == Render(Metrics(), texLibrary[..], LayoutBox(), text)
    {
      var height := TextHeight(text);
      var width := TextWidth(text);
      TextHeightPositive(lineSpacing, charHeights[RefGlyph as int], text);
      var scale := FitScale(LayoutBox(), height, width);
      ghost var m, tex, f := Metrics(), texLibrary[..], LayoutBox();
      var advance := 0.0;
      var line := 1;
      draws := [];
      ghost var e: seq<Ascii> := [];
      assert text[..0] == e && Lines(e) == [e];
      for i := 0 to |text|
        invariant advance == Pen(m.advances, text[..i])
        invariant line == LineNumber(text[..i])
        invariant draws == Draws(m, tex, f, scale, text[..i])
      {
        assert text[..i + 1] == text[..i] + [text[i]];
        if text[i] == Newline {
          DrawsSnoc(m, tex, f, scale, text[..i], text[i]);
          PenAfterNewline(m.advances, text[..i]);
          line := line + 1;
          advance := 0.0;
        } else {
          PenAfterGlyph(m.advances, text[..i], text[i]);
          DrawsAfterGlyph(m, tex, f, scale, text[..i], text[i], advance, line);
          assert m.heights[RefGlyph as int] == charHeights[RefGlyph as int];
          var position := PenPoint(LayoutBox(), scale, charHeights[RefGlyph as int], advance, line);
          var box := Bounds(text[i]);
          assert box == Glyphs.Bounds(m, text[i]);
          draws := draws + [Draw(text[i], texLibrary[text[i] as int], Add(position, Scale(scale, box.topLeft)),
                                 Add(position, Scale(scale, box.bottomRight)))];
          advance := advance + charAdvances[text[i] as int];
        }
      }
      assert text[..|text|] == text;
    }
  }
}
