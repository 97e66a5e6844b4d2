/** Laying text out in the fixed box: the uniform fit-scale, each glyph's pen
    position, and the draw records the renderer issues, in text order. */
module Layout {
  import opened Geometry
  import opened Glyphs
  import opened Measure

  /** Line spacing and the four borders of the layout box. */
  datatype Frame = Frame(lineSpacing: real, top: real, bottom: real, left: real, right: real)

  predicate ValidFrame(f: Frame)
  {
    f.lineSpacing > 0.0 && f.bottom < f.top && f.left < f.right
  }

  /** One glyph draw: which glyph, the texture bound for it, and the quad's two corners. */
  datatype Draw = Draw(glyph: Ascii, texture: nat, topLeft: R2, bottomRight: R2)

  function Min(a: real, b: real): real
  {
    if b < a then b else a
  }

  /** The uniform scale: the smaller of box height over text height and box width
      over text width. A zero width makes the width ratio infinite, so the
      height ratio is taken. */
  function FitScale(f: Frame, height: real, width: real): (c: real)
    requires ValidFrame(f) && height > 0.0 && width >= 0.0
    ensures c > 0.0
    ensures c * height <= f.top - f.bottom
    ensures c * width <= f.right - f.left
    ensures c * height == f.top - f.bottom || c * width == f.right - f.left
  {
    var byHeight := (f.top - f.bottom) / height;
    if width == 0.0 then byHeight
    else
      var byWidth := (f.right - f.left) / width;
      assert byWidth * width == f.right - f.left;
      if byWidth < byHeight then
        assert byWidth * height <= byHeight * height;
        byWidth
      else
        assert byHeight * width <= byWidth * width;
        byHeight
  }

  /** No larger scale keeps both measures inside the box. */
  lemma FitScaleIsLargest(f: Frame, height: real, width: real, k: real)
    requires ValidFrame(f) && height > 0.0 && width >= 0.0
    requires k * height <= f.top - f.bottom && k * width <= f.right - f.left
    ensures k <= FitScale(f, height, width)
  {
  }

  /** The sum of the advances of the glyphs after the last line break of pre:
      how far along its line the next glyph's pen stands. */
  function Pen(adv: seq<real>, pre: seq<Ascii>): real
    requires |adv| == GlyphCount
  {
    Sum(adv, Last(Lines(pre)))
  }

  /** The line, counted from 1, on which the glyph after pre is drawn. */
  function LineNumber(pre: seq<Ascii>): nat
  {
    |Lines(pre)|
  }

  /** The box's top-left corner moved right by the scaled pen advance and down by
      the scaled spacing of the given line number. */
  function PenPoint(f: Frame, scale: real, refHeight: real, advance: real, line: nat): (p: R2)
    ensures p.x - f.left == scale * advance
    ensures f.top - p.y == line as real * (scale * f.lineSpacing * refHeight)
  {
    Add(R2(f.left, f.top), Scale(scale, R2(advance, -f.lineSpacing * refHeight * line as real)))
  }

  /** The pen position of the glyph that follows the text pre. */
  function Anchor(m: FontMetrics, f: Frame, scale: real, pre: seq<Ascii>): (p: R2)
    requires WellFormed(m)
    ensures p.x == f.left + scale * Sum(m.advances, Last(Lines(pre)))
    ensures f.top - p.y == (NewlineCount(pre) + 1) as real * (scale * f.lineSpacing * m.heights[RefGlyph as int])
  {
    LineCount(pre);
    PenPoint(f, scale, m.heights[RefGlyph as int], Pen(m.advances, pre), LineNumber(pre))
  }

  /** The first line's pen starts at the left border, one line's spacing below the top. */
  lemma AnchorOfFirstGlyph(m: FontMetrics, f: Frame, scale: real)
    requires WellFormed(m)
    ensures Anchor(m, f, scale, []) == R2(f.left, f.top - scale * f.lineSpacing * m.heights[RefGlyph as int])
  {
  }

  /** After a glyph the pen moves on by its advance, on the same line. */
  lemma PenAfterGlyph(adv: seq<real>, pre: seq<Ascii>, c: Ascii)
    requires |adv| == GlyphCount && c != Newline
    ensures Pen(adv, pre + [c]) == Pen(adv, pre) + adv[c as int]
    ensures LineNumber(pre + [c]) == LineNumber(pre)
  {
    LinesSnocGlyph(pre, c);
    var last := Last(Lines(pre)) + [c];
    assert last[..|last| - 1] == Last(Lines(pre));
  }

  /** After a line break the pen is back at 0, one line further down. */
  lemma PenAfterNewline(adv: seq<real>, pre: seq<Ascii>)
    requires |adv| == GlyphCount
    ensures Pen(adv, pre + [Newline]) == 0.0
    ensures LineNumber(pre + [Newline]) == LineNumber(pre) + 1
  {
    LinesSnocNewline(pre);
  }

  /** After a glyph the pen moves right by its scaled advance and stays on the line. */
  lemma AnchorAfterGlyph(m: FontMetrics, f: Frame, scale: real, pre: seq<Ascii>, c: Ascii)
    requires WellFormed(m) && c != Newline
    ensures Anchor(m, f, scale, pre + [c]).x == Anchor(m, f, scale, pre).x + scale * m.advances[c as int]
    ensures Anchor(m, f, scale, pre + [c]).y == Anchor(m, f, scale, pre).y
  {
    PenAfterGlyph(m.advances, pre, c);
  }

  /** The pen point at the start of the next line is one scaled line spacing lower, at the left border. */
  lemma PenPointNextLine(f: Frame, scale: real, refHeight: real, advance: real, line: nat)
    ensures PenPoint(f, scale, refHeight, 0.0, line + 1).x == f.left
    ensures PenPoint(f, scale, refHeight, 0.0, line + 1).y ==
            PenPoint(f, scale, refHeight, advance, line).y - scale * f.lineSpacing * refHeight
  {
    var n := line as real;
    var u := f.lineSpacing * refHeight;
    assert scale * (-u * (n + 1.0)) == scale * (-u * n) - scale * u;
  }

  /** After a line break the pen returns to the left border, one scaled line lower. */
  lemma AnchorAfterNewline(m: FontMetrics, f: Frame, scale: real, pre: seq<Ascii>)
    requires WellFormed(m)
    ensures Anchor(m, f, scale, pre + [Newline]).x == f.left
    ensures Anchor(m, f, scale, pre + [Newline]).y ==
            Anchor(m, f, scale, pre).y - scale * f.lineSpacing * m.heights[RefGlyph as int]
  {
    PenAfterNewline(m.advances, pre);
    PenPointNextLine(f, scale, m.heights[RefGlyph as int], Pen(m.advances, pre), LineNumber(pre));
  }

  /** The draw of glyph c placed after the text pre. */
  function DrawAt(m: FontMetrics, tex: seq<nat>, f: Frame, scale: real, pre: seq<Ascii>, c: Ascii): (d: Draw)
    requires WellFormed(m) && |tex| == GlyphCount
    ensures d.glyph == c && d.texture == tex[c as int]
    ensures d.topLeft.x == Anchor(m, f, scale, pre).x
    ensures d.topLeft.y == Anchor(m, f, scale, pre).y + scale * m.bearingY[c as int]
    ensures d.bottomRight.x - d.topLeft.x == scale * m.widths[c as int]
    ensures d.topLeft.y - d.bottomRight.y == scale * m.heights[c as int]
  {
    var p := Anchor(m, f, scale, pre);
    var b := Bounds(m, c);
    assert scale * b.bottomRight.y == scale * m.bearingY[c as int] - scale * m.heights[c as int];
    Draw(c, tex[c as int], Add(p, Scale(scale, b.topLeft)), Add(p, Scale(scale, b.bottomRight)))
  }

  /** The draws of the whole text at a given scale: one per non-'\n' character. */
  function Draws(m: FontMetrics, tex: seq<nat>, f: Frame, scale: real, text: seq<Ascii>): (r: seq<Draw>)
    requires WellFormed(m) && |tex| == GlyphCount
    ensures |r| <= |text|
    ensures forall j :: 0 <= j < |r| ==> r[j].glyph != Newline && r[j].texture == tex[r[j].glyph as int]
  {
    if text == [] then []
    else
      var pre := text[..|text| - 1];
      assert text == pre + [Last(text)];
      Draws(m, tex, f, scale, pre) + (if Last(text) == Newline then [] else [DrawAt(m, tex, f, scale, pre, Last(text))])
  }

  /** One more character adds its draw, unless it is a '\n'. */
  lemma DrawsSnoc(m: FontMetrics, tex: seq<nat>, f: Frame, scale: real, text: seq<Ascii>, c: Ascii)
    requires WellFormed(m) && |tex| == GlyphCount
    ensures Draws(m, tex, f, scale, text + [c]) ==
      Draws(m, tex, f, scale, text) + (if c == Newline then [] else [DrawAt(m, tex, f, scale, text, c)])
  {
  }

  /** The draw a glyph c after pre appends, computed from the pen advance and line
      number reached after pre and from the glyph's box, as the renderer does. */
  lemma DrawsAfterGlyph(m: FontMetrics, tex: seq<nat>, f: Frame, scale: real, pre: seq<Ascii>, c: Ascii,
                        advance: real, line: nat)
    requires WellFormed(m) && |tex| == GlyphCount && c != Newline
    requires advance == Pen(m.advances, pre) && line == LineNumber(pre)
    ensures var p := PenPoint(f, scale, m.heights[RefGlyph as int], advance, line);
            Draws(m, tex, f, scale, pre + [c]) == Draws(m, tex, f, scale, pre) +
              [Draw(c, tex[c as int], Add(p, Scale(scale, Bounds(m, c).topLeft)), Add(p, Scale(scale, Bounds(m, c).bottomRight)))]
  {
    DrawsSnoc(m, tex, f, scale, pre, c);
  }

  /** The positions of the non-'\n' characters of the text, in increasing order. */
  function GlyphPositions(text: seq<Ascii>): (r: seq<nat>)
    ensures forall j :: 0 <= j < |r| ==> r[j] < |text| && text[r[j]] != Newline
    ensures forall j, k :: 0 <= j < k < |r| ==> r[j] < r[k]
  {
    if text == [] then []
    else
      var pre := text[..|text| - 1];
      GlyphPositions(pre) + (if Last(text) == Newline then [] else [|text| - 1])
  }

  /** Every non-'\n' character has its position listed. */
  lemma {:induction false} GlyphPositionsComplete(text: seq<Ascii>, p: nat)
    requires p < |text| && text[p] != Newline
    ensures p in GlyphPositions(text)
  {
    var pre := text[..|text| - 1];
    if p < |pre| {
      GlyphPositionsComplete(pre, p);
    }
  }

  /** As many positions as the text has characters other than '\n'. */
  lemma {:induction false} GlyphPositionsCount(text: seq<Ascii>)
    ensures |GlyphPositions(text)| == |text| - NewlineCount(text)
  {
    if text != [] {
      var pre := text[..|text| - 1];
      GlyphPositionsCount(pre);
      assert text == pre + [Last(text)];
      assert multiset(text) == multiset(pre) + multiset{Last(text)};
    }
  }

  /** The j-th draw is the draw of the j-th glyph, placed after the characters before it. */
  lemma {:induction false} DrawsInTextOrder(m: FontMetrics, tex: seq<nat>, f: Frame, scale: real, text: seq<Ascii>)
    requires WellFormed(m) && |tex| == GlyphCount
    ensures |Draws(m, tex, f, scale, text)| == |GlyphPositions(text)|
    ensures forall j :: 0 <= j < |GlyphPositions(text)| ==>
      Draws(m, tex, f, scale, text)[j] ==
      DrawAt(m, tex, f, scale, text[..GlyphPositions(text)[j]], text[GlyphPositions(text)[j]])
  {
    if text != [] {
      var pre := text[..|text| - 1];
      DrawsInTextOrder(m, tex, f, scale, pre);
      var ps, ps' := GlyphPositions(pre), GlyphPositions(text);
      var ds, ds' := Draws(m, tex, f, scale, pre), Draws(m, tex, f, scale, text);
      forall j | 0 <= j < |ps'|
        ensures ds'[j] == DrawAt(m, tex, f, scale, text[..ps'[j]], text[ps'[j]])
      {
        if j < |ps| {
          assert ps'[j] == ps[j] && ds'[j] == ds[j];
          assert text[..ps[j]] == pre[..ps[j]];
        } else {
          assert ps'[j] == |pre|;
        }
      }
    }
  }

  /** Two consecutive glyphs on one line: the second is drawn one scaled advance of
      the first further right, on the same line. */
  lemma SecondGlyphOnLine(m: FontMetrics, tex: seq<nat>, f: Frame, scale: real, a: Ascii, b: Ascii)
    requires WellFormed(m) && |tex| == GlyphCount && a != Newline && b != Newline
    ensures |Draws(m, tex, f, scale, [a, b])| == 2
    ensures Draws(m, tex, f, scale, [a, b])[0].glyph == a && Draws(m, tex, f, scale, [a, b])[1].glyph == b
    ensures Anchor(m, f, scale, [a]).x - Anchor(m, f, scale, []).x == scale * m.advances[a as int]
    ensures Draws(m, tex, f, scale, [a, b])[1].topLeft.x - Draws(m, tex, f, scale, [a, b])[0].topLeft.x ==
            scale * m.advances[a as int]
  {
    var e: seq<Ascii> := [];
    assert [a, b][..1] == [a] && [a][..0] == e && e + [a] == [a];
    assert Draws(m, tex, f, scale, [a]) == [DrawAt(m, tex, f, scale, e, a)];
    assert Draws(m, tex, f, scale, [a, b]) == [DrawAt(m, tex, f, scale, e, a), DrawAt(m, tex, f, scale, [a], b)];
    AnchorAfterGlyph(m, f, scale, e, a);
  }

  /** What the renderer draws for a text: the draws at the scale that fits the text in the box. */
  function Render(m: FontMetrics, tex: seq<nat>, f: Frame, text: seq<Ascii>): (r: seq<Draw>)
    requires WellFormed(m) && |tex| == GlyphCount && ValidFrame(f) && m.heights[RefGlyph as int] > 0.0
    ensures |r| == |text| - NewlineCount(text)
    ensures forall j :: 0 <= j < |r| ==> r[j].glyph != Newline && r[j].texture == tex[r[j].glyph as int]
  {
    TextHeightPositive(f.lineSpacing, m.heights[RefGlyph as int], text);
    var scale := FitScale(f, TextHeight(f.lineSpacing, m.heights[RefGlyph as int], text), TextWidth(m.advances, text));
    DrawsInTextOrder(m, tex, f, scale, text);
    GlyphPositionsCount(text);
    Draws(m, tex, f, scale, text)
  }
}
