/** Measuring text in normalised units: lines, per-line advance sums, the widest
    line and the stacked height of all lines. */
module Measure {
  import opened Glyphs

  const Newline: Ascii := '\n'

  function Last<T>(s: seq<T>): T
    requires |s| > 0
  {
    s[|s| - 1]
  }

  function Max(a: real, b: real): real
  {
    if b > a then b else a
  }

  /** The '\n'-separated lines of the text, in order; an empty text has one empty line. */
  function Lines(text: seq<Ascii>): (ls: seq<seq<Ascii>>)
    ensures |ls| >= 1
    decreases |text|
  {
    if text == [] then [[]]
    else
      var rest := Lines(text[1..]);
      if text[0] == Newline then [[]] + rest
      else [[text[0]] + rest[0]] + rest[1..]
  }

  /** The lines put back together with a '\n' between each two. */
  function Join(ls: seq<seq<Ascii>>): seq<Ascii>
    requires |ls| >= 1
  {
    if |ls| == 1 then ls[0] else ls[0] + [Newline] + Join(ls[1..])
  }

  /** Splitting into lines loses nothing: joining the lines gives the text back. */
  lemma {:induction false} JoinLines(text: seq<Ascii>)
    ensures Join(Lines(text)) == text
    decreases |text|
  {
    if text != [] {
      var rest := Lines(text[1..]);
      JoinLines(text[1..]);
      if text[0] == Newline {
        assert ([[]] + rest)[1..] == rest;
      } else {
        var ls := [[text[0]] + rest[0]] + rest[1..];
        if |rest| > 1 {
          assert ls[1..] == rest[1..];
          assert Join(rest) == rest[0] + [Newline] + Join(rest[1..]);
        }
        assert text == [text[0]] + text[1..];
      }
    }
  }

  /** No line holds a '\n'. */
  lemma {:induction false} LinesHaveNoNewline(text: seq<Ascii>)
    ensures forall i, j :: 0 <= i < |Lines(text)| && 0 <= j < |Lines(text)[i]| ==> Lines(text)[i][j] != Newline
    decreases |text|
  {
    if text != [] {
      LinesHaveNoNewline(text[1..]);
    }
  }

  /** Appending a '\n' opens a new, empty, last line. */
  lemma {:induction false} LinesSnocNewline(text: seq<Ascii>)
    ensures Lines(text + [Newline]) == Lines(text) + [[]]
    decreases |text|
  {
    if text == [] {
      assert [] + [Newline] == [Newline];
      assert [Newline][1..] == [];
    } else {
      var t := text[1..];
      assert (text + [Newline])[1..] == t + [Newline];
      LinesSnocNewline(t);
      var L := Lines(t);
      if text[0] != Newline {
        assert Lines(t + [Newline])[1..] == L[1..] + [[]];
      }
    }
  }

  /** The lines of x followed by a text whose lines are ls, for a character x other than '\n'. */
  function PushFront(x: Ascii, ls: seq<seq<Ascii>>): seq<seq<Ascii>>
    requires |ls| >= 1
  {
    [[x] + ls[0]] + ls[1..]
  }

  lemma PushFrontExtendsLast(x: Ascii, ls: seq<seq<Ascii>>, c: Ascii)
    requires |ls| >= 1
    ensures PushFront(x, ls[..|ls| - 1] + [Last(ls) + [c]]) ==
            PushFront(x, ls)[..|ls| - 1] + [Last(PushFront(x, ls)) + [c]]
  {
    if |ls| == 1 {
      assert [x] + (ls[0] + [c]) == ([x] + ls[0]) + [c];
    } else {
      var ls' := ls[..|ls| - 1] + [Last(ls) + [c]];
      assert ls'[0] == ls[0];
      assert ls'[1..] == ls[1..|ls| - 1] + [Last(ls) + [c]];
    }
  }

  /** Appending any other character extends the last line by it. */
  lemma {:induction false} LinesSnocGlyph(text: seq<Ascii>, c: Ascii)
    requires c != Newline
    ensures Lines(text + [c]) == Lines(text)[..|Lines(text)| - 1] + [Last(Lines(text)) + [c]]
    decreases |text|
  {
    if text == [] {
      var e: seq<Ascii> := [];
      assert text + [c] == [c] && [c][1..] == e;
      assert Lines(e) == [e];
      var rest := Lines([c][1..]);
      assert rest == [e] && rest[1..] == [];
      assert [c][0] == c && [c] + e == [c];
      assert Lines([c]) == [[c] + rest[0]] + rest[1..];
      assert Lines([c]) == [[c]];
      assert Lines(text)[..0] + [Last(Lines(text)) + [c]] == [[c]];
    } else {
      var t := text[1..];
      assert (text + [c])[1..] == t + [c];
      LinesSnocGlyph(t, c);
      var L := Lines(t);
      if text[0] == Newline {
        assert Lines(text) == [[]] + L;
        assert ([[]] + L)[..|L|] == [[]] + L[..|L| - 1];
      } else {
        assert Lines(text) == PushFront(text[0], L);
        assert Lines(text + [c]) == PushFront(text[0], Lines(t + [c]));
        PushFrontExtendsLast(text[0], L, c);
      }
    }
  }

  /** The sum of the advances of the characters of s. */
  function Sum(adv: seq<real>, s: seq<Ascii>): (r: real)
    requires |adv| == GlyphCount
    ensures (forall i :: 0 <= i < |s| ==> adv[s[i] as int] >= 0.0) ==> r >= 0.0
  {
    if s == [] then 0.0 else Sum(adv, s[..|s| - 1]) + adv[Last(s) as int]
  }

  /** The largest sum of advances over the prefixes of s (the empty prefix included). */
  function PeakSum(adv: seq<real>, s: seq<Ascii>): (r: real)
    requires |adv| == GlyphCount
    ensures r >= 0.0 && r >= Sum(adv, s)
  {
    if s == [] then 0.0 else Max(PeakSum(adv, s[..|s| - 1]), Sum(adv, s))
  }

  /** PeakSum is the maximum of the prefix sums: it bounds each and is attained by one. */
  lemma {:induction false} PeakSumIsLargestPrefix(adv: seq<real>, s: seq<Ascii>)
    requires |adv| == GlyphCount
    ensures forall k :: 0 <= k <= |s| ==> Sum(adv, s[..k]) <= PeakSum(adv, s)
    ensures exists k :: 0 <= k <= |s| && Sum(adv, s[..k]) == PeakSum(adv, s)
  {
    if s == [] {
      assert s[..0] == s;
    } else {
      var init := s[..|s| - 1];
      PeakSumIsLargestPrefix(adv, init);
      forall k | 0 <= k <= |s| ensures Sum(adv, s[..k]) <= PeakSum(adv, s) {
        if k < |s| {
          assert s[..k] == init[..k];
        } else {
          assert s[..k] == s;
        }
      }
      if PeakSum(adv, s) == Sum(adv, s) {
        assert s[..|s|] == s;
      } else {
        var k :| 0 <= k <= |init| && Sum(adv, init[..k]) == PeakSum(adv, init);
        assert s[..k] == init[..k];
      }
    }
  }

  /** With no negative advance the sum only grows, so the peak is the whole line's sum. */
  lemma {:induction false} PeakSumOfNonNegative(adv: seq<real>, s: seq<Ascii>)
    requires |adv| == GlyphCount
    requires forall k :: 0 <= k < GlyphCount ==> adv[k] >= 0.0
    ensures PeakSum(adv, s) == Sum(adv, s)
  {
    if s != [] {
      PeakSumOfNonNegative(adv, s[..|s| - 1]);
      assert adv[Last(s) as int] >= 0.0;
    }
  }

  /** The largest PeakSum over a sequence of lines, and 0 when there is none. */
  function Widest(adv: seq<real>, ls: seq<seq<Ascii>>): (r: real)
    requires |adv| == GlyphCount
    ensures r >= 0.0
  {
    if ls == [] then 0.0 else Max(Widest(adv, ls[..|ls| - 1]), PeakSum(adv, Last(ls)))
  }

  lemma {:induction false} WidestIsLargest(adv: seq<real>, ls: seq<seq<Ascii>>)
    requires |adv| == GlyphCount && |ls| >= 1
    ensures forall i :: 0 <= i < |ls| ==> PeakSum(adv, ls[i]) <= Widest(adv, ls)
    ensures exists i :: 0 <= i < |ls| && PeakSum(adv, ls[i]) == Widest(adv, ls)
  {
    var init := ls[..|ls| - 1];
    if |ls| == 1 {
      assert PeakSum(adv, ls[0]) == Widest(adv, ls);
    } else {
      WidestIsLargest(adv, init);
      if Widest(adv, ls) != PeakSum(adv, Last(ls)) {
        var i :| 0 <= i < |init| && PeakSum(adv, init[i]) == Widest(adv, init);
        assert ls[i] == init[i];
      }
    }
  }

  /** The width of the widest line, as the running per-line sum of advances reaches it. */
  function TextWidth(adv: seq<real>, text: seq<Ascii>): (r: real)
    requires |adv| == GlyphCount
    ensures r >= 0.0
  {
    Widest(adv, Lines(text))
  }

  /** The width is the largest prefix sum of any line: it bounds every line's peak and equals one. */
  lemma TextWidthIsWidestLine(adv: seq<real>, text: seq<Ascii>)
    requires |adv| == GlyphCount
    ensures TextWidth(adv, text) >= 0.0
    ensures forall i :: 0 <= i < |Lines(text)| ==> PeakSum(adv, Lines(text)[i]) <= TextWidth(adv, text)
    ensures exists i :: 0 <= i < |Lines(text)| && PeakSum(adv, Lines(text)[i]) == TextWidth(adv, text)
  {
    WidestIsLargest(adv, Lines(text));
  }

  /** With non-negative advances the width is the largest sum of a whole line. */
  lemma TextWidthOfNonNegative(adv: seq<real>, text: seq<Ascii>)
    requires |adv| == GlyphCount
    requires forall k :: 0 <= k < GlyphCount ==> adv[k] >= 0.0
    ensures forall i :: 0 <= i < |Lines(text)| ==> Sum(adv, Lines(text)[i]) <= TextWidth(adv, text)
    ensures exists i :: 0 <= i < |Lines(text)| && Sum(adv, Lines(text)[i]) == TextWidth(adv, text)
  {
    var ls := Lines(text);
    forall i | 0 <= i < |ls| ensures PeakSum(adv, ls[i]) == Sum(adv, ls[i]) {
      PeakSumOfNonNegative(adv, ls[i]);
    }
    TextWidthIsWidestLine(adv, text);
  }

  /** One more character: a '\n' leaves the width alone, any other raises it to the new running sum if larger. */
  lemma TextWidthSnoc(adv: seq<real>, text: seq<Ascii>, c: Ascii)
    requires |adv| == GlyphCount
    ensures TextWidth(adv, text + [c]) ==
      if c == Newline then TextWidth(adv, text)
      else Max(TextWidth(adv, text), Sum(adv, Last(Lines(text)) + [c]))
  {
    if c == Newline { LinesSnocNewline(text); } else { LinesSnocGlyph(text, c); }
    var L := Lines(text);
    var L' := Lines(text + [c]);
    if c == Newline {
      assert L'[..|L'| - 1] == L;
    } else {
      var init := L[..|L| - 1];
      assert L'[..|L'| - 1] == init;
      assert L[..|L| - 1] == init;
      var last := Last(L) + [c];
      assert last[..|last| - 1] == Last(L);
    }
  }

  /** A text with no glyph but line breaks (the empty text included) has width 0. */
  lemma {:induction false} TextWidthWithoutGlyphs(adv: seq<real>, text: seq<Ascii>)
    requires |adv| == GlyphCount
    requires forall i :: 0 <= i < |text| ==> text[i] == Newline
    ensures TextWidth(adv, text) == 0.0
    decreases |text|
  {
    if text != [] {
      var init := text[..|text| - 1];
      assert Last(text) == Newline;
      TextWidthWithoutGlyphs(adv, init);
      assert init + [Last(text)] == text;
      TextWidthSnoc(adv, init, Last(text));
      assert TextWidth(adv, init + [Last(text)]) == TextWidth(adv, init);
      assert TextWidth(adv, init) == 0.0;
    } else {
      var ls := Lines(text);
      assert ls == [[]];
      assert Widest(adv, ls[..0]) == 0.0;
      assert PeakSum(adv, Last(ls)) == 0.0;
    }
  }

  /** The number of line breaks in the text. */
  function NewlineCount(text: seq<Ascii>): nat
  {
    multiset(text)[Newline]
  }

  /** A text has one line more than it has line breaks. */
  lemma {:induction false} LineCount(text: seq<Ascii>)
    ensures |Lines(text)| == NewlineCount(text) + 1
    decreases |text|
  {
    if text != [] {
      LineCount(text[1..]);
      assert text == [text[0]] + text[1..];
      assert multiset(text) == multiset{text[0]} + multiset(text[1..]);
    }
  }

  /** The height of the stacked lines: line count times line spacing times the reference height. */
  function TextHeight(lineSpacing: real, refHeight: real, text: seq<Ascii>): (r: real)
    ensures lineSpacing > 0.0 && refHeight > 0.0 ==> r >= lineSpacing * refHeight
    ensures r == 0.0 <==> lineSpacing == 0.0 || refHeight == 0.0
  {
    (NewlineCount(text) + 1) as real * lineSpacing * refHeight
  }

  lemma TextHeightByLines(lineSpacing: real, refHeight: real, text: seq<Ascii>)
    ensures TextHeight(lineSpacing, refHeight, text) == |Lines(text)| as real * lineSpacing * refHeight
  {
    LineCount(text);
  }

  /** Only the line breaks matter: texts with as many '\n' have the same height. */
  lemma TextHeightOnlyCountsNewlines(lineSpacing: real, refHeight: real, a: seq<Ascii>, b: seq<Ascii>)
    requires multiset(a)[Newline] == multiset(b)[Newline]
    ensures TextHeight(lineSpacing, refHeight, a) == TextHeight(lineSpacing, refHeight, b)
  {
  }

  /** In particular rearranging the characters of a text keeps its height. */
  lemma TextHeightOfPermutation(lineSpacing: real, refHeight: real, a: seq<Ascii>, b: seq<Ascii>)
    requires multiset(a) == multiset(b)
    ensures TextHeight(lineSpacing, refHeight, a) == TextHeight(lineSpacing, refHeight, b)
  {
  }

  /** Two texts stacked with a '\n' between them are as tall as both together. */
  lemma TextHeightOfStack(lineSpacing: real, refHeight: real, a: seq<Ascii>, b: seq<Ascii>)
    ensures TextHeight(lineSpacing, refHeight, a + [Newline] + b) ==
            TextHeight(lineSpacing, refHeight, a) + TextHeight(lineSpacing, refHeight, b)
  {
  }

  lemma TextHeightPositive(lineSpacing: real, refHeight: real, text: seq<Ascii>)
    requires lineSpacing > 0.0 && refHeight > 0.0
    ensures TextHeight(lineSpacing, refHeight, text) > 0.0
  {
  }
}
