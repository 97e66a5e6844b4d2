# Font text measurement and layout

A Dafny model of the measuring and layout core of the `Font` class of
TextRender. At construction the class stores four metric arrays with 128 entries
each, one entry per ASCII code point: glyph heights, widths, horizontal
advances and vertical bearings. It then rescales all four in place so that the
reference glyph `'{'` has height 1. With these metrics it computes a glyph's
box (`bounds`), the width of a text (`textWidth`: the largest running per-line
sum of advances) and its height (`textHeight`: line count × line spacing ×
reference height). `write` fits the text into the fixed box with one uniform
scale, then walks the text with a pen advance and a line counter and draws one
quad per glyph.

Module layout:

- `geometry.dfy` (`Geometry`): the 2-D point type with addition and scalar
  multiplication.
- `glyphs.dfy` (`Glyphs`): the 128-entry metrics as values. It holds raw metrics
  (FreeType's 26.6 integers), normalisation and glyph boxes. `Ascii` is the type
  of characters with code below 128.
- `measure.dfy` (`Measure`): a reference definition of text measurement. It
  splits the text into `'\n'`-separated lines, takes sums and largest prefix
  sums of advances, and defines the width, the newline count and the height.
- `layout.dfy` (`Layout`): the box `Frame`, the fit scale, each glyph's pen
  position (`Anchor`), and the draw records (`Draw`) of a text, in order.
- `font.dfy` (`Text.Font`): the class with its arrays. It has the constructor,
  the in-place normalisation loop, `Bounds`, and the loops of `TextWidth`,
  `TextHeight` and `Write`, each proved against the functions above.

`write`'s OpenGL calls become a returned sequence of `Draw(glyph, texture,
topLeft, bottomRight)` records, one for each `glUniform2fv`/`glBindTexture`/
`glDrawArrays` group, in the order they are issued. `Write` is a method whose
result is fixed by a function of the font's state and the text. So two calls
with the same text on an unchanged font return the same draws.

Points where the model makes the code's behaviour explicit:

- A character indexes the arrays directly. The source leaves codes of 128 and
  above (and negative `GLchar` values) undefined. The model rules them out by
  type (`Glyphs.Ascii`); it does not report an error for them.
- The code divides by `textWidth` even when it is 0; in IEEE
  arithmetic that gives +∞, and `fminf` then returns the height ratio.
  `Layout.FitScale` models this as its own branch: the height ratio is used when
  the width is 0.
- `textWidth` keeps a `lines` counter that it never reads. `Font.TextWidth`
  keeps it too.

## Model

| member | source | states |
|---|---|---|
| `Glyphs.FromRaw` | Text.h:43-46 | each glyph's four cached metrics are its raw height, width, horizontal advance and vertical bearing (`horiBearingY`), taken as numbers unchanged |
| `Glyphs.Normalized` | Text.h:61-67 | after normalisation the reference glyph has height 1. Each of the four metrics of every glyph, times the raw reference height, gives back its raw value: all are scaled by the same factor |
| `Glyphs.NormalizedSizeIndependent` | Text.h:61-67 | an exact rescaling of every raw metric by one non-zero factor yields the same normalised metrics |
| `Glyphs.Bounds` | Text.h:83 | the box's top-left corner has x = 0 and y = the glyph's bearing. Its horizontal extent is the glyph's width and its vertical extent (top y minus bottom y) is the glyph's height |
| `Measure.Lines` | Text.h:88-89 | a text always has at least one line |
| `Measure.JoinLines` | Text.h:88-89 | splitting at `'\n'` loses nothing: the lines joined with `'\n'` give back the text |
| `Measure.LinesHaveNoNewline` | Text.h:89 | no line contains a `'\n'` |
| `Measure.LinesSnocNewline` | Text.h:89 | appending a `'\n'` starts a new empty line |
| `Measure.LinesSnocGlyph` | Text.h:90 | appending any other character extends the last line by that character |
| `Measure.Sum` | Text.h:90 | the summed advances of a run of glyphs are never negative when none of its glyphs has a negative advance |
| `Measure.PeakSum` | Text.h:90-91 | the largest prefix sum of a line is at least 0 and at least the sum of the whole line |
| `Measure.PeakSumIsLargestPrefix` | Text.h:90-91 | PeakSum is at least every prefix sum of advances of the line, and equals one of them |
| `Measure.PeakSumOfNonNegative` | Text.h:90-91 | with no negative advance, the largest prefix sum is the sum of the whole line |
| `Measure.Widest` | Text.h:91-93 | the widest-line value is never negative |
| `Measure.WidestIsLargest` | Text.h:91-93 | over a non-empty list of lines, Widest is at least each line's PeakSum and equals one of them |
| `Measure.TextWidth` | Text.h:87-93 | the text width is never negative: the accumulator starts at 0 and only grows |
| `Measure.TextWidthIsWidestLine` | Text.h:84-94 | the text width is at least 0. It is at least the largest prefix sum of every `'\n'`-separated line and equals that of one line |
| `Measure.TextWidthOfNonNegative` | Text.h:84-94 | with non-negative advances, the text width is the largest sum of advances of a whole line |
| `Measure.TextWidthSnoc` | Text.h:88-92 | a further `'\n'` leaves the width unchanged (it adds no advance). Any other character raises the width to the new running line sum when that is larger |
| `Measure.TextWidthWithoutGlyphs` | Text.h:85-93 | the empty text, and any text made only of `'\n'`, has width 0 |
| `Measure.LineCount` | Text.h:96-99 | the number of lines is the number of `'\n'` plus one |
| `Measure.TextHeight` | Text.h:100 | with positive spacing and reference height the text is at least one line tall (spacing × reference height). The height is 0 exactly when the spacing or the reference height is 0 |
| `Measure.TextHeightByLines` | Text.h:95-101 | the height is the number of lines × line spacing × reference height |
| `Measure.TextHeightOnlyCountsNewlines` | Text.h:96-100 | two texts with equally many `'\n'` have the same height, whatever their other characters |
| `Measure.TextHeightOfPermutation` | Text.h:96-100 | rearranging the characters of a text keeps its height |
| `Measure.TextHeightOfStack` | Text.h:100 | two texts joined by a `'\n'` are exactly as tall as the two together |
| `Measure.TextHeightPositive` | Text.h:100 | with positive spacing and reference height, every text has positive height |
| `Layout.FitScale` | Text.h:105 | the scale is positive. Both the scaled height and the scaled width fit in the box, and at least one of them fills its dimension exactly |
| `Layout.FitScaleIsLargest` | Text.h:105 | no scale larger than FitScale keeps both measures inside the box |
| `Layout.PenPoint` | Text.h:110 | the pen point lies the scaled advance to the right of the left border, and line × scale × spacing × reference height below the top border |
| `Layout.PenPointNextLine` | Text.h:109-110 | with the advance reset to 0 and the line number one higher, the pen point is back at the left border and one scaled line spacing lower |
| `Layout.Anchor` | Text.h:106-111 | the pen of the glyph after a text stands, right of the left border, at the scaled sum of the advances since the last `'\n'`. Below the top border it stands (number of `'\n'` + 1) scaled line spacings |
| `Layout.AnchorOfFirstGlyph` | Text.h:106-110 | the first glyph's pen is at the left border, one scaled line spacing below the top border (the line counter starts at 1) |
| `Layout.PenAfterGlyph` | Text.h:110-111 | after a glyph the pen has moved on by that glyph's advance, on the same line |
| `Layout.PenAfterNewline` | Text.h:109 | after a `'\n'` the pen advance is 0 and the line number has gone up by one |
| `Layout.AnchorAfterGlyph` | Text.h:110-111 | the next glyph's anchor is the scaled advance further right, at the same height |
| `Layout.AnchorAfterNewline` | Text.h:109-110 | after a `'\n'` the anchor is back at the left border, one scaled line spacing lower |
| `Layout.DrawAt` | Text.h:110-116 | a draw carries the glyph's code and its texture. Its top-left corner is at the anchor's x and at the anchor's y plus the scaled bearing. Its quad has the scaled width and the scaled height of the glyph |
| `Layout.Draws` | Text.h:108-117 | there are no more draws than characters, no draw is of a `'\n'`, and each draw binds its own glyph's texture. The exact count and the text order are proved in `Layout.GlyphPositionsCount` and `Layout.DrawsInTextOrder` |
| `Layout.DrawsSnoc` | Text.h:108-117 | the step of the definition of `Draws`, stated for the loop proof of `Write`: one more character appends its own draw, or nothing when it is a `'\n'` |
| `Layout.DrawsAfterGlyph` | Text.h:110-116 | a proof step of `Write`: the draw a glyph appends is the glyph's box scaled and moved to the pen point of the advance and line number reached so far |
| `Layout.GlyphPositions` | Text.h:108-109 | the listed positions are in range, strictly increasing, and never hold a `'\n'` |
| `Layout.GlyphPositionsComplete` | Text.h:108-109 | every character other than `'\n'` has its position listed |
| `Layout.GlyphPositionsCount` | Text.h:108-117 | there are as many positions as the text has characters other than `'\n'` |
| `Layout.DrawsInTextOrder` | Text.h:108-118 | there is exactly one draw per character other than `'\n'`, in text order. The j-th draw is the draw of the j-th such character, placed after all the characters before it |
| `Layout.SecondGlyphOnLine` | Text.h:110-112 | a two-glyph line gives two draws, of its two glyphs in order. The second is drawn one scaled advance of the first further right |
| `Layout.Render` | Text.h:105-117 | a text renders as exactly one draw per character other than `'\n'`; no draw is of a `'\n'`, and each binds its glyph's texture |
| `Text.Font.LayoutBox` | Text.h:29-33 | the fixed spacing and borders form a valid box (positive spacing, top above bottom, right of left) |
| `Text.Font.constructor` | Text.h:28-67 | the arrays are fresh and hold the normalised raw metrics, the texture table holds the given handles, and the reference height is 1 |
| `Text.Font.Normalize` | Text.h:61-67 | the in-place loop leaves the four arrays equal to the normalised old metrics. It changes nothing else, and afterwards the reference height is 1 |
| `Text.Font.Bounds` | Text.h:83 | the box read from the arrays is the box of the cached metrics |
| `Text.Font.TextWidth` | Text.h:84-94 | the loop's result is the width of the widest line |
| `Text.Font.TextHeight` | Text.h:95-101 | the loop's result is (number of `'\n'` + 1) × line spacing × reference height |
| `Text.Font.Write` | Text.h:102-122 | the draws issued are those of the text laid out at the fit scale of its height and width in the font's box |

## Left out

- FreeType (library start, face loading, pixel size, glyph rendering, Text.h:35-36, 39-42, 53, 60): a foreign library. The raw metrics it produces are constructor parameters; so are the texture handles, which OpenGL creates (Text.h:37).
- OpenGL (texture creation, upload and parameters, program creation and linking, vertex array and buffer setup, uniform upload, binds, draw calls, unbinds, Text.h:37, 47-59, 68-81, 103-104, 113-121): GPU side effects. `write`'s draws are returned as `Draw` records instead.
- Shader loading (`readFile`, `compilePtrtoShaderSrctoProgram`, Text.h:69-70): file I/O and helpers from files.h and GLutils.h, which are not part of this model.
- The destructor (Text.h:123-128): it only releases GPU resources.
- `fontBearingY` (Text.h:18): declared but never assigned or read.
- The matrix library's `mat::R2` type (Matrix.h is not part of this model): modelled as a pair of reals with addition and scalar multiplication.
- IEEE single-precision arithmetic: all metrics are reals. The model uses the exact decimals 1.5 and ±0.9; the source's `.9f` is the float nearest 0.9 (about 0.8999999762). Rounding in the divisions, in `fminf` and in the running sums is not modelled.
- Text.Font.constructor: requires the raw height of `'{'` to be non-zero. With height 0, `1.f/0` is infinite and every later metric becomes infinite or NaN, which reals cannot express.
- Layout.FitScale: requires a positive height and a valid box. It covers the zero-width case (IEEE +∞ from a positive border span over 0, dropped by `fminf`), but no NaN or negative-infinity cases.
- Characters with code 128 or above, and negative `GLchar` values: undefined behaviour in the source. The `Ascii` type excludes them.
- 32-bit counters: the `int` counters `lines` and `line` (Text.h:85, 96, 107) would overflow after 2^31 − 1 line breaks. The model counts with unbounded naturals, so it does not capture that overflow.
