/**
 * The layout of `fallback_insert_text_as_image`: the text is wrapped against
 * the measured width of the first available font and drawn line by line into
 * an image the size of the box, which is then inserted over the box. The
 * font metrics are parameters: `measure` is the width a line measures and
 * `lineHeight` the height the next line is moved down by.
 */
module Fallback {
  import opened Wrappers
  import opened PyStr
  import opened Fragments
  import opened Wrap
  import Fonts

  /** Python's `int()` on a float: the integer part, truncated toward zero. */
  function Trunc(r: real): int
  {
    if r >= 0.0 then r.Floor else -((-r).Floor)
  }

  /** `Trunc` drops the fraction: it rounds down a non-negative number and rounds up a negative one. */
  lemma TruncTowardZero(r: real)
    ensures r >= 0.0 ==> Trunc(r) as real <= r < Trunc(r) as real + 1.0
    ensures r < 0.0 ==> Trunc(r) as real - 1.0 < r <= Trunc(r) as real
  {
  }

  /** One line drawn into the image, at pixel position (x, y). */
  datatype ImageLine = ImageLine(x: int, y: int, text: string)

  /** The image inserted over the box: its size in pixels and its lines. */
  datatype TextImage = TextImage(box: BBox, width: int, height: int, lines: seq<ImageLine>)

  /** The width test: a line fits when it measures at most the image width less a five-pixel margin on each side. */
  function ImageFits(measure: string -> int, width: int): string -> bool
  {
    s => measure(s) <= width - 10
  }

  /** The lines drawn from `y` down: five pixels in, each next one the previous line's height plus two below. */
  function Offsets(lines: seq<string>, lineHeight: string -> int, y: int): (o: seq<ImageLine>)
    ensures |o| == |lines|
  {
    if lines == [] then []
    else [ImageLine(5, y, lines[0])] + Offsets(lines[1..], lineHeight, y + lineHeight(lines[0]) + 2)
  }

  /** The groups of the measured wrap of `text` in an image `width` pixels wide. */
  function ImageGroups(text: string, width: int, measure: string -> int): seq<seq<string>>
  {
    MeasuredLines(Split(text), ImageFits(measure, width))
  }

  /** The lines drawn into an image `width` pixels wide. */
  function ImageLines(text: string, width: int, measure: string -> int, lineHeight: string -> int): seq<ImageLine>
  {
    Offsets(JoinAll(ImageGroups(text, width, measure)), lineHeight, 5)
  }

  /** The image drawn for `text` over `box`; `measure` and `lineHeight` are the metrics of the font in use. */
  function FallbackImage(text: string, box: BBox, measure: string -> int, lineHeight: string -> int): TextImage
  {
    var width := Trunc(box.x1 - box.x0);
    TextImage(box, width, Trunc(box.y1 - box.y0), ImageLines(text, width, measure, lineHeight))
  }

  /**
   * The lines are drawn in order, five pixels in: the first at `y`, each next
   * one the previous line's height plus two lower.
   */
  lemma {:induction false} OffsetsMeaning(lines: seq<string>, lineHeight: string -> int, y: int)
    ensures var o := Offsets(lines, lineHeight, y);
      |o| == |lines| &&
      (forall k :: 0 <= k < |lines| ==> o[k].x == 5 && o[k].text == lines[k]) &&
      (lines != [] ==> o[0].y == y) &&
      (forall k :: 0 < k < |lines| ==> o[k].y == o[k - 1].y + lineHeight(lines[k - 1]) + 2)
    decreases |lines|
  {
    if lines != [] {
      var rest := lines[1..];
      var y' := y + lineHeight(lines[0]) + 2;
      OffsetsMeaning(rest, lineHeight, y');
      var o := Offsets(lines, lineHeight, y);
      var r := Offsets(rest, lineHeight, y');
      assert o == [ImageLine(5, y, lines[0])] + r;
      forall k | 0 < k < |lines|
        ensures o[k].x == 5 && o[k].text == lines[k]
        ensures o[k].y == o[k - 1].y + lineHeight(lines[k - 1]) + 2
      {
        assert o[k] == r[k - 1] && lines[k] == rest[k - 1];
        if k > 1 {
          assert o[k - 1] == r[k - 2] && lines[k - 1] == rest[k - 2];
        }
      }
    }
  }

  /** With no negative line height the lines descend strictly down the image. */
  lemma OffsetsDescend(lines: seq<string>, lineHeight: string -> int, y: int)
    requires forall s :: lineHeight(s) >= 0
    ensures forall k :: 0 < k < |lines| ==> Offsets(lines, lineHeight, y)[k - 1].y < Offsets(lines, lineHeight, y)[k].y
  {
    OffsetsMeaning(lines, lineHeight, y);
  }

  /**
   * The groups of the wrap hold every word once and in order, and a group of
   * several words measures at most the image width less ten.
   */
  lemma ImageGroupsMeaning(text: string, width: int, measure: string -> int)
    ensures Flatten(ImageGroups(text, width, measure)) == Split(text)
    ensures forall k :: 0 <= k < |ImageGroups(text, width, measure)| && |ImageGroups(text, width, measure)[k]| > 1 ==>
      measure(Join(ImageGroups(text, width, measure)[k])) <= width - 10
  {
    var fits := ImageFits(measure, width);
    var groups := ImageGroups(text, width, measure);
    MeasuredLinesMeaning(Split(text), fits);
    forall k | 0 <= k < |groups| && |groups[k]| > 1
      ensures measure(Join(groups[k])) <= width - 10
    {
      assert fits(Join(groups[k]));
    }
  }

  /** The drawing loop: each line at the running offset, which grows by the line's height plus two. */
  method DrawLines(lines: seq<string>, lineHeight: string -> int) returns (drawn: seq<ImageLine>)
    ensures drawn == Offsets(lines, lineHeight, 5)
  {
    drawn := [];
    var yOffset := 5;
    for k := 0 to |lines|
      invariant drawn + Offsets(lines[k..], lineHeight, yOffset) == Offsets(lines, lineHeight, 5)
    {
      assert lines[k..][1..] == lines[k + 1..];
      drawn := drawn + [ImageLine(5, yOffset, lines[k])];
      yOffset := yOffset + lineHeight(lines[k]) + 2;
    }
  }

  /** The wrap loop, then the drawing loop. */
  method WrapAndDraw(text: string, width: int, measure: string -> int, lineHeight: string -> int) returns (drawn: seq<ImageLine>)
    ensures drawn == ImageLines(text, width, measure, lineHeight)
  {
    var lines := WrapMeasured(Split(text), ImageFits(measure, width));
    drawn := DrawLines(lines, lineHeight);
  }

  /**
   * `fallback_insert_text_as_image`: the image size (`int()` of the box's
   * width and height), the font lookup (the file of the first available
   * recommended font, `None` for PIL's default), the wrap and the drawing.
   */
  method FallbackInsertTextAsImage(text: string, box: BBox, present: Fonts.Present, measure: string -> int, lineHeight: string -> int)
    returns (fontPath: Option<string>, img: TextImage)
    ensures fontPath == Fonts.FallbackFont(present)
    ensures img == FallbackImage(text, box, measure, lineHeight)
  {
    fontPath := Fonts.FindFallbackFont(present);
    img := DrawTextImage(text, box, measure, lineHeight);
  }

  /** The image of the box's integer size, with the wrapped text drawn on it. */
  method DrawTextImage(text: string, box: BBox, measure: string -> int, lineHeight: string -> int) returns (img: TextImage)
    ensures img == FallbackImage(text, box, measure, lineHeight)
  {
    var width := Trunc(box.x1 - box.x0);
    var height := Trunc(box.y1 - box.y0);
    var drawn := WrapAndDraw(text, width, measure, lineHeight);
    img := TextImage(box, width, height, drawn);
    ghost var expected := FallbackImage(text, box, measure, lineHeight);
    assert expected.width == width && expected.height == height;
    assert expected.lines == ImageLines(text, width, measure, lineHeight);
  }
}
