/**
 * The layout decisions of `create_translated_pdf_ocr_approach`: the font
 * search that may end the call before anything is written, which pages are
 * redrawn, the measured wrap at size 11 and the placement of lines 14 points
 * apart, with "..." in place of the first line that does not fit.
 * `stringWidth` is the parameter `width`; the translation of a text is the
 * parameter `translation`.
 */
module OcrRender {
  import opened Wrappers
  import opened PyStr
  import opened Fragments
  import opened Wrap
  import opened Canvas
  import Fonts

  /** The registered font and its size. */
  const FONT: string := "CyrillicFont"
  const FONT_SIZE: int := 11

  /** The distance between baselines. */
  const LINE_HEIGHT: nat := 14

  /** The width test of the wrap: the measured width at most the box width less four. */
  function Fitter(width: string -> real, box: BBox): string -> bool
  {
    s => width(s) <= box.x1 - box.x0 - 4.0
  }

  /** The lines of a translated text, as the wrap builds them. */
  function OcrLines(text: string, box: BBox, width: string -> real): seq<string>
  {
    JoinAll(MeasuredLines(Split(text), Fitter(width, box)))
  }

  /** Line `j` has room: its baseline, `(j + 1) * 14` below the box top, is still above the box bottom. */
  predicate Visible(box: BBox, height: real, j: nat)
  {
    height - box.y0 - ((j + 1) * LINE_HEIGHT) as real > height - box.y1
  }

  /** The records for lines `j ..`: each line while it has room, then "..." on the last drawn line's baseline, if any. */
  function PlaceFrom(lines: seq<string>, j: nat, box: BBox, height: real): seq<Draw>
    decreases |lines| - j
  {
    if j >= |lines| then []
    else if Visible(box, height, j) then
      [Text(box.x0 + 2.0, height - box.y0 - ((j + 1) * LINE_HEIGHT) as real, lines[j], FONT_SIZE, FONT)] + PlaceFrom(lines, j + 1, box, height)
    else if j > 0 then [Text(box.x0 + 2.0, height - box.y0 - (j * LINE_HEIGHT) as real, "...", FONT_SIZE, FONT)]
    else []
  }

  /** The placement of all the lines of a paragraph on a page of height `height` (reportlab's origin is bottom-left). */
  function Place(lines: seq<string>, box: BBox, height: real): seq<Draw>
  {
    PlaceFrom(lines, 0, box, height)
  }

  lemma {:induction false} PlaceFromVisible(lines: seq<string>, j: nat, i: nat, box: BBox, height: real)
    requires j <= i < |lines| && Visible(box, height, i)
    ensures i - j < |PlaceFrom(lines, j, box, height)|
    ensures PlaceFrom(lines, j, box, height)[i - j] ==
      Text(box.x0 + 2.0, height - box.y0 - ((i + 1) * LINE_HEIGHT) as real, lines[i], FONT_SIZE, FONT)
    decreases i - j
  {
    assert Visible(box, height, j);
    if j < i {
      PlaceFromVisible(lines, j + 1, i, box, height);
    }
  }

  lemma {:induction false} PlaceFromStop(lines: seq<string>, j: nat, i: nat, box: BBox, height: real)
    requires j <= i < |lines| && !Visible(box, height, i) && (i == 0 || (i * LINE_HEIGHT) as real < box.y1 - box.y0)
    ensures |PlaceFrom(lines, j, box, height)| == i - j + (if i > 0 then 1 else 0)
    ensures i > 0 ==> (PlaceFrom(lines, j, box, height)[i - j] ==
      Text(box.x0 + 2.0, height - box.y0 - (i * LINE_HEIGHT) as real, "...", FONT_SIZE, FONT))
    decreases i - j
  {
    if j < i {
      assert Visible(box, height, j);
      PlaceFromStop(lines, j + 1, i, box, height);
    }
  }

  lemma {:induction false} PlaceFromAll(lines: seq<string>, j: nat, box: BBox, height: real)
    requires j <= |lines| && (|lines| * LINE_HEIGHT) as real < box.y1 - box.y0
    ensures |PlaceFrom(lines, j, box, height)| == |lines| - j
    decreases |lines| - j
  {
    if j < |lines| {
      assert Visible(box, height, j);
      PlaceFromAll(lines, j + 1, box, height);
    }
  }

  /**
   * Line `j` is drawn, on its baseline, exactly when `(j + 1) * 14 < y1 - y0`;
   * at the first line without room drawing stops, and "..." goes on the
   * previous line's baseline unless it is the first line; when every line has
   * room, every line is drawn and nothing else.
   */
  lemma PlaceMeaning(lines: seq<string>, box: BBox, height: real)
    ensures forall j :: 0 <= j < |lines| && ((j + 1) * LINE_HEIGHT) as real < box.y1 - box.y0 ==>
      j < |Place(lines, box, height)| &&
      Place(lines, box, height)[j] == Text(box.x0 + 2.0, height - box.y0 - ((j + 1) * LINE_HEIGHT) as real, lines[j], FONT_SIZE, FONT)
    ensures forall j :: (0 <= j < |lines| && !(((j + 1) * LINE_HEIGHT) as real < box.y1 - box.y0) &&
      (j == 0 || (j * LINE_HEIGHT) as real < box.y1 - box.y0)) ==>
      (|Place(lines, box, height)| == j + (if j > 0 then 1 else 0) &&
      (j > 0 ==> Place(lines, box, height)[j] == Text(box.x0 + 2.0, height - box.y0 - (j * LINE_HEIGHT) as real, "...", FONT_SIZE, FONT)))
    ensures (|lines| * LINE_HEIGHT) as real < box.y1 - box.y0 ==> |Place(lines, box, height)| == |lines|
  {
    forall j | 0 <= j < |lines| && ((j + 1) * LINE_HEIGHT) as real < box.y1 - box.y0
      ensures j < |Place(lines, box, height)|
      ensures Place(lines, box, height)[j] == Text(box.x0 + 2.0, height - box.y0 - ((j + 1) * LINE_HEIGHT) as real, lines[j], FONT_SIZE, FONT)
    {
      PlaceFromVisible(lines, 0, j, box, height);
    }
    forall j | 0 <= j < |lines| && !(((j + 1) * LINE_HEIGHT) as real < box.y1 - box.y0) &&
      (j == 0 || (j * LINE_HEIGHT) as real < box.y1 - box.y0)
      ensures |Place(lines, box, height)| == j + (if j > 0 then 1 else 0)
      ensures j > 0 ==> Place(lines, box, height)[j] == Text(box.x0 + 2.0, height - box.y0 - (j * LINE_HEIGHT) as real, "...", FONT_SIZE, FONT)
    {
      PlaceFromStop(lines, 0, j, box, height);
    }
    if (|lines| * LINE_HEIGHT) as real < box.y1 - box.y0 {
      PlaceFromAll(lines, 0, box, height);
    }
  }

  /** The drawing loop over the lines, with its early `break`. */
  method PlaceLines(lines: seq<string>, box: BBox, height: real) returns (ops: seq<Draw>)
    ensures ops == Place(lines, box, height)
  {
    ops := [];
    var lineHeight := LINE_HEIGHT;
    var j := 0;
    while j < |lines|
      invariant 0 <= j <= |lines|
      invariant ops + PlaceFrom(lines, j, box, height) == Place(lines, box, height)
    {
      var yPos := height - box.y0 - ((j + 1) * lineHeight) as real;
      if yPos > height - box.y1 {
        ops := ops + [Text(box.x0 + 2.0, yPos, lines[j], FONT_SIZE, FONT)];
      } else {
        if j > 0 {
          var lastLinePos := height - box.y0 - (j * lineHeight) as real;
          ops := ops + [Text(box.x0 + 2.0, lastLinePos, "...", FONT_SIZE, FONT)];
        }
        return;
      }
      j := j + 1;
    }
  }

  /** The records for one paragraph: the white cover in reportlab coordinates, then the placed lines. */
  function OcrParagraphOps(p: Paragraph, height: real, translation: string -> string, width: string -> real): seq<Draw>
  {
    [WhiteRect(p.box.x0, height - p.box.y1, p.box.x1 - p.box.x0, p.box.y1 - p.box.y0)] +
    Place(OcrLines(translation(p.text), p.box, width), p.box, height)
  }

  /**
   * A paragraph is always covered first; its line strings hold every word of
   * the translation once and in order, each line of several words is no wider
   * than the box less four, and line `j` is drawn exactly where it has room.
   */
  lemma OcrParagraphLayout(p: Paragraph, height: real, translation: string -> string, width: string -> real)
    ensures OcrParagraphOps(p, height, translation, width)[0] ==
      WhiteRect(p.box.x0, height - p.box.y1, p.box.x1 - p.box.x0, p.box.y1 - p.box.y0)
    ensures var groups := MeasuredLines(Split(translation(p.text)), Fitter(width, p.box));
      Flatten(groups) == Split(translation(p.text)) &&
      (forall k :: 0 <= k < |groups| && |groups[k]| > 1 ==> width(Join(groups[k])) <= p.box.x1 - p.box.x0 - 4.0)
    ensures var groups := MeasuredLines(Split(translation(p.text)), Fitter(width, p.box));
      forall j: nat :: j < |groups| && Visible(p.box, height, j) ==>
        1 + j < |OcrParagraphOps(p, height, translation, width)| &&
        OcrParagraphOps(p, height, translation, width)[1 + j] ==
          Text(p.box.x0 + 2.0, height - p.box.y0 - ((j + 1) * LINE_HEIGHT) as real, Join(groups[j]), FONT_SIZE, FONT)
  {
    OcrGroups(p, translation, width);
    OcrVisibleLines(p, height, translation, width);
  }

  /** Every wrapped line with room is drawn, after the cover, at its baseline. */
  lemma OcrVisibleLines(p: Paragraph, height: real, translation: string -> string, width: string -> real)
    ensures var groups := MeasuredLines(Split(translation(p.text)), Fitter(width, p.box));
      forall j: nat :: j < |groups| && Visible(p.box, height, j) ==>
        1 + j < |OcrParagraphOps(p, height, translation, width)| &&
        OcrParagraphOps(p, height, translation, width)[1 + j] ==
          Text(p.box.x0 + 2.0, height - p.box.y0 - ((j + 1) * LINE_HEIGHT) as real, Join(groups[j]), FONT_SIZE, FONT)
  {
    var groups := MeasuredLines(Split(translation(p.text)), Fitter(width, p.box));
    forall j: nat | j < |groups| && Visible(p.box, height, j)
      ensures 1 + j < |OcrParagraphOps(p, height, translation, width)| &&
        OcrParagraphOps(p, height, translation, width)[1 + j] ==
          Text(p.box.x0 + 2.0, height - p.box.y0 - ((j + 1) * LINE_HEIGHT) as real, Join(groups[j]), FONT_SIZE, FONT)
    {
      OcrLineAt(p, height, translation, width, j);
    }
  }

  /** The wrap of a paragraph's translation keeps its words, and lines of several words fit the box less four. */
  lemma OcrGroups(p: Paragraph, translation: string -> string, width: string -> real)
    ensures var groups := MeasuredLines(Split(translation(p.text)), Fitter(width, p.box));
      Flatten(groups) == Split(translation(p.text)) &&
      (forall k :: 0 <= k < |groups| && |groups[k]| > 1 ==> width(Join(groups[k])) <= p.box.x1 - p.box.x0 - 4.0)
  {
    var words := Split(translation(p.text));
    var fits := Fitter(width, p.box);
    var groups := MeasuredLines(words, fits);
    MeasuredLinesMeaning(words, fits);
    forall k | 0 <= k < |groups| && |groups[k]| > 1
      ensures width(Join(groups[k])) <= p.box.x1 - p.box.x0 - 4.0
    {
      assert fits(Join(groups[k]));
    }
  }

  /** Line `j` of a paragraph, when it has room, is the `j`-th wrapped line at its baseline. */
  lemma OcrLineAt(p: Paragraph, height: real, translation: string -> string, width: string -> real, j: nat)
    requires j < |MeasuredLines(Split(translation(p.text)), Fitter(width, p.box))|
    requires Visible(p.box, height, j)
    ensures 1 + j < |OcrParagraphOps(p, height, translation, width)|
    ensures OcrParagraphOps(p, height, translation, width)[1 + j] ==
      Text(p.box.x0 + 2.0, height - p.box.y0 - ((j + 1) * LINE_HEIGHT) as real,
           Join(MeasuredLines(Split(translation(p.text)), Fitter(width, p.box))[j]), FONT_SIZE, FONT)
  {
    var lines := OcrLines(translation(p.text), p.box, width);
    PlaceFromVisible(lines, 0, j, p.box, height);
    OpsAfterCover(p, height, translation, width);
  }

  /** After the white cover, a paragraph's records are its placed lines. */
  lemma OpsAfterCover(p: Paragraph, height: real, translation: string -> string, width: string -> real)
    ensures var placed := Place(OcrLines(translation(p.text), p.box, width), p.box, height);
      var ops := OcrParagraphOps(p, height, translation, width);
      |ops| == 1 + |placed| && forall k :: 0 <= k < |placed| ==> ops[1 + k] == placed[k]
  {
  }

  /** One paragraph of the loop. */
  method RenderOcrParagraph(p: Paragraph, height: real, translation: string -> string, width: string -> real)
    returns (ops: seq<Draw>)
    ensures ops == OcrParagraphOps(p, height, translation, width)
  {
    var translatedText := translation(p.text);
    ops := [WhiteRect(p.box.x0, height - p.box.y1, p.box.x1 - p.box.x0, p.box.y1 - p.box.y0)];
    var lines := WrapMeasured(Split(translatedText), Fitter(width, p.box));
    var placed := PlaceLines(lines, p.box, height);
    ops := ops + placed;
  }

  /** The records for a page's paragraphs, in order. */
  function OcrParagraphsOps(ps: seq<Paragraph>, height: real, translation: string -> string, width: string -> real): seq<Draw>
  {
    if ps == [] then []
    else OcrParagraphsOps(ps[..|ps| - 1], height, translation, width) + OcrParagraphOps(ps[|ps| - 1], height, translation, width)
  }

  /**
   * The output for page `i` of height `height`: copied when outside the debug
   * range or without paragraphs, else the background and each paragraph's records.
   */
  function OcrPage(i: nat, height: real, pages: PagesMap, debugMode: bool, startPage: int, endPage: int,
                   translation: string -> string, width: string -> real): PageOut
  {
    if OutsideRange(debugMode, startPage, endPage, i) || ParagraphsOf(pages, i) == [] then Copied(i)
    else Drawn(i, [Background] + OcrParagraphsOps(ParagraphsOf(pages, i), height, translation, width))
  }

  /** The pages `0 .. n-1`; `heights(i)` is the height of page `i`. */
  function OcrPages(n: nat, heights: nat -> real, pages: PagesMap, debugMode: bool, startPage: int, endPage: int,
                    translation: string -> string, width: string -> real): (out: seq<PageOut>)
    ensures |out| == n
  {
    if n == 0 then []
    else
      OcrPages(n - 1, heights, pages, debugMode, startPage, endPage, translation, width) +
      [OcrPage(n - 1, heights(n - 1), pages, debugMode, startPage, endPage, translation, width)]
  }

  /** The whole call: nothing at all when no font file exists, else every page in order. */
  function OcrDocument(n: nat, present: Fonts.Present, heights: nat -> real, pages: PagesMap, debugMode: bool, startPage: int, endPage: int,
                       translation: string -> string, width: string -> real): Option<seq<PageOut>>
  {
    if Fonts.FirstExisting(Fonts.OCR_FONTS, present).None? then None
    else Some(OcrPages(n, heights, pages, debugMode, startPage, endPage, translation, width))
  }

  lemma {:induction false} OcrPagesIndex(n: nat, heights: nat -> real, pages: PagesMap, debugMode: bool, startPage: int, endPage: int,
                                         translation: string -> string, width: string -> real, i: nat)
    requires i < n
    ensures OcrPages(n, heights, pages, debugMode, startPage, endPage, translation, width)[i] ==
      OcrPage(i, heights(i), pages, debugMode, startPage, endPage, translation, width)
  {
    if i < n - 1 {
      OcrPagesIndex(n - 1, heights, pages, debugMode, startPage, endPage, translation, width, i);
    }
  }

  /**
   * Nothing is written exactly when none of the font files exists; otherwise
   * there is one output page per source page, and a page outside the debug
   * range or without paragraphs is copied unchanged.
   */
  lemma OcrDocumentMeaning(n: nat, present: Fonts.Present, heights: nat -> real, pages: PagesMap, debugMode: bool, startPage: int, endPage: int,
                           translation: string -> string, width: string -> real)
    ensures var doc := OcrDocument(n, present, heights, pages, debugMode, startPage, endPage, translation, width);
      (doc.None? <==> forall k :: 0 <= k < |Fonts.OCR_FONTS| ==> !present(Fonts.OCR_FONTS[k])) &&
      (doc.Some? ==> (|doc.value| == n &&
        forall i: nat :: i < n && (OutsideRange(debugMode, startPage, endPage, i) || ParagraphsOf(pages, i) == []) ==> doc.value[i] == Copied(i)))
  {
    forall i: nat | i < n
      ensures OcrPages(n, heights, pages, debugMode, startPage, endPage, translation, width)[i] ==
        OcrPage(i, heights(i), pages, debugMode, startPage, endPage, translation, width)
    {
      OcrPagesIndex(n, heights, pages, debugMode, startPage, endPage, translation, width, i);
    }
  }

  /** One page of the loop. */
  method RenderOcrPage(i: nat, height: real, pages: PagesMap, debugMode: bool, startPage: int, endPage: int,
                       translation: string -> string, width: string -> real) returns (page: PageOut)
    ensures page == OcrPage(i, height, pages, debugMode, startPage, endPage, translation, width)
  {
    if debugMode && (i < startPage || i > endPage) {
      return Copied(i);
    }
    var paragraphs := if i in pages then pages[i] else [];
    if paragraphs == [] {
      return Copied(i);
    }
    var ops: seq<Draw> := [];
    for k := 0 to |paragraphs|
      invariant ops == OcrParagraphsOps(paragraphs[..k], height, translation, width)
    {
      assert paragraphs[..k + 1][..k] == paragraphs[..k];
      var more := RenderOcrParagraph(paragraphs[k], height, translation, width);
      ops := ops + more;
    }
    assert paragraphs[..|paragraphs|] == paragraphs;
    page := Drawn(i, [Background] + ops);
  }

  /** `create_translated_pdf_ocr_approach` over a source of `n` pages. */
  method CreateTranslatedPdfOcrApproach(n: nat, present: Fonts.Present, heights: nat -> real, pages: PagesMap,
                                        debugMode: bool, startPage: int, endPage: int,
                                        translation: string -> string, width: string -> real)
    returns (doc: Option<seq<PageOut>>)
    ensures doc == OcrDocument(n, present, heights, pages, debugMode, startPage, endPage, translation, width)
  {
    var fontPath := Fonts.FindFirst(Fonts.OCR_FONTS, present);
    if fontPath.None? {
      return None;
    }
    var out: seq<PageOut> := [];
    for i := 0 to n
      invariant out == OcrPages(i, heights, pages, debugMode, startPage, endPage, translation, width)
    {
      var page := RenderOcrPage(i, heights(i), pages, debugMode, startPage, endPage, translation, width);
      out := out + [page];
    }
    doc := Some(out);
  }
}
