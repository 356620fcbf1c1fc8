/**
 * The layout decisions of `create_clean_translated_pdf`: which pages are
 * redrawn, which paragraphs are replaced, the font-size search over the
 * estimated wrap, and where each line of the translation is placed.
 * Drawing calls are recorded (see `Canvas`); `insert_text` is taken never to
 * fail, so the fitting test depends on the line count alone.
 */
module CleanRender {
  import opened Wrappers
  import opened PyStr
  import opened Fragments
  import opened TextUtils
  import opened Wrap
  import opened Canvas
  import Translator

  /** The sizes tried, largest first. */
  const CANDIDATE_SIZES: seq<int> := [11, 10, 9, 8, 7, 6]

  /** The width the estimate is held against: the box width less a two-point margin on each side. */
  function MaxWidth(box: BBox): real { box.x1 - box.x0 - 4.0 }

  /**
   * A size fits when every line break keeps the baseline offset within the
   * box height less five points; the offset after `k` breaks is `k * (fs + 2)`,
   * and a text of at most one line breaks nowhere.
   */
  predicate FitsAt(words: seq<string>, fs: int, box: BBox)
  {
    var n := |EstLines(words, fs, MaxWidth(box))|;
    n <= 1 || ((n - 1) * (fs + 2)) as real <= box.y1 - box.y0 - 5.0
  }

  /** A prefix of the words has finished no more lines than the whole. */
  lemma {:induction false} EstWrapDoneGrows(words: seq<string>, i: nat, fs: int, maxWidth: real)
    requires i <= |words|
    ensures |EstWrap(words[..i], fs, maxWidth).done| <= |EstWrap(words, fs, maxWidth).done|
    decreases |words| - i
  {
    if i < |words| {
      var next := words[..i + 1];
      assert next[..i] == words[..i];
      EstWrapDoneGrows(words, i + 1, fs, maxWidth);
    } else {
      assert words[..i] == words;
    }
  }

  /** Once the finished lines of a prefix overflow the box, the whole text does not fit. */
  lemma OverflowIsFinal(words: seq<string>, i: nat, fs: int, box: BBox)
    requires 0 < i <= |words| && fs >= 0
    requires var d := |EstWrap(words[..i], fs, MaxWidth(box)).done|;
      d > 0 && (d * (fs + 2)) as real > box.y1 - box.y0 - 5.0
    ensures !FitsAt(words, fs, box)
  {
    var maxWidth := MaxWidth(box);
    EstWrapDoneGrows(words, i, fs, maxWidth);
    EstWrapShape(words, fs, maxWidth);
    var d := |EstWrap(words[..i], fs, maxWidth).done|;
    var n := |EstLines(words, fs, maxWidth)|;
    assert n - 1 >= d;
    MulMono(d, n - 1, fs + 2, fs + 2);
  }

  /**
   * One word of the estimate loop: it opens the first line, joins the open
   * line when that fits, or finishes the open line and starts a new one.
   */
  method PlaceWord(words: seq<string>, i: nat, fs: int, maxWidth: real, line: seq<string>, ghost done: seq<seq<string>>)
    returns (line': seq<string>, ghost done': seq<seq<string>>, broke: bool)
    requires i < |words|
    requires EstWrap(words[..i], fs, maxWidth) == Layout(done, line)
    ensures EstWrap(words[..i + 1], fs, maxWidth) == Layout(done', line')
    ensures broke ==> done' == done + [line]
    ensures !broke ==> done' == done
  {
    assert words[..i + 1][..i] == words[..i];
    var word := words[i];
    broke := false;
    done' := done;
    if line == [] {
      line' := [word];
    } else if EstFits(line + [word], fs, maxWidth) {
      line' := line + [word];
    } else {
      done' := done + [line];
      line' := [word];
      broke := true;
    }
  }

  /**
   * One pass of the size loop: the estimated wrap at `fs`, giving up as soon
   * as a line break pushes the baseline offset past the box height less five.
   */
  method TryFontSize(words: seq<string>, fs: int, box: BBox) returns (fits: bool)
    requires fs >= 0
    ensures fits == FitsAt(words, fs, box)
  {
    var maxWidth := MaxWidth(box);
    var limit := box.y1 - box.y0 - 5.0;
    var lineHeight := fs + 2;
    var y := 50 + fs;
    var line: seq<string> := [];
    var currentY := y;
    fits := true;
    ghost var done: seq<seq<string>> := [];
    var i := 0;
    while i < |words|
      invariant 0 <= i <= |words|
      invariant EstWrap(words[..i], fs, maxWidth) == Layout(done, line)
      invariant currentY - y == BreakOffset(|done|, lineHeight)
      invariant done == [] || (currentY - y) as real <= limit
    {
      var line', done', broke := PlaceWord(words, i, fs, maxWidth, line, done);
      if broke {
        assert |done'| == |done| + 1;
        assert BreakOffset(|done'|, lineHeight) == BreakOffset(|done|, lineHeight) + lineHeight;
        currentY := currentY + lineHeight;
      }
      line, done := line', done';
      if broke {
        if (currentY - y) as real > limit {
          fits := false;
          BreakOffsetProduct(|done|, lineHeight);
          OverflowIsFinal(words, i + 1, fs, box);
          return;
        }
      }
      i := i + 1;
    }
    assert words[..i] == words;
    BreakOffsetProduct(|done|, lineHeight);
    FitsAtByWrap(words, fs, box);
  }

  /** How far `current_y` has moved after `d` line breaks: one line height per break. */
  function BreakOffset(d: nat, lineHeight: int): int
  {
    if d == 0 then 0 else BreakOffset(d - 1, lineHeight) + lineHeight
  }

  lemma {:induction false} BreakOffsetProduct(d: nat, lineHeight: int)
    ensures BreakOffset(d, lineHeight) == d * lineHeight
  {
    if d > 0 {
      BreakOffsetProduct(d - 1, lineHeight);
    }
  }

  /** Whether a size fits, read off the wrap's finished lines: every break so far stayed within the box. */
  lemma FitsAtByWrap(words: seq<string>, fs: int, box: BBox)
    ensures var done := EstWrap(words, fs, MaxWidth(box)).done;
      FitsAt(words, fs, box) <==> done == [] || (|done| * (fs + 2)) as real <= box.y1 - box.y0 - 5.0
  {
    EstWrapShape(words, fs, MaxWidth(box));
  }

  /** The first of `sizes` that fits. */
  function FirstFitting(sizes: seq<int>, words: seq<string>, box: BBox): Option<int>
  {
    if sizes == [] then None
    else if FitsAt(words, sizes[0], box) then Some(sizes[0])
    else FirstFitting(sizes[1..], words, box)
  }

  /** The size search: the candidates in order, stopping at the first that fits. */
  method ChooseFontSize(words: seq<string>, box: BBox) returns (best: Option<int>)
    ensures best == FirstFitting(CANDIDATE_SIZES, words, box)
  {
    best := None;
    for k := 0 to |CANDIDATE_SIZES|
      invariant FirstFitting(CANDIDATE_SIZES, words, box) == FirstFitting(CANDIDATE_SIZES[k..], words, box)
    {
      assert CANDIDATE_SIZES[k..][1..] == CANDIDATE_SIZES[k + 1..];
      var fits := TryFontSize(words, CANDIDATE_SIZES[k], box);
      if fits {
        best := Some(CANDIDATE_SIZES[k]);
        return;
      }
    }
  }

  /** A size that fits is followed by smaller sizes that fit too: smaller text needs no more lines, and less height per line. */
  lemma FitsMonotone(words: seq<string>, fs1: int, fs2: int, box: BBox)
    requires 0 <= fs1 <= fs2
    requires FitsAt(words, fs2, box)
    ensures FitsAt(words, fs1, box)
  {
    var maxWidth := MaxWidth(box);
    FewerLinesWhenSmaller(words, fs1, fs2, maxWidth);
    var n1 := |EstLines(words, fs1, maxWidth)|;
    var n2 := |EstLines(words, fs2, maxWidth)|;
    if n1 > 1 {
      MulMono(n1 - 1, n2 - 1, fs1 + 2, fs2 + 2);
    }
  }

  /** The search finds the first fitting size of the list, or reports that none fits. */
  lemma {:induction false} FirstFittingMeaning(sizes: seq<int>, words: seq<string>, box: BBox)
    ensures FirstFitting(sizes, words, box).None? <==> forall k :: 0 <= k < |sizes| ==> !FitsAt(words, sizes[k], box)
    ensures FirstFitting(sizes, words, box).Some? ==> exists k :: (0 <= k < |sizes| &&
      FirstFitting(sizes, words, box).value == sizes[k] && FitsAt(words, sizes[k], box) &&
      forall j :: 0 <= j < k ==> !FitsAt(words, sizes[j], box))
  {
    if sizes != [] && !FitsAt(words, sizes[0], box) {
      FirstFittingMeaning(sizes[1..], words, box);
      assert forall k :: 1 <= k < |sizes| ==> sizes[k] == sizes[1..][k - 1];
      if FirstFitting(sizes, words, box).Some? {
        var k :| 0 <= k < |sizes[1..]| && FirstFitting(sizes[1..], words, box).value == sizes[1..][k] &&
          FitsAt(words, sizes[1..][k], box) && forall j :: 0 <= j < k ==> !FitsAt(words, sizes[1..][j], box);
        assert sizes[k + 1] == sizes[1..][k];
        assert forall j :: 0 <= j < k + 1 ==> !FitsAt(words, sizes[j], box);
      }
    }
  }

  /** Sizes tried largest first, none negative. */
  ghost predicate Descending(sizes: seq<int>)
  {
    (forall j, k :: 0 <= j < k < |sizes| ==> sizes[j] > sizes[k]) && forall k :: 0 <= k < |sizes| ==> sizes[k] >= 0
  }

  lemma LargestFit(sizes: seq<int>, words: seq<string>, box: BBox)
    requires sizes != [] && Descending(sizes)
    ensures FirstFitting(sizes, words, box).None? <==> !FitsAt(words, sizes[|sizes| - 1], box)
    ensures FirstFitting(sizes, words, box).Some? ==>
      var s := FirstFitting(sizes, words, box).value;
      s in sizes && FitsAt(words, s, box) &&
      forall k :: 0 <= k < |sizes| ==> (sizes[k] > s ==> !FitsAt(words, sizes[k], box)) && (sizes[k] <= s ==> FitsAt(words, sizes[k], box))
  {
    FirstFittingMeaning(sizes, words, box);
    if FirstFitting(sizes, words, box).Some? {
      var s := FirstFitting(sizes, words, box).value;
      var i :| 0 <= i < |sizes| && s == sizes[i] && FitsAt(words, sizes[i], box) && forall j :: 0 <= j < i ==> !FitsAt(words, sizes[j], box);
      FitsBelow(sizes, words, box, i);
      forall k | 0 <= k < |sizes|
        ensures (sizes[k] > s ==> !FitsAt(words, sizes[k], box)) && (sizes[k] <= s ==> FitsAt(words, sizes[k], box))
      {
        if k < i {
          assert sizes[k] > s;
        }
      }
    }
  }

  /** Below a size that fits, in a descending list, every size fits. */
  lemma FitsBelow(sizes: seq<int>, words: seq<string>, box: BBox, i: nat)
    requires Descending(sizes) && i < |sizes| && FitsAt(words, sizes[i], box)
    ensures forall k :: i <= k < |sizes| ==> FitsAt(words, sizes[k], box)
  {
    forall k | i < k < |sizes|
      ensures FitsAt(words, sizes[k], box)
    {
      FitsMonotone(words, sizes[k], sizes[i], box);
    }
  }

  /**
   * The chosen size is the largest candidate that fits, every smaller
   * candidate fits as well, and no size is chosen exactly when 6 does not fit.
   */
  lemma ChosenSizeIsLargestFit(words: seq<string>, box: BBox)
    ensures FirstFitting(CANDIDATE_SIZES, words, box).None? <==> !FitsAt(words, 6, box)
    ensures FirstFitting(CANDIDATE_SIZES, words, box).Some? ==>
      var s := FirstFitting(CANDIDATE_SIZES, words, box).value;
      s in CANDIDATE_SIZES && FitsAt(words, s, box) &&
      forall k :: 0 <= k < |CANDIDATE_SIZES| ==>
        (CANDIDATE_SIZES[k] > s ==> !FitsAt(words, CANDIDATE_SIZES[k], box)) && (CANDIDATE_SIZES[k] <= s ==> FitsAt(words, CANDIDATE_SIZES[k], box))
  {
    var C := CANDIDATE_SIZES;
    assert Descending(C);
    LargestFit(C, words, box);
  }

  /** The baseline of line `k` at size `fs`: the first at `y0 + fs`, each next `fs + 2` lower. */
  function Baseline(box: BBox, fs: int, k: nat): real
  {
    box.y0 + fs as real + (k * (fs + 2)) as real
  }

  /** The lines drawn at size `fs`, two points in from the left of the box, each on its baseline. */
  function Placed(lines: seq<seq<string>>, box: BBox, fs: int, font: string): (ops: seq<Draw>)
    ensures |ops| == |lines|
  {
    if lines == [] then []
    else Placed(lines[..|lines| - 1], box, fs, font) + [Text(box.x0 + 2.0, Baseline(box, fs, |lines| - 1), Join(lines[|lines| - 1]), fs, font)]
  }

  lemma {:induction false} PlacedIndex(lines: seq<seq<string>>, box: BBox, fs: int, font: string, k: nat)
    requires k < |lines|
    ensures Placed(lines, box, fs, font)[k] == Text(box.x0 + 2.0, Baseline(box, fs, k), Join(lines[k]), fs, font)
  {
    if k < |lines| - 1 {
      var init := lines[..|lines| - 1];
      PlacedIndex(init, box, fs, font, k);
    }
  }

  /** The commit at the chosen size: the white cover over the box, then the estimated wrap line by line. */
  method Commit(words: seq<string>, fs: int, box: BBox, font: string) returns (ops: seq<Draw>)
    ensures ops == [WhiteBox(box)] + Placed(EstLines(words, fs, MaxWidth(box)), box, fs, font)
  {
    ops := [WhiteBox(box)];
    var x := box.x0 + 2.0;
    var y := box.y0 + fs as real;
    var lineHeight := fs + 2;
    var maxWidth := MaxWidth(box);
    var line: seq<string> := [];
    var currentY := y;
    ghost var done: seq<seq<string>> := [];
    for i := 0 to |words|
      invariant EstWrap(words[..i], fs, maxWidth) == Layout(done, line)
      invariant ops == [WhiteBox(box)] + Placed(done, box, fs, font)
      invariant currentY == Baseline(box, fs, |done|)
    {
      var line', done', broke := PlaceWord(words, i, fs, maxWidth, line, done);
      if broke {
        ops := ops + [Text(x, currentY, Join(line), fs, font)];
        PlacedSnoc(done, line, box, fs, font);
        BaselineNext(box, fs, |done|);
        currentY := currentY + lineHeight as real;
      }
      line, done := line', done';
    }
    assert words[..|words|] == words;
    if line != [] {
      ops := ops + [Text(x, currentY, Join(line), fs, font)];
      PlacedSnoc(done, line, box, fs, font);
    }
  }

  lemma BaselineNext(box: BBox, fs: int, k: nat)
    ensures Baseline(box, fs, k + 1) == Baseline(box, fs, k) + (fs + 2) as real
  {
    assert (k + 1) * (fs + 2) == k * (fs + 2) + (fs + 2);
  }

  lemma PlacedSnoc(lines: seq<seq<string>>, line: seq<string>, box: BBox, fs: int, font: string)
    ensures Placed(lines + [line], box, fs, font) ==
      Placed(lines, box, fs, font) + [Text(box.x0 + 2.0, Baseline(box, fs, |lines|), Join(line), fs, font)]
  {
    assert (lines + [line])[..|lines|] == lines;
  }

  /**
   * The committed layout: one text record per line of the estimated wrap, on
   * its baseline; the lines hold every word once, in order; every line of
   * several words passes the width estimate; and when the size fits, every
   * baseline after the first lies within `y1 - 5 + fs`.
   */
  lemma CommitLayout(words: seq<string>, fs: int, box: BBox, font: string)
    ensures var lines := EstLines(words, fs, MaxWidth(box));
      var ops := Placed(lines, box, fs, font);
      Flatten(lines) == words &&
      (forall k :: 0 <= k < |lines| ==> ops[k] == Text(box.x0 + 2.0, Baseline(box, fs, k), Join(lines[k]), fs, font)) &&
      (forall k :: 0 <= k < |lines| && |lines[k]| > 1 ==> EstFits(lines[k], fs, MaxWidth(box))) &&
      (fs >= 0 && FitsAt(words, fs, box) ==> forall k :: 0 < k < |lines| ==> Baseline(box, fs, k) <= box.y1 - 5.0 + fs as real)
  {
    var lines := EstLines(words, fs, MaxWidth(box));
    EstLinesWords(words, fs, MaxWidth(box));
    EstLinesFit(words, fs, MaxWidth(box));
    forall k | 0 <= k < |lines|
      ensures Placed(lines, box, fs, font)[k] == Text(box.x0 + 2.0, Baseline(box, fs, k), Join(lines[k]), fs, font)
    {
      PlacedIndex(lines, box, fs, font, k);
    }
    if fs >= 0 && FitsAt(words, fs, box) {
      forall k | 0 < k < |lines|
        ensures Baseline(box, fs, k) <= box.y1 - 5.0 + fs as real
      {
        MulMono(k, |lines| - 1, fs + 2, fs + 2);
      }
    }
  }

  // ---------------------------------------------------------------- paragraphs and pages

  /** The text drawn for a paragraph: its cached translation, or the original text when none is cached. */
  function TranslationFor(text: string, cache: Translator.Cache, fileMd5: string, md5: string -> string): string
  {
    match Translator.Lookup(cache, fileMd5, md5(text))
      case Some(t) => t
      case None => text
  }

  /** The records for one paragraph: nothing for a formula or when no size fits; otherwise the cover and the lines. */
  function ParagraphOps(p: Paragraph, cache: Translator.Cache, fileMd5: string, md5: string -> string, font: string): seq<Draw>
    requires p.text != ""
  {
    if IsFormula(p.text) then []
    else
      var words := Split(TranslationFor(p.text, cache, fileMd5, md5));
      match FirstFitting(CANDIDATE_SIZES, words, p.box)
        case None => []
        case Some(fs) => [WhiteBox(p.box)] + Placed(EstLines(words, fs, MaxWidth(p.box)), p.box, fs, font)
  }

  /**
   * A paragraph is replaced exactly when it is not a formula and its text,
   * translated when the cache has it, fits at size 6; then its box is covered
   * first and its lines follow at the largest size that fits.
   */
  lemma ParagraphReplaced(p: Paragraph, cache: Translator.Cache, fileMd5: string, md5: string -> string, font: string)
    requires p.text != ""
    ensures var words := Split(TranslationFor(p.text, cache, fileMd5, md5));
      ParagraphOps(p, cache, fileMd5, md5, font) != [] <==> !IsFormula(p.text) && FitsAt(words, 6, p.box)
    ensures ParagraphOps(p, cache, fileMd5, md5, font) != [] ==>
      var words := Split(TranslationFor(p.text, cache, fileMd5, md5));
      var fs := FirstFitting(CANDIDATE_SIZES, words, p.box).value;
      ParagraphOps(p, cache, fileMd5, md5, font) == [WhiteBox(p.box)] + Placed(EstLines(words, fs, MaxWidth(p.box)), p.box, fs, font) &&
      FitsAt(words, fs, p.box) && forall k :: 0 <= k < |CANDIDATE_SIZES| && CANDIDATE_SIZES[k] > fs ==> !FitsAt(words, CANDIDATE_SIZES[k], p.box)
  {
    var words := Split(TranslationFor(p.text, cache, fileMd5, md5));
    ChosenSizeIsLargestFit(words, p.box);
  }

  /** The replacement for one paragraph, as the loop body computes it. */
  method RenderParagraph(p: Paragraph, cache: Translator.Cache, fileMd5: string, md5: string -> string, font: string)
    returns (ops: seq<Draw>)
    requires p.text != ""
    ensures ops == ParagraphOps(p, cache, fileMd5, md5, font)
  {
    ops := [];
    if IsFormula(p.text) {
      return;
    }
    var textMd5 := md5(p.text);
    var translated := p.text;
    if fileMd5 in cache && textMd5 in cache[fileMd5] {
      translated := cache[fileMd5][textMd5];
    }
    var words := Split(translated);
    var best := ChooseFontSize(words, p.box);
    if best.Some? {
      ops := Commit(words, best.value, p.box, font);
    }
  }

  /**
   * The records for a page's paragraphs in order; `None` when one of them has
   * an empty text, on which the formula test divides by zero.
   */
  function PageOps(ps: seq<Paragraph>, cache: Translator.Cache, fileMd5: string, md5: string -> string, font: string): Option<seq<Draw>>
  {
    if ps == [] then Some([])
    else match PageOps(ps[..|ps| - 1], cache, fileMd5, md5, font)
      case None => None
      case Some(ops) =>
        if ps[|ps| - 1].text == "" then None
        else Some(ops + ParagraphOps(ps[|ps| - 1], cache, fileMd5, md5, font))
  }

  /** The page fails exactly when one of its paragraphs has an empty text. */
  lemma {:induction false} PageOpsFails(ps: seq<Paragraph>, cache: Translator.Cache, fileMd5: string, md5: string -> string, font: string)
    ensures PageOps(ps, cache, fileMd5, md5, font).None? <==> exists k :: 0 <= k < |ps| && ps[k].text == ""
  {
    if ps != [] {
      var init := ps[..|ps| - 1];
      PageOpsFails(init, cache, fileMd5, md5, font);
      assert forall k :: 0 <= k < |init| ==> init[k] == ps[k];
    }
  }

  /** The page's paragraphs in order, appended one after another. */
  lemma {:induction false} PageOpsAppend(ps: seq<Paragraph>, p: Paragraph, cache: Translator.Cache, fileMd5: string, md5: string -> string, font: string)
    requires p.text != "" && PageOps(ps, cache, fileMd5, md5, font).Some?
    ensures PageOps(ps + [p], cache, fileMd5, md5, font) ==
      Some(PageOps(ps, cache, fileMd5, md5, font).value + ParagraphOps(p, cache, fileMd5, md5, font))
  {
    assert (ps + [p])[..|ps|] == ps;
  }

  lemma PageOpsNext(ps: seq<Paragraph>, k: nat, cache: Translator.Cache, fileMd5: string, md5: string -> string, font: string)
    requires k < |ps| && ps[k].text != "" && PageOps(ps[..k], cache, fileMd5, md5, font).Some?
    ensures PageOps(ps[..k + 1], cache, fileMd5, md5, font) ==
      Some(PageOps(ps[..k], cache, fileMd5, md5, font).value + ParagraphOps(ps[k], cache, fileMd5, md5, font))
  {
    assert ps[..k + 1] == ps[..k] + [ps[k]];
    PageOpsAppend(ps[..k], ps[k], cache, fileMd5, md5, font);
  }

  lemma PageOpsFailsAt(ps: seq<Paragraph>, k: nat, cache: Translator.Cache, fileMd5: string, md5: string -> string, font: string)
    requires k < |ps| && ps[k].text == ""
    ensures PageOps(ps, cache, fileMd5, md5, font).None?
  {
    PageOpsFails(ps, cache, fileMd5, md5, font);
  }

  /** The font name used on a page: the embedded "F0" when the font loaded and was inserted, otherwise the built-in "tiro". */
  function FontName(fontLoaded: bool, inserted: bool): string
  {
    if fontLoaded && inserted then "F0" else "tiro"
  }

  /** The output for page `i`; `insertOk(i)` says whether embedding the font into page `i` succeeds. */
  function CleanPage(i: nat, pages: PagesMap, cache: Translator.Cache, fileMd5: string, md5: string -> string,
                     fontLoaded: bool, insertOk: nat -> bool, debugMode: bool, startPage: int, endPage: Option<int>): Option<PageOut>
  {
    if OutsideOpenRange(debugMode, startPage, endPage, i) then Some(Copied(i))
    else match PageOps(ParagraphsOf(pages, i), cache, fileMd5, md5, FontName(fontLoaded, insertOk(i)))
      case None => None
      case Some(ops) => Some(Drawn(i, [Background] + ops))
  }

  /** The output document for the first `n` pages; `None` when some page fails. */
  function CleanDocument(n: nat, pages: PagesMap, cache: Translator.Cache, fileMd5: string, md5: string -> string,
                         fontLoaded: bool, insertOk: nat -> bool, debugMode: bool, startPage: int, endPage: Option<int>): Option<seq<PageOut>>
  {
    if n == 0 then Some([])
    else match CleanDocument(n - 1, pages, cache, fileMd5, md5, fontLoaded, insertOk, debugMode, startPage, endPage)
      case None => None
      case Some(done) =>
        match CleanPage(n - 1, pages, cache, fileMd5, md5, fontLoaded, insertOk, debugMode, startPage, endPage)
          case None => None
          case Some(page) => Some(done + [page])
  }

  /**
   * The document holds one output per source page, in order; it fails exactly
   * when some page fails; pages outside the debug range are copied unchanged.
   */
  lemma {:induction false} CleanDocumentPages(n: nat, pages: PagesMap, cache: Translator.Cache, fileMd5: string, md5: string -> string,
                                              fontLoaded: bool, insertOk: nat -> bool, debugMode: bool, startPage: int, endPage: Option<int>)
    ensures var doc := CleanDocument(n, pages, cache, fileMd5, md5, fontLoaded, insertOk, debugMode, startPage, endPage);
      (doc.None? <==> exists i: nat :: i < n && CleanPage(i, pages, cache, fileMd5, md5, fontLoaded, insertOk, debugMode, startPage, endPage).None?) &&
      (doc.Some? ==> (|doc.value| == n &&
        forall i: nat :: i < n ==> (Some(doc.value[i]) == CleanPage(i, pages, cache, fileMd5, md5, fontLoaded, insertOk, debugMode, startPage, endPage) &&
          (OutsideOpenRange(debugMode, startPage, endPage, i) ==> doc.value[i] == Copied(i)))))
  {
    if n > 0 {
      CleanDocumentPages(n - 1, pages, cache, fileMd5, md5, fontLoaded, insertOk, debugMode, startPage, endPage);
    }
  }

  /** One page of the loop: copied when out of the debug range, else the background and each paragraph's records. */
  method RenderCleanPage(i: nat, pages: PagesMap, cache: Translator.Cache, fileMd5: string, md5: string -> string,
                         fontLoaded: bool, insertOk: nat -> bool, debugMode: bool, startPage: int, endPage: Option<int>)
    returns (page: Option<PageOut>)
    ensures page == CleanPage(i, pages, cache, fileMd5, md5, fontLoaded, insertOk, debugMode, startPage, endPage)
  {
    if debugMode && (i < startPage || (endPage.Some? && i > endPage.value)) {
      return Some(Copied(i));
    }
    var paragraphs := if i in pages then pages[i] else [];
    var fontName := "tiro";
    if fontLoaded && insertOk(i) {
      fontName := "F0";
    }
    assert fontName == FontName(fontLoaded, insertOk(i));
    var ops := RenderParagraphs(paragraphs, cache, fileMd5, md5, fontName);
    if ops.None? {
      return None;
    }
    page := Some(Drawn(i, [Background] + ops.value));
  }

  /** The paragraph loop of one page; `None` when the formula test raises on an empty text. */
  method RenderParagraphs(paragraphs: seq<Paragraph>, cache: Translator.Cache, fileMd5: string, md5: string -> string, fontName: string)
    returns (ops: Option<seq<Draw>>)
    ensures ops == PageOps(paragraphs, cache, fileMd5, md5, fontName)
  {
    var drawn: seq<Draw> := [];
    for k := 0 to |paragraphs|
      invariant PageOps(paragraphs[..k], cache, fileMd5, md5, fontName) == Some(drawn)
    {
      if paragraphs[k].text == "" {
        PageOpsFailsAt(paragraphs, k, cache, fileMd5, md5, fontName);
        return None;
      }
      var more := RenderParagraph(paragraphs[k], cache, fileMd5, md5, fontName);
      PageOpsNext(paragraphs, k, cache, fileMd5, md5, fontName);
      drawn := drawn + more;
    }
    assert paragraphs[..|paragraphs|] == paragraphs;
    ops := Some(drawn);
  }

  /** `create_clean_translated_pdf` over a source of `n` pages: the page loop; `None` means it raised and nothing is saved. */
  method CreateCleanTranslatedPdf(n: nat, pages: PagesMap, cache: Translator.Cache, fileMd5: string, md5: string -> string,
                                  fontLoaded: bool, insertOk: nat -> bool, debugMode: bool, startPage: int, endPage: Option<int>)
    returns (doc: Option<seq<PageOut>>)
    ensures doc == CleanDocument(n, pages, cache, fileMd5, md5, fontLoaded, insertOk, debugMode, startPage, endPage)
  {
    var out: seq<PageOut> := [];
    for i := 0 to n
      invariant CleanDocument(i, pages, cache, fileMd5, md5, fontLoaded, insertOk, debugMode, startPage, endPage) == Some(out)
    {
      var page := RenderCleanPage(i, pages, cache, fileMd5, md5, fontLoaded, insertOk, debugMode, startPage, endPage);
      if page.None? {
        CleanDocumentPages(n, pages, cache, fileMd5, md5, fontLoaded, insertOk, debugMode, startPage, endPage);
        return None;
      }
      out := out + [page.value];
    }
    doc := Some(out);
  }
}
