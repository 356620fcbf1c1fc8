/**
 * The layout arithmetic of `pdf_translator/ocr.py` that precedes rendering:
 * deciding whether a document is image-based, and grouping OCR tokens into
 * paragraphs with bounding boxes.
 */
module Ocr {
  import opened Wrappers
  import opened PyStr
  import opened Fragments
  import opened TextUtils

  // ---------------------------------------------------------------- classification

  /** What the classifier reads of one page: its blocks and the number of images on it. */
  datatype PageContent = PageContent(blocks: seq<Block>, imageCount: nat)

  /** How many pages are sampled: the first five at most. */
  const SAMPLE_PAGES: nat := 5

  /** The default threshold below which a document counts as image-based. */
  const DEFAULT_THRESHOLD: real := 0.3

  /** The number of blocks of type 0. */
  function TextBlockCount(blocks: seq<Block>): (n: nat)
    ensures n <= |blocks|
  {
    if blocks == [] then 0
    else TextBlockCount(blocks[..|blocks| - 1]) + (if blocks[|blocks| - 1].blockType == 0 then 1 else 0)
  }

  /** A page's share of text blocks among text blocks and images; a page with neither contributes 0. */
  function PageRatio(p: PageContent): (r: real)
    ensures 0.0 <= r <= 1.0
    ensures TextBlockCount(p.blocks) + p.imageCount == 0 ==> r == 0.0
  {
    var text := TextBlockCount(p.blocks);
    var total := text + p.imageCount;
    if total > 0 then
      QuotientAtMostOne(text as real, total as real);
      text as real / total as real
    else 0.0
  }

  /** The sum of the page ratios. */
  function RatioSum(pages: seq<PageContent>): (s: real)
    ensures 0.0 <= s <= |pages| as real
  {
    if pages == [] then 0.0 else RatioSum(pages[..|pages| - 1]) + PageRatio(pages[|pages| - 1])
  }

  function SampleCount(n: nat): nat
  {
    if n < SAMPLE_PAGES then n else SAMPLE_PAGES
  }

  /**
   * The average ratio over the sampled pages; every sampled page counts in
   * the denominator, including one without blocks. Undefined for a document
   * without pages (the source divides by zero).
   */
  function AverageTextRatio(pages: seq<PageContent>): (avg: real)
    requires |pages| > 0
    ensures 0.0 <= avg <= 1.0
  {
    var m := SampleCount(|pages|);
    var s := RatioSum(pages[..m]);
    QuotientAtMostOne(s, m as real);
    s / m as real
  }

  lemma QuotientAtMostOne(s: real, m: real)
    requires 0.0 <= s <= m && m > 0.0
    ensures 0.0 <= s / m <= 1.0
  {
    assert (s / m) * m == s;
  }

  /** Pages beyond the fifth never influence the classification. */
  lemma OnlyFirstPagesSampled(pages: seq<PageContent>, extra: seq<PageContent>)
    requires |pages| >= SAMPLE_PAGES
    ensures AverageTextRatio(pages + extra) == AverageTextRatio(pages)
  {
    assert (pages + extra)[..SAMPLE_PAGES] == pages[..SAMPLE_PAGES];
  }

  /**
   * `is_image_based_pdf`: `None` stands for the division by zero of a
   * document without pages; otherwise whether the average ratio is below
   * the threshold.
   */
  method IsImageBasedPdf(pages: seq<PageContent>, threshold: real) returns (r: Option<bool>)
    ensures |pages| == 0 <==> r.None?
    ensures r.Some? ==> r.value == (AverageTextRatio(pages) < threshold)
  {
    var textContentRatio := 0.0;
    var sampled := SampleCount(|pages|);
    var pageNum := 0;
    while pageNum < sampled
      invariant 0 <= pageNum <= sampled
      invariant textContentRatio == RatioSum(pages[..pageNum])
    {
      var page := pages[pageNum];
      var textBlocksCount := TextBlockCount(page.blocks);
      var imageBlocks := page.imageCount;
      if textBlocksCount + imageBlocks > 0 {
        textContentRatio := textContentRatio + textBlocksCount as real / (textBlocksCount + imageBlocks) as real;
      }
      assert pages[..pageNum + 1][..pageNum] == pages[..pageNum];
      pageNum := pageNum + 1;
    }
    if sampled == 0 {
      return None;
    }
    var avgRatio := textContentRatio / sampled as real;
    r := Some(avgRatio < threshold);
  }

  // ---------------------------------------------------------------- token grouping

  /** One OCR token: its text and its box as left, top, width, height. */
  datatype Token = Token(text: string, left: real, top: real, width: real, height: real)
  {
    /** `text.strip()` is non-empty (see `StripEmpty`). */
    predicate NonBlank() { !Blank(text) }
    function Box(): BBox { BBox(left, top, left + width, top + height) }
  }

  function Min(a: real, b: real): real { if a <= b then a else b }
  function Max(a: real, b: real): real { if a >= b then a else b }

  /** The running box grown to cover one more token. */
  function Expand(b: BBox, t: Token): BBox
  {
    BBox(Min(b.x0, t.left), Min(b.y0, t.top), Max(b.x1, t.left + t.width), Max(b.y1, t.top + t.height))
  }

  /** The box `extract_text_with_ocr` accumulates over a run: the first token's box, grown by each later one. */
  function Hull(run: seq<Token>): BBox
    requires run != []
  {
    if |run| == 1 then run[0].Box() else Expand(Hull(run[..|run| - 1]), run[|run| - 1])
  }

  /** The hull contains the box of every token of the run. */
  lemma {:induction false} HullContains(run: seq<Token>, k: nat)
    requires k < |run|
    ensures Hull(run).Contains(run[k].Box())
  {
    if |run| > 1 && k < |run| - 1 {
      HullContains(run[..|run| - 1], k);
    }
  }

  /** And it is tight: each side is attained by some token of the run. */
  lemma {:induction false} HullTight(run: seq<Token>)
    requires run != []
    ensures exists k :: 0 <= k < |run| && Hull(run).x0 == run[k].left
    ensures exists k :: 0 <= k < |run| && Hull(run).y0 == run[k].top
    ensures exists k :: 0 <= k < |run| && Hull(run).x1 == run[k].left + run[k].width
    ensures exists k :: 0 <= k < |run| && Hull(run).y1 == run[k].top + run[k].height
  {
    if |run| > 1 {
      var init := run[..|run| - 1];
      HullTight(init);
      var last := |run| - 1;
      var a :| 0 <= a < |init| && Hull(init).x0 == init[a].left;
      var b :| 0 <= b < |init| && Hull(init).y0 == init[b].top;
      var c :| 0 <= c < |init| && Hull(init).x1 == init[c].left + init[c].width;
      var d :| 0 <= d < |init| && Hull(init).y1 == init[d].top + init[d].height;
      assert run[a] == init[a] && run[b] == init[b] && run[c] == init[c] && run[d] == init[d];
      if Hull(run).x0 != run[a].left { assert Hull(run).x0 == run[last].left; }
      if Hull(run).y0 != run[b].top { assert Hull(run).y0 == run[last].top; }
      if Hull(run).x1 != run[c].left + run[c].width { assert Hull(run).x1 == run[last].left + run[last].width; }
      if Hull(run).y1 != run[d].top + run[d].height { assert Hull(run).y1 == run[last].top + run[last].height; }
    } else {
      assert Hull(run) == run[0].Box();
    }
  }

  lemma HullSnoc(run: seq<Token>, t: Token)
    requires run != []
    ensures Hull(run + [t]) == Expand(Hull(run), t)
  {
    assert (run + [t])[..|run|] == run;
  }

  /** One step of the grouping loop, on the token at `i`. */
  lemma RunsFromStep(tokens: seq<Token>, i: nat, run: seq<Token>)
    requires i < |tokens|
    ensures tokens[i].NonBlank() ==> RunsFrom(tokens[i..], run) == RunsFrom(tokens[i + 1..], run + [tokens[i]])
    ensures !tokens[i].NonBlank() && run != [] ==> RunsFrom(tokens[i..], run) == [run] + RunsFrom(tokens[i + 1..], [])
    ensures !tokens[i].NonBlank() && run == [] ==> RunsFrom(tokens[i..], run) == RunsFrom(tokens[i + 1..], [])
  {
    assert tokens[i..][0] == tokens[i] && tokens[i..][1..] == tokens[i + 1..];
  }

  /**
   * The runs the grouping loop forms from `tokens` when `run` holds the
   * tokens of a paragraph already begun: a blank token ends a run.
   */
  function RunsFrom(tokens: seq<Token>, run: seq<Token>): seq<seq<Token>>
    decreases |tokens|
  {
    if tokens == [] then (if run == [] then [] else [run])
    else if tokens[0].NonBlank() then RunsFrom(tokens[1..], run + [tokens[0]])
    else if run == [] then RunsFrom(tokens[1..], [])
    else [run] + RunsFrom(tokens[1..], [])
  }

  /** The maximal runs of consecutive non-blank tokens, in token order. */
  function Runs(tokens: seq<Token>): seq<seq<Token>>
  {
    RunsFrom(tokens, [])
  }

  /** The non-blank tokens, in order. */
  function NonBlankTokens(tokens: seq<Token>): seq<Token>
  {
    if tokens == [] then []
    else (if tokens[0].NonBlank() then [tokens[0]] else []) + NonBlankTokens(tokens[1..])
  }

  /** No run is empty. */
  ghost predicate NonEmptyRuns(runs: seq<seq<Token>>)
  {
    forall j :: 0 <= j < |runs| ==> runs[j] != []
  }

  /** No run is ever empty: a run is emitted only once it holds a token. */
  lemma {:induction false} RunsFromNonEmpty(tokens: seq<Token>, run: seq<Token>)
    ensures NonEmptyRuns(RunsFrom(tokens, run))
    decreases |tokens|
  {
    if tokens != [] {
      if tokens[0].NonBlank() {
        RunsFromNonEmpty(tokens[1..], run + [tokens[0]]);
      } else {
        RunsFromNonEmpty(tokens[1..], []);
      }
    }
  }

  /** Every run is made of non-blank tokens. */
  lemma {:induction false} RunsFromNonBlank(tokens: seq<Token>, run: seq<Token>)
    requires forall k :: 0 <= k < |run| ==> run[k].NonBlank()
    ensures forall j, k :: 0 <= j < |RunsFrom(tokens, run)| && 0 <= k < |RunsFrom(tokens, run)[j]| ==>
      RunsFrom(tokens, run)[j][k].NonBlank()
    decreases |tokens|
  {
    if tokens != [] {
      if tokens[0].NonBlank() {
        RunsFromNonBlank(tokens[1..], run + [tokens[0]]);
      } else {
        RunsFromNonBlank(tokens[1..], []);
      }
    }
  }

  /** The runs together hold every non-blank token exactly once, in token order. */
  lemma {:induction false} RunsFromCover(tokens: seq<Token>, run: seq<Token>)
    ensures Flatten(RunsFrom(tokens, run)) == run + NonBlankTokens(tokens)
    decreases |tokens|
  {
    if tokens == [] {
      if run != [] { FlattenCons(run, []); }
    } else if tokens[0].NonBlank() {
      RunsFromCover(tokens[1..], run + [tokens[0]]);
    } else if run == [] {
      RunsFromCover(tokens[1..], []);
    } else {
      RunsFromCover(tokens[1..], []);
      FlattenCons(run, RunsFrom(tokens[1..], []));
    }
  }

  lemma RunsCover(tokens: seq<Token>)
    ensures Flatten(Runs(tokens)) == NonBlankTokens(tokens)
  {
    RunsFromCover(tokens, []);
  }

  /** A blank token separates runs: what precedes it and what follows it are grouped independently. */
  lemma {:induction false} RunsFromSplit(a: seq<Token>, blank: Token, b: seq<Token>, run: seq<Token>)
    requires !blank.NonBlank()
    ensures RunsFrom(a + [blank] + b, run) == RunsFrom(a, run) + Runs(b)
    decreases |a|
  {
    if a == [] {
      assert a + [blank] + b == [blank] + b;
      assert ([blank] + b)[1..] == b;
    } else {
      assert (a + [blank] + b)[0] == a[0];
      assert (a + [blank] + b)[1..] == a[1..] + [blank] + b;
      if a[0].NonBlank() {
        RunsFromSplit(a[1..], blank, b, run + [a[0]]);
      } else {
        RunsFromSplit(a[1..], blank, b, []);
      }
    }
  }

  lemma RunsSplit(a: seq<Token>, blank: Token, b: seq<Token>)
    requires !blank.NonBlank()
    ensures Runs(a + [blank] + b) == Runs(a) + Runs(b)
  {
    RunsFromSplit(a, blank, b, []);
  }

  /** Consecutive non-blank tokens are never split: they form a single run. */
  lemma {:induction false} RunsFromUnbroken(tokens: seq<Token>, run: seq<Token>)
    requires forall k :: 0 <= k < |tokens| ==> tokens[k].NonBlank()
    requires run + tokens != []
    ensures RunsFrom(tokens, run) == [run + tokens]
    decreases |tokens|
  {
    if tokens == [] {
      assert run + tokens == run;
    } else {
      var next := run + [tokens[0]];
      assert run + tokens == next + tokens[1..];
      assert RunsFrom(tokens, run) == RunsFrom(tokens[1..], next);
      RunsFromUnbroken(tokens[1..], next);
    }
  }

  lemma RunsUnbroken(tokens: seq<Token>)
    requires tokens != []
    requires forall k :: 0 <= k < |tokens| ==> tokens[k].NonBlank()
    ensures Runs(tokens) == [tokens]
  {
    RunsFromUnbroken(tokens, []);
    assert [] + tokens == tokens;
  }

  /** The texts of a run's tokens, in order. */
  function Texts(run: seq<Token>): seq<string>
  {
    if run == [] then [] else Texts(run[..|run| - 1]) + [run[|run| - 1].text]
  }

  /** `Texts` keeps one text per token, in token order. */
  lemma {:induction false} TextsIndex(run: seq<Token>)
    ensures |Texts(run)| == |run|
    ensures forall k :: 0 <= k < |run| ==> Texts(run)[k] == run[k].text
  {
    if run != [] {
      TextsIndex(run[..|run| - 1]);
    }
  }

  /** A run's paragraph text: its token texts joined by single spaces. */
  function RunText(run: seq<Token>): string
  {
    Join(Texts(run))
  }

  /** What a finished run contributes: its text and hull when `keep` accepts the text, nothing otherwise. */
  function KeptRun(run: seq<Token>, keep: string -> bool): seq<Paragraph>
    requires run != []
  {
    if keep(RunText(run)) then [Paragraph(RunText(run), Hull(run))] else []
  }

  /** The paragraphs kept from a sequence of runs, in order. */
  function RunParagraphs(runs: seq<seq<Token>>, keep: string -> bool): seq<Paragraph>
    requires NonEmptyRuns(runs)
  {
    if runs == [] then [] else KeptRun(runs[0], keep) + RunParagraphs(runs[1..], keep)
  }

  /** The OCR extractor's test on a run's text, as a value. */
  function Qualifier(detect: Detector): string -> bool
  {
    t => Qualifies(t, detect)
  }

  /** The paragraphs `extract_text_with_ocr` forms from one page's tokens. */
  function OcrParagraphs(tokens: seq<Token>, detect: Detector): seq<Paragraph>
  {
    Pending(tokens, [], Qualifier(detect))
  }

  /** Each kept paragraph is what some run kept: that run's joined text and hull, its text accepted. */
  lemma {:induction false} RunParagraphsSource(runs: seq<seq<Token>>, keep: string -> bool, k: nat) returns (j: nat)
    requires NonEmptyRuns(runs)
    requires k < |RunParagraphs(runs, keep)|
    ensures j < |runs| && KeptRun(runs[j], keep) == [RunParagraphs(runs, keep)[k]]
  {
    var head := KeptRun(runs[0], keep);
    var rest := runs[1..];
    assert RunParagraphs(runs, keep) == head + RunParagraphs(rest, keep);
    if k < |head| {
      j := 0;
    } else {
      var j' := RunParagraphsSource(rest, keep, k - |head|);
      assert rest[j'] == runs[j' + 1];
      j := j' + 1;
    }
  }

  /**
   * Every OCR paragraph is the space-joined text of one maximal run, longer
   * than ten characters stripped and not a formula, and its box contains the
   * box of each token of that run.
   */
  lemma OcrParagraphContainsTokens(tokens: seq<Token>, detect: Detector, k: nat)
    requires k < |OcrParagraphs(tokens, detect)|
    ensures var p := OcrParagraphs(tokens, detect)[k];
      |Strip(p.text)| > 10 && !IsFormula(p.text) &&
      exists j :: 0 <= j < |Runs(tokens)| && p.text == Join(Texts(Runs(tokens)[j])) &&
        (forall i :: 0 <= i < |Runs(tokens)[j]| ==> p.box.Contains(Runs(tokens)[j][i].Box()))
  {
    RunsFromNonEmpty(tokens, []);
    var runs := Runs(tokens);
    var keep := Qualifier(detect);
    var j := RunParagraphsSource(runs, keep, k);
    assert keep(RunText(runs[j]));
    assert Qualifies(RunText(runs[j]), detect);
    forall i | 0 <= i < |runs[j]| ensures Hull(runs[j]).Contains(runs[j][i].Box()) {
      HullContains(runs[j], i);
    }
  }

  lemma RunParagraphsCons(run: seq<Token>, rest: seq<seq<Token>>, keep: string -> bool)
    requires run != [] && NonEmptyRuns(rest)
    ensures NonEmptyRuns([run] + rest)
    ensures RunParagraphs([run] + rest, keep) == KeptRun(run, keep) + RunParagraphs(rest, keep)
  {
    assert ([run] + rest)[0] == run && ([run] + rest)[1..] == rest;
  }

  /** The paragraphs still to come when the loop has begun `run` and `tokens` are left. */
  function Pending(tokens: seq<Token>, run: seq<Token>, keep: string -> bool): seq<Paragraph>
  {
    RunsFromNonEmpty(tokens, run);
    RunParagraphs(RunsFrom(tokens, run), keep)
  }

  /** What the token at `i` does to the paragraphs still to come. */
  lemma PendingStep(tokens: seq<Token>, i: nat, run: seq<Token>, keep: string -> bool)
    requires i < |tokens|
    ensures tokens[i].NonBlank() ==>
      Pending(tokens[i..], run, keep) == Pending(tokens[i + 1..], run + [tokens[i]], keep)
    ensures !tokens[i].NonBlank() && run == [] ==>
      Pending(tokens[i..], run, keep) == Pending(tokens[i + 1..], [], keep)
    ensures !tokens[i].NonBlank() && run != [] ==>
      Pending(tokens[i..], run, keep) == KeptRun(run, keep) + Pending(tokens[i + 1..], [], keep)
  {
    RunsFromStep(tokens, i, run);
    RunsFromNonEmpty(tokens[i + 1..], []);
    if !tokens[i].NonBlank() && run != [] {
      RunParagraphsCons(run, RunsFrom(tokens[i + 1..], []), keep);
    }
  }

  /** Once the tokens are exhausted, only the run begun remains. */
  lemma PendingEnd(run: seq<Token>, keep: string -> bool)
    ensures run == [] ==> Pending([], run, keep) == []
    ensures run != [] ==> Pending([], run, keep) == KeptRun(run, keep)
  {
    if run != [] {
      RunParagraphsCons(run, [], keep);
      assert [run] + [] == [run];
    }
  }

  /**
   * Closing a finished run (done in the source at a blank token and again
   * after the last token): its joined text and box become a paragraph when
   * the text passes the extractor's test.
   */
  method FlushRun(currentParagraph: seq<string>, currentBox: BBox, keep: string -> bool, ghost run: seq<Token>)
    returns (kept: seq<Paragraph>)
    requires run != [] && currentParagraph == Texts(run) && currentBox == Hull(run)
    ensures kept == KeptRun(run, keep)
  {
    kept := [];
    var paragraphText := Join(currentParagraph);
    if keep(paragraphText) {
      kept := [Paragraph(paragraphText, currentBox)];
    }
  }

  /**
   * A non-blank token joins the run: its text is appended, and the box starts
   * as the token's box or grows to cover it.
   */
  method ExtendRun(currentParagraph: seq<string>, currentBox: Option<BBox>, token: Token, ghost run: seq<Token>)
    returns (paragraph: seq<string>, box: Option<BBox>)
    requires currentParagraph == Texts(run)
    requires currentBox.None? <==> run == []
    requires run != [] ==> currentBox.value == Hull(run)
    ensures paragraph == Texts(run + [token])
    ensures box.Some? && box.value == Hull(run + [token])
  {
    var x, y, w, h := token.left, token.top, token.width, token.height;
    if currentBox.None? {
      box := Some(BBox(x, y, x + w, y + h));
      assert run + [token] == [token];
      assert Hull([token]) == token.Box();
    } else {
      var b := currentBox.value;
      box := Some(BBox(Min(b.x0, x), Min(b.y0, y), Max(b.x1, x + w), Max(b.y1, y + h)));
      HullSnoc(run, token);
    }
    paragraph := currentParagraph + [token.text];
    assert (run + [token])[..|run|] == run;
  }

  /**
   * One token of the grouping loop: a non-blank token extends the current
   * run; a blank token closes a non-empty run and starts a new one.
   */
  method GroupStep(tokens: seq<Token>, i: nat, keep: string -> bool, paragraphs: seq<Paragraph>,
                   currentParagraph: seq<string>, currentBox: Option<BBox>, ghost run: seq<Token>)
    returns (paragraphs': seq<Paragraph>, currentParagraph': seq<string>, currentBox': Option<BBox>, ghost run': seq<Token>)
    requires i < |tokens|
    requires currentParagraph == Texts(run)
    requires currentBox.None? <==> run == []
    requires run != [] ==> currentBox.value == Hull(run)
    ensures currentParagraph' == Texts(run')
    ensures currentBox'.None? <==> run' == []
    ensures run' != [] ==> currentBox'.value == Hull(run')
    ensures paragraphs' + Pending(tokens[i + 1..], run', keep) == paragraphs + Pending(tokens[i..], run, keep)
  {
    var token := tokens[i];
    PendingStep(tokens, i, run, keep);
    paragraphs', currentParagraph', currentBox', run' := paragraphs, currentParagraph, currentBox, run;
    if token.NonBlank() {
      currentParagraph', currentBox' := ExtendRun(currentParagraph, currentBox, token, run);
      run' := run + [token];
    } else if currentParagraph != [] {
      var kept := FlushRun(currentParagraph, currentBox.value, keep, run);
      ghost var rest := Pending(tokens[i + 1..], [], keep);
      assert paragraphs + (kept + rest) == (paragraphs + kept) + rest;
      paragraphs' := paragraphs + kept;
      currentParagraph' := [];
      currentBox' := None;
      run' := [];
    }
  }

  /**
   * The grouping loop of `extract_text_with_ocr` over one page's tokens, for
   * any test `keep` on a finished run's text.
   */
  method GroupRuns(tokens: seq<Token>, keep: string -> bool) returns (paragraphs: seq<Paragraph>)
    ensures paragraphs == Pending(tokens, [], keep)
  {
    paragraphs := [];
    var currentParagraph: seq<string> := [];
    var currentBox: Option<BBox> := None;
    ghost var run: seq<Token> := [];
    assert tokens[0..] == tokens;
    var i := 0;
    while i < |tokens|
      invariant 0 <= i <= |tokens|
      invariant currentParagraph == Texts(run)
      invariant currentBox.None? <==> run == []
      invariant run != [] ==> currentBox.value == Hull(run)
      invariant paragraphs + Pending(tokens[i..], run, keep) == Pending(tokens, [], keep)
    {
      paragraphs, currentParagraph, currentBox, run := GroupStep(tokens, i, keep, paragraphs, currentParagraph, currentBox, run);
      i := i + 1;
    }
    PendingEnd(run, keep);
    if currentParagraph != [] {
      var kept := FlushRun(currentParagraph, currentBox.value, keep, run);
      paragraphs := paragraphs + kept;
    }
  }

  /** One page's OCR paragraphs, tested with length, formula and language as the source does. */
  method GroupTokens(tokens: seq<Token>, detect: Detector) returns (paragraphs: seq<Paragraph>)
    ensures paragraphs == OcrParagraphs(tokens, detect)
  {
    paragraphs := GroupRuns(tokens, Qualifier(detect));
  }

  /** What `extract_text_with_ocr` stores for page `p`: `[]` outside the debug range, else its OCR paragraphs. */
  function OcrPage(pages: seq<seq<Token>>, debugMode: bool, startPage: int, endPage: int, detect: Detector, p: nat): seq<Paragraph>
    requires p < |pages|
  {
    if OutsideRange(debugMode, startPage, endPage, p) then [] else OcrParagraphs(pages[p], detect)
  }

  /**
   * `extract_text_with_ocr` over the pages' OCR tokens: every page index gets
   * an entry, `[]` outside the debug range.
   */
  method ExtractTextWithOcr(pages: seq<seq<Token>>, debugMode: bool, startPage: int, endPage: int, detect: Detector)
    returns (byPage: PagesMap)
    ensures byPage.Keys == PageIndices(|pages|)
    ensures forall p: nat :: p < |pages| ==> byPage[p] == OcrPage(pages, debugMode, startPage, endPage, detect, p)
  {
    byPage := map[];
    for pageNum := 0 to |pages|
      invariant byPage.Keys == PageIndices(pageNum)
      invariant forall p: nat :: p < pageNum ==> byPage[p] == OcrPage(pages, debugMode, startPage, endPage, detect, p)
    {
      var paragraphs := OcrPageParagraphs(pages, debugMode, startPage, endPage, detect, pageNum);
      ExtendPages(byPage, pageNum, paragraphs);
      byPage := byPage[pageNum := paragraphs];
    }
  }

  /** The body of the page loop: the page's paragraphs, or none outside the debug range. */
  method OcrPageParagraphs(pages: seq<seq<Token>>, debugMode: bool, startPage: int, endPage: int, detect: Detector, p: nat)
    returns (paragraphs: seq<Paragraph>)
    requires p < |pages|
    ensures paragraphs == OcrPage(pages, debugMode, startPage, endPage, detect, p)
  {
    paragraphs := [];
    if !OutsideRange(debugMode, startPage, endPage, p) {
      paragraphs := GroupTokens(pages[p], detect);
    }
  }
}
