/**
 * The text decisions of `pdf_translator/text_utils.py`: the formula
 * heuristic, and which PyMuPDF blocks `extract_paragraphs` keeps.
 */
module TextUtils {
  import opened Wrappers
  import opened PyStr
  import opened Fragments

  /** The fourteen characters the heuristic counts as mathematical. */
  const FORMULA_INDICATORS: seq<char> :=
    ['=', '+', '-', '*', '/', '^', '\U{222B}', '\U{2211}', '\U{220F}', '\U{221A}', '\U{2248}', '\U{2260}', '\U{2264}', '\U{2265}']

  /** How many characters of `t` are formula indicators (each occurrence counts). */
  function IndicatorCount(t: string): (n: nat)
    ensures n <= |t|
  {
    if t == [] then 0
    else IndicatorCount(t[..|t| - 1]) + (if t[|t| - 1] in FORMULA_INDICATORS then 1 else 0)
  }

  /**
   * `is_formula`: several indicators in fewer than five words, or more than
   * five percent of the characters are indicators. The division by `len(text)`
   * makes the empty text an error, hence the precondition.
   */
  predicate IsFormula(t: string)
    requires |t| > 0
  {
    var count := IndicatorCount(t);
    (count > 1 && |Split(t)| < 5) || (count as real / |t| as real > 0.05)
  }

  /** Over exact rationals, `count / len > 0.05` is `20 * count > len`. */
  lemma RatioAboveTwentieth(count: nat, len: nat)
    requires len > 0
    ensures (count as real / len as real > 0.05) <==> 20 * count > len
  {
    var c, n := count as real, len as real;
    var q := c / n;
    assert q * n == c;
    assert 20.0 * c == (20.0 * q) * n;
    if q > 0.05 {
      var d := 20.0 * q - 1.0;
      assert d > 0.0;
      assert d * n > 0.0;
      assert 20.0 * c == n + d * n;
    } else {
      var d := 1.0 - 20.0 * q;
      assert d >= 0.0;
      assert d * n >= 0.0;
      assert 20.0 * c == n - d * n;
    }
  }

  /** The five-percent test is `20 * count > len(text)` in integers. */
  lemma IsFormulaIntegral(t: string)
    requires |t| > 0
    ensures IsFormula(t) <==> (IndicatorCount(t) > 1 && |Split(t)| < 5) || 20 * IndicatorCount(t) > |t|
  {
    RatioAboveTwentieth(IndicatorCount(t), |t|);
  }

  lemma {:induction false} NoIndicatorCountsZero(t: string)
    requires forall k :: 0 <= k < |t| ==> t[k] !in FORMULA_INDICATORS
    ensures IndicatorCount(t) == 0
  {
    if t != [] {
      NoIndicatorCountsZero(t[..|t| - 1]);
    }
  }

  /** A text containing none of the indicator characters is never a formula. */
  lemma NoIndicatorNeverFormula(t: string)
    requires |t| > 0
    requires forall k :: 0 <= k < |t| ==> t[k] !in FORMULA_INDICATORS
    ensures !IsFormula(t)
  {
    NoIndicatorCountsZero(t);
  }

  /**
   * The try/except filter both extractors apply to a candidate text: it is
   * long enough and not a formula, and detection said English; when detection
   * raises the except branch re-checks only the length.
   */
  predicate Qualifies(text: string, detect: Detector)
  {
    if |Strip(text)| > 10 && !IsFormula(text) then
      match detect(text)
      case Some(lang) => lang == "en"
      case None => |Strip(text)| > 10
    else false
  }

  /** The except branch is reached only after the formula test passed, so the formula test always applies. */
  lemma QualifiesExactly(text: string, detect: Detector)
    ensures Qualifies(text, detect) <==>
      |Strip(text)| > 10 && !IsFormula(text) && (detect(text) == Some("en") || detect(text).None?)
  {
  }

  /** The per-block test of `extract_paragraphs`: a text block whose stripped text is non-empty and qualifies. */
  predicate Keeps(b: Block, detect: Detector)
  {
    b.blockType == 0 && Strip(b.text) != "" && Qualifies(b.text, detect)
  }

  /** The paragraph a kept block becomes: its unstripped text and its first four fields. */
  function ParagraphOf(b: Block): Paragraph
  {
    Paragraph(b.text, b.Box())
  }

  /** The paragraphs of the blocks `keep` accepts, in block order. */
  function Collect(blocks: seq<Block>, keep: Block -> bool): seq<Paragraph>
  {
    if blocks == [] then []
    else
      var last := blocks[|blocks| - 1];
      Collect(blocks[..|blocks| - 1], keep) + (if keep(last) then [ParagraphOf(last)] else [])
  }

  /** The paragraphs `extract_paragraphs` collects from one page's blocks. */
  function KeptParagraphs(blocks: seq<Block>, detect: Detector): seq<Paragraph>
  {
    Collect(blocks, b => Keeps(b, detect))
  }

  /** Every collected paragraph is the text and box of an accepted block. */
  lemma {:induction false} CollectSound(blocks: seq<Block>, keep: Block -> bool, k: nat)
    requires k < |Collect(blocks, keep)|
    ensures exists j :: 0 <= j < |blocks| && keep(blocks[j]) && Collect(blocks, keep)[k] == ParagraphOf(blocks[j])
  {
    var init := blocks[..|blocks| - 1];
    if k < |Collect(init, keep)| {
      CollectSound(init, keep, k);
      var j :| 0 <= j < |init| && keep(init[j]) && Collect(init, keep)[k] == ParagraphOf(init[j]);
      assert blocks[j] == init[j];
    } else {
      assert keep(blocks[|blocks| - 1]) && Collect(blocks, keep)[k] == ParagraphOf(blocks[|blocks| - 1]);
    }
  }

  /** Every accepted block is collected. */
  lemma {:induction false} CollectComplete(blocks: seq<Block>, keep: Block -> bool, j: nat)
    requires j < |blocks| && keep(blocks[j])
    ensures ParagraphOf(blocks[j]) in Collect(blocks, keep)
  {
    var init := blocks[..|blocks| - 1];
    if j < |init| {
      assert blocks[j] == init[j];
      CollectComplete(init, keep, j);
    }
  }

  /** Collecting respects block order: the blocks of `a`, then those of `b`. */
  lemma {:induction false} CollectConcat(a: seq<Block>, b: seq<Block>, keep: Block -> bool)
    ensures Collect(a + b, keep) == Collect(a, keep) + Collect(b, keep)
    decreases |b|
  {
    if b == [] {
      assert a + b == a;
    } else {
      var initB := b[..|b| - 1];
      assert (a + b)[..|a + b| - 1] == a + initB;
      CollectConcat(a, initB, keep);
    }
  }

  /**
   * Every paragraph `extract_paragraphs` emits for a page comes from a type-0
   * block, keeps its unstripped text and first four fields, is longer than
   * ten characters stripped, and is not a formula.
   */
  lemma KeptParagraphsQualify(blocks: seq<Block>, detect: Detector, k: nat)
    requires k < |KeptParagraphs(blocks, detect)|
    ensures var p := KeptParagraphs(blocks, detect)[k];
      |Strip(p.text)| > 10 && !IsFormula(p.text) &&
      exists j :: 0 <= j < |blocks| && blocks[j].blockType == 0 && p == ParagraphOf(blocks[j])
  {
    var keep := b => Keeps(b, detect);
    CollectSound(blocks, keep, k);
    var j :| 0 <= j < |blocks| && keep(blocks[j]) && Collect(blocks, keep)[k] == ParagraphOf(blocks[j]);
    assert Keeps(blocks[j], detect);
  }

  /** A block is kept iff it is a text block whose text qualifies; a kept block is emitted. */
  lemma KeptParagraphsComplete(blocks: seq<Block>, detect: Detector, j: nat)
    requires j < |blocks| && blocks[j].blockType == 0 && Qualifies(blocks[j].text, detect)
    ensures ParagraphOf(blocks[j]) in KeptParagraphs(blocks, detect)
  {
    CollectComplete(blocks, b => Keeps(b, detect), j);
  }

  /** A block whose type field is not 0 never yields a paragraph. */
  lemma NonTextBlockIgnored(blocks: seq<Block>, b: Block, detect: Detector)
    requires b.blockType != 0
    ensures KeptParagraphs(blocks + [b], detect) == KeptParagraphs(blocks, detect)
  {
    CollectConcat(blocks, [b], bl => Keeps(bl, detect));
  }

  /**
   * `extract_paragraphs` over the pages' blocks: every page index gets an
   * entry; a page outside the debug range maps to `[]`, any other page to
   * its kept blocks.
   */
  method ExtractParagraphs(pages: seq<seq<Block>>, debugMode: bool, startPage: int, endPage: int, detect: Detector)
    returns (byPage: PagesMap)
    ensures byPage.Keys == PageIndices(|pages|)
    ensures forall p :: 0 <= p < |pages| ==>
      byPage[p] == if OutsideRange(debugMode, startPage, endPage, p) then [] else KeptParagraphs(pages[p], detect)
  {
    byPage := map[];
    var pageNum := 0;
    while pageNum < |pages|
      invariant 0 <= pageNum <= |pages|
      invariant byPage.Keys == PageIndices(pageNum)
      invariant forall p :: 0 <= p < pageNum ==>
        byPage[p] == if OutsideRange(debugMode, startPage, endPage, p) then [] else KeptParagraphs(pages[p], detect)
    {
      var paragraphs: seq<Paragraph> := [];
      if !OutsideRange(debugMode, startPage, endPage, pageNum) {
        paragraphs := ExtractPage(pages[pageNum], detect);
      }
      ExtendPages(byPage, pageNum, paragraphs);
      byPage := byPage[pageNum := paragraphs];
      pageNum := pageNum + 1;
    }
  }

  /** The block loop for one page: the text blocks that qualify, in order. */
  method ExtractPage(blocks: seq<Block>, detect: Detector) returns (paragraphs: seq<Paragraph>)
    ensures paragraphs == KeptParagraphs(blocks, detect)
  {
    paragraphs := [];
    var i := 0;
    while i < |blocks|
      invariant 0 <= i <= |blocks|
      invariant paragraphs == KeptParagraphs(blocks[..i], detect)
    {
      var block := blocks[i];
      var kept := false;
      if block.blockType == 0 {
        var text := block.text;
        var stripped := Strip(text);
        if stripped != "" && |stripped| > 10 && !IsFormula(text) {
          var lang := detect(text);
          kept := lang.None? || lang.value == "en";
        }
      }
      assert kept == Keeps(block, detect);
      KeptParagraphsNext(blocks, i, detect);
      if kept {
        paragraphs := paragraphs + [ParagraphOf(block)];
      }
      i := i + 1;
    }
    assert blocks[..i] == blocks;
  }

  lemma KeptParagraphsNext(blocks: seq<Block>, i: nat, detect: Detector)
    requires i < |blocks|
    ensures KeptParagraphs(blocks[..i + 1], detect) ==
      KeptParagraphs(blocks[..i], detect) + (if Keeps(blocks[i], detect) then [ParagraphOf(blocks[i])] else [])
  {
    assert blocks[..i + 1][..i] == blocks[..i];
  }
}
