/**
 * The values extraction produces and rendering consumes: bounding boxes,
 * paragraphs (a text with its box), the blocks PyMuPDF reports for a page,
 * and the debug page range that restricts which pages are processed.
 */
module Fragments {
  import opened Wrappers

  /** An axis-aligned box `(x0, y0, x1, y1)` in page space, origin top-left. */
  datatype BBox = BBox(x0: real, y0: real, x1: real, y1: real)
  {
    function Width(): real { x1 - x0 }
    function Height(): real { y1 - y0 }

    /** `other` lies inside this box. */
    predicate Contains(other: BBox)
    {
      x0 <= other.x0 && y0 <= other.y0 && other.x1 <= x1 && other.y1 <= y1
    }
  }

  /** One extracted fragment: the text as extracted and the box it came from. */
  datatype Paragraph = Paragraph(text: string, box: BBox)

  /** A page's paragraphs, by 0-based page index (the `paragraphs_by_page` dictionary). */
  type PagesMap = map<int, seq<Paragraph>>

  /** `paragraphs_by_page.get(i, [])`: the paragraphs stored for a page; a page without an entry has none. */
  function ParagraphsOf(pages: PagesMap, i: int): seq<Paragraph>
  {
    if i in pages then pages[i] else []
  }

  /**
   * One entry of PyMuPDF's `page.get_text("blocks")`: the tuple
   * `(x0, y0, x1, y1, text, block_no, block_type)`; type 0 is a text block.
   */
  datatype Block = Block(x0: real, y0: real, x1: real, y1: real, text: string, blockNo: int, blockType: int)
  {
    function Box(): BBox { BBox(x0, y0, x1, y1) }
  }

  /**
   * The language detector as an oracle: `Some(code)` is the code it returned,
   * `None` means it raised.
   */
  type Detector = string -> Option<string>

  /** The debug-range test of the extractors and of the OCR renderer: both bounds are given. */
  predicate OutsideRange(debugMode: bool, startPage: int, endPage: int, page: int)
  {
    debugMode && (page < startPage || page > endPage)
  }

  /** The debug-range test of the clean renderer and of the translate phase: an absent end bound is open. */
  predicate OutsideOpenRange(debugMode: bool, startPage: int, endPage: Option<int>, page: int)
  {
    debugMode && (page < startPage || (endPage.Some? && page > endPage.value))
  }

  /** The page indices `0 .. n-1`: the keys the extractors always produce. */
  function PageIndices(n: nat): (s: set<int>)
    ensures forall p :: p in s <==> 0 <= p < n
  {
    if n == 0 then {} else PageIndices(n - 1) + {n - 1}
  }

  /** Adding the entry for page `n` to a dictionary of the pages before it. */
  lemma ExtendPages<T>(m: map<int, T>, n: nat, v: T)
    requires m.Keys == PageIndices(n)
    ensures m[n := v].Keys == PageIndices(n + 1)
  {
  }
}
