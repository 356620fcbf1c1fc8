/**
 * The order in which the translate phase reaches the paragraphs: the pages
 * in the dictionary's order, each page's paragraphs in order, a page outside
 * the debug range skipped.
 */
module TranslateQueue {
  import opened Wrappers
  import opened Fragments

  /** The texts of a page's paragraphs, in order. */
  function Texts(ps: seq<Paragraph>): (ts: seq<string>)
    ensures |ts| == |ps|
    ensures forall k :: 0 <= k < |ps| ==> ts[k] == ps[k].text
  {
    if ps == [] then [] else Texts(ps[..|ps| - 1]) + [ps[|ps| - 1].text]
  }

  /**
   * The texts the translate phase hands to `translate_text`, in call order:
   * the pages in the dictionary's order, a page outside the debug range
   * contributing none. `order` lists the dictionary's own keys; the function
   * is total only so that slices and concatenations of it need no side fact.
   */
  function Queue(pages: PagesMap, order: seq<int>, debugMode: bool, startPage: int, endPage: Option<int>): seq<string>
  {
    if order == [] then []
    else Queue(pages, order[..|order| - 1], debugMode, startPage, endPage) + PageTexts(pages, order[|order| - 1], debugMode, startPage, endPage)
  }

  /** What one page contributes: nothing when it lies outside the debug range, else its texts. */
  function PageTexts(pages: PagesMap, p: int, debugMode: bool, startPage: int, endPage: Option<int>): seq<string>
  {
    if p !in pages || OutsideOpenRange(debugMode, startPage, endPage, p) then [] else Texts(pages[p])
  }

  lemma QueueNext(pages: PagesMap, order: seq<int>, debugMode: bool, startPage: int, endPage: Option<int>, i: nat)
    requires i < |order|
    ensures Queue(pages, order[..i + 1], debugMode, startPage, endPage) ==
      Queue(pages, order[..i], debugMode, startPage, endPage) + PageTexts(pages, order[i], debugMode, startPage, endPage)
  {
    assert order[..i + 1][..i] == order[..i];
  }

  lemma TextsNext(ps: seq<Paragraph>, j: nat)
    requires j < |ps|
    ensures Texts(ps[..j + 1]) == Texts(ps[..j]) + [ps[j].text]
  {
    assert ps[..j + 1][..j] == ps[..j];
  }

  /** A page outside the debug range puts nothing in the queue, so a walk over only such pages makes no call. */
  lemma {:induction false} SkippedPagesMakeNoCall(pages: PagesMap, order: seq<int>, debugMode: bool, startPage: int,
                                                  endPage: Option<int>)
    requires forall k :: 0 <= k < |order| ==> OutsideOpenRange(debugMode, startPage, endPage, order[k])
    ensures Queue(pages, order, debugMode, startPage, endPage) == []
  {
    if order != [] {
      SkippedPagesMakeNoCall(pages, order[..|order| - 1], debugMode, startPage, endPage);
    }
  }

  /** Without debug mode every paragraph of every page is queued, page by page. */
  lemma {:induction false} QueueWithoutDebug(pages: PagesMap, order: seq<int>, startPage: int, endPage: Option<int>, i: nat)
    requires forall k :: 0 <= k < |order| ==> order[k] in pages
    requires i < |order|
    ensures var q := Queue(pages, order, false, startPage, endPage);
      var before := Queue(pages, order[..i], false, startPage, endPage);
      |before| + |pages[order[i]]| <= |q| &&
      q[|before|..|before| + |pages[order[i]]|] == Texts(pages[order[i]])
  {
    var before := order[..i];
    var rest := order[i + 1..];
    assert order == before + ([order[i]] + rest);
    QueueAppend(pages, before, [order[i]] + rest, false, startPage, endPage);
    QueueAppend(pages, [order[i]], rest, false, startPage, endPage);
    assert [order[i]][..0] == [];
    var qb := Queue(pages, before, false, startPage, endPage);
    var qp := Queue(pages, [order[i]], false, startPage, endPage);
    var qr := Queue(pages, rest, false, startPage, endPage);
    assert qp == Texts(pages[order[i]]);
    assert Queue(pages, order, false, startPage, endPage) == qb + qp + qr;
    SliceOfMiddle(qb, qp, qr);
  }

  /** The queue of two runs of pages is the two queues one after the other. */
  lemma {:induction false} QueueAppend(pages: PagesMap, a: seq<int>, b: seq<int>, debugMode: bool, startPage: int, endPage: Option<int>)
    ensures Queue(pages, a + b, debugMode, startPage, endPage) ==
      Queue(pages, a, debugMode, startPage, endPage) + Queue(pages, b, debugMode, startPage, endPage)
    decreases |b|
  {
    if b == [] {
      assert a + b == a;
    } else {
      var b', p := b[..|b| - 1], b[|b| - 1];
      assert (a + b)[..|a + b| - 1] == a + b' && (a + b)[|a + b| - 1] == p;
      QueueAppend(pages, a, b', debugMode, startPage, endPage);
    }
  }

  lemma SliceOfMiddle<T>(a: seq<T>, b: seq<T>, c: seq<T>)
    ensures |a| + |b| <= |a + b + c| && (a + b + c)[|a|..|a| + |b|] == b
  {
  }
}
