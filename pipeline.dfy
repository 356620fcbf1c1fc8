/**
 * The two commands of the command-line driver, past argument parsing: the
 * translate phase walks the extracted paragraphs page by page and makes sure
 * each one's translation sits in the cache; regenerate loads the paragraph
 * store and hands it to the renderer the classification picks.
 */
module Pipeline {
  import opened Wrappers
  import opened Fragments
  import opened Translator
  import opened TranslateQueue
  import Llm
  import ParagraphStore

  /** Where the translate phase stands: the cache, what each call returned, the requests made. */
  datatype Phase = Phase(cache: Cache, results: seq<string>, requests: nat)

  /** One translation call: the text, the cache as it stands, and the call's number in the phase. */
  type Call = (string, Cache, nat) -> Outcome

  /**
   * `translate_text` as the phase calls it: call number `k` has
   * `network(k)` answering its requests.
   */
  function Translation(fileMd5: string, ignoreCache: bool, config: Llm.Config, network: nat -> nat -> Reply,
                       md5: string -> string): Call
  {
    (t: string, c: Cache, k: nat) => TranslateSpec(t, fileMd5, c, ignoreCache, config, network(k), md5)
  }

  /** `call` answers every call exactly as `translate_text` does. */
  ghost predicate Implements(call: Call, fileMd5: string, ignoreCache: bool, config: Llm.Config, network: nat -> nat -> Reply,
                             md5: string -> string)
  {
    forall t: string, c: Cache, k: nat {:trigger TranslateSpec(t, fileMd5, c, ignoreCache, config, network(k), md5)} ::
      TranslateSpec(t, fileMd5, c, ignoreCache, config, network(k), md5) == call(t, c, k)
  }

  lemma TranslationImplements(fileMd5: string, ignoreCache: bool, config: Llm.Config, network: nat -> nat -> Reply,
                              md5: string -> string)
    ensures Implements(Translation(fileMd5, ignoreCache, config, network, md5), fileMd5, ignoreCache, config, network, md5)
  {
  }

  /** Call number `k` of the phase: translate `t` against the cache so far, then store what came back under the text's hash. */
  function Step(prev: Phase, t: string, k: nat, call: Call, fileMd5: string, md5: string -> string): Phase
  {
    var o := call(t, prev.cache, k);
    Phase(Store(o.cache, fileMd5, md5(t), o.result), prev.results + [o.result], prev.requests + o.requests)
  }

  /** The translate phase over `texts`, one call per text in order. */
  function Fill(texts: seq<string>, cache: Cache, call: Call, fileMd5: string, md5: string -> string): (p: Phase)
    ensures |p.results| == |texts|
  {
    if texts == [] then Phase(cache, [], 0)
    else Step(Fill(texts[..|texts| - 1], cache, call, fileMd5, md5), texts[|texts| - 1], |texts| - 1, call, fileMd5, md5)
  }

  /**
   * The translate loop: for each page in order that the debug range keeps,
   * each paragraph's text is translated (the cache answers if it can) and
   * the returned value is written under the text's hash.
   */
  method TranslatePhase(tc: TranslationCache, pages: PagesMap, order: seq<int>, debugMode: bool, startPage: int,
                        endPage: Option<int>, fileMd5: string, ignoreCache: bool, config: Llm.Config,
                        network: nat -> nat -> Reply, md5: string -> string)
    returns (requests: nat)
    requires forall k :: 0 <= k < |order| ==> order[k] in pages
    modifies tc
    ensures var p := Fill(Queue(pages, order, debugMode, startPage, endPage), old(tc.entries),
                          Translation(fileMd5, ignoreCache, config, network, md5), fileMd5, md5);
      tc.entries == p.cache && requests == p.requests
  {
    ghost var call := Translation(fileMd5, ignoreCache, config, network, md5);
    TranslationImplements(fileMd5, ignoreCache, config, network, md5);
    ghost var results: seq<string> := [];
    ghost var done: seq<string> := [];
    requests := 0;
    var calls := 0;
    for i := 0 to |order|
      invariant done == Queue(pages, order[..i], debugMode, startPage, endPage)
      invariant calls == |done|
      invariant Fill(done, old(tc.entries), call, fileMd5, md5) == Phase(tc.entries, results, requests)
    {
      var pageNum := order[i];
      QueueNext(pages, order, debugMode, startPage, endPage, i);
      if !OutsideOpenRange(debugMode, startPage, endPage, pageNum) {
        done, results, requests, calls :=
          TranslatePage(tc, pages[pageNum], fileMd5, ignoreCache, config, network, md5, call, old(tc.entries), done, results, requests, calls);
      }
    }
    assert order[..|order|] == order;
  }

  /** The inner loop of the translate phase: the paragraphs of one page, in order. */
  method TranslatePage(tc: TranslationCache, paragraphs: seq<Paragraph>, fileMd5: string, ignoreCache: bool,
                       config: Llm.Config, network: nat -> nat -> Reply, md5: string -> string, ghost call: Call,
                       ghost initial: Cache, ghost done: seq<string>, ghost results: seq<string>, requests: nat, calls: nat)
    returns (ghost done': seq<string>, ghost results': seq<string>, requests': nat, calls': nat)
    requires Implements(call, fileMd5, ignoreCache, config, network, md5)
    requires calls == |done|
    requires Fill(done, initial, call, fileMd5, md5) == Phase(tc.entries, results, requests)
    modifies tc
    ensures done' == done + Texts(paragraphs) && calls' == |done'|
    ensures Fill(done', initial, call, fileMd5, md5) == Phase(tc.entries, results', requests')
  {
    done', results', requests', calls' := done, results, requests, calls;
    for j := 0 to |paragraphs|
      invariant done' == done + Texts(paragraphs[..j])
      invariant calls' == |done'|
      invariant Fill(done', initial, call, fileMd5, md5) == Phase(tc.entries, results', requests')
    {
      TextsNext(paragraphs, j);
      done', results', requests', calls' :=
        TranslateParagraph(tc, paragraphs[j].text, fileMd5, ignoreCache, config, network, md5, call, initial, done', results', requests', calls');
    }
    assert paragraphs[..|paragraphs|] == paragraphs;
  }

  /** One paragraph: `translate_text`, then its result written under the text's hash. */
  method TranslateParagraph(tc: TranslationCache, text: string, fileMd5: string, ignoreCache: bool,
                            config: Llm.Config, network: nat -> nat -> Reply, md5: string -> string, ghost call: Call,
                            ghost initial: Cache, ghost done: seq<string>, ghost results: seq<string>, requests: nat, calls: nat)
    returns (ghost done': seq<string>, ghost results': seq<string>, requests': nat, calls': nat)
    requires Implements(call, fileMd5, ignoreCache, config, network, md5)
    requires calls == |done|
    requires Fill(done, initial, call, fileMd5, md5) == Phase(tc.entries, results, requests)
    modifies tc
    ensures done' == done + [text] && calls' == |done'|
    ensures Fill(done', initial, call, fileMd5, md5) == Phase(tc.entries, results', requests')
  {
    ghost var prev := Phase(tc.entries, results, requests);
    var translated, delays, used := tc.Translate(text, fileMd5, ignoreCache, config, network(calls), md5);
    tc.Put(fileMd5, md5(text), translated);
    assert Step(prev, text, calls, call, fileMd5, md5) == Phase(tc.entries, results + [translated], requests + used);
    FillNext(done, text, initial, call, fileMd5, md5);
    done', results', requests', calls' := done + [text], results + [translated], requests + used, calls + 1;
  }

  lemma FillNext(texts: seq<string>, t: string, cache: Cache, call: Call, fileMd5: string, md5: string -> string)
    ensures Fill(texts + [t], cache, call, fileMd5, md5) == Step(Fill(texts, cache, call, fileMd5, md5), t, |texts|, call, fileMd5, md5)
  {
    assert (texts + [t])[..|texts|] == texts;
  }

  // ---------------------------------------------------------------- properties

  /** Storing the same value twice is storing it once. */
  lemma StoreTwice(cache: Cache, fileMd5: string, h: string, v: string)
    ensures Store(Store(cache, fileMd5, h, v), fileMd5, h, v) == Store(cache, fileMd5, h, v)
  {
    var c := Store(cache, fileMd5, h, v);
    assert Store(c, fileMd5, h, v)[fileMd5] == c[fileMd5];
  }

  /** Storing back the value already there changes nothing. */
  lemma StoreSame(cache: Cache, fileMd5: string, h: string)
    requires fileMd5 in cache && h in cache[fileMd5]
    ensures Store(cache, fileMd5, h, cache[fileMd5][h]) == cache
  {
    var c := Store(cache, fileMd5, h, cache[fileMd5][h]);
    assert c[fileMd5] == cache[fileMd5];
  }

  /** A call leaves the cache as it found it except, possibly, this text's entry set to what it returned. */
  ghost predicate OwnEntryOnly(call: Call, fileMd5: string, md5: string -> string)
  {
    forall t, c, k :: call(t, c, k).cache == c || call(t, c, k).cache == Store(c, fileMd5, md5(t), call(t, c, k).result)
  }

  /** A call on a text whose hash is cached returns the cached value, asks nothing and changes nothing. */
  ghost predicate AnswersFromCache(call: Call, fileMd5: string, md5: string -> string)
  {
    forall t, c, k :: fileMd5 in c && md5(t) in c[fileMd5] ==> call(t, c, k) == Outcome(c[fileMd5][md5(t)], c, [], 0)
  }

  /** Whatever happens inside `translate_text` (hit, passthrough, success, failure), only the text's own entry can change. */
  lemma TranslationOwnEntryOnly(fileMd5: string, ignoreCache: bool, config: Llm.Config, network: nat -> nat -> Reply,
                                md5: string -> string)
    ensures OwnEntryOnly(Translation(fileMd5, ignoreCache, config, network, md5), fileMd5, md5)
  {
    var call := Translation(fileMd5, ignoreCache, config, network, md5);
    forall t, c, k
      ensures call(t, c, k).cache == c || call(t, c, k).cache == Store(c, fileMd5, md5(t), call(t, c, k).result)
    {
      OnlyOwnEntryChanges(t, fileMd5, c, ignoreCache, config, network(k), md5);
    }
  }

  /** Without `--ignore-cache`, `translate_text` answers a cached text from the cache. */
  lemma TranslationAnswersFromCache(fileMd5: string, config: Llm.Config, network: nat -> nat -> Reply, md5: string -> string)
    ensures AnswersFromCache(Translation(fileMd5, false, config, network, md5), fileMd5, md5)
  {
    var call := Translation(fileMd5, false, config, network, md5);
    forall t, c, k | fileMd5 in c && md5(t) in c[fileMd5]
      ensures call(t, c, k) == Outcome(c[fileMd5][md5(t)], c, [], 0)
    {
      CacheHit(t, fileMd5, c, config, network(k), md5);
    }
  }

  /**
   * Whatever happened inside the call, after one paragraph the cache is the
   * previous cache with this text's entry set to the value the call
   * returned, passthrough included.
   */
  lemma StepStoresResult(prev: Phase, t: string, k: nat, call: Call, fileMd5: string, md5: string -> string)
    requires OwnEntryOnly(call, fileMd5, md5)
    ensures var s := Step(prev, t, k, call, fileMd5, md5);
      |s.results| == |prev.results| + 1 && s.results[..|prev.results|] == prev.results &&
      s.cache == Store(prev.cache, fileMd5, md5(t), s.results[|prev.results|])
  {
    var o := call(t, prev.cache, k);
    StoreTwice(prev.cache, fileMd5, md5(t), o.result);
    assert (prev.results + [o.result])[..|prev.results|] == prev.results;
  }

  /** The last call of the phase: earlier results stay, and the cache gains only the last text's entry. */
  lemma FillLast(texts: seq<string>, cache: Cache, call: Call, fileMd5: string, md5: string -> string)
    requires texts != [] && OwnEntryOnly(call, fileMd5, md5)
    ensures var n := |texts| - 1;
      var prev := Fill(texts[..n], cache, call, fileMd5, md5);
      var p := Fill(texts, cache, call, fileMd5, md5);
      p.results[..n] == prev.results && p.cache == Store(prev.cache, fileMd5, md5(texts[n]), p.results[n])
  {
    var n := |texts| - 1;
    StepStoresResult(Fill(texts[..n], cache, call, fileMd5, md5), texts[n], n, call, fileMd5, md5);
  }

  /**
   * After the phase, each text's hash maps to what the last call on a text
   * with that hash returned: the translation, the cached value, or the text
   * itself when translation failed.
   */
  lemma {:induction false} FillStoresResult(texts: seq<string>, cache: Cache, call: Call, fileMd5: string,
                                            md5: string -> string, k: nat)
    requires OwnEntryOnly(call, fileMd5, md5)
    requires k < |texts|
    requires forall j :: k < j < |texts| ==> md5(texts[j]) != md5(texts[k])
    ensures var p := Fill(texts, cache, call, fileMd5, md5);
      Lookup(p.cache, fileMd5, md5(texts[k])) == Some(p.results[k])
  {
    var n := |texts| - 1;
    var init := texts[..n];
    var prev := Fill(init, cache, call, fileMd5, md5);
    var p := Fill(texts, cache, call, fileMd5, md5);
    FillLast(texts, cache, call, fileMd5, md5);
    if k < n {
      FillStoresResult(init, cache, call, fileMd5, md5, k);
      assert texts[k] == init[k];
      assert p.results[k] == p.results[..n][k] == prev.results[k];
    }
  }

  /** The cache has an entry under this file for the hash of every text. */
  ghost predicate Covered(c: Cache, fileMd5: string, texts: seq<string>, md5: string -> string)
  {
    forall j :: 0 <= j < |texts| ==> fileMd5 in c && md5(texts[j]) in c[fileMd5]
  }

  /** Storing one more hash keeps the texts already covered and covers a text with that hash. */
  lemma StoreKeeps(before: Cache, fileMd5: string, init: seq<string>, t: string, v: string, md5: string -> string)
    requires Covered(before, fileMd5, init, md5)
    ensures Covered(Store(before, fileMd5, md5(t), v), fileMd5, init + [t], md5)
  {
  }

  /** After the phase, every text that was translated has an entry under this file. */
  lemma {:induction false} FillCovers(texts: seq<string>, cache: Cache, call: Call, fileMd5: string, md5: string -> string)
    requires OwnEntryOnly(call, fileMd5, md5)
    ensures Covered(Fill(texts, cache, call, fileMd5, md5).cache, fileMd5, texts, md5)
  {
    if texts != [] {
      var n := |texts| - 1;
      var init := texts[..n];
      FillCovers(init, cache, call, fileMd5, md5);
      var prev := Fill(init, cache, call, fileMd5, md5);
      var p := Fill(texts, cache, call, fileMd5, md5);
      FillLast(texts, cache, call, fileMd5, md5);
      StoreKeeps(prev.cache, fileMd5, init, texts[n], p.results[n], md5);
      assert init + [texts[n]] == texts;
    }
  }

  /**
   * The phase touches nothing but this file's entries for the texts it
   * translated: other files keep theirs, and so do this file's other hashes.
   */
  lemma {:induction false} FillFrame(texts: seq<string>, cache: Cache, call: Call, fileMd5: string, md5: string -> string)
    requires OwnEntryOnly(call, fileMd5, md5)
    ensures var c := Fill(texts, cache, call, fileMd5, md5).cache;
      (forall d :: d in cache && d != fileMd5 ==> d in c && c[d] == cache[d]) &&
      (forall d :: d in c && d != fileMd5 ==> d in cache) &&
      (forall h :: fileMd5 in cache && h in cache[fileMd5] && (forall j :: 0 <= j < |texts| ==> md5(texts[j]) != h) ==>
         fileMd5 in c && h in c[fileMd5] && c[fileMd5][h] == cache[fileMd5][h])
  {
    if texts != [] {
      var init := texts[..|texts| - 1];
      FillFrame(init, cache, call, fileMd5, md5);
      FillLast(texts, cache, call, fileMd5, md5);
      assert forall j :: 0 <= j < |init| ==> texts[j] == init[j];
    }
  }

  /** When every hash is already cached and the call answers from the cache, the phase changes nothing and asks for nothing. */
  lemma {:induction false} FillOnCovered(texts: seq<string>, cache: Cache, call: Call, fileMd5: string, md5: string -> string)
    requires AnswersFromCache(call, fileMd5, md5)
    requires Covered(cache, fileMd5, texts, md5)
    ensures var p := Fill(texts, cache, call, fileMd5, md5);
      p.cache == cache && p.requests == 0 &&
      forall j :: 0 <= j < |texts| ==> p.results[j] == cache[fileMd5][md5(texts[j])]
  {
    if texts != [] {
      var init := texts[..|texts| - 1];
      assert Covered(cache, fileMd5, init, md5) by {
        forall j | 0 <= j < |init| ensures init[j] == texts[j] { }
      }
      FillOnCovered(init, cache, call, fileMd5, md5);
      StoreSame(cache, fileMd5, md5(texts[|texts| - 1]));
    }
  }

  /**
   * Running the translate phase a second time, without ignoring the cache,
   * makes no request, leaves the cache as the first run left it, and gets
   * back what the first run stored.
   */
  lemma RerunIsCacheHit(texts: seq<string>, cache: Cache, fileMd5: string, ignoreCache: bool,
                        config: Llm.Config, network: nat -> nat -> Reply, network2: nat -> nat -> Reply, md5: string -> string)
    ensures var p1 := Fill(texts, cache, Translation(fileMd5, ignoreCache, config, network, md5), fileMd5, md5);
      var p2 := Fill(texts, p1.cache, Translation(fileMd5, false, config, network2, md5), fileMd5, md5);
      p2.cache == p1.cache && p2.requests == 0 &&
      forall j :: 0 <= j < |texts| ==> Lookup(p1.cache, fileMd5, md5(texts[j])) == Some(p2.results[j])
  {
    var first := Translation(fileMd5, ignoreCache, config, network, md5);
    var second := Translation(fileMd5, false, config, network2, md5);
    TranslationOwnEntryOnly(fileMd5, ignoreCache, config, network, md5);
    TranslationAnswersFromCache(fileMd5, config, network2, md5);
    var c1 := Fill(texts, cache, first, fileMd5, md5).cache;
    FillCovers(texts, cache, first, fileMd5, md5);
    FillOnCovered(texts, c1, second, fileMd5, md5);
  }

  // ---------------------------------------------------------------- regenerate

  /** The name of the paragraph store for a document. */
  function ParagraphsFile(fileMd5: string): string
  {
    fileMd5 + "_paragraphs.json"
  }

  /** What regenerate does. */
  datatype Regenerated =
    | MissingParagraphs(path: string)   // error message naming the file; no renderer runs
    | Unreadable                         // the store does not decode (a key `int` rejects, a box not of four numbers)
    | OcrPdf(pages: PagesMap)           // the image-based renderer, on these paragraphs
    | CleanPdf(pages: PagesMap)         // the clean renderer, on these paragraphs

  /**
   * Regenerate, with `files` the paragraph stores present on disk: no store
   * is an error naming it; a store that does not decode is unreadable; any
   * other store's decoded paragraphs go to the OCR renderer for an
   * image-based document and to the clean renderer otherwise.
   */
  function Regenerate(fileMd5: string, files: string -> Option<ParagraphStore.Stored>, imageBased: bool): (r: Regenerated)
    ensures r.MissingParagraphs? <==> files(ParagraphsFile(fileMd5)).None?
    ensures r.MissingParagraphs? ==> r.path == ParagraphsFile(fileMd5)
    ensures files(ParagraphsFile(fileMd5)).Some? ==>
      (r.Unreadable? <==> ParagraphStore.Decode(files(ParagraphsFile(fileMd5)).value).None?)
    ensures (r.OcrPdf? || r.CleanPdf?) ==> (r.OcrPdf? <==> imageBased)
    ensures (r.OcrPdf? || r.CleanPdf?) ==> Some(r.pages) == ParagraphStore.Decode(files(ParagraphsFile(fileMd5)).value)
  {
    match files(ParagraphsFile(fileMd5))
      case None => MissingParagraphs(ParagraphsFile(fileMd5))
      case Some(stored) =>
        match ParagraphStore.Decode(stored)
          case None => Unreadable
          case Some(pages) => if imageBased then OcrPdf(pages) else CleanPdf(pages)
  }

  /**
   * Regenerating from the store the translate command wrote hands the
   * renderer exactly the paragraphs that were extracted, and picks the
   * renderer by the classification.
   */
  lemma RegenerateAfterTranslate(fileMd5: string, files: string -> Option<ParagraphStore.Stored>, imageBased: bool,
                                 pages: PagesMap, order: seq<int>)
    requires ParagraphStore.IsOrder(order, pages)
    requires files(ParagraphsFile(fileMd5)) == Some(ParagraphStore.Encode(pages, order))
    ensures Regenerate(fileMd5, files, imageBased) == if imageBased then OcrPdf(pages) else CleanPdf(pages)
  {
    ParagraphStore.DecodeEncode(pages, order);
  }
}
