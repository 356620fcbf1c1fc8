# PDF translator core, modelled in Dafny

This project models the core of a command-line tool that translates English PDF
documents into Russian and rebuilds the PDF with the translations laid over the
original text.

The tool has two commands.

- `translate` classifies the document as text-based or image-based. It extracts
  paragraphs, either from PyMuPDF text blocks or from OCR tokens grouped into
  paragraphs, and saves them to `<md5>_paragraphs.json`. It then translates
  every paragraph through a chat-completion endpoint, behind a two-level cache
  (`file md5 -> text md5 -> translation`).
- `regenerate` loads the saved paragraphs and draws the translations. For an
  image-based document it uses the OCR renderer. Otherwise it uses the "clean"
  renderer, which rasterises each page as a background, covers each paragraph
  with a white box and writes the translation at the largest of the sizes
  11..6 that fits.

Everything outside the program is a parameter:

- the MD5 hash and the language detector;
- the file system (`present`, `files`) and the environment;
- the endpoint's replies (`post`, `network`);
- the font metrics (`width`, `measure`, `lineHeight`) and page heights;
- whether the `tiro` font loads and whether it can be inserted into a page.

Drawing calls are recorded as `Canvas.Draw` values rather than executed. Page
coordinates are `real`. Pixel sizes in the image fallback are `int`, with
Python's truncating `int()` written out (`Fallback.Trunc`).

Modules, one per component:

| module | component |
|---|---|
| `Wrappers`, `PyStr` | `Option`; Python's `str.strip`, `split`, `join` |
| `Fragments`, `Canvas` | boxes, paragraphs, PyMuPDF blocks, debug page range; drawing records |
| `TextUtils` | `is_formula`, `extract_paragraphs` |
| `Ocr` | `is_image_based_pdf`, OCR token grouping, `extract_text_with_ocr` |
| `Llm` | `load_api_config` |
| `Translator` | `translate_text`: the cache and the retry loop; class `TranslationCache` |
| `Fonts` | `load_cyrillic_font`, `check_font_availability`, the OCR renderer's font search |
| `Wrap` | the two word-wrap loops: estimated width (clean renderer) and measured width (OCR renderer, image fallback) |
| `CleanRender` | `create_clean_translated_pdf` |
| `OcrRender` | `create_translated_pdf_ocr_approach` |
| `Fallback` | `fallback_insert_text_as_image` |
| `ParagraphStore` | the `<md5>_paragraphs.json` encoding and decoding |
| `TranslateQueue` | the order in which the translate phase reaches the paragraphs |
| `Pipeline` | the translate phase's cache fill and regenerate's dispatch |

## Model

| member | source | states |
|---|---|---|
| `PyStr.StripEmpty` | pdf_translator/text_utils.py:41 | `text.strip()` is empty exactly when the text is all whitespace |
| `PyStr.Strip` | pdf_translator/text_utils.py:41 | `str.strip()` never lengthens the text, and the result neither starts nor ends with whitespace |
| `PyStr.StripChars` | pdf_translator/llm.py:21 | `strip('"\'')` never lengthens the value, and the result neither starts nor ends with a quote |
| `PyStr.TrimStartDropped` | pdf_translator/text_utils.py:41 | `lstrip` keeps a suffix of the text, and every character it removed is one to drop |
| `PyStr.TrimEndDropped` | pdf_translator/text_utils.py:41 | `rstrip` keeps a prefix of the text, and every character it removed is one to drop |
| `PyStr.SplitWords` | pdf_translator/text_utils.py:14 | every piece `split()` yields is a non-empty, whitespace-free word |
| `PyStr.SplitKeepsText` | pdf_translator/translate.py:440 | the words `split()` yields, laid end to end, are exactly the text's non-whitespace characters in order |
| `PyStr.SplitJoin` | pdf_translator/translate.py:440 | `split()` of the space-joined words gives back those words, so it cuts exactly at the whitespace between them |
| `PyStr.JoinCons` | pdf_translator/translate.py:388 | joining two or more words is the first word, a space, and the rest joined |
| `PyStr.JoinAppend` | pdf_translator/translate.py:388 | joining one more word appends a space and the word, so the length grows by one plus the word's |
| `PyStr.IndexOfMeaning` | pdf_translator/llm.py:19 | the first `=` of a line: found at an index holding `=` with none before it, or absent from the line |
| `TextUtils.IsFormulaIntegral` | pdf_translator/text_utils.py:7-15 | the 5% ratio test `count / len > 0.05` is exactly `20 * count > len`, so the formula test is decided in integers |
| `TextUtils.NoIndicatorNeverFormula` | pdf_translator/text_utils.py:10-15 | a text with none of the fourteen indicator characters is never a formula |
| `TextUtils.RatioAboveTwentieth` | pdf_translator/text_utils.py:15 | for a positive length, `count / len > 0.05` holds iff `20 * count > len` |
| `TextUtils.QualifiesExactly` | pdf_translator/text_utils.py:41-52 | a text block is kept iff its stripped text is longer than 10, it is not a formula, and detection said `en` or raised |
| `TextUtils.KeptParagraphsQualify` | pdf_translator/text_utils.py:38-52 | every emitted paragraph is the unstripped text and first four fields of a type-0 block, longer than 10 stripped, and not a formula |
| `TextUtils.KeptParagraphsComplete` | pdf_translator/text_utils.py:38-52 | every type-0 block whose text qualifies is emitted |
| `TextUtils.NonTextBlockIgnored` | pdf_translator/text_utils.py:39 | a block whose type is not 0 adds nothing |
| `TextUtils.CollectConcat` | pdf_translator/text_utils.py:38-52 | paragraphs keep block order |
| `TextUtils.ExtractPage` | pdf_translator/text_utils.py:36-52 | the block loop computes the kept paragraphs of the page, in block order |
| `TextUtils.ExtractParagraphs` | pdf_translator/text_utils.py:17-57 | every page index gets an entry; a page outside the debug range maps to `[]`, any other to its kept blocks |
| `Ocr.PageRatio` | pdf_translator/ocr.py:32-40 | a page's text ratio lies in [0, 1] and is 0 for a page with no text or image blocks |
| `Ocr.AverageTextRatio` | pdf_translator/ocr.py:27-43 | the averaged ratio lies in [0, 1] |
| `Ocr.OnlyFirstPagesSampled` | pdf_translator/ocr.py:27 | pages after the fifth do not change the classification |
| `Ocr.IsImageBasedPdf` | pdf_translator/ocr.py:14-47 | no result (division by zero) exactly for a document without pages; otherwise image-based iff the average ratio is below the threshold |
| `Ocr.HullContains` | pdf_translator/ocr.py:85-92 | the grown box of a run contains every token's box |
| `Ocr.HullTight` | pdf_translator/ocr.py:85-92 | each side of the grown box is some token's side |
| `Ocr.RunsCover` | pdf_translator/ocr.py:77-110 | the runs, concatenated, are exactly the non-blank tokens in order |
| `Ocr.RunsSplit` | pdf_translator/ocr.py:95-110 | a blank token ends the current run: runs of `a + [blank] + b` are runs of `a` then runs of `b` |
| `Ocr.RunsUnbroken` | pdf_translator/ocr.py:79-94 | a stretch of non-blank tokens is one run |
| `Ocr.OcrParagraphContainsTokens` | pdf_translator/ocr.py:95-121 | each OCR paragraph is the space-joined text of one run, longer than 10 stripped, not a formula, with a box containing all its tokens |
| `Ocr.GroupTokens` | pdf_translator/ocr.py:72-121 | the grouping loop computes the paragraphs of the runs that qualify, the last run included |
| `Ocr.GroupRuns` | pdf_translator/ocr.py:77-121 | the token loop, with its flush on a blank token and after the last token, computes the kept paragraphs of the runs |
| `Ocr.GroupStep` | pdf_translator/ocr.py:78-110 | one token of the loop keeps the run's texts and box in step with the run, and moves the token from the pending tokens into the paragraphs and run |
| `Ocr.ExtendRun` | pdf_translator/ocr.py:85-94 | a non-blank token appends its text, and the box becomes the token's box or grows to the hull of the run |
| `Ocr.PendingStep` | pdf_translator/ocr.py:78-110 | a non-blank token joins the run; a blank one after an empty run does nothing; a blank one after a run emits that run's paragraph when kept |
| `Ocr.FlushRun` | pdf_translator/ocr.py:95-110 | flushing a run keeps its joined text and hull exactly when the text qualifies |
| `Ocr.ExtractTextWithOcr` | pdf_translator/ocr.py:49-125 | every page index gets an entry; skipped pages map to `[]`, others to their grouped paragraphs |
| `Ocr.OcrPageParagraphs` | pdf_translator/ocr.py:63-123 | the page loop's body: nothing for a page outside the debug range, else the page's grouped paragraphs |
| `Llm.ParseLineMeaning` | pdf_translator/llm.py:17-23 | a line is skipped iff blank or a comment; it raises (ending the read) iff it has no `=`; otherwise key and value are the stripped text before and after the first `=`, the value with quotes stripped |
| `Llm.ParseStrippedMeaning` | pdf_translator/llm.py:18-21 | on a stripped line: skipped iff empty or starting with `#`; malformed iff neither and without `=`; otherwise split at the first `=`, both halves stripped and the value's quotes stripped |
| `Llm.Store` | pdf_translator/llm.py:22-23 | a known key then holds the value; every other key, and every key when the key is unknown, keeps what it held |
| `Llm.Override` | pdf_translator/llm.py:29-33 | a non-empty environment variable replaces the file's value |
| `Llm.LoadApiConfig` | pdf_translator/llm.py:4-41 | the method computes the file's lines up to the first malformed one, then the environment override |
| `Llm.StoppedStays` | pdf_translator/llm.py:14-25 | once a line has raised, the remaining lines are not read |
| `Llm.FeedAppend` | pdf_translator/llm.py:14-25 | reading `a + b` is reading `a`, then `b` only if `a` did not raise |
| `Llm.SkippedLineIgnored` | pdf_translator/llm.py:17-18 | blank and comment lines change nothing |
| `Llm.MalformedLineStops` | pdf_translator/llm.py:19-25 | a line without `=` keeps what was read before it and drops everything after |
| `Llm.LastAssignmentWins` | pdf_translator/llm.py:19-23 | for either key, the last line assigning it before any malformed line gives its value |
| `Llm.FeedKeeps` | pdf_translator/llm.py:19-23 | lines that never assign a key leave its value as it was |
| `Llm.UnassignedStaysNone` | pdf_translator/llm.py:6-23 | a key no line of the file assigns stays `None` |
| `Llm.OtherKeysIgnored` | pdf_translator/llm.py:22 | assignments to other keys are ignored |
| `Translator.RetryOver` | pdf_translator/translate.py:52-92 | the loop from a given attempt makes at most the remaining number of requests, and, with an attempt left, at least one, sleeping once fewer than it requests |
| `Translator.Store` | pdf_translator/translate.py:73-75 | the entry is set; other files' dictionaries and this file's other hashes are unchanged |
| `Translator.PostWithRetries` | pdf_translator/translate.py:52-94 | the loop computes the retry outcome: translation, sleeps and request count |
| `Translator.RetryBounds` | pdf_translator/translate.py:34-92 | 1 to 3 requests, one fewer sleeps than requests, sleeping 2 then 4 seconds |
| `Translator.CacheHit` | pdf_translator/translate.py:20-22 | a cache hit returns the cached value with no request and no change |
| `Translator.IncompleteConfigPassesThrough` | pdf_translator/translate.py:25-32 | without a key or endpoint the text comes back unchanged, with no request |
| `Translator.OnlyOwnEntryChanges` | pdf_translator/translate.py:73-75 | the cache changes only at this file's entry for this text, and then to the returned value |
| `Translator.StoredIffTranslated` | pdf_translator/translate.py:60-94 | after a request, a translation is returned and cached; otherwise the text is returned and the cache is unchanged |
| `Translator.AllAttemptsFail` | pdf_translator/translate.py:78-92 | three failures: three requests, sleeps 2 and 4, no translation |
| `Translator.NoChoicesStopsAtOnce` | pdf_translator/translate.py:62-66 | a 200 without `choices` returns the text after one request |
| `Translator.SuccessOnThirdAttempt` | pdf_translator/translate.py:52-77 | two failures then success: three requests, sleeps 2 and 4, and the stripped content |
| `Translator.SecondCallHitsCache` | pdf_translator/translate.py:20-77 | after a call that stored its translation, translating the same text again without `--ignore-cache` is a cache hit on it, whatever the endpoint would answer |
| `Translator.TranslationCache.Put` | pdf_translator/translate.py:73-75 | the in-place update is `Store` |
| `Translator.TranslationCache.Translate` | pdf_translator/translate.py:14-94 | the method's result and cache update are those of the specification |
| `Fonts.FirstExisting` | pdf_translator/translate.py:113-119 | a path found is one of the listed paths, and it exists |
| `Fonts.FirstExistingMeaning` | pdf_translator/translate.py:113-119 | the path found exists and no earlier path does; none is found iff no path exists |
| `Fonts.FindFirst` | pdf_translator/ocr.py:150-153 | the search loop finds `FirstExisting` |
| `Fonts.LoadCyrillicFont` | pdf_translator/translate.py:101-119 | the first existing path of the two macOS fonts |
| `Fonts.Put` | pdf_translator/translate.py:161 | a dictionary assignment: a new key goes last, an existing key keeps its place; only that key's value changes |
| `Fonts.PutNames` | pdf_translator/translate.py:161 | an assignment keeps the order of the names: an existing name stays in place, a new one goes last |
| `Fonts.CheckFontAvailability` | pdf_translator/translate.py:122-164 | the loop computes `Available` over the recommended list |
| `Fonts.AvailableNames` | pdf_translator/translate.py:158-162 | a name is missing iff none of its entries has an existing path |
| `Fonts.LastEntryWins` | pdf_translator/translate.py:158-162 | a name maps to the first existing path of its last entry that has one |
| `Fonts.AvailableUnique` | pdf_translator/translate.py:156-164 | each name appears once |
| `Fonts.PutUnique` | pdf_translator/translate.py:161 | a dictionary assignment keeps each name appearing once |
| `Fonts.FindFallbackFont` | pdf_translator/translate.py:176-177 | the image fallback's font is the first value of the availability dictionary |
| `Fonts.FirstNameStaysFirst` | pdf_translator/translate.py:158-162 | the first name found stays first even when a later entry overwrites its path |
| `Fonts.TimesOverwrittenInPlace` | pdf_translator/translate.py:151-177 | with both Times New Roman files present, the fallback font is the Windows path |
| `Wrap.EstWrapShape` | pdf_translator/translate.py:383-404 | the estimated wrap loses no word and keeps order; its lines are non-empty |
| `Wrap.EstLinesWords` | pdf_translator/translate.py:440-463 | the lines, concatenated, are the words, and none is empty |
| `Wrap.EstLinesFit` | pdf_translator/translate.py:449-452 | every line of more than one word passes the width estimate |
| `Wrap.EstWrapFit` | pdf_translator/translate.py:383-404 | every completed line and the pending line, when of more than one word, pass the width estimate |
| `Wrap.FewerLinesWhenSmaller` | pdf_translator/translate.py:391 | a smaller size never needs more lines |
| `Wrap.JoinAll` | pdf_translator/translate.py:219 | one joined string per group |
| `Wrap.MeasuredLinesMeaning` | pdf_translator/ocr.py:225-239 | the measured wrap loses no word; a line that does not fit holds one over-long word |
| `Wrap.MeasuredWrapShape` | pdf_translator/ocr.py:225-239 | the measured wrap's lines and pending line hold all words in order; each multi-word line measures within the width |
| `Wrap.WrapMeasured` | pdf_translator/ocr.py:221-239 | the loop computes the joined lines of the measured wrap |
| `CleanRender.TryFontSize` | pdf_translator/translate.py:355-426 | the test loop, with its early exit, decides `FitsAt`: one line, or every break's offset within the height less 5 |
| `CleanRender.PlaceWord` | pdf_translator/translate.py:383-404 | one word of the estimate loop is one step of the estimated wrap; a break finishes exactly the open line |
| `CleanRender.FitsAtByWrap` | pdf_translator/translate.py:404-409 | fitting is decided by the number of completed lines |
| `CleanRender.OverflowIsFinal` | pdf_translator/translate.py:407-409 | once the offset overflows, the size cannot fit however the rest wraps |
| `CleanRender.ChooseFontSize` | pdf_translator/translate.py:353-426 | the loop returns the first candidate that fits |
| `CleanRender.FitsMonotone` | pdf_translator/translate.py:355-409 | if a size fits, every smaller size fits |
| `CleanRender.FirstFittingMeaning` | pdf_translator/translate.py:419-423 | no size iff none fits; otherwise the first one in list order that fits |
| `CleanRender.LargestFit` | pdf_translator/translate.py:355-423 | over descending sizes, none is chosen iff the smallest does not fit; otherwise the chosen size fits, larger ones fail and smaller ones fit |
| `CleanRender.ChosenSizeIsLargestFit` | pdf_translator/translate.py:355-423 | no size iff 6 does not fit; otherwise the chosen size fits, every larger candidate fails and every smaller one fits |
| `CleanRender.Placed` | pdf_translator/translate.py:455-463 | one text call per line |
| `CleanRender.PlacedIndex` | pdf_translator/translate.py:436-463 | line `k` is drawn at `x0 + 2` with baseline `y0 + size + k * (size + 2)` |
| `CleanRender.Commit` | pdf_translator/translate.py:429-463 | the commit loop draws the white box, then the lines of the estimated wrap at the chosen size |
| `CleanRender.CommitLayout` | pdf_translator/translate.py:429-463 | the drawn lines hold all words in order; multi-word lines pass the estimate; at a fitting size every baseline after the first stays within the box bottom less 5 plus the size |
| `CleanRender.ParagraphReplaced` | pdf_translator/translate.py:338-465 | a paragraph is redrawn iff it is not a formula and its translation fits at size 6; the drawing is the white box plus the lines at the largest fitting size |
| `CleanRender.RenderParagraph` | pdf_translator/translate.py:338-465 | the method computes `ParagraphOps` |
| `CleanRender.PageOpsFails` | pdf_translator/translate.py:340 | a page fails (`is_formula` divides by zero) iff one of its paragraph texts is empty |
| `CleanRender.PageOpsFailsAt` | pdf_translator/translate.py:340 | an empty paragraph text anywhere on the page makes the page fail |
| `CleanRender.PageOpsAppend` | pdf_translator/translate.py:338 | paragraphs are drawn in order |
| `CleanRender.CleanDocumentPages` | pdf_translator/translate.py:280-335 | one output page per input page, in order; a page outside the debug range is copied as it is |
| `CleanRender.RenderParagraphs` | pdf_translator/translate.py:338-465 | the loop computes `PageOps` |
| `CleanRender.RenderCleanPage` | pdf_translator/translate.py:280-465 | the loop body computes `CleanPage`: copied, or the background then the paragraphs with the page's font name |
| `CleanRender.CreateCleanTranslatedPdf` | pdf_translator/translate.py:254-476 | the page loop computes `CleanDocument` |
| `OcrRender.PlaceFromVisible` | pdf_translator/ocr.py:243-246 | a line with room is drawn at `x0 + 2`, `(j + 1) * 14` below the box top |
| `OcrRender.PlaceFromStop` | pdf_translator/ocr.py:247-253 | the first line without room ends the drawing, with "..." on the previous line's baseline unless it is the first line |
| `OcrRender.PlaceFromAll` | pdf_translator/ocr.py:243-246 | when all lines have room, all are drawn |
| `OcrRender.PlaceMeaning` | pdf_translator/ocr.py:241-253 | the three placement cases together, for the whole list |
| `OcrRender.PlaceLines` | pdf_translator/ocr.py:242-253 | the loop with its `break` computes `Place` |
| `OcrRender.OcrParagraphLayout` | pdf_translator/ocr.py:212-253 | white rectangle first, in bottom-left coordinates; the wrap keeps all words; multi-word lines fit the width less 4; lines with room are drawn in order |
| `OcrRender.OcrGroups` | pdf_translator/ocr.py:225-239 | the wrap of a paragraph's translation keeps its words in order, and multi-word lines fit the box width less 4 |
| `OcrRender.OcrVisibleLines` | pdf_translator/ocr.py:241-246 | after the cover, every wrapped line with room is drawn at its baseline |
| `OcrRender.OcrLineAt` | pdf_translator/ocr.py:241-246 | line `j`, when it has room, is drawn as record `1 + j`, `(j + 1) * 14` below the box top |
| `OcrRender.OpsAfterCover` | pdf_translator/ocr.py:212-253 | after the white cover come exactly the placed lines |
| `OcrRender.RenderOcrParagraph` | pdf_translator/ocr.py:208-253 | the method computes `OcrParagraphOps` |
| `OcrRender.OcrPages` | pdf_translator/ocr.py:172-262 | one output page per input page |
| `OcrRender.OcrPagesIndex` | pdf_translator/ocr.py:172-184 | output page `i` is page `i`'s rendering at its own height |
| `OcrRender.OcrDocumentMeaning` | pdf_translator/ocr.py:137-184 | no output iff no listed font exists; otherwise a skipped page or a page without paragraphs is copied |
| `OcrRender.RenderOcrPage` | pdf_translator/ocr.py:173-262 | the method computes `OcrPage` |
| `OcrRender.CreateTranslatedPdfOcrApproach` | pdf_translator/ocr.py:127-272 | font search, then the page loop, computes `OcrDocument` |
| `Fallback.TruncTowardZero` | pdf_translator/translate.py:172-173 | `int()` drops the fraction toward zero |
| `Fallback.Offsets` | pdf_translator/translate.py:229-243 | one drawn line per wrapped line |
| `Fallback.OffsetsMeaning` | pdf_translator/translate.py:229-243 | lines drawn at x = 5, the first at y = 5, each next one lower by the previous line's height plus 2 |
| `Fallback.OffsetsDescend` | pdf_translator/translate.py:243 | with non-negative heights the lines move strictly down |
| `Fallback.ImageGroupsMeaning` | pdf_translator/translate.py:193-226 | the wrap keeps all words; every multi-word line measures at most the width less 10 |
| `Fallback.DrawLines` | pdf_translator/translate.py:229-243 | the loop computes `Offsets` from y = 5 |
| `Fallback.WrapAndDraw` | pdf_translator/translate.py:193-243 | wrap then draw computes `ImageLines` |
| `Fallback.FallbackInsertTextAsImage` | pdf_translator/translate.py:166-251 | the font is the first available fallback font; the image is the box-sized image with the wrapped lines |
| `Fallback.DrawTextImage` | pdf_translator/translate.py:172-243 | the image has the box's truncated size and the wrapped lines drawn on it |
| `ParagraphStore.NatToString` | pdf_translator/main.py:73 | `str(n)` is non-empty and all digits |
| `ParagraphStore.ParseIntToString` | pdf_translator/main.py:73-113 | `int(str(n)) == n` for every integer |
| `ParagraphStore.NatToStringValue` | pdf_translator/main.py:73 | the digits of `str(n)` read back as `n` |
| `ParagraphStore.EncodeParagraphs` | pdf_translator/main.py:74-76 | one stored pair per paragraph |
| `ParagraphStore.Encode` | pdf_translator/main.py:71-76 | one stored item per page, in dictionary order |
| `ParagraphStore.DecodeEncodeParagraphs` | pdf_translator/main.py:74-115 | `tuple(list(bbox))` gives back each text and box |
| `ParagraphStore.DecodeEncode` | pdf_translator/main.py:70-116 | decoding what was encoded gives back the same page-to-paragraphs mapping |
| `ParagraphStore.LaterItemWins` | pdf_translator/main.py:112-115 | a later item for the same page replaces the earlier one |
| `ParagraphStore.BadKeyFails` | pdf_translator/main.py:113 | a key `int()` rejects makes the load fail |
| `TranslateQueue.Texts` | pdf_translator/main.py:87 | the texts of a page's paragraphs, one per paragraph, in order |
| `Pipeline.Fill` | pdf_translator/main.py:87-96 | one result per translated text |
| `Pipeline.TranslatePhase` | pdf_translator/main.py:83-96 | the loop over pages and paragraphs leaves the cache and request count of `Fill` over the queued texts |
| `Pipeline.TranslatePage` | pdf_translator/main.py:87-96 | the paragraph loop for one page advances the fill by exactly that page's texts |
| `Pipeline.TranslateParagraph` | pdf_translator/main.py:90-96 | one paragraph advances the fill by one call: `translate_text`, then its result written under the text's hash |
| `Pipeline.TranslationOwnEntryOnly` | pdf_translator/translate.py:14-94 | whatever `translate_text` does (hit, passthrough, success or failure), it changes at most the text's own entry, and sets it to what it returns |
| `Pipeline.TranslationAnswersFromCache` | pdf_translator/translate.py:20-22 | without `--ignore-cache`, a text whose hash is cached gets the cached value, with no request and no change |
| `Pipeline.FillLast` | pdf_translator/main.py:87-96 | the last call keeps the earlier results and sets only the last text's entry |
| `Pipeline.StepStoresResult` | pdf_translator/main.py:90-96 | for a call that changes at most its own entry, as `translate_text` does, one paragraph appends one result, and the cache is the previous cache with this text's entry set to that result, passthrough included |
| `Pipeline.FillStoresResult` | pdf_translator/main.py:87-96 | for such a call, after the phase each text's hash maps to what the last call on a text with that hash returned |
| `Pipeline.FillCovers` | pdf_translator/main.py:93-96 | for such a call, after the phase every translated text has an entry under this file |
| `Pipeline.FillFrame` | pdf_translator/main.py:93-96 | for such a call, other files' entries are unchanged, no other file gains one, and this file keeps its entries for hashes no text has |
| `Pipeline.FillOnCovered` | pdf_translator/main.py:90 | for a call that answers cached texts from the cache, as `translate_text` does without `--ignore-cache`: when every hash is cached, the phase makes no request, changes nothing and returns the cached values |
| `Pipeline.RerunIsCacheHit` | pdf_translator/main.py:83-96 | a second run without `--ignore-cache` makes no request, leaves the cache as the first run left it, and returns what it stored |
| `TranslateQueue.SkippedPagesMakeNoCall` | pdf_translator/main.py:84-85 | pages outside the debug range queue no text, so they cause no translation call |
| `TranslateQueue.QueueWithoutDebug` | pdf_translator/main.py:83-90 | without debug mode every page's texts are queued, page by page in order |
| `TranslateQueue.QueueAppend` | pdf_translator/main.py:83-87 | the queue of two runs of pages is the first run's queue followed by the second's |
| `Pipeline.Regenerate` | pdf_translator/main.py:102-131 | a missing store is an error naming `<md5>_paragraphs.json`, with no renderer; a present store is unreadable iff it does not decode; otherwise its decoded paragraphs go to a renderer, the OCR one iff the document is image-based |
| `Pipeline.RegenerateAfterTranslate` | pdf_translator/main.py:70-131 | regenerating from the store that translate wrote hands the chosen renderer exactly the extracted paragraphs |

## Left out

- File and JSON I/O are modelled by their contents, as parameters: the cache file, the config file, the paragraph store and `os.path.exists`. JSON text itself is not modelled: the store is the decoded object, kept as an ordered list of items.
- MD5 hashing is a parameter, and nothing assumes it is injective.
- Language detection is a parameter; `None` means it raised.
- HTTP and sleeping: replies are a parameter and sleeps are recorded as delays.
- PyMuPDF, reportlab, PyPDF2, PIL, pytesseract and pdf2image are not modelled. Drawing calls are recorded values; OCR tokens and PDF blocks are inputs; glyph widths and heights are parameters.
- Coordinates are exact reals; IEEE rounding is not modelled.
- The PDF text approach's `insert_text` is assumed not to raise. The fitting loop's `except` branches at pdf_translator/translate.py:395-401 and :413-417 are therefore not modelled.
- The mask and temporary documents of the clean renderer (pdf_translator/translate.py:298-320) are computed but never used, and are left out.
- `translate_text` reads the configuration on every call. The model takes the configuration as a parameter instead, since `load_api_config` is modelled on its own.
- The driver passes arguments to the renderers in the wrong positions, and the OCR renderer calls `translate_text(text)` without its required arguments. These call sites are not modelled; the renderers take their debug range and translation as parameters:
  - pdf_translator/main.py:121-123 passes the cache, md5 and font as `debug_mode`, `start_page` and `end_page`;
  - pdf_translator/ocr.py:210 is the bare `translate_text(text)` call.
- pdf_translator/main.py:84 reads `DEBUG_END_PAGE`, which is never bound when `--end-page` is absent. The model treats an absent end page as an open bound (`Fragments.OutsideOpenRange`).
- Argument parsing, the informational messages at pdf_translator/main.py:34-57, and packaging are left out.
- The extractors and the OCR renderer compare page numbers against integer bounds only. Their `None` defaults would raise when debug mode is on, and that case is not modelled.
- `ParagraphStore.ParseInt` accepts an optional minus sign followed by digits. The other forms `int()` accepts (surrounding whitespace, `+`, underscores) are not modelled, and a store key in one of those forms decodes to failure.
- `ParagraphStore.DecodeParagraphs`: the model's box has exactly four numbers, so a stored box of another length is rejected at load. The source would carry such a box into the renderer.
- `Ocr.IsImageBasedPdf`: a document without pages divides by zero, which the model reports as `None`.
- The `debug_mode` prints of `translate_text` are left out, since they change nothing.
- `utils.py` is not part of this model.
