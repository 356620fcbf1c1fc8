/**
 * `translate_text`: a two-level cache `file md5 -> text md5 -> translation`
 * in front of a chat-completion endpoint that is tried at most three times.
 * The endpoint's replies, the configuration and the hash are inputs; each
 * sleep between attempts is recorded as a delay.
 */
module Translator {
  import opened Wrappers
  import opened PyStr
  import Llm

  /** The JSON body of a 200 reply, as far as the code looks into it. */
  datatype Body =
    | NoChoices                        // no `response` or no `response.choices`
    | Choices(content: Option<string>) // `choices[0].message.content`; `None` when that lookup raises

  /** What one POST gives back: an exception, or a status code with a body. */
  datatype Reply = Raised | Response(status: int, body: Body)

  type Cache = map<string, map<string, string>>

  const MAX_RETRIES: nat := 3
  const FIRST_DELAY: nat := 2

  /** The retry loop's outcome: the stripped translation, if one came back; the sleeps taken; the requests made. */
  datatype RetryLog = RetryLog(translated: Option<string>, delays: seq<nat>, requests: nat)

  /** A reply that ends the loop with a translation. */
  predicate Succeeds(r: Reply)
  {
    r.Response? && r.status == 200 && r.body.Choices? && r.body.content.Some?
  }

  /** A reply that ends the loop at once with the original text: a 200 without choices. */
  predicate GivesUp(r: Reply)
  {
    r.Response? && r.status == 200 && r.body.NoChoices?
  }

  /** The replies the endpoint would give to the first, second and third POST. */
  function Attempts(post: nat -> Reply): (rs: seq<Reply>)
    ensures |rs| == MAX_RETRIES && forall a :: 0 <= a < MAX_RETRIES ==> rs[a] == post(a)
  {
    [post(0), post(1), post(2)]
  }

  /**
   * The retry loop over the replies still to come, with `delay` the next
   * sleep: success returns, a 200 without choices returns the original text,
   * anything else sleeps and doubles the delay unless it was the last attempt.
   */
  function RetryOver(replies: seq<Reply>, delay: nat): (log: RetryLog)
    ensures log.requests <= |replies|
    ensures replies != [] ==> 1 <= log.requests && |log.delays| == log.requests - 1
  {
    if replies == [] then RetryLog(None, [], 0)
    else
      var reply := replies[0];
      if Succeeds(reply) then RetryLog(Some(Strip(reply.body.content.value)), [], 1)
      else if GivesUp(reply) then RetryLog(None, [], 1)
      else if |replies| > 1 then
        var rest := RetryOver(replies[1..], delay * 2);
        RetryLog(rest.translated, [delay] + rest.delays, rest.requests + 1)
      else RetryLog(None, [], 1)
  }

  /** The whole retry loop, as `translate_text` starts it. */
  function Retry(post: nat -> Reply): RetryLog
  {
    RetryOver(Attempts(post), FIRST_DELAY)
  }

  /** `cache[fileMd5][textMd5] = t`, creating the inner dictionary when the file has none. */
  function Store(cache: Cache, fileMd5: string, textMd5: string, t: string): (c: Cache)
    ensures Lookup(c, fileMd5, textMd5) == Some(t)
    ensures forall d :: d in cache && d != fileMd5 ==> d in c && c[d] == cache[d]
    ensures forall h :: h != textMd5 ==> Lookup(c, fileMd5, h) == Lookup(cache, fileMd5, h)
  {
    var inner := if fileMd5 in cache then cache[fileMd5] else map[];
    cache[fileMd5 := inner[textMd5 := t]]
  }

  /** The cached translation of a text, if any. */
  function Lookup(cache: Cache, fileMd5: string, textMd5: string): Option<string>
  {
    if fileMd5 in cache && textMd5 in cache[fileMd5] then Some(cache[fileMd5][textMd5]) else None
  }

  /** What one call of `translate_text` returns and leaves behind. */
  datatype Outcome = Outcome(result: string, cache: Cache, delays: seq<nat>, requests: nat)

  /** The meaning of `translate_text(text, fileMd5, cache, ignoreCache)`, with `md5` the text hash. */
  function TranslateSpec(text: string, fileMd5: string, cache: Cache, ignoreCache: bool, config: Llm.Config,
                         post: nat -> Reply, md5: string -> string): Outcome
  {
    var h := md5(text);
    if !ignoreCache && Lookup(cache, fileMd5, h).Some? then Outcome(Lookup(cache, fileMd5, h).value, cache, [], 0)
    else if !config.Complete() then Outcome(text, cache, [], 0)
    else
      var log := Retry(post);
      match log.translated
        case Some(t) => Outcome(t, Store(cache, fileMd5, h, t), log.delays, log.requests)
        case None => Outcome(text, cache, log.delays, log.requests)
  }

  /** The translation cache, shared by all calls and updated in place. */
  class TranslationCache {
    var entries: Cache

    constructor (initial: Cache)
      ensures entries == initial
    {
      entries := initial;
    }

    /** Storing a translation, creating the file's inner dictionary first when it has none. */
    method Put(fileMd5: string, textMd5: string, translated: string)
      modifies this
      ensures entries == Store(old(entries), fileMd5, textMd5, translated)
    {
      if fileMd5 !in entries {
        entries := entries[fileMd5 := map[]];
      }
      entries := entries[fileMd5 := entries[fileMd5][textMd5 := translated]];
    }

    /**
     * `translate_text`: a cache hit returns at once; an incomplete
     * configuration returns the text; otherwise up to three POSTs, sleeping
     * 2 then 4 seconds between failures, and a success is stored.
     */
    method Translate(text: string, fileMd5: string, ignoreCache: bool, config: Llm.Config,
                     post: nat -> Reply, md5: string -> string)
      returns (result: string, delays: seq<nat>, requests: nat)
      modifies this
      ensures TranslateSpec(text, fileMd5, old(entries), ignoreCache, config, post, md5) ==
        Outcome(result, entries, delays, requests)
    {
      var textMd5 := md5(text);
      delays, requests := [], 0;
      if !ignoreCache && fileMd5 in entries && textMd5 in entries[fileMd5] {
        return entries[fileMd5][textMd5], delays, requests;
      }
      if !config.Complete() {
        return text, delays, requests;
      }
      var translated: Option<string>;
      translated, delays, requests := PostWithRetries(post);
      match translated {
        case Some(t) =>
          Put(fileMd5, textMd5, t);
          return t, delays, requests;
        case None =>
          return text, delays, requests;
      }
    }
  }

  /**
   * The retry loop of `translate_text`: up to three POSTs; a 200 with choices
   * gives the stripped content, a 200 without choices gives up at once, and
   * any other reply or an exception sleeps (2, then 4 seconds) before the
   * next attempt, except after the last.
   */
  method PostWithRetries(post: nat -> Reply) returns (translated: Option<string>, delays: seq<nat>, requests: nat)
    ensures RetryLog(translated, delays, requests) == Retry(post)
  {
    delays, requests := [], 0;
    var retryDelay := FIRST_DELAY;
    ghost var replies := Attempts(post);
    for attempt := 0 to MAX_RETRIES
      invariant requests == attempt
      invariant Retry(post) ==
        var rest := RetryOver(replies[attempt..], retryDelay);
        RetryLog(rest.translated, delays + rest.delays, requests + rest.requests)
    {
      var reply := post(attempt);
      assert replies[attempt..][0] == reply && replies[attempt..][1..] == replies[attempt + 1..];
      requests := requests + 1;
      if reply.Response? && reply.status == 200 {
        if reply.body.NoChoices? {
          return None, delays, requests;
        }
        if reply.body.content.Some? {
          return Some(Strip(reply.body.content.value)), delays, requests;
        }
      }
      if attempt < MAX_RETRIES - 1 {
        ghost var rest := RetryOver(replies[attempt + 1..], retryDelay * 2);
        assert RetryOver(replies[attempt..], retryDelay) ==
          RetryLog(rest.translated, [retryDelay] + rest.delays, rest.requests + 1);
        assert delays + ([retryDelay] + rest.delays) == (delays + [retryDelay]) + rest.delays;
        delays := delays + [retryDelay];
        retryDelay := retryDelay * 2;
      } else {
        return None, delays, requests;
      }
    }
    return None, delays, requests;
  }

  // ---------------------------------------------------------------- properties

  /** At most three requests; the sleeps are 2 then 4 seconds, one fewer than the requests. */
  lemma RetryBounds(post: nat -> Reply)
    ensures 1 <= Retry(post).requests <= MAX_RETRIES
    ensures |Retry(post).delays| == Retry(post).requests - 1
    ensures Retry(post).delays == [2, 4][..|Retry(post).delays|]
  {
    var rs := Attempts(post);
    var r1 := RetryOver(rs[1..], 4);
    var r2 := RetryOver(rs[2..], 8);
    assert rs[2..][1..] == [];
    assert r2.delays == [];
    assert r1.delays == [4][..|r1.delays|];
  }

  /** A cache hit, unless the cache is ignored, makes no request and changes nothing. */
  lemma CacheHit(text: string, fileMd5: string, cache: Cache, config: Llm.Config, post: nat -> Reply, md5: string -> string)
    requires fileMd5 in cache && md5(text) in cache[fileMd5]
    ensures TranslateSpec(text, fileMd5, cache, false, config, post, md5) ==
      Outcome(cache[fileMd5][md5(text)], cache, [], 0)
  {
  }

  /** Without both configuration values, the text comes back unchanged, with no request and no cache change. */
  lemma IncompleteConfigPassesThrough(text: string, fileMd5: string, cache: Cache, ignoreCache: bool, config: Llm.Config,
                                      post: nat -> Reply, md5: string -> string)
    requires ignoreCache || Lookup(cache, fileMd5, md5(text)).None?
    requires !config.Complete()
    ensures TranslateSpec(text, fileMd5, cache, ignoreCache, config, post, md5) == Outcome(text, cache, [], 0)
  {
  }

  /**
   * The cache only ever changes at the one entry for this file and text, and
   * then to the value returned.
   */
  lemma OnlyOwnEntryChanges(text: string, fileMd5: string, cache: Cache, ignoreCache: bool, config: Llm.Config,
                            post: nat -> Reply, md5: string -> string)
    ensures var o := TranslateSpec(text, fileMd5, cache, ignoreCache, config, post, md5);
      o.cache == cache || o.cache == Store(cache, fileMd5, md5(text), o.result)
  {
  }

  /**
   * After a call that reached the endpoint, a translation that came back is
   * the result and is cached; otherwise the text comes back and the cache is
   * unchanged.
   */
  lemma StoredIffTranslated(text: string, fileMd5: string, cache: Cache, ignoreCache: bool, config: Llm.Config,
                            post: nat -> Reply, md5: string -> string)
    requires TranslateSpec(text, fileMd5, cache, ignoreCache, config, post, md5).requests > 0
    ensures var o := TranslateSpec(text, fileMd5, cache, ignoreCache, config, post, md5);
      match Retry(post).translated
        case Some(t) => o.result == t && Lookup(o.cache, fileMd5, md5(text)) == Some(t)
        case None => o.result == text && o.cache == cache
  {
  }

  /** When every attempt fails without a 200 lacking choices, three requests are made and the text comes back. */
  lemma AllAttemptsFail(post: nat -> Reply)
    requires forall a :: 0 <= a < MAX_RETRIES ==> !Succeeds(post(a)) && !GivesUp(post(a))
    ensures Retry(post) == RetryLog(None, [2, 4], 3)
  {
    var rs := Attempts(post);
    assert !Succeeds(rs[0]) && !GivesUp(rs[0]);
    assert !Succeeds(rs[1]) && !GivesUp(rs[1]);
    assert !Succeeds(rs[2]) && !GivesUp(rs[2]);
    assert rs[1..][0] == rs[1] && rs[2..][0] == rs[2] && |rs[2..]| == 1;
    assert RetryOver(rs[2..], 8) == RetryLog(None, [], 1);
    assert RetryOver(rs[1..], 4) == RetryLog(None, [4], 2);
  }

  /** A 200 lacking choices ends the loop at once: one request, no sleep, no translation. */
  lemma NoChoicesStopsAtOnce(post: nat -> Reply)
    requires GivesUp(post(0))
    ensures Retry(post) == RetryLog(None, [], 1)
  {
    assert Attempts(post)[0] == post(0);
  }

  /** Two failures then a success: three requests, sleeps of 2 and 4, and the stripped content. */
  lemma SuccessOnThirdAttempt(post: nat -> Reply, content: string)
    requires !Succeeds(post(0)) && !GivesUp(post(0)) && !Succeeds(post(1)) && !GivesUp(post(1))
    requires post(2) == Response(200, Choices(Some(content)))
    ensures Retry(post) == RetryLog(Some(Strip(content)), [2, 4], 3)
  {
    var rs := Attempts(post);
    var translated := Strip(content);
    assert rs[2..] == [post(2)];
    assert RetryOver([post(2)], 8) == RetryLog(Some(translated), [], 1);
    assert rs[1..] == [post(1), post(2)] && [post(1), post(2)][1..] == [post(2)];
    assert RetryOver([post(1), post(2)], 4) == RetryLog(Some(translated), [4], 2);
    assert rs == [post(0), post(1), post(2)] && rs[1..] == [post(1), post(2)];
  }

  /**
   * After a call that stored its translation, translating the same text again
   * without ignoring the cache is a cache hit on it, whatever the endpoint
   * would answer.
   */
  lemma SecondCallHitsCache(text: string, fileMd5: string, cache: Cache, ignoreCache: bool, config: Llm.Config,
                            post: nat -> Reply, post2: nat -> Reply, md5: string -> string)
    requires TranslateSpec(text, fileMd5, cache, ignoreCache, config, post, md5).cache != cache
    ensures var o := TranslateSpec(text, fileMd5, cache, ignoreCache, config, post, md5);
      TranslateSpec(text, fileMd5, o.cache, false, config, post2, md5) == Outcome(o.result, o.cache, [], 0)
  {
    var o := TranslateSpec(text, fileMd5, cache, ignoreCache, config, post, md5);
    OnlyOwnEntryChanges(text, fileMd5, cache, ignoreCache, config, post, md5);
    assert Lookup(o.cache, fileMd5, md5(text)) == Some(o.result);
  }
}
