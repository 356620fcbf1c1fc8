/**
 * The few Python `str` operations the translator relies on: `isspace`,
 * `strip()`, `strip(chars)`, `split()`, `' '.join(...)`, `split('=', 1)`.
 * Strings are sequences of Unicode code points, as in Python 3.
 */
module PyStr {
  import opened Wrappers

  /** Python's `str.isspace` for one code point: the separators `split()` and `strip()` use. */
  predicate IsSpace(c: char)
  {
    if c <= ' ' then
      c == ' ' || '\t' <= c <= '\r' || '\U{001C}' <= c <= '\U{001F}'
    else if c < '\U{1680}' then
      c == '\U{0085}' || c == '\U{00A0}'
    else
      c == '\U{1680}' || '\U{2000}' <= c <= '\U{200A}' || c == '\U{2028}' || c == '\U{2029}' ||
      c == '\U{202F}' || c == '\U{205F}' || c == '\U{3000}'
  }

  /** `s.lstrip(chars)` where `drop` decides which characters are stripped. */
  function TrimStart(s: string, drop: char -> bool): (r: string)
    ensures |r| <= |s|
    ensures r == [] || !drop(r[0])
  {
    if s != [] && drop(s[0]) then TrimStart(s[1..], drop) else s
  }

  /** `lstrip` keeps a suffix, and everything it removed was a character to drop. */
  lemma {:induction false} TrimStartDropped(s: string, drop: char -> bool)
    ensures TrimStart(s, drop) == s[|s| - |TrimStart(s, drop)|..]
    ensures forall k :: 0 <= k < |s| - |TrimStart(s, drop)| ==> drop(s[k])
    decreases |s|
  {
    if s != [] && drop(s[0]) {
      TrimStartDropped(s[1..], drop);
      assert forall k :: 1 <= k < |s| - |TrimStart(s, drop)| ==> s[k] == s[1..][k - 1];
    }
  }

  /** `s.rstrip(chars)` where `drop` decides which characters are stripped. */
  function TrimEnd(s: string, drop: char -> bool): (r: string)
    ensures |r| <= |s|
    ensures r == [] || !drop(r[|r| - 1])
  {
    if s != [] && drop(s[|s| - 1]) then TrimEnd(s[..|s| - 1], drop) else s
  }

  /** `rstrip` keeps a prefix, and everything it removed was a character to drop. */
  lemma {:induction false} TrimEndDropped(s: string, drop: char -> bool)
    ensures TrimEnd(s, drop) == s[..|TrimEnd(s, drop)|]
    ensures forall k :: |TrimEnd(s, drop)| <= k < |s| ==> drop(s[k])
    decreases |s|
  {
    if s != [] && drop(s[|s| - 1]) {
      TrimEndDropped(s[..|s| - 1], drop);
    }
  }

  /** `s.strip()`: whitespace removed from both ends. */
  function Strip(s: string): (r: string)
    ensures |r| <= |s|
    ensures r == [] || (!IsSpace(r[0]) && !IsSpace(r[|r| - 1]))
  {
    var t := TrimStart(s, IsSpace);
    TrimEndDropped(t, IsSpace);
    TrimEnd(t, IsSpace)
  }

  /** Nothing but whitespace (the empty string included). */
  predicate Blank(s: string)
  {
    forall k :: 0 <= k < |s| ==> IsSpace(s[k])
  }

  /** `s.strip()` is empty exactly when `s` is blank. */
  lemma StripEmpty(s: string)
    ensures Strip(s) == "" <==> Blank(s)
  {
    var t := TrimStart(s, IsSpace);
    TrimStartDropped(s, IsSpace);
    TrimEndDropped(t, IsSpace);
    if t != [] {
      assert t[0] == s[|s| - |t|];
    }
  }

  /** `s.strip(chars)` for the characters of `chars`. */
  function StripChars(s: string, chars: set<char>): (r: string)
    ensures |r| <= |s|
    ensures r == [] || (r[0] !in chars && r[|r| - 1] !in chars)
  {
    var t := TrimStart(s, c => c in chars);
    TrimEndDropped(t, c => c in chars);
    TrimEnd(t, c => c in chars)
  }

  /** A word as `split()` yields it: non-empty and free of whitespace. */
  predicate IsWord(w: string)
  {
    w != [] && forall k :: 0 <= k < |w| ==> !IsSpace(w[k])
  }

  /** `s.split()`: the maximal runs of non-whitespace characters, in order. */
  function Split(s: string): seq<string>
  {
    SplitFrom(s, "")
  }

  /** `split()` of `s`, where `word` holds the characters of a word already begun. */
  function SplitFrom(s: string, word: string): seq<string>
    decreases |s|
  {
    if s == [] then (if word == [] then [] else [word])
    else if IsSpace(s[0]) then (if word == [] then SplitFrom(s[1..], []) else [word] + SplitFrom(s[1..], []))
    else SplitFrom(s[1..], word + [s[0]])
  }

  lemma {:induction false} SplitFromWords(s: string, word: string)
    requires word == [] || IsWord(word)
    ensures forall k :: 0 <= k < |SplitFrom(s, word)| ==> IsWord(SplitFrom(s, word)[k])
    decreases |s|
  {
    if s == [] {
    } else if IsSpace(s[0]) {
      SplitFromWords(s[1..], []);
    } else {
      SplitFromWords(s[1..], word + [s[0]]);
    }
  }

  /** Every item `split()` returns is a non-empty whitespace-free word. */
  lemma SplitWords(s: string)
    ensures forall k :: 0 <= k < |Split(s)| ==> IsWord(Split(s)[k])
  {
    SplitFromWords(s, "");
  }

  /** The characters of `s` that are not whitespace, in order. */
  function NonSpace(s: string): (r: string)
    ensures forall k :: 0 <= k < |r| ==> !IsSpace(r[k])
  {
    if s == [] then [] else (if IsSpace(s[0]) then [] else [s[0]]) + NonSpace(s[1..])
  }

  lemma {:induction false} SplitFromKeepsText(s: string, word: string)
    ensures Flatten(SplitFrom(s, word)) == word + NonSpace(s)
    decreases |s|
  {
    if s == [] {
      if word != [] {
        FlattenCons(word, []);
      }
    } else if IsSpace(s[0]) {
      SplitFromKeepsText(s[1..], []);
      if word != [] {
        FlattenCons(word, SplitFrom(s[1..], []));
      }
    } else {
      SplitFromKeepsText(s[1..], word + [s[0]]);
    }
  }

  /** `split()` drops exactly the whitespace: its words laid end to end are the text's other characters. */
  lemma SplitKeepsText(s: string)
    ensures Flatten(Split(s)) == NonSpace(s)
  {
    SplitFromKeepsText(s, "");
  }

  /** Characters that are not whitespace extend the word being read. */
  lemma {:induction false} SplitFromWord(w: string, s: string, word: string)
    requires forall k :: 0 <= k < |w| ==> !IsSpace(w[k])
    ensures SplitFrom(w + s, word) == SplitFrom(s, word + w)
    decreases |w|
  {
    if w == [] {
      assert w + s == s && word + w == word;
    } else {
      assert (w + s)[0] == w[0] && (w + s)[1..] == w[1..] + s;
      SplitFromWord(w[1..], s, word + [w[0]]);
      assert word + [w[0]] + w[1..] == word + w;
    }
  }

  /** `' '.join(ws)`. */
  function Join(ws: seq<string>): (r: string)
    ensures |ws| == 1 ==> r == ws[0]
  {
    if ws == [] then ""
    else if |ws| == 1 then ws[0]
    else Join(ws[..|ws| - 1]) + " " + ws[|ws| - 1]
  }

  /** Appending a word to a non-empty line adds one separator and the word. */
  lemma JoinAppend(ws: seq<string>, w: string)
    requires ws != []
    ensures Join(ws + [w]) == Join(ws) + " " + w
    ensures |Join(ws + [w])| == |Join(ws)| + 1 + |w|
  {
    assert (ws + [w])[..|ws|] == ws;
  }

  /** Joining two or more words: the first word, a space, and the rest joined. */
  lemma {:induction false} JoinCons(ws: seq<string>)
    requires |ws| >= 2
    ensures Join(ws) == ws[0] + " " + Join(ws[1..])
    decreases |ws|
  {
    var n := |ws|;
    if n > 2 {
      JoinCons(ws[..n - 1]);
      assert ws[..n - 1][1..] == ws[1..][..n - 2];
      assert ws[..n - 1][0] == ws[0] && ws[1..][n - 2] == ws[n - 1];
    } else {
      assert ws[..1] == [ws[0]] && ws[1..] == [ws[1]];
    }
  }

  /** `split()` undoes `' '.join` of words: the words come back, boundaries included. */
  lemma {:induction false} SplitJoin(ws: seq<string>)
    requires forall i :: 0 <= i < |ws| ==> IsWord(ws[i])
    ensures Split(Join(ws)) == ws
    decreases |ws|
  {
    if |ws| == 1 {
      SplitFromWord(ws[0], [], []);
      assert ws[0] + [] == ws[0] && [] + ws[0] == ws[0];
    } else if |ws| >= 2 {
      var rest := Join(ws[1..]);
      JoinCons(ws);
      assert Join(ws) == ws[0] + (" " + rest);
      SplitFromWord(ws[0], " " + rest, []);
      assert [] + ws[0] == ws[0];
      assert (" " + rest)[0] == ' ' && (" " + rest)[1..] == rest;
      assert SplitFrom(" " + rest, ws[0]) == [ws[0]] + SplitFrom(rest, []);
      SplitJoin(ws[1..]);
      assert ws == [ws[0]] + ws[1..];
    }
  }

  /** The lines of a wrapped text laid end to end: the concatenation of a sequence of sequences. */
  function Flatten<T>(xss: seq<seq<T>>): seq<T>
  {
    if xss == [] then [] else Flatten(xss[..|xss| - 1]) + xss[|xss| - 1]
  }

  lemma FlattenAppend<T>(xss: seq<seq<T>>, xs: seq<T>)
    ensures Flatten(xss + [xs]) == Flatten(xss) + xs
  {
    assert (xss + [xs])[..|xss|] == xss;
  }

  lemma {:induction false} FlattenCons<T>(xs: seq<T>, xss: seq<seq<T>>)
    ensures Flatten([xs] + xss) == xs + Flatten(xss)
    decreases |xss|
  {
    if xss == [] {
      assert [xs] + xss == [] + [xs];
    } else {
      var init := xss[..|xss| - 1];
      assert ([xs] + xss)[..|xss|] == [xs] + init;
      FlattenCons(xs, init);
    }
  }

  /** The index of the first `c` in `s` (what `split(c, 1)` cuts at), if any. */
  function IndexOf(s: string, c: char): (r: Option<nat>)
    ensures r.Some? ==> r.value < |s|
  {
    if s == [] then None
    else if s[0] == c then Some(0)
    else match IndexOf(s[1..], c)
      case Some(k) => Some(k + 1)
      case None => None
  }

  /** `IndexOf` finds the first occurrence of `c`, and finds none exactly when `c` does not occur. */
  lemma {:induction false} IndexOfMeaning(s: string, c: char)
    ensures IndexOf(s, c).None? <==> c !in s
    ensures IndexOf(s, c).Some? ==> s[IndexOf(s, c).value] == c && c !in s[..IndexOf(s, c).value]
    decreases |s|
  {
    if s != [] && s[0] != c {
      IndexOfMeaning(s[1..], c);
      assert s == [s[0]] + s[1..];
      match IndexOf(s[1..], c)
      case None =>
      case Some(k) =>
        assert s[..k + 1] == [s[0]] + s[1..][..k];
    }
  }
}
