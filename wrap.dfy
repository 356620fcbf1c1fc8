/**
 * Greedy word wrapping, in the two forms the renderers use: the clean
 * renderer's estimate (`len(line) * size * 0.5 < max_width`, the first word of
 * a line always taken) and the measured wrap of the OCR renderer and of the
 * image fallback (a measured width against a limit, an over-long word set on
 * a line of its own).
 */
module Wrap {
  import opened PyStr

  /** A wrap in progress: the finished lines, and the words of the line being filled. */
  datatype Layout = Layout(done: seq<seq<string>>, line: seq<string>)

  /** The lines once the line being filled is flushed (when it holds a word). */
  function Lines(l: Layout): seq<seq<string>>
  {
    if l.line == [] then l.done else l.done + [l.line]
  }

  /** Every line holds at least one word. */
  ghost predicate NonEmptyLines(lines: seq<seq<string>>)
  {
    forall k :: 0 <= k < |lines| ==> lines[k] != []
  }

  // ---------------------------------------------------------------- estimated width

  /** The clean renderer's width test for a line: `len(' '.join(seg)) * fs * 0.5 < maxWidth`. */
  predicate EstFits(seg: seq<string>, fs: int, maxWidth: real)
  {
    (|Join(seg)| * fs) as real * 0.5 < maxWidth
  }

  /** One word of the estimated wrap: the first word of a line is always taken. */
  function EstStep(l: Layout, w: string, fs: int, maxWidth: real): Layout
  {
    if l.line == [] then Layout(l.done, [w])
    else if EstFits(l.line + [w], fs, maxWidth) then Layout(l.done, l.line + [w])
    else Layout(l.done + [l.line], [w])
  }

  /** The estimated wrap after `words`. */
  function EstWrap(words: seq<string>, fs: int, maxWidth: real): Layout
  {
    if words == [] then Layout([], [])
    else EstStep(EstWrap(words[..|words| - 1], fs, maxWidth), words[|words| - 1], fs, maxWidth)
  }

  /** The lines the clean renderer forms from `words` at size `fs`. */
  function EstLines(words: seq<string>, fs: int, maxWidth: real): seq<seq<string>>
  {
    Lines(EstWrap(words, fs, maxWidth))
  }

  /** The wrap keeps every word once, in order; no line is empty; the open line is empty only before the first word. */
  lemma {:induction false} EstWrapShape(words: seq<string>, fs: int, maxWidth: real)
    ensures var l := EstWrap(words, fs, maxWidth);
      Flatten(l.done) + l.line == words && NonEmptyLines(l.done) && (l.line == [] <==> words == [])
  {
    if words != [] {
      var init := words[..|words| - 1];
      var w := words[|words| - 1];
      assert init + [w] == words;
      EstWrapShape(init, fs, maxWidth);
      var l := EstWrap(init, fs, maxWidth);
      var r := EstStep(l, w, fs, maxWidth);
      assert EstWrap(words, fs, maxWidth) == r;
      if l.line == [] {
        assert r.done == l.done && r.line == [w];
      } else if EstFits(l.line + [w], fs, maxWidth) {
        assert r.done == l.done && r.line == l.line + [w];
        assert Flatten(l.done) + (l.line + [w]) == (Flatten(l.done) + l.line) + [w];
      } else {
        assert r.done == l.done + [l.line] && r.line == [w];
        FlattenAppend(l.done, l.line);
      }
    }
  }

  /** The lines hold every word exactly once, in order, and none is empty. */
  lemma EstLinesWords(words: seq<string>, fs: int, maxWidth: real)
    ensures Flatten(EstLines(words, fs, maxWidth)) == words
    ensures NonEmptyLines(EstLines(words, fs, maxWidth))
  {
    EstWrapShape(words, fs, maxWidth);
    var l := EstWrap(words, fs, maxWidth);
    if l.line != [] {
      FlattenAppend(l.done, l.line);
    } else {
      assert l.done + [] == l.done;
    }
  }

  /** Every line of more than one word passes the width estimate. */
  lemma {:induction false} EstLinesFit(words: seq<string>, fs: int, maxWidth: real)
    ensures forall k :: 0 <= k < |EstLines(words, fs, maxWidth)| && |EstLines(words, fs, maxWidth)[k]| > 1 ==>
      EstFits(EstLines(words, fs, maxWidth)[k], fs, maxWidth)
  {
    EstWrapFit(words, fs, maxWidth);
  }

  lemma {:induction false} EstWrapFit(words: seq<string>, fs: int, maxWidth: real)
    ensures var l := EstWrap(words, fs, maxWidth);
      (forall k :: 0 <= k < |l.done| && |l.done[k]| > 1 ==> EstFits(l.done[k], fs, maxWidth)) &&
      (|l.line| > 1 ==> EstFits(l.line, fs, maxWidth))
  {
    if words != [] {
      EstWrapFit(words[..|words| - 1], fs, maxWidth);
    }
  }

  /** A suffix of a line is no longer, once joined, than the whole line. */
  lemma {:induction false} JoinSuffix(a: seq<string>, b: seq<string>)
    requires b != []
    ensures |Join(b)| <= |Join(a + b)|
    decreases |b|
  {
    if a == [] {
      assert a + b == b;
    } else if |b| == 1 {
      assert a + b == a + [b[0]];
      JoinAppend(a, b[0]);
    } else {
      var b', w := b[..|b| - 1], b[|b| - 1];
      var ab' := a + b';
      assert ab' + [w] == a + b;
      assert b' + [w] == b;
      JoinSuffix(a, b');
      JoinAppend(ab', w);
      JoinAppend(b', w);
    }
  }

  /** A suffix of a line that fits at a size also fits at any smaller size. */
  lemma EstFitsSuffix(a: seq<string>, b: seq<string>, fs1: int, fs2: int, maxWidth: real)
    requires b != [] && 0 <= fs1 <= fs2
    requires EstFits(a + b, fs2, maxWidth)
    ensures EstFits(b, fs1, maxWidth)
  {
    JoinSuffix(a, b);
    MulMono(|Join(b)|, |Join(a + b)|, fs1, fs2);
  }

  lemma MulMono(a: nat, b: nat, c: nat, d: nat)
    requires a <= b && c <= d
    ensures a * c <= b * d
  {
    assert a * c <= a * d by {
      assert a * (d - c) >= 0;
    }
    assert a * d <= b * d by {
      assert (b - a) * d >= 0;
    }
  }

  /**
   * The wrap at the smaller size stays ahead: it has finished fewer lines, or
   * as many with its open line a suffix of the other's.
   */
  ghost predicate StaysAhead(small: Layout, large: Layout)
  {
    |small.done| < |large.done| ||
    (|small.done| == |large.done| && |small.line| <= |large.line| &&
     small.line == large.line[|large.line| - |small.line|..])
  }

  /** One word keeps the smaller size's wrap ahead. */
  lemma StaysAheadStep(s: Layout, g: Layout, w: string, fs1: int, fs2: int, maxWidth: real)
    requires 0 <= fs1 <= fs2 && s.line != [] && g.line != []
    requires StaysAhead(s, g)
    ensures StaysAhead(EstStep(s, w, fs1, maxWidth), EstStep(g, w, fs2, maxWidth))
  {
    var s2 := EstStep(s, w, fs1, maxWidth);
    var g2 := EstStep(g, w, fs2, maxWidth);
    if |s.done| < |g.done| {
      if |s2.done| == |g2.done| {
        assert s2.line == [w] && g2.line == g.line + [w];
        assert s2.line == g2.line[|g2.line| - 1..];
      }
    } else if EstFits(g.line + [w], fs2, maxWidth) {
      var p := g.line[..|g.line| - |s.line|];
      assert g.line + [w] == p + (s.line + [w]);
      EstFitsSuffix(p, s.line + [w], fs1, fs2, maxWidth);
      assert s2 == Layout(s.done, s.line + [w]) && g2 == Layout(g.done, g.line + [w]);
      assert s2.line == g2.line[|g2.line| - |s2.line|..];
    } else {
      assert g2 == Layout(g.done + [g.line], [w]);
      assert s2.line == [w] || |s2.done| < |g2.done|;
    }
  }

  lemma {:induction false} EstWrapStaysAhead(words: seq<string>, fs1: int, fs2: int, maxWidth: real)
    requires 0 <= fs1 <= fs2
    ensures StaysAhead(EstWrap(words, fs1, maxWidth), EstWrap(words, fs2, maxWidth))
  {
    if words != [] {
      var init := words[..|words| - 1];
      var w := words[|words| - 1];
      EstWrapStaysAhead(init, fs1, fs2, maxWidth);
      if init != [] {
        EstWrapShape(init, fs1, maxWidth);
        EstWrapShape(init, fs2, maxWidth);
        StaysAheadStep(EstWrap(init, fs1, maxWidth), EstWrap(init, fs2, maxWidth), w, fs1, fs2, maxWidth);
      }
    }
  }

  /** Wrapping at a smaller size never needs more lines. */
  lemma FewerLinesWhenSmaller(words: seq<string>, fs1: int, fs2: int, maxWidth: real)
    requires 0 <= fs1 <= fs2
    ensures |EstLines(words, fs1, maxWidth)| <= |EstLines(words, fs2, maxWidth)|
  {
    EstWrapStaysAhead(words, fs1, fs2, maxWidth);
    EstWrapShape(words, fs1, maxWidth);
    EstWrapShape(words, fs2, maxWidth);
  }

  // ---------------------------------------------------------------- measured width

  /**
   * One word of the measured wrap: the word joins the line when the joined
   * line fits; otherwise the line is finished and the word starts the next,
   * or, when the line is empty, the word is set alone on its own line.
   */
  function MeasuredStep(l: Layout, w: string, fits: string -> bool): Layout
  {
    if fits(Join(l.line + [w])) then Layout(l.done, l.line + [w])
    else if l.line != [] then Layout(l.done + [l.line], [w])
    else Layout(l.done + [[w]], [])
  }

  /** The measured wrap after `words`. */
  function MeasuredWrap(words: seq<string>, fits: string -> bool): Layout
  {
    if words == [] then Layout([], [])
    else MeasuredStep(MeasuredWrap(words[..|words| - 1], fits), words[|words| - 1], fits)
  }

  /** The word groups of the measured wrap. */
  function MeasuredLines(words: seq<string>, fits: string -> bool): seq<seq<string>>
  {
    Lines(MeasuredWrap(words, fits))
  }

  /** Each group joined by single spaces: the strings the renderers draw. */
  function JoinAll(groups: seq<seq<string>>): (r: seq<string>)
    ensures |r| == |groups| && forall k :: 0 <= k < |groups| ==> r[k] == Join(groups[k])
  {
    if groups == [] then [] else JoinAll(groups[..|groups| - 1]) + [Join(groups[|groups| - 1])]
  }

  /**
   * A measured wrap in progress holds `words` in order, with no empty
   * finished line, every finished line of several words fitting, and the
   * open line a single word or fitting.
   */
  ghost predicate MeasuredShape(l: Layout, words: seq<string>, fits: string -> bool)
  {
    Flatten(l.done) + l.line == words && NonEmptyLines(l.done) &&
    (forall k :: 0 <= k < |l.done| && |l.done[k]| > 1 ==> fits(Join(l.done[k]))) &&
    (l.line != [] ==> |l.line| == 1 || fits(Join(l.line)))
  }

  /** A word that fits joins the open line. */
  lemma MeasuredShapeJoin(l: Layout, words: seq<string>, w: string, fits: string -> bool)
    requires MeasuredShape(l, words, fits) && fits(Join(l.line + [w]))
    ensures MeasuredShape(Layout(l.done, l.line + [w]), words + [w], fits)
  {
    assert Flatten(l.done) + (l.line + [w]) == (Flatten(l.done) + l.line) + [w];
  }

  /** The finished lines of a measured wrap: none empty, and each of several words fitting. */
  ghost predicate FinishedLinesFit(done: seq<seq<string>>, fits: string -> bool)
  {
    NonEmptyLines(done) && forall k :: 0 <= k < |done| && |done[k]| > 1 ==> fits(Join(done[k]))
  }

  lemma FinishLine(done: seq<seq<string>>, finished: seq<string>, fits: string -> bool)
    requires FinishedLinesFit(done, fits)
    requires finished != [] && (|finished| > 1 ==> fits(Join(finished)))
    ensures FinishedLinesFit(done + [finished], fits)
  {
    var all := done + [finished];
    assert forall k :: 0 <= k < |done| ==> all[k] == done[k];
    assert all[|done|] == finished;
  }

  /** A word that does not fit finishes a line: the open one, or the word alone. */
  lemma MeasuredShapeBreak(l: Layout, words: seq<string>, w: string, fits: string -> bool, finished: seq<string>, open: seq<string>)
    requires MeasuredShape(l, words, fits) && !fits(Join(l.line + [w]))
    requires l.line != [] ==> finished == l.line && open == [w]
    requires l.line == [] ==> finished == [w] && open == []
    ensures MeasuredShape(Layout(l.done + [finished], open), words + [w], fits)
  {
    FlattenAppend(l.done, finished);
    FinishLine(l.done, finished, fits);
  }

  /** The measured wrap, word by word, keeps the shape `MeasuredShape` describes. */
  lemma {:induction false} MeasuredWrapShape(words: seq<string>, fits: string -> bool)
    ensures MeasuredShape(MeasuredWrap(words, fits), words, fits)
  {
    if words != [] {
      var init := words[..|words| - 1];
      var w := words[|words| - 1];
      assert init + [w] == words;
      MeasuredWrapShape(init, fits);
      var l := MeasuredWrap(init, fits);
      assert MeasuredWrap(words, fits) == MeasuredStep(l, w, fits);
      if fits(Join(l.line + [w])) {
        MeasuredShapeJoin(l, init, w, fits);
      } else if l.line != [] {
        MeasuredShapeBreak(l, init, w, fits, l.line, [w]);
      } else {
        MeasuredShapeBreak(l, init, w, fits, [w], []);
      }
    }
  }

  /**
   * The measured wrap keeps every word once, in order; no line is empty; and
   * every line of more than one word fits, so a line that does not fit is a
   * single over-long word.
   */
  lemma MeasuredLinesMeaning(words: seq<string>, fits: string -> bool)
    ensures Flatten(MeasuredLines(words, fits)) == words
    ensures NonEmptyLines(MeasuredLines(words, fits))
    ensures forall k :: 0 <= k < |MeasuredLines(words, fits)| && !fits(Join(MeasuredLines(words, fits)[k])) ==>
      |MeasuredLines(words, fits)[k]| == 1
  {
    MeasuredWrapShape(words, fits);
    var l := MeasuredWrap(words, fits);
    MeasuredLinesOfShape(l, words, fits);
  }

  lemma MeasuredLinesOfShape(l: Layout, words: seq<string>, fits: string -> bool)
    requires MeasuredShape(l, words, fits)
    ensures Flatten(Lines(l)) == words && NonEmptyLines(Lines(l))
    ensures forall k :: 0 <= k < |Lines(l)| && !fits(Join(Lines(l)[k])) ==> |Lines(l)[k]| == 1
  {
    if l.line != [] {
      FlattenAppend(l.done, l.line);
      FinishLine(l.done, l.line, fits);
    } else {
      assert Lines(l) == l.done;
    }
  }

  /** The measured wrap loop of the OCR renderer and of the image fallback, building the line strings. */
  method WrapMeasured(words: seq<string>, fits: string -> bool) returns (lines: seq<string>)
    ensures lines == JoinAll(MeasuredLines(words, fits))
  {
    lines := [];
    var currentLine: seq<string> := [];
    ghost var done: seq<seq<string>> := [];
    for i := 0 to |words|
      invariant MeasuredWrap(words[..i], fits) == Layout(done, currentLine)
      invariant lines == JoinAll(done)
    {
      assert words[..i + 1][..i] == words[..i];
      var word := words[i];
      var testLine := Join(currentLine + [word]);
      if fits(testLine) {
        currentLine := currentLine + [word];
      } else if currentLine != [] {
        lines := lines + [Join(currentLine)];
        done := done + [currentLine];
        currentLine := [word];
      } else {
        lines := lines + [word];
        done := done + [[word]];
        currentLine := [];
      }
    }
    assert words[..|words|] == words;
    if currentLine != [] {
      lines := lines + [Join(currentLine)];
    }
  }
}
