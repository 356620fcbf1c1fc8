/**
 * The API configuration loader: `KEY=value` lines read from the user's
 * configuration file, then overridden by non-empty environment variables.
 * The file's existence and contents and the environment are inputs.
 */
module Llm {
  import opened Wrappers
  import opened PyStr

  const API_KEY: string := "API_KEY"
  const ENDPOINT_KEY: string := "OPENAI_API_ENDPOINT"

  /** The configuration dictionary, which only ever holds its two keys; `None` is Python's `None`. */
  datatype Config = Config(apiKey: Option<string>, endpoint: Option<string>)
  {
    /** Both values are present and non-empty (truthy in Python). */
    predicate Complete()
    {
      apiKey.Some? && apiKey.value != "" && endpoint.Some? && endpoint.value != ""
    }
  }

  const EMPTY: Config := Config(None, None)

  /** The two keys the dictionary holds. */
  predicate IsKey(key: string)
  {
    key == API_KEY || key == ENDPOINT_KEY
  }

  /** `config.get(key)`: the value under one of the two keys, `None` for any other key. */
  function Get(c: Config, key: string): Option<string>
  {
    if key == API_KEY then c.apiKey else if key == ENDPOINT_KEY then c.endpoint else None
  }

  /** What one configuration line does. */
  datatype LineAction =
    | Skip                                  // blank, or a comment
    | Assign(key: string, value: string)    // `key=value`, key and value cleaned up
    | Malformed                             // no `=`: unpacking the split raises

  /** The quote characters stripped from both ends of a value. */
  const QUOTES: set<char> := {'\'', '"'}

  /** The effect of one line of the file. */
  function ParseLine(line: string): LineAction
  {
    ParseStripped(Strip(line))
  }

  /** The effect of a line once stripped: a comment or nothing is skipped, else it is split at the first `=`. */
  function ParseStripped(l: string): LineAction
  {
    if l == "" || l[0] == '#' then Skip
    else match IndexOf(l, '=')
      case None => Malformed
      case Some(i) => Assign(Strip(l[..i]), StripChars(Strip(l[i + 1..]), QUOTES))
  }

  /**
   * A line is skipped when it strips to nothing or to a comment, malformed
   * when it has no `=`, and otherwise split where `IndexOf` finds its first
   * `=`: the key is the stripped left part, the value the stripped right part
   * without quotes.
   */
  lemma ParseLineMeaning(line: string)
    ensures ParseLine(line).Skip? <==> Strip(line) == "" || Strip(line)[0] == '#'
    ensures ParseLine(line).Malformed? <==> Strip(line) != "" && Strip(line)[0] != '#' && '=' !in Strip(line)
    ensures ParseLine(line).Assign? ==> (IndexOf(Strip(line), '=').Some? &&
      var i := IndexOf(Strip(line), '=').value;
      ParseLine(line).key == Strip(Strip(line)[..i]) && ParseLine(line).value == StripChars(Strip(Strip(line)[i + 1..]), QUOTES))
  {
    ParseStrippedMeaning(Strip(line));
  }

  lemma ParseStrippedMeaning(l: string)
    ensures ParseStripped(l).Skip? <==> l == "" || l[0] == '#'
    ensures ParseStripped(l).Malformed? <==> l != "" && l[0] != '#' && '=' !in l
    ensures ParseStripped(l).Assign? ==> (IndexOf(l, '=').Some? &&
      var i := IndexOf(l, '=').value;
      ParseStripped(l).key == Strip(l[..i]) && ParseStripped(l).value == StripChars(Strip(l[i + 1..]), QUOTES))
  {
    IndexOfMeaning(l, '=');
  }

  /**
   * `if key in config: config[key] = value`: a known key now holds the value,
   * and every other key keeps what it held.
   */
  function Store(config: Config, key: string, value: string): (c: Config)
    ensures IsKey(key) ==> Get(c, key) == Some(value)
    ensures forall k :: k != key || !IsKey(key) ==> Get(c, k) == Get(config, k)
  {
    if key == API_KEY then config.(apiKey := Some(value))
    else if key == ENDPOINT_KEY then config.(endpoint := Some(value))
    else config
  }

  /** One pass of the loop body on the state (configuration, stopped) for a line's action. */
  function Step(state: (Config, bool), action: LineAction): (Config, bool)
  {
    if state.1 then state
    else match action
      case Skip => state
      case Malformed => (state.0, true)
      case Assign(k, v) => (Store(state.0, k, v), false)
  }

  /**
   * The configuration after feeding `lines` to the loop from `config`, and
   * whether a malformed line ended the loop early (the exception leaves what
   * was already stored in place).
   */
  function Feed(config: Config, lines: seq<string>): (Config, bool)
  {
    if lines == [] then (config, false)
    else Step(Feed(config, lines[..|lines| - 1]), ParseLine(lines[|lines| - 1]))
  }

  /** The loop over the whole file, from the dictionary with both values `None`. */
  function ParseLines(lines: seq<string>): (Config, bool)
  {
    Feed(EMPTY, lines)
  }

  /** A non-empty environment variable replaces the file's value for its key. */
  function Override(config: Config, env: map<string, string>): (c: Config)
    ensures c.apiKey == if API_KEY in env && env[API_KEY] != "" then Some(env[API_KEY]) else config.apiKey
    ensures c.endpoint == if ENDPOINT_KEY in env && env[ENDPOINT_KEY] != "" then Some(env[ENDPOINT_KEY]) else config.endpoint
  {
    var c := if API_KEY in env && env[API_KEY] != "" then config.(apiKey := Some(env[API_KEY])) else config;
    if ENDPOINT_KEY in env && env[ENDPOINT_KEY] != "" then c.(endpoint := Some(env[ENDPOINT_KEY])) else c
  }

  /** The configuration `load_api_config` returns; `file` is `None` when the file does not exist. */
  function ApiConfig(file: Option<seq<string>>, env: map<string, string>): Config
  {
    var fromFile := match file
      case None => EMPTY
      case Some(lines) => ParseLines(lines).0;
    Override(fromFile, env)
  }

  /** `load_api_config`: the line loop, stopped by the first malformed line, then the environment override. */
  method LoadApiConfig(file: Option<seq<string>>, env: map<string, string>) returns (config: Config)
    ensures config == ApiConfig(file, env)
  {
    config := EMPTY;
    if file.Some? {
      var lines := file.value;
      var i := 0;
      while i < |lines|
        invariant 0 <= i <= |lines|
        invariant ParseLines(lines[..i]) == (config, false)
      {
        FeedPrefix(lines, i);
        var action := ParseLine(lines[i]);
        if action.Malformed? {
          StoppedStays(lines, i + 1);
          break;
        }
        if action.Assign? && (action.key == API_KEY || action.key == ENDPOINT_KEY) {
          config := Store(config, action.key, action.value);
        }
        i := i + 1;
      }
      assert lines[..|lines|] == lines;
    }
    if API_KEY in env && env[API_KEY] != "" {
      config := config.(apiKey := Some(env[API_KEY]));
    }
    if ENDPOINT_KEY in env && env[ENDPOINT_KEY] != "" {
      config := config.(endpoint := Some(env[ENDPOINT_KEY]));
    }
  }

  /** Once a malformed line has stopped the loop, later lines change nothing. */
  lemma {:induction false} StoppedStays(lines: seq<string>, i: nat)
    requires i <= |lines| && ParseLines(lines[..i]).1
    ensures ParseLines(lines) == ParseLines(lines[..i])
    decreases |lines| - i
  {
    if i < |lines| {
      assert lines[..i + 1][..i] == lines[..i];
      StoppedStays(lines, i + 1);
    } else {
      assert lines[..i] == lines;
    }
  }

  /** The loop's state after line `i` is one step from its state before it. */
  lemma FeedPrefix(lines: seq<string>, i: nat)
    requires i < |lines|
    ensures ParseLines(lines[..i + 1]) == Step(ParseLines(lines[..i]), ParseLine(lines[i]))
  {
    assert lines[..i + 1][..i] == lines[..i];
  }

  /** Feeding `a + b` is feeding `a`, then `b` unless `a` stopped the loop. */
  lemma {:induction false} FeedAppend(config: Config, a: seq<string>, b: seq<string>)
    ensures Feed(config, a + b) == if Feed(config, a).1 then Feed(config, a) else Feed(Feed(config, a).0, b)
    decreases |b|
  {
    if b == [] {
      assert a + b == a;
    } else {
      var b' := b[..|b| - 1];
      assert (a + b)[..|a + b| - 1] == a + b';
      assert (a + b)[|a + b| - 1] == b[|b| - 1];
      FeedAppend(config, a, b');
    }
  }

  /** Blank and comment lines are ignored, wherever they stand. */
  lemma SkippedLineIgnored(a: seq<string>, line: string, b: seq<string>)
    requires Strip(line) == "" || Strip(line)[0] == '#'
    ensures ParseLines(a + [line] + b) == ParseLines(a + b)
  {
    assert ParseLine(line) == Skip;
    FeedAppend(EMPTY, a + [line], b);
    FeedAppend(EMPTY, a, b);
    assert (a + [line])[..|a|] == a;
  }

  /** A line without `=` ends the parse: nothing after it is read, what came before is kept. */
  lemma MalformedLineStops(a: seq<string>, line: string, b: seq<string>)
    requires Strip(line) != "" && Strip(line)[0] != '#' && '=' !in Strip(line)
    ensures ParseLines(a + [line] + b).0 == ParseLines(a).0
  {
    ParseStrippedMeaning(Strip(line));
    assert ParseLine(line) == Malformed;
    FeedAppend(EMPTY, a + [line], b);
    assert (a + [line])[..|a|] == a;
  }

  /** No line of `lines` assigns `key`. */
  predicate NeverAssigns(lines: seq<string>, key: string)
  {
    forall k :: 0 <= k < |lines| ==> !(ParseLine(lines[k]).Assign? && ParseLine(lines[k]).key == key)
  }

  /**
   * The last of several assignments to a key wins: when nothing before it
   * stopped the parse and no later line assigns that key, its value stays.
   */
  lemma LastAssignmentWins(a: seq<string>, line: string, b: seq<string>, key: string, v: string)
    requires key == API_KEY || key == ENDPOINT_KEY
    requires !ParseLines(a).1
    requires ParseLine(line) == Assign(key, v)
    requires forall k :: 0 <= k < |b| ==> !(ParseLine(b[k]).Assign? && ParseLine(b[k]).key == key)
    ensures Get(ParseLines(a + [line] + b).0, key) == Some(v)
  {
    assert NeverAssigns(b, key);
    var c := Store(ParseLines(a).0, key, v);
    assert (a + [line])[..|a|] == a && (a + [line])[|a|] == line;
    assert ParseLines(a + [line]) == Step(ParseLines(a), Assign(key, v)) == (c, false);
    FeedAppend(EMPTY, a + [line], b);
    FeedKeeps(c, b, key);
  }

  /** Lines that never assign a key leave its value as it was. */
  lemma {:induction false} FeedKeeps(config: Config, lines: seq<string>, key: string)
    requires NeverAssigns(lines, key)
    ensures Get(Feed(config, lines).0, key) == Get(config, key)
    decreases |lines|
  {
    if lines != [] {
      var init := lines[..|lines| - 1];
      assert NeverAssigns(init, key) by {
        forall k | 0 <= k < |init| ensures init[k] == lines[k] { }
      }
      assert !(ParseLine(lines[|lines| - 1]).Assign? && ParseLine(lines[|lines| - 1]).key == key);
      FeedKeeps(config, init, key);
    }
  }

  /** A key no line of the file assigns stays `None`, as the dictionary was initialised. */
  lemma UnassignedStaysNone(lines: seq<string>, key: string)
    requires NeverAssigns(lines, key)
    ensures Get(ParseLines(lines).0, key) == None
  {
    FeedKeeps(EMPTY, lines, key);
  }

  /** Keys other than the two configuration keys are never stored. */
  lemma OtherKeysIgnored(lines: seq<string>, line: string)
    requires ParseLine(line).Assign? && ParseLine(line).key != API_KEY && ParseLine(line).key != ENDPOINT_KEY
    ensures ParseLines(lines + [line]).0 == ParseLines(lines).0
  {
    assert (lines + [line])[..|lines|] == lines;
  }
}
