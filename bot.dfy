/**
 * The start-up logic of bot.py: load_env_file reads KEY=VALUE lines into
 * the process environment, keeping variables already set unless told to
 * override them, and the guild id is read from its variable. The file is
 * given as its lines (None when it does not exist); the environment is the
 * map held by an Environ object.
 */
module Bot {
  import opened Wrappers
  import opened Text

  // ---------------------------------------------------------------- one line

  /**
   * One line of the file: skipped (None) when it is blank or a comment after
   * strip(), or has no "="; otherwise split at the first "=", the key
   * stripped, the value stripped and then stripped of '"' and of "'".
   */
  function ParseEnvLine(raw: string): (r: Option<(string, string)>)
    ensures Strip(raw) == [] || Strip(raw)[0] == '#' || '=' !in Strip(raw) ==> r.None?
    ensures Strip(raw) != [] && Strip(raw)[0] != '#' && '=' in Strip(raw) ==> r.Some?
    ensures r.Some? ==> '=' !in r.value.0
    ensures r.Some? ==> r.value.0 == [] || (!IsSpace(r.value.0[0]) && !IsSpace(r.value.0[|r.value.0| - 1]))
    ensures r.Some? ==> r.value.1 == [] || (r.value.1[0] != '\'' && r.value.1[|r.value.1| - 1] != '\'')
  {
    var line := Strip(raw);
    if line == [] || line[0] == '#' then None
    else if '=' !in line then None
    else
      var k := IndexOf(line, '=');
      var key := Strip(line[..k]);
      assert '=' !in key by {
        StripIsSlice(line[..k]);
      }
      Some((key, StripChar(StripChar(Strip(line[k + 1..]), '"'), '\'')))
  }

  /** strip() returns a piece of its argument. */
  lemma StripIsSlice(s: string)
    ensures forall c :: c in Strip(s) ==> c in s
  {
    LStripIsSlice(s);
    RStripIsSlice(LStrip(s));
  }

  lemma {:induction false} LStripIsSlice(s: string)
    ensures forall c :: c in LStrip(s) ==> c in s
    decreases |s|
  {
    if |s| > 0 && IsSpace(s[0]) {
      LStripIsSlice(s[1..]);
    }
  }

  lemma {:induction false} RStripIsSlice(s: string)
    ensures forall c :: c in RStrip(s) ==> c in s
    decreases |s|
  {
    if |s| > 0 && IsSpace(s[|s| - 1]) {
      RStripIsSlice(s[..|s| - 1]);
    }
  }

  /** A key with nothing to trim: not empty, no "=", not a comment, no surrounding whitespace. */
  predicate IsPlainKey(key: string) {
    key != [] && '=' !in key && key[0] != '#' && !IsSpace(key[0]) && !IsSpace(key[|key| - 1])
  }

  /** A value with nothing to trim: no surrounding whitespace or quote characters. It may hold "=". */
  predicate IsPlainValue(value: string) {
    value == [] ||
      (&& !IsSpace(value[0]) && !IsSpace(value[|value| - 1])
       && value[0] != '"' && value[|value| - 1] != '"'
       && value[0] != '\'' && value[|value| - 1] != '\'')
  }

  /** KEY=VALUE reads back as (KEY, VALUE), even when VALUE holds "=". */
  lemma EnvLineRoundTrip(key: string, value: string)
    requires IsPlainKey(key) && IsPlainValue(value)
    ensures ParseEnvLine(key + "=" + value) == Some((key, value))
  {
    var line := key + "=" + value;
    StripKeeps(line);
    assert IndexOf(line, '=') == |key| by {
      assert line[|key|] == '=';
      assert line[..|key|] == key;
    }
    assert line[..|key|] == key && line[|key| + 1..] == value;
    StripKeeps(key);
    StripKeeps(value);
    StripCharKeeps(value, '"');
    StripCharKeeps(value, '\'');
  }

  /** KEY="VALUE": the double quotes around the value are dropped. */
  lemma EnvLineQuotedRoundTrip(key: string, value: string)
    requires IsPlainKey(key) && IsPlainValue(value)
    ensures ParseEnvLine(key + "=\"" + value + "\"") == Some((key, value))
  {
    var quoted := "\"" + value + "\"";
    var line := key + "=" + quoted;
    assert key + "=\"" + value + "\"" == line;
    StripKeeps(line);
    assert IndexOf(line, '=') == |key| by {
      assert line[|key|] == '=';
      assert line[..|key|] == key;
    }
    assert line[..|key|] == key && line[|key| + 1..] == quoted;
    StripKeeps(key);
    StripKeeps(quoted);
    QuotesDropped(value, '"');
    StripCharKeeps(value, '\'');
  }

  /**
   * Whitespace around the key, around "=" and around the whole line is
   * trimmed, and one pair of double or single quotes around the value is
   * dropped.
   */
  lemma EnvLinePaddedRoundTrip(
    w1: string, key: string, w2: string, w3: string, q: string, value: string, w4: string)
    requires AllSpace(w1) && AllSpace(w2) && AllSpace(w3) && AllSpace(w4)
    requires IsPlainKey(key) && IsPlainValue(value)
    requires q == "" || q == "\"" || q == "'"
    ensures ParseEnvLine(w1 + key + w2 + "=" + w3 + q + value + q + w4) == Some((key, value))
  {
    var v := q + value + q;
    QuotedEnds(q, value);
    var raw := w1 + key + w2 + "=" + w3 + q + value + q + w4;
    assert raw == w1 + key + w2 + "=" + w3 + v + w4;
    PaddedLineStrips(w1, key, w2, w3, v, w4);
    var rest := if v == [] then [] else w3 + v;
    StrippedEntry(raw, key, w2, rest);
    StripPadding(w3, v, []);
    assert w3 + v + [] == w3 + v;
    QuotedValueUnwraps(q, value);
  }

  /** '"' is stripped before "'": single quotes outside double quotes leave the double quotes in place. */
  lemma EnvLineQuoteOrder(key: string, value: string)
    requires IsPlainKey(key) && IsPlainValue(value)
    ensures ParseEnvLine(key + "='\"" + value + "\"'") == Some((key, "\"" + value + "\""))
  {
    var inner := ['"'] + value + ['"'];
    var v := ['\''] + inner + ['\''];
    var raw := key + "=" + v;
    assert key + "='\"" + value + "\"'" == raw;
    assert inner == "\"" + value + "\"";
    StripKeeps(raw);
    assert raw == key + [] + "=" + v;
    StrippedEntry(raw, key, [], v);
    SingleOutsideDouble(inner);
  }

  lemma SingleOutsideDouble(inner: string)
    requires |inner| >= 2 && inner[0] == '"' && inner[|inner| - 1] == '"'
    ensures var v := ['\''] + inner + ['\'']; StripChar(StripChar(Strip(v), '"'), '\'') == inner
  {
    var v := ['\''] + inner + ['\''];
    StripKeeps(v);
    StripCharKeeps(v, '"');
    QuotesDropped(inner, '\'');
  }

  /** A value with optional quotes around it has no whitespace at either end. */
  lemma QuotedEnds(q: string, value: string)
    requires IsPlainValue(value)
    requires q == "" || q == "\"" || q == "'"
    ensures var v := q + value + q; v == [] || (!IsSpace(v[0]) && !IsSpace(v[|v| - 1]))
  {
    if q == "" {
      assert q + value + q == value;
    }
  }

  /** A stripped line key + whitespace + "=" + rest reads as the key and the unquoted rest. */
  lemma StrippedEntry(raw: string, key: string, w: string, rest: string)
    requires IsPlainKey(key) && AllSpace(w)
    requires Strip(raw) == key + w + "=" + rest
    ensures ParseEnvLine(raw) == Some((key, StripChar(StripChar(Strip(rest), '"'), '\'')))
  {
    var line := Strip(raw);
    var k := |key + w|;
    PlainKeyThenSpace(key, w);
    assert line[..k] == key + w;
    assert line[k] == '=';
    assert IndexOf(line, '=') == k;
    assert line[k + 1..] == rest;
    StripPadding([], key, w);
    assert [] + key + w == key + w;
  }

  /** The stripped line of a padded entry: the outer whitespace goes, and so does w3 when nothing follows it. */
  lemma PaddedLineStrips(w1: string, key: string, w2: string, w3: string, v: string, w4: string)
    requires AllSpace(w1) && AllSpace(w2) && AllSpace(w3) && AllSpace(w4)
    requires IsPlainKey(key) && (v == [] || (!IsSpace(v[0]) && !IsSpace(v[|v| - 1])))
    ensures Strip(w1 + key + w2 + "=" + w3 + v + w4)
      == key + w2 + "=" + (if v == [] then [] else w3 + v)
  {
    if v == [] {
      var t := key + w2 + "=";
      assert w1 + key + w2 + "=" + w3 + v + w4 == w1 + t + (w3 + w4);
      assert AllSpace(w3 + w4) by {
        assert forall i :: 0 <= i < |w3 + w4| ==> (w3 + w4)[i] == if i < |w3| then w3[i] else w4[i - |w3|];
      }
      StripPadding(w1, t, w3 + w4);
      assert t == key + w2 + "=" + [];
    } else {
      var t := key + w2 + "=" + w3 + v;
      assert w1 + key + w2 + "=" + w3 + v + w4 == w1 + t + w4;
      StripPadding(w1, t, w4);
    }
  }

  /** No "=" before the end of a plain key followed by whitespace. */
  lemma PlainKeyThenSpace(key: string, w: string)
    requires IsPlainKey(key) && AllSpace(w)
    ensures '=' !in key + w
  {
    assert !IsSpace('=');
  }

  /** The value read from q + value + q, for no quote, a pair of '"' or a pair of "'". */
  lemma QuotedValueUnwraps(q: string, value: string)
    requires IsPlainValue(value)
    requires q == "" || q == "\"" || q == "'"
    ensures StripChar(StripChar(q + value + q, '"'), '\'') == value
  {
    if q == "" {
      assert q + value + q == value;
      StripCharKeeps(value, '"');
      StripCharKeeps(value, '\'');
    } else if q == "\"" {
      assert q + value + q == ['"'] + value + ['"'];
      QuotesDropped(value, '"');
      StripCharKeeps(value, '\'');
    } else {
      var v := ['\''] + value + ['\''];
      assert q + value + q == v;
      StripCharKeeps(v, '"');
      QuotesDropped(value, '\'');
    }
  }

  /** Stripping c from c + s + c gives s when s does not start or end with c. */
  lemma QuotesDropped(s: string, c: char)
    requires s == [] || (s[0] != c && s[|s| - 1] != c)
    ensures StripChar([c] + s + [c], c) == s
  {
    var t := [c] + s + [c];
    assert t[1..] == s + [c];
    if s == [] {
      assert LStripChar(t, c) == [];
    } else {
      assert LStripChar(t, c) == LStripChar(s + [c], c) == s + [c];
      assert (s + [c])[..|s|] == s;
      assert RStripChar(s + [c], c) == RStripChar(s, c) == s;
    }
  }

  // ---------------------------------------------------------------- the whole file

  /**
   * Setting a variable fails when the name is empty or either part holds a
   * NUL character (on a POSIX system).
   */
  predicate IllegalEntry(key: string, value: string) {
    key == [] || '\0' in key || '\0' in value
  }

  /**
   * The exception a failed assignment raises: a NUL character is refused
   * with ValueError while the name and value are converted, before
   * setenv() is called; an empty name gets past the conversion and
   * setenv() refuses it with EINVAL, raised as OSError.
   */
  function EntryError(key: string, value: string): (e: PyError)
    requires IllegalEntry(key, value)
    ensures e == ValueError <==> '\0' in key || '\0' in value
    ensures e == OSError <==> key == [] && '\0' !in value
  {
    if '\0' in key || '\0' in value then ValueError else OSError
  }

  /** One line applied to the environment: os.environ[key] = val when override is set or the key is new. */
  function ApplyLine(env: map<string, string>, raw: string, override: bool): Try<map<string, string>> {
    match ParseEnvLine(raw)
    case None => Returns(env)
    case Some((key, value)) =>
      if override || key !in env then
        if IllegalEntry(key, value) then Raises(EntryError(key, value)) else Returns(env[key := value])
      else Returns(env)
  }

  /** The environment after some lines, and the error that stopped the loop, if any. */
  datatype Loaded = Loaded(env: map<string, string>, error: Option<PyError>)

  /** The lines applied in order; the first error stops the loop with the variables set so far. */
  function LoadLines(env: map<string, string>, lines: seq<string>, override: bool): Loaded
    decreases |lines|
  {
    if lines == [] then Loaded(env, None)
    else
      var before := LoadLines(env, lines[..|lines| - 1], override);
      if before.error.Some? then before
      else
        match ApplyLine(before.env, lines[|lines| - 1], override)
        case Returns(after) => Loaded(after, None)
        case Raises(e) => Loaded(before.env, Some(e))
  }

  /** load_env_file: a missing file (FileNotFoundError, caught) changes nothing. */
  function LoadFile(env: map<string, string>, file: Option<seq<string>>, override: bool): Loaded {
    match file
    case None => Loaded(env, None)
    case Some(lines) => LoadLines(env, lines, override)
  }

  /** Once a line fails, later lines change nothing. */
  lemma {:induction false} ErrorStops(env: map<string, string>, lines: seq<string>, k: nat, override: bool)
    requires k <= |lines| && LoadLines(env, lines[..k], override).error.Some?
    ensures LoadLines(env, lines, override) == LoadLines(env, lines[..k], override)
    decreases |lines| - k
  {
    if k < |lines| {
      var longer := lines[..k + 1];
      assert longer[..|longer| - 1] == lines[..k];
      ErrorStops(env, lines, k + 1, override);
    } else {
      assert lines[..k] == lines;
    }
  }

  /** Without override, variables already present keep their values and none is removed. */
  lemma {:induction false} LoadKeepsExisting(env: map<string, string>, lines: seq<string>)
    ensures var loaded := LoadLines(env, lines, false).env;
      forall key :: key in env ==> key in loaded && loaded[key] == env[key]
    decreases |lines|
  {
    if lines != [] {
      LoadKeepsExisting(env, lines[..|lines| - 1]);
    }
  }

  /** With or without override, loading never removes a variable. */
  lemma {:induction false} LoadNeverRemoves(env: map<string, string>, lines: seq<string>, override: bool)
    ensures env.Keys <= LoadLines(env, lines, override).env.Keys
    decreases |lines|
  {
    if lines != [] {
      LoadNeverRemoves(env, lines[..|lines| - 1], override);
    }
  }

  /** Without override, the first line that sets a variable wins: later lines leave it alone. */
  lemma {:induction false} FirstWinsWithoutOverride(env: map<string, string>, lines: seq<string>, later: seq<string>, key: string)
    requires key in LoadLines(env, lines, false).env
    ensures key in LoadLines(env, lines + later, false).env
    ensures LoadLines(env, lines + later, false).env[key] == LoadLines(env, lines, false).env[key]
    decreases |later|
  {
    if later != [] {
      var shorter := later[..|later| - 1];
      FirstWinsWithoutOverride(env, lines, shorter, key);
      var all := lines + later;
      assert all[..|all| - 1] == lines + shorter;
      KeptByOneLine(env, all, key);
    } else {
      assert lines + later == lines;
    }
  }

  /** Without override, the last line keeps a variable that the lines before it left set. */
  lemma KeptByOneLine(env: map<string, string>, lines: seq<string>, key: string)
    requires lines != [] && key in LoadLines(env, lines[..|lines| - 1], false).env
    ensures key in LoadLines(env, lines, false).env
    ensures LoadLines(env, lines, false).env[key] == LoadLines(env, lines[..|lines| - 1], false).env[key]
  {
  }

  /** With override, a line that sets a variable replaces whatever the earlier lines left. */
  lemma LastWinsWithOverride(env: map<string, string>, lines: seq<string>, raw: string, key: string, value: string)
    requires LoadLines(env, lines, true).error.None?
    requires ParseEnvLine(raw) == Some((key, value)) && !IllegalEntry(key, value)
    ensures LoadLines(env, lines + [raw], true) == Loaded(LoadLines(env, lines, true).env[key := value], None)
  {
    assert (lines + [raw])[..|lines|] == lines;
  }

  /** A line "=VALUE" names the empty variable, which setenv() refuses: OSError. */
  lemma EmptyNameRefused(env: map<string, string>, value: string, override: bool)
    requires IsPlainValue(value) && '\0' !in value
    requires override || "" !in env
    ensures ApplyLine(env, "=" + value, override) == Raises(OSError)
  {
    EmptyNameLine(value);
  }

  lemma EmptyNameLine(value: string)
    requires IsPlainValue(value)
    ensures ParseEnvLine("=" + value) == Some(("", value))
  {
    var line := "=" + value;
    StripKeeps(line);
    assert line[0] == '=';
    assert line[..0] == [] && line[1..] == value;
    StripKeeps([]);
    StripKeeps(value);
    StripCharKeeps(value, '"');
    StripCharKeeps(value, '\'');
  }

  /** A mutable process environment, like os.environ. */
  class Environ {
    var vars: map<string, string>

    constructor(initial: map<string, string>)
      ensures vars == initial
    {
      vars := initial;
    }

    /**
     * load_env_file: each line of the file applied in turn; the returned
     * error is the exception that escapes, the variables set before it stay.
     */
    method LoadEnvFile(file: Option<seq<string>>, override: bool) returns (error: Option<PyError>)
      modifies this
      ensures Loaded(vars, error) == LoadFile(old(vars), file, override)
    {
      error := None;
      if file.None? {
        return;
      }
      var lines := file.value;
      for i := 0 to |lines|
        invariant LoadLines(old(vars), lines[..i], override) == Loaded(vars, None)
      {
        assert lines[..i + 1][..i] == lines[..i];
        var parsed := ParseEnvLine(lines[i]);
        if parsed.Some? {
          var (key, value) := parsed.value;
          if override || key !in vars {
            if IllegalEntry(key, value) {
              error := Some(EntryError(key, value));
              ErrorStops(old(vars), lines, i + 1, override);
              return;
            }
            vars := vars[key := value];
          }
        }
      }
      assert lines[..|lines|] == lines;
    }
  }

  // ---------------------------------------------------------------- guild id

  /** str.isnumeric() for the ASCII digits. */
  predicate IsNumeric(s: string) {
    s != [] && AllDigits(s)
  }

  /**
   * bot.guild_id: the value of GUILD_ID when it is numeric, -1 otherwise;
   * an unset variable is None, and None.isnumeric() raises AttributeError.
   */
  function ParseGuildId(guildId: Option<string>): (r: Try<int>)
    ensures r.Raises? <==> guildId.None?
    ensures r.Raises? ==> r.error == AttributeError
    ensures r.Returns? ==> r.value >= -1
    ensures r.Returns? && r.value == -1 ==> !IsNumeric(guildId.value)
    ensures guildId.Some? && !IsNumeric(guildId.value) ==> r == Returns(-1)
    ensures guildId.Some? && IsNumeric(guildId.value) ==> r == Returns(DigitsValue(guildId.value))
  {
    match guildId
    case None => Raises(AttributeError)
    case Some(s) =>
      if IsNumeric(s) then
        ParseIntDigits(s);
        Returns(ParseInt(s).value)
      else Returns(-1)
  }

  /** The decimal form of a guild id reads back as that id. */
  lemma GuildIdRoundTrip(n: nat)
    ensures ParseGuildId(Some(DecimalString(n))) == Returns(n)
  {
    ParseIntDigits(DecimalString(n));
  }
}
