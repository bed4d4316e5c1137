/**
 * The Python string builtins the bot relies on, over seq<char>:
 * `in`, lower(), strip(), strip(chars), replace(c, ""), split(sep),
 * splitlines(), sep.join(parts) and int(), plus the decimal formatting
 * done by f-strings.
 */
module Text {
  import opened Wrappers

  predicate IsDigit(c: char) { '0' <= c <= '9' }

  predicate AllDigits(s: string) { forall i :: 0 <= i < |s| ==> IsDigit(s[i]) }

  /** The characters for which str.isspace() holds; str.strip() removes them. */
  predicate IsSpace(c: char) {
    c == ' ' || ('\t' <= c <= '\r') || ('\U{1C}' <= c <= '\U{1F}')
    || c == '\U{85}' || c == '\U{A0}' || c == '\U{1680}'
    || ('\U{2000}' <= c <= '\U{200A}') || c == '\U{2028}' || c == '\U{2029}'
    || c == '\U{202F}' || c == '\U{205F}' || c == '\U{3000}'
  }

  /** The line boundaries at which str.splitlines() breaks ("\r\n" counts once). */
  predicate IsLineBoundary(c: char) {
    ('\n' <= c <= '\r') || ('\U{1C}' <= c <= '\U{1E}')
    || c == '\U{85}' || c == '\U{2028}' || c == '\U{2029}'
  }

  /** str.lower() on ASCII letters; other characters are kept. */
  function LowerChar(c: char): char {
    if 'A' <= c <= 'Z' then (c as int - 'A' as int + 'a' as int) as char else c
  }

  function Lower(s: string): string {
    seq(|s|, i requires 0 <= i < |s| => LowerChar(s[i]))
  }

  predicate StartsWith(s: string, prefix: string) {
    |prefix| <= |s| && s[..|prefix|] == prefix
  }

  /** `needle in hay` for Python strings. */
  predicate Contains(hay: string, needle: string)
    decreases |hay|
  {
    StartsWith(hay, needle) || (|hay| > 0 && Contains(hay[1..], needle))
  }

  function Repeat(c: char, n: nat): string {
    seq(n, _ => c)
  }

  /** The index of the first character satisfying p, or |s| when there is none. */
  function FirstIndex(s: string, p: char -> bool): (k: nat)
    ensures k <= |s|
    ensures forall i :: 0 <= i < k ==> !p(s[i])
    ensures k < |s| ==> p(s[k])
    decreases |s|
  {
    if |s| == 0 || p(s[0]) then 0 else 1 + FirstIndex(s[1..], p)
  }

  /** s without its longest prefix of characters satisfying drop. */
  function DropLeading(s: string, drop: char -> bool): (r: string)
    ensures |r| <= |s| && r == s[|s| - |r|..]
    ensures forall i :: 0 <= i < |s| - |r| ==> drop(s[i])
    ensures r == [] || !drop(r[0])
  {
    s[FirstIndex(s, c => !drop(c))..]
  }

  /** s without its longest suffix of characters satisfying drop. */
  function DropTrailing(s: string, drop: char -> bool): (r: string)
    ensures |r| <= |s| && r == s[..|r|]
    ensures forall i :: |r| <= i < |s| ==> drop(s[i])
    ensures r == [] || !drop(r[|r| - 1])
    decreases |s|
  {
    if |s| > 0 && drop(s[|s| - 1]) then DropTrailing(s[..|s| - 1], drop) else s
  }

  /** str.lstrip(): s without its leading whitespace. */
  function LStrip(s: string): (r: string)
    ensures |r| <= |s|
    ensures r == [] || !IsSpace(r[0])
    decreases |s|
  {
    if |s| > 0 && IsSpace(s[0]) then LStrip(s[1..]) else s
  }

  /** str.rstrip(): s without its trailing whitespace. */
  function RStrip(s: string): (r: string)
    ensures |r| <= |s|
    ensures r == [] || !IsSpace(r[|r| - 1])
    ensures s != [] && !IsSpace(s[0]) ==> r != [] && r[0] == s[0]
    decreases |s|
  {
    if |s| > 0 && IsSpace(s[|s| - 1]) then RStrip(s[..|s| - 1]) else s
  }

  /** str.strip() with no argument. */
  function Strip(s: string): (r: string)
    ensures |r| <= |s|
    ensures r == [] || (!IsSpace(r[0]) && !IsSpace(r[|r| - 1]))
  {
    RStrip(LStrip(s))
  }

  /** s without its leading copies of c. */
  function LStripChar(s: string, c: char): (r: string)
    ensures |r| <= |s|
    ensures r == [] || r[0] != c
    decreases |s|
  {
    if |s| > 0 && s[0] == c then LStripChar(s[1..], c) else s
  }

  /** s without its trailing copies of c. */
  function RStripChar(s: string, c: char): (r: string)
    ensures |r| <= |s|
    ensures r == [] || r[|r| - 1] != c
    ensures s != [] && s[0] != c ==> r != [] && r[0] == s[0]
    decreases |s|
  {
    if |s| > 0 && s[|s| - 1] == c then RStripChar(s[..|s| - 1], c) else s
  }

  /** str.strip(c) for a single character c. */
  function StripChar(s: string, c: char): (r: string)
    ensures |r| <= |s|
    ensures r == [] || (r[0] != c && r[|r| - 1] != c)
  {
    RStripChar(LStripChar(s, c), c)
  }

  /** A string that starts and ends with non-space characters is its own strip(). */
  lemma StripKeeps(s: string)
    requires s == [] || (!IsSpace(s[0]) && !IsSpace(s[|s| - 1]))
    ensures Strip(s) == s
  {
  }

  /** Whitespace only (possibly empty). */
  predicate AllSpace(w: string) { forall i :: 0 <= i < |w| ==> IsSpace(w[i]) }

  /** lstrip() removes leading whitespace up to the first non-space character. */
  lemma {:induction false} LStripPadding(w: string, t: string)
    requires AllSpace(w) && (t == [] || !IsSpace(t[0]))
    ensures LStrip(w + t) == t
    decreases |w|
  {
    if w != [] {
      assert (w + t)[1..] == w[1..] + t;
      LStripPadding(w[1..], t);
    } else {
      assert w + t == t;
    }
  }

  /** rstrip() removes trailing whitespace back to the last non-space character. */
  lemma {:induction false} RStripPadding(t: string, w: string)
    requires AllSpace(w) && (t == [] || !IsSpace(t[|t| - 1]))
    ensures RStrip(t + w) == t
    decreases |w|
  {
    if w != [] {
      var w' := w[..|w| - 1];
      assert (t + w)[..|t + w| - 1] == t + w';
      RStripPadding(t, w');
    } else {
      assert t + w == t;
    }
  }

  /** strip() of whitespace + t + whitespace is t, when t has no whitespace at either end. */
  lemma StripPadding(w1: string, t: string, w2: string)
    requires AllSpace(w1) && AllSpace(w2)
    requires t == [] || (!IsSpace(t[0]) && !IsSpace(t[|t| - 1]))
    ensures Strip(w1 + t + w2) == t
  {
    if t == [] {
      assert w1 + t + w2 == w1 + w2 + [];
      LStripPadding(w1 + w2, []);
    } else {
      assert w1 + t + w2 == w1 + (t + w2);
      LStripPadding(w1, t + w2);
      RStripPadding(t, w2);
    }
  }

  /** A string that does not start or end with c is its own strip(c). */
  lemma StripCharKeeps(s: string, c: char)
    requires s == [] || (s[0] != c && s[|s| - 1] != c)
    ensures StripChar(s, c) == s
  {
  }

  /** s.replace(c, "") */
  function Remove(s: string, c: char): (r: string)
    ensures |r| <= |s|
    ensures c !in r
    ensures forall x :: x in r ==> x in s
    ensures forall x :: x in s && x != c ==> x in r
    ensures c !in s ==> r == s
  {
    if s == [] then []
    else if s[0] == c then Remove(s[1..], c)
    else [s[0]] + Remove(s[1..], c)
  }

  /** Removing a character from a concatenation removes it from each part. */
  lemma {:induction false} RemoveConcat(a: string, b: string, c: char)
    ensures Remove(a + b, c) == Remove(a, c) + Remove(b, c)
    decreases |a|
  {
    if a == [] {
      assert a + b == b;
    } else {
      assert (a + b)[0] == a[0];
      assert (a + b)[1..] == a[1..] + b;
      RemoveConcat(a[1..], b, c);
      if a[0] != c {
        assert [a[0]] + Remove(a[1..], c) + Remove(b, c) == [a[0]] + (Remove(a[1..], c) + Remove(b, c));
      }
    }
  }

  /** sep.join(parts) */
  function Join(sep: string, parts: seq<string>): string
  {
    if |parts| == 0 then []
    else if |parts| == 1 then parts[0]
    else parts[0] + sep + Join(sep, parts[1..])
  }

  lemma JoinCons(sep: string, p: string, rest: seq<string>)
    requires |rest| >= 1
    ensures Join(sep, [p] + rest) == p + sep + Join(sep, rest)
  {
    assert ([p] + rest)[1..] == rest;
  }

  /** Joining the first k parts and the rest, with sep between them, joins all the parts. */
  lemma {:induction false} JoinAt(sep: string, parts: seq<string>, k: nat)
    requires 0 < k < |parts|
    ensures Join(sep, parts[..k]) + sep + Join(sep, parts[k..]) == Join(sep, parts)
    decreases k
  {
    if k == 1 {
      assert parts[..1] == [parts[0]];
    } else {
      var tail := parts[1..];
      JoinAt(sep, tail, k - 1);
      assert parts[..k] == [parts[0]] + tail[..k - 1];
      assert tail[k - 1..] == parts[k..];
      JoinCons(sep, parts[0], tail[..k - 1]);
    }
  }

  /** s.find(c) when c occurs in s, and |s| when it does not. */
  function IndexOf(s: string, c: char): (k: nat)
    ensures k <= |s|
    ensures c !in s[..k]
    ensures k < |s| ==> s[k] == c
    ensures k == |s| <==> c !in s
    decreases |s|
  {
    if |s| == 0 then 0
    else if s[0] == c then 0
    else
      var k := 1 + IndexOf(s[1..], c);
      assert s[..k] == [s[0]] + s[1..][..k - 1];
      k
  }

  /** s.split(sep) for a one-character separator: pieces free of sep that join back to s. */
  function Split(s: string, sep: char): (parts: seq<string>)
    ensures |parts| >= 1
    ensures forall i :: 0 <= i < |parts| ==> sep !in parts[i]
    ensures Join([sep], parts) == s
    decreases |s|
  {
    var k := IndexOf(s, sep);
    if k == |s| then [s]
    else
      var head := s[..k];
      var rest := Split(s[k + 1..], sep);
      JoinCons([sep], head, rest);
      assert s == head + [sep] + s[k + 1..];
      [head] + rest
  }

  /** Splitting undoes joining when no piece holds the separator. */
  lemma {:induction false} SplitJoin(parts: seq<string>, sep: char)
    requires |parts| >= 1
    requires forall i :: 0 <= i < |parts| ==> sep !in parts[i]
    ensures Split(Join([sep], parts), sep) == parts
  {
    var s := Join([sep], parts);
    var p := parts[0];
    if |parts| > 1 {
      var rest := parts[1..];
      JoinCons([sep], p, rest);
      assert parts == [p] + rest;
      assert s == p + [sep] + Join([sep], rest);
      assert s[..|p|] == p;
      assert s[|p|] == sep;
      var k := IndexOf(s, sep);
      assert forall i :: 0 <= i < |p| ==> s[i] == p[i] && s[i] != sep;
      assert k == |p|;
      assert s[k + 1..] == Join([sep], rest);
      SplitJoin(rest, sep);
    }
  }

  /** The index of the first line boundary in s, or |s|. */
  function LineEnd(s: string): (k: nat)
    ensures k <= |s|
    ensures forall i :: 0 <= i < k ==> !IsLineBoundary(s[i])
    ensures k < |s| ==> IsLineBoundary(s[k])
    decreases |s|
  {
    if |s| == 0 || IsLineBoundary(s[0]) then 0 else 1 + LineEnd(s[1..])
  }

  /** str.splitlines(): the lines between boundaries, with no empty line after a final boundary. */
  function SplitLines(s: string): (lines: seq<string>)
    ensures s != [] <==> |lines| >= 1
    decreases |s|
  {
    if s == [] then []
    else
      var k := LineEnd(s);
      if k == |s| then [s]
      else
        var next := if s[k] == '\r' && k + 1 < |s| && s[k + 1] == '\n' then k + 2 else k + 1;
        [s[..k]] + SplitLines(s[next..])
  }

  /** A first line free of boundaries, then "\n": that line comes first, the lines of the rest follow. */
  lemma SplitLinesAfter(line: string, rest: string)
    requires forall i :: 0 <= i < |line| ==> !IsLineBoundary(line[i])
    ensures SplitLines(line + "\n" + rest) == [line] + SplitLines(rest)
  {
    var s := line + "\n" + rest;
    assert s == line + ("\n" + rest);
    LineEndAt(line, "\n" + rest);
    assert s[|line|] == '\n';
    var next := SplitLinesAtNewline(s);
    assert s[..|line|] == line;
    assert s[|line| + 1..] == rest;
  }

  lemma SplitLinesAtNewline(s: string) returns (rest: string)
    requires LineEnd(s) < |s| && s[LineEnd(s)] == '\n'
    ensures rest == s[LineEnd(s) + 1..]
    ensures SplitLines(s) == [s[..LineEnd(s)]] + SplitLines(rest)
  {
    var k := LineEnd(s);
    assert s[k] != '\r';
    rest := s[k + 1..];
  }

  lemma {:induction false} LineEndAt(line: string, t: string)
    requires forall i :: 0 <= i < |line| ==> !IsLineBoundary(line[i])
    requires t != [] && IsLineBoundary(t[0])
    ensures LineEnd(line + t) == |line|
    decreases |line|
  {
    if line == [] {
      assert line + t == t;
    } else {
      assert (line + t)[0] == line[0];
      assert (line + t)[1..] == line[1..] + t;
      LineEndAt(line[1..], t);
    }
  }

  /** Text in which "\n" is the only line boundary. */
  predicate OnlyNewlineBreaks(s: string) {
    forall i :: 0 <= i < |s| && IsLineBoundary(s[i]) ==> s[i] == '\n'
  }

  /**
   * For text whose only line boundary is "\n" and that does not end with one,
   * joining the lines with "\n" gives the text back.
   */
  lemma {:induction false} SplitLinesJoin(s: string)
    requires OnlyNewlineBreaks(s)
    requires s == [] || s[|s| - 1] != '\n'
    ensures Join("\n", SplitLines(s)) == s
    decreases |s|
  {
    if s != [] {
      var k := LineEnd(s);
      if k < |s| {
        var rest := SplitLinesStep(s);
        OnlyNewlineBreaksSuffix(s, k + 1);
        SplitLinesJoin(rest);
        JoinCons("\n", s[..k], SplitLines(rest));
      }
    }
  }

  /** A line that ends at a "\n" is followed by the lines of the rest. */
  lemma SplitLinesStep(s: string) returns (rest: string)
    requires OnlyNewlineBreaks(s) && LineEnd(s) < |s|
    requires s[|s| - 1] != '\n'
    ensures rest == s[LineEnd(s) + 1..] && rest != [] && rest[|rest| - 1] == s[|s| - 1]
    ensures s == s[..LineEnd(s)] + "\n" + rest
    ensures SplitLines(s) == [s[..LineEnd(s)]] + SplitLines(rest)
  {
    var k := LineEnd(s);
    assert IsLineBoundary(s[k]);
    rest := s[k + 1..];
  }

  lemma OnlyNewlineBreaksSuffix(s: string, j: nat)
    requires OnlyNewlineBreaks(s) && j <= |s|
    ensures OnlyNewlineBreaks(s[j..])
  {
    forall i | 0 <= i < |s| - j && IsLineBoundary(s[j..][i]) ensures s[j..][i] == '\n' {
      assert s[j..][i] == s[j + i];
    }
  }

  function DigitChar(d: nat): char
    requires d < 10
  {
    ('0' as int + d) as char
  }

  /** The value of a string of decimal digits. */
  function DigitsValue(s: string): nat
    requires AllDigits(s)
  {
    if s == [] then 0 else DigitsValue(s[..|s| - 1]) * 10 + (s[|s| - 1] as int - '0' as int)
  }

  function Pow10(k: nat): nat {
    if k == 0 then 1 else 10 * Pow10(k - 1)
  }

  lemma {:induction false} PowAtLeastTen(k: nat)
    requires k >= 1
    ensures Pow10(k) >= 10
  {
    if k > 1 { PowAtLeastTen(k - 1); }
  }

  /** A string of k digits is worth less than 10^k. */
  lemma {:induction false} DigitsValueBound(s: string)
    requires AllDigits(s)
    ensures DigitsValue(s) < Pow10(|s|)
    decreases |s|
  {
    if s != [] {
      DigitsValueBound(s[..|s| - 1]);
    }
  }

  /** A leading '0' does not change the value of a digit string. */
  lemma {:induction false} DigitsValueLeadingZero(s: string)
    requires AllDigits(s)
    ensures AllDigits(['0'] + s) && DigitsValue(['0'] + s) == DigitsValue(s)
    decreases |s|
  {
    if s != [] {
      var t := ['0'] + s;
      assert t[..|t| - 1] == ['0'] + s[..|s| - 1];
      DigitsValueLeadingZero(s[..|s| - 1]);
    }
  }

  lemma {:induction false} DigitsValueZeros(n: nat, s: string)
    requires AllDigits(s)
    ensures AllDigits(Repeat('0', n) + s) && DigitsValue(Repeat('0', n) + s) == DigitsValue(s)
  {
    if n > 0 {
      var t := Repeat('0', n - 1) + s;
      DigitsValueZeros(n - 1, s);
      DigitsValueLeadingZero(t);
      assert Repeat('0', n) == ['0'] + Repeat('0', n - 1);
      assert Repeat('0', n) + s == ['0'] + t;
    } else {
      assert Repeat('0', n) + s == s;
    }
  }

  /** str(n) for a natural number: its shortest decimal digits. */
  function DecimalString(n: nat): (s: string)
    ensures 1 <= |s| && AllDigits(s)
    ensures DigitsValue(s) == n
    ensures |s| > 1 ==> s[0] != '0'
  {
    if n < 10 then [DigitChar(n)]
    else
      var prefix := DecimalString(n / 10);
      var s := prefix + [DigitChar(n % 10)];
      assert s[..|s| - 1] == prefix;
      s
  }

  /** f"{n:0<width>}" for a natural number: zero-padded on the left to at least width digits. */
  function ZeroPad(n: nat, width: nat): (s: string)
    ensures AllDigits(s) && DigitsValue(s) == n
    ensures |s| >= width && |s| >= 1
    ensures |s| > width ==> s == DecimalString(n)
  {
    var d := DecimalString(n);
    var pad := if |d| < width then width - |d| else 0;
    DigitsValueZeros(pad, d);
    Repeat('0', pad) + d
  }

  /** The digits of int()'s argument: digits with single underscores between them. */
  predicate IsDigitGroups(s: string) {
    && |s| > 0
    && IsDigit(s[0]) && IsDigit(s[|s| - 1])
    && (forall i :: 0 <= i < |s| ==> IsDigit(s[i]) || s[i] == '_')
    && !Contains(s, "__")
  }

  /**
   * int(s) for a string: surrounding whitespace, an optional sign and
   * underscores between digits are accepted; anything else is a ValueError,
   * here None.
   */
  function ParseInt(s: string): Option<int>
  {
    var t := Strip(s);
    var signed := |t| > 0 && (t[0] == '-' || t[0] == '+');
    var body := if signed then t[1..] else t;
    if IsDigitGroups(body) then
      var digits := Remove(body, '_');
      assert AllDigits(digits) by {
        forall i | 0 <= i < |digits| ensures IsDigit(digits[i]) {
          assert digits[i] in body;
        }
      }
      var n: int := DigitsValue(digits);
      Some(if signed && t[0] == '-' then -n else n)
    else
      None
  }

  /** int() of a plain decimal digit string is its value. */
  lemma ParseIntDigits(s: string)
    requires AllDigits(s) && s != []
    ensures ParseInt(s) == Some(DigitsValue(s))
  {
    StripKeeps(s);
    NoUnderscoreNoPair(s);
    assert '_' !in s;
  }

  lemma {:induction false} NoUnderscoreNoPair(s: string)
    requires AllDigits(s)
    ensures !Contains(s, "__")
    decreases |s|
  {
    if |s| >= 2 {
      assert s[0] != '_';
      NoUnderscoreNoPair(s[1..]);
    }
  }
}
