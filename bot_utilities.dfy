/**
 * The text recognisers, date helpers and formatting of utils/bot_utilities.py.
 * Regular expressions are written out as hand-made predicates over strings;
 * where the shape is not a plain prefix test, an independent reading of the
 * pattern (a ghost predicate) is proved equivalent to the recogniser.
 */
module BotUtilities {
  import opened Wrappers
  import opened Text
  import opened Calendar
  import opened NytGame

  // ---------------------------------------------------------------- game type

  /** The lower-case word that names a game in channel names and commands. */
  function Keyword(g: NYTGame): string {
    match g
    case Connections => "connections"
    case Strands => "strands"
    case Wordle => "wordle"
    case Pips => "pips"
    case Unknown => ""
  }

  /** The order in which the keywords are tried: smaller is tried first. */
  function Priority(g: NYTGame): nat {
    match g
    case Connections => 0
    case Strands => 1
    case Wordle => 2
    case Pips => 3
    case Unknown => 4
  }

  /**
   * get_game_from_channel: the game whose keyword occurs in the lower-cased
   * channel name, keywords tried in priority order; Unknown when none occurs.
   */
  function GameFromChannel(channelName: string): (g: NYTGame)
    ensures g != Unknown ==> Contains(Lower(channelName), Keyword(g))
    ensures forall h :: h != Unknown && Priority(h) < Priority(g) ==> !Contains(Lower(channelName), Keyword(h))
  {
    var name := Lower(channelName);
    if Contains(name, "connections") then Connections
    else if Contains(name, "strands") then Strands
    else if Contains(name, "wordle") then Wordle
    else if Contains(name, "pips") then Pips
    else Unknown
  }

  /**
   * get_game_from_command: Unknown without arguments; otherwise the first
   * argument alone is classified, by the same rule as a channel name.
   */
  function GameFromCommand(args: seq<string>): (g: NYTGame)
    ensures |args| == 0 ==> g == Unknown
    ensures |args| > 0 ==> g == GameFromChannel(args[0])
  {
    if |args| == 0 then Unknown
    else
      var content := Lower(args[0]);
      if Contains(content, "connections") then Connections
      else if Contains(content, "strands") then Strands
      else if Contains(content, "wordle") then Wordle
      else if Contains(content, "pips") then Pips
      else Unknown
  }

  // ---------------------------------------------------------------- validation

  /** The length of the run of ASCII digits at the start of s. */
  function DigitRun(s: string): (k: nat)
    ensures k <= |s| && AllDigits(s[..k])
    ensures k < |s| ==> !IsDigit(s[k])
    decreases |s|
  {
    if |s| == 0 || !IsDigit(s[0]) then 0
    else
      var k := 1 + DigitRun(s[1..]);
      assert s[..k] == [s[0]] + s[1..][..k - 1];
      k
  }

  /** is_user: a mention `<@123>` or `<@!123>` at the start of word. */
  predicate IsUser(word: string) {
    StartsWith(word, "<@")
    && var rest := if StartsWith(word[2..], "!") then word[3..] else word[2..];
       var k := DigitRun(rest);
       k >= 1 && k < |rest| && rest[k] == '>'
  }

  /** The mention that the chat platform writes for a user id is recognised. */
  lemma MentionIsUser(userId: nat, tail: string)
    ensures IsUser("<@" + DecimalString(userId) + ">" + tail)
  {
    var digits := DecimalString(userId);
    DigitsMentionIsUser(false, digits, tail);
    assert "<@" + "" + digits + ">" + tail == "<@" + digits + ">" + tail;
  }

  /** The nickname form `<@!id>` is recognised too. */
  lemma NicknameMentionIsUser(userId: nat, tail: string)
    ensures IsUser("<@!" + DecimalString(userId) + ">" + tail)
  {
    var digits := DecimalString(userId);
    DigitsMentionIsUser(true, digits, tail);
    assert "<@" + "!" + digits + ">" + tail == "<@!" + digits + ">" + tail;
  }

  /** `<@`, an optional `!`, one or more digits and `>` are recognised, whatever follows. */
  lemma DigitsMentionIsUser(bang: bool, digits: string, tail: string)
    requires digits != [] && AllDigits(digits)
    ensures IsUser("<@" + (if bang then "!" else "") + digits + ">" + tail)
  {
    var mark := if bang then "!" else "";
    var w := "<@" + mark + digits + ">" + tail;
    var rest := digits + (">" + tail);
    assert w[2..] == mark + rest;
    assert StartsWith(w, "<@") by {
      assert w[..2] == "<@";
    }
    if bang {
      assert w[3..] == rest;
      assert w[2..][..1] == "!";
    } else {
      assert w[2..] == rest;
      assert !StartsWith(w[2..], "!") by {
        assert w[2] == digits[0];
      }
    }
    DigitRunOf(digits, ">" + tail);
    assert rest[|digits|] == '>';
  }

  /** Conversely, a recognised word is `<@`, an optional `!`, digits, `>` and the rest. */
  lemma UserMentionParts(word: string) returns (bang: bool, digits: string, tail: string)
    requires IsUser(word)
    ensures digits != [] && AllDigits(digits)
    ensures word == "<@" + (if bang then "!" else "") + digits + ">" + tail
  {
    bang := StartsWith(word[2..], "!");
    var start := if bang then 3 else 2;
    var rest := word[start..];
    var k := DigitRun(rest);
    digits := rest[..k];
    tail := rest[k + 1..];
    assert rest == digits + ">" + tail;
    assert word[..2] == "<@";
    if bang {
      assert word[2..3] == "!";
      assert word == word[..2] + word[2..3] + rest;
    } else {
      assert word == word[..2] + rest;
    }
  }

  /** A run of digits followed by a non-digit is read to its end. */
  lemma {:induction false} DigitRunOf(digits: string, tail: string)
    requires AllDigits(digits) && (tail == [] || !IsDigit(tail[0]))
    ensures DigitRun(digits + tail) == |digits|
    decreases |digits|
  {
    if digits == [] {
      assert digits + tail == tail;
    } else {
      assert (digits + tail)[0] == digits[0];
      assert (digits + tail)[1..] == digits[1..] + tail;
      DigitRunOf(digits[1..], tail);
    }
  }

  predicate IsDateField(s: string) { 1 <= |s| <= 2 && AllDigits(s) }

  predicate IsYearField(s: string) { (|s| == 2 || |s| == 4) && AllDigits(s) }

  /** The fields of a date string: month, day and year, the year "" when absent. */
  datatype DateText = DateText(month: string, day: string, year: string)

  /** Reads M/D, M/D/YY or M/D/YYYY with one- or two-digit month and day. */
  function ScanDate(s: string): Option<DateText> {
    var parts := Split(s, '/');
    if (|parts| == 2 || |parts| == 3)
      && IsDateField(parts[0]) && IsDateField(parts[1])
      && (|parts| == 3 ==> IsYearField(parts[2]))
    then Some(DateText(parts[0], parts[1], if |parts| == 3 then parts[2] else ""))
    else None
  }

  /** s without the single "\n" that Python's `$` lets stand at the end. */
  function FinalNewlineDropped(s: string): Option<string> {
    if |s| > 0 && s[|s| - 1] == '\n' then Some(s[..|s| - 1]) else None
  }

  /** is_date: the whole string is a date, with `$` also allowing one final "\n". */
  predicate IsDate(s: string) {
    ScanDate(s).Some? || (FinalNewlineDropped(s).Some? && ScanDate(FinalNewlineDropped(s).value).Some?)
  }

  /**
   * The pattern \d{1,2}/\d{1,2}(/\d{2}(?:\d{2})?)? read left to right:
   * i is where the first '/' stands, j where the day ends.
   */
  ghost predicate DatePatternAt(s: string, i: int, j: int) {
    && 1 <= i <= 2 && i + 2 <= j <= i + 3 && j <= |s|
    && AllDigits(s[..i]) && s[i] == '/' && AllDigits(s[i + 1..j])
    && (j == |s| || (s[j] == '/' && (|s| - j - 1 == 2 || |s| - j - 1 == 4) && AllDigits(s[j + 1..])))
  }

  ghost predicate DatePattern(s: string) {
    exists i, j :: DatePatternAt(s, i, j)
  }

  lemma DigitsHaveNo(s: string, c: char)
    requires AllDigits(s) && !IsDigit(c)
    ensures c !in s
  {
  }

  lemma ScanDateToPattern(s: string)
    requires ScanDate(s).Some?
    ensures DatePattern(s)
  {
    var parts := Split(s, '/');
    if |parts| == 2 {
      assert parts == [parts[0], parts[1]];
      JoinTwo("/", parts[0], parts[1]);
      TwoFieldsPattern(s, parts[0], parts[1]);
    } else {
      assert parts == [parts[0], parts[1], parts[2]];
      JoinThree("/", parts[0], parts[1], parts[2]);
      ThreeFieldsPattern(s, parts[0], parts[1], parts[2]);
    }
  }

  lemma JoinTwo(sep: string, a: string, b: string)
    ensures Join(sep, [a, b]) == a + sep + b
  {
    JoinCons(sep, a, [b]);
    assert [a] + [b] == [a, b];
  }

  lemma JoinThree(sep: string, a: string, b: string, c: string)
    ensures Join(sep, [a, b, c]) == a + sep + b + sep + c
  {
    JoinTwo(sep, b, c);
    JoinCons(sep, a, [b, c]);
    assert [a] + [b, c] == [a, b, c];
  }

  lemma TwoFieldsPattern(s: string, p0: string, p1: string)
    requires s == p0 + "/" + p1 && IsDateField(p0) && IsDateField(p1)
    ensures DatePatternAt(s, |p0|, |s|)
  {
    assert s[..|p0|] == p0 && s[|p0| + 1..] == p1;
  }

  lemma ThreeFieldsPattern(s: string, p0: string, p1: string, p2: string)
    requires s == p0 + "/" + p1 + "/" + p2
    requires IsDateField(p0) && IsDateField(p1) && IsYearField(p2)
    ensures DatePatternAt(s, |p0|, |p0| + 1 + |p1|)
  {
    var j := |p0| + 1 + |p1|;
    assert s[..|p0|] == p0 && s[|p0| + 1..j] == p1 && s[j + 1..] == p2;
  }

  lemma PatternToScanDate(s: string, i: int, j: int)
    requires DatePatternAt(s, i, j)
    ensures ScanDate(s).Some?
  {
    if j == |s| {
      PatternTwoFields(s, i);
    } else {
      PatternThreeFields(s, i, j);
    }
  }

  lemma PatternTwoFields(s: string, i: int)
    requires DatePatternAt(s, i, |s|)
    ensures ScanDate(s) == Some(DateText(s[..i], s[i + 1..], []))
  {
    var p0, p1 := s[..i], s[i + 1..];
    assert p1 == s[i + 1..|s|];
    assert s == p0 + "/" + p1;
    SplitTwoFields(s, p0, p1);
  }

  lemma PatternThreeFields(s: string, i: int, j: int)
    requires DatePatternAt(s, i, j) && j < |s|
    ensures ScanDate(s) == Some(DateText(s[..i], s[i + 1..j], s[j + 1..]))
  {
    var p0, p1, p2 := s[..i], s[i + 1..j], s[j + 1..];
    ThreeSlices(s, i, j);
    SplitThreeFields(s, p0, p1, p2);
  }

  lemma ThreeSlices(s: string, i: int, j: int)
    requires 0 <= i < j < |s| && s[i] == '/' && s[j] == '/'
    ensures s == s[..i] + "/" + s[i + 1..j] + "/" + s[j + 1..]
  {
    assert s == s[..i] + [s[i]] + s[i + 1..j] + [s[j]] + s[j + 1..];
  }

  lemma SplitTwoFields(s: string, p0: string, p1: string)
    requires s == p0 + "/" + p1 && AllDigits(p0) && AllDigits(p1)
    ensures Split(s, '/') == [p0, p1]
  {
    DigitsHaveNo(p0, '/');
    DigitsHaveNo(p1, '/');
    JoinTwo("/", p0, p1);
    SplitJoin([p0, p1], '/');
  }

  lemma SplitThreeFields(s: string, p0: string, p1: string, p2: string)
    requires s == p0 + "/" + p1 + "/" + p2 && AllDigits(p0) && AllDigits(p1) && AllDigits(p2)
    ensures Split(s, '/') == [p0, p1, p2]
  {
    DigitsHaveNo(p0, '/');
    DigitsHaveNo(p1, '/');
    DigitsHaveNo(p2, '/');
    JoinThree("/", p0, p1, p2);
    SplitJoin([p0, p1, p2], '/');
  }

  /** The field reader accepts exactly the strings the date pattern matches. */
  lemma ScanDateMatchesPattern(s: string)
    ensures ScanDate(s).Some? <==> DatePattern(s)
  {
    if ScanDate(s).Some? {
      ScanDateToPattern(s);
    }
    if DatePattern(s) {
      var i, j :| DatePatternAt(s, i, j);
      PatternToScanDate(s, i, j);
    }
  }

  /** is_date accepts exactly the date pattern, optionally followed by one "\n". */
  lemma IsDateMatchesPattern(s: string)
    ensures IsDate(s) <==>
      DatePattern(s) || (|s| > 0 && s[|s| - 1] == '\n' && DatePattern(s[..|s| - 1]))
  {
    ScanDateMatchesPattern(s);
    if |s| > 0 && s[|s| - 1] == '\n' {
      var t := s[..|s| - 1];
      assert FinalNewlineDropped(s) == Some(t);
      ScanDateMatchesPattern(t);
    } else {
      assert FinalNewlineDropped(s) == None;
    }
  }

  /** is_sunday: a date whose weekday is Sunday; None is not a Sunday. */
  predicate IsSunday(q: Option<Date>) {
    q.Some? && IsSundayDate(q.value)
  }

  // ---------------------------------------------------------------- submissions

  /** A Wordle puzzle number: plain digits, or 1-3 digits followed by groups of ",ddd". */
  predicate IsWordleNumber(s: string) {
    (|s| > 0 && AllDigits(s)) || IsCommaGrouped(s)
  }

  predicate IsCommaGrouped(s: string)
    decreases |s|
  {
    (1 <= |s| <= 3 && AllDigits(s))
    || (|s| >= 5 && s[|s| - 4] == ',' && AllDigits(s[|s| - 3..]) && IsCommaGrouped(s[..|s| - 4]))
  }

  /** The score at the end of a Wordle line: " G/T" with G a digit or X, and an optional "*". */
  predicate IsScore(t: string) {
    && |t| >= 4
    && t[0] == ' ' && (IsDigit(t[1]) || t[1] == 'X') && t[2] == '/' && IsDigit(t[3])
    && (|t| == 4 || (|t| == 5 && t[4] == '*'))
  }

  /** Where the score starts in the line after "Wordle ": four characters from the end, five with a "*". */
  function ScoreStart(t: string): int {
    |t| - (if |t| > 0 && t[|t| - 1] == '*' then 5 else 4)
  }

  /** The line after "Wordle ", read from its end: score, optional party emoji, number. */
  predicate IsWordleRest(t: string) {
    var k := ScoreStart(t);
    && 0 <= k && IsScore(t[k..])
    && (IsWordleNumber(t[..k])
        || (k >= 2 && t[k - 2..k] == " \U{1F389}" && IsWordleNumber(t[..k - 2])))
  }

  predicate IsWordleLine(s: string) {
    StartsWith(s, "Wordle ") && IsWordleRest(s[7..])
  }

  /** is_wordle_submission: the whole line has the Wordle share shape (`$` allows one final "\n"). */
  predicate IsWordleSubmission(line: string) {
    IsWordleLine(line)
    || (FinalNewlineDropped(line).Some? && IsWordleLine(FinalNewlineDropped(line).value))
  }

  /**
   * The Wordle pattern read left to right: "Wordle ", a number ending at n,
   * then " 🎉" or nothing, then the score.
   */
  ghost predicate WordlePatternAt(s: string, n: int) {
    && 7 <= n <= |s| && StartsWith(s, "Wordle ")
    && IsWordleNumber(s[7..n])
    && (IsScore(s[n..]) || (StartsWith(s[n..], " \U{1F389}") && IsScore(s[n + 2..])))
  }

  ghost predicate WordlePattern(s: string) {
    exists n :: WordlePatternAt(s, n)
  }

  /** Reading the line from its end accepts exactly the lines the pattern matches. */
  lemma WordleLineMatchesPattern(s: string)
    ensures IsWordleLine(s) <==> WordlePattern(s)
  {
    if IsWordleLine(s) {
      LineToPattern(s);
    }
    if WordlePattern(s) {
      var n :| WordlePatternAt(s, n);
      PatternToLine(s, n);
    }
  }

  function Party(present: bool): string {
    if present then " \U{1F389}" else ""
  }

  /** A line assembled from a number, the optional party emoji and a score matches at the number's end. */
  lemma PartsToPattern(s: string, number: string, party: bool, score: string)
    requires StartsWith(s, "Wordle ") && s[7..] == number + Party(party) + score
    requires IsWordleNumber(number) && IsScore(score)
    ensures WordlePatternAt(s, 7 + |number|)
  {
    var n := 7 + |number|;
    assert s[7..n] == number;
    assert s[n..] == Party(party) + score;
    if party {
      assert s[n + 2..] == score;
    }
  }

  /** The part after "Wordle " of such a line passes the end-first reading. */
  lemma RestOfParts(number: string, party: bool, score: string)
    requires IsWordleNumber(number) && IsScore(score)
    ensures IsWordleRest(number + Party(party) + score)
  {
    var head := number + Party(party);
    var t := head + score;
    assert t[|t| - 1] == score[|score| - 1];
    assert ScoreStart(t) == |head|;
    assert t[|head|..] == score && t[..|head|] == head;
    if party {
      assert t[|head| - 2..|head|] == " \U{1F389}";
      assert t[..|head| - 2] == number;
    } else {
      assert head == number;
    }
  }

  lemma LineToPattern(s: string)
    requires IsWordleLine(s)
    ensures WordlePattern(s)
  {
    var number, party, score := RestParts(s[7..]);
    PartsToPattern(s, number, party, score);
  }

  /** The end-first reading splits the rest of the line into number, emoji and score. */
  lemma RestParts(t: string) returns (number: string, party: bool, score: string)
    requires IsWordleRest(t)
    ensures t == number + Party(party) + score
    ensures IsWordleNumber(number) && IsScore(score)
  {
    var k := ScoreStart(t);
    score := t[k..];
    party := !IsWordleNumber(t[..k]);
    number := if party then t[..k - 2] else t[..k];
    assert t == t[..k] + score;
    if party {
      assert t[..k] == number + t[k - 2..k];
    }
  }

  lemma PatternToLine(s: string, n: int)
    requires WordlePatternAt(s, n)
    ensures IsWordleLine(s)
  {
    var number := s[7..n];
    var party := !IsScore(s[n..]);
    var score := if party then s[n + 2..] else s[n..];
    if party {
      assert s[n..n + 2] == Party(true);
    }
    assert s[7..] == number + Party(party) + score;
    RestOfParts(number, party, score);
  }

  /** is_connections_submission: "Connections", spaces, "\n", "Puzzle #" and a digit, at the start. */
  predicate IsConnectionsSubmission(lines: string) {
    StartsWith(lines, "Connections")
    && var rest := DropLeading(lines[11..], c => c == ' ');
       StartsWith(rest, "\nPuzzle #") && |rest| > 9 && IsDigit(rest[9])
  }

  /** is_strands_submission: "Strands #" and a digit at the start; the rest is not examined. */
  predicate IsStrandsSubmission(lines: string) {
    StartsWith(lines, "Strands #") && |lines| > 9 && IsDigit(lines[9])
  }

  /** is_pips_submission: "Pips #" and a digit at the start; the rest is not examined. */
  predicate IsPipsSubmission(lines: string) {
    StartsWith(lines, "Pips #") && |lines| > 6 && IsDigit(lines[6])
  }

  /** The Strands and Pips recognisers look only at a prefix: appending text never changes them. */
  lemma PrefixRecognisersIgnoreRest(s: string, more: string)
    ensures IsStrandsSubmission(s) ==> IsStrandsSubmission(s + more)
    ensures IsPipsSubmission(s) ==> IsPipsSubmission(s + more)
  {
    if IsStrandsSubmission(s) {
      assert (s + more)[..9] == s[..9];
    }
    if IsPipsSubmission(s) {
      assert (s + more)[..6] == s[..6];
    }
  }

  // ---------------------------------------------------------------- dates and times

  /**
   * get_week_start: the Sunday on or before the date (date - (weekday+1)%7 days).
   * None gives None; the first days of year 1 have no such Sunday and the
   * subtraction raises OverflowError.
   */
  function GetWeekStart(q: Option<Date>): (r: Try<Option<Date>>)
    ensures q.None? ==> r == Returns(None)
  {
    match q
    case None => Returns(None)
    case Some(d) =>
      var back := (Weekday(d) + 1) % 7;
      if back < Ordinal(d) then Returns(Some(SubtractDays(d, back))) else Raises(OverflowError)
  }

  /** A Sunday is its own week start. */
  lemma WeekStartOfSunday(d: Date)
    requires IsSundayDate(d)
    ensures GetWeekStart(Some(d)) == Returns(Some(d))
  {
  }

  /** Only the first six days of year 1 have no Sunday on or before them. */
  lemma WeekStartOverflow(d: Date)
    ensures GetWeekStart(Some(d)).Raises? <==> Ordinal(d) < 7
  {
    WeekStartRaises(d);
    BackIsOrdinalMod(d);
    OverflowArithmetic(Ordinal(d), (Weekday(d) + 1) % 7);
  }

  lemma WeekStartRaises(d: Date)
    ensures GetWeekStart(Some(d)).Raises? <==> (Weekday(d) + 1) % 7 >= Ordinal(d)
  {
  }

  lemma OverflowArithmetic(o: int, back: int)
    requires o >= 1 && back == o % 7
    ensures back < o <==> o >= 7
  {
  }

  /** Otherwise the week start is a Sunday at most six days before the date. */
  lemma WeekStartIsSunday(d: Date)
    requires Ordinal(d) >= 7
    ensures GetWeekStart(Some(d)).Returns? && GetWeekStart(Some(d)).value.Some?
    ensures IsSundayDate(GetWeekStart(Some(d)).value.value)
    ensures Ordinal(d) - 6 <= Ordinal(GetWeekStart(Some(d)).value.value) <= Ordinal(d)
  {
    var o := Ordinal(d);
    BackIsOrdinalMod(d);
    SundayArithmetic(o);
    var back := (Weekday(d) + 1) % 7;
    SundayByOrdinal(SubtractDays(d, back), o);
  }

  /** Stepping back (weekday + 1) % 7 days from ordinal o lands on a Sunday. */
  lemma SundayArithmetic(o: int)
    requires o >= 1
    ensures ((o + 6) % 7 + 1) % 7 == o % 7
    ensures (o - o % 7 + 6) % 7 == 6
    ensures o % 7 < o <==> o >= 7
  {
  }

  lemma BackIsOrdinalMod(d: Date)
    ensures (Weekday(d) + 1) % 7 == Ordinal(d) % 7
  {
    SundayArithmetic(Ordinal(d));
  }

  lemma SundayByOrdinal(s: Date, o: int)
    requires Ordinal(s) == o - o % 7
    ensures IsSundayDate(s)
  {
    assert (Ordinal(s) + 6) % 7 == 6 by { SundayArithmetic(o); }
  }

  /** datetime(year, month, day) from the month and day fields strptime read. */
  function Strptime(month: string, day: string, year: int): (r: Try<Date>)
    requires AllDigits(month) && AllDigits(day)
    ensures r.Returns? <==> IsValid(Ymd(year, DigitsValue(month), DigitsValue(day)))
    ensures r.Returns? ==> r.value == Ymd(year, DigitsValue(month), DigitsValue(day))
  {
    var d := Ymd(year, DigitsValue(month), DigitsValue(day));
    if IsValid(d) then Returns(d) else Raises(ValueError)
  }

  /** %y: 69-99 are 1969-1999, 00-68 are 2000-2068. */
  function CenturyOf(yy: nat): (y: int)
    requires yy < 100
    ensures 1969 <= y <= 2068 && y % 100 == yy
  {
    if yy <= 68 then 2000 + yy else 1900 + yy
  }

  /** The year a YY (%y) or YYYY (%Y) field stands for. */
  function YearOfField(y: string): (year: int)
    requires IsYearField(y)
    ensures |y| == 4 ==> year == DigitsValue(y)
    ensures |y| == 2 ==> 1969 <= year <= 2068 && year % 100 == DigitsValue(y)
  {
    if |y| == 2 then
      DigitsValueBound(y);
      CenturyOf(DigitsValue(y))
    else DigitsValue(y)
  }

  /**
   * get_date_from_str as written: None for a non-date; M/D is parsed by
   * strptime into year 1900 (so 2/29 is refused) and then moved to the
   * current year; M/D/YY and M/D/YYYY go through strptime; a date that does
   * not exist raises ValueError, and so does the final "\n" that is_date lets
   * through.
   */
  function GetDateFromStr(s: string, todayYear: int): (r: Try<Option<Date>>)
    requires MinYear <= todayYear <= MaxYear
    ensures r == Returns(None) <==> !IsDate(s)
    ensures r.Returns? && r.value.Some? ==>
      && ScanDate(s).Some?
      && r.value.value.month == DigitsValue(ScanDate(s).value.month)
      && r.value.value.day == DigitsValue(ScanDate(s).value.day)
      && (ScanDate(s).value.year == [] ==> r.value.value.year == todayYear)
    ensures IsDate(s) && ScanDate(s).None? ==> r == Raises(ValueError)
    ensures ScanDate(s).Some? && ScanDate(s).value.year == [] ==>
      (r.Returns? <==> IsValid(Ymd(1900, DigitsValue(ScanDate(s).value.month), DigitsValue(ScanDate(s).value.day))))
    ensures ScanDate(s).Some? && ScanDate(s).value.year != [] ==>
      var t := ScanDate(s).value;
      var date := Ymd(YearOfField(t.year), DigitsValue(t.month), DigitsValue(t.day));
      r == if IsValid(date) then Returns(Some(date)) else Raises(ValueError)
  {
    if !IsDate(s) then Returns(None)
    else
      match ScanDate(s)
      case None => Raises(ValueError)
      case Some(t) =>
        if t.year == [] then
          match Strptime(t.month, t.day, 1900)
          case Raises(e) => Raises(e)
          case Returns(d) =>
            var moved := Ymd(todayYear, d.month, d.day);
            if IsValid(moved) then Returns(Some(moved)) else Raises(ValueError)
        else
          match Strptime(t.month, t.day, YearOfField(t.year))
          case Raises(e) => Raises(e)
          case Returns(d) => Returns(Some(d))
  }

  /**
   * get_date_from_str as evidently intended: M/D is checked against the
   * current year, so 2/29 is read in leap years.
   */
  function GetDateFromStrIntended(s: string, todayYear: int): (r: Try<Option<Date>>)
    requires MinYear <= todayYear <= MaxYear
    ensures r == Returns(None) <==> !IsDate(s)
    ensures forall m, d :: ScanDate(s) == Some(DateText(m, d, [])) ==>
      (r.Returns? <==> IsValid(Ymd(todayYear, DigitsValue(m), DigitsValue(d))))
  {
    if !IsDate(s) then Returns(None)
    else
      match ScanDate(s)
      case None => Raises(ValueError)
      case Some(t) =>
        if t.year == [] then
          match Strptime(t.month, t.day, todayYear)
          case Raises(e) => Raises(e)
          case Returns(d) => Returns(Some(d))
        else GetDateFromStr(s, todayYear)
  }

  /** The two agree on every string that carries a year. */
  lemma IntendedAgreesWithYear(s: string, todayYear: int)
    requires MinYear <= todayYear <= MaxYear
    requires ScanDate(s).Some? && ScanDate(s).value.year != []
    ensures GetDateFromStrIntended(s, todayYear) == GetDateFromStr(s, todayYear)
  {
  }

  lemma LeapDayScans()
    ensures ScanDate("2/29") == Some(DateText("2", "29", []))
    ensures DigitsValue("2") == 2 && DigitsValue("29") == 29
  {
    LeapDaySplit();
    LeapDayDigits();
  }

  lemma LeapDaySplit()
    ensures Split("2/29", '/') == ["2", "29"]
  {
    assert "2/29" == "2" + "/" + "29";
    SplitTwoFields("2/29", "2", "29");
  }

  lemma LeapDayDigits()
    ensures AllDigits("2") && AllDigits("29")
    ensures DigitsValue("2") == 2 && DigitsValue("29") == 29
  {
    assert "29"[..1] == "2";
  }

  /** As written, "2/29" raises ValueError even when the current year is a leap year. */
  lemma LeapDayRefused(year: int)
    requires MinYear <= year <= MaxYear && IsLeapYear(year)
    ensures GetDateFromStr("2/29", year) == Raises(ValueError)
  {
    LeapDayScans();
    NoLeapDayIn1900();
    MonthDayRefusedIn1900("2/29", year, "2", "29");
  }

  lemma NoLeapDayIn1900()
    ensures !IsValid(Ymd(1900, 2, 29))
  {
    assert !IsLeapYear(1900);
  }

  /** As written, a month and day with no year that does not exist in 1900 raises ValueError. */
  lemma MonthDayRefusedIn1900(s: string, todayYear: int, m: string, d: string)
    requires MinYear <= todayYear <= MaxYear
    requires ScanDate(s) == Some(DateText(m, d, []))
    requires !IsValid(Ymd(1900, DigitsValue(m), DigitsValue(d)))
    ensures GetDateFromStr(s, todayYear) == Raises(ValueError)
  {
    assert IsDate(s);
  }

  /** Checked against the current year, "2/29" is read in a leap year. */
  lemma LeapDayIntended(year: int)
    requires MinYear <= year <= MaxYear && IsLeapYear(year)
    ensures GetDateFromStrIntended("2/29", year) == Returns(Some(Ymd(year, 2, 29)))
  {
    LeapDayScans();
    MonthDayReadInYear("2/29", year, "2", "29");
  }

  /** As intended, a month and day with no year that exist in the current year are read in it. */
  lemma MonthDayReadInYear(s: string, todayYear: int, m: string, d: string)
    requires MinYear <= todayYear <= MaxYear
    requires ScanDate(s) == Some(DateText(m, d, []))
    requires IsValid(Ymd(todayYear, DigitsValue(m), DigitsValue(d)))
    ensures GetDateFromStrIntended(s, todayYear) == Returns(Some(Ymd(todayYear, DigitsValue(m), DigitsValue(d))))
  {
    assert IsDate(s);
  }

  /** r is "M:SS": some digits, ":", two digits below 60, worth total seconds. */
  predicate IsMmSs(r: string, total: int) {
    && |r| >= 5 && r[|r| - 3] == ':'
    && AllDigits(r[..|r| - 3]) && AllDigits(r[|r| - 2..])
    && DigitsValue(r[|r| - 2..]) < 60
    && 60 * DigitsValue(r[..|r| - 3]) + DigitsValue(r[|r| - 2..]) == total
  }

  /** seconds_to_mm_ss: f"{minutes:02}:{seconds:02}" of divmod(floor(t), 60). */
  function SecondsToMmSs(t: real): (r: string)
    ensures t >= 0.0 ==> IsMmSs(r, t.Floor)
    ensures t.Floor < 0 ==> |r| > 0 && r[0] == '-'
  {
    var total := t.Floor;
    MinutesAndSeconds(total / 60, total % 60)
  }

  /** The two fields, each written with at least two characters, joined by ":". */
  function MinutesAndSeconds(minutes: int, seconds: int): (r: string)
    requires 0 <= seconds < 60
    ensures minutes >= 0 ==> IsMmSs(r, 60 * minutes + seconds)
    ensures minutes < 0 ==> |r| > 0 && r[0] == '-'
  {
    var mm := if minutes >= 0 then ZeroPad(minutes, 2) else "-" + DecimalString(-minutes);
    var ss := ZeroPad(seconds, 2);
    DecimalStringLength(seconds, 2);
    if minutes >= 0 then
      FieldsFormatted(mm, ss, minutes, seconds);
      mm + ":" + ss
    else
      mm + ":" + ss
  }

  lemma FieldsFormatted(mm: string, ss: string, minutes: int, seconds: int)
    requires AllDigits(mm) && |mm| >= 2 && DigitsValue(mm) == minutes
    requires AllDigits(ss) && |ss| == 2 && DigitsValue(ss) == seconds && seconds < 60
    ensures IsMmSs(mm + ":" + ss, 60 * minutes + seconds)
  {
    var r := mm + ":" + ss;
    assert r[..|r| - 3] == mm && r[|r| - 2..] == ss;
  }

  /** A number below 10^k has at most k digits; from 10^(k-1) on it has exactly k. */
  lemma {:induction false} DecimalStringLength(n: nat, k: nat)
    requires k >= 1 && n < Pow10(k)
    ensures |DecimalString(n)| <= k
    ensures n >= Pow10(k - 1) ==> |DecimalString(n)| == k
  {
    if n >= 10 {
      assert k >= 2;
      DecimalStringLength(n / 10, k - 1);
    } else if k > 1 {
      PowAtLeastTen(k - 1);
    }
  }


  /** convert_date_to_str: strftime("%m/%d/%Y"); %Y is not zero-padded below year 1000. */
  function ConvertDateToStr(d: Date): string {
    ZeroPad(d.month, 2) + "/" + ZeroPad(d.day, 2) + "/" + DecimalString(d.year)
  }

  /** The fields convert_date_to_str writes are read back by the date scanner. */
  lemma ConvertedDateScans(d: Date)
    requires 1000 <= d.year
    ensures ScanDate(ConvertDateToStr(d))
         == Some(DateText(ZeroPad(d.month, 2), ZeroPad(d.day, 2), DecimalString(d.year)))
    ensures |DecimalString(d.year)| == 4
  {
    var mm, dd, yyyy := ZeroPad(d.month, 2), ZeroPad(d.day, 2), DecimalString(d.year);
    ConvertedFields(d);
    JoinThree("/", mm, dd, yyyy);
    SplitJoin([mm, dd, yyyy], '/');
  }

  lemma ConvertedFields(d: Date)
    requires 1000 <= d.year
    ensures IsDateField(ZeroPad(d.month, 2)) && IsDateField(ZeroPad(d.day, 2))
    ensures IsYearField(DecimalString(d.year)) && |DecimalString(d.year)| == 4
    ensures '/' !in ZeroPad(d.month, 2) && '/' !in ZeroPad(d.day, 2) && '/' !in DecimalString(d.year)
  {
    DecimalStringLength(d.month, 2);
    DecimalStringLength(d.day, 2);
    DecimalStringLength(d.year, 4);
    DigitsHaveNo(ZeroPad(d.month, 2), '/');
    DigitsHaveNo(ZeroPad(d.day, 2), '/');
    DigitsHaveNo(DecimalString(d.year), '/');
  }

  /** A four-digit-year date written by convert_date_to_str reads back as the same date. */
  lemma DateStringRoundTrip(d: Date, todayYear: int)
    requires 1000 <= d.year
    requires MinYear <= todayYear <= MaxYear
    ensures GetDateFromStr(ConvertDateToStr(d), todayYear) == Returns(Some(d))
  {
    ConvertedDateScans(d);
    var s := ConvertDateToStr(d);
    assert IsDate(s);
    var t := ScanDate(s).value;
    assert |t.year| == 4 && t.year != [];
    assert Strptime(t.month, t.day, DigitsValue(t.year)) == Returns(d);
  }

  // ---------------------------------------------------------------- emojis

  /** The character class of remove_emojis, range by range as written. */
  predicate IsEmoji(c: char) {
    || ('\U{1F600}' <= c <= '\U{1F64F}')
    || ('\U{1F300}' <= c <= '\U{1F5FF}')
    || ('\U{1F680}' <= c <= '\U{1F6FF}')
    || ('\U{1F1E0}' <= c <= '\U{1F1FF}')
    || ('\U{2500}' <= c <= '\U{2BEF}')
    || ('\U{2702}' <= c <= '\U{27B0}')
    || ('\U{24C2}' <= c <= '\U{1F251}')
    || ('\U{1F926}' <= c <= '\U{1F937}')
    || ('\U{10000}' <= c <= '\U{10FFFF}')
    || ('\U{2640}' <= c <= '\U{2642}')
    || ('\U{2600}' <= c <= '\U{2B55}')
    || c == '\U{200D}' || c == '\U{23CF}' || c == '\U{23E9}' || c == '\U{231A}'
    || c == '\U{FE0F}' || c == '\U{3030}'
  }

  /** The class is four single characters and one range from U+24C2 to the end of Unicode. */
  lemma EmojiClassSimplified(c: char)
    ensures IsEmoji(c) <==>
      c == '\U{200D}' || c == '\U{231A}' || c == '\U{23CF}' || c == '\U{23E9}' || '\U{24C2}' <= c
  {
  }

  predicate IsSubsequence(a: string, b: string)
    decreases |b|
  {
    a == [] || (|b| > 0 && ((a[0] == b[0] && IsSubsequence(a[1..], b[1..])) || IsSubsequence(a, b[1..])))
  }

  /** remove_emojis: every character of the class is deleted, everything else kept in order. */
  function RemoveEmojis(s: string): (r: string)
    ensures forall i :: 0 <= i < |r| ==> !IsEmoji(r[i])
    ensures IsSubsequence(r, s)
    ensures forall i :: 0 <= i < |s| && !IsEmoji(s[i]) ==> s[i] in r
    ensures forall c :: !IsEmoji(c) ==> multiset(r)[c] == multiset(s)[c]
  {
    if s == [] then []
    else
      var rest := RemoveEmojis(s[1..]);
      HeadAndTail(s);
      if IsEmoji(s[0]) then
        rest
      else
        var r := [s[0]] + rest;
        assert r[1..] == rest;
        assert multiset(r) == multiset{s[0]} + multiset(rest);
        r
  }

  /** A non-empty string is its first character followed by the rest. */
  lemma HeadAndTail(s: string)
    requires s != []
    ensures multiset(s) == multiset{s[0]} + multiset(s[1..])
    ensures forall i :: 1 <= i < |s| ==> s[i] == s[1..][i - 1]
  {
    assert s == [s[0]] + s[1..];
  }

  /** Text without emojis passes through unchanged. */
  lemma {:induction false} RemoveEmojisKeepsPlainText(s: string)
    requires forall i :: 0 <= i < |s| ==> !IsEmoji(s[i])
    ensures RemoveEmojis(s) == s
  {
    if s != [] {
      RemoveEmojisKeepsPlainText(s[1..]);
    }
  }

  /** Removing emojis twice is the same as removing them once. */
  lemma RemoveEmojisIdempotent(s: string)
    ensures RemoveEmojis(RemoveEmojis(s)) == RemoveEmojis(s)
  {
    RemoveEmojisKeepsPlainText(RemoveEmojis(s));
  }
}
