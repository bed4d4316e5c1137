/**
 * data/pips.py: the Pips database handler. A submission's title names the
 * level and the puzzle number; its body holds the time as MM:SS and maybe a
 * cookie. add_entry records one level of one puzzle for one user, and
 * get_entries_by_player reads a user's rows back as PipsPuzzleEntry values.
 */
module PipsData {
  import opened Wrappers
  import opened Text
  import opened Calendar
  import opened BotUtilities
  import opened BaseDataHandler
  import opened PipsModels

  /** Pips puzzle 109 was published on 2025-12-04. */
  const PipsAnchor: Anchor := Anchor(Ymd(2025, 12, 4), 109)

  /** The cookie a Pips result carries when the level was solved without hints. */
  const Cookie: char := '\U{1F36A}'

  // ---------------------------------------------------------------- the level

  /** PipsLevel: one of the three difficulties, or UNKNOWN. */
  datatype PipsLevel = Level(difficulty: Difficulty) | UnknownLevel

  /** The level's value, which is also the prefix of its two columns. */
  function LevelName(d: Difficulty): string {
    match d
    case Easy => "easy"
    case Medium => "medium"
    case Hard => "hard"
  }

  /** The order in which the level names are looked for: smaller is tried first. */
  function LevelRank(l: PipsLevel): nat {
    match l
    case Level(Easy) => 0
    case Level(Medium) => 1
    case Level(Hard) => 2
    case UnknownLevel => 3
  }

  /**
   * __get_level_from_title: the first of easy, medium, hard whose name occurs
   * in the lower-cased title; UNKNOWN when none does.
   */
  function LevelFromTitle(title: string): (l: PipsLevel)
    ensures l.Level? ==> Contains(Lower(title), LevelName(l.difficulty))
    ensures forall d :: LevelRank(Level(d)) < LevelRank(l) ==> !Contains(Lower(title), LevelName(d))
  {
    var t := Lower(title);
    if Contains(t, "easy") then Level(Easy)
    else if Contains(t, "medium") then Level(Medium)
    else if Contains(t, "hard") then Level(Hard)
    else UnknownLevel
  }

  // ---------------------------------------------------------------- the puzzle number

  /** A character of the pattern [\d,]. */
  predicate IsRunChar(c: char) {
    IsDigit(c) || c == ','
  }

  /** Where the first digit or comma of s is; |s| when there is none. */
  function RunStart(s: string): (k: nat)
    ensures k <= |s|
    ensures forall i :: 0 <= i < k ==> !IsRunChar(s[i])
    ensures k < |s| ==> IsRunChar(s[k])
    decreases |s|
  {
    if s == [] then 0
    else if IsRunChar(s[0]) then 0
    else 1 + RunStart(s[1..])
  }

  /** How many digits and commas s starts with. */
  function RunLength(s: string): (k: nat)
    ensures k <= |s|
    ensures forall i :: 0 <= i < k ==> IsRunChar(s[i])
    ensures k < |s| ==> !IsRunChar(s[k])
    decreases |s|
  {
    if s == [] || !IsRunChar(s[0]) then 0
    else 1 + RunLength(s[1..])
  }

  /**
   * re.findall(r"[\d,]+", title)[0]: the first maximal run of digits and
   * commas, None when the title holds neither.
   */
  function FirstRun(title: string): (r: Option<string>)
    ensures r.None? <==> forall i :: 0 <= i < |title| ==> !IsRunChar(title[i])
    ensures r.Some? ==>
      var k := RunStart(title);
      && k + |r.value| <= |title| && |r.value| >= 1
      && r.value == title[k..k + |r.value|]
      && (forall i :: 0 <= i < |r.value| ==> IsRunChar(r.value[i]))
      && (k + |r.value| == |title| || !IsRunChar(title[k + |r.value|]))
  {
    var k := RunStart(title);
    if k == |title| then None
    else
      var rest := title[k..];
      var n := RunLength(rest);
      assert n >= 1 by {
        assert rest[0] == title[k];
      }
      assert title[k..k + n] == rest[..n];
      assert n < |rest| ==> title[k + n] == rest[n];
      Some(title[k..k + n])
  }

  /** int(run.replace(",", "")): int() refuses what is left when it is not a number. */
  function ParsePuzzleId(run: string): Try<int> {
    IntOrValueError(ParseInt(Remove(run, ',')))
  }

  /** int()'s outcome: its value, or the ValueError it raises. */
  function IntOrValueError(n: Option<int>): Try<int> {
    match n
    case Some(v) => Returns(v)
    case None => Raises(ValueError)
  }

  /** The puzzle number a title names: None without a run, the outcome of int() otherwise. */
  function TitlePuzzle(title: string): Option<Try<int>> {
    match FirstRun(title)
    case None => None
    case Some(run) => Some(ParsePuzzleId(run))
  }

  /** A run of digits and commas fails to parse exactly when it has no digit; otherwise it is its digits' value. */
  lemma PuzzleIdOfRun(run: string)
    requires forall i :: 0 <= i < |run| ==> IsRunChar(run[i])
    ensures ParsePuzzleId(run).Raises? <==> forall i :: 0 <= i < |run| ==> run[i] == ','
    ensures ParsePuzzleId(run).Raises? ==> ParsePuzzleId(run).error == ValueError
    ensures ParsePuzzleId(run).Returns? ==>
      AllDigits(Remove(run, ',')) && ParsePuzzleId(run).value == DigitsValue(Remove(run, ','))
  {
    var digits := Remove(run, ',');
    assert AllDigits(digits) by {
      forall i | 0 <= i < |digits| ensures IsDigit(digits[i]) {
        assert digits[i] in run;
      }
    }
    if digits != [] {
      ParseIntDigits(digits);
      var c := digits[0];
      assert c in run;
    } else {
      StripKeeps(digits);
      forall i | 0 <= i < |run| ensures run[i] == ',' {
        assert run[i] in run;
      }
    }
  }

  /** Thousands separators do not change the number. */
  lemma CommasIgnored(a: string, b: string)
    ensures ParsePuzzleId(a + "," + b) == ParsePuzzleId(a + b)
  {
    CommaRemoved(a, b);
  }

  lemma CommaRemoved(a: string, b: string)
    ensures Remove(a + "," + b, ',') == Remove(a + b, ',')
  {
    RemoveConcat(a + ",", b, ',');
    RemoveConcat(a, ",", ',');
    RemoveConcat(a, b, ',');
    assert Remove(",", ',') == [];
  }

  /**
   * A title whose first digits are a puzzle number printed in decimal, with
   * no digit or comma before it and none right after, names that puzzle.
   */
  lemma TitleNamesPuzzle(prefix: string, n: nat, suffix: string)
    requires forall i :: 0 <= i < |prefix| ==> !IsRunChar(prefix[i])
    requires suffix == [] || !IsRunChar(suffix[0])
    ensures TitlePuzzle(prefix + DecimalString(n) + suffix) == Some(Returns(n))
  {
    var d := DecimalString(n);
    FirstRunOf(prefix, d, suffix);
    PuzzleIdOfDigits(d, n);
  }

  lemma FirstRunOf(prefix: string, d: string, suffix: string)
    requires forall i :: 0 <= i < |prefix| ==> !IsRunChar(prefix[i])
    requires AllDigits(d) && d != []
    requires suffix == [] || !IsRunChar(suffix[0])
    ensures FirstRun(prefix + d + suffix) == Some(d)
  {
    var title := prefix + d + suffix;
    RunStartAfter(prefix, d + suffix);
    assert title == prefix + (d + suffix);
    assert title[|prefix|..] == d + suffix;
    RunLengthOf(d, suffix);
    assert title[|prefix|..|prefix| + |d|] == d;
  }

  lemma PuzzleIdOfDigits(d: string, n: int)
    requires AllDigits(d) && d != [] && DigitsValue(d) == n
    ensures ParsePuzzleId(d) == Returns(n)
  {
    DigitsHaveNo(d, ',');
    assert Remove(d, ',') == d;
    ParseIntDigits(d);
  }

  lemma {:induction false} RunStartAfter(prefix: string, rest: string)
    requires forall i :: 0 <= i < |prefix| ==> !IsRunChar(prefix[i])
    requires rest != [] && IsRunChar(rest[0])
    ensures RunStart(prefix + rest) == |prefix|
    decreases |prefix|
  {
    if prefix != [] {
      assert (prefix + rest)[1..] == prefix[1..] + rest;
      RunStartAfter(prefix[1..], rest);
    }
  }

  lemma RunLengthOf(d: string, suffix: string)
    requires AllDigits(d)
    requires suffix == [] || !IsRunChar(suffix[0])
    ensures RunLength(d + suffix) == |d|
  {
    var s := d + suffix;
    assert forall i :: 0 <= i < |d| ==> s[i] == d[i];
    assert |d| < |s| ==> s[|d|] == suffix[0];
  }

  // ---------------------------------------------------------------- the time

  /**
   * __mm_ss_to_seconds: exactly two ':'-separated fields, each accepted by
   * int(), give minutes * 60 + seconds; anything else is None.
   */
  function MmSsToSeconds(s: string): Option<int> {
    var parts := Split(s, ':');
    if |parts| != 2 then None
    else FieldsToSeconds(ParseInt(parts[0]), ParseInt(parts[1]))
  }

  /** minutes * 60 + seconds once both fields were read. */
  function FieldsToSeconds(minutes: Option<int>, seconds: Option<int>): Option<int> {
    if minutes.Some? && seconds.Some? then Some(minutes.value * 60 + seconds.value) else None
  }

  lemma FieldsRead(minutes: Option<int>, seconds: Option<int>, m: int, s: int)
    requires minutes == Some(m) && seconds == Some(s)
    ensures FieldsToSeconds(minutes, seconds) == Some(60 * m + s)
  {
  }

  /** A time that splits into two fields int() reads as m and s is worth 60 * m + s seconds. */
  lemma MmSsOfFields(t: string, mm: string, ss: string, m: int, s: int)
    requires Split(t, ':') == [mm, ss]
    requires ParseInt(mm) == Some(m) && ParseInt(ss) == Some(s)
    ensures MmSsToSeconds(t) == Some(60 * m + s)
  {
    var parts := Split(t, ':');
    assert parts[0] == mm && parts[1] == ss;
    FieldsRead(ParseInt(mm), ParseInt(ss), m, s);
  }

  lemma SplitAtColon(mm: string, ss: string)
    requires AllDigits(mm) && AllDigits(ss)
    ensures Split(mm + ":" + ss, ':') == [mm, ss]
  {
    DigitsHaveNo(mm, ':');
    DigitsHaveNo(ss, ':');
    JoinTwo(":", mm, ss);
    SplitJoin([mm, ss], ':');
  }

  lemma ReadBoth(mm: string, ss: string) returns (m: int, s: int)
    requires AllDigits(mm) && mm != [] && AllDigits(ss) && ss != []
    ensures m == DigitsValue(mm) && s == DigitsValue(ss)
    ensures ParseInt(mm) == Some(m) && ParseInt(ss) == Some(s)
  {
    ParseIntDigits(mm);
    ParseIntDigits(ss);
    m, s := DigitsValue(mm), DigitsValue(ss);
  }

  /** Two digit fields around one colon read as minutes and seconds. */
  lemma MmSsOfDigits(mm: string, ss: string) returns (m: int, s: int)
    requires AllDigits(mm) && mm != [] && AllDigits(ss) && ss != []
    ensures m == DigitsValue(mm) && s == DigitsValue(ss)
    ensures MmSsToSeconds(mm + ":" + ss) == Some(60 * m + s)
  {
    SplitAtColon(mm, ss);
    m, s := ReadBoth(mm, ss);
    MmSsOfFields(mm + ":" + ss, mm, ss, m, s);
  }

  /** The bot's own MM:SS rendering of a non-negative number of seconds reads back as that number. */
  lemma MmSsRoundTrip(n: nat)
    ensures MmSsToSeconds(SecondsToMmSs(n as real)).Some?
    ensures MmSsToSeconds(SecondsToMmSs(n as real)).value == n
  {
    var t := n as real;
    assert t >= 0.0 && t.Floor == n;
    var r := SecondsToMmSs(t);
    assert 60 * DigitsValue(r[..|r| - 3]) + DigitsValue(r[|r| - 2..]) == n;
    MmSsReadsBack(r, n);
  }

  lemma MmSsReadsBack(r: string, n: nat)
    requires |r| >= 5 && r[|r| - 3] == ':'
    requires AllDigits(r[..|r| - 3]) && AllDigits(r[|r| - 2..])
    requires 60 * DigitsValue(r[..|r| - 3]) + DigitsValue(r[|r| - 2..]) == n
    ensures MmSsToSeconds(r).Some? && MmSsToSeconds(r).value == n
  {
    var mm, ss := r[..|r| - 3], r[|r| - 2..];
    assert r == mm + ":" + ss;
    var m, s := MmSsOfDigits(mm, ss);
  }

  /** A time with no colon is refused. */
  lemma MmSsNeedsColon(s: string)
    requires ':' !in s
    ensures MmSsToSeconds(s) == None
  {
    assert IndexOf(s, ':') == |s|;
  }

  // ---------------------------------------------------------------- the tables

  /** A row of the entries table, without its key: a level never recorded is NULL, here None. */
  datatype PipsRow = PipsRow(
    easySeconds: Option<int>,
    mediumSeconds: Option<int>,
    hardSeconds: Option<int>,
    easyCookie: Option<bool>,
    mediumCookie: Option<bool>,
    hardCookie: Option<bool>)
  {
    function Seconds(d: Difficulty): Option<int> {
      match d
      case Easy => easySeconds
      case Medium => mediumSeconds
      case Hard => hardSeconds
    }

    function Cookie(d: Difficulty): Option<bool> {
      match d
      case Easy => easyCookie
      case Medium => mediumCookie
      case Hard => hardCookie
    }

    /** The row with one level's two columns set and the other columns kept. */
    function With(d: Difficulty, seconds: int, cookie: bool): (r: PipsRow)
      ensures r.Seconds(d) == Some(seconds) && r.Cookie(d) == Some(cookie)
      ensures forall e :: e != d ==> r.Seconds(e) == Seconds(e) && r.Cookie(e) == Cookie(e)
    {
      match d
      case Easy => this.(easySeconds := Some(seconds), easyCookie := Some(cookie))
      case Medium => this.(mediumSeconds := Some(seconds), mediumCookie := Some(cookie))
      case Hard => this.(hardSeconds := Some(seconds), hardCookie := Some(cookie))
    }
  }

  /** A row no level has been recorded in. */
  const EmptyRow: PipsRow := PipsRow(None, None, None, None, None, None)

  /** The users and entries tables as values. */
  datatype Tables = Tables(users: map<int, string>, entries: map<(int, int), PipsRow>)

  /** The time a submission body carries: the body without its cookie, stripped, read as MM:SS. */
  function BodySeconds(body: string): Option<int> {
    MmSsToSeconds(Strip(Remove(body, Cookie)))
  }

  /**
   * What add_entry reads from a submission before it decides anything: the
   * level the title names, the puzzle number (None when the title has no
   * digits or commas), the time (None when it does not parse) and whether
   * the body carries a cookie.
   */
  datatype Submission = Submission(level: PipsLevel, puzzle: Option<Try<int>>, seconds: Option<int>, cookie: bool)

  function ReadSubmission(title: string, body: string): (s: Submission)
    ensures s.cookie <==> Cookie in body
  {
    Submission(LevelFromTitle(title), TitlePuzzle(title), BodySeconds(body), Cookie in body)
  }

  /** The time is read with the cookies taken out: removing them from the body changes only the cookie flag. */
  lemma CookieLeavesTimeAlone(title: string, body: string)
    ensures ReadSubmission(title, Remove(body, Cookie)).seconds == ReadSubmission(title, body).seconds
    ensures !ReadSubmission(title, Remove(body, Cookie)).cookie
  {
  }

  /** A submission whose level, number and time are all usable. */
  predicate Complete(s: Submission) {
    s.level.Level? && s.puzzle.Some? && s.puzzle.value.Returns? && s.seconds.Some?
  }

  /**
   * add_entry as a function of the tables: the outcome and the new tables.
   * An unknown level or a title without digits is refused (False) with
   * nothing written. A run of commas alone makes int() raise. Otherwise the
   * user is registered under the nickname if new; a time that does not parse
   * reaches the database as the word None, which the database refuses; a
   * parsed time is written into the level's two columns of the (puzzle,
   * user) row, which is created when missing.
   */
  function AddEntrySpec(t: Tables, user: int, nickname: string, s: Submission): (Try<bool>, Tables) {
    if s.level.UnknownLevel? then (Returns(false), t)
    else match s.puzzle
      case None => (Returns(false), t)
      case Some(Raises(e)) => (Raises(e), t)
      case Some(Returns(puzzle)) =>
        var users := if user in t.users then t.users else t.users[user := nickname];
        match s.seconds
        case None => (Raises(DatabaseError), Tables(users, t.entries))
        case Some(seconds) =>
          var key := (puzzle, user);
          var row := if key in t.entries then t.entries[key] else EmptyRow;
          (Returns(true), Tables(users, t.entries[key := row.With(s.level.difficulty, seconds, s.cookie)]))
  }

  /**
   * add_entry returns True exactly for a complete submission, False exactly
   * for an unknown level or a title without digits, and raises otherwise.
   */
  lemma AddEntryOutcome(t: Tables, user: int, nickname: string, s: Submission)
    ensures AddEntrySpec(t, user, nickname, s).0 == Returns(true) <==> Complete(s)
    ensures AddEntrySpec(t, user, nickname, s).0 == Returns(false) <==> s.level.UnknownLevel? || s.puzzle.None?
    ensures AddEntrySpec(t, user, nickname, s).0 == Raises(ValueError)
        <==> s.level.Level? && s.puzzle == Some(Raises(ValueError))
  {
  }

  /** A refused submission leaves both tables as they were. */
  lemma AddEntryRefusedChangesNothing(t: Tables, user: int, nickname: string, s: Submission)
    requires AddEntrySpec(t, user, nickname, s).0 == Returns(false)
    ensures AddEntrySpec(t, user, nickname, s).1 == t
  {
  }

  /**
   * Only the (puzzle, user) row of the submission changes, and only when the
   * submission succeeds; every other row stays as it was.
   */
  lemma AddEntryTouchesOneRow(t: Tables, user: int, nickname: string, s: Submission)
    ensures var (r, t') := AddEntrySpec(t, user, nickname, s);
      && (r != Returns(true) ==> t'.entries == t.entries)
      && (r == Returns(true) ==>
            var key := (s.puzzle.value.value, user);
            key in t'.entries && t'.entries == t.entries[key := t'.entries[key]])
  {
  }

  /**
   * A successful submission sets the level's time and cookie in the row and
   * keeps the other levels' columns; a new row has only that level set.
   */
  lemma AddEntryRecordsLevel(t: Tables, user: int, nickname: string, s: Submission)
    requires Complete(s)
    ensures
      var t' := AddEntrySpec(t, user, nickname, s).1;
      var d := s.level.difficulty;
      var key := (s.puzzle.value.value, user);
      var before := if key in t.entries then t.entries[key] else EmptyRow;
      && key in t'.entries
      && t'.entries[key].Seconds(d) == s.seconds
      && t'.entries[key].Cookie(d) == Some(s.cookie)
      && forall e :: e != d ==>
           t'.entries[key].Seconds(e) == before.Seconds(e) && t'.entries[key].Cookie(e) == before.Cookie(e)
  {
  }

  /**
   * The users table only ever gains the submitting user, under the nickname,
   * and only when the user was not there; every stored name is kept. Once
   * the number parses the user is registered, whether or not the time does.
   */
  lemma AddEntryRegistersUser(t: Tables, user: int, nickname: string, s: Submission)
    ensures var t' := AddEntrySpec(t, user, nickname, s).1;
      && (t'.users == t.users || (user !in t.users && t'.users == t.users[user := nickname]))
      && (forall u :: u in t.users ==> u in t'.users && t'.users[u] == t.users[u])
      && (s.level.Level? && s.puzzle.Some? && s.puzzle.value.Returns? ==> user in t'.users)
  {
  }

  /**
   * A time that does not parse makes add_entry raise after the user was
   * registered, with the entries unchanged.
   */
  lemma AddEntryBadTime(t: Tables, user: int, nickname: string, s: Submission)
    requires s.level.Level? && s.puzzle.Some? && s.puzzle.value.Returns? && s.seconds.None?
    ensures var (r, t') := AddEntrySpec(t, user, nickname, s);
      r == Raises(DatabaseError) && t'.entries == t.entries && user in t'.users
  {
  }

  /** Submitting the same level of the same puzzle twice keeps only the second time and cookie. */
  lemma AddEntryLastWins(t: Tables, user: int, nickname: string, s1: Submission, s2: Submission)
    requires Complete(s1) && Complete(s2)
    requires s1.level == s2.level && s1.puzzle == s2.puzzle
    ensures
      var t1 := AddEntrySpec(t, user, nickname, s1).1;
      var t2 := AddEntrySpec(t1, user, nickname, s2).1;
      var key := (s1.puzzle.value.value, user);
      && t1.users == t2.users
      && key in t2.entries
      && t2.entries == t1.entries[key := t2.entries[key]]
      && t2.entries[key].Seconds(s2.level.difficulty) == s2.seconds
      && t2.entries[key].Cookie(s2.level.difficulty) == Some(s2.cookie)
  {
  }

  /** A row of a user read back as a PipsPuzzleEntry. */
  function ToEntry(puzzle: int, user: int, row: PipsRow): (e: PipsPuzzleEntry)
    ensures e.puzzleId == puzzle && e.userId == user
    ensures forall d :: e.Seconds(d) == row.Seconds(d) && (e.HasCookie(d) <==> row.Cookie(d) == Some(true))
  {
    PipsPuzzleEntry(puzzle, user, row.easySeconds, row.mediumSeconds, row.hardSeconds,
      row.easyCookie, row.mediumCookie, row.hardCookie)
  }

  /** Whether a puzzle is selected by the list: an empty list selects every puzzle. */
  predicate Selected(puzzle: int, puzzleList: seq<int>) {
    puzzleList == [] || puzzle in puzzleList
  }

  /**
   * entries are the user's rows for the selected puzzles, one per puzzle,
   * each read as an entry.
   */
  ghost predicate IsPlayerEntries(
    rows: map<(int, int), PipsRow>, user: int, puzzleList: seq<int>, entries: seq<PipsPuzzleEntry>)
  {
    && Distinct(PuzzleIds(entries))
    && (forall p :: p in PuzzleIds(entries) <==> (p, user) in rows && Selected(p, puzzleList))
    && (forall i :: 0 <= i < |entries| ==>
          (entries[i].puzzleId, user) in rows
          && entries[i] == ToEntry(entries[i].puzzleId, user, rows[(entries[i].puzzleId, user)]))
  }

  /** The puzzle ids of a list of entries, in order. */
  function PuzzleIds(entries: seq<PipsPuzzleEntry>): (ids: seq<int>)
    ensures |ids| == |entries|
    ensures forall i :: 0 <= i < |ids| ==> ids[i] == entries[i].puzzleId
  {
    seq(|entries|, i requires 0 <= i < |entries| => entries[i].puzzleId)
  }

  // ---------------------------------------------------------------- the handler

  /** PipsDatabaseHandler: the Pips tables and the Pips numbering. */
  class PipsDatabaseHandler {
    const store: Store<PipsRow>
    const anchor: Anchor

    constructor()
      ensures fresh(store) && store.users == map[] && store.entries == map[]
      ensures anchor == PipsAnchor
    {
      store := new Store<PipsRow>();
      anchor := PipsAnchor;
    }

    function Contents(): Tables
      reads store
    {
      Tables(store.users, store.entries)
    }

    /** add_entry: records one level of a submission; the outcome and the new tables are AddEntrySpec's. */
    method AddEntry(user: int, nickname: string, title: string, body: string) returns (r: Try<bool>)
      modifies store
      ensures (r, Contents()) == AddEntrySpec(old(Contents()), user, nickname, ReadSubmission(title, body))
    {
      var submission := ReadSubmission(title, body);
      r := Record(user, nickname, submission);
    }

    /** The writing half of add_entry, once the title and body were read. */
    method Record(user: int, nickname: string, s: Submission) returns (r: Try<bool>)
      modifies store
      ensures (r, Contents()) == AddEntrySpec(old(Contents()), user, nickname, s)
    {
      if s.level.UnknownLevel? {
        return Returns(false);
      }
      if s.puzzle.None? {
        return Returns(false);
      }
      if s.puzzle.value.Raises? {
        return Raises(s.puzzle.value.error);
      }
      var puzzle := s.puzzle.value.value;
      var known := store.UserExists(user);
      if !known {
        store.users := store.users[user := nickname];
      }
      if s.seconds.None? {
        return Raises(DatabaseError);
      }
      var present := store.EntryExists(user, puzzle);
      if present {
        var row := store.entries[(puzzle, user)];
        store.entries := store.entries[(puzzle, user) := row.With(s.level.difficulty, s.seconds.value, s.cookie)];
      } else {
        store.entries := store.entries[(puzzle, user) := EmptyRow.With(s.level.difficulty, s.seconds.value, s.cookie)];
      }
      return Returns(true);
    }

    /**
     * get_entries_by_player: one entry per row of the user whose puzzle the
     * list selects, each carrying the row's columns; rows come in no
     * particular order.
     */
    method GetEntriesByPlayer(user: int, puzzleList: seq<int>) returns (entries: seq<PipsPuzzleEntry>)
      ensures Distinct(PuzzleIds(entries))
      ensures forall p :: p in PuzzleIds(entries) <==> (p, user) in store.entries && Selected(p, puzzleList)
      ensures forall i :: 0 <= i < |entries| ==>
        (entries[i].puzzleId, user) in store.entries
        && entries[i] == ToEntry(entries[i].puzzleId, user, store.entries[(entries[i].puzzleId, user)])
    {
      var ids := SetToSeq(set k | k in store.entries && k.1 == user && Selected(k.0, puzzleList) :: k.0);
      entries := [];
      for i := 0 to |ids|
        invariant |entries| == i
        invariant forall j :: 0 <= j < i ==>
          (ids[j], user) in store.entries && entries[j] == ToEntry(ids[j], user, store.entries[(ids[j], user)])
      {
        assert ids[i] in ids;
        entries := entries + [ToEntry(ids[i], user, store.entries[(ids[i], user)])];
      }
      assert PuzzleIds(entries) == ids;
    }

    /**
     * PipsPlayerStats(user_id, puzzle_list, db): the statistics built from
     * what the two queries return. No game is missed exactly when the user
     * has a row for every listed puzzle, and all are missed exactly when the
     * user has a row for none.
     */
    method PlayerStats(user: int, puzzleList: seq<int>)
      returns (s: PipsPlayerStats, ghost playerPuzzles: seq<int>, ghost playerEntries: seq<PipsPuzzleEntry>)
      ensures forall p :: p in playerPuzzles <==> (p, user) in store.entries
      ensures IsPlayerEntries(store.entries, user, puzzleList, playerEntries)
      ensures s == NewPipsPlayerStats(user, puzzleList, playerPuzzles, playerEntries)
      ensures s.userId == user && s.rank == -1
      ensures s.missedGames == 0 <==> forall p :: p in puzzleList ==> (p, user) in store.entries
      ensures s.missedGames == |puzzleList| <==> forall p :: p in puzzleList ==> (p, user) !in store.entries
      ensures (forall p :: (p, user) in store.entries ==> !Selected(p, puzzleList)) ==>
        StatList(s) == (-1.0, -1.0, -1.0, -1.0, -1.0, -1.0, -1.0)
    {
      var puzzles := store.GetPuzzlesByPlayer(user);
      var entries := GetEntriesByPlayer(user, puzzleList);
      playerPuzzles, playerEntries := puzzles, entries;
      s := NewPipsPlayerStats(user, puzzleList, puzzles, entries);
      NoMissedGames(puzzleList, puzzles);
      AllMissedGames(puzzleList, puzzles);
      if |entries| > 0 {
        assert PuzzleIds(entries)[0] in PuzzleIds(entries);
      }
    }
  }
}
