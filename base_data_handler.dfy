/**
 * The game-independent part of data/base_data_handler.py: the affine map
 * from dates to puzzle ids, the week and month expansions, and the queries
 * over the users and entries tables, here an in-memory store keyed by
 * user id and by (puzzle id, user id).
 */
module BaseDataHandler {
  import opened Calendar
  import opened BotUtilities
  import opened Wrappers

  /** The date a game's puzzle numbering is pinned to, and the puzzle published that day. */
  datatype Anchor = Anchor(date: Date, puzzle: int)

  /** get_puzzle_by_date: the anchor's puzzle plus the number of days from the anchor date. */
  function PuzzleByDate(a: Anchor, q: Date): int {
    a.puzzle + (Ordinal(q) - Ordinal(a.date))
  }

  /** The anchor date maps to the anchor puzzle, and one day later is one puzzle later. */
  lemma PuzzleByDateAffine(a: Anchor, q: Date)
    ensures PuzzleByDate(a, a.date) == a.puzzle
    ensures q != LastDate ==> PuzzleByDate(a, NextDay(q)) == PuzzleByDate(a, q) + 1
  {
  }

  /** Going back k days goes back k puzzles. */
  lemma PuzzleBySubtractDays(a: Anchor, q: Date, k: nat)
    requires k < Ordinal(q)
    ensures PuzzleByDate(a, SubtractDays(q, k)) == PuzzleByDate(a, q) - k
  {
  }

  /** Different dates have different puzzles. */
  lemma PuzzleByDateInjective(a: Anchor, p: Date, q: Date)
    requires PuzzleByDate(a, p) == PuzzleByDate(a, q)
    ensures p == q
  {
    OrdinalInjective(p, q);
  }

  /** The ordinal orders dates as (year, month, day) does, so no two dates share one. */
  lemma OrdinalInjective(p: Date, q: Date)
    requires Ordinal(p) == Ordinal(q)
    ensures p == q
  {
    if p.year != q.year {
      if p.year < q.year { OrdinalYearBound(p, q); } else { OrdinalYearBound(q, p); }
    } else if p.month != q.month {
      if p.month < q.month { OrdinalMonthBound(p, q); } else { OrdinalMonthBound(q, p); }
    }
  }

  lemma OrdinalYearBound(p: Date, q: Date)
    requires p.year < q.year
    ensures Ordinal(p) < Ordinal(q)
  {
    OrdinalWithinYear(p);
    DaysBeforeYearMonotone(p.year + 1, q.year);
  }

  lemma OrdinalMonthBound(p: Date, q: Date)
    requires p.year == q.year && p.month < q.month
    ensures Ordinal(p) < Ordinal(q)
  {
    DaysBeforeMonthMonotone(p.year, p.month + 1, q.month);
    MonthStep(p.year, p.month);
  }

  /** A date's ordinal lies at or before the last day of its year. */
  lemma OrdinalWithinYear(d: Date)
    ensures Ordinal(d) <= DaysBeforeYear(d.year + 1)
  {
    YearStep(d.year);
    if d.month < 12 {
      DaysBeforeMonthMonotone(d.year, d.month + 1, 12);
      MonthStep(d.year, d.month);
    }
  }

  lemma {:induction false} DaysBeforeYearMonotone(x: int, y: int)
    requires 1 <= x <= y
    ensures DaysBeforeYear(x) <= DaysBeforeYear(y)
    decreases y - x
  {
    if x < y {
      DaysBeforeYearMonotone(x, y - 1);
    }
  }

  lemma {:induction false} DaysBeforeMonthMonotone(y: int, m: int, n: int)
    requires 1 <= m <= n <= 12
    ensures DaysBeforeMonth(y, m) <= DaysBeforeMonth(y, n)
    decreases n - m
  {
    if m < n {
      MonthStep(y, m);
      DaysBeforeMonthMonotone(y, m + 1, n);
    }
  }

  /** get_puzzles_by_week: the seven puzzles from a Sunday on; nothing for any other day. */
  function PuzzlesByWeek(a: Anchor, q: Option<Date>): (ids: seq<int>)
    ensures !IsSunday(q) ==> ids == []
    ensures IsSunday(q) ==> |ids| == 7 && ids[0] == PuzzleByDate(a, q.value)
    ensures forall i :: 0 < i < |ids| ==> ids[i] == ids[i - 1] + 1
  {
    if IsSunday(q) then
      var first := PuzzleByDate(a, q.value);
      seq(7, i => first + i)
    else []
  }

  /** The week listed from a date's week start holds that date's puzzle. */
  lemma WeekHoldsItsDays(a: Anchor, d: Date)
    requires Ordinal(d) >= 7
    ensures GetWeekStart(Some(d)).Returns?
    ensures PuzzleByDate(a, d) in PuzzlesByWeek(a, GetWeekStart(Some(d)).value)
  {
    WeekStartIsSunday(d);
    var start := GetWeekStart(Some(d)).value;
    var ids := PuzzlesByWeek(a, start);
    var k := PuzzleByDate(a, d) - PuzzleByDate(a, start.value);
    assert 0 <= k < 7;
    assert ids[k] == PuzzleByDate(a, d);
  }

  /**
   * The number of days get_puzzles_by_month lists: up to today in the
   * current month, otherwise the month's length by the source's own tables.
   */
  function MonthLength(q: Date, today: Date): (n: int)
    ensures q.month == today.month && q.year == today.year ==> n == today.day
    ensures !(q.month == today.month && q.year == today.year) ==> n == DaysInMonth(q.year, q.month)
    ensures 1 <= n <= DaysInMonth(q.year, q.month)
  {
    if q.month == today.month && q.year == today.year then today.day
    else if q.month == 2 then
      if (q.year % 4 == 0 && q.year % 100 != 0) || q.year % 400 == 0 then 29 else 28
    else if q.month in [4, 6, 9, 11] then 30
    else if q.month in [1, 3, 5, 7, 8, 10, 12] then 31
    else 1
  }

  /** February has 29 days exactly in the leap years of the Gregorian rule. */
  lemma FebruaryLength(q: Date, today: Date)
    requires q.month == 2 && !(today.month == 2 && q.year == today.year)
    ensures MonthLength(q, today) == 29 <==> IsLeapYear(q.year)
    ensures MonthLength(q, today) == 28 <==> !IsLeapYear(q.year)
  {
  }

  /**
   * get_puzzles_by_month: the puzzles of the month of q, one per day from the
   * first, in order; the current month stops at today.
   */
  method GetPuzzlesByMonth(a: Anchor, q: Date, today: Date) returns (ids: seq<int>)
    ensures |ids| == MonthLength(q, today) && |ids| >= 1
    ensures ids[0] == PuzzleByDate(a, Ymd(q.year, q.month, 1))
    ensures forall i :: 0 < i < |ids| ==> ids[i] == ids[i - 1] + 1
  {
    var daysInMonth := MonthLength(q, today);
    var firstDay: Date := Ymd(q.year, q.month, 1);
    ids := [];
    for day := 0 to daysInMonth
      invariant |ids| == day
      invariant forall i :: 0 <= i < day ==> ids[i] == PuzzleByDate(a, firstDay) + i
    {
      var current: Date := Ymd(q.year, q.month, day + 1);
      ids := ids + [PuzzleByDate(a, current)];
    }
  }

  /**
   * The users and entries tables. users maps a user id to the stored name;
   * entries maps (puzzle id, user id) to the row, the pair being the table's
   * unique key, so a key holds at most one row.
   */
  class Store<Row> {
    var users: map<int, string>
    var entries: map<(int, int), Row>

    constructor()
      ensures users == map[] && entries == map[]
    {
      users := map[];
      entries := map[];
    }

    /** remove_entry: deletes that user's entry for that puzzle, reporting whether there was one. */
    method RemoveEntry(user: int, puzzle: int) returns (removed: bool)
      modifies this
      ensures removed <==> (puzzle, user) in old(entries)
      ensures entries == old(entries) - {(puzzle, user)}
      ensures users == old(users)
    {
      removed := (puzzle, user) in entries;
      entries := entries - {(puzzle, user)};
    }

    /** user_exists */
    method UserExists(user: int) returns (b: bool)
      ensures b <==> user in users
    {
      b := user in users;
    }

    /** entry_exists */
    method EntryExists(user: int, puzzle: int) returns (b: bool)
      ensures b <==> (puzzle, user) in entries
    {
      b := (puzzle, user) in entries;
    }

    /** get_all_puzzles: every puzzle with an entry, each once. */
    method GetAllPuzzles() returns (ids: seq<int>)
      ensures Distinct(ids)
      ensures forall p :: p in ids <==> exists k :: k in entries && k.0 == p
    {
      ids := SetToSeq(set k | k in entries :: k.0);
    }

    /** get_all_players: every registered user, each once. */
    method GetAllPlayers() returns (ids: seq<int>)
      ensures Distinct(ids)
      ensures forall u :: u in ids <==> u in users
    {
      ids := SetToSeq(users.Keys);
    }

    /** get_puzzles_by_player: the puzzles the user has entries for, each once. */
    method GetPuzzlesByPlayer(user: int) returns (ids: seq<int>)
      ensures Distinct(ids)
      ensures forall p :: p in ids <==> (p, user) in entries
    {
      ids := SetToSeq(set k | k in entries && k.1 == user :: k.0);
    }

    /** get_players_by_puzzle_id: the users with an entry for the puzzle, each once. */
    method GetPlayersByPuzzleId(puzzle: int) returns (ids: seq<int>)
      ensures Distinct(ids)
      ensures forall u :: u in ids <==> (puzzle, u) in entries
    {
      ids := SetToSeq(set k | k in entries && k.0 == puzzle :: k.1);
    }
  }

  predicate Distinct<T(==)>(xs: seq<T>) {
    forall i, j :: 0 <= i < j < |xs| ==> xs[i] != xs[j]
  }

  /** The rows of a `select distinct` query: the values of s, each once, in some order. */
  method SetToSeq<T(==)>(s: set<T>) returns (xs: seq<T>)
    ensures Distinct(xs)
    ensures forall x :: x in xs <==> x in s
  {
    xs := [];
    var rest := s;
    while rest != {}
      invariant Distinct(xs)
      invariant forall x :: x in xs ==> x !in rest
      invariant forall x :: x in s <==> x in xs || x in rest
      invariant forall x :: x in rest ==> x in s
      decreases |rest|
    {
      var x :| x in rest;
      xs := xs + [x];
      rest := rest - {x};
    }
  }
}
