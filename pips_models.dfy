/**
 * models/pips.py: a player's Pips statistics, computed from the puzzles the
 * player has entries for and from the player's entries. Means are exact
 * (sum over count, as reals); -1 stands for "no data".
 */
module PipsModels {
  import opened Wrappers

  /** The three Pips puzzles of a day. */
  datatype Difficulty = Easy | Medium | Hard

  /** PipsPuzzleEntry: one player's results for one puzzle day; a level never played is None. */
  datatype PipsPuzzleEntry = PipsPuzzleEntry(
    puzzleId: int,
    userId: int,
    easySeconds: Option<int>,
    mediumSeconds: Option<int>,
    hardSeconds: Option<int>,
    easyCookie: Option<bool>,
    mediumCookie: Option<bool>,
    hardCookie: Option<bool>)
  {
    function Seconds(d: Difficulty): Option<int> {
      match d
      case Easy => easySeconds
      case Medium => mediumSeconds
      case Hard => hardSeconds
    }

    /** The cookie column read as Python truth: NULL counts as no cookie. */
    predicate HasCookie(d: Difficulty) {
      match d
      case Easy => easyCookie == Some(true)
      case Medium => mediumCookie == Some(true)
      case Hard => hardCookie == Some(true)
    }

    predicate AllTimed() {
      easySeconds.Some? && mediumSeconds.Some? && hardSeconds.Some?
    }
  }

  /** The seven statistics, the player and the rank. */
  datatype PipsPlayerStats = PipsPlayerStats(
    userId: int,
    missedGames: nat,
    avgEasySeconds: real,
    avgMediumSeconds: real,
    avgHardSeconds: real,
    easyCookieRate: real,
    mediumCookieRate: real,
    hardCookieRate: real,
    avgTotalSeconds: real,
    rank: int)

  // ---------------------------------------------------------------- counting and means

  /** The positions of puzzleList whose puzzle the player has no entry for. */
  function MissedGames(puzzleList: seq<int>, playerPuzzles: seq<int>): (n: nat)
    ensures n <= |puzzleList|
  {
    if puzzleList == [] then 0
    else
      MissedGames(puzzleList[..|puzzleList| - 1], playerPuzzles)
      + (if puzzleList[|puzzleList| - 1] in playerPuzzles then 0 else 1)
  }

  /** No game is missed exactly when every listed puzzle was played. */
  lemma {:induction false} NoMissedGames(puzzleList: seq<int>, playerPuzzles: seq<int>)
    ensures MissedGames(puzzleList, playerPuzzles) == 0
        <==> forall p :: p in puzzleList ==> p in playerPuzzles
  {
    if puzzleList != [] {
      var init := puzzleList[..|puzzleList| - 1];
      NoMissedGames(init, playerPuzzles);
      assert forall p :: p in puzzleList <==> p in init || p == puzzleList[|puzzleList| - 1];
    }
  }

  /** Every listed puzzle is missed exactly when none of them was played. */
  lemma {:induction false} AllMissedGames(puzzleList: seq<int>, playerPuzzles: seq<int>)
    ensures MissedGames(puzzleList, playerPuzzles) == |puzzleList|
        <==> forall p :: p in puzzleList ==> p !in playerPuzzles
  {
    if puzzleList != [] {
      var init := puzzleList[..|puzzleList| - 1];
      AllMissedGames(init, playerPuzzles);
      assert forall p :: p in puzzleList <==> p in init || p == puzzleList[|puzzleList| - 1];
    }
  }

  function Sum(xs: seq<real>): real {
    if xs == [] then 0.0 else Sum(xs[..|xs| - 1]) + xs[|xs| - 1]
  }

  /** statistics.mean over exact reals. */
  function Mean(xs: seq<real>): real
    requires |xs| > 0
  {
    Sum(xs) / (|xs| as real)
  }

  /** mean(xs) when xs is non-empty, mean([-1.0]) = -1 otherwise. */
  function MeanOr(xs: seq<real>): real {
    if |xs| > 0 then Mean(xs) else -1.0
  }

  /** A sum of values in [lo, hi] lies in [n*lo, n*hi]. */
  lemma {:induction false} SumBounds(xs: seq<real>, lo: real, hi: real)
    requires forall i :: 0 <= i < |xs| ==> lo <= xs[i] <= hi
    ensures (|xs| as real) * lo <= Sum(xs) <= (|xs| as real) * hi
  {
    if xs != [] {
      SumBounds(xs[..|xs| - 1], lo, hi);
    }
  }

  /** The mean of values in [lo, hi] lies in [lo, hi]. */
  lemma MeanBounds(xs: seq<real>, lo: real, hi: real)
    requires |xs| > 0
    requires forall i :: 0 <= i < |xs| ==> lo <= xs[i] <= hi
    ensures lo <= Mean(xs) <= hi
  {
    SumBounds(xs, lo, hi);
    var n := |xs| as real;
    assert n * lo <= Sum(xs) <= n * hi;
    DivideBounds(Sum(xs), n, lo, hi);
  }

  lemma DivideBounds(s: real, n: real, lo: real, hi: real)
    requires n > 0.0 && n * lo <= s <= n * hi
    ensures lo <= s / n <= hi
  {
  }

  // ---------------------------------------------------------------- per-level statistics

  /** The entries where the level has a time. */
  function Timed(entries: seq<PipsPuzzleEntry>, d: Difficulty): (r: seq<PipsPuzzleEntry>)
    ensures |r| <= |entries|
    ensures forall e :: e in r <==> e in entries && e.Seconds(d).Some?
    ensures forall e :: multiset(r)[e] == if e.Seconds(d).Some? then multiset(entries)[e] else 0
  {
    if entries == [] then []
    else
      var init := Timed(entries[..|entries| - 1], d);
      var e := entries[|entries| - 1];
      assert entries == entries[..|entries| - 1] + [e];
      assert multiset(entries) == multiset(entries[..|entries| - 1]) + multiset{e};
      if e.Seconds(d).Some? then init + [e] else init
  }

  /** The entries where all three levels have a time. */
  function FullyTimed(entries: seq<PipsPuzzleEntry>): (r: seq<PipsPuzzleEntry>)
    ensures |r| <= |entries|
    ensures forall e :: e in r <==> e in entries && e.AllTimed()
    ensures forall e :: multiset(r)[e] == if e.AllTimed() then multiset(entries)[e] else 0
  {
    if entries == [] then []
    else
      var init := FullyTimed(entries[..|entries| - 1]);
      var e := entries[|entries| - 1];
      assert entries == entries[..|entries| - 1] + [e];
      assert multiset(entries) == multiset(entries[..|entries| - 1]) + multiset{e};
      if e.AllTimed() then init + [e] else init
  }

  function SecondsOf(entries: seq<PipsPuzzleEntry>, d: Difficulty): seq<real>
    requires forall e :: e in entries ==> e.Seconds(d).Some?
  {
    seq(|entries|, i requires 0 <= i < |entries| => entries[i].Seconds(d).value as real)
  }

  function CookiesOf(entries: seq<PipsPuzzleEntry>, d: Difficulty): (r: seq<real>)
    ensures |r| == |entries|
    ensures forall i :: 0 <= i < |r| ==> 0.0 <= r[i] <= 1.0
    ensures forall i :: 0 <= i < |r| ==> (r[i] == 1.0 <==> entries[i].HasCookie(d))
    ensures forall i :: 0 <= i < |r| ==> (r[i] == 0.0 <==> !entries[i].HasCookie(d))
  {
    seq(|entries|, i requires 0 <= i < |entries| => if entries[i].HasCookie(d) then 1.0 else 0.0)
  }

  function TotalsOf(entries: seq<PipsPuzzleEntry>): seq<real>
    requires forall e :: e in entries ==> e.AllTimed()
  {
    seq(|entries|, i requires 0 <= i < |entries| =>
      var e := entries[i];
      assert e in entries && e.AllTimed();
      (e.easySeconds.value + e.mediumSeconds.value + e.hardSeconds.value) as real)
  }

  /** The mean time of a level over the entries that have one, or -1. */
  function AvgSeconds(entries: seq<PipsPuzzleEntry>, d: Difficulty): real {
    MeanOr(SecondsOf(Timed(entries, d), d))
  }

  /** The share of a level's timed entries that earned the cookie, or -1. */
  function CookieRate(entries: seq<PipsPuzzleEntry>, d: Difficulty): real {
    MeanOr(CookiesOf(Timed(entries, d), d))
  }

  /** The mean of easy + medium + hard over the entries with all three timed, or -1. */
  function AvgTotalSeconds(entries: seq<PipsPuzzleEntry>): real {
    MeanOr(TotalsOf(FullyTimed(entries)))
  }

  /** A cookie rate is -1 when the level was never timed and a fraction in [0, 1] otherwise. */
  lemma CookieRateRange(entries: seq<PipsPuzzleEntry>, d: Difficulty)
    ensures CookieRate(entries, d) == -1.0 <==> (forall e :: e in entries ==> e.Seconds(d).None?)
    ensures CookieRate(entries, d) != -1.0 ==> 0.0 <= CookieRate(entries, d) <= 1.0
  {
    var timed := Timed(entries, d);
    if |timed| > 0 {
      MeanBounds(CookiesOf(timed, d), 0.0, 1.0);
      assert timed[0] in entries && timed[0].Seconds(d).Some?;
    }
  }

  /** With no entry timed for the level, the level average is the sentinel -1. */
  lemma AvgSecondsUntimed(entries: seq<PipsPuzzleEntry>, d: Difficulty)
    requires forall e :: e in entries ==> e.Seconds(d).None?
    ensures AvgSeconds(entries, d) == -1.0
  {
  }

  /** With no entry timed on all three levels, the total average is the sentinel -1. */
  lemma AvgTotalSecondsUntimed(entries: seq<PipsPuzzleEntry>)
    requires forall e :: e in entries ==> !e.AllTimed()
    ensures AvgTotalSeconds(entries) == -1.0
  {
  }

  /** How many entries have a time for the level and earned its cookie. */
  function CookieCount(entries: seq<PipsPuzzleEntry>, d: Difficulty): nat {
    if entries == [] then 0
    else
      var e := entries[|entries| - 1];
      CookieCount(entries[..|entries| - 1], d) + (if e.Seconds(d).Some? && e.HasCookie(d) then 1 else 0)
  }

  lemma {:induction false} CookieSumIsCount(entries: seq<PipsPuzzleEntry>, d: Difficulty)
    ensures Sum(CookiesOf(Timed(entries, d), d)) == CookieCount(entries, d) as real
  {
    if entries != [] {
      var init := entries[..|entries| - 1];
      var e := entries[|entries| - 1];
      assert entries == init + [e];
      CookieSumIsCount(init, d);
      CookieStep(init, e, d);
    }
  }

  /** Appending one entry adds its cookie, if timed, to both the sum and the count. */
  lemma CookieStep(init: seq<PipsPuzzleEntry>, e: PipsPuzzleEntry, d: Difficulty)
    ensures var add := if e.Seconds(d).Some? && e.HasCookie(d) then 1 else 0;
      && Sum(CookiesOf(Timed(init + [e], d), d)) == Sum(CookiesOf(Timed(init, d), d)) + add as real
      && CookieCount(init + [e], d) == CookieCount(init, d) + add
  {
    var entries := init + [e];
    assert entries[..|entries| - 1] == init;
    if e.Seconds(d).Some? {
      var t := Timed(init, d);
      assert Timed(entries, d) == t + [e];
      CookiesOfSnoc(t, e, d);
      SumSnoc(CookiesOf(t, d), if e.HasCookie(d) then 1.0 else 0.0);
    }
  }

  lemma CookiesOfSnoc(entries: seq<PipsPuzzleEntry>, e: PipsPuzzleEntry, d: Difficulty)
    ensures CookiesOf(entries + [e], d) == CookiesOf(entries, d) + [if e.HasCookie(d) then 1.0 else 0.0]
  {
  }

  lemma SumSnoc(xs: seq<real>, x: real)
    ensures Sum(xs + [x]) == Sum(xs) + x
  {
    assert (xs + [x])[..|xs|] == xs;
  }

  /** A cookie rate is the number of timed entries with the cookie over the number of timed entries. */
  lemma CookieRateIsShare(entries: seq<PipsPuzzleEntry>, d: Difficulty)
    requires exists e :: e in entries && e.Seconds(d).Some?
    ensures |Timed(entries, d)| > 0
    ensures CookieRate(entries, d) == (CookieCount(entries, d) as real) / (|Timed(entries, d)| as real)
  {
    var e :| e in entries && e.Seconds(d).Some?;
    assert e in Timed(entries, d);
    CookieSumIsCount(entries, d);
  }

  /** The level average lies between the smallest and the largest time recorded for the level. */
  lemma AvgSecondsBetween(entries: seq<PipsPuzzleEntry>, d: Difficulty, lo: int, hi: int)
    requires exists e :: e in entries && e.Seconds(d).Some?
    requires forall e :: e in entries && e.Seconds(d).Some? ==> lo <= e.Seconds(d).value <= hi
    ensures lo as real <= AvgSeconds(entries, d) <= hi as real
  {
    var timed := Timed(entries, d);
    var e :| e in entries && e.Seconds(d).Some?;
    assert e in timed;
    var xs := SecondsOf(timed, d);
    forall i | 0 <= i < |xs| ensures lo as real <= xs[i] <= hi as real {
      assert timed[i] in timed;
    }
    MeanBounds(xs, lo as real, hi as real);
  }

  /** Entries without a time for a level do not move that level's average or cookie rate. */
  lemma UntimedEntryIgnored(entries: seq<PipsPuzzleEntry>, e: PipsPuzzleEntry, d: Difficulty)
    requires e.Seconds(d).None?
    ensures AvgSeconds(entries + [e], d) == AvgSeconds(entries, d)
    ensures CookieRate(entries + [e], d) == CookieRate(entries, d)
  {
    assert (entries + [e])[..|entries + [e]| - 1] == entries;
  }

  /** Only entries with all three levels timed count towards the total average. */
  lemma PartialEntryIgnoredInTotal(entries: seq<PipsPuzzleEntry>, e: PipsPuzzleEntry)
    requires !e.AllTimed()
    ensures AvgTotalSeconds(entries + [e]) == AvgTotalSeconds(entries)
  {
    assert (entries + [e])[..|entries + [e]| - 1] == entries;
  }

  // ---------------------------------------------------------------- the constructor

  /**
   * PipsPlayerStats(user_id, puzzle_list, db): playerPuzzles and playerEntries
   * are what the handler's get_puzzles_by_player and get_entries_by_player
   * returned for this user and list.
   */
  function NewPipsPlayerStats(
    userId: int, puzzleList: seq<int>, playerPuzzles: seq<int>, playerEntries: seq<PipsPuzzleEntry>)
    : (s: PipsPlayerStats)
    ensures s.userId == userId && s.rank == -1
    ensures s.missedGames <= |puzzleList|
    ensures |playerEntries| == 0 ==> StatList(s) == (-1.0, -1.0, -1.0, -1.0, -1.0, -1.0, -1.0)
    ensures |playerEntries| > 0 ==>
      && s.avgEasySeconds == AvgSeconds(playerEntries, Easy)
      && s.avgMediumSeconds == AvgSeconds(playerEntries, Medium)
      && s.avgHardSeconds == AvgSeconds(playerEntries, Hard)
      && s.easyCookieRate == CookieRate(playerEntries, Easy)
      && s.mediumCookieRate == CookieRate(playerEntries, Medium)
      && s.hardCookieRate == CookieRate(playerEntries, Hard)
      && s.avgTotalSeconds == AvgTotalSeconds(playerEntries)
  {
    var missed := MissedGames(puzzleList, playerPuzzles);
    if |playerEntries| > 0 then
      PipsPlayerStats(userId, missed,
        AvgSeconds(playerEntries, Easy), AvgSeconds(playerEntries, Medium), AvgSeconds(playerEntries, Hard),
        CookieRate(playerEntries, Easy), CookieRate(playerEntries, Medium), CookieRate(playerEntries, Hard),
        AvgTotalSeconds(playerEntries), -1)
    else
      PipsPlayerStats(userId, missed, -1.0, -1.0, -1.0, -1.0, -1.0, -1.0, -1.0, -1)
  }

  /** get_stat_list: the three averages, the three cookie rates and the total average, in that order. */
  function StatList(s: PipsPlayerStats): (real, real, real, real, real, real, real) {
    (s.avgEasySeconds, s.avgMediumSeconds, s.avgHardSeconds,
     s.easyCookieRate, s.mediumCookieRate, s.hardCookieRate,
     s.avgTotalSeconds)
  }

  /** Every cookie rate in the constructed stats is -1 or a fraction in [0, 1]. */
  lemma StatsCookieRatesInRange(
    userId: int, puzzleList: seq<int>, playerPuzzles: seq<int>, playerEntries: seq<PipsPuzzleEntry>)
    ensures var s := NewPipsPlayerStats(userId, puzzleList, playerPuzzles, playerEntries);
      && (s.easyCookieRate == -1.0 || 0.0 <= s.easyCookieRate <= 1.0)
      && (s.mediumCookieRate == -1.0 || 0.0 <= s.mediumCookieRate <= 1.0)
      && (s.hardCookieRate == -1.0 || 0.0 <= s.hardCookieRate <= 1.0)
  {
    CookieRateRange(playerEntries, Easy);
    CookieRateRange(playerEntries, Medium);
    CookieRateRange(playerEntries, Hard);
  }
}
