# NYT games bot — a Dafny model of its core

The bot reads share messages of the New York Times games (Wordle,
Connections, Strands, Pips) posted in a chat server, files them per
player and puzzle, and answers commands about them. This project models
everything between the chat text and the database:

- **Recognisers and routing.** The channel and command classification by
  substring priority, the `M/D[/YY[YY]]` date recogniser, the four
  submission-header recognisers (hand-written predicates equivalent to the
  regular expressions), and the `on_message` decision of which game a message
  goes to, with which title and body, and which reaction follows.
- **Dates and puzzle numbers.** The proleptic Gregorian calendar with
  Python's day numbering, the week start, `get_date_from_str`,
  `seconds_to_mm_ss`, `convert_date_to_str`, the affine map from dates to
  puzzle ids, and the week and month lists of ids.
- **The database handler.** The entries table as a map keyed by
  (puzzle, user) and the users table as a map, held by a `Store` class
  whose methods are the base handler's queries. The Pips handler's
  `add_entry` is a method proved against a function of the tables.
  `get_entries_by_player` is also covered.
- **Pips statistics.** Missed games, per-level averages, cookie rates, the
  total average and the -1 sentinels, over exact reals.
- **Dispatch.** Both cogs' `get_command_handler_and_args`, and the owner
  commands' forwarding.
- **Start-up.** `load_env_file` as a loop over the file's lines on an
  `Environ` object holding the environment map, and the guild id parse.

Python exceptions are values: `Try<T>` is `Returns(value)` or
`Raises(error)`. The wall clock, the nickname lookup, the game handlers'
own `add_entry` and the file system are parameters.

Modules:

| file | module | models |
|---|---|---|
| `wrappers.dfy` | `Wrappers` | Option and Try |
| `text.dfy` | `Text` | the `str` methods used (`lower`, `in`, `strip`, `split`, `splitlines`, `join`, `replace`, `int`) |
| `calendar.dfy` | `Calendar` | `datetime.date` |
| `nyt_game.dfy` | `NytGame` | utils/nyt_game.py |
| `bot_utilities.dfy` | `BotUtilities` | utils/bot_utilities.py |
| `base_data_handler.dfy` | `BaseDataHandler` | data/base_data_handler.py |
| `pips_data.dfy` | `PipsData` | data/pips.py |
| `pips_models.dfy` | `PipsModels` | models/pips.py |
| `members.dfy` | `Members` | cogs/members.py |
| `owner.dfy` | `Owner` | cogs/owner.py |
| `bot.dfy` | `Bot` | bot.py |

## Model

| member | source | states |
|---|---|---|
| BotUtilities.GameFromChannel | utils/bot_utilities.py:29-40 | A game other than UNKNOWN has its keyword in the lowercased name, and no keyword of higher priority (connections, strands, wordle, pips) occurs in it. |
| BotUtilities.GameFromCommand | utils/bot_utilities.py:42-55 | No arguments give UNKNOWN. Otherwise only the first argument is classified, by the same rule as a channel name. |
| BotUtilities.MentionIsUser | utils/bot_utilities.py:68-69 | `<@id>` followed by anything is recognised as a user mention. |
| BotUtilities.NicknameMentionIsUser | utils/bot_utilities.py:68-69 | `<@!id>` followed by anything is recognised too. |
| BotUtilities.DigitsMentionIsUser | utils/bot_utilities.py:68-69 | `<@`, an optional `!`, one or more digits and `>`, followed by anything, are recognised. |
| BotUtilities.UserMentionParts | utils/bot_utilities.py:68-69 | Conversely, a recognised word is `<@`, an optional `!`, one or more digits, `>` and the rest. |
| BotUtilities.ScanDateMatchesPattern | utils/bot_utilities.py:71-72 | Splitting at '/' accepts exactly the strings that match `\d{1,2}/\d{1,2}(/\d{2}(\d{2})?)?`, in both directions. |
| BotUtilities.IsDateMatchesPattern | utils/bot_utilities.py:71-72 | `is_date` holds iff the string, or the string less one final "\n" (Python's `$`), matches the date pattern. |
| BotUtilities.WordleLineMatchesPattern | utils/bot_utilities.py:80-81 | The end-first reading of a Wordle line accepts exactly the lines the left-to-right pattern matches: "Wordle ", a plain or comma-grouped number, an optional " 🎉", then " G/T" with G a digit or X, and an optional "*". |
| BotUtilities.PrefixRecognisersIgnoreRest | utils/bot_utilities.py:86-90 | The Strands and Pips recognisers stay true whatever text is appended. |
| BotUtilities.GetWeekStart | utils/bot_utilities.py:97-100 | A missing date gives None. |
| BotUtilities.WeekStartOfSunday | utils/bot_utilities.py:97-99 | A Sunday is its own week start. |
| BotUtilities.WeekStartOverflow | utils/bot_utilities.py:97-99 | The subtraction raises (OverflowError) exactly for the first six days of year 1. |
| BotUtilities.WeekStartIsSunday | utils/bot_utilities.py:97-99 | Otherwise the week start is a Sunday, no later than the date and at most six days earlier. |
| Calendar.SubtractDays | utils/bot_utilities.py:99 | Subtracting k days lowers the day number by exactly k. |
| BotUtilities.Strptime | utils/bot_utilities.py:108-115 | strptime succeeds iff month and day form a valid date in the given year, and returns that date. |
| BotUtilities.CenturyOf | utils/bot_utilities.py:113 | `%y` maps a two-digit year into 1969..2068, keeping its last two digits. |
| BotUtilities.YearOfField | utils/bot_utilities.py:112-115 | A four-digit year is read as written. A two-digit year is placed in 1969..2068 with the same last two digits. |
| BotUtilities.GetDateFromStr | utils/bot_utilities.py:102-117 | None iff `is_date` rejects the string. With a year, the result is the date of the written month, day and year, or ValueError iff that date does not exist. Without a year, ValueError iff month and day do not exist in 1900; otherwise the written month and day in the current year. A date that `is_date` accepts only through its final "\n" raises ValueError. |
| BotUtilities.IntendedAgreesWithYear | utils/bot_utilities.py:112-115 | With a year in the string, the corrected reading and the written one agree. |
| BotUtilities.LeapDayRefused | utils/bot_utilities.py:106-111 | As written, "2/29" raises ValueError even when the current year is a leap year. |
| BotUtilities.GetDateFromStrIntended | utils/bot_utilities.py:106-111 | Corrected: None iff `is_date` rejects; a month/day without a year is read iff it is a valid date of the current year. |
| BotUtilities.LeapDayIntended | utils/bot_utilities.py:106-111 | Corrected: "2/29" in a leap year gives 29 February of that year. |
| BotUtilities.SecondsToMmSs | utils/bot_utilities.py:129-130 | For t ≥ 0: digits, ':', two digits; seconds below 60; 60·minutes + seconds = floor(t). A negative floor gives a leading '-'. |
| BotUtilities.MinutesAndSeconds | utils/bot_utilities.py:129-130 | The `{:02}:{:02}` formatting of a minute and second pair with seconds in 0..59. |
| BotUtilities.ConvertedDateScans | utils/bot_utilities.py:134-135 | The `%m/%d/%Y` text of a date in years 1000..9999 scans back into its zero-padded month, day and four-digit year. |
| BotUtilities.DateStringRoundTrip | utils/bot_utilities.py:134-135 | `get_date_from_str(convert_date_to_str(d)) == d` for years 1000..9999. |
| BotUtilities.EmojiClassSimplified | utils/bot_utilities.py:226-248 | The emoji character class is exactly U+200D, U+231A, U+23CF, U+23E9 and every character from U+24C2 up. |
| BotUtilities.RemoveEmojis | utils/bot_utilities.py:225-249 | The result holds no emoji and is a subsequence of the input. Every non-emoji character occurs in it exactly as often as in the input. |
| BotUtilities.RemoveEmojisKeepsPlainText | utils/bot_utilities.py:225-249 | Text without emoji is returned unchanged. |
| BotUtilities.RemoveEmojisIdempotent | utils/bot_utilities.py:225-249 | Removing twice equals removing once. |
| BaseDataHandler.PuzzleByDateAffine | data/base_data_handler.py:70-71 | The anchor date maps to the anchor puzzle, and the next day to the next puzzle. |
| BaseDataHandler.PuzzleBySubtractDays | data/base_data_handler.py:70-71 | k days earlier is k puzzles earlier. |
| BaseDataHandler.PuzzleByDateInjective | data/base_data_handler.py:70-71 | Different dates have different puzzle ids. |
| BaseDataHandler.PuzzlesByWeek | data/base_data_handler.py:73-77 | A Sunday gives seven consecutive ids starting at its own; anything else gives []. |
| BaseDataHandler.WeekHoldsItsDays | data/base_data_handler.py:73-77 | The week list of a date's week start contains that date's puzzle. |
| BaseDataHandler.MonthLength | data/base_data_handler.py:82-93 | The current month stops at today's day. Any other month has its calendar length. The count is at least 1. |
| BaseDataHandler.FebruaryLength | data/base_data_handler.py:85-89 | A February other than the current one has 29 days iff the year is a Gregorian leap year, and 28 otherwise. |
| BaseDataHandler.GetPuzzlesByMonth | data/base_data_handler.py:95-101 | The loop yields as many ids as the month has days. They start at day 1's id and rise by one. |
| BaseDataHandler.Store.RemoveEntry | data/base_data_handler.py:34-39 | Only the (puzzle, user) entry is deleted. The result is true iff that entry existed. Users are unchanged. |
| BaseDataHandler.Store.UserExists | data/base_data_handler.py:41-45 | True iff the user is registered. |
| BaseDataHandler.Store.EntryExists | data/base_data_handler.py:47-51 | True iff the (puzzle, user) entry is present. |
| BaseDataHandler.Store.GetAllPuzzles | data/base_data_handler.py:104-108 | Distinct ids: exactly the puzzles that have some entry. |
| BaseDataHandler.Store.GetAllPlayers | data/base_data_handler.py:114-118 | Distinct ids: exactly the registered users. |
| BaseDataHandler.Store.GetPuzzlesByPlayer | data/base_data_handler.py:120-124 | Distinct ids: exactly the puzzles the user has entries for. |
| BaseDataHandler.Store.GetPlayersByPuzzleId | data/base_data_handler.py:126-130 | Distinct ids: exactly the users with an entry for the puzzle. |
| PipsData.PipsDatabaseHandler.constructor | data/pips.py:17-23 | Empty tables; the anchor is 2025-12-04 ↦ puzzle 109. |
| PipsData.LevelFromTitle | data/pips.py:131-139 | A level's name occurs in the lowercased title, and no name of higher priority (easy, medium, hard) does. |
| PipsData.FirstRun | data/pips.py:64 | None iff the title has no digit or comma. Otherwise it is the first maximal run of digits and commas. |
| PipsData.PuzzleIdOfRun | data/pips.py:73 | The run with its commas removed is read as a number. A run of commas alone raises ValueError. |
| PipsData.CommasIgnored | data/pips.py:73 | A comma anywhere in the run does not change the id. |
| PipsData.TitleNamesPuzzle | data/pips.py:64-73 | A title whose first digits are the decimal form of n names puzzle n. |
| PipsData.MmSsOfDigits | data/pips.py:151-156 | Any two non-empty digit fields around one ':' read as 60·minutes + seconds. |
| PipsData.MmSsReadsBack | data/pips.py:151-156 | A string of at least two minute digits, ':' and exactly two second digits (the shape `seconds_to_mm_ss` writes) reads back as 60·minutes + seconds. |
| PipsData.MmSsNeedsColon | data/pips.py:151-159 | Text without ':' gives None. |
| PipsData.MmSsRoundTrip | data/pips.py:141-159 | `__mm_ss_to_seconds(seconds_to_mm_ss(n)) == n` for every n ≥ 0. |
| PipsData.ReadSubmission | data/pips.py:64-67 | The cookie flag is set iff 🍪 occurs in the body. |
| PipsData.CookieLeavesTimeAlone | data/pips.py:65-67 | Taking every 🍪 out of the body leaves the time unchanged and clears the flag. |
| PipsData.PipsRow.With | data/pips.py:88-92 | Writing a level sets its seconds and cookie. Every other level's columns are kept. |
| PipsData.AddEntryOutcome | data/pips.py:63-101 | Returns True iff level, number and time are usable. Returns False iff the level is unknown or the title has no run. Raises ValueError iff the run is commas only. |
| PipsData.AddEntryRefusedChangesNothing | data/pips.py:69-75 | A refused submission leaves both tables unchanged. |
| PipsData.AddEntryTouchesOneRow | data/pips.py:88-101 | Only the (puzzle, user) row can change, and only on success. |
| PipsData.AddEntryRecordsLevel | data/pips.py:88-101 | On success the row holds the submitted level's time and cookie. The other levels keep their old values, or are empty for a new row. |
| PipsData.AddEntryRegistersUser | data/pips.py:80-86 | A new user is registered under the nickname once level and number are read. Existing users are untouched. |
| PipsData.AddEntryBadTime | data/pips.py:88-101 | An unreadable time makes the database refuse the write. The user stays registered and no entry changes. |
| PipsData.AddEntryLastWins | data/pips.py:88-94 | Resubmitting the same level of the same puzzle overwrites it in the one row. |
| PipsData.ToEntry | data/pips.py:119-124 | A row becomes an entry tagged with the puzzle and the user, with the same times and cookies. |
| PipsData.PipsDatabaseHandler.AddEntry | data/pips.py:63-101 | The returned outcome and the new tables are those of the add_entry specification on the old tables. |
| PipsData.PipsDatabaseHandler.Record | data/pips.py:69-101 | The same, once the title and body are read. |
| PipsData.PipsDatabaseHandler.GetEntriesByPlayer | data/pips.py:107-125 | One entry per puzzle. Exactly the user's entries, restricted to the list when it is non-empty, each equal to its stored row. |
| PipsData.PipsDatabaseHandler.PlayerStats | models/pips.py:17-27 | The stats are `PipsPlayerStats` of the user's puzzles (exactly those with a row for the user) and of the user's entries (one per row of a selected puzzle, each equal to its row). Missed games are 0 iff every listed puzzle was played, and equal the list length iff none was. With no selected entries, all seven stats are -1. |
| PipsModels.MissedGames | models/pips.py:27 | At most the length of the puzzle list. |
| PipsModels.NoMissedGames | models/pips.py:27 | Zero iff every listed puzzle is among the player's. |
| PipsModels.AllMissedGames | models/pips.py:27 | Equal to the list length iff no listed puzzle is among the player's. |
| PipsModels.Timed | models/pips.py:30-32 | Exactly the entries with that level's seconds set, each as many times as in the input. |
| PipsModels.FullyTimed | models/pips.py:65-71 | Exactly the entries with all three levels timed, each as many times as in the input. |
| PipsModels.CookiesOf | models/pips.py:49-63 | One value per entry: 1.0 iff the entry has that level's cookie, 0.0 iff not. |
| PipsModels.CookieSumIsCount | models/pips.py:49-63 | The cookie values of the timed entries add up to the number of timed entries with the cookie. |
| PipsModels.CookieRateIsShare | models/pips.py:49-63 | When some entry is timed, the cookie rate is the number of timed entries with the cookie over the number of timed entries. |
| PipsModels.AvgSecondsUntimed | models/pips.py:30-47 | With no entry timed for the level, the level's average is -1. |
| PipsModels.AvgTotalSecondsUntimed | models/pips.py:65-80 | With no entry timed on all three levels, the total average is -1. |
| PipsModels.CookieRateRange | models/pips.py:49-63 | A rate is -1 iff no entry timed that level. Otherwise it lies in [0, 1]. |
| PipsModels.AvgSecondsBetween | models/pips.py:30-47 | A level's average lies between the smallest and the largest time of that level. |
| PipsModels.UntimedEntryIgnored | models/pips.py:30-63 | An entry without that level's time changes neither that level's average nor its cookie rate. |
| PipsModels.PartialEntryIgnoredInTotal | models/pips.py:65-80 | An entry missing any level's time does not change the total average. |
| PipsModels.NewPipsPlayerStats | models/pips.py:17-102 | Rank -1 and missed games within bounds. No entries give -1 for all seven stats, in `get_stat_list` order. Otherwise each stat is the level's average or rate. |
| PipsModels.StatsCookieRatesInRange | models/pips.py:49-63 | Each cookie rate of the constructed stats is -1 or in [0, 1]. |
| Members.ConfirmEntries | cogs/members.py:21-25 | An unset variable means true. A set value gives true only with one of the one- or four-letter spellings. |
| Members.ConfirmIgnoresCase | cogs/members.py:21-25 | Values equal up to case decide alike. |
| Members.ConfirmSpellings | cogs/members.py:21-25 | "TRUE", "T" and "1" confirm; "False", "yes" and "" do not. |
| Members.ConfirmExactly | cogs/members.py:21-25 | A set value confirms iff it is "1", or "t" or "true" in any mix of upper and lower case. |
| Members.RouteMessage | cogs/members.py:46-49 | Messages by the bot itself, or without a newline, are ignored. Others are routed on their lines. |
| Members.AcceptsOneLine | cogs/members.py:52-89 | Wordle and Pips accept iff their word is in the stripped first line and their recogniser accepts that line; UNKNOWN accepts nothing. |
| Members.AcceptsTwoLines | cogs/members.py:52-89 | Connections and Strands accept iff their word is in the stripped first line and their recogniser accepts the first two lines joined by "\n". |
| Members.RouteNoneIffNoneAccept | cogs/members.py:52-89 | No route iff no game accepts the message. |
| Members.RouteAccepted | cogs/members.py:52-89 | A route's game accepts the message. Its title is the header, and its body is the remaining lines joined by "\n". |
| Members.RouteIsFirst | cogs/members.py:55-89 | No game tried earlier (Wordle, Connections, Strands, Pips) accepts the message. |
| Members.RouteOfFirstAccepting | cogs/members.py:55-89 | The first accepting game gets the message, with its header and body. |
| Members.TwoLineRouteKeepsText | cogs/members.py:53-78 | For Connections and Strands, title + "\n" + body is the whole message. |
| Members.OneLineRouteKeepsText | cogs/members.py:52-59 | For Wordle and Pips, the stripped first line + "\n" + body is the whole message. |
| Members.WordleHeaderRouted | cogs/members.py:55-59 | A Wordle share line followed by anything goes to Wordle: the line is the title, the rest is the body. |
| Members.StrandsHeaderRouted | cogs/members.py:74-78 | A message starting with a Strands header goes to Strands. |
| Members.PipsHeaderRouted | cogs/members.py:83-85 | A Pips header line followed by anything goes to Pips: the line is the title, the rest is the body. |
| Members.OnMessage | cogs/members.py:44-92 | ✅ iff a game took the message, its add_entry returned True and confirmation is on. ❌ iff add_entry returned False. Otherwise no reaction; a raised error leads to none. |
| Members.GetCommandHandlerAndArgs | cogs/members.py:160-182 | A channel game wins with the arguments unchanged. Otherwise the first argument's game wins and is dropped. Otherwise (None, ()). |
| Owner.GetCommandHandlerAndArgs | cogs/owner.py:41-63 | The same three cases: channel (44-52), first argument (53-62), none (63). |
| Owner.DispatchAgreesWithMembers | cogs/owner.py:41-63 | The owner dispatch equals the members dispatch for every channel and argument list. |
| Owner.Forward | cogs/owner.py:31-39 | remove/add call the dispatched handler's method with the dispatched arguments. No handler raises AttributeError. |
| Owner.GameWordIsConsumed | cogs/owner.py:53-62 | In a channel named after no game, a leading game word picks the handler and is not passed on. |
| Bot.ParseEnvLine | bot.py:22-29 | After strip(), blank lines, comments and lines without '=' are skipped, and every other line gives an entry. The key never holds '=' and has no whitespace at either end. The value never starts or ends with "'". |
| Bot.EnvLinePaddedRoundTrip | bot.py:22-29 | Whitespace around the line, around the key and after '=' is trimmed. One pair of '"' or of "'" around the value is dropped. |
| Bot.EnvLineQuoteOrder | bot.py:29 | '"' is stripped before "'": `KEY='"VALUE"'` keeps the double quotes. |
| Bot.EntryError | bot.py:30-31 | A NUL character in the name or value raises ValueError. An empty name without a NUL in the value raises OSError. |
| Bot.EmptyNameRefused | bot.py:22-31 | A line `=VALUE` names the empty variable, and setting it raises OSError. |
| Bot.EnvLineRoundTrip | bot.py:25-29 | KEY=VALUE reads as (KEY, VALUE), even when VALUE contains '='. |
| Bot.EnvLineQuotedRoundTrip | bot.py:28-29 | KEY="VALUE" reads as (KEY, VALUE). |
| Bot.ErrorStops | bot.py:19-31 | Once a line raises, later lines change nothing. |
| Bot.LoadKeepsExisting | bot.py:30-31 | Without override, variables already set keep their values. |
| Bot.LoadNeverRemoves | bot.py:30-31 | Loading never removes a variable. |
| Bot.FirstWinsWithoutOverride | bot.py:30-31 | Without override, later lines never change a variable once set. |
| Bot.LastWinsWithOverride | bot.py:30-31 | With override, a line setting a key replaces the earlier value. |
| Bot.Environ.LoadEnvFile | bot.py:11-34 | The loop leaves the environment and the escaping error as the line-by-line specification says. A missing file changes nothing. |
| Bot.ParseGuildId | bot.py:57 | An unset variable raises AttributeError. A numeric value gives its decimal value. Any other value gives -1. |
| Bot.GuildIdRoundTrip | bot.py:57 | The decimal form of n gives n. |

## Left out

- SQL text, the MySQL connection and cursor, table creation and `connect` are not modelled. The tables are maps in a `Store` object. Row order of query results is not modelled: results are distinct, in some order.
- `get_nickname` and `get_todays_date` are parameters: the nickname, and today's date or year.
- The image helpers (bokeh, selenium, PIL, matplotlib) are foreign libraries and are not modelled.
- `str.lower` and `str.isnumeric` cover ASCII only. Non-ASCII digits accepted by `isnumeric` are not modelled.
- Digits are ASCII 0-9 throughout. Python's `\d`, strptime's `%m`, `%d`, `%y` and `%Y`, and `int()` also accept every other Unicode decimal digit. So "1/5/٢٠٢٥" is the date 2025-01-05 in Python but not a date in this model, and "Pips #١٠٩ Easy" names puzzle 109 in Python but has no puzzle number in this model.
- `statistics.mean` uses exact reals, not floating point.
- The help menu, the member commands' bodies (cogs/members.py:94-154) and the async plumbing (reactions, `bot.start`, extensions, `on_ready`) are not modelled. Reactions are returned as values.
- The games' own handlers are not part of this model: the Wordle, Connections and Strands `add_entry`, and the handlers' `remove_entry`/`add_score` command bodies. `on_message` takes `add_entry` as a function parameter; the owner commands return the call they would make.
- The author id's `str()` conversion: user ids are integers.
- `os.environ` assignment follows POSIX CPython. A NUL character raises ValueError during conversion, and an empty name is refused by `setenv` with OSError. Other encoding errors and the Windows behaviour are not modelled.
- `WDM_LOG_LEVEL`, `DISCORD_TOKEN` and the choice of the `.env` path are not modelled. The file arrives as its lines, or None when it does not exist.
- `is_sunday`'s `type(query_date) is date` test: dates are typed, so only None is a non-date.
- Dates are limited to years 1..9999, like `datetime.date`. `%Y` round trips are stated for years 1000..9999 because the formatting does not pad shorter years.
- Members.ConfirmEntries: its own contract states only that an unset variable confirms and that a confirming value has one of the allowed lengths. The exact set of confirming values is proved separately in Members.ConfirmExactly.
- Members.StrandsHeaderRouted: states only the game. A Strands title is the first two lines, which Members.RouteAccepted gives in general.

## Findings

| source | as written | input that shows it | evidently intended | confidence | as-written member | corrected member |
|---|---|---|---|---|---|---|
| utils/bot_utilities.py:106-111 | `strptime(date_str, "%m/%d")` checks month and day against the default year 1900, and only then `.replace(year=today)` | "2/29" in a leap year (2028, say): strptime raises ValueError because 1900 is not a leap year | 29 February of the current leap year | high; not executed | BotUtilities.GetDateFromStr, BotUtilities.LeapDayRefused | BotUtilities.GetDateFromStrIntended, BotUtilities.LeapDayIntended |
