/**
 * The decisions of cogs/members.py: which game a chat message is a
 * submission for and how it is cut into a title and a body, which reaction
 * the bot answers with, the confirm_entries flag, and which game handler a
 * member command goes to. The chat framework is left out: the reaction is
 * returned instead of being added to the message, and a game handler's
 * add_entry is a parameter.
 */
module Members {
  import opened Wrappers
  import opened Text
  import opened NytGame
  import opened BotUtilities

  // ---------------------------------------------------------------- confirm_entries

  const ConfirmKey: string := "CONFIRM_ENTRIES"

  /** confirm_entries: the variable, "True" when unset, lower-cased, is "true", "1" or "t". */
  function ConfirmEntries(env: map<string, string>): (confirm: bool)
    ensures ConfirmKey !in env ==> confirm
    ensures confirm && ConfirmKey in env ==> |env[ConfirmKey]| in {1, 4}
  {
    var value := if ConfirmKey in env then env[ConfirmKey] else "True";
    var lowered := Lower(value);
    assert |lowered| == |value|;
    lowered == "true" || lowered == "1" || lowered == "t"
  }

  /** The flag ignores the case of the value. */
  lemma ConfirmIgnoresCase(env: map<string, string>, v: string, w: string)
    requires Lower(v) == Lower(w)
    ensures ConfirmEntries(env[ConfirmKey := v]) == ConfirmEntries(env[ConfirmKey := w])
  {
  }

  /** Some spellings that turn confirmation on, and some that turn it off. */
  lemma ConfirmSpellings(env: map<string, string>)
    ensures ConfirmEntries(env[ConfirmKey := "TRUE"]) && ConfirmEntries(env[ConfirmKey := "T"])
    ensures ConfirmEntries(env[ConfirmKey := "1"])
    ensures !ConfirmEntries(env[ConfirmKey := "False"]) && !ConfirmEntries(env[ConfirmKey := "yes"])
    ensures !ConfirmEntries(env[ConfirmKey := ""])
  {
    assert Lower("TRUE") == "true";
    assert Lower("T") == "t";
    assert Lower("1") == "1";
    assert |Lower("False")| == 5 && |Lower("yes")| == 3 && Lower("") == "";
  }

  /** c is the lower-case letter x or its capital. */
  predicate IsLetter(c: char, x: char)
    requires 'a' <= x <= 'z'
  {
    c == x || c == (x as int - 32) as char
  }

  /** The spellings of true the flag accepts: "1", "t" or "true", in any mix of case. */
  predicate SpellsTrue(v: string) {
    || v == "1"
    || (|v| == 1 && IsLetter(v[0], 't'))
    || (|v| == 4 && IsLetter(v[0], 't') && IsLetter(v[1], 'r') && IsLetter(v[2], 'u') && IsLetter(v[3], 'e'))
  }

  /** A set value confirms exactly when it is one of those spellings. */
  lemma ConfirmExactly(env: map<string, string>, v: string)
    ensures ConfirmEntries(env[ConfirmKey := v]) <==> SpellsTrue(v)
  {
    var lowered := Lower(v);
    if |v| == 1 {
      LowerCharIs(v[0], 't');
      LowerCharIs(v[0], '1');
      assert lowered == "1" <==> lowered[0] == '1';
      assert lowered == "t" <==> lowered[0] == 't';
      assert v == "1" <==> v[0] == '1';
    } else if |v| == 4 {
      LowerCharIs(v[0], 't');
      LowerCharIs(v[1], 'r');
      LowerCharIs(v[2], 'u');
      LowerCharIs(v[3], 'e');
      assert lowered == "true" <==> lowered[0] == 't' && lowered[1] == 'r' && lowered[2] == 'u' && lowered[3] == 'e';
    }
  }

  lemma LowerCharIs(c: char, x: char)
    ensures 'a' <= x <= 'z' ==> (LowerChar(c) == x <==> IsLetter(c, x))
    ensures x == '1' ==> (LowerChar(c) == x <==> c == x)
  {
  }

  // ---------------------------------------------------------------- routing a message

  /** A recognised submission: the game, the title and the body given to its add_entry. */
  datatype Route = Route(game: NYTGame, title: string, body: string)

  /** lines[k:], which is empty when k is past the end. */
  function Drop(lines: seq<string>, k: nat): seq<string> {
    if k <= |lines| then lines[k..] else []
  }

  /** lines[:k], which is the whole list when k is past the end. */
  function Take(lines: seq<string>, k: nat): seq<string> {
    if k <= |lines| then lines[..k] else lines
  }

  /** The order in which on_message tries the games: smaller is tried first. */
  function RouteRank(g: NYTGame): nat {
    match g
    case Wordle => 0
    case Connections => 1
    case Strands => 2
    case Pips => 3
    case Unknown => 4
  }

  /** The word that must occur in the stripped first line. */
  function HeaderWord(g: NYTGame): string {
    match g
    case Wordle => "Wordle"
    case Connections => "Connections"
    case Strands => "Strands"
    case Pips => "Pips"
    case Unknown => ""
  }

  /** Connections and Strands headers take two lines; Wordle and Pips headers one. */
  predicate TwoLineHeader(g: NYTGame) {
    g == Connections || g == Strands
  }

  /** What the game's recogniser is shown: the stripped first line, or the first two lines joined. */
  function HeaderText(g: NYTGame, lines: seq<string>): string
    requires |lines| >= 1
  {
    if TwoLineHeader(g) then Join("\n", Take(lines, 2)) else Strip(lines[0])
  }

  /** The recogniser of each game. */
  predicate Recogniser(g: NYTGame, text: string) {
    match g
    case Wordle => IsWordleSubmission(text)
    case Connections => IsConnectionsSubmission(text)
    case Strands => IsStrandsSubmission(text)
    case Pips => IsPipsSubmission(text)
    case Unknown => false
  }

  /** A game accepts the lines: its word is in the stripped first line and its recogniser accepts its header text. */
  predicate Accepts(g: NYTGame, lines: seq<string>)
    requires |lines| >= 1
  {
    g != Unknown && Contains(Strip(lines[0]), HeaderWord(g)) && Recogniser(g, HeaderText(g, lines))
  }

  /**
   * The routing in on_message. Messages by the bot itself and messages
   * without a newline are ignored; the others are routed by their lines.
   */
  function RouteMessage(authorIsBot: bool, content: string): (r: Option<Route>)
    ensures authorIsBot || '\n' !in content ==> r.None?
    ensures !authorIsBot && '\n' in content ==> |SplitLines(content)| >= 1 && r == RouteLines(SplitLines(content))
  {
    if authorIsBot || '\n' !in content then None
    else
      assert content != [];
      RouteLines(SplitLines(content))
  }

  /** The if/elif chain of on_message over the message's lines. */
  function RouteLines(lines: seq<string>): Option<Route>
    requires |lines| >= 1
  {
    var firstLine := Strip(lines[0]);
    var firstTwoLines := Join("\n", Take(lines, 2));
    if Contains(firstLine, "Wordle") && IsWordleSubmission(firstLine) then
      Some(Route(Wordle, firstLine, Join("\n", Drop(lines, 1))))
    else if Contains(firstLine, "Connections") && IsConnectionsSubmission(firstTwoLines) then
      Some(Route(Connections, firstTwoLines, Join("\n", Drop(lines, 2))))
    else if Contains(firstLine, "Strands") && IsStrandsSubmission(firstTwoLines) then
      Some(Route(Strands, firstTwoLines, Join("\n", Drop(lines, 2))))
    else if Contains(firstLine, "Pips") && IsPipsSubmission(firstLine) then
      Some(Route(Pips, firstLine, Join("\n", Drop(lines, 1))))
    else
      None
  }

  /** The lines after a game's header. */
  function BodyLines(g: NYTGame, lines: seq<string>): seq<string> {
    Drop(lines, if TwoLineHeader(g) then 2 else 1)
  }

  /** Wordle and Pips are tested on their word and their recogniser, both on the stripped first line. */
  lemma AcceptsOneLine(lines: seq<string>)
    requires |lines| >= 1
    ensures var firstLine := Strip(lines[0]);
      && (Accepts(Wordle, lines) <==> Contains(firstLine, "Wordle") && IsWordleSubmission(firstLine))
      && (Accepts(Pips, lines) <==> Contains(firstLine, "Pips") && IsPipsSubmission(firstLine))
      && !Accepts(Unknown, lines)
  {
    assert HeaderText(Wordle, lines) == HeaderText(Pips, lines) == Strip(lines[0]);
  }

  /** Connections and Strands are tested on their word in the stripped first line and the first two lines joined. */
  lemma AcceptsTwoLines(lines: seq<string>)
    requires |lines| >= 1
    ensures var firstTwoLines := Join("\n", Take(lines, 2));
      && (Accepts(Connections, lines) <==> Contains(Strip(lines[0]), "Connections") && IsConnectionsSubmission(firstTwoLines))
      && (Accepts(Strands, lines) <==> Contains(Strip(lines[0]), "Strands") && IsStrandsSubmission(firstTwoLines))
  {
    assert HeaderText(Connections, lines) == HeaderText(Strands, lines) == Join("\n", Take(lines, 2));
  }

  /** Lines that no game accepts are ignored, and lines that some game accepts are not. */
  lemma RouteNoneIffNoneAccept(lines: seq<string>)
    requires |lines| >= 1
    ensures RouteLines(lines).None? <==> forall g :: !Accepts(g, lines)
  {
    var r := RouteLines(lines);
    if r.None? {
      forall g ensures !Accepts(g, lines) {
        match g
        case Wordle =>
        case Connections =>
        case Strands =>
        case Pips =>
        case Unknown =>
      }
    } else {
      assert Accepts(r.value.game, lines);
    }
  }

  /** A routed message goes to a game that accepts it, with that game's header as title and the lines after it as body. */
  lemma RouteAccepted(lines: seq<string>)
    requires |lines| >= 1 && RouteLines(lines).Some?
    ensures var route := RouteLines(lines).value;
      && Accepts(route.game, lines)
      && route.title == HeaderText(route.game, lines)
      && route.body == Join("\n", BodyLines(route.game, lines))
  {
  }

  /** Every game tried before the chosen one refuses the message. */
  lemma RouteIsFirst(lines: seq<string>)
    requires |lines| >= 1 && RouteLines(lines).Some?
    ensures forall g :: RouteRank(g) < RouteRank(RouteLines(lines).value.game) ==> !Accepts(g, lines)
  {
    var game := RouteLines(lines).value.game;
    forall g | RouteRank(g) < RouteRank(game) ensures !Accepts(g, lines) {
      match g
      case Wordle =>
      case Connections =>
      case Strands =>
      case Pips =>
      case Unknown =>
    }
  }

  /** The route's game is the game of the given rank when that game accepts and all earlier ones refuse. */
  lemma RouteOfFirstAccepting(lines: seq<string>, g: NYTGame)
    requires |lines| >= 1 && Accepts(g, lines)
    requires forall h :: RouteRank(h) < RouteRank(g) ==> !Accepts(h, lines)
    ensures RouteLines(lines) == Some(Route(g, HeaderText(g, lines), Join("\n", BodyLines(g, lines))))
  {
    RouteNoneIffNoneAccept(lines);
    RouteAccepted(lines);
    RouteIsFirst(lines);
    var game := RouteLines(lines).value.game;
    assert RouteRank(game) == RouteRank(g);
  }

  /**
   * For a message whose only line breaks are "\n" and that does not end
   * with one, a two-line header and its body make up the whole message:
   * no line is lost or repeated.
   */
  lemma TwoLineRouteKeepsText(lines: seq<string>, content: string)
    requires OnlyNewlineBreaks(content) && content != [] && content[|content| - 1] != '\n'
    requires lines == SplitLines(content) && RouteLines(lines).Some?
    requires TwoLineHeader(RouteLines(lines).value.game)
    ensures var route := RouteLines(lines).value;
      if |lines| > 2 then route.title + "\n" + route.body == content
      else route.title == content && route.body == ""
  {
    RouteAccepted(lines);
    var route := RouteLines(lines).value;
    TwoLinesAndRest(lines, content, route.title, route.body);
  }

  lemma TwoLinesAndRest(lines: seq<string>, content: string, title: string, body: string)
    requires OnlyNewlineBreaks(content) && content != [] && content[|content| - 1] != '\n'
    requires lines == SplitLines(content)
    requires title == Join("\n", Take(lines, 2)) && body == Join("\n", Drop(lines, 2))
    ensures if |lines| > 2 then title + "\n" + body == content else title == content && body == ""
  {
    SplitLinesJoin(content);
    if |lines| > 2 {
      JoinAt("\n", lines, 2);
    } else {
      assert Take(lines, 2) == lines;
    }
  }

  /**
   * The same for a one-line header: the unstripped first line, "\n" and the
   * body make up the message, and the title is that first line stripped.
   */
  lemma OneLineRouteKeepsText(lines: seq<string>, content: string)
    requires OnlyNewlineBreaks(content) && content != [] && content[|content| - 1] != '\n'
    requires lines == SplitLines(content) && RouteLines(lines).Some?
    requires !TwoLineHeader(RouteLines(lines).value.game)
    ensures var route := RouteLines(lines).value;
      && route.title == Strip(lines[0])
      && if |lines| > 1 then lines[0] + "\n" + route.body == content
         else lines[0] == content && route.body == ""
  {
    RouteAccepted(lines);
    SplitLinesJoin(content);
    if |lines| > 1 {
      JoinAt("\n", lines, 1);
      assert lines[..1] == [lines[0]];
    }
  }

  /** A header line: no line break in it, no surrounding whitespace. */
  predicate IsHeaderLine(header: string) {
    && header != []
    && (forall i :: 0 <= i < |header| ==> !IsLineBoundary(header[i]))
    && !IsSpace(header[0]) && !IsSpace(header[|header| - 1])
  }

  /** The lines of a message that starts with a header line. */
  lemma HeaderFirst(header: string, rest: string) returns (lines: seq<string>)
    requires IsHeaderLine(header)
    ensures lines == SplitLines(header + "\n" + rest) && |lines| >= 1
    ensures lines[0] == header && Strip(lines[0]) == header && Drop(lines, 1) == SplitLines(rest)
  {
    SplitLinesAfter(header, rest);
    lines := SplitLines(header + "\n" + rest);
    StripKeeps(header);
  }

  /** A message whose first line is a Wordle result goes to Wordle with that line as the title. */
  lemma WordleHeaderRouted(header: string, rest: string)
    requires IsHeaderLine(header) && IsWordleSubmission(header)
    ensures RouteMessage(false, header + "\n" + rest) == Some(Route(Wordle, header, Join("\n", SplitLines(rest))))
  {
    var lines := HeaderFirst(header, rest);
    WordleHeaderAccepted(lines, header);
    RouteOfFirstAccepting(lines, Wordle);
  }

  lemma WordleHeaderAccepted(lines: seq<string>, header: string)
    requires |lines| >= 1 && lines[0] == header && Strip(header) == header
    requires IsWordleSubmission(header) && header[|header| - 1] != '\n'
    ensures Accepts(Wordle, lines)
    ensures forall h :: RouteRank(h) < RouteRank(Wordle) ==> !Accepts(h, lines)
  {
    assert IsWordleLine(header);
    assert header[..6] == "Wordle";
  }

  /** A message whose first line is a Pips header goes to Pips with that line as the title. */
  lemma PipsHeaderRouted(header: string, rest: string)
    requires IsHeaderLine(header) && IsPipsSubmission(header)
    ensures RouteMessage(false, header + "\n" + rest) == Some(Route(Pips, header, Join("\n", SplitLines(rest))))
  {
    var lines := HeaderFirst(header, rest);
    PipsHeaderAccepted(lines, header);
    RouteOfFirstAccepting(lines, Pips);
  }

  lemma PipsHeaderAccepted(lines: seq<string>, header: string)
    requires |lines| >= 1 && lines[0] == header && Strip(header) == header
    requires IsPipsSubmission(header)
    ensures Accepts(Pips, lines)
    ensures forall h :: RouteRank(h) < RouteRank(Pips) ==> !Accepts(h, lines)
  {
    RecognisersFirstChar(header);
    OneLineInFront(lines, 'P');
    RecognisersFirstChar(Join("\n", Take(lines, 2)));
    assert Contains(header, "Pips");
  }

  /** A message whose first line is a Strands header goes to Strands with its first two lines as the title. */
  lemma StrandsHeaderRouted(header: string, rest: string)
    requires IsHeaderLine(header) && IsStrandsSubmission(header)
    ensures RouteMessage(false, header + "\n" + rest).Some?
    ensures RouteMessage(false, header + "\n" + rest).value.game == Strands
  {
    var lines := HeaderFirst(header, rest);
    StrandsHeaderAccepted(lines, header);
    RouteOfFirstAccepting(lines, Strands);
  }

  lemma StrandsHeaderAccepted(lines: seq<string>, header: string)
    requires |lines| >= 1 && lines[0] == header && Strip(header) == header
    requires IsStrandsSubmission(header)
    ensures Accepts(Strands, lines)
    ensures forall h :: RouteRank(h) < RouteRank(Strands) ==> !Accepts(h, lines)
  {
    StrandsHeaderAccepts(lines, header);
    StrandsHeaderNotWordleOrConnections(lines, header);
  }

  lemma StrandsHeaderAccepts(lines: seq<string>, header: string)
    requires |lines| >= 1 && lines[0] == header && Strip(header) == header
    requires IsStrandsSubmission(header)
    ensures Accepts(Strands, lines)
  {
    StrandsPrefix(lines, header);
    assert HeaderText(Strands, lines) == Join("\n", Take(lines, 2));
    assert Contains(header, "Strands");
  }

  /** A first line starting with 'S' is neither a Wordle nor a Connections header. */
  lemma StrandsHeaderNotWordleOrConnections(lines: seq<string>, header: string)
    requires |lines| >= 1 && lines[0] == header && Strip(header) == header
    requires IsStrandsSubmission(header)
    ensures !Accepts(Wordle, lines) && !Accepts(Connections, lines)
  {
    RecognisersFirstChar(header);
    assert HeaderText(Wordle, lines) == header;
    OneLineInFront(lines, 'S');
    var joined := Join("\n", Take(lines, 2));
    RecognisersFirstChar(joined);
    assert HeaderText(Connections, lines) == joined;
  }

  /** Joining lines keeps the first line's first character in front. */
  lemma OneLineInFront(lines: seq<string>, c: char)
    requires |lines| >= 1 && lines[0] != [] && lines[0][0] == c
    ensures var t := Join("\n", Take(lines, 2)); t != [] && t[0] == c
  {
    if |lines| >= 2 {
      JoinTwo("\n", lines[0], lines[1]);
      assert Take(lines, 2) == [lines[0], lines[1]];
    } else {
      assert Take(lines, 2) == [lines[0]];
    }
  }

  /** The first two lines, joined, start with the first line. */
  lemma StrandsPrefix(lines: seq<string>, header: string)
    requires |lines| >= 1 && lines[0] == header && IsStrandsSubmission(header)
    ensures IsStrandsSubmission(Join("\n", Take(lines, 2)))
  {
    if |lines| >= 2 {
      JoinTwo("\n", lines[0], lines[1]);
      assert Take(lines, 2) == [lines[0], lines[1]];
      PrefixRecognisersIgnoreRest(header, "\n" + lines[1]);
      assert header + "\n" + lines[1] == header + ("\n" + lines[1]);
    } else {
      assert Take(lines, 2) == [lines[0]];
    }
  }

  /** Each recogniser is anchored at the start of its text, so it fixes the first character. */
  lemma RecognisersFirstChar(t: string)
    ensures IsWordleSubmission(t) ==> t != [] && t[0] == 'W'
    ensures IsConnectionsSubmission(t) ==> t != [] && t[0] == 'C'
    ensures IsStrandsSubmission(t) ==> t != [] && t[0] == 'S'
    ensures IsPipsSubmission(t) ==> t != [] && t[0] == 'P'
  {
    if FinalNewlineDropped(t).Some? {
      var u := FinalNewlineDropped(t).value;
      assert u == [] || u[0] == t[0];
    }
  }

  // ---------------------------------------------------------------- reacting

  const Check: string := "\U{2705}"
  const Cross: string := "\U{274C}"

  /**
   * The reaction to a routed message, given what the game's add_entry did:
   * a check mark on success when confirmation is on, a cross on failure, and
   * nothing when add_entry raised, the exception being caught and logged.
   */
  function ReactionFor(outcome: Try<bool>, confirm: bool): Option<string> {
    match outcome
    case Raises(_) => None
    case Returns(added) =>
      if added then (if confirm then Some(Check) else None) else Some(Cross)
  }

  /** on_message: route the message, hand it to the game's add_entry, react to the outcome. */
  function OnMessage(authorIsBot: bool, content: string, confirm: bool, addEntry: Route -> Try<bool>): (reaction: Option<string>)
    ensures reaction == Some(Check) <==>
      RouteMessage(authorIsBot, content).Some? && addEntry(RouteMessage(authorIsBot, content).value) == Returns(true) && confirm
    ensures reaction == Some(Cross) <==>
      RouteMessage(authorIsBot, content).Some? && addEntry(RouteMessage(authorIsBot, content).value) == Returns(false)
    ensures reaction == None || reaction == Some(Check) || reaction == Some(Cross)
  {
    match RouteMessage(authorIsBot, content)
    case None => None
    case Some(route) => ReactionFor(addEntry(route), confirm)
  }

  // ---------------------------------------------------------------- command dispatch

  /**
   * get_command_handler_and_args: the game named by the channel, with the
   * arguments unchanged; otherwise the game named by the first argument,
   * which is dropped; otherwise no handler (None) and no arguments.
   */
  function GetCommandHandlerAndArgs(channelName: string, args: seq<string>): (r: (Option<NYTGame>, seq<string>))
    ensures r.0 != Some(Unknown)
    ensures GameFromChannel(channelName) != Unknown ==> r == (Some(GameFromChannel(channelName)), args)
    ensures GameFromChannel(channelName) == Unknown ==>
      if |args| > 0 && GameFromChannel(args[0]) != Unknown then r == (Some(GameFromChannel(args[0])), args[1..])
      else r == (None, [])
  {
    match GameFromChannel(channelName)
    case Connections => (Some(Connections), args)
    case Strands => (Some(Strands), args)
    case Wordle => (Some(Wordle), args)
    case Pips => (Some(Pips), args)
    case Unknown =>
      match GameFromCommand(args)
      case Connections => (Some(Connections), args[1..])
      case Strands => (Some(Strands), args[1..])
      case Wordle => (Some(Wordle), args[1..])
      case Pips => (Some(Pips), args[1..])
      case Unknown => (None, [])
  }
}
