/**
 * The owner-only commands of cogs/owner.py: remove and add pick a game
 * handler the same way the member commands do and hand it the remaining
 * arguments. The cog keeps its own copy of the dispatch; it is modelled
 * as written and proved to agree with the members' one.
 */
module Owner {
  import opened Wrappers
  import opened NytGame
  import opened BotUtilities
  import Members

  /** get_command_handler_and_args of the owner cog. */
  function GetCommandHandlerAndArgs(channelName: string, args: seq<string>): (r: (Option<NYTGame>, seq<string>))
    ensures GameFromChannel(channelName) != Unknown ==> r == (Some(GameFromChannel(channelName)), args)
    ensures GameFromChannel(channelName) == Unknown && |args| > 0 && GameFromChannel(args[0]) != Unknown ==>
      r == (Some(GameFromChannel(args[0])), args[1..])
    ensures GameFromChannel(channelName) == Unknown && (|args| == 0 || GameFromChannel(args[0]) == Unknown) ==>
      r == (None, [])
  {
    match GameFromChannel(channelName)
    case Connections => (Some(Connections), args)
    case Strands => (Some(Strands), args)
    case Wordle => (Some(Wordle), args)
    case Pips => (Some(Pips), args)
    case Unknown =>
      match GameFromCommand(args)
      case Connections => (Some(Connections), args[1..])
      case Strands => (Some(Strands), args[1..])
      case Wordle => (Some(Wordle), args[1..])
      case Pips => (Some(Pips), args[1..])
      case Unknown => (None, [])
  }

  /** Both cogs send a command to the same handler with the same arguments. */
  lemma DispatchAgreesWithMembers(channelName: string, args: seq<string>)
    ensures GetCommandHandlerAndArgs(channelName, args) == Members.GetCommandHandlerAndArgs(channelName, args)
  {
    var g := GameFromChannel(channelName);
    if g == Unknown && |args| > 0 {
      var h := GameFromChannel(args[0]);
    }
  }

  /** The two owner commands and the handler method each one calls. */
  datatype OwnerCommand = RemoveEntry | AddScore

  /** A handler method called with the arguments handed on. */
  datatype HandlerCall = HandlerCall(game: NYTGame, command: OwnerCommand, args: seq<string>)

  /**
   * remove / add: the dispatched handler's remove_entry or add_score is
   * called with the dispatched arguments. With no handler the method is
   * looked up on None, which raises AttributeError; the cog does not catch it.
   */
  function Forward(command: OwnerCommand, channelName: string, args: seq<string>): (r: Try<HandlerCall>)
    ensures r.Raises? <==> GetCommandHandlerAndArgs(channelName, args).0.None?
    ensures r.Raises? ==> r.error == AttributeError
    ensures r.Returns? ==>
      && Some(r.value.game) == GetCommandHandlerAndArgs(channelName, args).0
      && r.value.command == command
      && r.value.args == GetCommandHandlerAndArgs(channelName, args).1
  {
    var (handler, handlerArgs) := GetCommandHandlerAndArgs(channelName, args);
    match handler
    case None => Raises(AttributeError)
    case Some(game) => Returns(HandlerCall(game, command, handlerArgs))
  }

  /** In a channel named after no game, a leading game word picks the handler and is not handed on. */
  lemma GameWordIsConsumed(command: OwnerCommand, channelName: string, word: string, rest: seq<string>)
    requires GameFromChannel(channelName) == Unknown && GameFromChannel(word) != Unknown
    ensures Forward(command, channelName, [word] + rest) == Returns(HandlerCall(GameFromChannel(word), command, rest))
  {
    assert ([word] + rest)[0] == word;
    assert ([word] + rest)[1..] == rest;
  }
}
