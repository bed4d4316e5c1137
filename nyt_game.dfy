/** The games the bot knows about (utils/nyt_game.py). */
module NytGame {

  datatype NYTGame = Connections | Strands | Wordle | Pips | Unknown
}
