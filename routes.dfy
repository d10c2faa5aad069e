/** The three navigation destinations and the arguments they carry. */
module Routes {
  datatype Route =
    | Rules                        // the rules and setup screen
    | Game(chancesLeft: int)       // the game screen, with the chosen chance count
    | GameOver(isWinner: bool)     // the win/lose popup
}
