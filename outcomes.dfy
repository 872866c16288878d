/** The result of one step of a game, shared by the game modes. */
module Outcomes {
  /** What one click or move did to a game: nothing, a move after which
      play goes on, a move that won for `piece`, or a move that drew. */
  datatype Outcome = Ignored | Continues | Won(piece: int) | Drawn
}
