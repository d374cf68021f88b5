/** The pieces on the board: kind, colour and the en-passant flag of a pawn. */
module Pieces {

  /** The two sides; stands in for the terminal colour the source stores. */
  datatype Colour = White | Black

  datatype Kind = Pawn | Knight | Bishop | Rook | Queen | King

  /** A piece. Only pawns use `enPassantAble`; it is false for every other kind. */
  datatype Piece = Piece(kind: Kind, colour: Colour, enPassantAble: bool)

  function Opponent(c: Colour): (o: Colour)
    ensures o != c
  {
    if c == White then Black else White
  }
}
