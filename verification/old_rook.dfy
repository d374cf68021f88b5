/** The rook of the backend snapshot: slides along the six even-hour directions. */
module OldRooks {
  import opened Directions
  import opened Pieces
  import Cells
  import Moves
  import OldCells
  import opened OldMoves

  /** `Rook::valid_moves`: the casts along Clock2, 4, 6, 8, 10, 12 from the rook's own location. */
  function ValidMoves(colour: Colour, location: Cells.Cell, occ: Moves.Occupancy): seq<Move>
  {
    Casts(location, colour, StraightDirections, occ)
  }

  /**
   * Every rook move lies on a straight ray from its location, is neither that
   * cell nor a friendly piece, and is a capture exactly when the cell is
   * occupied.
   */
  lemma ValidMovesShape(colour: Colour, location: Cells.Cell, occ: Moves.Occupancy)
    ensures forall m :: m in ValidMoves(colour, location, occ) ==>
      && (exists d :: d in StraightDirections && m.cell in OldCells.Ray(location, d))
      && m.cell != location
      && (m.moveType == Capture || m.moveType == NonCapture)
      && (m.cell !in occ || occ[m.cell].colour != colour)
      && (m.moveType == Capture <==> m.cell in occ)
  {
    CastsShape(location, colour, StraightDirections, occ);
  }
}
