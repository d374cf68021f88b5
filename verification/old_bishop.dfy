/** The bishop of the backend snapshot: slides along the six odd-hour directions. */
module OldBishops {
  import opened Directions
  import opened Pieces
  import Cells
  import Moves
  import OldCells
  import opened OldMoves

  /** `Bishop::valid_moves`: the casts along Clock1, 3, 5, 7, 9, 11 from the bishop's cell. */
  function ValidMoves(colour: Colour, cell: Cells.Cell, occ: Moves.Occupancy): seq<Move>
  {
    Casts(cell, colour, DiagonalDirections, occ)
  }

  /**
   * Every bishop move lies on a diagonal ray from its cell, is neither that
   * cell nor a friendly piece, and is a capture exactly when the cell is
   * occupied.
   */
  lemma ValidMovesShape(colour: Colour, cell: Cells.Cell, occ: Moves.Occupancy)
    ensures forall m :: m in ValidMoves(colour, cell, occ) ==>
      && (exists d :: d in DiagonalDirections && m.cell in OldCells.Ray(cell, d))
      && m.cell != cell
      && (m.moveType == Capture || m.moveType == NonCapture)
      && (m.cell !in occ || occ[m.cell].colour != colour)
      && (m.moveType == Capture <==> m.cell in occ)
  {
    CastsShape(cell, colour, DiagonalDirections, occ);
  }
}
