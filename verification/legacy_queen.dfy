/** The queen of the legacy snapshot: slides along all twelve directions over the unvalidated table. */
module LegacyQueens {
  import opened Directions
  import opened Pieces
  import Cells
  import Moves
  import LegacyCells
  import opened OldMoves
  import LegacyMoves

  /** `Queen::valid_moves`: the casts along Clock1 to Clock12, each seeded with `location.next_cell(d)`. */
  function ValidMoves(colour: Colour, location: Cells.Cell, occ: Moves.Occupancy): seq<Move>
  {
    LegacyMoves.Casts(location, colour, AllDirections, occ)
  }

  /**
   * Every queen move lies on a ray from its cell, is neither that cell nor a
   * friendly piece, and is a capture exactly when the cell is occupied.
   */
  lemma ValidMovesShape(colour: Colour, location: Cells.Cell, occ: Moves.Occupancy)
    ensures forall m :: m in ValidMoves(colour, location, occ) ==>
      && (exists d :: d in AllDirections && m.cell in LegacyCells.Ray(location, d))
      && m.cell != location
      && (m.moveType == Capture || m.moveType == NonCapture)
      && (m.cell !in occ || occ[m.cell].colour != colour)
      && (m.moveType == Capture <==> m.cell in occ)
  {
    LegacyMoves.CastsShape(location, colour, AllDirections, occ);
  }

  /** A queen alone on the board may step to every neighbour the table gives it. */
  lemma AloneReachesNeighbours(colour: Colour, location: Cells.Cell, occ: Moves.Occupancy)
    requires occ.Keys == {location}
    ensures forall d :: LegacyCells.NextCell(location, d).Some? ==>
      Move(LegacyCells.NextCell(location, d).value, NonCapture) in ValidMoves(colour, location, occ)
  {
    forall d | LegacyCells.NextCell(location, d).Some?
      ensures Move(LegacyCells.NextCell(location, d).value, NonCapture) in ValidMoves(colour, location, occ)
    {
      DirectionTables();
      LegacyMoves.FirstCellQuiet(location, colour, d, occ);
      LegacyMoves.CastInCasts(location, colour, AllDirections, d, occ);
    }
  }
}
