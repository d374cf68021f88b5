/** The queen of the backend snapshot: slides along all twelve directions. */
module OldQueens {
  import opened Directions
  import opened Pieces
  import Cells
  import Moves
  import OldCells
  import opened OldMoves
  import OldBishops
  import OldRooks

  /** `Queen::valid_moves`: the casts along Clock1 to Clock12, in clock order. */
  function ValidMoves(colour: Colour, cell: Cells.Cell, occ: Moves.Occupancy): seq<Move>
  {
    Casts(cell, colour, AllDirections, occ)
  }

  /**
   * The queen moves exactly as a bishop and a rook on the same cell together,
   * counted with multiplicity.
   */
  lemma BishopPlusRook(colour: Colour, cell: Cells.Cell, occ: Moves.Occupancy)
    ensures multiset(ValidMoves(colour, cell, occ)) ==
      multiset(OldBishops.ValidMoves(colour, cell, occ)) + multiset(OldRooks.ValidMoves(colour, cell, occ))
  {
    assert AllDirections == Moves.Interleave(DiagonalDirections, StraightDirections);
    InterleavedCasts(cell, colour, DiagonalDirections, StraightDirections, occ);
  }

  /**
   * Every queen move lies on a ray from its cell, is neither that cell nor a
   * friendly piece, and is a capture exactly when the cell is occupied.
   */
  lemma ValidMovesShape(colour: Colour, cell: Cells.Cell, occ: Moves.Occupancy)
    ensures forall m :: m in ValidMoves(colour, cell, occ) ==>
      && (exists d :: d in AllDirections && m.cell in OldCells.Ray(cell, d))
      && m.cell != cell
      && (m.moveType == Capture || m.moveType == NonCapture)
      && (m.cell !in occ || occ[m.cell].colour != colour)
      && (m.moveType == Capture <==> m.cell in occ)
  {
    CastsShape(cell, colour, AllDirections, occ);
  }
}
