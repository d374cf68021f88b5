/** The bishop: slides along the six diagonal (odd-hour) directions. */
module Bishops {
  import opened Ranks
  import opened Files
  import opened Directions
  import opened Cells
  import opened Pieces
  import opened Moves
  import CentreRays

  const WhiteStartingCells: seq<Cell> := [Cell(Rank1, FileF), Cell(Rank2, FileF), Cell(Rank3, FileF)]

  const BlackStartingCells: seq<Cell> := [Cell(Rank9, FileF), Cell(Rank10, FileF), Cell(Rank11, FileF)]

  /** The starting cells, built without the outline check, all lie on the board. */
  lemma StartingCellsValid()
    ensures forall c :: c in WhiteStartingCells + BlackStartingCells ==> Cells.TryNew(c.rank, c.file).Ok?
  {
  }

  /** `Bishop::valid_moves`: the ray casts along Clock1, 3, 5, 7, 9, 11 from the current cell. */
  function ValidMoves(colour: Colour, current: Cell, occ: Occupancy): seq<Move>
  {
    RayCasts(current, colour, DiagonalDirections, occ)
  }

  /**
   * Every bishop move lies on a diagonal ray from the current cell, is neither
   * the current cell nor a friendly piece, and there is at most one capture
   * per diagonal.
   */
  lemma ValidMovesShape(colour: Colour, current: Cell, occ: Occupancy)
    ensures Captures(ValidMoves(colour, current, occ)) <= 6
    ensures forall m :: m in ValidMoves(colour, current, occ) ==>
      && (exists d :: d in DiagonalDirections && m.moveTo in Ray(current, d))
      && m.moveTo != current
      && m.moveType.Rest?
      && (m.moveTo !in occ || occ[m.moveTo].colour != colour)
      && (IsCapture(m) <==> m.moveTo in occ)
  {
    RayCastsShape(current, colour, DiagonalDirections, occ);
  }

  /** On an otherwise empty board a bishop on F6 has 12 quiet moves, two per diagonal. */
  lemma CentreOnEmptyBoard(colour: Colour)
    ensures |ValidMoves(colour, Cells.Default, map[])| == 12
    ensures Captures(ValidMoves(colour, Cells.Default, map[])) == 0
  {
    CentreRays.DiagonalRays();
    EmptyBoardCasts(Cells.Default, colour, DiagonalDirections, 2);
  }
}
