/** The rook: slides along the six straight (even-hour) directions. */
module Rooks {
  import opened Ranks
  import opened Files
  import opened Directions
  import opened Cells
  import opened Pieces
  import opened Moves
  import CentreRays

  const WhiteStartingCells: seq<Cell> := [Cell(Rank1, FileC), Cell(Rank1, FileI)]

  const BlackStartingCells: seq<Cell> := [Cell(Rank8, FileC), Cell(Rank8, FileI)]

  /** The starting cells, built without the outline check, all lie on the board. */
  lemma StartingCellsValid()
    ensures forall c :: c in WhiteStartingCells + BlackStartingCells ==> Cells.TryNew(c.rank, c.file).Ok?
  {
  }

  /** `Rook::valid_moves`: the ray casts along Clock2, 4, 6, 8, 10, 12 from the current cell. */
  function ValidMoves(colour: Colour, current: Cell, occ: Occupancy): seq<Move>
  {
    RayCasts(current, colour, StraightDirections, occ)
  }

  /**
   * Every rook move lies on a straight ray from the current cell, is neither
   * the current cell nor a friendly piece, and there is at most one capture
   * per straight line.
   */
  lemma ValidMovesShape(colour: Colour, current: Cell, occ: Occupancy)
    ensures Captures(ValidMoves(colour, current, occ)) <= 6
    ensures forall m :: m in ValidMoves(colour, current, occ) ==>
      && (exists d :: d in StraightDirections && m.moveTo in Ray(current, d))
      && m.moveTo != current
      && m.moveType.Rest?
      && (m.moveTo !in occ || occ[m.moveTo].colour != colour)
      && (IsCapture(m) <==> m.moveTo in occ)
  {
    RayCastsShape(current, colour, StraightDirections, occ);
  }

  /** On an otherwise empty board a rook on F6 has 30 quiet moves, five per line. */
  lemma CentreOnEmptyBoard(colour: Colour)
    ensures |ValidMoves(colour, Cells.Default, map[])| == 30
    ensures Captures(ValidMoves(colour, Cells.Default, map[])) == 0
  {
    CentreRays.StraightRays();
    EmptyBoardCasts(Cells.Default, colour, StraightDirections, 5);
  }
}
