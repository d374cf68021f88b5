/** The queen: slides along all twelve directions. */
module Queens {
  import opened Ranks
  import opened Files
  import opened Directions
  import opened Cells
  import opened Pieces
  import opened Moves
  import Bishops
  import Rooks

  const WhiteStartingCell: Cell := Cell(Rank1, FileE)

  const BlackStartingCell: Cell := Cell(Rank10, FileE)

  /** The starting cells, built without the outline check, lie on the board. */
  lemma StartingCellsValid()
    ensures Cells.TryNew(WhiteStartingCell.rank, WhiteStartingCell.file).Ok?
    ensures Cells.TryNew(BlackStartingCell.rank, BlackStartingCell.file).Ok?
  {
  }

  /** `Queen::valid_moves`: the ray casts along Clock1 to Clock12, in clock order. */
  function ValidMoves(colour: Colour, current: Cell, occ: Occupancy): seq<Move>
  {
    RayCasts(current, colour, AllDirections, occ)
  }

  /** Clock order alternates the diagonal and the straight directions. */
  lemma ClockOrderInterleaves()
    ensures AllDirections == Interleave(DiagonalDirections, StraightDirections)
  {
  }

  /**
   * The queen moves exactly as a bishop and a rook on the same cell together,
   * counted with multiplicity.
   */
  lemma BishopPlusRook(colour: Colour, current: Cell, occ: Occupancy)
    ensures multiset(ValidMoves(colour, current, occ)) ==
      multiset(Bishops.ValidMoves(colour, current, occ)) + multiset(Rooks.ValidMoves(colour, current, occ))
  {
    ClockOrderInterleaves();
    InterleavedRayCasts(current, colour, DiagonalDirections, StraightDirections, occ);
  }

  /**
   * Every queen move lies on a ray from the current cell, is neither the
   * current cell nor a friendly piece, and there is at most one capture per
   * direction.
   */
  lemma ValidMovesShape(colour: Colour, current: Cell, occ: Occupancy)
    ensures Captures(ValidMoves(colour, current, occ)) <= 12
    ensures forall m :: m in ValidMoves(colour, current, occ) ==>
      && (exists d :: d in AllDirections && m.moveTo in Ray(current, d))
      && m.moveTo != current
      && m.moveType.Rest?
      && (m.moveTo !in occ || occ[m.moveTo].colour != colour)
      && (IsCapture(m) <==> m.moveTo in occ)
  {
    RayCastsShape(current, colour, AllDirections, occ);
  }

  /** On an otherwise empty board a queen on F6 has 42 moves: 12 diagonal and 30 straight. */
  lemma CentreOnEmptyBoard(colour: Colour)
    ensures |ValidMoves(colour, Cells.Default, map[])| == 42
  {
    BishopPlusRook(colour, Cells.Default, map[]);
    Bishops.CentreOnEmptyBoard(colour);
    Rooks.CentreOnEmptyBoard(colour);
    assert |multiset(ValidMoves(colour, Cells.Default, map[]))| == 42;
  }
}
