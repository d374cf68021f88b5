/** The starting cells of White's pieces in the backend snapshot. */
module OldConstants {
  import opened Wrappers
  import opened Ranks
  import opened Files
  import opened Directions
  import Cells
  import OldCells

  const WhitePawnStartingCells: seq<Cells.Cell> := [
    Cells.Cell(Rank1, FileB), Cells.Cell(Rank2, FileC), Cells.Cell(Rank3, FileD),
    Cells.Cell(Rank4, FileE), Cells.Cell(Rank5, FileF), Cells.Cell(Rank4, FileG),
    Cells.Cell(Rank3, FileH), Cells.Cell(Rank2, FileI), Cells.Cell(Rank1, FileK)]

  const WhiteRookStartingCells: seq<Cells.Cell> := [Cells.Cell(Rank1, FileC), Cells.Cell(Rank1, FileI)]

  const WhiteKnightStartingCells: seq<Cells.Cell> := [Cells.Cell(Rank1, FileD), Cells.Cell(Rank1, FileH)]

  const WhiteKingStartingCell: Cells.Cell := Cells.Cell(Rank1, FileG)

  const WhiteQueenStartingCell: Cells.Cell := Cells.Cell(Rank1, FileE)

  const WhiteBishopStartingCells: seq<Cells.Cell> := [Cells.Cell(Rank1, FileF), Cells.Cell(Rank2, FileF), Cells.Cell(Rank3, FileF)]

  /** Every starting cell, in the order the board inserts them. */
  const AllStartingCells: seq<Cells.Cell> :=
    WhitePawnStartingCells + WhiteKnightStartingCells + WhiteRookStartingCells + WhiteBishopStartingCells
    + [WhiteQueenStartingCell, WhiteKingStartingCell]

  /**
   * The tables are built with the unchecked `Cell::new`, yet every entry lies
   * inside the outline, and no cell is listed twice, so no piece displaces
   * another when the board is filled.
   */
  lemma StartingCellsValid()
    ensures forall i :: 0 <= i < |AllStartingCells| ==> Cells.Valid(AllStartingCells[i])
    ensures |AllStartingCells| == 18
    ensures forall i, j :: 0 <= i < j < |AllStartingCells| ==> AllStartingCells[i] != AllStartingCells[j]
  {
  }

  /**
   * The pawns form a chevron: from B1 each pawn is the Clock1 neighbour of the
   * one before it up to F5, and from there the Clock4 neighbour down to K1.
   */
  lemma PawnChevron()
    ensures forall i :: 0 <= i < 4 ==>
      OldCells.Step(WhitePawnStartingCells[i], Clock1) == Some(WhitePawnStartingCells[i + 1])
    ensures forall i :: 4 <= i < 8 ==>
      OldCells.Step(WhitePawnStartingCells[i], Clock4) == Some(WhitePawnStartingCells[i + 1])
  {
    var p := WhitePawnStartingCells;
    forall i | 0 <= i < 4
      ensures OldCells.Step(p[i], Clock1) == Some(p[i + 1])
    {
      OldCells.StepAt(p[i], Clock1, p[i + 1]);
    }
    forall i | 4 <= i < 8
      ensures OldCells.Step(p[i], Clock4) == Some(p[i + 1])
    {
      OldCells.StepAt(p[i], Clock4, p[i + 1]);
    }
  }
}
