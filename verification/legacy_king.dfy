/**
 * The king of the legacy snapshot, declared there under the name `Queen`:
 * one step in any of the twelve directions over the unvalidated table.
 */
module LegacyKings {
  import opened Wrappers
  import opened Directions
  import opened Pieces
  import Cells
  import Ranks
  import Files
  import Moves
  import OldCells
  import LegacyCells
  import opened OldMoves

  /** The neighbour along each direction, in clock order. */
  function Neighbours(location: Cells.Cell): (ns: seq<Option<Cells.Cell>>)
    ensures |ns| == 12
    ensures forall i :: 0 <= i < 12 ==> ns[i] == LegacyCells.NextCell(location, AllDirections[i])
  {
    seq(12, i requires 0 <= i < 12 => LegacyCells.NextCell(location, AllDirections[i]))
  }

  /** `valid_moves`: the landings on the twelve neighbours of the location. */
  function ValidMoves(colour: Colour, location: Cells.Cell, occ: Moves.Occupancy): seq<Move>
  {
    Landings(Neighbours(location), colour, occ)
  }

  /** No direction of the legacy table leaves a cell where it is. */
  lemma NextCellMoves(p: Cells.Cell, d: Direction)
    ensures LegacyCells.NextCell(p, d) != Some(p)
  {
    LegacyCells.NextCellIsOffset(p, d);
  }

  /**
   * At most twelve moves; each goes to a neighbour of the location, never the
   * location itself nor a friendly piece, and is a capture exactly when the
   * cell is occupied.
   */
  lemma ValidMovesShape(colour: Colour, location: Cells.Cell, occ: Moves.Occupancy)
    ensures |ValidMoves(colour, location, occ)| <= 12
    ensures forall m :: m in ValidMoves(colour, location, occ) ==>
      && (exists d :: LegacyCells.NextCell(location, d) == Some(m.cell))
      && m.cell != location
      && (m.moveType == Capture || m.moveType == NonCapture)
      && (m.cell !in occ || occ[m.cell].colour != colour)
      && (m.moveType == Capture <==> m.cell in occ)
  {
    var ns := Neighbours(location);
    LandingsShape(ns, colour, occ);
    forall m | m in ValidMoves(colour, location, occ)
      ensures exists d :: LegacyCells.NextCell(location, d) == Some(m.cell)
      ensures m.cell != location
    {
      var i :| 0 <= i < 12 && ns[i] == Some(m.cell);
      NextCellMoves(location, AllDirections[i]);
    }
  }

  /** On an empty board every neighbour the table gives is a quiet move. */
  lemma EmptyBoard(colour: Colour, location: Cells.Cell)
    ensures forall d :: LegacyCells.NextCell(location, d).Some? ==>
      Move(LegacyCells.NextCell(location, d).value, NonCapture) in ValidMoves(colour, location, map[])
  {
    var ns := Neighbours(location);
    forall d | LegacyCells.NextCell(location, d).Some?
      ensures Move(LegacyCells.NextCell(location, d).value, NonCapture) in ValidMoves(colour, location, map[])
    {
      DirectionTables();
      HourInjective(AllDirections[Hour(d) - 1], d);
      assert ns[Hour(d) - 1] == LegacyCells.NextCell(location, d);
      LandsOnFreeTarget(ns, colour, map[], LegacyCells.NextCell(location, d).value);
    }
  }
}
