/** The king of the backend snapshot: one step in any of the twelve directions. */
module OldKings {
  import opened Wrappers
  import opened Directions
  import opened Pieces
  import Cells
  import Moves
  import OldCells
  import opened OldMoves

  /** The neighbour along each direction, in clock order. */
  function Neighbours(cell: Cells.Cell): (ns: seq<Option<Cells.Cell>>)
    ensures |ns| == 12
    ensures forall i :: 0 <= i < 12 ==> ns[i] == OldCells.Step(cell, AllDirections[i])
  {
    seq(12, i requires 0 <= i < 12 => OldCells.Step(cell, AllDirections[i]))
  }

  /** `King::valid_moves`: the landings on the twelve neighbours of the king's cell. */
  function ValidMoves(colour: Colour, cell: Cells.Cell, occ: Moves.Occupancy): seq<Move>
  {
    Landings(Neighbours(cell), colour, occ)
  }

  /** No direction leaves a cell where it is. */
  lemma StepMoves(p: Cells.Cell, d: Direction)
    ensures OldCells.Step(p, d) != Some(p)
  {
  }

  /**
   * At most twelve moves; each goes to a neighbour of the king's cell, never
   * the cell itself nor a friendly piece, and is a capture exactly when the
   * cell is occupied.
   */
  lemma ValidMovesShape(colour: Colour, cell: Cells.Cell, occ: Moves.Occupancy)
    ensures |ValidMoves(colour, cell, occ)| <= 12
    ensures forall m :: m in ValidMoves(colour, cell, occ) ==>
      && (exists d :: OldCells.Step(cell, d) == Some(m.cell))
      && m.cell != cell
      && (m.moveType == Capture || m.moveType == NonCapture)
      && (m.cell !in occ || occ[m.cell].colour != colour)
      && (m.moveType == Capture <==> m.cell in occ)
  {
    var ns := Neighbours(cell);
    LandingsShape(ns, colour, occ);
    forall m | m in ValidMoves(colour, cell, occ)
      ensures (exists d :: OldCells.Step(cell, d) == Some(m.cell)) && m.cell != cell
    {
      var i :| 0 <= i < 12 && ns[i] == Some(m.cell);
      StepMoves(cell, AllDirections[i]);
    }
  }

  /** On an otherwise empty board a king on F6 has a quiet move to each of its twelve neighbours. */
  lemma CentreOnEmptyBoard(colour: Colour)
    ensures |ValidMoves(colour, Cells.Default, map[])| == 12
    ensures forall m :: m in ValidMoves(colour, Cells.Default, map[]) ==> m.moveType == NonCapture
  {
    var ns := Neighbours(Cells.Default);
    forall i | 0 <= i < 12
      ensures ns[i].Some?
    {
      OldCells.StepAt(Cells.Default, AllDirections[i], Cells.Place(5 + OldCells.RankDelta(AllDirections[i]), 5 + OldCells.FileDelta(AllDirections[i])).value);
    }
    Moves.LandingsOnEmptyBoard(ns, colour);
    LandingsShape(ns, colour, map[]);
  }
}
