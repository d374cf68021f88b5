/** The king: one step in any of the twelve directions. */
module Kings {
  import opened Wrappers
  import opened Ranks
  import opened Files
  import opened Directions
  import opened Cells
  import opened Pieces
  import opened Moves
  import CentreRays

  const WhiteStartingCell: Cell := Cell(Rank1, FileG)

  const BlackStartingCell: Cell := Cell(Rank10, FileG)

  /** The starting cells, built without the outline check, lie on the board. */
  lemma StartingCellsValid()
    ensures Cells.TryNew(WhiteStartingCell.rank, WhiteStartingCell.file).Ok?
    ensures Cells.TryNew(BlackStartingCell.rank, BlackStartingCell.file).Ok?
  {
  }

  /** The cells one step from current along each of dirs, in order. */
  function Neighbours(current: Cell, dirs: seq<Direction>): (ns: seq<Option<Cell>>)
    ensures |ns| == |dirs|
    ensures forall i :: 0 <= i < |dirs| ==> ns[i] == Next(current, dirs[i])
  {
    seq(|dirs|, i requires 0 <= i < |dirs| => Next(current, dirs[i]))
  }

  /** `King::valid_moves`: land on the neighbour in each direction, Clock1 to Clock12. */
  function ValidMoves(colour: Colour, current: Cell, occ: Occupancy): seq<Move>
  {
    Landings(Neighbours(current, AllDirections), colour, occ)
  }

  /**
   * At most twelve king moves, each one step from the current cell (so never
   * the current cell), never onto a friendly piece, and a capture exactly when
   * the cell is occupied.
   */
  lemma ValidMovesShape(colour: Colour, current: Cell, occ: Occupancy)
    ensures |ValidMoves(colour, current, occ)| <= 12
    ensures forall m :: m in ValidMoves(colour, current, occ) ==>
      && (exists d :: Next(current, d) == Some(m.moveTo))
      && m.moveTo != current
      && m.moveType.Rest?
      && (m.moveTo !in occ || occ[m.moveTo].colour != colour)
      && (IsCapture(m) <==> m.moveTo in occ)
  {
    var ns := Neighbours(current, AllDirections);
    LandingsShape(ns, colour, occ);
    forall m | m in ValidMoves(colour, current, occ)
      ensures exists d :: Next(current, d) == Some(m.moveTo)
      ensures m.moveTo != current
    {
      var i :| 0 <= i < |ns| && ns[i] == Some(m.moveTo);
      var d := AllDirections[i];
      assert Next(current, d) == Some(m.moveTo);
      NextMoves(current, d);
    }
  }

  /** On an otherwise empty board a king on F6 reaches all twelve neighbours, without capturing. */
  lemma CentreOnEmptyBoard(colour: Colour)
    ensures |ValidMoves(colour, Cells.Default, map[])| == 12
    ensures Captures(ValidMoves(colour, Cells.Default, map[])) == 0
  {
    var ns := Neighbours(Cells.Default, AllDirections);
    forall i | 0 <= i < 12
      ensures ns[i].Some?
    {
      var d := AllDirections[i];
      if IsStraight(d) {
        CentreRays.StraightRayLength(d);
      } else {
        CentreRays.DiagonalRayLength(d);
      }
      RayHead(Cells.Default, d);
    }
    LandingsOnEmptyBoard(ns, colour);
    var ms := ValidMoves(colour, Cells.Default, map[]);
    QuietHasNoCaptures(seq(12, i requires 0 <= i < 12 => ns[i].value));
    assert ms == Quiet(seq(12, i requires 0 <= i < 12 => ns[i].value));
  }
}
