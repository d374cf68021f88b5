/**
 * The rook of the legacy snapshot: slides along the six straight
 * directions. As written, each slide starts on the rook's own cell.
 */
module LegacyRooks {
  import opened Wrappers
  import opened Directions
  import opened Pieces
  import opened Ranks
  import opened Files
  import Cells
  import Moves
  import LegacyCells
  import opened OldMoves
  import LegacyMoves

  /** The slide along d as written: `successors(Some(location), ..)`, so the location comes first. */
  function SeededCast(location: Cells.Cell, colour: Colour, d: Direction, occ: Moves.Occupancy): seq<Move>
  {
    Slide([location] + LegacyCells.Ray(location, d), colour, occ)
  }

  /** The flat map of SeededCast over the directions, in order. */
  function SeededCasts(location: Cells.Cell, colour: Colour, dirs: seq<Direction>, occ: Moves.Occupancy): seq<Move>
  {
    if dirs == [] then [] else SeededCast(location, colour, dirs[0], occ) + SeededCasts(location, colour, dirs[1..], occ)
  }

  /** `Rook::valid_moves` as written. */
  function ValidMovesAsWritten(colour: Colour, location: Cells.Cell, occ: Moves.Occupancy): seq<Move>
  {
    SeededCasts(location, colour, StraightDirections, occ)
  }

  /** A slide whose first cell holds a piece of the mover's colour emits nothing. */
  lemma FriendFirst(cells: seq<Cells.Cell>, colour: Colour, occ: Moves.Occupancy)
    requires |cells| > 0 && cells[0] in occ && occ[cells[0]].colour == colour
    ensures Slide(cells, colour, occ) == []
  {
    SlidePrefix(cells, colour, occ);
  }

  /** With the rook standing on its own cell, every seeded slide stops before it starts. */
  lemma {:induction false} SeededCastsBlocked(location: Cells.Cell, colour: Colour, dirs: seq<Direction>, occ: Moves.Occupancy)
    requires location in occ && occ[location].colour == colour
    ensures SeededCasts(location, colour, dirs, occ) == []
    decreases |dirs|
  {
    if dirs != [] {
      FriendFirst([location] + LegacyCells.Ray(location, dirs[0]), colour, occ);
      SeededCastsBlocked(location, colour, dirs[1..], occ);
    }
  }

  /**
   * As written, a rook that stands on its cell in the board's map has no
   * moves at all, whatever else is on the board.
   */
  lemma SelfBlocked(colour: Colour, location: Cells.Cell, occ: Moves.Occupancy)
    requires location in occ && occ[location].colour == colour
    ensures ValidMovesAsWritten(colour, location, occ) == []
  {
    SeededCastsBlocked(location, colour, StraightDirections, occ);
  }

  /** As written, a rook missing from the map is offered a quiet move onto its own cell. */
  lemma OwnCellWhenAbsent(colour: Colour, location: Cells.Cell, occ: Moves.Occupancy)
    requires location !in occ
    ensures Move(location, NonCapture) in ValidMovesAsWritten(colour, location, occ)
  {
    var cells := [location] + LegacyCells.Ray(location, Clock2);
    SlidePrefix(cells, colour, occ);
    assert SeededCast(location, colour, Clock2, occ)[0] == Move(location, NonCapture);
    assert ValidMovesAsWritten(colour, location, occ)[0] == Move(location, NonCapture);
  }

  /** `Rook::valid_moves` with each slide seeded by `location.next_cell(d)`, as the queen of the same snapshot does. */
  function ValidMoves(colour: Colour, location: Cells.Cell, occ: Moves.Occupancy): seq<Move>
  {
    LegacyMoves.Casts(location, colour, StraightDirections, occ)
  }

  /**
   * Every move lies on a straight ray from the location, is neither the
   * location nor a friendly piece, and is a capture exactly when its cell is
   * occupied.
   */
  lemma ValidMovesShape(colour: Colour, location: Cells.Cell, occ: Moves.Occupancy)
    ensures forall m :: m in ValidMoves(colour, location, occ) ==>
      && (exists d :: d in StraightDirections && m.cell in LegacyCells.Ray(location, d))
      && m.cell != location
      && (m.moveType == Capture || m.moveType == NonCapture)
      && (m.cell !in occ || occ[m.cell].colour != colour)
      && (m.moveType == Capture <==> m.cell in occ)
  {
    LegacyMoves.CastsShape(location, colour, StraightDirections, occ);
  }

  /** A rook alone on the board may step to every straight neighbour the table gives it. */
  lemma AloneReachesNeighbours(colour: Colour, location: Cells.Cell, occ: Moves.Occupancy)
    requires occ.Keys == {location}
    ensures forall d :: d in StraightDirections && LegacyCells.NextCell(location, d).Some? ==>
      Move(LegacyCells.NextCell(location, d).value, NonCapture) in ValidMoves(colour, location, occ)
  {
    forall d | d in StraightDirections && LegacyCells.NextCell(location, d).Some?
      ensures Move(LegacyCells.NextCell(location, d).value, NonCapture) in ValidMoves(colour, location, occ)
    {
      LegacyMoves.FirstCellQuiet(location, colour, d, occ);
      LegacyMoves.CastInCasts(location, colour, StraightDirections, d, occ);
    }
  }

  /**
   * A lone rook: as written it has no move, while the seeded version steps to
   * its Clock12 neighbour, which every cell below the top of its file has;
   * from F6 that is F7.
   */
  lemma LoneRook(colour: Colour, location: Cells.Cell)
    requires LegacyCells.NextCell(location, Clock12).Some?
    ensures var occ := map[location := Piece(Rook, colour, false)];
      && ValidMovesAsWritten(colour, location, occ) == []
      && Move(LegacyCells.NextCell(location, Clock12).value, NonCapture) in ValidMoves(colour, location, occ)
    ensures LegacyCells.NextCell(Cells.Cell(Rank6, FileF), Clock12) == Some(Cells.Cell(Rank7, FileF))
  {
    var occ := map[location := Piece(Rook, colour, false)];
    SelfBlocked(colour, location, occ);
    AloneReachesNeighbours(colour, location, occ);
    LegacyCells.NextCellIsOffset(Cells.Cell(Rank6, FileF), Clock12);
  }
}
