/**
 * The pawn of the legacy snapshot: the backend's pawn rules with forward
 * fixed at Clock12 for both colours, over the unvalidated table. As written
 * it reads its starting cells from a lock that nothing ever fills.
 */
module LegacyPawns {
  import opened Wrappers
  import opened Directions
  import opened Pieces
  import opened Ranks
  import Files
  import Cells
  import Moves
  import LegacyCells
  import opened OldMoves
  import OldPawns

  /**
   * What `WHITE_PAWN_STARTING_LOCATIONS.get()` yields: the lock is declared
   * `const`, so every use makes a fresh, empty one, and nothing sets it.
   */
  const StartingLocations: Option<set<Cells.Cell>> := None

  /** `forward_direction`: Clock12, whatever the pawn's colour. */
  const Forward: Direction := Clock12

  /** The quiet move to an empty cell ahead: a promotion when nothing lies beyond it. */
  function Push(cell: Cells.Cell): Move
  {
    Move(cell, if LegacyCells.NextCell(cell, Forward).None? then Promotion else NonCapture)
  }

  /** Without the outline test, a push promotes exactly on the top rank, whatever the file. */
  lemma PromotionOnTopRank(cell: Cells.Cell)
    ensures Push(cell).moveType == Promotion <==> cell.rank == Rank11
  {
    LegacyCells.NextCellIsOffset(cell, Forward);
    if Ranks.Ord(cell.rank) == 10 {
      Ranks.OrdInjective(cell.rank, Rank11);
    }
  }

  /** The cells ahead the pawn may take: two from a starting cell, one elsewhere. */
  function Steps(location: Cells.Cell, starting: set<Cells.Cell>): seq<Cells.Cell>
  {
    OldPawns.Take(LegacyCells.Ray(location, Forward), if location in starting then 2 else 1)
  }

  /** The forward half of `valid_moves`, given the starting cells. */
  function ForwardMoves(location: Cells.Cell, starting: set<Cells.Cell>, occ: Moves.Occupancy): seq<Move>
  {
    OldPawns.Advance(Steps(location, starting), Push, occ, ([], false)).0
  }

  /** The cell an en-passant capture onto target would clear: one step back from the target. */
  function Victim(target: Cells.Cell, colour: Colour, occ: Moves.Occupancy): Option<Cells.Cell>
  {
    match LegacyCells.NextCell(target, Reverse(Forward))
    case None => None
    case Some(e) =>
      if e in occ && occ[e].colour != colour && occ[e].kind == Pawn && occ[e].enPassantAble then Some(e) else None
  }

  /**
   * One candidate of the capture half: a capture of an enemy, nothing on a
   * friendly piece, and on an empty cell an en-passant capture when the cell
   * behind it holds an enemy pawn that may be taken so.
   */
  function Strike(target: Option<Cells.Cell>, colour: Colour, occ: Moves.Occupancy): seq<Move>
  {
    match target
    case None => []
    case Some(c) =>
      if c in occ then
        if occ[c].colour != colour then [Move(c, Capture)] else []
      else
        match Victim(c, colour, occ)
        case None => []
        case Some(e) => [Move(c, EnPassant(e))]
  }

  /** The two cells beside forward: Clock2 and Clock10, one turn either way. */
  function Diagonals(location: Cells.Cell): seq<Option<Cells.Cell>>
  {
    [LegacyCells.NextCell(location, TurnClockwise(Forward)), LegacyCells.NextCell(location, TurnCounterClockwise(Forward))]
  }

  /** The capture half of `valid_moves`. */
  function CaptureMoves(location: Cells.Cell, colour: Colour, occ: Moves.Occupancy): seq<Move>
  {
    var ds := Diagonals(location);
    Strike(ds[0], colour, occ) + Strike(ds[1], colour, occ)
  }

  /** `valid_moves` once the starting cells are known: the forward moves, then the captures. */
  function MovesFrom(location: Cells.Cell, colour: Colour, starting: set<Cells.Cell>, occ: Moves.Occupancy): seq<Move>
  {
    ForwardMoves(location, starting, occ) + CaptureMoves(location, colour, occ)
  }

  /**
   * `valid_moves` as written: the lookup of the starting cells through the
   * lock either finds them, or fails with the message of its `expect`.
   */
  function ValidMoves(lock: Option<set<Cells.Cell>>, location: Cells.Cell, colour: Colour, occ: Moves.Occupancy): (r: Result<seq<Move>>)
    ensures r.Err? <==> lock.None?
  {
    match lock
    case None => Err("[Fatal]: STARTING_LOCATIONS should be already initialized")
    case Some(starting) => Ok(MovesFrom(location, colour, starting, occ))
  }

  /** As written, every call fails: the lock it reads is always empty. */
  lemma AlwaysFails(location: Cells.Cell, colour: Colour, occ: Moves.Occupancy)
    ensures ValidMoves(StartingLocations, location, colour, occ).Err?
  {
  }

  /** Pushes to empty cells: each lands on one of them, and is a promotion exactly when nothing lies beyond it. */
  lemma PushesShape(cells: seq<Cells.Cell>, occ: Moves.Occupancy)
    requires forall i :: 0 <= i < |cells| ==> cells[i] !in occ
    ensures forall m :: m in OldPawns.Pushes(cells, Push) ==>
      && m.cell in cells && m.cell !in occ
      && (m.moveType == Promotion || m.moveType == NonCapture)
      && (m.moveType == Promotion <==> LegacyCells.NextCell(m.cell, Forward).None?)
  {
    var ms := OldPawns.Pushes(cells, Push);
    forall m | m in ms
      ensures m.cell in cells && m.cell !in occ
    {
      var i :| 0 <= i < |ms| && ms[i] == m;
      assert m.cell == cells[i];
    }
  }

  /**
   * The forward moves: pushes to the empty cells ahead along Clock12, up to
   * two from a starting cell and one elsewhere, stopping before the first
   * occupied cell; a push is a promotion exactly when nothing lies beyond it.
   */
  lemma ForwardMovesShape(location: Cells.Cell, starting: set<Cells.Cell>, occ: Moves.Occupancy)
    ensures var ms, steps := ForwardMoves(location, starting, occ), Steps(location, starting);
      && ms == OldPawns.Pushes(steps[..Moves.FirstOccupied(steps, occ)], Push)
      && |ms| <= (if location in starting then 2 else 1)
      && (forall m :: m in ms ==> m.cell in LegacyCells.Ray(location, Forward) && m.cell !in occ)
      && (forall m :: m in ms ==> m.moveType == Promotion || m.moveType == NonCapture)
      && (forall m :: m in ms ==> (m.moveType == Promotion <==> LegacyCells.NextCell(m.cell, Forward).None?))
  {
    var steps := Steps(location, starting);
    var ray := LegacyCells.Ray(location, Forward);
    var k := Moves.FirstOccupied(steps, occ);
    OldPawns.AdvanceIsPushes(steps, Push, occ, []);
    PushesShape(steps[..k], occ);
    forall x | x in steps[..k]
      ensures x in ray
    {
      var i :| 0 <= i < k && steps[i] == x;
      assert ray[i] == x;
    }
  }

  /** A piece on the cell straight ahead blocks every forward move. */
  lemma Blocked(location: Cells.Cell, starting: set<Cells.Cell>, occ: Moves.Occupancy)
    requires LegacyCells.NextCell(location, Forward).Some? && LegacyCells.NextCell(location, Forward).value in occ
    ensures ForwardMoves(location, starting, occ) == []
  {
    ForwardMovesShape(location, starting, occ);
    var steps := Steps(location, starting);
    assert steps[0] == LegacyCells.Ray(location, Forward)[0];
    assert Moves.FirstOccupied(steps, occ) == 0;
  }

  /**
   * One candidate of the capture half yields at most one move, onto the
   * candidate: a capture exactly when it holds an enemy, and an en-passant
   * capture exactly when it is empty and the cell behind it holds an enemy
   * pawn that may be taken en passant, which the move then clears.
   */
  lemma StrikeShape(target: Option<Cells.Cell>, colour: Colour, occ: Moves.Occupancy)
    ensures |Strike(target, colour, occ)| <= 1
    ensures forall m :: m in Strike(target, colour, occ) ==> target == Some(m.cell)
    ensures forall m :: m in Strike(target, colour, occ) ==> m.moveType == Capture || m.moveType.EnPassant?
    ensures target.Some? && target.value in occ && occ[target.value].colour != colour ==>
      Strike(target, colour, occ) == [Move(target.value, Capture)]
    ensures target.Some? && target.value in occ && occ[target.value].colour == colour ==>
      Strike(target, colour, occ) == []
    ensures forall m :: m in Strike(target, colour, occ) && m.moveType.EnPassant? ==>
      var e := m.moveType.removePieceOn;
      && m.cell !in occ
      && LegacyCells.NextCell(m.cell, Clock6) == Some(e)
      && e in occ && occ[e].colour != colour && occ[e].kind == Pawn && occ[e].enPassantAble
    ensures forall e ::
      (&& target.Some? && target.value !in occ && LegacyCells.NextCell(target.value, Clock6) == Some(e)
       && e in occ && occ[e].colour != colour && occ[e].kind == Pawn && occ[e].enPassantAble) ==>
      Strike(target, colour, occ) == [Move(target.value, EnPassant(e))]
  {
  }

  /**
   * The victim lookup as written: an enemy behind the target, then the
   * downcast of the `&Box<dyn Piece>` the map holds, which finds no pawn
   * (OldPawns.BoxedDowncast).
   */
  function VictimAsWritten(target: Cells.Cell, colour: Colour, occ: Moves.Occupancy): Option<Cells.Cell>
  {
    match LegacyCells.NextCell(target, Reverse(Forward))
    case None => None
    case Some(e) =>
      if e in occ && occ[e].colour != colour then
        match OldPawns.BoxedDowncast(occ[e])
        case None => None
        case Some(pawn) => if pawn.enPassantAble then Some(e) else None
      else None
  }

  /** One candidate of the capture half as written, with the victim found through the downcast. */
  function StrikeAsWritten(target: Option<Cells.Cell>, colour: Colour, occ: Moves.Occupancy): seq<Move>
  {
    match target
    case None => []
    case Some(c) =>
      if c in occ then
        if occ[c].colour != colour then [Move(c, Capture)] else []
      else
        match VictimAsWritten(c, colour, occ)
        case None => []
        case Some(e) => [Move(c, EnPassant(e))]
  }

  /**
   * As written, a candidate never yields an en-passant capture: an empty
   * diagonal yields nothing, and an occupied one what the corrected
   * candidate yields.
   */
  lemma NoEnPassantAsWritten(target: Option<Cells.Cell>, colour: Colour, occ: Moves.Occupancy)
    ensures forall m :: m in StrikeAsWritten(target, colour, occ) ==> m.moveType == Capture
    ensures target.Some? && target.value !in occ ==> StrikeAsWritten(target, colour, occ) == []
    ensures target.Some? && target.value in occ ==> StrikeAsWritten(target, colour, occ) == Strike(target, colour, occ)
  {
  }

  /**
   * An enemy pawn open to en passant behind an empty diagonal: the corrected
   * candidate takes it, the one as written offers nothing.
   */
  lemma EnPassantLost(target: Cells.Cell, e: Cells.Cell, colour: Colour, occ: Moves.Occupancy)
    requires target !in occ && LegacyCells.NextCell(target, Clock6) == Some(e)
    requires e in occ && occ[e].colour != colour && occ[e].kind == Pawn && occ[e].enPassantAble
    ensures Strike(Some(target), colour, occ) == [Move(target, EnPassant(e))]
    ensures StrikeAsWritten(Some(target), colour, occ) == []
  {
  }

  /**
   * The pawn an en-passant capture removes is a neighbour of the capturing
   * pawn: on Clock4 for a capture onto Clock2, on Clock8 for one onto
   * Clock10.
   */
  lemma VictimBeside(location: Cells.Cell, colour: Colour, occ: Moves.Occupancy)
    ensures var ds := Diagonals(location);
      && (ds[0].Some? && Victim(ds[0].value, colour, occ).Some? ==>
        Victim(ds[0].value, colour, occ) == LegacyCells.NextCell(location, Clock4))
      && (ds[1].Some? && Victim(ds[1].value, colour, occ).Some? ==>
        Victim(ds[1].value, colour, occ) == LegacyCells.NextCell(location, Clock8))
  {
    var ds := Diagonals(location);
    assert TurnClockwise(Forward) == Clock2 && TurnCounterClockwise(Forward) == Clock10 && Reverse(Forward) == Clock6;
    if ds[0].Some? {
      BackFromDiagonal(location, Clock2, Clock4);
    }
    if ds[1].Some? {
      BackFromDiagonal(location, Clock10, Clock8);
    }
  }

  /** One step along turn and one back along Clock6 make one step along beside. */
  lemma BackFromDiagonal(location: Cells.Cell, turn: Direction, beside: Direction)
    requires LegacyCells.NextCell(location, turn).Some?
    requires (turn == Clock2 && beside == Clock4) || (turn == Clock10 && beside == Clock8)
    ensures LegacyCells.NextCell(LegacyCells.NextCell(location, turn).value, Clock6) == LegacyCells.NextCell(location, beside)
  {
    var n := LegacyCells.NextCell(location, turn).value;
    LegacyCells.NextCellIsOffset(location, turn);
    LegacyCells.NextCellIsOffset(location, beside);
    LegacyCells.NextCellIsOffset(n, Clock6);
    var a, b := LegacyCells.NextCell(n, Clock6), LegacyCells.NextCell(location, beside);
    if a.Some? && b.Some? {
      Ranks.OrdInjective(a.value.rank, b.value.rank);
      Files.OrdInjective(a.value.file, b.value.file);
    }
  }

  /**
   * The capture half: at most two moves, each onto one of the two cells
   * beside forward, a capture of an enemy or an en-passant capture onto an
   * empty cell.
   */
  lemma CaptureMovesShape(location: Cells.Cell, colour: Colour, occ: Moves.Occupancy)
    ensures |CaptureMoves(location, colour, occ)| <= 2
    ensures forall m :: m in CaptureMoves(location, colour, occ) ==>
      && Some(m.cell) in Diagonals(location)
      && (m.moveType == Capture || m.moveType.EnPassant?)
      && (m.moveType == Capture ==> m.cell in occ && occ[m.cell].colour != colour)
      && (m.moveType.EnPassant? ==> m.cell !in occ)
  {
    var ds := Diagonals(location);
    StrikeShape(ds[0], colour, occ);
    StrikeShape(ds[1], colour, occ);
    var a, b := Strike(ds[0], colour, occ), Strike(ds[1], colour, occ);
    forall m: Move | m in a + b
      ensures Some(m.cell) in ds
    {
      if m in a {
        assert ds[0] == Some(m.cell);
      } else {
        assert ds[1] == Some(m.cell);
      }
    }
  }

  /**
   * Once the starting cells are known: at most four moves, at most two of
   * them forward along Clock12 whatever the colour; every move is a push to
   * an empty cell (a promotion exactly when nothing lies beyond it), or a
   * capture or en-passant capture onto one of the two cells beside forward;
   * no move lands on a friendly piece.
   */
  lemma MovesFromShape(location: Cells.Cell, colour: Colour, starting: set<Cells.Cell>, occ: Moves.Occupancy)
    ensures |MovesFrom(location, colour, starting, occ)| <= 4
    ensures forall m :: m in MovesFrom(location, colour, starting, occ) ==>
      && (m.moveType == Promotion || m.moveType == NonCapture ==>
        m.cell in LegacyCells.Ray(location, Forward) && m.cell !in occ
        && (m.moveType == Promotion <==> LegacyCells.NextCell(m.cell, Forward).None?))
      && (m.moveType == Capture || m.moveType.EnPassant? ==> Some(m.cell) in Diagonals(location))
      && (m.moveType == Capture ==> m.cell in occ && occ[m.cell].colour != colour)
      && (m.moveType.EnPassant? ==> m.cell !in occ)
      && (m.cell !in occ || occ[m.cell].colour != colour)
  {
    ForwardMovesShape(location, starting, occ);
    CaptureMovesShape(location, colour, occ);
  }

  /** With the lock filled, the lookup succeeds and yields the moves from the starting cells it holds. */
  lemma FilledLock(starting: set<Cells.Cell>, location: Cells.Cell, colour: Colour, occ: Moves.Occupancy)
    ensures ValidMoves(Some(starting), location, colour, occ) == Ok(MovesFrom(location, colour, starting, occ))
    ensures |ValidMoves(Some(starting), location, colour, occ).value| <= 4
  {
    MovesFromShape(location, colour, starting, occ);
  }
}
