/**
 * The pawn of the backend snapshot: up to two quiet steps forward from a
 * starting cell and one elsewhere, a promotion on the last cell of its file,
 * and captures, en passant included, on the two cells beside forward.
 */
module OldPawns {
  import opened Wrappers
  import opened Directions
  import opened Pieces
  import Cells
  import Ranks
  import Files
  import Moves
  import OldCells
  import opened OldMoves
  import OldConstants

  /** `forward_direction`: Clock12 for White, Clock6 for Black. */
  function Forward(colour: Colour): Direction
  {
    if colour == White then Clock12 else Clock6
  }

  /** The two sides advance in opposite directions. */
  lemma ForwardOpposite()
    ensures Forward(Black) == Reverse(Forward(White))
    ensures Forward(White) == Reverse(Forward(Black))
  {
  }

  /** `take(n)`: the first n cells, or all of them when there are fewer. */
  function Take(cells: seq<Cells.Cell>, n: nat): (t: seq<Cells.Cell>)
    ensures |t| <= n && |t| <= |cells| && t == cells[..|t|]
    ensures |t| == n || t == cells
  {
    if |cells| <= n then cells else cells[..n]
  }

  /** The cells a pawn of this colour may advance two from; Black's table is a parameter. */
  function StartingCells(colour: Colour, blackStarting: seq<Cells.Cell>): seq<Cells.Cell>
  {
    if colour == White then OldConstants.WhitePawnStartingCells else blackStarting
  }

  /** The quiet move to an empty cell ahead: a promotion when nothing lies beyond it. */
  function Push(cell: Cells.Cell, forward: Direction): Move
  {
    Move(cell, if OldCells.Step(cell, forward).None? then Promotion else NonCapture)
  }

  /** A push to each of the cells, in order. */
  function Pushes(cells: seq<Cells.Cell>, push: Cells.Cell -> Move): (ms: seq<Move>)
    ensures |ms| == |cells|
    ensures forall i :: 0 <= i < |cells| ==> ms[i] == push(cells[i])
  {
    seq(|cells|, i requires 0 <= i < |cells| => push(cells[i]))
  }

  /** Pushes to a prefix of the cells, split off at the first cell. */
  lemma PushesCons(cells: seq<Cells.Cell>, k: nat, push: Cells.Cell -> Move)
    requires k < |cells|
    ensures Pushes(cells[..k + 1], push) == [push(cells[0])] + Pushes(cells[1..][..k], push)
  {
    assert cells[..k + 1] == [cells[0]] + cells[1..][..k];
  }

  /** The accumulator step of the forward fold: the first occupied cell stops the advance and is not taken. */
  function AdvanceStep(acc: (seq<Move>, bool), cell: Cells.Cell, push: Cells.Cell -> Move, occ: Moves.Occupancy): (seq<Move>, bool)
  {
    if acc.1 then acc
    else if cell in occ then (acc.0, true)
    else (acc.0 + [push(cell)], false)
  }

  /** A left fold of AdvanceStep over the cells. */
  function Advance(cells: seq<Cells.Cell>, push: Cells.Cell -> Move, occ: Moves.Occupancy, acc: (seq<Move>, bool)): (seq<Move>, bool)
    decreases |cells|
  {
    if cells == [] then acc
    else Advance(cells[1..], push, occ, AdvanceStep(acc, cells[0], push, occ))
  }

  /** Once the fold has met an occupied cell, it keeps what it has. */
  lemma {:induction false} AdvanceStopped(cells: seq<Cells.Cell>, push: Cells.Cell -> Move, occ: Moves.Occupancy, ms: seq<Move>)
    ensures Advance(cells, push, occ, (ms, true)) == (ms, true)
    decreases |cells|
  {
    if cells != [] {
      AdvanceStopped(cells[1..], push, occ, ms);
    }
  }

  /** The fold pushes to the leading empty cells and stops at the first occupied one. */
  lemma {:induction false} AdvanceIsPushes(cells: seq<Cells.Cell>, push: Cells.Cell -> Move, occ: Moves.Occupancy, ms: seq<Move>)
    ensures Advance(cells, push, occ, (ms, false)).0 == ms + Pushes(cells[..Moves.FirstOccupied(cells, occ)], push)
    decreases |cells|
  {
    if cells != [] {
      var c, rest := cells[0], cells[1..];
      if c in occ {
        AdvanceStopped(rest, push, occ, ms);
        assert Moves.FirstOccupied(cells, occ) == 0;
        assert Pushes(cells[..0], push) == [];
      } else {
        var next := ms + [push(c)];
        AdvanceIsPushes(rest, push, occ, next);
        var k := Moves.FirstOccupied(rest, occ);
        assert Moves.FirstOccupied(cells, occ) == k + 1;
        PushesCons(cells, k, push);
        assert next + Pushes(rest[..k], push) == ms + Pushes(cells[..k + 1], push);
      }
    }
  }

  /** The steps ahead of cell the pawn may take: two from a starting cell, one elsewhere. */
  function Steps(colour: Colour, cell: Cells.Cell, blackStarting: seq<Cells.Cell>): seq<Cells.Cell>
  {
    Take(OldCells.Ray(cell, Forward(colour)), if cell in StartingCells(colour, blackStarting) then 2 else 1)
  }

  /** The forward half of `Pawn::valid_moves`. */
  function ForwardMoves(colour: Colour, cell: Cells.Cell, blackStarting: seq<Cells.Cell>, occ: Moves.Occupancy): seq<Move>
  {
    Advance(Steps(colour, cell, blackStarting), c => Push(c, Forward(colour)), occ, ([], false)).0
  }

  /** The cell an en-passant capture onto target would clear: one step back from the target. */
  function Victim(target: Cells.Cell, colour: Colour, occ: Moves.Occupancy): Option<Cells.Cell>
  {
    match OldCells.Step(target, Reverse(Forward(colour)))
    case None => None
    case Some(e) =>
      if e in occ && occ[e].colour != colour && occ[e].kind == Pawn && occ[e].enPassantAble then Some(e) else None
  }

  /**
   * One candidate of the capture half: a capture of an enemy, nothing on a
   * friendly piece, and on an empty cell an en-passant capture when the cell
   * behind it holds an enemy pawn that may be taken so.
   */
  function Strike(target: Option<Cells.Cell>, colour: Colour, occ: Moves.Occupancy): seq<Move>
  {
    match target
    case None => []
    case Some(c) =>
      if c in occ then
        if occ[c].colour != colour then [Move(c, Capture)] else []
      else
        match Victim(c, colour, occ)
        case None => []
        case Some(e) => [Move(c, EnPassant(e))]
  }

  /** The two cells beside forward, one turn either way. */
  function Diagonals(colour: Colour, cell: Cells.Cell): seq<Option<Cells.Cell>>
  {
    [OldCells.Step(cell, TurnClockwise(Forward(colour))), OldCells.Step(cell, TurnCounterClockwise(Forward(colour)))]
  }

  /** The capture half of `Pawn::valid_moves`. */
  function CaptureMoves(colour: Colour, cell: Cells.Cell, occ: Moves.Occupancy): seq<Move>
  {
    var ds := Diagonals(colour, cell);
    Strike(ds[0], colour, occ) + Strike(ds[1], colour, occ)
  }

  /**
   * `Pawn::valid_moves` for a pawn of this colour on cell, which the source
   * reads from `board.current`: the forward moves, then the captures.
   */
  function ValidMoves(colour: Colour, cell: Cells.Cell, blackStarting: seq<Cells.Cell>, occ: Moves.Occupancy): seq<Move>
  {
    ForwardMoves(colour, cell, blackStarting, occ) + CaptureMoves(colour, cell, occ)
  }

  /** Pushes to empty cells: each lands on one of them, and is a promotion exactly when nothing lies beyond it. */
  lemma PushesShape(cells: seq<Cells.Cell>, forward: Direction, occ: Moves.Occupancy)
    requires forall i :: 0 <= i < |cells| ==> cells[i] !in occ
    ensures forall m :: m in Pushes(cells, c => Push(c, forward)) ==>
      && m.cell in cells && m.cell !in occ
      && (m.moveType == Promotion || m.moveType == NonCapture)
      && (m.moveType == Promotion <==> OldCells.Step(m.cell, forward).None?)
  {
    var ms := Pushes(cells, c => Push(c, forward));
    forall m | m in ms
      ensures m.cell in cells && m.cell !in occ
    {
      var i :| 0 <= i < |ms| && ms[i] == m;
      assert m.cell == cells[i];
    }
  }

  /**
   * The forward moves: pushes to the empty cells ahead, up to two from a
   * starting cell and one elsewhere, stopping before the first occupied cell;
   * a push is a promotion exactly when nothing lies beyond its cell.
   */
  lemma ForwardMovesShape(colour: Colour, cell: Cells.Cell, blackStarting: seq<Cells.Cell>, occ: Moves.Occupancy)
    ensures var ms, steps := ForwardMoves(colour, cell, blackStarting, occ), Steps(colour, cell, blackStarting);
      && ms == Pushes(steps[..Moves.FirstOccupied(steps, occ)], c => Push(c, Forward(colour)))
      && |ms| <= (if cell in StartingCells(colour, blackStarting) then 2 else 1)
      && (forall m :: m in ms ==> m.cell in OldCells.Ray(cell, Forward(colour)) && m.cell !in occ)
      && (forall m :: m in ms ==> m.moveType == Promotion || m.moveType == NonCapture)
      && (forall m :: m in ms ==> (m.moveType == Promotion <==> OldCells.Step(m.cell, Forward(colour)).None?))
  {
    var steps := Steps(colour, cell, blackStarting);
    var ray := OldCells.Ray(cell, Forward(colour));
    var k := Moves.FirstOccupied(steps, occ);
    AdvanceIsPushes(steps, c => Push(c, Forward(colour)), occ, []);
    PushesShape(steps[..k], Forward(colour), occ);
    forall x | x in steps[..k]
      ensures x in ray
    {
      var i :| 0 <= i < k && steps[i] == x;
      assert ray[i] == x;
    }
  }

  /** A piece on the cell straight ahead blocks every forward move. */
  lemma Blocked(colour: Colour, cell: Cells.Cell, blackStarting: seq<Cells.Cell>, occ: Moves.Occupancy)
    requires OldCells.Step(cell, Forward(colour)).Some? && OldCells.Step(cell, Forward(colour)).value in occ
    ensures ForwardMoves(colour, cell, blackStarting, occ) == []
  {
    ForwardMovesShape(colour, cell, blackStarting, occ);
    var steps := Steps(colour, cell, blackStarting);
    assert steps[0] == OldCells.Ray(cell, Forward(colour))[0];
    assert Moves.FirstOccupied(steps, occ) == 0;
  }

  /**
   * One candidate of the capture half yields at most one move, onto the
   * candidate: a capture exactly when it holds an enemy, and an en-passant
   * capture exactly when it is empty and the cell behind it holds an enemy
   * pawn that may be taken en passant, which the move then clears.
   */
  lemma StrikeShape(target: Option<Cells.Cell>, colour: Colour, occ: Moves.Occupancy)
    ensures |Strike(target, colour, occ)| <= 1
    ensures forall m :: m in Strike(target, colour, occ) ==> target == Some(m.cell)
    ensures forall m :: m in Strike(target, colour, occ) ==> m.moveType == Capture || m.moveType.EnPassant?
    ensures target.Some? && target.value in occ && occ[target.value].colour != colour ==>
      Strike(target, colour, occ) == [Move(target.value, Capture)]
    ensures target.Some? && target.value in occ && occ[target.value].colour == colour ==>
      Strike(target, colour, occ) == []
    ensures forall m :: m in Strike(target, colour, occ) && m.moveType.EnPassant? ==>
      var e := m.moveType.removePieceOn;
      && m.cell !in occ
      && OldCells.Step(m.cell, Reverse(Forward(colour))) == Some(e)
      && e in occ && occ[e].colour != colour && occ[e].kind == Pawn && occ[e].enPassantAble
    ensures forall e ::
      (&& target.Some? && target.value !in occ && OldCells.Step(target.value, Reverse(Forward(colour))) == Some(e)
       && e in occ && occ[e].colour != colour && occ[e].kind == Pawn && occ[e].enPassantAble) ==>
      Strike(target, colour, occ) == [Move(target.value, EnPassant(e))]
  {
  }

  /**
   * `(piece as &dyn Any).downcast_ref::<Self>()` as written. `piece` is a
   * reference to the board's `Box<dyn Piece>`, so the `Any` it is cast to is
   * the box itself, and a box is never a `Pawn`: the downcast finds nothing,
   * whatever piece the box holds.
   */
  function BoxedDowncast(p: Piece): Option<Piece>
  {
    None
  }

  /** The victim lookup as written: an enemy behind the target, then the downcast of its box. */
  function VictimAsWritten(target: Cells.Cell, colour: Colour, occ: Moves.Occupancy): Option<Cells.Cell>
  {
    match OldCells.Step(target, Reverse(Forward(colour)))
    case None => None
    case Some(e) =>
      if e in occ && occ[e].colour != colour then
        match BoxedDowncast(occ[e])
        case None => None
        case Some(pawn) => if pawn.enPassantAble then Some(e) else None
      else None
  }

  /** One candidate of the capture half as written, with the victim found through the downcast. */
  function StrikeAsWritten(target: Option<Cells.Cell>, colour: Colour, occ: Moves.Occupancy): seq<Move>
  {
    match target
    case None => []
    case Some(c) =>
      if c in occ then
        if occ[c].colour != colour then [Move(c, Capture)] else []
      else
        match VictimAsWritten(c, colour, occ)
        case None => []
        case Some(e) => [Move(c, EnPassant(e))]
  }

  /**
   * As written, a candidate never yields an en-passant capture: an empty
   * diagonal yields nothing, and an occupied one what the corrected
   * candidate yields.
   */
  lemma NoEnPassantAsWritten(target: Option<Cells.Cell>, colour: Colour, occ: Moves.Occupancy)
    ensures forall m :: m in StrikeAsWritten(target, colour, occ) ==> m.moveType == Capture
    ensures target.Some? && target.value !in occ ==> StrikeAsWritten(target, colour, occ) == []
    ensures target.Some? && target.value in occ ==> StrikeAsWritten(target, colour, occ) == Strike(target, colour, occ)
  {
  }

  /**
   * An enemy pawn open to en passant behind an empty diagonal: the corrected
   * candidate takes it, the one as written offers nothing.
   */
  lemma EnPassantLost(target: Cells.Cell, e: Cells.Cell, colour: Colour, occ: Moves.Occupancy)
    requires target !in occ && OldCells.Step(target, Reverse(Forward(colour))) == Some(e)
    requires e in occ && occ[e].colour != colour && occ[e].kind == Pawn && occ[e].enPassantAble
    ensures Strike(Some(target), colour, occ) == [Move(target, EnPassant(e))]
    ensures StrikeAsWritten(Some(target), colour, occ) == []
  {
  }

  /** Stepping from a placed cell adds the offsets. */
  lemma StepFromPlaced(p: Cells.Cell, d: Direction, q: Cells.Cell, e: Direction)
    requires OldCells.Step(p, d) == Some(q)
    ensures OldCells.Step(q, e) == Cells.Place(
      Ranks.Ord(p.rank) + OldCells.RankDelta(d) + OldCells.RankDelta(e),
      Files.Ord(p.file) + OldCells.FileDelta(d) + OldCells.FileDelta(e))
  {
  }

  /** One step turned off forward and one step back make the step two turns round from forward. */
  lemma TurnThenBack(colour: Colour)
    ensures var f := Forward(colour);
      && OldCells.RankDelta(TurnClockwise(f)) + OldCells.RankDelta(Reverse(f)) == OldCells.RankDelta(TurnClockwise(TurnClockwise(f)))
      && OldCells.FileDelta(TurnClockwise(f)) + OldCells.FileDelta(Reverse(f)) == OldCells.FileDelta(TurnClockwise(TurnClockwise(f)))
      && OldCells.RankDelta(TurnCounterClockwise(f)) + OldCells.RankDelta(Reverse(f)) == OldCells.RankDelta(TurnCounterClockwise(TurnCounterClockwise(f)))
      && OldCells.FileDelta(TurnCounterClockwise(f)) + OldCells.FileDelta(Reverse(f)) == OldCells.FileDelta(TurnCounterClockwise(TurnCounterClockwise(f)))
  {
  }

  /** The victim of an en-passant capture onto the cell turned off forward by turn. */
  lemma VictimAt(colour: Colour, cell: Cells.Cell, turn: Direction, twice: Direction, occ: Moves.Occupancy)
    requires OldCells.Step(cell, turn).Some?
    requires OldCells.RankDelta(turn) + OldCells.RankDelta(Reverse(Forward(colour))) == OldCells.RankDelta(twice)
    requires OldCells.FileDelta(turn) + OldCells.FileDelta(Reverse(Forward(colour))) == OldCells.FileDelta(twice)
    ensures Victim(OldCells.Step(cell, turn).value, colour, occ).Some? ==>
      Victim(OldCells.Step(cell, turn).value, colour, occ) == OldCells.Step(cell, twice)
  {
    StepFromPlaced(cell, turn, OldCells.Step(cell, turn).value, Reverse(Forward(colour)));
  }

  /**
   * The pawn an en-passant capture removes is a neighbour of the capturing
   * pawn: the one two turns round from forward, on the side of the capture.
   */
  lemma VictimBeside(colour: Colour, cell: Cells.Cell, occ: Moves.Occupancy)
    ensures var f := Forward(colour); var ds := Diagonals(colour, cell);
      && (ds[0].Some? && Victim(ds[0].value, colour, occ).Some? ==>
        Victim(ds[0].value, colour, occ) == OldCells.Step(cell, TurnClockwise(TurnClockwise(f))))
      && (ds[1].Some? && Victim(ds[1].value, colour, occ).Some? ==>
        Victim(ds[1].value, colour, occ) == OldCells.Step(cell, TurnCounterClockwise(TurnCounterClockwise(f))))
  {
    var f := Forward(colour);
    TurnThenBack(colour);
    if OldCells.Step(cell, TurnClockwise(f)).Some? {
      VictimAt(colour, cell, TurnClockwise(f), TurnClockwise(TurnClockwise(f)), occ);
    }
    if OldCells.Step(cell, TurnCounterClockwise(f)).Some? {
      VictimAt(colour, cell, TurnCounterClockwise(f), TurnCounterClockwise(TurnCounterClockwise(f)), occ);
    }
  }

  /**
   * The capture half: at most two moves, each onto one of the two cells
   * beside forward, a capture of an enemy or an en-passant capture onto an
   * empty cell.
   */
  lemma CaptureMovesShape(colour: Colour, cell: Cells.Cell, occ: Moves.Occupancy)
    ensures |CaptureMoves(colour, cell, occ)| <= 2
    ensures forall m :: m in CaptureMoves(colour, cell, occ) ==>
      && Some(m.cell) in Diagonals(colour, cell)
      && (m.moveType == Capture || m.moveType.EnPassant?)
      && (m.moveType == Capture ==> m.cell in occ && occ[m.cell].colour != colour)
      && (m.moveType.EnPassant? ==> m.cell !in occ)
  {
    var ds := Diagonals(colour, cell);
    StrikeShape(ds[0], colour, occ);
    StrikeShape(ds[1], colour, occ);
    var a, b := Strike(ds[0], colour, occ), Strike(ds[1], colour, occ);
    forall m: Move | m in a + b
      ensures Some(m.cell) in ds
    {
      if m in a {
        assert ds[0] == Some(m.cell);
      } else {
        assert ds[1] == Some(m.cell);
      }
    }
  }

  /**
   * At most four moves, at most two of them forward: every move is a push
   * along forward to an empty cell (a promotion exactly when nothing lies
   * beyond it), or a capture or en-passant capture onto one of the two cells
   * beside forward; no move lands on a friendly piece.
   */
  lemma ValidMovesShape(colour: Colour, cell: Cells.Cell, blackStarting: seq<Cells.Cell>, occ: Moves.Occupancy)
    ensures |ValidMoves(colour, cell, blackStarting, occ)| <= 4
    ensures forall m :: m in ValidMoves(colour, cell, blackStarting, occ) ==>
      && (m.moveType == Promotion || m.moveType == NonCapture ==>
        m.cell in OldCells.Ray(cell, Forward(colour)) && m.cell !in occ
        && (m.moveType == Promotion <==> OldCells.Step(m.cell, Forward(colour)).None?))
      && (m.moveType == Capture || m.moveType.EnPassant? ==> Some(m.cell) in Diagonals(colour, cell))
      && (m.moveType == Capture ==> m.cell in occ && occ[m.cell].colour != colour)
      && (m.moveType.EnPassant? ==> m.cell !in occ)
      && (m.cell !in occ || occ[m.cell].colour != colour)
  {
    ForwardMovesShape(colour, cell, blackStarting, occ);
    CaptureMovesShape(colour, cell, occ);
  }

  /** A white pawn away from its starting cells advances at most one cell. */
  lemma OneStepAwayFromStart(cell: Cells.Cell, blackStarting: seq<Cells.Cell>, occ: Moves.Occupancy)
    requires cell !in OldConstants.WhitePawnStartingCells
    ensures |ForwardMoves(White, cell, blackStarting, occ)| <= 1
  {
    ForwardMovesShape(White, cell, blackStarting, occ);
  }
}
