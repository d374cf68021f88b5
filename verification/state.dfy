/**
 * The game state that drives the board from the keyboard: whose turn it is,
 * the cell under the cursor, and the cell whose moves are on show, if any.
 */
module States {
  import opened Wrappers
  import opened Cells
  import Modes
  import opened Entries
  import opened Moves
  import opened Boards
  import PieceMoves
  import Directions

  /** The side to move; White moves first. */
  datatype Turn = White | Black {

    /** `Turn::toggle`: the other side. */
    function Toggle(): (t: Turn)
      ensures t != this
    {
      match this
      case White => Black
      case Black => White
    }
  }

  class State {
    var turn: Turn
    var current: Cell
    var displaying: Option<Cell>

    /**
     * The state agrees with the board: its cursor is a cell of the board and
     * the only entry flagged as the cursor.
     */
    ghost predicate Tracks(board: Board)
      reads this, board
    {
      board.Valid() && Cells.Valid(current) && CursorOn(board.inner, current)
    }

    /** `State::default`: White to move, the cursor on F6, nothing on show. */
    constructor ()
      ensures turn == White && current == Cells.Default && displaying == None
    {
      turn := White;
      current := Cells.Default;
      displaying := None;
    }

    /** `toggle`: the turn passes to the other side. */
    method Toggle()
      modifies this
      ensures turn == old(turn).Toggle() && turn != old(turn)
      ensures current == old(current) && displaying == old(displaying)
    {
      turn := turn.Toggle();
    }

    /**
     * `set_current`: the cursor flag is cleared on the old cursor cell and set
     * on cell, which becomes the state's cursor. The board's own cursor field
     * is not touched.
     */
    method SetCurrent(board: Board, cell: Cell)
      requires Tracks(board) && Cells.Valid(cell)
      modifies this, board
      ensures Tracks(board) && current == cell
      ensures turn == old(turn) && displaying == old(displaying)
      ensures board.depth == old(board.depth) && board.current == old(board.current)
      ensures board.inner == Recursor(old(board.inner), old(current), cell)
    {
      CursorMoves(board.inner, current, cell);
      board.SetCurrentFlag(current, false);
      board.SetCurrentFlag(cell, true);
      current := cell;
    }

    /** `move_current`: the cursor steps along the direction when that cell exists. */
    method MoveCurrent(board: Board, d: Directions.Direction)
      requires Tracks(board)
      modifies this, board
      ensures Tracks(board) && turn == old(turn) && displaying == old(displaying)
      ensures board.depth == old(board.depth) && board.current == old(board.current)
      ensures Next(old(current), d).None? ==> current == old(current) && board.inner == old(board.inner)
      ensures Next(old(current), d).Some? ==>
        current == Next(old(current), d).value && board.inner == Recursor(old(board.inner), old(current), current)
    {
      var next := Next(current, d);
      if next.Some? {
        SetCurrent(board, next.value);
      }
    }

    /**
     * `hide_valid_moves`: when cell holds a piece, every cell its moves name
     * loses its status and nothing is on show any more; on an empty cell
     * nothing changes, not even the record of what is on show.
     */
    method HideValidMoves(cell: Cell, board: Board)
      requires board.Valid() && Cells.Valid(cell)
      modifies this, board
      ensures board.Valid() && board.depth == old(board.depth) && board.current == old(board.current)
      ensures turn == old(turn) && current == old(current)
      ensures old(board.Get(cell)).value.occupant.None? ==> board.inner == old(board.inner) && displaying == old(displaying)
      ensures old(board.Get(cell)).value.occupant.Some? ==>
        var ms := PieceMoves.ValidMoves(old(board.Get(cell)).value.occupant.value, cell, old(board.Occupancy()));
        && MovesOnBoard(ms)
        && board.inner == Marked(board.depth, old(board.inner), ms, Modes.Status.None, Modes.Status.None)
        && displaying == None
    {
      var occupant := board.Get(cell).value.occupant;
      if occupant.None? {
        return;
      }
      var ms := PieceMoves.ValidMoves(occupant.value, cell, board.Occupancy());
      PieceMoves.ValidMovesShape(occupant.value, cell, board.Occupancy());
      var _ := board.MarkMoves(ms, Modes.Status.None, Modes.Status.None);
      displaying := None;
    }

    /**
     * `show_valid_moves`: when the cursor cell holds a piece, the cells its
     * moves name are marked Capturable or Movable, and the cursor cell is on
     * show exactly when there was at least one move; on an empty cell nothing
     * changes.
     */
    method ShowValidMoves(board: Board)
      requires board.Valid() && Cells.Valid(current)
      modifies this, board
      ensures board.Valid() && board.depth == old(board.depth) && board.current == old(board.current)
      ensures turn == old(turn) && current == old(current)
      ensures old(board.Get(current)).value.occupant.None? ==> board.inner == old(board.inner) && displaying == old(displaying)
      ensures old(board.Get(current)).value.occupant.Some? ==>
        var ms := PieceMoves.ValidMoves(old(board.Get(current)).value.occupant.value, current, old(board.Occupancy()));
        && MovesOnBoard(ms)
        && board.inner == Marked(board.depth, old(board.inner), ms, Modes.Status.Capturable, Modes.Status.Movable)
        && displaying == (if ms != [] then Some(current) else None)
    {
      var occupant := board.Get(current).value.occupant;
      if occupant.None? {
        return;
      }
      var ms := PieceMoves.ValidMoves(occupant.value, current, board.Occupancy());
      PieceMoves.ValidMovesShape(occupant.value, current, board.Occupancy());
      var shown := board.MarkMoves(ms, Modes.Status.Capturable, Modes.Status.Movable);
      displaying := if shown then Some(current) else None;
    }

    /** `toggle_valid_moves`: hides what is on show, or shows the moves from the cursor when nothing is. */
    method ToggleValidMoves(board: Board)
      requires board.Valid() && Cells.Valid(current)
      requires displaying.Some? ==> Cells.Valid(displaying.value)
      modifies this, board
      ensures board.Valid() && board.depth == old(board.depth) && board.current == old(board.current)
      ensures turn == old(turn) && current == old(current)
      ensures old(displaying).Some? && old(board.Get(displaying.value)).value.occupant.None? ==>
        board.inner == old(board.inner) && displaying == old(displaying)
      ensures old(displaying).Some? && old(board.Get(displaying.value)).value.occupant.Some? ==>
        var cell := old(displaying).value;
        var ms := PieceMoves.ValidMoves(old(board.Get(cell)).value.occupant.value, cell, old(board.Occupancy()));
        && MovesOnBoard(ms)
        && board.inner == Marked(board.depth, old(board.inner), ms, Modes.Status.None, Modes.Status.None)
        && displaying == None
      ensures old(displaying).None? && old(board.Get(current)).value.occupant.None? ==>
        board.inner == old(board.inner) && displaying == None
      ensures old(displaying).None? && old(board.Get(current)).value.occupant.Some? ==>
        var ms := PieceMoves.ValidMoves(old(board.Get(current)).value.occupant.value, current, old(board.Occupancy()));
        && MovesOnBoard(ms)
        && board.inner == Marked(board.depth, old(board.inner), ms, Modes.Status.Capturable, Modes.Status.Movable)
        && displaying == (if ms != [] then Some(current) else None)
    {
      match displaying {
        case Some(cell) => HideValidMoves(cell, board);
        case None => ShowValidMoves(board);
      }
    }
  }

  /**
   * Toggling the move preview twice on a board that shows nothing gives the
   * board back: the hide recomputes the same moves, because the show moved no
   * piece, and clears exactly the cells the show marked.
   */
  method ToggleTwice(s: State, board: Board)
    requires board.Valid() && Cells.Valid(s.current) && s.displaying == None && NoStatus(board.inner)
    modifies s, board
    ensures board.Valid() && s.displaying == None
    ensures board.inner == old(board.inner) && s.current == old(s.current)
  {
    ghost var es := board.inner;
    ghost var before := board.Occupancy();
    s.ToggleValidMoves(board);
    if s.displaying == None {
      s.ToggleValidMoves(board);
      return;
    }
    ghost var p := old(board.Get(s.current)).value.occupant.value;
    ghost var ms := PieceMoves.ValidMoves(p, s.current, before);
    MarkedKeepsOccupants(board.depth, es, ms, Modes.Status.Capturable, Modes.Status.Movable);
    MarkedCells(board.depth, es, ms, Modes.Status.Capturable, Modes.Status.Movable);
    assert board.Occupancy() == before;
    s.ToggleValidMoves(board);
    ShowThenHide(board.depth, es, ms);
  }
}
