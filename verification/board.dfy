/**
 * The board of the final snapshot: a vector of entries laid out file by file,
 * and a cursor cell. Highlight writes go through `board[cell]`, which looks
 * the entry up by `board_index`.
 */
module Boards {
  import opened Wrappers
  import Ranks
  import Files
  import opened Ranges
  import opened Depths
  import opened Cells
  import Modes
  import opened Entries
  import opened Pieces
  import opened Moves
  import opened BoardLayout
  import PieceMoves
  import Directions

  /** The cells of the entries, slot by slot. */
  ghost function CellsOf(es: seq<Entry>): (cs: seq<Cell>)
    ensures |cs| == |es|
    ensures forall i :: 0 <= i < |es| ==> cs[i] == es[i].hex.cell
  {
    seq(|es|, i requires 0 <= i < |es| => es[i].hex.cell)
  }

  lemma CellsOfAppend(a: seq<Entry>, b: seq<Entry>)
    ensures CellsOf(a + b) == CellsOf(a) + CellsOf(b)
  {
  }

  /** Appending the entries of the next file's column extends the columns laid so far. */
  lemma ColumnsSnoc(d: Depth, k: nat, fo: int, es: seq<Entry>, col: seq<Entry>)
    requires d.Valid() && fo == LoFile(d) + k < EndFile(d)
    requires CellsOf(es) == DepthColumns(d, k) && CellsOf(col) == ColumnAt(d, fo)
    ensures CellsOf(es + col) == DepthColumns(d, k + 1)
  {
    CellsOfAppend(es, col);
    DepthColumnsStep(d, k);
  }

  /** The highlight `Board::empty` gives a cell: the cursor on F6, nothing elsewhere. */
  function InitialMode(c: Cell): (m: Modes.HighlightMode)
    ensures m.current <==> c == Cells.Default
    ensures m.status == Modes.Status.None
  {
    if c == Cells.Default then Modes.New(true, Modes.Status.None) else Modes.Default
  }

  /** An entry as `Board::empty` creates it: unoccupied, with the initial highlight of its cell. */
  predicate Initial(e: Entry)
  {
    e == Entry(Hexagon(e.hex.cell, InitialMode(e.hex.cell)), None)
  }

  /** Exactly the entry of cell c carries the cursor flag. */
  ghost predicate CursorOn(es: seq<Entry>, c: Cell)
  {
    forall i :: 0 <= i < |es| ==> (es[i].hex.mode.current <==> es[i].hex.cell == c)
  }

  /** No entry carries a move-preview status. */
  ghost predicate NoStatus(es: seq<Entry>)
  {
    forall i :: 0 <= i < |es| ==> es[i].hex.mode.status == Modes.Status.None
  }

  /** The entries after the cursor flag is cleared on cell from and then set on cell to. */
  ghost function Recursor(es: seq<Entry>, from: Cell, to: Cell): (r: seq<Entry>)
  {
    seq(|es|, i requires 0 <= i < |es| =>
      if es[i].hex.cell == to then es[i].WithHex(es[i].hex.SetCurrent(true))
      else if es[i].hex.cell == from then es[i].WithHex(es[i].hex.SetCurrent(false))
      else es[i])
  }

  /**
   * Moving the cursor flag moves the single cursor from one cell to the other,
   * and changes no cell, occupant or status.
   */
  lemma CursorMoves(es: seq<Entry>, from: Cell, to: Cell)
    requires CursorOn(es, from)
    ensures CursorOn(Recursor(es, from, to), to)
    ensures CellsOf(Recursor(es, from, to)) == CellsOf(es)
    ensures forall i :: 0 <= i < |es| ==>
      && Recursor(es, from, to)[i].occupant == es[i].occupant
      && Recursor(es, from, to)[i].hex.mode.status == es[i].hex.mode.status
  {
    assert CellsOf(Recursor(es, from, to)) == CellsOf(es);
  }

  /**
   * The status writes of one move: captures mark their cell with `capture`,
   * quiet moves and promotions with `quiet`; an en-passant capture marks its
   * destination `quiet` and then the captured pawn's cell `capture`.
   */
  function MoveWrites(m: Move, capture: Modes.Status, quiet: Modes.Status): seq<(Cell, Modes.Status)>
  {
    if IsEnPassant(m) then [(m.moveTo, quiet), (m.moveType.pawn.removePieceOn, capture)]
    else [(m.moveTo, if MarksCapture(m.moveType) then capture else quiet)]
  }

  /** An en-passant capture, the one move that writes two cells. */
  predicate IsEnPassant(m: Move)
  {
    m.moveType.PawnMove? && m.moveType.pawn.EnPassant?
  }

  /** The move kinds whose destination gets the capture status: captures and capturing promotions. */
  predicate MarksCapture(t: MoveType)
  {
    match t
    case Rest(Capture) => true
    case PawnMove(NormalCapture) => true
    case PawnMove(CapturePromotion) => true
    case _ => false
  }

  /** The status writes of the moves, in order. */
  function Writes(ms: seq<Move>, capture: Modes.Status, quiet: Modes.Status): seq<(Cell, Modes.Status)>
  {
    if ms == [] then []
    else Writes(ms[..|ms| - 1], capture, quiet) + MoveWrites(ms[|ms| - 1], capture, quiet)
  }

  /** The cells a move names: its destination and, for en passant, the captured pawn's cell. */
  function Named(m: Move): set<Cell>
  {
    if IsEnPassant(m) then {m.moveTo, m.moveType.pawn.removePieceOn}
    else {m.moveTo}
  }

  /** The cells the moves name. */
  function NamedAll(ms: seq<Move>): set<Cell>
  {
    if ms == [] then {} else NamedAll(ms[..|ms| - 1]) + Named(ms[|ms| - 1])
  }

  /** Every cell a move names lies on the board. */
  predicate MovesOnBoard(ms: seq<Move>)
  {
    forall m :: m in ms ==>
      && Cells.Valid(m.moveTo)
      && (IsEnPassant(m) ==> Cells.Valid(m.moveType.pawn.removePieceOn))
  }

  /** Every write names a cell of the board. */
  predicate WritesValid(ws: seq<(Cell, Modes.Status)>)
  {
    forall j :: 0 <= j < |ws| ==> Cells.Valid(ws[j].0)
  }

  /** The writes of one move on the board name cells of the board. */
  predicate MoveWritesOnBoard(m: Move, capture: Modes.Status, quiet: Modes.Status)
  {
    WritesValid(MoveWrites(m, capture, quiet))
  }

  /** The status of the last write to cell c, if any. */
  function LastWrite(ws: seq<(Cell, Modes.Status)>, c: Cell): Option<Modes.Status>
  {
    if ws == [] then None
    else if ws[|ws| - 1].0 == c then Some(ws[|ws| - 1].1)
    else LastWrite(ws[..|ws| - 1], c)
  }

  /** The last write of a concatenation is in its second part, if that part writes the cell at all. */
  lemma {:induction false} LastWriteAppend(ws: seq<(Cell, Modes.Status)>, vs: seq<(Cell, Modes.Status)>, c: Cell)
    ensures LastWrite(ws + vs, c) == if LastWrite(vs, c).Some? then LastWrite(vs, c) else LastWrite(ws, c)
    decreases |vs|
  {
    if vs == [] {
      assert ws + vs == ws;
    } else {
      var n := |vs| - 1;
      assert (ws + vs)[..|ws + vs| - 1] == ws + vs[..n];
      LastWriteAppend(ws, vs[..n], c);
    }
  }

  /**
   * One move writes exactly the cells it names, each with one of the two
   * statuses, and only cells of the board when the move lies on the board.
   */
  lemma MoveWritesShape(m: Move, capture: Modes.Status, quiet: Modes.Status, c: Cell)
    ensures LastWrite(MoveWrites(m, capture, quiet), c).Some? <==> c in Named(m)
    ensures LastWrite(MoveWrites(m, capture, quiet), c).Some? ==>
      LastWrite(MoveWrites(m, capture, quiet), c).value == capture || LastWrite(MoveWrites(m, capture, quiet), c).value == quiet
    ensures MovesOnBoard([m]) ==> MoveWritesOnBoard(m, capture, quiet)
  {
    assert m in [m];
    if IsEnPassant(m) {
      var first := [(m.moveTo, quiet)];
      assert MoveWrites(m, capture, quiet)[..1] == first;
      assert first[..0] == [];
      assert LastWrite(first, c) == if m.moveTo == c then Some(quiet) else None;
    }
  }

  /**
   * The writes of the moves name exactly the cells the moves name, whatever
   * the two statuses, and each named cell ends with one of the two statuses.
   */
  lemma {:induction false} WritesNamed(ms: seq<Move>, capture: Modes.Status, quiet: Modes.Status, c: Cell)
    ensures LastWrite(Writes(ms, capture, quiet), c).Some? <==> c in NamedAll(ms)
    ensures LastWrite(Writes(ms, capture, quiet), c).Some? ==>
      LastWrite(Writes(ms, capture, quiet), c).value == capture || LastWrite(Writes(ms, capture, quiet), c).value == quiet
    decreases |ms|
  {
    if ms != [] {
      var init, last := ms[..|ms| - 1], ms[|ms| - 1];
      WritesNamed(init, capture, quiet, c);
      LastWriteAppend(Writes(init, capture, quiet), MoveWrites(last, capture, quiet), c);
      MoveWritesShape(last, capture, quiet, c);
    }
  }

  /** The writes of moves on the board name cells of the board only. */
  lemma {:induction false} WritesOnBoard(ms: seq<Move>, capture: Modes.Status, quiet: Modes.Status)
    requires MovesOnBoard(ms)
    ensures WritesValid(Writes(ms, capture, quiet))
    decreases |ms|
  {
    if ms != [] {
      var init, last := ms[..|ms| - 1], ms[|ms| - 1];
      assert forall m :: m in init ==> m in ms;
      assert MovesOnBoard([last]) by { assert last in ms; }
      WritesOnBoard(init, capture, quiet);
      MoveWritesShape(last, capture, quiet, last.moveTo);
    }
  }

  /** An entry with its status replaced by s, if there is one. */
  function Restatus(e: Entry, s: Option<Modes.Status>): (r: Entry)
    ensures r.hex.cell == e.hex.cell && r.occupant == e.occupant
    ensures r.hex.mode.current == e.hex.mode.current
    ensures r.hex.mode.status == if s.Some? then s.value else e.hex.mode.status
  {
    match s
    case None => e
    case Some(t) => e.WithHex(e.hex.SetStatus(t))
  }

  /** `board[cell].hex_mut().set_status(s)` on the entry in slot i. */
  function WithStatus(es: seq<Entry>, i: int, s: Modes.Status): seq<Entry>
    requires 0 <= i < |es|
  {
    es[i := es[i].WithHex(es[i].hex.SetStatus(s))]
  }

  /**
   * The entries after the writes ws, applied one by one through
   * `board_index`: each entry ends with the status of the last write to its
   * cell, or keeps its own when no write names it, and nothing else about it
   * changes.
   */
  ghost function Apply(d: Depth, es: seq<Entry>, ws: seq<(Cell, Modes.Status)>): (r: seq<Entry>)
    requires d.Valid() && Laid(d, CellsOf(es))
    requires WritesValid(ws)
    ensures CellsOf(r) == CellsOf(es)
    ensures forall i :: 0 <= i < |es| ==> r[i] == Restatus(es[i], LastWrite(ws, es[i].hex.cell))
    decreases |ws|
  {
    if ws == [] then es
    else
      var n := |ws| - 1;
      var prev := Apply(d, es, ws[..n]);
      var k := BoardIndex(d, ws[n].0);
      SlotOf(d, es, ws[n].0);
      ApplyStep(es, prev, ws, k);
      WithStatusCells(prev, k, ws[n].1);
      WithStatus(prev, k, ws[n].1)
  }

  /** On a laid-out board, `board_index` of a cell is the one slot holding that cell. */
  lemma SlotOf(d: Depth, es: seq<Entry>, c: Cell)
    requires d.Valid() && Laid(d, CellsOf(es)) && Cells.Valid(c)
    ensures 0 <= BoardIndex(d, c) < |es|
    ensures forall i :: 0 <= i < |es| ==> (es[i].hex.cell == c <==> i == BoardIndex(d, c))
  {
    forall i | 0 <= i < |es|
      ensures es[i].hex.cell == c <==> i == BoardIndex(d, c)
    {
      assert CellsOf(es)[i] == es[i].hex.cell;
    }
  }

  /** One more write to the one slot k holding its cell changes only that entry's status. */
  lemma ApplyStep(es: seq<Entry>, prev: seq<Entry>, ws: seq<(Cell, Modes.Status)>, k: int)
    requires ws != [] && |prev| == |es| && 0 <= k < |es|
    requires forall i :: 0 <= i < |es| ==> (es[i].hex.cell == ws[|ws| - 1].0 <==> i == k)
    requires forall i :: 0 <= i < |es| ==> prev[i] == Restatus(es[i], LastWrite(ws[..|ws| - 1], es[i].hex.cell))
    ensures forall i :: 0 <= i < |es| ==>
      WithStatus(prev, k, ws[|ws| - 1].1)[i] == Restatus(es[i], LastWrite(ws, es[i].hex.cell))
  {
  }

  /** A status write keeps every slot's cell. */
  lemma WithStatusCells(es: seq<Entry>, i: int, s: Modes.Status)
    requires 0 <= i < |es|
    ensures CellsOf(WithStatus(es, i, s)) == CellsOf(es)
  {
    var r := WithStatus(es, i, s);
    forall j | 0 <= j < |es|
      ensures CellsOf(r)[j] == CellsOf(es)[j]
    {
    }
  }

  /** Applying two batches of writes one after the other is applying them together. */
  lemma ApplyAppend(d: Depth, es: seq<Entry>, ws: seq<(Cell, Modes.Status)>, vs: seq<(Cell, Modes.Status)>)
    requires d.Valid() && Laid(d, CellsOf(es))
    requires WritesValid(ws) && WritesValid(vs)
    ensures Apply(d, Apply(d, es, ws), vs) == Apply(d, es, ws + vs)
  {
    var once := Apply(d, es, ws);
    var r, s := Apply(d, once, vs), Apply(d, es, ws + vs);
    forall i | 0 <= i < |es|
      ensures r[i] == s[i]
    {
      LastWriteAppend(ws, vs, es[i].hex.cell);
      assert once[i].hex.cell == es[i].hex.cell;
    }
  }

  /** The two writes of an en-passant capture, one after the other, are its writes together. */
  lemma EnPassantWrites(d: Depth, es: seq<Entry>, m: Move, capture: Modes.Status, quiet: Modes.Status)
    requires d.Valid() && Laid(d, CellsOf(es)) && IsEnPassant(m)
    requires Cells.Valid(m.moveTo) && Cells.Valid(m.moveType.pawn.removePieceOn)
    ensures Apply(d, Apply(d, es, [(m.moveTo, quiet)]), [(m.moveType.pawn.removePieceOn, capture)]) == Apply(d, es, MoveWrites(m, capture, quiet))
  {
    ApplyAppend(d, es, [(m.moveTo, quiet)], [(m.moveType.pawn.removePieceOn, capture)]);
  }

  /**
   * The entries after the highlight writes of the moves ms: each entry takes
   * the status of the last write to its cell.
   */
  ghost function Marked(d: Depth, es: seq<Entry>, ms: seq<Move>, capture: Modes.Status, quiet: Modes.Status): (r: seq<Entry>)
    requires d.Valid() && Laid(d, CellsOf(es)) && MovesOnBoard(ms)
    ensures CellsOf(r) == CellsOf(es)
    ensures forall i :: 0 <= i < |es| ==> r[i] == Restatus(es[i], LastWrite(Writes(ms, capture, quiet), es[i].hex.cell))
  {
    WritesOnBoard(ms, capture, quiet);
    Apply(d, es, Writes(ms, capture, quiet))
  }

  /** Marking one more move is applying its writes to the board marked so far. */
  lemma MarkedSnoc(d: Depth, es: seq<Entry>, ms: seq<Move>, i: int, capture: Modes.Status, quiet: Modes.Status)
    requires d.Valid() && Laid(d, CellsOf(es)) && MovesOnBoard(ms) && 0 <= i < |ms|
    ensures MovesOnBoard(ms[..i]) && MovesOnBoard(ms[..i + 1])
    ensures Cells.Valid(ms[i].moveTo) && (IsEnPassant(ms[i]) ==> Cells.Valid(ms[i].moveType.pawn.removePieceOn))
    ensures MoveWritesOnBoard(ms[i], capture, quiet)
    ensures Laid(d, CellsOf(Marked(d, es, ms[..i], capture, quiet)))
    ensures Apply(d, Marked(d, es, ms[..i], capture, quiet), MoveWrites(ms[i], capture, quiet)) == Marked(d, es, ms[..i + 1], capture, quiet)
  {
    var m := ms[i];
    assert m in ms;
    assert ms[..i + 1][..i] == ms[..i];
    assert forall x :: x in ms[..i + 1] ==> x in ms;
    MoveWritesShape(m, capture, quiet, m.moveTo);
    WritesOnBoard(ms[..i], capture, quiet);
    ApplyAppend(d, es, Writes(ms[..i], capture, quiet), MoveWrites(m, capture, quiet));
  }

  /**
   * Marking the moves sets the cells they name to one of the two statuses and
   * leaves every other status alone; no cell, occupant or cursor flag changes.
   */
  lemma MarkedCells(d: Depth, es: seq<Entry>, ms: seq<Move>, capture: Modes.Status, quiet: Modes.Status)
    requires d.Valid() && Laid(d, CellsOf(es)) && MovesOnBoard(ms)
    ensures forall i :: 0 <= i < |es| ==>
      var e, r := es[i], Marked(d, es, ms, capture, quiet)[i];
      && r.hex.cell == e.hex.cell && r.occupant == e.occupant && r.hex.mode.current == e.hex.mode.current
      && (e.hex.cell in NamedAll(ms) ==> r.hex.mode.status == capture || r.hex.mode.status == quiet)
      && (e.hex.cell !in NamedAll(ms) ==> r.hex.mode.status == e.hex.mode.status)
  {
    forall i | 0 <= i < |es| {
      WritesNamed(ms, capture, quiet, es[i].hex.cell);
    }
  }

  /**
   * Showing the moves and then hiding the same moves restores a board that
   * showed nothing before: the hide clears exactly the cells the show marked.
   */
  lemma ShowThenHide(d: Depth, es: seq<Entry>, ms: seq<Move>)
    requires d.Valid() && Laid(d, CellsOf(es)) && MovesOnBoard(ms) && NoStatus(es)
    ensures Marked(d, Marked(d, es, ms, Modes.Status.Capturable, Modes.Status.Movable), ms, Modes.Status.None, Modes.Status.None) == es
  {
    var shown := Marked(d, es, ms, Modes.Status.Capturable, Modes.Status.Movable);
    var hidden := Marked(d, shown, ms, Modes.Status.None, Modes.Status.None);
    forall i | 0 <= i < |es|
      ensures hidden[i] == es[i]
    {
      WritesNamed(ms, Modes.Status.Capturable, Modes.Status.Movable, es[i].hex.cell);
      WritesNamed(ms, Modes.Status.None, Modes.Status.None, es[i].hex.cell);
    }
  }

  /** Marking with the two preview statuses leaves a status on every named cell. */
  lemma ShownCells(d: Depth, es: seq<Entry>, ms: seq<Move>)
    requires d.Valid() && Laid(d, CellsOf(es)) && MovesOnBoard(ms)
    ensures forall i :: 0 <= i < |es| && es[i].hex.cell in NamedAll(ms) ==>
      Marked(d, es, ms, Modes.Status.Capturable, Modes.Status.Movable)[i].hex.mode.status != Modes.Status.None
  {
    MarkedCells(d, es, ms, Modes.Status.Capturable, Modes.Status.Movable);
  }

  /** Marking keeps the cursor where it was. */
  lemma MarkedKeepsCursor(d: Depth, es: seq<Entry>, ms: seq<Move>, capture: Modes.Status, quiet: Modes.Status, c: Cell)
    requires d.Valid() && Laid(d, CellsOf(es)) && MovesOnBoard(ms)
    ensures CursorOn(Marked(d, es, ms, capture, quiet), c) <==> CursorOn(es, c)
  {
  }

  /** Laid entries stand on distinct cells. */
  lemma LaidDistinct(d: Depth, es: seq<Entry>)
    requires d.Valid() && Laid(d, CellsOf(es))
    ensures forall i, j :: 0 <= i < j < |es| ==> es[i].hex.cell != es[j].hex.cell
  {
    var cs := CellsOf(es);
    assert forall i :: 0 <= i < |es| ==> BoardIndex(d, es[i].hex.cell) == i by {
      forall i | 0 <= i < |es| ensures BoardIndex(d, es[i].hex.cell) == i {
        assert cs[i] == es[i].hex.cell;
      }
    }
  }

  /** The pieces standing on the entries, by cell. */
  function Occupants(es: seq<Entry>): Occupancy
    requires forall i, j :: 0 <= i < j < |es| ==> es[i].hex.cell != es[j].hex.cell
  {
    map i | 0 <= i < |es| && es[i].occupant.Some? :: es[i].hex.cell := es[i].occupant.value
  }

  /** Marking moves moves no piece: the board reads the same to the move generators afterwards. */
  lemma MarkedKeepsOccupants(d: Depth, es: seq<Entry>, ms: seq<Move>, capture: Modes.Status, quiet: Modes.Status)
    requires d.Valid() && Laid(d, CellsOf(es)) && MovesOnBoard(ms)
    ensures Occupants(Marked(d, es, ms, capture, quiet)) == Occupants(es)
  {
    var r := Marked(d, es, ms, capture, quiet);
    LaidDistinct(d, es);
    assert forall i :: 0 <= i < |es| ==> r[i].hex.cell == es[i].hex.cell && r[i].occupant == es[i].occupant;
  }

  class Board {
    var inner: seq<Entry>
    var depth: Depth
    var current: Cell

    /**
     * A board of full depth whose 91 entries sit in the slots `board_index`
     * gives their cells. The cursor cell is a cell of the board.
     */
    ghost predicate Valid()
      reads this
    {
      && depth == Depth(6)
      && |inner| == 91
      && Laid(depth, CellsOf(inner))
      && Cells.Valid(current)
    }

    /** `get`: the entry in the cell's slot, if the vector has that slot. */
    function Get(c: Cell): (r: Option<Entry>)
      reads this
      requires depth.Valid()
      ensures r.Some? <==> 0 <= BoardIndex(depth, c) < |inner|
      ensures Valid() && Cells.Valid(c) ==> r.Some? && r.value.hex.cell == c
    {
      var i := BoardIndex(depth, c);
      if 0 <= i < |inner| then Some(inner[i]) else None
    }

    /** What stands where, read off the entries; the piece generators read the board through this. */
    function Occupancy(): (occ: Occupancy)
      reads this
      requires Valid()
      ensures forall c :: c in occ <==> Cells.Valid(c) && Get(c).value.occupant.Some?
      ensures forall c :: c in occ ==> occ[c] == Get(c).value.occupant.value
    {
      LaidDistinct(depth, inner);
      Occupants(inner)
    }

    /**
     * The entries of one file, one per cell of its rank range, ranks
     * ascending: the inner loop of `Board::empty`.
     */
    static method LayFile(d: Depth, fo: int) returns (col: seq<Entry>)
      requires d.Valid() && LoFile(d) <= fo < EndFile(d)
      ensures CellsOf(col) == ColumnAt(d, fo)
      ensures forall i :: 0 <= i < |col| ==> Initial(col[i])
    {
      var file := Files.FromOrd(fo);
      FileColumn(d, fo);
      RankRangeOnBoard(d, file);
      var ranks := CollectInc(RankRange(d, file));
      assert forall i :: 0 <= i < |ranks| ==> 0 <= ranks[i] <= 10 by {
        assert forall i :: 0 <= i < |ranks| ==> ranks[i] in ranks;
      }
      col := LayRanks(file, ranks);
      ColumnByOrd(d, file, CellsOf(col));
    }

    /** One fresh entry per rank ordinal, in order, all on the given file. */
    static method LayRanks(file: Files.File, ranks: seq<int>) returns (col: seq<Entry>)
      requires forall i :: 0 <= i < |ranks| ==> 0 <= ranks[i] <= 10
      ensures |col| == |ranks|
      ensures forall i :: 0 <= i < |col| ==> col[i].hex.cell.file == file && Ranks.Ord(col[i].hex.cell.rank) == ranks[i]
      ensures forall i :: 0 <= i < |col| ==> Initial(col[i])
    {
      col := [];
      var j := 0;
      while j < |ranks|
        invariant 0 <= j <= |ranks| && |col| == j
        invariant forall i :: 0 <= i < j ==> col[i].hex.cell.file == file && Ranks.Ord(col[i].hex.cell.rank) == ranks[i]
        invariant forall i :: 0 <= i < j ==> Initial(col[i])
      {
        var rank := Ranks.FromOrd(ranks[j]);
        var mode := if file == Files.Default && rank == Ranks.Default then Modes.New(true, Modes.Status.None) else Modes.Default;
        var e := Entries.New(Hexagon(Cell(rank, file), mode), None);
        assert Initial(e) && e.hex.cell == Cell(rank, file);
        col := col + [e];
        j := j + 1;
      }
    }

    /** The file ordinals `depth.file_range()` yields, collected: the depth's files, left to right. */
    static method FileOrdinals(d: Depth) returns (files: seq<int>)
      requires d.Valid()
      ensures LoFile(d) + |files| == EndFile(d)
      ensures forall i :: 0 <= i < |files| ==> files[i] == LoFile(d) + i
    {
      FileRangeYields(d);
      files := CollectInc(FileRange(d));
    }

    /** The entries of a board of depth d, file after file: the outer loop of `Board::empty`. */
    static method Lay(d: Depth) returns (es: seq<Entry>)
      requires d.Valid()
      ensures CellsOf(es) == Layout(d)
      ensures forall i :: 0 <= i < |es| ==> Initial(es[i])
    {
      var files := FileOrdinals(d);
      es := [];
      var k := 0;
      assert CellsOf([]) == [];
      while k < |files|
        invariant 0 <= k <= |files| && LoFile(d) + |files| == EndFile(d)
        invariant CellsOf(es) == DepthColumns(d, k)
        invariant forall i :: 0 <= i < |es| ==> Initial(es[i])
      {
        var col := LayFile(d, files[k]);
        ColumnsSnoc(d, k, files[k], es, col);
        es := es + col;
        k := k + 1;
      }
      AllColumns(d, k);
    }

    /**
     * `Board::empty`: one unoccupied entry per cell of the depth, created file
     * by file from the depth's file range and each file's rank range, with
     * the cursor on F6. At full depth the result is a valid board.
     */
    constructor Empty(d: Depth)
      requires d.Valid()
      ensures depth == d && current == Cells.Default
      ensures CellsOf(inner) == Layout(d)
      ensures forall i :: 0 <= i < |inner| ==> Initial(inner[i])
      ensures d == Depth(6) ==> Valid() && CursorOn(inner, current) && NoStatus(inner)
    {
      var es := Lay(d);
      inner := es;
      depth := d;
      current := Cells.Default;
      if d == Depth(6) {
        FullLayout(d);
      }
    }

    /** `Board::new`: the empty board; the placement of the pieces is disabled, so no cell is occupied. */
    static method New(d: Depth) returns (b: Board)
      requires d.Valid()
      ensures fresh(b)
      ensures b.depth == d && b.current == Cells.Default
      ensures CellsOf(b.inner) == Layout(d)
      ensures forall i :: 0 <= i < |b.inner| ==> Initial(b.inner[i])
      ensures d == Depth(6) ==> b.Valid() && CursorOn(b.inner, b.current) && NoStatus(b.inner)
    {
      b := new Board.Empty(d);
    }

    /** `board[cell].hex_mut().set_current(flag)`. */
    method SetCurrentFlag(c: Cell, flag: bool)
      requires Valid() && Cells.Valid(c)
      modifies this
      ensures Valid() && depth == old(depth) && current == old(current)
      ensures inner == old(inner)[BoardIndex(depth, c) := old(inner)[BoardIndex(depth, c)].WithHex(old(inner)[BoardIndex(depth, c)].hex.SetCurrent(flag))]
    {
      var i := BoardIndex(depth, c);
      inner := inner[i := inner[i].WithHex(inner[i].hex.SetCurrent(flag))];
      assert CellsOf(inner) == CellsOf(old(inner));
    }

    /** `board[cell].hex_mut().set_status(s)`: the single write of s to c. */
    method SetStatusAt(c: Cell, s: Modes.Status)
      requires Valid() && Cells.Valid(c)
      modifies this
      ensures Valid() && depth == old(depth) && current == old(current)
      ensures inner == Apply(depth, old(inner), [(c, s)])
    {
      var i := BoardIndex(depth, c);
      inner := WithStatus(inner, i, s);
      assert CellsOf(inner) == CellsOf(old(inner));
      assert [(c, s)][..0] == [];
    }

    /**
     * `Board::set_current`: the cursor flag leaves the old cursor cell and
     * goes to c, which becomes the cursor; nothing else changes.
     */
    method SetCurrent(c: Cell)
      requires Valid() && Cells.Valid(c)
      modifies this
      ensures Valid() && depth == old(depth) && current == c
      ensures inner == Recursor(old(inner), old(current), c)
    {
      SetCurrentFlag(current, false);
      SetCurrentFlag(c, true);
      current := c;
    }

    /** `Board::move_current`: the cursor steps along d when that cell exists, and otherwise nothing changes. */
    method MoveCurrent(d: Directions.Direction)
      requires Valid()
      modifies this
      ensures Valid() && depth == old(depth)
      ensures Next(old(current), d).None? ==> current == old(current) && inner == old(inner)
      ensures Next(old(current), d).Some? ==> current == Next(old(current), d).value && inner == Recursor(old(inner), old(current), current)
    {
      var next := Next(current, d);
      if next.Some? {
        SetCurrent(next.value);
      }
    }

    /** The status writes of one move, as the arms of the `match` in `start_move`. */
    method MarkMove(m: Move, capture: Modes.Status, quiet: Modes.Status)
      requires Valid() && Cells.Valid(m.moveTo)
      requires IsEnPassant(m) ==> Cells.Valid(m.moveType.pawn.removePieceOn)
      requires MoveWritesOnBoard(m, capture, quiet)
      modifies this
      ensures Valid() && depth == old(depth) && current == old(current)
      ensures inner == Apply(depth, old(inner), MoveWrites(m, capture, quiet))
    {
      if IsEnPassant(m) {
        var e := m.moveType.pawn.removePieceOn;
        SetStatusAt(m.moveTo, quiet);
        SetStatusAt(e, capture);
        EnPassantWrites(depth, old(inner), m, capture, quiet);
      } else {
        var s := if MarksCapture(m.moveType) then capture else quiet;
        assert MoveWrites(m, capture, quiet) == [(m.moveTo, s)];
        SetStatusAt(m.moveTo, s);
      }
    }

    /**
     * The `for_each` over the moves shared by `start_move` and the move
     * preview: each move's writes, in order. `marked` is the preview's `set`
     * flag: whether there was any move at all.
     */
    method MarkMoves(ms: seq<Move>, capture: Modes.Status, quiet: Modes.Status) returns (marked: bool)
      requires Valid() && MovesOnBoard(ms)
      modifies this
      ensures Valid() && depth == old(depth) && current == old(current)
      ensures marked <==> ms != []
      ensures inner == Marked(depth, old(inner), ms, capture, quiet)
    {
      marked := false;
      var i := 0;
      while i < |ms|
        invariant 0 <= i <= |ms| && Valid() && depth == old(depth) && current == old(current)
        invariant marked <==> i > 0
        invariant MovesOnBoard(ms[..i])
        invariant inner == Marked(depth, old(inner), ms[..i], capture, quiet)
      {
        marked := true;
        MarkedSnoc(depth, old(inner), ms, i, capture, quiet);
        MarkMove(ms[i], capture, quiet);
        i := i + 1;
      }
      assert ms[..i] == ms;
    }

    /**
     * `start_move`: nothing happens when the cursor cell is empty; otherwise
     * the destinations of the occupant's moves are marked Capturable or
     * Movable by move type, and no other entry changes.
     */
    method StartMove()
      requires Valid()
      modifies this
      ensures Valid() && depth == old(depth) && current == old(current)
      ensures old(Get(current)).value.occupant.None? ==> inner == old(inner)
      ensures old(Get(current)).value.occupant.Some? ==>
        var ms := PieceMoves.ValidMoves(old(Get(current)).value.occupant.value, current, old(Occupancy()));
        MovesOnBoard(ms) && inner == Marked(depth, old(inner), ms, Modes.Status.Capturable, Modes.Status.Movable)
    {
      var occupant := Get(current).value.occupant;
      if occupant.None? {
        return;
      }
      var ms := PieceMoves.ValidMoves(occupant.value, current, Occupancy());
      PieceMoves.ValidMovesShape(occupant.value, current, Occupancy());
      var _ := MarkMoves(ms, Modes.Status.Capturable, Modes.Status.Movable);
    }

    /** `abort_move`: does nothing. */
    method AbortMove()
      ensures unchanged(this)
    {
    }
  }
}
