/**
 * The board of the backend snapshot: a map from cells to the pieces on
 * them, filled with White's pieces when it is made.
 */
module OldBoards {
  import opened Pieces
  import Cells
  import Moves
  import opened OldConstants

  /** The map after inserting piece p on each of the cells, in order; a later insert replaces an earlier one. */
  function InsertAll(m: Moves.Occupancy, cells: seq<Cells.Cell>, p: Piece): (r: Moves.Occupancy)
    ensures forall c :: c in r <==> c in m || c in cells
    ensures forall c :: c in r ==> r[c] == if c in cells then p else m[c]
    decreases |cells|
  {
    if cells == [] then m
    else InsertAll(m, cells[..|cells| - 1], p)[cells[|cells| - 1] := p]
  }

  /** One more insert extends the prefix by one cell. */
  lemma InsertNext(m: Moves.Occupancy, cells: seq<Cells.Cell>, i: nat, p: Piece)
    requires i < |cells|
    ensures InsertAll(m, cells[..i], p)[cells[i] := p] == InsertAll(m, cells[..i + 1], p)
  {
    assert cells[..i + 1][..i] == cells[..i];
  }

  function PawnPiece(): Piece { Piece(Pawn, White, false) }
  function KnightPiece(): Piece { Piece(Knight, White, false) }
  function RookPiece(): Piece { Piece(Rook, White, false) }
  function BishopPiece(): Piece { Piece(Bishop, White, false) }
  function QueenPiece(): Piece { Piece(Queen, White, false) }
  function KingPiece(): Piece { Piece(King, White, false) }

  /** The map `Board::new` builds: pawns, knights, rooks, bishops, then the queen and the king. */
  function StartingPosition(): Moves.Occupancy
  {
    var pawns := InsertAll(map[], WhitePawnStartingCells, PawnPiece());
    var knights := InsertAll(pawns, WhiteKnightStartingCells, KnightPiece());
    var rooks := InsertAll(knights, WhiteRookStartingCells, RookPiece());
    var bishops := InsertAll(rooks, WhiteBishopStartingCells, BishopPiece());
    bishops[WhiteQueenStartingCell := QueenPiece()][WhiteKingStartingCell := KingPiece()]
  }

  /** A list of distinct cells has as many members as entries. */
  lemma {:induction false} DistinctCount(s: seq<Cells.Cell>)
    requires forall i, j :: 0 <= i < j < |s| ==> s[i] != s[j]
    ensures |set c | c in s| == |s|
    decreases |s|
  {
    if s != [] {
      var rest := s[..|s| - 1];
      DistinctCount(rest);
      assert (set c | c in s) == (set c | c in rest) + {s[|s| - 1]};
      assert s[|s| - 1] !in rest;
    }
  }

  /** The starting board has a piece on each starting cell and nowhere else: eighteen pieces. */
  lemma StartingKeys()
    ensures StartingPosition().Keys == set c | c in AllStartingCells
    ensures |StartingPosition()| == 18
  {
    StartingCellsValid();
    DistinctCount(AllStartingCells);
    assert StartingPosition().Keys == set c | c in AllStartingCells;
  }

  /** Every piece of the starting board is White, on the board, and not open to an en-passant capture. */
  lemma StartingPieces()
    ensures forall c :: c in StartingPosition() ==>
      Cells.Valid(c) && StartingPosition()[c].colour == White && !StartingPosition()[c].enPassantAble
  {
    StartingCellsValid();
    forall c | c in StartingPosition()
      ensures Cells.Valid(c)
    {
      assert c in AllStartingCells;
    }
  }

  /** The cells filled after the pawns. */
  const AfterPawns: seq<Cells.Cell> :=
    WhiteKnightStartingCells + WhiteRookStartingCells + WhiteBishopStartingCells + [WhiteQueenStartingCell, WhiteKingStartingCell]

  /** A cell no later table names keeps the piece the first table put there. */
  lemma Undisplaced(c: Cells.Cell)
    requires c in WhitePawnStartingCells && c !in AfterPawns
    ensures StartingPosition()[c] == PawnPiece()
  {
  }

  /** The pawns are not displaced: no later table names a pawn's cell. */
  lemma StartingPawns()
    ensures forall c :: c in WhitePawnStartingCells ==> StartingPosition()[c] == PawnPiece()
  {
    assert forall c :: c in WhitePawnStartingCells ==> c !in AfterPawns;
    forall c | c in WhitePawnStartingCells
      ensures StartingPosition()[c] == PawnPiece()
    {
      Undisplaced(c);
    }
  }

  /** The knights, rooks and bishops are not displaced either, and the queen and king stand on their cells. */
  lemma StartingOfficers()
    ensures forall c :: c in WhiteKnightStartingCells ==> StartingPosition()[c] == KnightPiece()
    ensures forall c :: c in WhiteRookStartingCells ==> StartingPosition()[c] == RookPiece()
    ensures forall c :: c in WhiteBishopStartingCells ==> StartingPosition()[c] == BishopPiece()
    ensures StartingPosition()[WhiteQueenStartingCell] == QueenPiece()
    ensures StartingPosition()[WhiteKingStartingCell] == KingPiece()
  {
    forall c | c in WhiteKnightStartingCells
      ensures StartingPosition()[c] == KnightPiece()
    {
      assert c !in WhiteRookStartingCells && c !in WhiteBishopStartingCells;
      assert c != WhiteQueenStartingCell && c != WhiteKingStartingCell;
    }
    forall c | c in WhiteRookStartingCells
      ensures StartingPosition()[c] == RookPiece()
    {
      assert c !in WhiteBishopStartingCells;
      assert c != WhiteQueenStartingCell && c != WhiteKingStartingCell;
    }
    forall c | c in WhiteBishopStartingCells
      ensures StartingPosition()[c] == BishopPiece()
    {
      assert c != WhiteQueenStartingCell && c != WhiteKingStartingCell;
    }
  }

  class Board {
    var inner: Moves.Occupancy

    /** `Board::new`: each table's piece is inserted on each of its cells, in the order of the tables. */
    constructor New()
      ensures inner == StartingPosition()
    {
      var m: Moves.Occupancy := map[];
      for i := 0 to |WhitePawnStartingCells|
        invariant m == InsertAll(map[], WhitePawnStartingCells[..i], PawnPiece())
      {
        InsertNext(map[], WhitePawnStartingCells, i, PawnPiece());
        m := m[WhitePawnStartingCells[i] := PawnPiece()];
      }
      assert WhitePawnStartingCells[..|WhitePawnStartingCells|] == WhitePawnStartingCells;
      var pawns := m;
      for i := 0 to |WhiteKnightStartingCells|
        invariant m == InsertAll(pawns, WhiteKnightStartingCells[..i], KnightPiece())
      {
        InsertNext(pawns, WhiteKnightStartingCells, i, KnightPiece());
        m := m[WhiteKnightStartingCells[i] := KnightPiece()];
      }
      assert WhiteKnightStartingCells[..|WhiteKnightStartingCells|] == WhiteKnightStartingCells;
      var knights := m;
      for i := 0 to |WhiteRookStartingCells|
        invariant m == InsertAll(knights, WhiteRookStartingCells[..i], RookPiece())
      {
        InsertNext(knights, WhiteRookStartingCells, i, RookPiece());
        m := m[WhiteRookStartingCells[i] := RookPiece()];
      }
      assert WhiteRookStartingCells[..|WhiteRookStartingCells|] == WhiteRookStartingCells;
      var rooks := m;
      for i := 0 to |WhiteBishopStartingCells|
        invariant m == InsertAll(rooks, WhiteBishopStartingCells[..i], BishopPiece())
      {
        InsertNext(rooks, WhiteBishopStartingCells, i, BishopPiece());
        m := m[WhiteBishopStartingCells[i] := BishopPiece()];
      }
      assert WhiteBishopStartingCells[..|WhiteBishopStartingCells|] == WhiteBishopStartingCells;
      m := m[WhiteQueenStartingCell := QueenPiece()];
      m := m[WhiteKingStartingCell := KingPiece()];
      inner := m;
    }
  }
}
