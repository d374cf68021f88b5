/**
 * `Piece::valid_moves` over the pieces of the final snapshot, dispatched on
 * the kind of piece in place of a trait object. The origin is passed
 * explicitly.
 */
module PieceMoves {
  import opened Cells
  import opened Pieces
  import opened Moves
  import Knights
  import Kings
  import Bishops
  import Rooks
  import Queens
  import Directions

  /**
   * The moves of piece p standing on origin. The pawn of this snapshot has no
   * move generator of its own, so it has no moves.
   */
  function ValidMoves(p: Piece, origin: Cell, occ: Occupancy): (ms: seq<Move>)
    ensures p.kind == Pawn ==> ms == []
  {
    match p.kind
    case Pawn => []
    case Knight => Knights.ValidMoves(p.colour, origin, occ)
    case Bishop => Bishops.ValidMoves(p.colour, origin, occ)
    case Rook => Rooks.ValidMoves(p.colour, origin, occ)
    case Queen => Queens.ValidMoves(p.colour, origin, occ)
    case King => Kings.ValidMoves(p.colour, origin, occ)
  }

  /**
   * Every move is a non-pawn move that lands on a cell of the board other than
   * origin, never on a friendly piece, and captures exactly the occupied cells.
   */
  predicate Landed(ms: seq<Move>, origin: Cell, colour: Colour, occ: Occupancy)
  {
    forall m :: m in ms ==>
      && Valid(m.moveTo)
      && m.moveTo != origin
      && m.moveType.Rest?
      && (m.moveTo !in occ || occ[m.moveTo].colour != colour)
      && (IsCapture(m) <==> m.moveTo in occ)
  }

  /**
   * Every move of every piece lands on a cell of the board other than its
   * origin, never on a friendly piece, and is a capture exactly when that cell
   * is occupied.
   */
  lemma ValidMovesShape(p: Piece, origin: Cell, occ: Occupancy)
    ensures Landed(ValidMoves(p, origin, occ), origin, p.colour, occ)
  {
    match p.kind
    case Pawn =>
    case Knight => KnightLanded(p.colour, origin, occ);
    case King => KingLanded(p.colour, origin, occ);
    case Bishop => BishopLanded(p.colour, origin, occ);
    case Rook => RookLanded(p.colour, origin, occ);
    case Queen => QueenLanded(p.colour, origin, occ);
  }

  lemma KnightLanded(colour: Colour, origin: Cell, occ: Occupancy)
    ensures Landed(Knights.ValidMoves(colour, origin, occ), origin, colour, occ)
  {
    Knights.ValidMovesShape(colour, origin, occ);
  }

  lemma KingLanded(colour: Colour, origin: Cell, occ: Occupancy)
    ensures Landed(Kings.ValidMoves(colour, origin, occ), origin, colour, occ)
  {
    Kings.ValidMovesShape(colour, origin, occ);
  }

  lemma BishopLanded(colour: Colour, origin: Cell, occ: Occupancy)
    ensures Landed(Bishops.ValidMoves(colour, origin, occ), origin, colour, occ)
  {
    var ms := Bishops.ValidMoves(colour, origin, occ);
    Bishops.ValidMovesShape(colour, origin, occ);
    forall m | m in ms
      ensures Valid(m.moveTo)
    {
      var d :| d in Directions.DiagonalDirections && m.moveTo in Ray(origin, d);
      RayCellsValid(origin, d);
    }
  }

  lemma RookLanded(colour: Colour, origin: Cell, occ: Occupancy)
    ensures Landed(Rooks.ValidMoves(colour, origin, occ), origin, colour, occ)
  {
    var ms := Rooks.ValidMoves(colour, origin, occ);
    Rooks.ValidMovesShape(colour, origin, occ);
    forall m | m in ms
      ensures Valid(m.moveTo)
    {
      var d :| d in Directions.StraightDirections && m.moveTo in Ray(origin, d);
      RayCellsValid(origin, d);
    }
  }

  lemma QueenLanded(colour: Colour, origin: Cell, occ: Occupancy)
    ensures Landed(Queens.ValidMoves(colour, origin, occ), origin, colour, occ)
  {
    var ms := Queens.ValidMoves(colour, origin, occ);
    Queens.ValidMovesShape(colour, origin, occ);
    forall m | m in ms
      ensures Valid(m.moveTo)
    {
      var d :| d in Directions.AllDirections && m.moveTo in Ray(origin, d);
      RayCellsValid(origin, d);
    }
  }

  /** Every cell of a ray lies on the board. */
  lemma RayCellsValid(c: Cell, d: Directions.Direction)
    ensures forall x :: x in Ray(c, d) ==> Valid(x)
  {
    RayChain(c, d);
  }
}
