/**
 * The knight of the backend snapshot: two steps along a straight direction,
 * then one step turned one turn either way.
 */
module OldKnights {
  import opened Wrappers
  import opened Directions
  import opened Pieces
  import Cells
  import Ranks
  import Files
  import Moves
  import OldCells
  import opened OldMoves

  /** `next_cell(d)` twice, when both steps stay on the board. */
  function TwoSteps(p: Cells.Cell, d: Direction): Option<Cells.Cell>
  {
    match OldCells.Step(p, d)
    case None => None
    case Some(q) => OldCells.Step(q, d)
  }

  /** The two candidates of one direction, or none when the two steps leave the board. */
  function LeapTargets(p: Cells.Cell, d: Direction): seq<Option<Cells.Cell>>
  {
    match TwoSteps(p, d)
    case None => []
    case Some(t) => [OldCells.Step(t, TurnClockwise(d)), OldCells.Step(t, TurnCounterClockwise(d))]
  }

  /** The candidates of all the directions, in order. */
  function Targets(p: Cells.Cell, dirs: seq<Direction>): seq<Option<Cells.Cell>>
  {
    if dirs == [] then [] else LeapTargets(p, dirs[0]) + Targets(p, dirs[1..])
  }

  /** `Knight::valid_moves`: the landings on the candidates of Clock2, 4, 6, 8, 10, 12 from the knight's location. */
  function ValidMoves(colour: Colour, location: Cells.Cell, occ: Moves.Occupancy): seq<Move>
  {
    Landings(Targets(location, StraightDirections), colour, occ)
  }

  /** t lies two steps along d and one step along e away from p, counted in ordinals. */
  predicate LeapBy(p: Cells.Cell, d: Direction, e: Direction, t: Cells.Cell)
  {
    && Ranks.Ord(t.rank) == Ranks.Ord(p.rank) + 2 * OldCells.RankDelta(d) + OldCells.RankDelta(e)
    && Files.Ord(t.file) == Files.Ord(p.file) + 2 * OldCells.FileDelta(d) + OldCells.FileDelta(e)
  }

  /** t is a knight's leap from p that starts along d. */
  predicate Leap(p: Cells.Cell, d: Direction, t: Cells.Cell)
  {
    LeapBy(p, d, TurnClockwise(d), t) || LeapBy(p, d, TurnCounterClockwise(d), t)
  }

  /** Each candidate of one direction is a cell of the board a leap away. */
  lemma LeapTargetsAreLeaps(p: Cells.Cell, d: Direction)
    ensures |LeapTargets(p, d)| <= 2
    ensures forall t :: Some(t) in LeapTargets(p, d) ==> Cells.Valid(t) && Leap(p, d, t)
  {
  }

  /** Every candidate is a cell of the board a leap away along one of the directions. */
  lemma {:induction false} TargetsAreLeaps(p: Cells.Cell, dirs: seq<Direction>)
    ensures |Targets(p, dirs)| <= 2 * |dirs|
    ensures forall t :: Some(t) in Targets(p, dirs) ==> Cells.Valid(t) && exists d :: d in dirs && Leap(p, d, t)
    decreases |dirs|
  {
    if dirs != [] {
      LeapTargetsAreLeaps(p, dirs[0]);
      TargetsAreLeaps(p, dirs[1..]);
      forall t | Some(t) in Targets(p, dirs)
        ensures Cells.Valid(t) && exists d :: d in dirs && Leap(p, d, t)
      {
        if Some(t) in LeapTargets(p, dirs[0]) {
          assert dirs[0] in dirs;
        } else {
          assert Some(t) in Targets(p, dirs[1..]);
          var d :| d in dirs[1..] && Leap(p, d, t);
          assert d in dirs;
        }
      }
    }
  }

  /** A leap that starts along a straight direction never ends where it began. */
  lemma LeapMoves(p: Cells.Cell, d: Direction, t: Cells.Cell)
    requires d in StraightDirections && Leap(p, d, t)
    ensures t != p
  {
  }

  /**
   * At most twelve moves; each is a leap from the location along a straight
   * direction, never onto the location itself nor a friendly piece, and a
   * capture exactly when the cell is occupied.
   */
  lemma ValidMovesShape(colour: Colour, location: Cells.Cell, occ: Moves.Occupancy)
    ensures |ValidMoves(colour, location, occ)| <= 12
    ensures forall m :: m in ValidMoves(colour, location, occ) ==>
      && (exists d :: d in StraightDirections && Leap(location, d, m.cell))
      && m.cell != location
      && (m.moveType == Capture || m.moveType == NonCapture)
      && (m.cell !in occ || occ[m.cell].colour != colour)
      && (m.moveType == Capture <==> m.cell in occ)
  {
    var targets := Targets(location, StraightDirections);
    TargetsAreLeaps(location, StraightDirections);
    LandingsShape(targets, colour, occ);
    forall m | m in ValidMoves(colour, location, occ)
      ensures m.cell != location
    {
      var d :| d in StraightDirections && Leap(location, d, m.cell);
      LeapMoves(location, d, m.cell);
    }
  }
}
