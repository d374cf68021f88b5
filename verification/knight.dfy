/** The knight: two straight steps, then one step turned a sixth either way. */
module Knights {
  import opened Wrappers
  import opened Ranks
  import opened Files
  import opened Directions
  import opened Cells
  import opened Pieces
  import opened Moves
  import Reprs

  const WhiteStartingCells: seq<Cell> := [Cell(Rank1, FileD), Cell(Rank1, FileH)]

  const BlackStartingCells: seq<Cell> := [Cell(Rank9, FileD), Cell(Rank9, FileH)]

  /** The starting cells, built without the outline check, all lie on the board. */
  lemma StartingCellsValid()
    ensures forall c :: c in WhiteStartingCells + BlackStartingCells ==> Cells.TryNew(c.rank, c.file).Ok?
  {
  }

  /** Two steps along d, if both exist. */
  function TwoSteps(c: Cell, d: Direction): Option<Cell>
  {
    match Next(c, d)
    case None => None
    case Some(m) => Next(m, d)
  }

  /** t is a knight's leap from c seeded along d: two steps along d, then one step turned clockwise or counter-clockwise. */
  predicate Leap(c: Cell, d: Direction, t: Cell)
  {
    && TwoSteps(c, d).Some?
    && (Next(TwoSteps(c, d).value, TurnClockwise(d)) == Some(t)
        || Next(TwoSteps(c, d).value, TurnCounterClockwise(d)) == Some(t))
  }

  /**
   * The two candidates for direction d, clockwise turn first; none when either
   * straight step leaves the board. The middle cells are never looked at.
   */
  function LeapTargets(c: Cell, d: Direction): seq<Option<Cell>>
  {
    match TwoSteps(c, d)
    case None => []
    case Some(p) => [Next(p, TurnClockwise(d)), Next(p, TurnCounterClockwise(d))]
  }

  /** The candidates of every direction in dirs, in order. */
  function Targets(c: Cell, dirs: seq<Direction>): seq<Option<Cell>>
  {
    if dirs == [] then [] else LeapTargets(c, dirs[0]) + Targets(c, dirs[1..])
  }

  /** A direction gives two candidates when both straight steps exist, and they are exactly its leaps. */
  lemma LeapTargetsAreLeaps(c: Cell, d: Direction)
    ensures |LeapTargets(c, d)| == if TwoSteps(c, d).Some? then 2 else 0
    ensures forall t :: Some(t) in LeapTargets(c, d) <==> Leap(c, d, t)
  {
  }

  /** At most two candidates per direction, each a leap seeded along one of dirs. */
  lemma {:induction false} TargetsAreLeaps(c: Cell, dirs: seq<Direction>)
    ensures |Targets(c, dirs)| <= 2 * |dirs|
    ensures forall t :: Some(t) in Targets(c, dirs) ==> exists d :: d in dirs && Leap(c, d, t)
    decreases |dirs|
  {
    if dirs != [] {
      LeapTargetsAreLeaps(c, dirs[0]);
      TargetsAreLeaps(c, dirs[1..]);
      assert dirs[0] in dirs;
      assert forall d :: d in dirs[1..] ==> d in dirs;
    }
  }

  /** `Knight::valid_moves`: land on the candidates seeded along Clock2, 4, 6, 8, 10, 12. */
  function ValidMoves(colour: Colour, current: Cell, occ: Occupancy): seq<Move>
  {
    Landings(Targets(current, StraightDirections), colour, occ)
  }

  /** Twice a straight offset plus its neighbouring offset is never zero. */
  lemma LeapOffsetNonZero(d: Direction, e: Direction)
    requires e == TurnClockwise(d) || e == TurnCounterClockwise(d)
    ensures 2 * Reprs.Offset(d).x + Reprs.Offset(e).x != 0 || 2 * Reprs.Offset(d).y + Reprs.Offset(e).y != 0
  {
  }

  /** Two steps and a turned step never add up to no displacement. */
  lemma LeapMoves(c: Cell, d: Direction, t: Cell)
    requires Leap(c, d, t)
    ensures t != c
  {
    var m := Next(c, d).value;
    var p := TwoSteps(c, d).value;
    var e := if Next(p, TurnClockwise(d)) == Some(t) then TurnClockwise(d) else TurnCounterClockwise(d);
    assert Next(m, d) == Some(p);
    assert Next(p, e) == Some(t);
    StepOffset(c, d, m);
    StepOffset(m, d, p);
    StepOffset(p, e, t);
    LeapOffsetNonZero(d, e);
    Reprs.FromCellInjective(t, c);
  }

  /** One step moves the position by the offset of its direction. */
  lemma StepOffset(a: Cell, d: Direction, b: Cell)
    requires Next(a, d) == Some(b)
    ensures Reprs.FromCell(b).x == Reprs.FromCell(a).x + Reprs.Offset(d).x
    ensures Reprs.FromCell(b).y == Reprs.FromCell(a).y + Reprs.Offset(d).y
  {
    Reprs.NextCommutes(a, d);
  }

  /**
   * At most twelve knight moves, each a leap seeded along a straight
   * direction (so never the current cell), never onto a friendly piece, and a
   * capture exactly when the cell is occupied.
   */
  lemma ValidMovesShape(colour: Colour, current: Cell, occ: Occupancy)
    ensures |ValidMoves(colour, current, occ)| <= 12
    ensures forall m :: m in ValidMoves(colour, current, occ) ==>
      && (exists d :: d in StraightDirections && Leap(current, d, m.moveTo))
      && m.moveTo != current
      && m.moveType.Rest?
      && (m.moveTo !in occ || occ[m.moveTo].colour != colour)
      && (IsCapture(m) <==> m.moveTo in occ)
  {
    var ts := Targets(current, StraightDirections);
    TargetsAreLeaps(current, StraightDirections);
    LandingsShape(ts, colour, occ);
    forall m | m in ValidMoves(colour, current, occ)
      ensures m.moveTo != current
    {
      var d :| d in StraightDirections && Leap(current, d, m.moveTo);
      LeapMoves(current, d, m.moveTo);
    }
  }

  /** The two straight steps along Clock2 from F6, and the two turned steps from there. */
  lemma CentreLeapSteps2()
    ensures Next(Cells.Default, Clock2) == Some(Cell(Rank6, FileG))
    ensures Next(Cell(Rank6, FileG), Clock2) == Some(Cell(Rank6, FileH))
    ensures Next(Cell(Rank6, FileH), TurnClockwise(Clock2)) == Some(Cell(Rank5, FileI))
    ensures Next(Cell(Rank6, FileH), TurnCounterClockwise(Clock2)) == Some(Cell(Rank7, FileH))
  {
  }

  lemma CentreLeapClock2(c: Cell)
    requires c == Cells.Default
    ensures LeapTargets(c, Clock2) == [Some(Cell(Rank5, FileI)), Some(Cell(Rank7, FileH))]
    ensures LeapWithin(c, Clock2, CentreLeaps)
  {
    CentreLeapSteps2();
  }

  /** The two straight steps along Clock4 from F6, and the two turned steps from there. */
  lemma CentreLeapSteps4()
    ensures Next(Cells.Default, Clock4) == Some(Cell(Rank5, FileG))
    ensures Next(Cell(Rank5, FileG), Clock4) == Some(Cell(Rank4, FileH))
    ensures Next(Cell(Rank4, FileH), TurnClockwise(Clock4)) == Some(Cell(Rank3, FileH))
    ensures Next(Cell(Rank4, FileH), TurnCounterClockwise(Clock4)) == Some(Cell(Rank4, FileI))
  {
  }

  lemma CentreLeapClock4(c: Cell)
    requires c == Cells.Default
    ensures LeapTargets(c, Clock4) == [Some(Cell(Rank3, FileH)), Some(Cell(Rank4, FileI))]
    ensures LeapWithin(c, Clock4, CentreLeaps)
  {
    CentreLeapSteps4();
  }

  /** The two straight steps along Clock6 from F6, and the two turned steps from there. */
  lemma CentreLeapSteps6()
    ensures Next(Cells.Default, Clock6) == Some(Cell(Rank5, FileF))
    ensures Next(Cell(Rank5, FileF), Clock6) == Some(Cell(Rank4, FileF))
    ensures Next(Cell(Rank4, FileF), TurnClockwise(Clock6)) == Some(Cell(Rank3, FileE))
    ensures Next(Cell(Rank4, FileF), TurnCounterClockwise(Clock6)) == Some(Cell(Rank3, FileG))
  {
  }

  lemma CentreLeapClock6(c: Cell)
    requires c == Cells.Default
    ensures LeapTargets(c, Clock6) == [Some(Cell(Rank3, FileE)), Some(Cell(Rank3, FileG))]
    ensures LeapWithin(c, Clock6, CentreLeaps)
  {
    CentreLeapSteps6();
  }

  /** The two straight steps along Clock8 from F6, and the two turned steps from there. */
  lemma CentreLeapSteps8()
    ensures Next(Cells.Default, Clock8) == Some(Cell(Rank5, FileE))
    ensures Next(Cell(Rank5, FileE), Clock8) == Some(Cell(Rank4, FileD))
    ensures Next(Cell(Rank4, FileD), TurnClockwise(Clock8)) == Some(Cell(Rank4, FileC))
    ensures Next(Cell(Rank4, FileD), TurnCounterClockwise(Clock8)) == Some(Cell(Rank3, FileD))
  {
  }

  lemma CentreLeapClock8(c: Cell)
    requires c == Cells.Default
    ensures LeapTargets(c, Clock8) == [Some(Cell(Rank4, FileC)), Some(Cell(Rank3, FileD))]
    ensures LeapWithin(c, Clock8, CentreLeaps)
  {
    CentreLeapSteps8();
  }

  /** The two straight steps along Clock10 from F6, and the two turned steps from there. */
  lemma CentreLeapSteps10()
    ensures Next(Cells.Default, Clock10) == Some(Cell(Rank6, FileE))
    ensures Next(Cell(Rank6, FileE), Clock10) == Some(Cell(Rank6, FileD))
    ensures Next(Cell(Rank6, FileD), TurnClockwise(Clock10)) == Some(Cell(Rank7, FileD))
    ensures Next(Cell(Rank6, FileD), TurnCounterClockwise(Clock10)) == Some(Cell(Rank5, FileC))
  {
  }

  lemma CentreLeapClock10(c: Cell)
    requires c == Cells.Default
    ensures LeapTargets(c, Clock10) == [Some(Cell(Rank7, FileD)), Some(Cell(Rank5, FileC))]
    ensures LeapWithin(c, Clock10, CentreLeaps)
  {
    CentreLeapSteps10();
  }

  /** The two straight steps along Clock12 from F6, and the two turned steps from there. */
  lemma CentreLeapSteps12()
    ensures Next(Cells.Default, Clock12) == Some(Cell(Rank7, FileF))
    ensures Next(Cell(Rank7, FileF), Clock12) == Some(Cell(Rank8, FileF))
    ensures Next(Cell(Rank8, FileF), TurnClockwise(Clock12)) == Some(Cell(Rank8, FileG))
    ensures Next(Cell(Rank8, FileF), TurnCounterClockwise(Clock12)) == Some(Cell(Rank8, FileE))
  {
  }

  lemma CentreLeapClock12(c: Cell)
    requires c == Cells.Default
    ensures LeapTargets(c, Clock12) == [Some(Cell(Rank8, FileG)), Some(Cell(Rank8, FileE))]
    ensures LeapWithin(c, Clock12, CentreLeaps)
  {
    CentreLeapSteps12();
  }

  /** The twelve cells a knight on F6 can reach. */
  const CentreLeaps: set<Cell> := {Cell(Rank5, FileI), Cell(Rank7, FileH), Cell(Rank3, FileH), Cell(Rank4, FileI), Cell(Rank3, FileE), Cell(Rank3, FileG), Cell(Rank4, FileC), Cell(Rank3, FileD), Cell(Rank7, FileD), Cell(Rank5, FileC), Cell(Rank8, FileG), Cell(Rank8, FileE)}

  /** Two candidates per direction of dirs, all of them cells of within. */
  predicate TargetsWithin(c: Cell, dirs: seq<Direction>, within: set<Cell>)
  {
    && |Targets(c, dirs)| == 2 * |dirs|
    && forall t :: t in Targets(c, dirs) ==> t.Some? && t.value in within
  }

  /** Direction d gives two candidates, both cells of within. */
  predicate LeapWithin(c: Cell, d: Direction, within: set<Cell>)
  {
    && |LeapTargets(c, d)| == 2
    && forall t :: t in LeapTargets(c, d) ==> t.Some? && t.value in within
  }

  /** When every direction of dirs gives two candidates within, all candidates lie within. */
  lemma {:induction false} AllTargetsWithin(c: Cell, dirs: seq<Direction>, within: set<Cell>)
    requires forall d :: d in dirs ==> LeapWithin(c, d, within)
    ensures TargetsWithin(c, dirs, within)
    decreases |dirs|
  {
    if dirs != [] {
      assert dirs[0] in dirs;
      assert forall d :: d in dirs[1..] ==> d in dirs;
      AllTargetsWithin(c, dirs[1..], within);
    }
  }

  /** On an empty board, candidates that all lie within give two quiet moves per direction, all within. */
  lemma EmptyBoardWithin(colour: Colour, c: Cell, within: set<Cell>)
    requires TargetsWithin(c, StraightDirections, within)
    ensures |ValidMoves(colour, c, map[])| == 12
    ensures forall m :: m in ValidMoves(colour, c, map[]) ==> m.moveType == Rest(NonCapture) && m.moveTo in within
  {
    assert |StraightDirections| == 6;
    LandingsWithin(Targets(c, StraightDirections), colour, within);
  }

  /** Landing on an empty board on candidates that all exist and lie within gives one quiet move to each, all within. */
  lemma LandingsWithin(ts: seq<Option<Cell>>, colour: Colour, within: set<Cell>)
    requires forall t :: t in ts ==> t.Some? && t.value in within
    ensures |Landings(ts, colour, map[])| == |ts|
    ensures forall m :: m in Landings(ts, colour, map[]) ==> m.moveType == Rest(NonCapture) && m.moveTo in within
  {
    assert forall i :: 0 <= i < |ts| ==> ts[i] in ts;
    LandingsOnEmptyBoard(ts, colour);
    var ms := Quiet(Present(ts));
    forall m | m in ms
      ensures m.moveType == Rest(NonCapture) && m.moveTo in within
    {
      var i :| 0 <= i < |ms| && ms[i] == m;
      assert ts[i] in ts;
    }
  }

  /**
   * On an otherwise empty board a knight on F6 has twelve quiet moves, onto
   * I5, H7, H3, I4, E3, G3, C4, D3, D7, C5, G8 and E8.
   */
  lemma CentreOnEmptyBoard(colour: Colour, c: Cell)
    requires c == Cells.Default
    ensures |ValidMoves(colour, c, map[])| == 12
    ensures forall m :: m in ValidMoves(colour, c, map[]) ==> m.moveType == Rest(NonCapture) && m.moveTo in CentreLeaps
  {
    CentreLeapsWithin(c);
    EmptyBoardWithin(colour, c, CentreLeaps);
  }

  /** Each straight direction from F6 gives two candidates, all among the twelve cells. */
  lemma CentreLeapsWithin(c: Cell)
    requires c == Cells.Default
    ensures TargetsWithin(c, StraightDirections, CentreLeaps)
  {
    forall d | d in StraightDirections
      ensures LeapWithin(c, d, CentreLeaps)
    {
      if d == Clock2 {
        CentreLeapClock2(c);
      } else if d == Clock4 {
        CentreLeapClock4(c);
      } else if d == Clock6 {
        CentreLeapClock6(c);
      } else if d == Clock8 {
        CentreLeapClock8(c);
      } else if d == Clock10 {
        CentreLeapClock10(c);
      } else {
        CentreLeapClock12(c);
      }
    }
    AllTargetsWithin(c, StraightDirections, CentreLeaps);
  }
}
