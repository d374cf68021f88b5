/** The twelve clock-face directions and their reflection/rotation algebra. */
module Directions {

  datatype Direction =
    | Clock1 | Clock2 | Clock3 | Clock4 | Clock5 | Clock6
    | Clock7 | Clock8 | Clock9 | Clock10 | Clock11 | Clock12

  /** The clock number of a direction, 1..12. */
  function Hour(d: Direction): (h: int)
    ensures 1 <= h <= 12
  {
    match d
    case Clock1 => 1  case Clock2 => 2  case Clock3 => 3  case Clock4 => 4
    case Clock5 => 5  case Clock6 => 6  case Clock7 => 7  case Clock8 => 8
    case Clock9 => 9  case Clock10 => 10 case Clock11 => 11 case Clock12 => 12
  }

  /** Even hours are the six true neighbour directions, odd hours the diagonals. */
  predicate IsStraight(d: Direction) { Hour(d) % 2 == 0 }

  function Reverse(d: Direction): (r: Direction)
    ensures Hour(r) == (Hour(d) + 5) % 12 + 1
  {
    match d
    case Clock1 => Clock7
    case Clock3 => Clock9
    case Clock5 => Clock11
    case Clock7 => Clock1
    case Clock9 => Clock3
    case Clock11 => Clock5
    case Clock2 => Clock8
    case Clock4 => Clock10
    case Clock6 => Clock12
    case Clock8 => Clock2
    case Clock10 => Clock4
    case Clock12 => Clock6
  }

  function TurnClockwise(d: Direction): (r: Direction)
    ensures Hour(r) == (Hour(d) + 1) % 12 + 1
  {
    match d
    case Clock1 => Clock3
    case Clock3 => Clock5
    case Clock5 => Clock7
    case Clock7 => Clock9
    case Clock9 => Clock11
    case Clock11 => Clock1
    case Clock2 => Clock4
    case Clock4 => Clock6
    case Clock6 => Clock8
    case Clock8 => Clock10
    case Clock10 => Clock12
    case Clock12 => Clock2
  }

  function TurnCounterClockwise(d: Direction): (r: Direction)
    ensures Hour(r) == (Hour(d) + 9) % 12 + 1
  {
    match d
    case Clock1 => Clock11
    case Clock3 => Clock1
    case Clock5 => Clock3
    case Clock7 => Clock5
    case Clock9 => Clock7
    case Clock11 => Clock9
    case Clock2 => Clock12
    case Clock4 => Clock2
    case Clock6 => Clock4
    case Clock8 => Clock6
    case Clock10 => Clock8
    case Clock12 => Clock10
  }

  lemma HourInjective(a: Direction, b: Direction)
    requires Hour(a) == Hour(b)
    ensures a == b
  {
  }

  lemma ReverseInvolution(d: Direction)
    ensures Reverse(Reverse(d)) == d
    ensures Reverse(d) != d
  {
  }

  lemma TurnsAreInverse(d: Direction)
    ensures TurnCounterClockwise(TurnClockwise(d)) == d
    ensures TurnClockwise(TurnCounterClockwise(d)) == d
  {
  }

  lemma TurnsPreserveParity(d: Direction)
    ensures IsStraight(TurnClockwise(d)) == IsStraight(d)
    ensures IsStraight(TurnCounterClockwise(d)) == IsStraight(d)
    ensures IsStraight(Reverse(d)) == IsStraight(d)
  {
  }

  /** Six clockwise turns, and six counter-clockwise turns, are the identity. */
  lemma SixTurnsIdentity(d: Direction)
    ensures TurnClockwise(TurnClockwise(TurnClockwise(TurnClockwise(TurnClockwise(TurnClockwise(d)))))) == d
    ensures TurnCounterClockwise(TurnCounterClockwise(TurnCounterClockwise(
              TurnCounterClockwise(TurnCounterClockwise(TurnCounterClockwise(d)))))) == d
  {
  }

  /** Reflection is a half turn: three clockwise turns. */
  lemma ReverseIsHalfTurn(d: Direction)
    ensures Reverse(d) == TurnClockwise(TurnClockwise(TurnClockwise(d)))
  {
  }

  lemma ReverseCommutesWithTurns(d: Direction)
    ensures Reverse(TurnClockwise(d)) == TurnClockwise(Reverse(d))
    ensures Reverse(TurnCounterClockwise(d)) == TurnCounterClockwise(Reverse(d))
  {
  }

  /** The direction tables the pieces iterate, in clock order. */
  const AllDirections: seq<Direction> :=
    [Clock1, Clock2, Clock3, Clock4, Clock5, Clock6, Clock7, Clock8, Clock9, Clock10, Clock11, Clock12]
  const StraightDirections: seq<Direction> := [Clock2, Clock4, Clock6, Clock8, Clock10, Clock12]
  const DiagonalDirections: seq<Direction> := [Clock1, Clock3, Clock5, Clock7, Clock9, Clock11]

  lemma DirectionTables()
    ensures forall i :: 0 <= i < 12 ==> Hour(AllDirections[i]) == i + 1
    ensures forall i :: 0 <= i < 6 ==> StraightDirections[i] == AllDirections[2 * i + 1]
    ensures forall i :: 0 <= i < 6 ==> DiagonalDirections[i] == AllDirections[2 * i]
    ensures forall d :: d in AllDirections
  {
    forall d: Direction ensures d in AllDirections {
      HourInjective(AllDirections[Hour(d) - 1], d);
    }
  }
}
