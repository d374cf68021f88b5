/**
 * Doubled-height coordinates of a cell, used to place it on screen: x is the
 * file offset from the centre file, y counts half-cell heights from the
 * centre cell, so neighbouring cells differ by small fixed offsets.
 */
module Reprs {
  import opened Wrappers
  import Ranks
  import Files
  import opened Directions
  import opened Cells

  datatype Repr = Repr(x: int, y: int)

  /** The difference of two positions (`Delta<isize>`). */
  datatype Delta = Delta(x: int, y: int)

  function Abs(v: int): nat { if v < 0 then -v else v }

  /** x and y have the same parity: the positions that are cell centres. */
  predicate SameParity(x: int, y: int) { Abs(x) % 2 == Abs(y) % 2 }

  /** `Repr::try_new`: rejects positions of mixed parity. */
  function TryNew(x: int, y: int): (r: Result<Repr>)
    ensures r.Ok? <==> SameParity(x, y)
    ensures r.Ok? ==> r.value == Repr(x, y)
  {
    if Abs(x) % 2 != Abs(y) % 2 then Err("x and y must be of same parity")
    else Ok(Repr(x, y))
  }

  /** `Repr::new`: `try_new` unwrapped. */
  function New(x: int, y: int): (r: Repr)
    requires SameParity(x, y)
    ensures r == Repr(x, y)
  {
    TryNew(x, y).value
  }

  predicate Valid(r: Repr) { SameParity(r.x, r.y) }

  /** `Repr::from(Cell)`: x is the file offset from F, y = |x| + 2 * (rank offset from 6). */
  function FromCell(c: Cell): (r: Repr)
    ensures Valid(r)
    ensures r.x == Files.Ord(c.file) - 5
    ensures r.y - Abs(r.x) == 2 * (Ranks.Ord(c.rank) - 5)
  {
    var x := Files.Sub(c.file, Files.Default);
    var y := Abs(x) + Ranks.Sub(c.rank, Ranks.Default) * 2;
    New(x, y)
  }

  /** The offset `Repr::next` adds for each direction. */
  function Offset(d: Direction): Delta
  {
    match d
    case Clock1 => Delta(1, 3)
    case Clock2 => Delta(1, 1)
    case Clock3 => Delta(2, 0)
    case Clock4 => Delta(1, -1)
    case Clock5 => Delta(1, -3)
    case Clock6 => Delta(0, -2)
    case Clock7 => Delta(-1, -3)
    case Clock8 => Delta(-1, -1)
    case Clock9 => Delta(-2, 0)
    case Clock10 => Delta(-1, 1)
    case Clock11 => Delta(-1, 3)
    case Clock12 => Delta(0, 2)
  }

  /** `Repr::next`: the position one step away in direction d; the step keeps parity. */
  function Next(r: Repr, d: Direction): (n: Repr)
    requires Valid(r)
    ensures Valid(n)
    ensures Sub(n, r) == Offset(d)
  {
    var (x, y) := match d
      case Clock1 => (r.x + 1, r.y + 3)
      case Clock2 => (r.x + 1, r.y + 1)
      case Clock3 => (r.x + 2, r.y)
      case Clock4 => (r.x + 1, r.y - 1)
      case Clock5 => (r.x + 1, r.y - 3)
      case Clock6 => (r.x, r.y - 2)
      case Clock7 => (r.x - 1, r.y - 3)
      case Clock8 => (r.x - 1, r.y - 1)
      case Clock9 => (r.x - 2, r.y)
      case Clock10 => (r.x - 1, r.y + 1)
      case Clock11 => (r.x - 1, r.y + 3)
      case Clock12 => (r.x, r.y + 2);
    ParityStep(r.x, r.y, x - r.x, y - r.y);
    New(x, y)
  }

  /** Adding offsets whose parities agree keeps the parities of x and y equal. */
  lemma ParityStep(x: int, y: int, dx: int, dy: int)
    requires SameParity(x, y) && SameParity(dx, dy)
    ensures SameParity(x + dx, y + dy)
  {
    ParityByRemainder(x, y);
    ParityByRemainder(dx, dy);
    ParityByRemainder(x + dx, y + dy);
    RemainderOfSum(x, dx);
    RemainderOfSum(y, dy);
  }

  /** Same parity is equal remainders modulo 2. */
  lemma ParityByRemainder(x: int, y: int)
    ensures SameParity(x, y) <==> x % 2 == y % 2
  {
    AbsParity(x);
    AbsParity(y);
  }

  /** The remainder of a sum modulo 2 is that of the sum of the remainders. */
  lemma RemainderOfSum(a: int, b: int)
    ensures (a + b) % 2 == (a % 2 + b % 2) % 2
  {
  }

  /** Negation keeps parity: Dafny's remainder is never negative. */
  lemma AbsParity(v: int)
    ensures Abs(v) % 2 == v % 2
  {
    if v < 0 {
      assert v % 2 == (v + 2 * (-v)) % 2;
    }
  }

  /** `Repr - Repr`: the componentwise difference. */
  function Sub(a: Repr, b: Repr): (dl: Delta)
    ensures dl == Delta(0, 0) <==> a == b
  {
    Delta(a.x - b.x, a.y - b.y)
  }

  /** The centre cell F6 sits at the origin. */
  lemma DefaultAtOrigin()
    ensures FromCell(Cells.Default) == Repr(0, 0)
  {
  }

  /** Distinct cells have distinct positions. */
  lemma FromCellInjective(a: Cell, b: Cell)
    ensures FromCell(a) == FromCell(b) <==> a == b
  {
    if FromCell(a) == FromCell(b) {
      Files.OrdInjective(a.file, b.file);
      Ranks.OrdInjective(a.rank, b.rank);
    }
  }

  /**
   * The board step and the position step agree: whenever `Cell::next` finds a
   * neighbour, its position is `Repr::next` of the cell's position.
   */
  lemma NextCommutes(c: Cell, d: Direction)
    ensures Cells.Next(c, d).Some? ==> FromCell(Cells.Next(c, d).value) == Next(FromCell(c), d)
  {
    NextIsStep(c, d);
    if Cells.Next(c, d).Some? {
      var n := Cells.Next(c, d).value;
      var ro, fo := Ranks.Ord(c.rank), Files.Ord(c.file);
      assert Ranks.Ord(n.rank) == ro + Cells.RankStep(d, fo) && Files.Ord(n.file) == fo + Cells.FileStep(d);
      StepOffset(ro, fo, d);
      var r := Next(FromCell(c), d);
      assert FromCell(n).x == r.x && FromCell(n).y == r.y;
    }
  }

  /** In positions, an ordinal step in direction d moves by Offset(d). */
  lemma StepOffset(ro: int, fo: int, d: Direction)
    ensures var fo' := fo + Cells.FileStep(d);
      && fo' - fo == Offset(d).x
      && (Abs(fo' - 5) + 2 * (ro + Cells.RankStep(d, fo) - 5)) - (Abs(fo - 5) + 2 * (ro - 5)) == Offset(d).y
  {
  }

  /** Stepping forth and back in reverse is the identity on positions. */
  lemma NextReverse(r: Repr, d: Direction)
    requires Valid(r)
    ensures Next(Next(r, d), Reverse(d)) == r
  {
  }

  /** The twelve directions lead to twelve different positions. */
  lemma OffsetsDistinct(d1: Direction, d2: Direction)
    requires Offset(d1) == Offset(d2)
    ensures d1 == d2
  {
  }

  /** A cell's neighbours in different directions are different cells. */
  lemma NeighboursDistinct(c: Cell, d1: Direction, d2: Direction)
    requires Cells.Next(c, d1).Some? && Cells.Next(c, d1) == Cells.Next(c, d2)
    ensures d1 == d2
  {
    NextCommutes(c, d1);
    NextCommutes(c, d2);
    assert Sub(Next(FromCell(c), d1), FromCell(c)) == Sub(Next(FromCell(c), d2), FromCell(c));
    OffsetsDistinct(d1, d2);
  }

  /** Hexagonal distance of an offset, counted in neighbour steps. */
  function Distance(dl: Delta): (n: nat)
    ensures SameParity(dl.x, dl.y) ==> (n == 0 <==> dl == Delta(0, 0))
  {
    if Abs(dl.y) <= Abs(dl.x) then Abs(dl.x) else (Abs(dl.x) + Abs(dl.y)) / 2
  }

  /** The straight (even-hour) directions reach adjacent cells, the diagonals cells two steps away. */
  lemma StepDistance(r: Repr, d: Direction)
    requires Valid(r)
    ensures Distance(Sub(Next(r, d), r)) == if IsStraight(d) then 1 else 2
  {
  }
}
