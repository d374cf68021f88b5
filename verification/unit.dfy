/** A board cell as a drawable unit hexagon: a validated cell with its position. */
module UnitHexagons {
  import opened Wrappers
  import Ranks
  import Files
  import opened Directions
  import opened Cells
  import Reprs

  datatype UnitHexagon = UnitHexagon(cell: Cell)

  /** `UnitHexagon::try_new`: fails exactly when `Cell::try_new` fails. */
  function TryNew(rank: Ranks.Rank, file: Files.File): (r: Result<UnitHexagon>)
    ensures r.Ok? <==> Cells.TryNew(rank, file).Ok?
    ensures r.Ok? ==> Valid(r.value.cell)
  {
    var c := Cells.TryNew(rank, file);
    if c.Ok? then Ok(UnitHexagon(c.value)) else Err(c.msg)
  }

  /** `UnitHexagon::new`: `try_new` unwrapped. */
  function New(rank: Ranks.Rank, file: Files.File): (u: UnitHexagon)
    requires Inside(Ranks.Ord(rank), Files.Ord(file))
    ensures CellOf(u) == Cell(rank, file)
  {
    TryNew(rank, file).value
  }

  /** The derived default: the centre cell. */
  const Default: UnitHexagon := UnitHexagon(Cells.Default)

  function CellOf(u: UnitHexagon): Cell { u.cell }

  /** `a - b`: the offset between the positions of the two cells. */
  function Sub(a: UnitHexagon, b: UnitHexagon): (dl: Reprs.Delta)
    ensures dl == Reprs.Delta(0, 0) <==> a == b
  {
    Reprs.FromCellInjective(a.cell, b.cell);
    Reprs.Sub(Reprs.FromCell(a.cell), Reprs.FromCell(b.cell))
  }

  /** `cell()` gives back the cell the hexagon was built from. */
  lemma CellRoundTrip(rank: Ranks.Rank, file: Files.File)
    requires TryNew(rank, file).Ok?
    ensures CellOf(TryNew(rank, file).value) == Cell(rank, file)
  {
  }

  /** Swapping the operands negates the offset. */
  lemma SubAntisymmetric(a: UnitHexagon, b: UnitHexagon)
    ensures Sub(a, b).x == -Sub(b, a).x && Sub(a, b).y == -Sub(b, a).y
  {
  }

  /** The offset to a neighbour is the direction's fixed offset. */
  lemma SubOfNeighbour(a: UnitHexagon, b: UnitHexagon, d: Direction)
    requires Cells.Next(a.cell, d) == Some(b.cell)
    ensures Sub(b, a) == Reprs.Offset(d)
  {
    Reprs.NextCommutes(a.cell, d);
  }
}
