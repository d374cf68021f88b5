/** The highlight a backend cell carries for drawing. */
module Highlights {
  datatype HighlightLevel = None | Current | Capturable | Movable
}

/**
 * The cell of the backend snapshot: a rank, a file and a highlight level,
 * with a neighbour table whose offsets do not depend on the side of the
 * centre file.
 */
module OldCells {
  import opened Wrappers
  import opened Ranks
  import opened Files
  import opened Directions
  import Cells
  import OldRanks
  import OldFiles
  import Highlights

  datatype Cell = Cell(rank: Rank, file: File, highlightLevel: Highlights.HighlightLevel)

  /** The part of a cell that equality and hashing look at. */
  function Position(c: Cell): Cells.Cell
  {
    Cells.Cell(c.rank, c.file)
  }

  /** `PartialEq::eq`: rank and file agree; the highlight level is ignored. */
  function Eq(a: Cell, b: Cell): (r: bool)
    ensures r <==> Position(a) == Position(b)
  {
    a.rank == b.rank && a.file == b.file
  }

  /** `Sub`: the file difference and the rank difference, in that order. */
  function Sub(a: Cell, b: Cell): (d: (int, int))
    ensures d == (0, 0) <==> Eq(a, b)
    ensures -10 <= d.0 <= 10 && -10 <= d.1 <= 10
  {
    (OldFiles.Sub(a.file, b.file), OldRanks.Sub(a.rank, b.rank))
  }

  /** `new`: a cell without the outline check, and without highlight. */
  function New(rank: Rank, file: File): (c: Cell)
    ensures Position(c) == Cells.Cell(rank, file)
    ensures c.highlightLevel == Highlights.None
  {
    Cell(rank, file, Highlights.None)
  }

  /**
   * `try_new`: the cell when (rank, file) lies inside the outline. The test is
   * the one the final snapshot's `Cell::try_new` makes, rank by rank.
   */
  function TryNew(rank: Rank, file: File): (r: Option<Cell>)
    ensures r.Some? <==> Cells.TryNew(rank, file).Ok?
    ensures r.Some? ==> r.value == New(rank, file)
  {
    if Cells.InOutline(rank, file) then Some(New(rank, file)) else None
  }

  /** `set_highlight_level`: only the highlight changes, so the cell stays equal to itself. */
  function SetHighlightLevel(c: Cell, h: Highlights.HighlightLevel): (r: Cell)
    ensures Eq(r, c) && r.highlightLevel == h
  {
    c.(highlightLevel := h)
  }

  /** The cell at the candidate rank and file, when both exist and the pair lies inside the outline. */
  function Join(rank: Option<Rank>, file: Option<File>): Option<Cell>
  {
    if rank.Some? && file.Some? then TryNew(rank.value, file.value) else None
  }

  /** `next_cell`: the neighbour in direction d, the same offsets on both sides of the centre file. */
  function NextCell(c: Cell, d: Direction): (r: Option<Cell>)
    ensures r.Some? ==> Cells.Valid(Position(r.value)) && r.value.highlightLevel == Highlights.None
  {
    match d
    case Clock1 => Join(OldRanks.Next(c.rank), OldFiles.Next(c.file))
    case Clock2 => Join(Some(c.rank), OldFiles.Next(c.file))
    case Clock3 => Join(OldRanks.Previous(c.rank), Cells.Then(OldFiles.Next(c.file), OldFiles.Next))
    case Clock4 => Join(OldRanks.Previous(c.rank), OldFiles.Next(c.file))
    case Clock5 => Join(Cells.Then(OldRanks.Previous(c.rank), OldRanks.Previous), OldFiles.Next(c.file))
    case Clock6 => Join(OldRanks.Previous(c.rank), Some(c.file))
    case Clock7 => Join(Cells.Then(OldRanks.Previous(c.rank), OldRanks.Previous), OldFiles.Previous(c.file))
    case Clock8 => Join(OldRanks.Previous(c.rank), OldFiles.Previous(c.file))
    case Clock9 => Join(OldRanks.Previous(c.rank), Cells.Then(OldFiles.Previous(c.file), OldFiles.Previous))
    case Clock10 => Join(Some(c.rank), OldFiles.Previous(c.file))
    case Clock11 => Join(OldRanks.Next(c.rank), OldFiles.Previous(c.file))
    case Clock12 => Join(OldRanks.Next(c.rank), Some(c.file))
  }

  /** The rank change of one step along d. */
  function RankDelta(d: Direction): int
  {
    match d
    case Clock1 => 1   case Clock2 => 0   case Clock3 => -1  case Clock4 => -1
    case Clock5 => -2  case Clock6 => -1  case Clock7 => -2  case Clock8 => -1
    case Clock9 => -1  case Clock10 => 0  case Clock11 => 1  case Clock12 => 1
  }

  /** The file change of one step along d. */
  function FileDelta(d: Direction): int
  {
    match d
    case Clock1 => 1   case Clock2 => 1   case Clock3 => 2   case Clock4 => 1
    case Clock5 => 1   case Clock6 => 0   case Clock7 => -1  case Clock8 => -1
    case Clock9 => -2  case Clock10 => -1 case Clock11 => -1 case Clock12 => 0
  }

  /**
   * `next_cell` on positions, which is all the move generators look at: the
   * cell at the offset of d, when it lies inside the outline.
   */
  function Step(p: Cells.Cell, d: Direction): (r: Option<Cells.Cell>)
    ensures r.Some? ==> Cells.Valid(r.value)
    ensures r.Some? ==> Ranks.Ord(r.value.rank) == Ranks.Ord(p.rank) + RankDelta(d)
    ensures r.Some? ==> Files.Ord(r.value.file) == Files.Ord(p.file) + FileDelta(d)
    ensures r.None? <==> !Cells.Inside(Ranks.Ord(p.rank) + RankDelta(d), Files.Ord(p.file) + FileDelta(d))
  {
    Cells.Place(Ranks.Ord(p.rank) + RankDelta(d), Files.Ord(p.file) + FileDelta(d))
  }

  /** The position of an optional cell. */
  function PositionOf(o: Option<Cell>): Option<Cells.Cell>
  {
    if o.Some? then Some(Position(o.value)) else None
  }

  /** The rank reached by `next`/`previous` steps, by ordinal. */
  lemma RankSteps(r: Rank)
    ensures OldRanks.Next(r) == Cells.RankAt(Ranks.Ord(r) + 1)
    ensures OldRanks.Previous(r) == Cells.RankAt(Ranks.Ord(r) - 1)
    ensures Cells.Then(OldRanks.Previous(r), OldRanks.Previous) == Cells.RankAt(Ranks.Ord(r) - 2)
  {
    OldRanks.SameAsFinal(r);
    Cells.RankMoves(r);
    if OldRanks.Previous(r).Some? {
      OldRanks.SameAsFinal(OldRanks.Previous(r).value);
    }
  }

  /** The file reached by `next`/`previous` steps, by ordinal. */
  lemma FileSteps(f: File)
    ensures OldFiles.Next(f) == Cells.FileAt(Files.Ord(f) + 1)
    ensures OldFiles.Previous(f) == Cells.FileAt(Files.Ord(f) - 1)
    ensures Cells.Then(OldFiles.Next(f), OldFiles.Next) == Cells.FileAt(Files.Ord(f) + 2)
    ensures Cells.Then(OldFiles.Previous(f), OldFiles.Previous) == Cells.FileAt(Files.Ord(f) - 2)
  {
    OldFiles.SameAsFinal(f);
    Cells.FileMoves(f);
    if OldFiles.Next(f).Some? {
      OldFiles.SameAsFinal(OldFiles.Next(f).value);
    }
    if OldFiles.Previous(f).Some? {
      OldFiles.SameAsFinal(OldFiles.Previous(f).value);
    }
  }

  /** The candidate rank and file of `next_cell` are the ones at the offsets of d. */
  lemma NextCellByOrd(c: Cell, d: Direction)
    ensures NextCell(c, d) == Join(Cells.RankAt(Ranks.Ord(c.rank) + RankDelta(d)), Cells.FileAt(Files.Ord(c.file) + FileDelta(d)))
  {
    RankSteps(c.rank);
    FileSteps(c.file);
    Cells.RankMoves(c.rank);
    Cells.FileMoves(c.file);
  }

  /** Joining the rank and file at two ordinals gives the cell at those ordinals. */
  lemma JoinAt(ro: int, fo: int)
    ensures PositionOf(Join(Cells.RankAt(ro), Cells.FileAt(fo))) == Cells.Place(ro, fo)
  {
    Cells.FinishIsPlace(ro, fo);
  }

  /**
   * The table of `next_cell` is the offset table: a step along d moves the
   * rank by RankDelta(d) and the file by FileDelta(d), whatever the side of
   * the centre file and whatever the highlight, and fails exactly when the
   * target leaves the outline.
   */
  lemma NextCellIsStep(c: Cell, d: Direction)
    ensures PositionOf(NextCell(c, d)) == Step(Position(c), d)
  {
    NextCellByOrd(c, d);
    JoinAt(Ranks.Ord(c.rank) + RankDelta(d), Files.Ord(c.file) + FileDelta(d));
  }

  /** Clock12 and Clock6 undo each other. */
  lemma VerticalInverse(p: Cells.Cell, q: Cells.Cell)
    requires Cells.Valid(p)
    ensures Step(p, Clock12) == Some(q) ==> Step(q, Clock6) == Some(p)
    ensures Step(p, Clock6) == Some(q) ==> Step(q, Clock12) == Some(p)
  {
    Cells.PlaceOfCell(p);
    var ro, fo := Ranks.Ord(p.rank), Files.Ord(p.file);
    if Step(p, Clock12) == Some(q) {
      PlaceBack(q, ro + 1, fo, -1);
    }
    if Step(p, Clock6) == Some(q) {
      PlaceBack(q, ro - 1, fo, 1);
    }
  }

  /** A cell placed at ordinals (ro, fo), moved k ranks, is the cell at (ro + k, fo). */
  lemma PlaceBack(q: Cells.Cell, ro: int, fo: int, k: int)
    requires Cells.Place(ro, fo) == Some(q)
    ensures Cells.Place(Ranks.Ord(q.rank) + k, Files.Ord(q.file)) == Cells.Place(ro + k, fo)
  {
  }

  /** A step reaches the cell of the outline at the offset ordinals. */
  lemma StepAt(p: Cells.Cell, d: Direction, q: Cells.Cell)
    requires Cells.Valid(q)
    requires Ranks.Ord(q.rank) == Ranks.Ord(p.rank) + RankDelta(d)
    requires Files.Ord(q.file) == Files.Ord(p.file) + FileDelta(d)
    ensures Step(p, d) == Some(q)
  {
    Cells.PlaceOfCell(q);
  }

  /**
   * The table is not symmetric under `reverse`: Clock2 followed by Clock8,
   * its reverse, lands one rank below the start, on the same file.
   */
  lemma NotReverseSymmetric(p: Cells.Cell, q: Cells.Cell, t: Cells.Cell)
    requires Step(p, Clock2) == Some(q) && Step(q, Clock8) == Some(t)
    ensures Reverse(Clock2) == Clock8
    ensures t.file == p.file && Ranks.Ord(t.rank) == Ranks.Ord(p.rank) - 1
    ensures t != p
  {
  }

  /** From the centre F6, Clock2 reaches G6, and Clock8 from there reaches F5 rather than F6. */
  lemma CentreClock2Clock8()
    ensures Step(Cells.Default, Clock2) == Some(Cells.Cell(Rank6, FileG))
    ensures Step(Cells.Cell(Rank6, FileG), Clock8) == Some(Cells.Cell(Rank5, FileF))
  {
  }

  /** A quantity every step along d lowers: the file for sideways directions, the rank for Clock6 and Clock12. */
  function Measure(p: Cells.Cell, d: Direction): nat
  {
    if FileDelta(d) > 0 then 10 - Files.Ord(p.file)
    else if FileDelta(d) < 0 then Files.Ord(p.file)
    else if RankDelta(d) > 0 then 10 - Ranks.Ord(p.rank)
    else Ranks.Ord(p.rank)
  }

  /** `successors(cell.next_cell(d), |c| c.next_cell(d))` on positions: the cells beyond p along d, up to the edge. */
  function Ray(p: Cells.Cell, d: Direction): (ray: seq<Cells.Cell>)
    ensures forall x :: x in ray ==> Cells.Valid(x) && Measure(x, d) < Measure(p, d)
    ensures |ray| == 0 <==> Step(p, d).None?
    ensures |ray| > 0 ==> ray[0] == Step(p, d).value
    decreases Measure(p, d)
  {
    match Step(p, d)
    case None => []
    case Some(n) => [n] + Ray(n, d)
  }

  /** The origin is never on its own ray. */
  lemma RayExcludesOrigin(p: Cells.Cell, d: Direction)
    ensures p !in Ray(p, d)
  {
  }
}
