/**
 * The cell of the legacy snapshot: a rank and a file, nothing else, and a
 * neighbour table that only asks whether the rank and file it reaches
 * exist, never whether the pair lies inside the hexagonal outline.
 */
module LegacyCells {
  import opened Wrappers
  import opened Ranks
  import opened Files
  import opened Directions
  import Cells
  import OldRanks
  import OldFiles
  import OldCells

  /** The cell at the candidate rank and file, when both exist; the outline is not consulted. */
  function Pair(rank: Option<Rank>, file: Option<File>): Option<Cells.Cell>
  {
    if rank.Some? && file.Some? then Some(Cells.Cell(rank.value, file.value)) else None
  }

  /** `next_cell`: the neighbour in direction d, with the backend's offsets and without the outline test. */
  function NextCell(c: Cells.Cell, d: Direction): Option<Cells.Cell>
  {
    Pair(RankPart(c.rank, d), FilePart(c.file, d))
  }

  /** The rank `next_cell` asks for along d: one or two `next`/`previous` steps, or the rank itself. */
  function RankPart(r: Rank, d: Direction): Option<Rank>
  {
    match d
    case Clock1 => OldRanks.Next(r)
    case Clock2 => Some(r)
    case Clock3 => OldRanks.Previous(r)
    case Clock4 => OldRanks.Previous(r)
    case Clock5 => Cells.Then(OldRanks.Previous(r), OldRanks.Previous)
    case Clock6 => OldRanks.Previous(r)
    case Clock7 => Cells.Then(OldRanks.Previous(r), OldRanks.Previous)
    case Clock8 => OldRanks.Previous(r)
    case Clock9 => OldRanks.Previous(r)
    case Clock10 => Some(r)
    case Clock11 => OldRanks.Next(r)
    case Clock12 => OldRanks.Next(r)
  }

  /** The file `next_cell` asks for along d. */
  function FilePart(f: File, d: Direction): Option<File>
  {
    match d
    case Clock1 => OldFiles.Next(f)
    case Clock2 => OldFiles.Next(f)
    case Clock3 => Cells.Then(OldFiles.Next(f), OldFiles.Next)
    case Clock4 => OldFiles.Next(f)
    case Clock5 => OldFiles.Next(f)
    case Clock6 => Some(f)
    case Clock7 => OldFiles.Previous(f)
    case Clock8 => OldFiles.Previous(f)
    case Clock9 => Cells.Then(OldFiles.Previous(f), OldFiles.Previous)
    case Clock10 => OldFiles.Previous(f)
    case Clock11 => OldFiles.Previous(f)
    case Clock12 => Some(f)
  }

  /** The rank half moves the rank ordinal by RankDelta(d), failing off the ends. */
  lemma RankPartIsOffset(r: Rank, d: Direction)
    ensures RankPart(r, d) == Cells.RankAt(Ranks.Ord(r) + OldCells.RankDelta(d))
  {
    OldCells.RankSteps(r);
  }

  /** The file half moves the file ordinal by FileDelta(d), failing off the ends. */
  lemma FilePartIsOffset(f: File, d: Direction)
    ensures FilePart(f, d) == Cells.FileAt(Files.Ord(f) + OldCells.FileDelta(d))
  {
    OldCells.FileSteps(f);
  }

  /** The cell of the 11 by 11 square at the offset of d from p, inside the outline or not. */
  function Offset(p: Cells.Cell, d: Direction): (r: Option<Cells.Cell>)
    ensures var ro, fo := Ranks.Ord(p.rank) + OldCells.RankDelta(d), Files.Ord(p.file) + OldCells.FileDelta(d);
      && (r.Some? <==> 0 <= ro <= 10 && 0 <= fo <= 10)
      && (r.Some? ==> Ranks.Ord(r.value.rank) == ro && Files.Ord(r.value.file) == fo)
  {
    Pair(Cells.RankAt(Ranks.Ord(p.rank) + OldCells.RankDelta(d)), Cells.FileAt(Files.Ord(p.file) + OldCells.FileDelta(d)))
  }

  /**
   * The table of `next_cell` is the offset table: a step along d moves the
   * rank by RankDelta(d) and the file by FileDelta(d), and fails exactly when
   * the rank or the file runs off its range.
   */
  lemma NextCellIsOffset(p: Cells.Cell, d: Direction)
    ensures NextCell(p, d) == Offset(p, d)
  {
    RankPartIsOffset(p.rank, d);
    FilePartIsOffset(p.file, d);
  }

  /** Two cells with the same rank and file ordinals are the same cell. */
  lemma SameCell(a: Cells.Cell, b: Cells.Cell)
    requires Ranks.Ord(a.rank) == Ranks.Ord(b.rank) && Files.Ord(a.file) == Files.Ord(b.file)
    ensures a == b
  {
    Ranks.OrdInjective(a.rank, b.rank);
    Files.OrdInjective(a.file, b.file);
  }

  /**
   * The backend's step is the legacy step cut to the outline: the same
   * neighbour when it lies inside the outline, and none otherwise.
   */
  lemma StepIsNextCellInOutline(p: Cells.Cell, d: Direction)
    ensures OldCells.Step(p, d) ==
      if NextCell(p, d).Some? && Cells.Valid(NextCell(p, d).value) then NextCell(p, d) else None
  {
    NextCellIsOffset(p, d);
    var n, s := NextCell(p, d), OldCells.Step(p, d);
    if n.Some? {
      Cells.InOutlineByOrd(n.value.rank, n.value.file);
      if s.Some? {
        SameCell(s.value, n.value);
      }
    }
  }

  /**
   * The legacy table walks off the board: from A6, the top cell of file A,
   * Clock12 reaches A7, which the outline does not contain.
   */
  lemma LeavesOutline()
    ensures NextCell(Cells.Cell(Rank6, FileA), Clock12) == Some(Cells.Cell(Rank7, FileA))
    ensures !Cells.Valid(Cells.Cell(Rank7, FileA))
    ensures OldCells.Step(Cells.Cell(Rank6, FileA), Clock12).None?
  {
    NextCellIsOffset(Cells.Cell(Rank6, FileA), Clock12);
  }

  /** Clock12 and Clock6 undo each other everywhere on the square. */
  lemma VerticalInverse(p: Cells.Cell, q: Cells.Cell)
    ensures NextCell(p, Clock12) == Some(q) ==> NextCell(q, Clock6) == Some(p)
    ensures NextCell(p, Clock6) == Some(q) ==> NextCell(q, Clock12) == Some(p)
  {
    if NextCell(p, Clock12) == Some(q) {
      NextCellIsOffset(p, Clock12);
      NextCellIsOffset(q, Clock6);
      var back := Offset(q, Clock6);
      assert back.Some?;
      SameCell(back.value, p);
    }
    if NextCell(p, Clock6) == Some(q) {
      NextCellIsOffset(p, Clock6);
      NextCellIsOffset(q, Clock12);
      var back := Offset(q, Clock12);
      assert back.Some?;
      SameCell(back.value, p);
    }
  }

  /** `successors(cell.next_cell(d), |c| c.next_cell(d))`: the cells beyond p along d, up to the edge of the square. */
  function Ray(p: Cells.Cell, d: Direction): (ray: seq<Cells.Cell>)
    ensures forall x :: x in ray ==> OldCells.Measure(x, d) < OldCells.Measure(p, d)
    ensures |ray| == 0 <==> NextCell(p, d).None?
    ensures |ray| > 0 ==> ray[0] == NextCell(p, d).value
    decreases OldCells.Measure(p, d)
  {
    match NextCell(p, d)
    case None => []
    case Some(n) =>
      NextCellIsOffset(p, d);
      [n] + Ray(n, d)
  }

  /** The origin is never on its own ray. */
  lemma RayExcludesOrigin(p: Cells.Cell, d: Direction)
    ensures p !in Ray(p, d)
  {
  }

  /** Where the backend steps, the legacy table steps to the same cell, and both rays continue from it. */
  lemma RaysAgreeOnStep(p: Cells.Cell, d: Direction, n: Cells.Cell)
    requires OldCells.Step(p, d) == Some(n)
    ensures OldCells.Ray(p, d) == [n] + OldCells.Ray(n, d)
    ensures Ray(p, d) == [n] + Ray(n, d)
  {
    StepIsNextCellInOutline(p, d);
  }

  /** A common first cell keeps one sequence a prefix of another. */
  lemma PrefixCons(n: Cells.Cell, a: seq<Cells.Cell>, b: seq<Cells.Cell>)
    requires |a| <= |b| && a == b[..|a|]
    ensures |[n] + a| <= |[n] + b| && [n] + a == ([n] + b)[..|[n] + a|]
  {
  }

  /**
   * The backend's ray is a prefix of the legacy ray: both follow the same
   * offsets, and the backend stops where the outline ends.
   */
  lemma {:induction false} RayPrefix(p: Cells.Cell, d: Direction)
    ensures |OldCells.Ray(p, d)| <= |Ray(p, d)|
    ensures OldCells.Ray(p, d) == Ray(p, d)[..|OldCells.Ray(p, d)|]
    decreases OldCells.Measure(p, d)
  {
    var s := OldCells.Step(p, d);
    if s.Some? {
      var n := s.value;
      RaysAgreeOnStep(p, d, n);
      assert OldCells.Measure(n, d) < OldCells.Measure(p, d);
      RayPrefix(n, d);
      PrefixCons(n, OldCells.Ray(n, d), Ray(n, d));
    }
  }
}
