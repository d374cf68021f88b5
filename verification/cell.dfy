/**
 * A cell of the 91-cell hexagonal board, named by rank and file, and its
 * neighbours in the twelve clock directions.
 */
module Cells {
  import opened Wrappers
  import opened Ranks
  import opened Files
  import opened Directions

  datatype Cell = Cell(rank: Rank, file: File)

  /**
   * The board outline as `Cell::try_new` tests it: ranks 1-6 exist on every
   * file, and each higher rank loses one file at either edge.
   */
  predicate InOutline(rank: Rank, file: File)
  {
    match rank
    case Rank7 => Files.Ord(file) < Files.Ord(FileL) && Files.Ord(file) > Files.Ord(FileA)
    case Rank8 => Files.Ord(file) < Files.Ord(FileK) && Files.Ord(file) > Files.Ord(FileB)
    case Rank9 => Files.Ord(file) < Files.Ord(FileI) && Files.Ord(file) > Files.Ord(FileC)
    case Rank10 => Files.Ord(file) < Files.Ord(FileH) && Files.Ord(file) > Files.Ord(FileD)
    case Rank11 => Files.Ord(file) < Files.Ord(FileG) && Files.Ord(file) > Files.Ord(FileE)
    case _ => true
  }

  /** The outline in ordinals: a column is 11 ranks high at F and one less per file away. */
  predicate Inside(ro: int, fo: int)
  {
    0 <= ro <= 10 && 0 <= fo <= 10 && ro <= 10 - Abs(fo - 5)
  }

  lemma InOutlineByOrd(rank: Rank, file: File)
    ensures InOutline(rank, file) <==> Inside(Ranks.Ord(rank), Files.Ord(file))
  {
  }

  predicate Valid(c: Cell) { InOutline(c.rank, c.file) }

  /** `Cell::try_new`: succeeds exactly on the cells of the outline. */
  function TryNew(rank: Rank, file: File): (r: Result<Cell>)
    ensures r.Ok? <==> Inside(Ranks.Ord(rank), Files.Ord(file))
    ensures r.Ok? ==> r.value == Cell(rank, file) && Valid(r.value)
  {
    InOutlineByOrd(rank, file);
    if InOutline(rank, file) then Ok(Cell(rank, file))
    else Err("Invalid rank and file combination")
  }

  /** `Cell::from_raw_parts`: builds a cell without checking the outline. */
  function FromRawParts(rank: Rank, file: File): (c: Cell)
    ensures c.rank == rank && c.file == file
  {
    Cell(rank, file)
  }

  /** `Cell::new`: `try_new` unwrapped, so the caller must name a cell of the outline. */
  function New(rank: Rank, file: File): (c: Cell)
    requires Inside(Ranks.Ord(rank), Files.Ord(file))
    ensures Valid(c) && c == Cell(rank, file)
  {
    TryNew(rank, file).value
  }

  /** The derived default cell, the centre F6. */
  const Default: Cell := Cell(Rank6, FileF)

  /** `and_then` on an optional rank or file. */
  function Then<T>(o: Option<T>, f: T -> Option<T>): Option<T>
  {
    if o.Some? then f(o.value) else None
  }

  /** The cell at the given ordinals, when they lie inside the outline. */
  function Place(ro: int, fo: int): (r: Option<Cell>)
    ensures r.Some? <==> Inside(ro, fo)
    ensures r.Some? ==> Valid(r.value) && Ranks.Ord(r.value.rank) == ro && Files.Ord(r.value.file) == fo
  {
    if Inside(ro, fo) then
      InOutlineByOrd(Ranks.FromOrd(ro), Files.FromOrd(fo));
      Some(Cell(Ranks.FromOrd(ro), Files.FromOrd(fo)))
    else None
  }

  /**
   * `Cell::next`: the neighbour in direction d. Files are not aligned across
   * the centre file F, so the rank change of the sideways directions depends
   * on which side of F the cell lies. The candidate rank and file are
   * computed separately and then tested against the outline.
   */
  function Next(c: Cell, d: Direction): (r: Option<Cell>)
    ensures r.Some? ==> Valid(r.value)
  {
    Finish(NextRank(c, d), NextFile(c, d))
  }

  /** The rank half of the `(rank, file)` pair in `Cell::next`. */
  function NextRank(c: Cell, d: Direction): Option<Rank>
  {
    var left, right := Files.Ord(c.file) < Files.Ord(FileF), Files.Ord(c.file) > Files.Ord(FileF);
    match d
    case Clock1 => if left then Then(Ranks.Succ(c.rank), Ranks.Succ) else Ranks.Succ(c.rank)
    case Clock2 => if left then Ranks.Succ(c.rank) else Some(c.rank)
    case Clock3 =>
      if c.file == FileE then Some(c.rank)
      else if left then Ranks.Succ(c.rank)
      else Ranks.Pred(c.rank)
    case Clock4 => if left then Some(c.rank) else Ranks.Pred(c.rank)
    case Clock5 => if left then Ranks.Pred(c.rank) else Then(Ranks.Pred(c.rank), Ranks.Pred)
    case Clock6 => Ranks.Pred(c.rank)
    case Clock7 => if right then Ranks.Pred(c.rank) else Then(Ranks.Pred(c.rank), Ranks.Pred)
    case Clock8 => if right then Some(c.rank) else Ranks.Pred(c.rank)
    case Clock9 =>
      if c.file == FileG then Some(c.rank)
      else if right then Ranks.Succ(c.rank)
      else Ranks.Pred(c.rank)
    case Clock10 => if right then Ranks.Succ(c.rank) else Some(c.rank)
    case Clock11 => if right then Then(Ranks.Succ(c.rank), Ranks.Succ) else Ranks.Succ(c.rank)
    case Clock12 => Ranks.Succ(c.rank)
  }

  /** The file half of the `(rank, file)` pair in `Cell::next`. */
  function NextFile(c: Cell, d: Direction): Option<File>
  {
    match d
    case Clock1 => Files.Succ(c.file)
    case Clock2 => Files.Succ(c.file)
    case Clock3 => Then(Files.Succ(c.file), Files.Succ)
    case Clock4 => Files.Succ(c.file)
    case Clock5 => Files.Succ(c.file)
    case Clock6 => Some(c.file)
    case Clock7 => Files.Pred(c.file)
    case Clock8 => Files.Pred(c.file)
    case Clock9 => Then(Files.Pred(c.file), Files.Pred)
    case Clock10 => Files.Pred(c.file)
    case Clock11 => Files.Pred(c.file)
    case Clock12 => Some(c.file)
  }

  /** The file change of one step in direction d. */
  function FileStep(d: Direction): int
  {
    match d
    case Clock1 => 1   case Clock2 => 1   case Clock3 => 2
    case Clock4 => 1   case Clock5 => 1   case Clock6 => 0
    case Clock7 => -1  case Clock8 => -1  case Clock9 => -2
    case Clock10 => -1 case Clock11 => -1 case Clock12 => 0
  }

  /** The rank change of one step in direction d from file ordinal fo. */
  function RankStep(d: Direction, fo: int): int
  {
    match d
    case Clock1 => if fo < 5 then 2 else 1
    case Clock2 => if fo < 5 then 1 else 0
    case Clock3 => if fo == 4 then 0 else if fo < 5 then 1 else -1
    case Clock4 => if fo < 5 then 0 else -1
    case Clock5 => if fo < 5 then -1 else -2
    case Clock6 => -1
    case Clock7 => if fo > 5 then -1 else -2
    case Clock8 => if fo > 5 then 0 else -1
    case Clock9 => if fo == 6 then 0 else if fo > 5 then 1 else -1
    case Clock10 => if fo > 5 then 1 else 0
    case Clock11 => if fo > 5 then 2 else 1
    case Clock12 => 1
  }

  /** The neighbour of c in direction d, computed on ordinals. */
  function Step(c: Cell, d: Direction): Option<Cell>
  {
    Place(Ranks.Ord(c.rank) + RankStep(d, Files.Ord(c.file)), Files.Ord(c.file) + FileStep(d))
  }

  /** The rank with ordinal v, if there is one. */
  function RankAt(v: int): Option<Rank>
  {
    if 0 <= v <= 10 then Some(Ranks.FromOrd(v)) else None
  }

  /** The file with ordinal v, if there is one. */
  function FileAt(v: int): Option<File>
  {
    if 0 <= v <= 10 then Some(Files.FromOrd(v)) else None
  }

  /** Chains of `succ`/`pred` on a rank move its ordinal by up to two. */
  lemma RankMoves(r: Rank)
    ensures Some(r) == RankAt(Ranks.Ord(r))
    ensures Ranks.Succ(r) == RankAt(Ranks.Ord(r) + 1)
    ensures Ranks.Pred(r) == RankAt(Ranks.Ord(r) - 1)
    ensures Then(Ranks.Succ(r), Ranks.Succ) == RankAt(Ranks.Ord(r) + 2)
    ensures Then(Ranks.Pred(r), Ranks.Pred) == RankAt(Ranks.Ord(r) - 2)
  {
    var o := Ranks.Ord(r);
    Ranks.OrdInjective(r, Ranks.FromOrd(o));
    Ranks.SuccByOrd(r);
    Ranks.PredByOrd(r);
    if o < 10 { Ranks.SuccByOrd(Ranks.FromOrd(o + 1)); }
    if o > 0 { Ranks.PredByOrd(Ranks.FromOrd(o - 1)); }
  }

  /** Chains of `succ`/`pred` on a file move its ordinal by up to two. */
  lemma FileMoves(f: File)
    ensures Some(f) == FileAt(Files.Ord(f))
    ensures Files.Succ(f) == FileAt(Files.Ord(f) + 1)
    ensures Files.Pred(f) == FileAt(Files.Ord(f) - 1)
    ensures Then(Files.Succ(f), Files.Succ) == FileAt(Files.Ord(f) + 2)
    ensures Then(Files.Pred(f), Files.Pred) == FileAt(Files.Ord(f) - 2)
  {
    var o := Files.Ord(f);
    Files.OrdInjective(f, Files.FromOrd(o));
    Files.SuccByOrd(f);
    Files.PredByOrd(f);
    if o < 10 { Files.SuccByOrd(Files.FromOrd(o + 1)); }
    if o > 0 { Files.PredByOrd(Files.FromOrd(o - 1)); }
  }

  /** The final test of `Cell::next`, on ordinals. */
  function Finish(rank: Option<Rank>, file: Option<File>): Option<Cell>
  {
    if rank.Some? && file.Some? then
      var t := TryNew(rank.value, file.value);
      if t.Ok? then Some(t.value) else None
    else None
  }

  lemma FinishIsPlace(ro: int, fo: int)
    ensures Finish(RankAt(ro), FileAt(fo)) == Place(ro, fo)
  {
  }

  lemma NextRankByOrd(c: Cell, d: Direction)
    ensures NextRank(c, d) == RankAt(Ranks.Ord(c.rank) + RankStep(d, Files.Ord(c.file)))
  {
    RankMoves(c.rank);
    assert c.file == FileE <==> Files.Ord(c.file) == 4;
    assert c.file == FileG <==> Files.Ord(c.file) == 6;
  }

  lemma NextFileByOrd(c: Cell, d: Direction)
    ensures NextFile(c, d) == FileAt(Files.Ord(c.file) + FileStep(d))
  {
    FileMoves(c.file);
  }

  /** `Cell::next` is one ordinal step followed by the outline test. */
  lemma NextIsStep(c: Cell, d: Direction)
    ensures Next(c, d) == Step(c, d)
  {
    NextRankByOrd(c, d);
    NextFileByOrd(c, d);
    FinishIsPlace(Ranks.Ord(c.rank) + RankStep(d, Files.Ord(c.file)), Files.Ord(c.file) + FileStep(d));
  }

  /** A step back undoes a step: the reverse direction negates both changes. */
  lemma ReverseStep(d: Direction, fo: int)
    ensures FileStep(Reverse(d)) == -FileStep(d)
    ensures RankStep(Reverse(d), fo + FileStep(d)) == -RankStep(d, fo)
  {
  }

  /** A valid cell sits where its ordinals place it. */
  lemma PlaceOfCell(c: Cell)
    requires Valid(c)
    ensures Place(Ranks.Ord(c.rank), Files.Ord(c.file)) == Some(c)
  {
    InOutlineByOrd(c.rank, c.file);
    var p := Place(Ranks.Ord(c.rank), Files.Ord(c.file));
    Ranks.OrdInjective(p.value.rank, c.rank);
    Files.OrdInjective(p.value.file, c.file);
  }

  /** Walking to a neighbour and back in the reverse direction returns to the start. */
  lemma NextReverse(c: Cell, d: Direction)
    requires Valid(c)
    ensures Next(c, d).Some? ==> Next(Next(c, d).value, Reverse(d)) == Some(c)
  {
    NextIsStep(c, d);
    if Next(c, d).Some? {
      var n := Next(c, d).value;
      NextIsStep(n, Reverse(d));
      ReverseStep(d, Files.Ord(c.file));
      PlaceOfCell(c);
    }
  }

  /** No direction leads from a cell to itself. */
  lemma NextMoves(c: Cell, d: Direction)
    ensures Next(c, d) != Some(c)
  {
    NextIsStep(c, d);
  }
}
