/**
 * The depth of a hexagonal board: how many rings of cells surround the
 * centre cell F6 (depth 1 is F6 alone, depth 6 the full 91-cell board).
 */
module Depths {
  import opened Wrappers
  import opened Ranges
  import Files
  import Ranks

  /** The raw value is a byte. */
  newtype u8 = x: int | 0 <= x < 256

  datatype Depth = Depth(raw: u8) {
    /** What `Depth::new` guarantees of every value it hands out. */
    predicate Valid() { 1 <= raw <= 6 }
  }

  /** `Depth::new`: accepts exactly the depths 1 through 6. */
  function New(raw: u8): (r: Result<Depth>)
    ensures r.Ok? <==> 1 <= raw <= 6
    ensures r.Ok? ==> r.value.raw == raw && r.value.Valid()
  {
    if 1 <= raw <= 6 then Ok(Depth(raw))
    else Err("depth must be between 1 and 6")
  }

  /** The files present at depth d: d-1 files either side of the centre file F. */
  function FileRange(d: Depth): (r: RangeInc)
    requires d.Valid()
    ensures !r.ended
    ensures r.Lo() == Files.Ord(Files.FileF) - (d.raw as int - 1)
    ensures r.Hi() == Files.Ord(Files.FileF) + (d.raw as int - 1)
    ensures r.Remaning() == 2 * d.raw as int - 1
  {
    match d.raw
    case 1 => RangeInc.New(Files.Ord(Files.FileF), Files.Ord(Files.FileF))
    case 2 => RangeInc.New(Files.Ord(Files.FileE), Files.Ord(Files.FileG))
    case 3 => RangeInc.New(Files.Ord(Files.FileD), Files.Ord(Files.FileH))
    case 4 => RangeInc.New(Files.Ord(Files.FileC), Files.Ord(Files.FileI))
    case 5 => RangeInc.New(Files.Ord(Files.FileB), Files.Ord(Files.FileK))
    case 6 => RangeInc.New(Files.Ord(Files.FileA), Files.Ord(Files.FileL))
  }

  /** `Depth::first_file`: the lowest file of the board. */
  function FirstFile(d: Depth): (f: Files.File)
    requires d.Valid()
    ensures Files.Ord(f) == FileRange(d).Lo()
  {
    match d.raw
    case 1 => Files.FileF
    case 2 => Files.FileE
    case 3 => Files.FileD
    case 4 => Files.FileC
    case 5 => Files.FileB
    case 6 => Files.FileA
  }

  /** `Depth::first_rank`: the lowest rank of the board, d-1 below the centre rank 6. */
  function FirstRank(d: Depth): (r: Ranks.Rank)
    requires d.Valid()
    ensures Ranks.Ord(r) == Ranks.Ord(Ranks.Rank6) - (d.raw as int - 1)
  {
    match d.raw
    case 1 => Ranks.Rank6
    case 2 => Ranks.Rank5
    case 3 => Ranks.Rank4
    case 4 => Ranks.Rank3
    case 5 => Ranks.Rank2
    case 6 => Ranks.Rank1
  }

  /** A file belongs to the board of depth d. */
  predicate HasFile(d: Depth, f: Files.File)
    requires d.Valid()
  {
    Files.Abs(Files.Ord(f) - Files.Ord(Files.FileF)) < d.raw as int
  }

  lemma HasFileInFileRange(d: Depth, f: Files.File)
    requires d.Valid()
    ensures HasFile(d, f) <==> FileRange(d).Contains(Files.Ord(f))
  {
  }

  /** The height of a column at depth d: 2d-1 at the centre, one less per file away from it. */
  function ColumnHeight(d: Depth, fo: int): int
  {
    2 * d.raw as int - 1 - Files.Abs(fo - Files.Ord(Files.FileF))
  }

  /**
   * `Depth::rank_range`: the ranks of file f at depth d. Every column starts at
   * the first rank; files outside the board are unreachable in the source.
   */
  function RankRange(d: Depth, f: Files.File): (r: RangeInc)
    requires d.Valid() && HasFile(d, f)
    ensures !r.ended
    ensures r.Lo() == Ranks.Ord(FirstRank(d))
    ensures r.Remaning() == ColumnHeight(d, Files.Ord(f))
    ensures r.Hi() <= MaxOrd
  {
    match d.raw
    case 1 => RankRangeAt1(f)
    case 2 => RankRangeAt2(f)
    case 3 => RankRangeAt3(f)
    case 4 => RankRangeAt4(f)
    case 5 => RankRangeAt5(f)
    case 6 => Files.RankRange(f)
  }

  /** The depth-1 arm of `Depth::rank_range`. */
  function RankRangeAt1(f: Files.File): (r: RangeInc)
    requires HasFile(Depth(1), f)
    ensures !r.ended
    ensures r.Lo() == Ranks.Ord(Ranks.Rank6)
    ensures r.Hi() == r.Lo() + ColumnHeight(Depth(1), Files.Ord(f)) - 1
    ensures r.Hi() <= MaxOrd
  {
    match f
    case FileF => RangeInc.New(Ranks.Ord(Ranks.Rank6), Ranks.Ord(Ranks.Rank6))
  }

  /** The depth-2 arm of `Depth::rank_range`. */
  function RankRangeAt2(f: Files.File): (r: RangeInc)
    requires HasFile(Depth(2), f)
    ensures !r.ended
    ensures r.Lo() == Ranks.Ord(Ranks.Rank5)
    ensures r.Hi() == r.Lo() + ColumnHeight(Depth(2), Files.Ord(f)) - 1
    ensures r.Hi() <= MaxOrd
  {
    match f
    case FileE => RangeInc.New(Ranks.Ord(Ranks.Rank5), Ranks.Ord(Ranks.Rank6))
    case FileF => RangeInc.New(Ranks.Ord(Ranks.Rank5), Ranks.Ord(Ranks.Rank7))
    case FileG => RangeInc.New(Ranks.Ord(Ranks.Rank5), Ranks.Ord(Ranks.Rank6))
  }

  /** The depth-3 arm of `Depth::rank_range`. */
  function RankRangeAt3(f: Files.File): (r: RangeInc)
    requires HasFile(Depth(3), f)
    ensures !r.ended
    ensures r.Lo() == Ranks.Ord(Ranks.Rank4)
    ensures r.Hi() == r.Lo() + ColumnHeight(Depth(3), Files.Ord(f)) - 1
    ensures r.Hi() <= MaxOrd
  {
    match f
    case FileD => RangeInc.New(Ranks.Ord(Ranks.Rank4), Ranks.Ord(Ranks.Rank6))
    case FileE => RangeInc.New(Ranks.Ord(Ranks.Rank4), Ranks.Ord(Ranks.Rank7))
    case FileF => RangeInc.New(Ranks.Ord(Ranks.Rank4), Ranks.Ord(Ranks.Rank8))
    case FileG => RangeInc.New(Ranks.Ord(Ranks.Rank4), Ranks.Ord(Ranks.Rank7))
    case FileH => RangeInc.New(Ranks.Ord(Ranks.Rank4), Ranks.Ord(Ranks.Rank6))
  }

  /** The depth-4 arm of `Depth::rank_range`. */
  function RankRangeAt4(f: Files.File): (r: RangeInc)
    requires HasFile(Depth(4), f)
    ensures !r.ended
    ensures r.Lo() == Ranks.Ord(Ranks.Rank3)
    ensures r.Hi() == r.Lo() + ColumnHeight(Depth(4), Files.Ord(f)) - 1
    ensures r.Hi() <= MaxOrd
  {
    match f
    case FileC => RangeInc.New(Ranks.Ord(Ranks.Rank3), Ranks.Ord(Ranks.Rank6))
    case FileD => RangeInc.New(Ranks.Ord(Ranks.Rank3), Ranks.Ord(Ranks.Rank7))
    case FileE => RangeInc.New(Ranks.Ord(Ranks.Rank3), Ranks.Ord(Ranks.Rank8))
    case FileF => RangeInc.New(Ranks.Ord(Ranks.Rank3), Ranks.Ord(Ranks.Rank9))
    case FileG => RangeInc.New(Ranks.Ord(Ranks.Rank3), Ranks.Ord(Ranks.Rank8))
    case FileH => RangeInc.New(Ranks.Ord(Ranks.Rank3), Ranks.Ord(Ranks.Rank7))
    case FileI => RangeInc.New(Ranks.Ord(Ranks.Rank3), Ranks.Ord(Ranks.Rank6))
  }

  /** The depth-5 arm of `Depth::rank_range`. */
  function RankRangeAt5(f: Files.File): (r: RangeInc)
    requires HasFile(Depth(5), f)
    ensures !r.ended
    ensures r.Lo() == Ranks.Ord(Ranks.Rank2)
    ensures r.Hi() == r.Lo() + ColumnHeight(Depth(5), Files.Ord(f)) - 1
    ensures r.Hi() <= MaxOrd
  {
    match f
    case FileB => RangeInc.New(Ranks.Ord(Ranks.Rank2), Ranks.Ord(Ranks.Rank6))
    case FileC => RangeInc.New(Ranks.Ord(Ranks.Rank2), Ranks.Ord(Ranks.Rank7))
    case FileD => RangeInc.New(Ranks.Ord(Ranks.Rank2), Ranks.Ord(Ranks.Rank8))
    case FileE => RangeInc.New(Ranks.Ord(Ranks.Rank2), Ranks.Ord(Ranks.Rank9))
    case FileF => RangeInc.New(Ranks.Ord(Ranks.Rank2), Ranks.Ord(Ranks.Rank10))
    case FileG => RangeInc.New(Ranks.Ord(Ranks.Rank2), Ranks.Ord(Ranks.Rank9))
    case FileH => RangeInc.New(Ranks.Ord(Ranks.Rank2), Ranks.Ord(Ranks.Rank8))
    case FileI => RangeInc.New(Ranks.Ord(Ranks.Rank2), Ranks.Ord(Ranks.Rank7))
    case FileK => RangeInc.New(Ranks.Ord(Ranks.Rank2), Ranks.Ord(Ranks.Rank6))
  }

  /** At full depth a column has the ranks `File::rank_range` gives it. */
  lemma FullDepthMatchesFile(f: Files.File)
    ensures Depth(6).Valid() && HasFile(Depth(6), f)
    ensures RankRange(Depth(6), f).Yields() == Files.RankRange(f).Yields()
    ensures ColumnHeight(Depth(6), Files.Ord(f)) == Files.ColumnHeight(Files.Ord(f))
  {
  }

  /** The columns at depth d are symmetric about the centre file. */
  lemma ColumnsSymmetric(d: Depth, f: Files.File, g: Files.File)
    requires d.Valid() && HasFile(d, f) && HasFile(d, g)
    requires Files.Ord(f) + Files.Ord(g) == 2 * Files.Ord(Files.FileF)
    ensures RankRange(d, f) == RankRange(d, g)
  {
  }

  /** Total number of cells in the first n columns of the board of depth k. */
  function CellsInColumns(k: int, n: nat): int
    requires 1 <= k <= 6 && n <= 2 * k - 1
  {
    if n == 0 then 0
    else CellsInColumns(k, n - 1) + (2 * k - 1 - Files.Abs(n - k))
  }

  /** The first n columns, counted from the first file, are those of CellsInColumns. */
  lemma ColumnOfIndex(d: Depth, n: nat)
    requires d.Valid() && 0 < n <= 2 * d.raw as int - 1
    ensures ColumnHeight(d, FileRange(d).Lo() + n - 1) == 2 * d.raw as int - 1 - Files.Abs(n - d.raw as int)
  {
  }

  /** A board of depth d is a centred hexagon of 3d(d-1)+1 cells: 1, 7, 19, 37, 61, 91. */
  lemma {:induction false} CellCount(k: int)
    requires 1 <= k <= 6
    ensures CellsInColumns(k, 2 * k - 1) == 3 * k * (k - 1) + 1
  {
    ColumnsAboveCentre(k, k - 1);
    assert 2 * (k - 1) * (2 * k - 1) == 4 * k * k - 6 * k + 2;
    assert (k - 1) * k == k * k - k;
    assert 3 * k * (k - 1) == 3 * k * k - 3 * k;
  }

  /** The columns up to the centre have heights k, k+1, ..., 2k-1. */
  lemma {:induction false} ColumnsBelowCentre(k: int, n: nat)
    requires 1 <= k <= 6 && n <= k
    ensures 2 * CellsInColumns(k, n) == 2 * n * k + n * (n - 1)
  {
    if n > 0 {
      ColumnsBelowCentre(k, n - 1);
      assert 2 * (n - 1) * k == 2 * n * k - 2 * k;
      assert (n - 1) * (n - 2) == n * (n - 1) - 2 * (n - 1);
    }
  }

  /** Past the centre the heights fall again: 2k-2, 2k-3, ..., k. */
  lemma {:induction false} ColumnsAboveCentre(k: int, m: nat)
    requires 1 <= k <= 6 && m <= k - 1
    ensures 2 * CellsInColumns(k, k + m) == 3 * k * k - k + 2 * m * (2 * k - 1) - m * (m + 1)
  {
    if m == 0 {
      ColumnsBelowCentre(k, k);
      assert 2 * k * k + k * (k - 1) == 3 * k * k - k;
    } else {
      ColumnsAboveCentre(k, m - 1);
      assert CellsInColumns(k, k + m) == CellsInColumns(k, k + m - 1) + (2 * k - 1 - m);
      AboveCentreStep(k, m);
    }
  }

  /** The algebra of one more column past the centre. */
  lemma AboveCentreStep(k: int, m: int)
    ensures 2 * (m - 1) * (2 * k - 1) - (m - 1) * m + 2 * (2 * k - 1 - m)
         == 2 * m * (2 * k - 1) - m * (m + 1)
  {
    assert 2 * (m - 1) * (2 * k - 1) == 2 * m * (2 * k - 1) - 2 * (2 * k - 1);
    assert (m - 1) * m == m * (m + 1) - 2 * m;
  }
}
