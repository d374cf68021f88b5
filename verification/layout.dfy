/**
 * Where each cell lives in the board's flat entry vector. `Board::empty`
 * lays the cells out file by file, each file's ranks ascending, and
 * `board_index` computes a cell's slot by summing the heights of the files
 * before it.
 */
module BoardLayout {
  import opened Ranges
  import Ranks
  import Files
  import opened Depths
  import opened Cells

  /** `file.rank_range().remaning()` for the file with ordinal fo. */
  function FileHeight(fo: int): (h: int)
    requires 0 <= fo <= 10
    ensures h == Files.ColumnHeight(fo)
  {
    Files.RankRange(Files.FromOrd(fo)).Remaning()
  }

  /**
   * The fold in `board_index` over the files with ordinals lo..hi-1, each
   * adding the size of its full-board rank range to the accumulator (the
   * height FileHeight shows `rank_range().remaning()` reports).
   */
  function FoldHeights(acc: int, lo: int, hi: int): int
    requires 0 <= lo && hi <= 11
    decreases hi - lo
  {
    if lo >= hi then acc
    else FoldHeights(acc + Files.ColumnHeight(lo), lo + 1, hi)
  }

  /** The fold adds up the heights of the files it passes. */
  lemma {:induction false} FoldHeightsSums(acc: int, lo: int, hi: int)
    requires 0 <= lo <= hi <= 11
    ensures FoldHeights(acc, lo, hi) == acc + Files.HeightsBelow(hi) - Files.HeightsBelow(lo)
    decreases hi - lo
  {
    if lo < hi {
      var next := acc + Files.ColumnHeight(lo);
      assert FoldHeights(acc, lo, hi) == FoldHeights(next, lo + 1, hi);
      FoldHeightsSums(next, lo + 1, hi);
      assert Files.HeightsBelow(lo + 1) == Files.HeightsBelow(lo) + Files.ColumnHeight(lo);
    }
  }

  /**
   * `board_index`: the heights of the files from the board's first file up to
   * (not including) the cell's file, plus the cell's distance above the first
   * rank. A negative value wraps round in the source's cast to `usize` and so
   * lies past the end of the vector.
   */
  function BoardIndex(d: Depth, c: Cell): int
    requires d.Valid()
  {
    FoldHeights(0, Files.Ord(FirstFile(d)), Files.Ord(c.file)) + Ranks.Sub(c.rank, FirstRank(d))
  }

  /** On the full board a cell's slot counts the cells of the files before it, then its rank. */
  function FullIndex(c: Cell): int
  {
    Files.HeightsBelow(Files.Ord(c.file)) + Ranks.Ord(c.rank)
  }

  lemma BoardIndexAtFullDepth(d: Depth, c: Cell)
    requires d == Depth(6)
    ensures BoardIndex(d, c) == FullIndex(c)
  {
    FoldHeightsSums(0, 0, Files.Ord(c.file));
  }

  /** The centre cell F6 sits in slot 45 of the full board. */
  lemma CentreIndex(d: Depth, c: Cell)
    requires d == Depth(6) && c == Cells.Default
    ensures BoardIndex(d, c) == 45
  {
    BoardIndexAtFullDepth(d, c);
    CentreFullIndex(c);
  }

  lemma CentreFullIndex(c: Cell)
    requires c == Cells.Default
    ensures FullIndex(c) == 45
  {
    assert Files.HeightsBelow(5) == 40;
  }

  /** Every item a fresh range yields lies between its ends. */
  lemma YieldsBetween(r: RangeInc)
    requires !r.ended && r.hi <= MaxOrd
    ensures forall v :: v in r.Yields() ==> r.lo <= v <= r.hi
  {
    forall v | v in r.Yields()
      ensures r.lo <= v <= r.hi
    {
      assert r.Contains(v);
    }
  }

  /** File ordinals of files present at depth d. */
  predicate FilesAt(d: Depth, fs: seq<int>)
    requires d.Valid()
  {
    forall i :: 0 <= i < |fs| ==> 0 <= fs[i] <= 10 && HasFile(d, Files.FromOrd(fs[i]))
  }

  /** The file range of a depth yields only files present at that depth. */
  lemma FileRangeOnBoard(d: Depth)
    requires d.Valid()
    ensures FilesAt(d, FileRange(d).Yields())
  {
    var fs := FileRange(d).Yields();
    YieldsBetween(FileRange(d));
    forall i | 0 <= i < |fs|
      ensures 0 <= fs[i] <= 10 && HasFile(d, Files.FromOrd(fs[i]))
    {
      assert fs[i] in fs;
      HasFileInFileRange(d, Files.FromOrd(fs[i]));
    }
  }

  /** The rank range of a file yields rank ordinals. */
  lemma RankRangeOnBoard(d: Depth, f: Files.File)
    requires d.Valid() && HasFile(d, f)
    ensures forall v :: v in RankRange(d, f).Yields() ==> 0 <= v <= 10
  {
    YieldsBetween(RankRange(d, f));
  }

  /** The cell j ranks above the first rank of depth d, on the file with ordinal fo. */
  function CellAt(d: Depth, fo: int, j: int): (c: Cell)
    requires d.Valid() && LoFile(d) <= fo < EndFile(d) && 0 <= j < Depths.ColumnHeight(d, fo)
    ensures c.file == Files.FromOrd(fo) && Ranks.Ord(c.rank) == LoRank(d) + j
  {
    Cell(Ranks.FromOrd(LoRank(d) + j), Files.FromOrd(fo))
  }

  /**
   * The cells of the file with ordinal fo at depth d: ranks ascending from the
   * depth's first rank, as many as the file's column is high at that depth.
   */
  ghost function ColumnAt(d: Depth, fo: int): seq<Cell>
    requires d.Valid() && LoFile(d) <= fo < EndFile(d)
  {
    var h := Depths.ColumnHeight(d, fo);
    seq(h, j requires 0 <= j < h => CellAt(d, fo, j))
  }

  /** The column of file ordinal fo is as high as ColumnHeight and holds CellAt at each place. */
  lemma ColumnAtCells(d: Depth, fo: int)
    requires d.Valid() && LoFile(d) <= fo < EndFile(d)
    ensures |ColumnAt(d, fo)| == Depths.ColumnHeight(d, fo)
    ensures forall j :: 0 <= j < |ColumnAt(d, fo)| ==> ColumnAt(d, fo)[j] == CellAt(d, fo, j)
  {
  }

  /**
   * The cells of file f at depth d. ColumnByOrd shows these are the ranks the
   * file's rank range yields.
   */
  ghost function Column(d: Depth, f: Files.File): seq<Cell>
    requires d.Valid() && HasFile(d, f)
  {
    ColumnAt(d, Files.Ord(f))
  }

  /** A run of cells of file f whose rank ordinals are those the rank range yields is that file's column. */
  lemma ColumnByOrd(d: Depth, f: Files.File, cs: seq<Cell>)
    requires d.Valid() && HasFile(d, f)
    requires |cs| == |RankRange(d, f).Yields()|
    requires forall i :: 0 <= i < |cs| ==> cs[i].file == f && Ranks.Ord(cs[i].rank) == RankRange(d, f).Yields()[i]
    ensures cs == Column(d, f)
  {
    DepthBounds(d);
    FreshYields(RankRange(d, f));
    ColumnAtCells(d, Files.Ord(f));
    forall i | 0 <= i < |cs|
      ensures cs[i] == Column(d, f)[i]
    {
      Ranks.OrdInjective(cs[i].rank, Column(d, f)[i].rank);
    }
  }

  /**
   * The order in which `Board::empty` creates the cells of a board of depth
   * d: the columns of its 2d - 1 files, left to right. Boards.Board.Lay shows
   * that the loops over the file and rank ranges build exactly this.
   */
  ghost function Layout(d: Depth): seq<Cell>
    requires d.Valid()
  {
    DepthColumns(d, 2 * (d.raw as int) - 1)
  }

  /**
   * The cells cs are laid out by `board_index`: slot i holds a cell of the
   * board whose index is i, and every cell of the board has a slot.
   */
  ghost predicate Laid(d: Depth, cs: seq<Cell>)
    requires d.Valid()
  {
    && (forall i :: 0 <= i < |cs| ==> Cells.Valid(cs[i]) && BoardIndex(d, cs[i]) == i)
    && (forall c :: Cells.Valid(c) ==> 0 <= BoardIndex(d, c) < |cs| && cs[BoardIndex(d, c)] == c)
  }

  /**
   * At full depth `board_index` is a bijection from the 91 cells of the board
   * onto 0..90, and it agrees with the order in which `Board::empty` lays them
   * out.
   */
  lemma FullLayout(d: Depth)
    requires d == Depth(6)
    ensures d.Valid() && |Layout(d)| == 91
    ensures forall i :: 0 <= i < 91 ==> Cells.Valid(Layout(d)[i]) && BoardIndex(d, Layout(d)[i]) == i
    ensures forall c :: Cells.Valid(c) ==> 0 <= BoardIndex(d, c) < 91 && Layout(d)[BoardIndex(d, c)] == c
    ensures Laid(d, Layout(d))
  {
    LayoutCount(Depth(6));
    FullSlots(d);
    FullCells(d);
  }

  /** At full depth every slot of the layout holds a board cell whose `board_index` is the slot. */
  lemma FullSlots(d: Depth)
    requires d == Depth(6)
    ensures d.Valid()
    ensures forall i :: 0 <= i < |Layout(d)| ==> Cells.Valid(Layout(d)[i]) && BoardIndex(d, Layout(d)[i]) == i
  {
    DepthLayout(d);
    var l := Layout(d);
    forall i | 0 <= i < |l|
      ensures Cells.Valid(l[i]) && BoardIndex(d, l[i]) == i
    {
      DepthIndexAtFullDepth(d, l[i]);
    }
  }

  /** At full depth every board cell sits in the layout at its `board_index`. */
  lemma FullCells(d: Depth)
    requires d == Depth(6)
    ensures d.Valid()
    ensures forall c :: Cells.Valid(c) ==> 0 <= BoardIndex(d, c) < |Layout(d)| && Layout(d)[BoardIndex(d, c)] == c
  {
    DepthLayout(d);
    var l := Layout(d);
    forall c | Cells.Valid(c)
      ensures 0 <= BoardIndex(d, c) < |l| && l[BoardIndex(d, c)] == c
    {
      DepthIndexAtFullDepth(d, c);
    }
  }

  /*
   * `board_index` sums the full-board heights of the files it passes, while
   * `Board::empty` lays out the depth's own, shorter columns. The two agree at
   * depth 6 only. What follows is the index as intended at every depth, summing
   * `depth.rank_range(file).remaning()`, and the layout it matches.
   */

  /** The ordinal of the first file of depth d, and one past its last. */
  function LoFile(d: Depth): int { 6 - d.raw as int }
  function EndFile(d: Depth): int { 5 + d.raw as int }

  /** The ordinal of the first rank of depth d, where every column starts. */
  function LoRank(d: Depth): int { 6 - d.raw as int }

  /** The first file, the first rank and the file range of depth d in these terms. */
  lemma DepthBounds(d: Depth)
    requires d.Valid()
    ensures Files.Ord(FirstFile(d)) == LoFile(d) && Ranks.Ord(FirstRank(d)) == LoRank(d)
    ensures FileRange(d).Lo() == LoFile(d) && FileRange(d).Hi() == EndFile(d) - 1
  {
  }

  /**
   * Cell c is one that `Board::empty` creates at depth d: its file is on the
   * board and its rank lies in the column that starts at the depth's first
   * rank and is as high as the file's column at that depth.
   */
  predicate OnBoard(d: Depth, c: Cell)
    requires d.Valid()
  {
    && HasFile(d, c.file)
    && LoRank(d) <= Ranks.Ord(c.rank) < LoRank(d) + Depths.ColumnHeight(d, Files.Ord(c.file))
  }

  /** The cells on the board are those whose rank the file's rank range contains. */
  lemma OnBoardInRankRange(d: Depth, c: Cell)
    requires d.Valid() && HasFile(d, c.file)
    ensures OnBoard(d, c) <==> RankRange(d, c.file).Contains(Ranks.Ord(c.rank))
  {
    DepthBounds(d);
  }

  /** A fresh inclusive range within the scale yields its ends and everything between. */
  lemma FreshYields(r: RangeInc)
    requires !r.ended && r.lo <= r.hi <= MaxOrd
    ensures r.Yields() == Interval(r.lo, r.hi)
  {
    NewYields(r.lo, r.hi);
  }

  /**
   * The corrected fold: adds to the accumulator the depth-d heights of the
   * files with ordinals lo..hi-1, each being what `depth.rank_range(file)
   * .remaning()` reports (RankRange's contract).
   */
  function DepthFold(d: Depth, acc: int, lo: int, hi: int): int
    requires d.Valid() && LoFile(d) <= lo && hi <= EndFile(d)
    decreases hi - lo
  {
    if lo >= hi then acc
    else DepthFold(d, acc + Depths.ColumnHeight(d, lo), lo + 1, hi)
  }

  /** The number of cells of depth d in the columns left of the file with ordinal k. */
  function CellsLeftOf(d: Depth, k: int): (n: int)
    requires d.Valid() && LoFile(d) <= k <= EndFile(d)
    ensures n >= 0
    decreases k
  {
    if k == LoFile(d) then 0 else CellsLeftOf(d, k - 1) + Depths.ColumnHeight(d, k - 1)
  }

  /** The corrected fold adds up the depth's heights of the files it passes. */
  lemma {:induction false} DepthFoldSums(d: Depth, acc: int, lo: int, hi: int)
    requires d.Valid() && LoFile(d) <= lo <= hi <= EndFile(d)
    ensures DepthFold(d, acc, lo, hi) == acc + CellsLeftOf(d, hi) - CellsLeftOf(d, lo)
    decreases hi - lo
  {
    if lo < hi {
      var next := acc + Depths.ColumnHeight(d, lo);
      assert DepthFold(d, acc, lo, hi) == DepthFold(d, next, lo + 1, hi);
      DepthFoldSums(d, next, lo + 1, hi);
      assert CellsLeftOf(d, lo + 1) == CellsLeftOf(d, lo) + Depths.ColumnHeight(d, lo);
    }
  }

  /**
   * `board_index` as intended: the depth-d heights of the columns from the
   * depth's first file up to (not including) the cell's file, plus the cell's
   * distance above the depth's first rank.
   */
  function DepthIndex(d: Depth, c: Cell): int
    requires d.Valid() && HasFile(d, c.file)
  {
    DepthBounds(d);
    DepthFold(d, 0, Files.Ord(FirstFile(d)), Files.Ord(c.file)) + Ranks.Sub(c.rank, FirstRank(d))
  }

  /** The corrected index counts the cells of the columns to the left, then the cell's place in its own column. */
  lemma DepthIndexLocal(d: Depth, c: Cell)
    requires d.Valid() && HasFile(d, c.file)
    ensures LoFile(d) <= Files.Ord(c.file) < EndFile(d)
    ensures DepthIndex(d, c) == LocalIndex(d, c)
  {
    DepthBounds(d);
    DepthFoldSums(d, 0, LoFile(d), Files.Ord(c.file));
  }

  /** The corrected index in closed form: the cells of the columns to the left, then the cell's place in its own column. */
  function LocalIndex(d: Depth, c: Cell): int
    requires d.Valid() && HasFile(d, c.file)
  {
    CellsLeftOf(d, Files.Ord(c.file)) + Ranks.Ord(c.rank) - LoRank(d)
  }

  /** The slots l hold cells of depth d on the files below k, each at its index. */
  ghost predicate SlotsLaid(d: Depth, l: seq<Cell>, k: int)
    requires d.Valid() && LoFile(d) <= k <= EndFile(d)
  {
    && |l| == CellsLeftOf(d, k)
    && forall i :: 0 <= i < |l| ==> OnBoard(d, l[i]) && Files.Ord(l[i].file) < k && LocalIndex(d, l[i]) == i
  }

  /** Every cell of depth d on the files below k is in the slots l, at its index. */
  ghost predicate CellsLaid(d: Depth, l: seq<Cell>, k: int)
    requires d.Valid() && LoFile(d) <= k <= EndFile(d)
  {
    && |l| == CellsLeftOf(d, k)
    && forall c {:trigger OnBoard(d, c)} :: OnBoard(d, c) && Files.Ord(c.file) < k ==> 0 <= LocalIndex(d, c) < |l| && l[LocalIndex(d, c)] == c
  }

  /** The j-th cell of the column of file ordinal fo is on the board, with index CellsLeftOf(d, fo) + j. */
  lemma SlotInColumn(d: Depth, fo: int, j: int)
    requires d.Valid() && LoFile(d) <= fo < EndFile(d) && 0 <= j < |ColumnAt(d, fo)|
    ensures OnBoard(d, ColumnAt(d, fo)[j]) && Files.Ord(ColumnAt(d, fo)[j].file) == fo
    ensures LocalIndex(d, ColumnAt(d, fo)[j]) == CellsLeftOf(d, fo) + j
  {
    ColumnAtCells(d, fo);
  }

  /** Every cell of depth d sits in the column of its file, as many places up as its rank is above the first. */
  lemma CellInColumn(d: Depth, c: Cell)
    requires d.Valid() && OnBoard(d, c)
    ensures LoFile(d) <= Files.Ord(c.file) < EndFile(d)
    ensures var j := LocalIndex(d, c) - CellsLeftOf(d, Files.Ord(c.file));
      0 <= j < |ColumnAt(d, Files.Ord(c.file))| && ColumnAt(d, Files.Ord(c.file))[j] == c
  {
    ColumnAtCells(d, Files.Ord(c.file));
    var j := Ranks.Ord(c.rank) - LoRank(d);
    var e := ColumnAt(d, Files.Ord(c.file))[j];
    Ranks.OrdInjective(c.rank, e.rank);
    Files.OrdInjective(c.file, e.file);
  }

  /** After column k is appended, every slot holds a cell of the files below k+1 at its index. */
  lemma AppendedSlots(d: Depth, prev: seq<Cell>, k: int, l: seq<Cell>)
    requires d.Valid() && LoFile(d) <= k < EndFile(d)
    requires SlotsLaid(d, prev, k)
    requires l == prev + ColumnAt(d, k)
    ensures SlotsLaid(d, l, k + 1)
  {
    var col := ColumnAt(d, k);
    forall i | 0 <= i < |l|
      ensures OnBoard(d, l[i]) && Files.Ord(l[i].file) < k + 1 && LocalIndex(d, l[i]) == i
    {
      if i >= |prev| {
        assert l[i] == col[i - |prev|];
        SlotInColumn(d, k, i - |prev|);
      }
    }
  }

  /** After column k is appended, every cell of the files below k+1 sits in the slot of its index. */
  lemma AppendedCells(d: Depth, prev: seq<Cell>, k: int, l: seq<Cell>)
    requires d.Valid() && LoFile(d) <= k < EndFile(d)
    requires CellsLaid(d, prev, k)
    requires l == prev + ColumnAt(d, k)
    ensures CellsLaid(d, l, k + 1)
  {
    var col := ColumnAt(d, k);
    forall c {:trigger OnBoard(d, c)} | OnBoard(d, c) && Files.Ord(c.file) < k + 1
      ensures 0 <= LocalIndex(d, c) < |l| && l[LocalIndex(d, c)] == c
    {
      if Files.Ord(c.file) == k {
        CellInColumn(d, c);
        assert l[LocalIndex(d, c)] == col[LocalIndex(d, c) - |prev|];
      }
    }
  }

  /** The columns of the first n files of depth d, laid one after the other. */
  ghost function DepthColumns(d: Depth, n: nat): seq<Cell>
    requires d.Valid() && LoFile(d) + n <= EndFile(d)
  {
    if n == 0 then []
    else
      DepthColumns(d, n - 1) + ColumnAt(d, LoFile(d) + (n - 1))
  }

  /** The columns of the first n files put each of their cells in the slot of its index. */
  lemma {:induction false} SlotsUpTo(d: Depth, n: nat)
    requires d.Valid() && LoFile(d) + n <= EndFile(d)
    ensures SlotsLaid(d, DepthColumns(d, n), LoFile(d) + n)
  {
    if n > 0 {
      SlotsUpTo(d, n - 1);
      AppendedSlots(d, DepthColumns(d, n - 1), LoFile(d) + (n - 1), DepthColumns(d, n));
    }
  }

  /** The columns of the first n files hold every cell of those files, in the slot of its index. */
  lemma {:induction false} CellsUpTo(d: Depth, n: nat)
    requires d.Valid() && LoFile(d) + n <= EndFile(d)
    ensures CellsLaid(d, DepthColumns(d, n), LoFile(d) + n)
  {
    if n > 0 {
      CellsUpTo(d, n - 1);
      AppendedCells(d, DepthColumns(d, n - 1), LoFile(d) + (n - 1), DepthColumns(d, n));
    } else {
      NoCellsLeftOfFirstFile(d);
    }
  }

  /** No cell of depth d lies left of its first file. */
  lemma NoCellsLeftOfFirstFile(d: Depth)
    requires d.Valid()
    ensures CellsLaid(d, [], LoFile(d))
  {
    forall c | OnBoard(d, c)
      ensures Files.Ord(c.file) >= LoFile(d)
    {
    }
  }

  /** The column of the file with ordinal k is ColumnAt(d, k). */
  lemma FileColumn(d: Depth, k: int)
    requires d.Valid() && LoFile(d) <= k < EndFile(d)
    ensures HasFile(d, Files.FromOrd(k)) && Column(d, Files.FromOrd(k)) == ColumnAt(d, k)
  {
  }

  /** The file range of depth d yields the ordinals of its files, left to right. */
  lemma FileRangeYields(d: Depth)
    requires d.Valid()
    ensures LoFile(d) + |FileRange(d).Yields()| == EndFile(d)
    ensures forall i :: 0 <= i < |FileRange(d).Yields()| ==> FileRange(d).Yields()[i] == LoFile(d) + i
  {
    DepthBounds(d);
    FreshYields(FileRange(d));
  }

  /** Once every file is laid, the columns are the layout. */
  lemma AllColumns(d: Depth, n: nat)
    requires d.Valid() && LoFile(d) + n == EndFile(d)
    ensures DepthColumns(d, n) == Layout(d)
  {
    assert n == 2 * (d.raw as int) - 1;
  }

  /** Laying the file with ordinal LoFile(d) + k appends its column to the first k. */
  lemma DepthColumnsStep(d: Depth, k: nat)
    requires d.Valid() && LoFile(d) + k < EndFile(d)
    ensures DepthColumns(d, k + 1) == DepthColumns(d, k) + ColumnAt(d, LoFile(d) + k)
  {
  }

  /** The columns left of the n-th file of depth d hold CellsInColumns of its cells. */
  lemma {:induction false} CellsLeftOfCounts(d: Depth, n: nat)
    requires d.Valid() && n <= 2 * d.raw as int - 1
    ensures CellsLeftOf(d, LoFile(d) + n) == CellsInColumns(d.raw as int, n)
  {
    if n > 0 {
      CellsLeftOfCounts(d, n - 1);
      DepthBounds(d);
      ColumnOfIndex(d, n);
    }
  }

  /**
   * At every depth the corrected index is a bijection from the cells of the
   * board onto the slots of the layout `Board::empty` creates, and a board of
   * depth d has 3d(d-1)+1 of them.
   */
  lemma DepthLayout(d: Depth)
    requires d.Valid()
    ensures |Layout(d)| == 3 * (d.raw as int) * ((d.raw as int) - 1) + 1
    ensures forall i :: 0 <= i < |Layout(d)| ==> OnBoard(d, Layout(d)[i]) && DepthIndex(d, Layout(d)[i]) == i
    ensures forall c :: OnBoard(d, c) ==> 0 <= DepthIndex(d, c) < |Layout(d)| && Layout(d)[DepthIndex(d, c)] == c
  {
    var l := Layout(d);
    LayoutLaid(d);
    LaidIndexed(d, l);
  }

  /** A board of depth d has 3d(d-1)+1 cells: 1, 7, 19, 37, 61 or 91. */
  lemma LayoutCount(d: Depth)
    requires d.Valid()
    ensures |Layout(d)| == 3 * (d.raw as int) * ((d.raw as int) - 1) + 1
  {
    LayoutLaid(d);
    LaidCount(d, Layout(d));
  }

  /** Slots laid out for every file of depth d number 3d(d-1)+1. */
  lemma LaidCount(d: Depth, l: seq<Cell>)
    requires d.Valid() && SlotsLaid(d, l, EndFile(d))
    ensures |l| == 3 * (d.raw as int) * ((d.raw as int) - 1) + 1
  {
    var k := d.raw as int;
    var n := 2 * k - 1;
    assert LoFile(d) + n == EndFile(d);
    CellsLeftOfCounts(d, n);
    CellCount(k);
  }

  /** A cell of depth d is found in the layout at its corrected index. */
  lemma CellAtItsSlot(d: Depth, c: Cell)
    requires d.Valid() && OnBoard(d, c)
    ensures 0 <= DepthIndex(d, c) < |Layout(d)| && Layout(d)[DepthIndex(d, c)] == c
  {
    DepthLayout(d);
  }

  /** Distinct slots of the layout hold distinct cells. */
  lemma SlotsDiffer(d: Depth, i: int, j: int)
    requires d.Valid() && 0 <= i < |Layout(d)| && 0 <= j < |Layout(d)| && i != j
    ensures Layout(d)[i] != Layout(d)[j]
  {
    DepthLayout(d);
  }

  /** A sequence that lays out every cell of depth d by its index is a bijection onto 3d(d-1)+1 slots. */
  lemma LaidIndexed(d: Depth, l: seq<Cell>)
    requires d.Valid() && SlotsLaid(d, l, EndFile(d)) && CellsLaid(d, l, EndFile(d))
    ensures |l| == 3 * (d.raw as int) * ((d.raw as int) - 1) + 1
    ensures forall i :: 0 <= i < |l| ==> OnBoard(d, l[i]) && DepthIndex(d, l[i]) == i
    ensures forall c :: OnBoard(d, c) ==> 0 <= DepthIndex(d, c) < |l| && l[DepthIndex(d, c)] == c
  {
    LaidCount(d, l);
    SlotsIndexed(d, l);
    CellsIndexed(d, l);
  }

  /** Layout(d) puts every cell of depth d in the slot of its index, and holds nothing else. */
  lemma LayoutLaid(d: Depth)
    requires d.Valid()
    ensures SlotsLaid(d, Layout(d), EndFile(d)) && CellsLaid(d, Layout(d), EndFile(d))
  {
    var n := 2 * (d.raw as int) - 1;
    assert LoFile(d) + n == EndFile(d);
    SlotsUpTo(d, n);
    CellsUpTo(d, n);
  }

  /** Slots laid out for every file of depth d hold cells whose DepthIndex is the slot. */
  lemma SlotsIndexed(d: Depth, l: seq<Cell>)
    requires d.Valid() && SlotsLaid(d, l, EndFile(d))
    ensures forall i :: 0 <= i < |l| ==> OnBoard(d, l[i]) && DepthIndex(d, l[i]) == i
  {
    forall i | 0 <= i < |l|
      ensures DepthIndex(d, l[i]) == i
    {
      DepthIndexLocal(d, l[i]);
    }
  }

  /** When every cell of depth d is laid out, each sits at its DepthIndex. */
  lemma CellsIndexed(d: Depth, l: seq<Cell>)
    requires d.Valid() && CellsLaid(d, l, EndFile(d))
    ensures forall c :: OnBoard(d, c) ==> 0 <= DepthIndex(d, c) < |l| && l[DepthIndex(d, c)] == c
  {
    forall c | OnBoard(d, c)
      ensures 0 <= DepthIndex(d, c) < |l| && l[DepthIndex(d, c)] == c
    {
      DepthIndexLocal(d, c);
    }
  }

  /** At full depth the columns left of file k hold the full-board heights below k. */
  lemma {:induction false} CellsLeftOfFull(d: Depth, k: int)
    requires d == Depth(6) && 0 <= k <= 11
    ensures d.Valid() && LoFile(d) == 0 && EndFile(d) == 11
    ensures CellsLeftOf(d, k) == Files.HeightsBelow(k)
  {
    if k > 0 {
      CellsLeftOfFull(d, k - 1);
    }
  }

  /**
   * At depth 6 the cells of the board are the cells of the outline, and
   * `board_index` as written is the corrected index.
   */
  lemma DepthIndexAtFullDepth(d: Depth, c: Cell)
    requires d == Depth(6)
    ensures d.Valid() && HasFile(d, c.file)
    ensures OnBoard(d, c) <==> Cells.Valid(c)
    ensures DepthIndex(d, c) == BoardIndex(d, c)
  {
    InOutlineByOrd(c.rank, c.file);
    DepthIndexLocal(d, c);
    CellsLeftOfFull(d, Files.Ord(c.file));
    BoardIndexAtFullDepth(d, c);
  }
}
