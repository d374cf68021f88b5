/**
 * `board_index` as written, below depth 6: it sums the full-board heights of
 * the files before a cell, while `Board::empty` lays out the depth's own,
 * shorter columns, so the two part ways as soon as a file is cut short.
 */
module BoardIndexDefect {
  import Ranks
  import Files
  import opened Depths
  import opened Cells
  import opened BoardLayout

  /**
   * Below depth 6 `board_index` as written misses the layout. At depth 5,
   * file B holds 5 cells, so `Board::empty` creates C2 in slot 5; `board_index`
   * adds B's full height 7 and sends C2 to slot 7, which holds another cell.
   */
  lemma BoardIndexMissesAtDepth5(d: Depth, c: Cell)
    requires d == Depth(5) && c == Cell(Ranks.Rank2, Files.FileC)
    ensures |Layout(d)| == 61
    ensures OnBoard(d, c) && DepthIndex(d, c) == 5 && Layout(d)[5] == c
    ensures BoardIndex(d, c) == 7 && Layout(d)[7] != c
  {
    IndexOfC2AtDepth5();
    BoardIndexOfC2AtDepth5();
    LayoutCount(Depth(5));
    CellAtItsSlot(d, c);
    SlotsDiffer(d, 5, 7);
  }

  /** At depth 5 the corrected index of C2 is 5: file B, left of it, holds 5 cells and C2 is the lowest of file C. */
  lemma IndexOfC2AtDepth5()
    ensures Depth(5).Valid() && OnBoard(Depth(5), Cell(Ranks.Rank2, Files.FileC))
    ensures DepthIndex(Depth(5), Cell(Ranks.Rank2, Files.FileC)) == 5
  {
    var d, c := Depth(5), Cell(Ranks.Rank2, Files.FileC);
    assert Files.Ord(FirstFile(d)) == 1 && Files.Ord(c.file) == 2 && Ranks.Sub(c.rank, FirstRank(d)) == 0;
    assert DepthFold(d, 0, 1, 2) == 5;
  }

  /** At depth 5 `board_index` as written puts C2 at 7: it counts file B's full height. */
  lemma BoardIndexOfC2AtDepth5()
    ensures Depth(5).Valid() && BoardIndex(Depth(5), Cell(Ranks.Rank2, Files.FileC)) == 7
  {
    var d, c := Depth(5), Cell(Ranks.Rank2, Files.FileC);
    assert Files.Ord(FirstFile(d)) == 1 && Files.Ord(c.file) == 2 && Ranks.Sub(c.rank, FirstRank(d)) == 0;
    assert FoldHeights(0, 1, 2) == 7;
  }

  /**
   * At depth 2 the centre cell F6, where the cursor starts, is the fourth of
   * the board's 7 entries, but `board_index` sends it to slot 11, past the end
   * of the vector.
   */
  lemma BoardIndexPastEndAtDepth2(d: Depth, c: Cell)
    requires d == Depth(2) && c == Cells.Default
    ensures OnBoard(d, c) && DepthIndex(d, c) == 3 && |Layout(d)| == 7
    ensures BoardIndex(d, c) == 11
  {
    LayoutCount(Depth(2));
    IndexOfCentreAtDepth2();
    BoardIndexOfCentreAtDepth2();
  }

  /** At depth 2 the corrected index of F6 is 3: file E, left of it, holds 2 cells and F6 is second in file F. */
  lemma IndexOfCentreAtDepth2()
    ensures Depth(2).Valid() && OnBoard(Depth(2), Cells.Default)
    ensures DepthIndex(Depth(2), Cells.Default) == 3
  {
    var d, c := Depth(2), Cells.Default;
    assert Files.Ord(FirstFile(d)) == 4 && Files.Ord(c.file) == 5 && Ranks.Sub(c.rank, FirstRank(d)) == 1;
    assert DepthFold(d, 0, 4, 5) == 2;
  }

  /** At depth 2 `board_index` as written puts F6 at 11: it counts file E's full height 10. */
  lemma BoardIndexOfCentreAtDepth2()
    ensures Depth(2).Valid() && BoardIndex(Depth(2), Cells.Default) == 11
  {
    var d, c := Depth(2), Cells.Default;
    assert Files.Ord(FirstFile(d)) == 4 && Files.Ord(c.file) == 5 && Ranks.Sub(c.rank, FirstRank(d)) == 1;
    assert FoldHeights(0, 4, 5) == 10;
  }
}
