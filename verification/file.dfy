/** The eleven files A..L (there is no file J), an ordinal scale like Rank. */
module Files {
  import opened Wrappers
  import Ranks
  import opened Ranges

  datatype File =
    | FileA | FileB | FileC | FileD | FileE | FileF
    | FileG | FileH | FileI | FileK | FileL

  /** The discriminant of a file: FileA is 0, FileF (the centre) 5, FileL 10. */
  function Ord(f: File): (n: nat)
    ensures n <= 10
  {
    match f
    case FileA => 0  case FileB => 1  case FileC => 2  case FileD => 3
    case FileE => 4  case FileF => 5  case FileG => 6  case FileH => 7
    case FileI => 8  case FileK => 9  case FileL => 10
  }

  function FromOrd(n: nat): (f: File)
    requires n <= 10
    ensures Ord(f) == n
  {
    match n
    case 0 => FileA  case 1 => FileB  case 2 => FileC  case 3 => FileD
    case 4 => FileE  case 5 => FileF  case 6 => FileG  case 7 => FileH
    case 8 => FileI  case 9 => FileK  case _ => FileL
  }

  lemma OrdInjective(a: File, b: File)
    requires Ord(a) == Ord(b)
    ensures a == b
  {
  }

  /** The files in declaration order (the `EnumIter` order). */
  const AllFiles: seq<File> := [FileA, FileB, FileC, FileD, FileE, FileF, FileG, FileH, FileI, FileK, FileL]

  lemma AllFilesInOrder()
    ensures |AllFiles| == 11
    ensures forall i :: 0 <= i < 11 ==> Ord(AllFiles[i]) == i
    ensures forall f :: f in AllFiles
  {
    forall f: File ensures f in AllFiles {
      OrdInjective(AllFiles[Ord(f)], f);
    }
  }

  /** The derived default file, the centre file. */
  const Default: File := FileF

  function Sub(a: File, b: File): (d: int)
    ensures d == 0 <==> a == b
    ensures -10 <= d <= 10
  {
    Ord(a) - Ord(b)
  }

  function Succ(f: File): (s: Option<File>)
    ensures s.None? <==> f == FileL
    ensures s.Some? ==> Ord(s.value) == Ord(f) + 1
  {
    match f
    case FileA => Some(FileB)
    case FileB => Some(FileC)
    case FileC => Some(FileD)
    case FileD => Some(FileE)
    case FileE => Some(FileF)
    case FileF => Some(FileG)
    case FileG => Some(FileH)
    case FileH => Some(FileI)
    case FileI => Some(FileK)
    case FileK => Some(FileL)
    case FileL => None
  }

  function Pred(f: File): (p: Option<File>)
    ensures p.None? <==> f == FileA
    ensures p.Some? ==> Ord(p.value) == Ord(f) - 1
  {
    match f
    case FileA => None
    case FileB => Some(FileA)
    case FileC => Some(FileB)
    case FileD => Some(FileC)
    case FileE => Some(FileD)
    case FileF => Some(FileE)
    case FileG => Some(FileF)
    case FileH => Some(FileG)
    case FileI => Some(FileH)
    case FileK => Some(FileI)
    case FileL => Some(FileK)
  }

  lemma SuccPredInverse(f: File)
    ensures Succ(f).Some? ==> Pred(Succ(f).value) == Some(f)
    ensures Pred(f).Some? ==> Succ(Pred(f).value) == Some(f)
  {
    if Succ(f).Some? { OrdInjective(Pred(Succ(f).value).value, f); }
    if Pred(f).Some? { OrdInjective(Succ(Pred(f).value).value, f); }
  }

  lemma SubAntisymmetric(a: File, b: File)
    ensures Sub(a, b) == -Sub(b, a)
    ensures Succ(b) == Some(a) ==> Sub(a, b) == 1
  {
  }

  lemma SuccByOrd(f: File)
    ensures Succ(f) == if Ord(f) < 10 then Some(FromOrd(Ord(f) + 1)) else None
  {
    if Ord(f) < 10 { OrdInjective(Succ(f).value, FromOrd(Ord(f) + 1)); }
  }

  lemma PredByOrd(f: File)
    ensures Pred(f) == if Ord(f) > 0 then Some(FromOrd(Ord(f) - 1)) else None
  {
    if Ord(f) > 0 { OrdInjective(Pred(f).value, FromOrd(Ord(f) - 1)); }
  }

  function Abs(x: int): nat { if x < 0 then -x else x }

  /** The number of ranks of a file on the full board: 11 at the centre, 6 at the edges. */
  function ColumnHeight(fo: int): int { 11 - Abs(fo - 5) }

  /** `File::rank_range`: the ranks of this file on the full board, over rank ordinals. */
  function RankRange(f: File): (r: RangeInc)
    ensures !r.ended && r.Lo() == Ranks.Ord(Ranks.Rank1)
    ensures r.Hi() == ColumnHeight(Ord(f)) - 1
  {
    match f
    case FileA => RangeInc.New(Ranks.Ord(Ranks.Rank1), Ranks.Ord(Ranks.Rank6))
    case FileB => RangeInc.New(Ranks.Ord(Ranks.Rank1), Ranks.Ord(Ranks.Rank7))
    case FileC => RangeInc.New(Ranks.Ord(Ranks.Rank1), Ranks.Ord(Ranks.Rank8))
    case FileD => RangeInc.New(Ranks.Ord(Ranks.Rank1), Ranks.Ord(Ranks.Rank9))
    case FileE => RangeInc.New(Ranks.Ord(Ranks.Rank1), Ranks.Ord(Ranks.Rank10))
    case FileF => RangeInc.New(Ranks.Ord(Ranks.Rank1), Ranks.Ord(Ranks.Rank11))
    case FileG => RangeInc.New(Ranks.Ord(Ranks.Rank1), Ranks.Ord(Ranks.Rank10))
    case FileH => RangeInc.New(Ranks.Ord(Ranks.Rank1), Ranks.Ord(Ranks.Rank9))
    case FileI => RangeInc.New(Ranks.Ord(Ranks.Rank1), Ranks.Ord(Ranks.Rank8))
    case FileK => RangeInc.New(Ranks.Ord(Ranks.Rank1), Ranks.Ord(Ranks.Rank7))
    case FileL => RangeInc.New(Ranks.Ord(Ranks.Rank1), Ranks.Ord(Ranks.Rank6))
  }

  /** A file's rank range yields the rank ordinals from 0 up to the file's height less one. */
  lemma RankRangeYields(f: File)
    ensures RankRange(f).Yields() == Interval(0, ColumnHeight(Ord(f)) - 1)
  {
    var r := RankRange(f);
    assert 0 < r.Hi() <= MaxOrd;
  }

  /** Sum of the column heights of files with ordinal below n. */
  function HeightsBelow(n: nat): (s: int)
    requires n <= 11
    ensures s >= 0
  {
    if n == 0 then 0 else HeightsBelow(n - 1) + ColumnHeight(n - 1)
  }

  /** The rank ranges of all files together hold 91 ranks. */
  lemma {:induction false} RankRangesSumTo91()
    ensures HeightsBelow(11) == 91
  {
    assert HeightsBelow(5) == 40;
  }
}
