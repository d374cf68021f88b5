/**
 * The files of the backend snapshot: the same eleven files as the final
 * snapshot, with `next`/`previous` tables of their own.
 */
module OldFiles {
  import opened Wrappers
  import opened Files

  /** `Sucessor::next`: the file above, and none above FileL. */
  function Next(x: File): (n: Option<File>)
    ensures n.None? <==> x == FileL
    ensures n.Some? ==> Ord(n.value) == Ord(x) + 1
  {
    match x
    case FileA => Some(FileB)
    case FileB => Some(FileC)
    case FileC => Some(FileD)
    case FileD => Some(FileE)
    case FileE => Some(FileF)
    case FileF => Some(FileG)
    case FileG => Some(FileH)
    case FileH => Some(FileI)
    case FileI => Some(FileK)
    case FileK => Some(FileL)
    case FileL => None
  }

  /** `Predecessor::previous`: the file below, and none below FileA. */
  function Previous(x: File): (p: Option<File>)
    ensures p.None? <==> x == FileA
    ensures p.Some? ==> Ord(p.value) == Ord(x) - 1
  {
    match x
    case FileA => None
    case FileB => Some(FileA)
    case FileC => Some(FileB)
    case FileD => Some(FileC)
    case FileE => Some(FileD)
    case FileF => Some(FileE)
    case FileG => Some(FileF)
    case FileH => Some(FileG)
    case FileI => Some(FileH)
    case FileK => Some(FileI)
    case FileL => Some(FileK)
  }

  /** `Sub`: the ordinal difference as an `i8`; it lies within -10..10, so the cast never wraps. */
  function Sub(a: File, b: File): (d: int)
    ensures -10 <= d <= 10
    ensures d == 0 <==> a == b
  {
    Ord(a) - Ord(b)
  }

  /** `previous` undoes `next`, and `next` undoes `previous`, wherever they are defined. */
  lemma NextPreviousInverse(x: File)
    ensures Next(x).Some? ==> Previous(Next(x).value) == Some(x)
    ensures Previous(x).Some? ==> Next(Previous(x).value) == Some(x)
  {
    if Next(x).Some? {
      OrdInjective(Previous(Next(x).value).value, x);
    }
    if Previous(x).Some? {
      OrdInjective(Next(Previous(x).value).value, x);
    }
  }

  /** The tables agree with the final snapshot's `succ` and `pred`. */
  lemma SameAsFinal(x: File)
    ensures Next(x) == Succ(x) && Previous(x) == Pred(x)
  {
    if Next(x).Some? {
      OrdInjective(Next(x).value, Succ(x).value);
    }
    if Previous(x).Some? {
      OrdInjective(Previous(x).value, Pred(x).value);
    }
  }

  /** The difference is antisymmetric. */
  lemma SubAntisymmetric(a: File, b: File)
    ensures Sub(a, b) == -Sub(b, a)
  {
  }
}
