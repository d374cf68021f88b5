/**
 * The ranks of the backend snapshot: the same eleven ranks as the final
 * snapshot, with `next`/`previous` tables of their own.
 */
module OldRanks {
  import opened Wrappers
  import opened Ranks

  /** `Sucessor::next`: the rank above, and none above Rank11. */
  function Next(x: Rank): (n: Option<Rank>)
    ensures n.None? <==> x == Rank11
    ensures n.Some? ==> Ord(n.value) == Ord(x) + 1
  {
    match x
    case Rank1 => Some(Rank2)
    case Rank2 => Some(Rank3)
    case Rank3 => Some(Rank4)
    case Rank4 => Some(Rank5)
    case Rank5 => Some(Rank6)
    case Rank6 => Some(Rank7)
    case Rank7 => Some(Rank8)
    case Rank8 => Some(Rank9)
    case Rank9 => Some(Rank10)
    case Rank10 => Some(Rank11)
    case Rank11 => None
  }

  /** `Predecessor::previous`: the rank below, and none below Rank1. */
  function Previous(x: Rank): (p: Option<Rank>)
    ensures p.None? <==> x == Rank1
    ensures p.Some? ==> Ord(p.value) == Ord(x) - 1
  {
    match x
    case Rank1 => None
    case Rank2 => Some(Rank1)
    case Rank3 => Some(Rank2)
    case Rank4 => Some(Rank3)
    case Rank5 => Some(Rank4)
    case Rank6 => Some(Rank5)
    case Rank7 => Some(Rank6)
    case Rank8 => Some(Rank7)
    case Rank9 => Some(Rank8)
    case Rank10 => Some(Rank9)
    case Rank11 => Some(Rank10)
  }

  /** `Sub`: the ordinal difference as an `i8`; it lies within -10..10, so the cast never wraps. */
  function Sub(a: Rank, b: Rank): (d: int)
    ensures -10 <= d <= 10
    ensures d == 0 <==> a == b
  {
    Ord(a) - Ord(b)
  }

  /** `previous` undoes `next`, and `next` undoes `previous`, wherever they are defined. */
  lemma NextPreviousInverse(x: Rank)
    ensures Next(x).Some? ==> Previous(Next(x).value) == Some(x)
    ensures Previous(x).Some? ==> Next(Previous(x).value) == Some(x)
  {
    if Next(x).Some? {
      OrdInjective(Previous(Next(x).value).value, x);
    }
    if Previous(x).Some? {
      OrdInjective(Next(Previous(x).value).value, x);
    }
  }

  /** The tables agree with the final snapshot's `succ` and `pred`. */
  lemma SameAsFinal(x: Rank)
    ensures Next(x) == Succ(x) && Previous(x) == Pred(x)
  {
    if Next(x).Some? {
      OrdInjective(Next(x).value, Succ(x).value);
    }
    if Previous(x).Some? {
      OrdInjective(Previous(x).value, Pred(x).value);
    }
  }

  /** The difference is antisymmetric. */
  lemma SubAntisymmetric(a: Rank, b: Rank)
    ensures Sub(a, b) == -Sub(b, a)
  {
  }
}
