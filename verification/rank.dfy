/** The eleven ranks of the board, an ordinal scale with partial successor and predecessor. */
module Ranks {
  import opened Wrappers

  datatype Rank =
    | Rank1 | Rank2 | Rank3 | Rank4 | Rank5 | Rank6
    | Rank7 | Rank8 | Rank9 | Rank10 | Rank11

  /** The discriminant of a rank (`self as isize`): Rank1 is 0, Rank11 is 10. */
  function Ord(r: Rank): (n: nat)
    ensures n <= 10
  {
    match r
    case Rank1 => 0  case Rank2 => 1  case Rank3 => 2  case Rank4 => 3
    case Rank5 => 4  case Rank6 => 5  case Rank7 => 6  case Rank8 => 7
    case Rank9 => 8  case Rank10 => 9 case Rank11 => 10
  }

  function FromOrd(n: nat): (r: Rank)
    requires n <= 10
    ensures Ord(r) == n
  {
    match n
    case 0 => Rank1  case 1 => Rank2  case 2 => Rank3  case 3 => Rank4
    case 4 => Rank5  case 5 => Rank6  case 6 => Rank7  case 7 => Rank8
    case 8 => Rank9  case 9 => Rank10 case _ => Rank11
  }

  lemma OrdInjective(a: Rank, b: Rank)
    requires Ord(a) == Ord(b)
    ensures a == b
  {
  }

  /** The derived default rank, the centre rank. */
  const Default: Rank := Rank6

  /** `a - b`, the signed ordinal offset. */
  function Sub(a: Rank, b: Rank): (d: int)
    ensures d == 0 <==> a == b
    ensures -10 <= d <= 10
  {
    Ord(a) - Ord(b)
  }

  function Succ(r: Rank): (s: Option<Rank>)
    ensures s.None? <==> r == Rank11
    ensures s.Some? ==> Ord(s.value) == Ord(r) + 1
  {
    match r
    case Rank1 => Some(Rank2)
    case Rank2 => Some(Rank3)
    case Rank3 => Some(Rank4)
    case Rank4 => Some(Rank5)
    case Rank5 => Some(Rank6)
    case Rank6 => Some(Rank7)
    case Rank7 => Some(Rank8)
    case Rank8 => Some(Rank9)
    case Rank9 => Some(Rank10)
    case Rank10 => Some(Rank11)
    case Rank11 => None
  }

  function Pred(r: Rank): (p: Option<Rank>)
    ensures p.None? <==> r == Rank1
    ensures p.Some? ==> Ord(p.value) == Ord(r) - 1
  {
    match r
    case Rank1 => None
    case Rank2 => Some(Rank1)
    case Rank3 => Some(Rank2)
    case Rank4 => Some(Rank3)
    case Rank5 => Some(Rank4)
    case Rank6 => Some(Rank5)
    case Rank7 => Some(Rank6)
    case Rank8 => Some(Rank7)
    case Rank9 => Some(Rank8)
    case Rank10 => Some(Rank9)
    case Rank11 => Some(Rank10)
  }

  /** Succ and Pred are partial inverses. */
  lemma SuccPredInverse(r: Rank)
    ensures Succ(r).Some? ==> Pred(Succ(r).value) == Some(r)
    ensures Pred(r).Some? ==> Succ(Pred(r).value) == Some(r)
  {
    if Succ(r).Some? { OrdInjective(Pred(Succ(r).value).value, r); }
    if Pred(r).Some? { OrdInjective(Succ(Pred(r).value).value, r); }
  }

  lemma SubAntisymmetric(a: Rank, b: Rank)
    ensures Sub(a, b) == -Sub(b, a)
    ensures Succ(b) == Some(a) ==> Sub(a, b) == 1
  {
  }

  /** Succ and Pred as ordinal arithmetic, the form the geometry proofs use. */
  lemma SuccByOrd(r: Rank)
    ensures Succ(r) == if Ord(r) < 10 then Some(FromOrd(Ord(r) + 1)) else None
  {
    if Ord(r) < 10 { OrdInjective(Succ(r).value, FromOrd(Ord(r) + 1)); }
  }

  lemma PredByOrd(r: Rank)
    ensures Pred(r) == if Ord(r) > 0 then Some(FromOrd(Ord(r) - 1)) else None
  {
    if Ord(r) > 0 { OrdInjective(Pred(r).value, FromOrd(Ord(r) - 1)); }
  }
}
