/**
 * Inclusive and exclusive ranges over the ordinals of an eleven-value scale
 * (Rank or File), used as iterators. Their `Step::succ` is `v + 1`, undefined
 * at the last ordinal MaxOrd.
 */
module Ranges {
  import opened Wrappers

  const MaxOrd: int := 10

  /** The successor of an ordinal, as `Step::succ` gives it for Rank and File. */
  function StepSucc(v: int): (s: Option<int>)
    ensures s.Some? <==> v < MaxOrd
    ensures s.Some? ==> s.value == v + 1
  {
    if v < MaxOrd then Some(v + 1) else None
  }

  function Min(a: int, b: int): int { if a <= b then a else b }
  function Max(a: int, b: int): int { if a >= b then a else b }

  /** The ordinals a, a+1, ..., b in order (empty when a > b). */
  function Interval(a: int, b: int): (s: seq<int>)
    ensures |s| == if a <= b then b - a + 1 else 0
    ensures forall i :: 0 <= i < |s| ==> s[i] == a + i
    decreases b - a
  {
    if a > b then [] else [a] + Interval(a + 1, b)
  }

  /** `RangeInc<T>`: yields lo, succ(lo), ..., hi, then None for ever. */
  datatype RangeInc = RangeInc(lo: int, hi: int, ended: bool) {

    static function New(lo: int, hi: int): (r: RangeInc)
      ensures r.Lo() == lo && r.Hi() == hi && !r.ended
    {
      RangeInc(lo, hi, false)
    }

    function Lo(): int { lo }
    function Hi(): int { hi }

    /** Everything the iterator will still yield from this state. */
    ghost function Yields(): seq<int> {
      if ended || lo > hi then []
      else if lo == hi then [lo]
      else Interval(lo, if hi <= MaxOrd then hi else MaxOrd - 1)
    }

    /** Intersects with another range, keeping this range's ended flag. */
    function Clamp(rhs: RangeInc): (r: RangeInc)
      ensures r.ended == ended
      ensures forall v :: r.Contains(v) <==> Contains(v) && rhs.Contains(v)
      ensures r.Lo() == Max(lo, rhs.lo) && r.Hi() == Min(hi, rhs.hi)
    {
      RangeInc(Max(lo, rhs.lo), Min(hi, rhs.hi), ended)
    }

    /** `hi - lo + 1`: the number of items a fresh range yields. */
    function Remaning(): (n: int)
      ensures lo <= hi ==> n >= 1
    {
      hi - lo + 1
    }

    /** A range that has not ended reports as many remaining items as it will yield. */
    lemma RemaningCounts()
      requires !ended && lo <= hi <= MaxOrd
      ensures Remaning() == |Yields()|
    {
    }

    function Contains(v: int): (b: bool)
      ensures !ended && hi <= MaxOrd ==> (b <==> v in Yields())
    {
      assert !ended && lo <= v <= hi <= MaxOrd && lo < hi ==> Yields()[v - lo] == v;
      lo <= v && v <= hi
    }

    /** One call of `Iterator::next`: the item and the advanced iterator. */
    function Next(): (res: (Option<int>, RangeInc))
      ensures ended ==> res == (None, this)
      ensures Yields() == [] ==> res.0 == None && res.1.Yields() == []
      ensures Yields() != [] ==> res.0 == Some(Yields()[0]) && res.1.Yields() == Yields()[1..]
      ensures res.1.hi == hi && res.1.lo >= lo
    {
      if ended then (None, this)
      else if lo == hi then (Some(lo), this.(ended := true))
      else if lo > hi then (None, this.(ended := true))
      else match StepSucc(lo)
        case None => (None, this.(ended := true))
        case Some(succ) => (Some(lo), this.(lo := succ))
    }
  }

  /** `Range<T>`: yields lo, succ(lo), ..., up to but excluding hi. */
  datatype Range = Range(lo: int, hi: int, ended: bool) {

    static function New(lo: int, hi: int): (r: Range)
      ensures !r.ended
      ensures hi <= MaxOrd ==> r.Yields() == Interval(lo, hi - 1)
    {
      Range(lo, hi, false)
    }

    ghost function Yields(): seq<int> {
      if ended || lo >= hi then [] else Interval(lo, Min(hi - 1, MaxOrd - 1))
    }

    /** `hi - lo`: the number of items a fresh range yields. */
    function Remaning(): (n: int)
      ensures !ended && lo <= hi <= MaxOrd ==> n == |Yields()|
    {
      hi - lo
    }

    function Next(): (res: (Option<int>, Range))
      ensures ended ==> res == (None, this)
      ensures Yields() == [] ==> res.0 == None && res.1.Yields() == []
      ensures Yields() != [] ==> res.0 == Some(Yields()[0]) && res.1.Yields() == Yields()[1..]
      ensures res.1.hi == hi && res.1.lo >= lo
    {
      if ended then (None, this)
      else if lo >= hi then (None, this.(ended := true))
      else match StepSucc(lo)
        case None => (None, this.(ended := true))
        case Some(succ) => (Some(lo), this.(lo := succ))
    }
  }

  /** `RangeInc::collect`: drains the iterator. */
  method CollectInc(r: RangeInc) returns (items: seq<int>)
    ensures items == r.Yields()
  {
    items := [];
    var it := r;
    while true
      invariant items + it.Yields() == r.Yields()
      decreases |it.Yields()|
    {
      var step := it.Next();
      if step.0.None? { break; }
      items := items + [step.0.value];
      it := step.1;
    }
  }

  /** `Range::collect`: drains the iterator. */
  method Collect(r: Range) returns (items: seq<int>)
    ensures items == r.Yields()
  {
    items := [];
    var it := r;
    while true
      invariant items + it.Yields() == r.Yields()
      decreases |it.Yields()|
    {
      var step := it.Next();
      if step.0.None? { break; }
      items := items + [step.0.value];
      it := step.1;
    }
  }

  /** A fresh inclusive range yields lo through hi, or nothing when lo > hi. */
  lemma NewYields(lo: int, hi: int)
    ensures lo <= hi <= MaxOrd ==> RangeInc.New(lo, hi).Yields() == Interval(lo, hi)
    ensures lo > hi ==> RangeInc.New(lo, hi).Yields() == []
  {
    if lo == hi {
      assert Interval(lo, hi) == [lo] + Interval(lo + 1, hi);
    }
  }

  /** The unit tests of the source, stated on the model. */
  lemma RangeExamples()
    ensures RangeInc.New(0, 1).Yields() == [0, 1]
    ensures RangeInc.New(0, 0).Yields() == [0]
    ensures RangeInc.New(0, -1).Yields() == []
    ensures Range.New(0, 2).Yields() == [0, 1]
    ensures Range.New(0, 1).Yields() == [0]
    ensures Range.New(0, 0).Yields() == []
    ensures Range.New(0, -1).Yields() == []
  {
    NewYields(0, 1);
    NewYields(0, 0);
    NewYields(0, -1);
    assert Interval(0, 1) == [0, 1];
  }
}
