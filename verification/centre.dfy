/** The rays from the centre cell F6 across the otherwise empty full board. */
module CentreRays {
  import opened Wrappers
  import opened Ranks
  import opened Files
  import opened Directions
  import opened Cells
  import opened Moves

  /** The steps along Clock1 from F6, up to the rim. */
  lemma Clock1Steps()
    ensures Next(Cell(Rank6, FileF), Clock1) == Some(Cell(Rank7, FileG))
    ensures Next(Cell(Rank7, FileG), Clock1) == Some(Cell(Rank8, FileH))
    ensures Next(Cell(Rank8, FileH), Clock1) == None
  {
  }

  lemma Clock1Ray()
    ensures Ray(Cells.Default, Clock1) == [Cell(Rank7, FileG), Cell(Rank8, FileH)]
  {
    Clock1Steps();
    RayUnfold(Cell(Rank6, FileF), Clock1, Cell(Rank7, FileG));
    RayUnfold(Cell(Rank7, FileG), Clock1, Cell(Rank8, FileH));
  }

  /** The steps along Clock2 from F6, up to the rim. */
  lemma Clock2Steps()
    ensures Next(Cell(Rank6, FileF), Clock2) == Some(Cell(Rank6, FileG))
    ensures Next(Cell(Rank6, FileG), Clock2) == Some(Cell(Rank6, FileH))
    ensures Next(Cell(Rank6, FileH), Clock2) == Some(Cell(Rank6, FileI))
    ensures Next(Cell(Rank6, FileI), Clock2) == Some(Cell(Rank6, FileK))
    ensures Next(Cell(Rank6, FileK), Clock2) == Some(Cell(Rank6, FileL))
    ensures Next(Cell(Rank6, FileL), Clock2) == None
  {
  }

  lemma Clock2Ray()
    ensures Ray(Cells.Default, Clock2) == [Cell(Rank6, FileG), Cell(Rank6, FileH), Cell(Rank6, FileI), Cell(Rank6, FileK), Cell(Rank6, FileL)]
  {
    Clock2Steps();
    RayUnfold(Cell(Rank6, FileF), Clock2, Cell(Rank6, FileG));
    RayUnfold(Cell(Rank6, FileG), Clock2, Cell(Rank6, FileH));
    RayUnfold(Cell(Rank6, FileH), Clock2, Cell(Rank6, FileI));
    RayUnfold(Cell(Rank6, FileI), Clock2, Cell(Rank6, FileK));
    RayUnfold(Cell(Rank6, FileK), Clock2, Cell(Rank6, FileL));
  }

  /** The steps along Clock3 from F6, up to the rim. */
  lemma Clock3Steps()
    ensures Next(Cell(Rank6, FileF), Clock3) == Some(Cell(Rank5, FileH))
    ensures Next(Cell(Rank5, FileH), Clock3) == Some(Cell(Rank4, FileK))
    ensures Next(Cell(Rank4, FileK), Clock3) == None
  {
  }

  lemma Clock3Ray()
    ensures Ray(Cells.Default, Clock3) == [Cell(Rank5, FileH), Cell(Rank4, FileK)]
  {
    Clock3Steps();
    RayUnfold(Cell(Rank6, FileF), Clock3, Cell(Rank5, FileH));
    RayUnfold(Cell(Rank5, FileH), Clock3, Cell(Rank4, FileK));
  }

  /** The steps along Clock4 from F6, up to the rim. */
  lemma Clock4Steps()
    ensures Next(Cell(Rank6, FileF), Clock4) == Some(Cell(Rank5, FileG))
    ensures Next(Cell(Rank5, FileG), Clock4) == Some(Cell(Rank4, FileH))
    ensures Next(Cell(Rank4, FileH), Clock4) == Some(Cell(Rank3, FileI))
    ensures Next(Cell(Rank3, FileI), Clock4) == Some(Cell(Rank2, FileK))
    ensures Next(Cell(Rank2, FileK), Clock4) == Some(Cell(Rank1, FileL))
    ensures Next(Cell(Rank1, FileL), Clock4) == None
  {
  }

  lemma Clock4Ray()
    ensures Ray(Cells.Default, Clock4) == [Cell(Rank5, FileG), Cell(Rank4, FileH), Cell(Rank3, FileI), Cell(Rank2, FileK), Cell(Rank1, FileL)]
  {
    Clock4Steps();
    RayUnfold(Cell(Rank6, FileF), Clock4, Cell(Rank5, FileG));
    RayUnfold(Cell(Rank5, FileG), Clock4, Cell(Rank4, FileH));
    RayUnfold(Cell(Rank4, FileH), Clock4, Cell(Rank3, FileI));
    RayUnfold(Cell(Rank3, FileI), Clock4, Cell(Rank2, FileK));
    RayUnfold(Cell(Rank2, FileK), Clock4, Cell(Rank1, FileL));
  }

  /** The steps along Clock5 from F6, up to the rim. */
  lemma Clock5Steps()
    ensures Next(Cell(Rank6, FileF), Clock5) == Some(Cell(Rank4, FileG))
    ensures Next(Cell(Rank4, FileG), Clock5) == Some(Cell(Rank2, FileH))
    ensures Next(Cell(Rank2, FileH), Clock5) == None
  {
  }

  lemma Clock5Ray()
    ensures Ray(Cells.Default, Clock5) == [Cell(Rank4, FileG), Cell(Rank2, FileH)]
  {
    Clock5Steps();
    RayUnfold(Cell(Rank6, FileF), Clock5, Cell(Rank4, FileG));
    RayUnfold(Cell(Rank4, FileG), Clock5, Cell(Rank2, FileH));
  }

  /** The steps along Clock6 from F6, up to the rim. */
  lemma Clock6Steps()
    ensures Next(Cell(Rank6, FileF), Clock6) == Some(Cell(Rank5, FileF))
    ensures Next(Cell(Rank5, FileF), Clock6) == Some(Cell(Rank4, FileF))
    ensures Next(Cell(Rank4, FileF), Clock6) == Some(Cell(Rank3, FileF))
    ensures Next(Cell(Rank3, FileF), Clock6) == Some(Cell(Rank2, FileF))
    ensures Next(Cell(Rank2, FileF), Clock6) == Some(Cell(Rank1, FileF))
    ensures Next(Cell(Rank1, FileF), Clock6) == None
  {
  }

  lemma Clock6Ray()
    ensures Ray(Cells.Default, Clock6) == [Cell(Rank5, FileF), Cell(Rank4, FileF), Cell(Rank3, FileF), Cell(Rank2, FileF), Cell(Rank1, FileF)]
  {
    Clock6Steps();
    RayUnfold(Cell(Rank6, FileF), Clock6, Cell(Rank5, FileF));
    RayUnfold(Cell(Rank5, FileF), Clock6, Cell(Rank4, FileF));
    RayUnfold(Cell(Rank4, FileF), Clock6, Cell(Rank3, FileF));
    RayUnfold(Cell(Rank3, FileF), Clock6, Cell(Rank2, FileF));
    RayUnfold(Cell(Rank2, FileF), Clock6, Cell(Rank1, FileF));
  }

  /** The steps along Clock7 from F6, up to the rim. */
  lemma Clock7Steps()
    ensures Next(Cell(Rank6, FileF), Clock7) == Some(Cell(Rank4, FileE))
    ensures Next(Cell(Rank4, FileE), Clock7) == Some(Cell(Rank2, FileD))
    ensures Next(Cell(Rank2, FileD), Clock7) == None
  {
  }

  lemma Clock7Ray()
    ensures Ray(Cells.Default, Clock7) == [Cell(Rank4, FileE), Cell(Rank2, FileD)]
  {
    Clock7Steps();
    RayUnfold(Cell(Rank6, FileF), Clock7, Cell(Rank4, FileE));
    RayUnfold(Cell(Rank4, FileE), Clock7, Cell(Rank2, FileD));
  }

  /** The steps along Clock8 from F6, up to the rim. */
  lemma Clock8Steps()
    ensures Next(Cell(Rank6, FileF), Clock8) == Some(Cell(Rank5, FileE))
    ensures Next(Cell(Rank5, FileE), Clock8) == Some(Cell(Rank4, FileD))
    ensures Next(Cell(Rank4, FileD), Clock8) == Some(Cell(Rank3, FileC))
    ensures Next(Cell(Rank3, FileC), Clock8) == Some(Cell(Rank2, FileB))
    ensures Next(Cell(Rank2, FileB), Clock8) == Some(Cell(Rank1, FileA))
    ensures Next(Cell(Rank1, FileA), Clock8) == None
  {
  }

  lemma Clock8Ray()
    ensures Ray(Cells.Default, Clock8) == [Cell(Rank5, FileE), Cell(Rank4, FileD), Cell(Rank3, FileC), Cell(Rank2, FileB), Cell(Rank1, FileA)]
  {
    Clock8Steps();
    RayUnfold(Cell(Rank6, FileF), Clock8, Cell(Rank5, FileE));
    RayUnfold(Cell(Rank5, FileE), Clock8, Cell(Rank4, FileD));
    RayUnfold(Cell(Rank4, FileD), Clock8, Cell(Rank3, FileC));
    RayUnfold(Cell(Rank3, FileC), Clock8, Cell(Rank2, FileB));
    RayUnfold(Cell(Rank2, FileB), Clock8, Cell(Rank1, FileA));
  }

  /** The steps along Clock9 from F6, up to the rim. */
  lemma Clock9Steps()
    ensures Next(Cell(Rank6, FileF), Clock9) == Some(Cell(Rank5, FileD))
    ensures Next(Cell(Rank5, FileD), Clock9) == Some(Cell(Rank4, FileB))
    ensures Next(Cell(Rank4, FileB), Clock9) == None
  {
  }

  lemma Clock9Ray()
    ensures Ray(Cells.Default, Clock9) == [Cell(Rank5, FileD), Cell(Rank4, FileB)]
  {
    Clock9Steps();
    RayUnfold(Cell(Rank6, FileF), Clock9, Cell(Rank5, FileD));
    RayUnfold(Cell(Rank5, FileD), Clock9, Cell(Rank4, FileB));
  }

  /** The steps along Clock10 from F6, up to the rim. */
  lemma Clock10Steps()
    ensures Next(Cell(Rank6, FileF), Clock10) == Some(Cell(Rank6, FileE))
    ensures Next(Cell(Rank6, FileE), Clock10) == Some(Cell(Rank6, FileD))
    ensures Next(Cell(Rank6, FileD), Clock10) == Some(Cell(Rank6, FileC))
    ensures Next(Cell(Rank6, FileC), Clock10) == Some(Cell(Rank6, FileB))
    ensures Next(Cell(Rank6, FileB), Clock10) == Some(Cell(Rank6, FileA))
    ensures Next(Cell(Rank6, FileA), Clock10) == None
  {
  }

  lemma Clock10Ray()
    ensures Ray(Cells.Default, Clock10) == [Cell(Rank6, FileE), Cell(Rank6, FileD), Cell(Rank6, FileC), Cell(Rank6, FileB), Cell(Rank6, FileA)]
  {
    Clock10Steps();
    RayUnfold(Cell(Rank6, FileF), Clock10, Cell(Rank6, FileE));
    RayUnfold(Cell(Rank6, FileE), Clock10, Cell(Rank6, FileD));
    RayUnfold(Cell(Rank6, FileD), Clock10, Cell(Rank6, FileC));
    RayUnfold(Cell(Rank6, FileC), Clock10, Cell(Rank6, FileB));
    RayUnfold(Cell(Rank6, FileB), Clock10, Cell(Rank6, FileA));
  }

  /** The steps along Clock11 from F6, up to the rim. */
  lemma Clock11Steps()
    ensures Next(Cell(Rank6, FileF), Clock11) == Some(Cell(Rank7, FileE))
    ensures Next(Cell(Rank7, FileE), Clock11) == Some(Cell(Rank8, FileD))
    ensures Next(Cell(Rank8, FileD), Clock11) == None
  {
  }

  lemma Clock11Ray()
    ensures Ray(Cells.Default, Clock11) == [Cell(Rank7, FileE), Cell(Rank8, FileD)]
  {
    Clock11Steps();
    RayUnfold(Cell(Rank6, FileF), Clock11, Cell(Rank7, FileE));
    RayUnfold(Cell(Rank7, FileE), Clock11, Cell(Rank8, FileD));
  }

  /** The steps along Clock12 from F6, up to the rim. */
  lemma Clock12Steps()
    ensures Next(Cell(Rank6, FileF), Clock12) == Some(Cell(Rank7, FileF))
    ensures Next(Cell(Rank7, FileF), Clock12) == Some(Cell(Rank8, FileF))
    ensures Next(Cell(Rank8, FileF), Clock12) == Some(Cell(Rank9, FileF))
    ensures Next(Cell(Rank9, FileF), Clock12) == Some(Cell(Rank10, FileF))
    ensures Next(Cell(Rank10, FileF), Clock12) == Some(Cell(Rank11, FileF))
    ensures Next(Cell(Rank11, FileF), Clock12) == None
  {
  }

  lemma Clock12Ray()
    ensures Ray(Cells.Default, Clock12) == [Cell(Rank7, FileF), Cell(Rank8, FileF), Cell(Rank9, FileF), Cell(Rank10, FileF), Cell(Rank11, FileF)]
  {
    Clock12Steps();
    RayUnfold(Cell(Rank6, FileF), Clock12, Cell(Rank7, FileF));
    RayUnfold(Cell(Rank7, FileF), Clock12, Cell(Rank8, FileF));
    RayUnfold(Cell(Rank8, FileF), Clock12, Cell(Rank9, FileF));
    RayUnfold(Cell(Rank9, FileF), Clock12, Cell(Rank10, FileF));
    RayUnfold(Cell(Rank10, FileF), Clock12, Cell(Rank11, FileF));
  }

  /** Each straight ray from F6 crosses five cells to the rim. */
  lemma StraightRayLength(d: Direction)
    requires IsStraight(d)
    ensures |Ray(Cells.Default, d)| == 5
  {
    match d
    case Clock2 => Clock2Ray();
    case Clock4 => Clock4Ray();
    case Clock6 => Clock6Ray();
    case Clock8 => Clock8Ray();
    case Clock10 => Clock10Ray();
    case Clock12 => Clock12Ray();
  }

  /** Each diagonal ray from F6 crosses two cells to the rim. */
  lemma DiagonalRayLength(d: Direction)
    requires !IsStraight(d)
    ensures |Ray(Cells.Default, d)| == 2
  {
    match d
    case Clock1 => Clock1Ray();
    case Clock3 => Clock3Ray();
    case Clock5 => Clock5Ray();
    case Clock7 => Clock7Ray();
    case Clock9 => Clock9Ray();
    case Clock11 => Clock11Ray();
  }

  /** Every straight ray from F6 crosses five cells. */
  lemma StraightRays()
    ensures forall d :: d in StraightDirections ==> |Ray(Cells.Default, d)| == 5
  {
    forall d | d in StraightDirections
      ensures |Ray(Cells.Default, d)| == 5
    {
      StraightRayLength(d);
    }
  }

  /** Every diagonal ray from F6 crosses two cells. */
  lemma DiagonalRays()
    ensures forall d :: d in DiagonalDirections ==> |Ray(Cells.Default, d)| == 2
  {
    forall d | d in DiagonalDirections
      ensures |Ray(Cells.Default, d)| == 2
    {
      DiagonalRayLength(d);
    }
  }
}
