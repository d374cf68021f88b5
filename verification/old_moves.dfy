/**
 * The moves of the backend snapshot and the two ways its pieces produce
 * them: sliding along a ray until the first occupied cell, and landing on a
 * list of candidate cells. Cells are compared by position only, as the
 * backend's `Eq` does, so moves carry positions.
 */
module OldMoves {
  import opened Wrappers
  import opened Directions
  import opened Pieces
  import Cells
  import Moves
  import OldCells

  datatype MoveType = Promotion | NonCapture | Capture | EnPassant(removePieceOn: Cells.Cell)

  datatype Move = Move(cell: Cells.Cell, moveType: MoveType)

  /** A quiet or capturing move of the final snapshot, in the backend's move type. */
  function Older(m: Moves.Move): (o: Move)
    ensures o.cell == m.moveTo
    ensures o.moveType == Capture <==> Moves.IsCapture(m)
    ensures o.moveType == Capture || o.moveType == NonCapture
  {
    Move(m.moveTo, if Moves.IsCapture(m) then Capture else NonCapture)
  }

  function OlderAll(ms: seq<Moves.Move>): (os: seq<Move>)
    ensures |os| == |ms|
    ensures forall i :: 0 <= i < |ms| ==> os[i] == Older(ms[i])
  {
    seq(|ms|, i requires 0 <= i < |ms| => Older(ms[i]))
  }

  /**
   * The inline fold every sliding piece runs along one line of cells, with
   * the `encountered` flag: `successors(..).fold((vec![], false), ..)`.
   */
  function Slide(cells: seq<Cells.Cell>, colour: Colour, occ: Moves.Occupancy): seq<Move>
  {
    OlderAll(Moves.Fold(cells, colour, occ, ([], false)).0)
  }

  /**
   * One slide, position by position: quiet moves to the leading empty cells,
   * then a capture of the first occupied cell exactly when it holds an enemy,
   * and nothing else.
   */
  lemma SlidePrefix(cells: seq<Cells.Cell>, colour: Colour, occ: Moves.Occupancy)
    ensures var ms := Slide(cells, colour, occ);
      var k := Moves.FirstOccupied(cells, occ);
      && k <= |ms| <= k + 1
      && (forall i :: 0 <= i < k ==> ms[i] == Move(cells[i], NonCapture))
      && (|ms| == k + 1 <==> k < |cells| && occ[cells[k]].colour != colour)
      && (|ms| == k + 1 ==> ms[k] == Move(cells[k], Capture))
  {
    Moves.FoldIsBlocked(cells, colour, occ, []);
  }

  /** The moves a slide emits, read off its position-by-position shape. */
  lemma PrefixMoves(ms: seq<Move>, ray: seq<Cells.Cell>, k: nat, colour: Colour, occ: Moves.Occupancy)
    requires k <= |ms| <= k + 1 && k <= |ray|
    requires forall i :: 0 <= i < k ==> ray[i] !in occ && ms[i] == Move(ray[i], NonCapture)
    requires |ms| == k + 1 ==> k < |ray| && ray[k] in occ && occ[ray[k]].colour != colour && ms[k] == Move(ray[k], Capture)
    ensures forall m :: m in ms ==>
      && m.cell in ray
      && (m.moveType == Capture || m.moveType == NonCapture)
      && (m.cell !in occ || occ[m.cell].colour != colour)
      && (m.moveType == Capture <==> m.cell in occ)
  {
    forall m | m in ms
      ensures m.cell in ray
      ensures m.moveType == Capture || m.moveType == NonCapture
      ensures m.cell !in occ || occ[m.cell].colour != colour
      ensures m.moveType == Capture <==> m.cell in occ
    {
      var i :| 0 <= i < |ms| && ms[i] == m;
      if i < k {
        assert m == Move(ray[i], NonCapture);
      } else {
        assert m == Move(ray[k], Capture);
      }
    }
  }

  /**
   * Every move of a slide lies on its line, is not a friendly cell, and is a
   * capture exactly when its cell is occupied.
   */
  lemma SlideShape(cells: seq<Cells.Cell>, colour: Colour, occ: Moves.Occupancy)
    ensures forall m :: m in Slide(cells, colour, occ) ==>
      && m.cell in cells
      && (m.moveType == Capture || m.moveType == NonCapture)
      && (m.cell !in occ || occ[m.cell].colour != colour)
      && (m.moveType == Capture <==> m.cell in occ)
  {
    SlidePrefix(cells, colour, occ);
    PrefixMoves(Slide(cells, colour, occ), cells, Moves.FirstOccupied(cells, occ), colour, occ);
  }

  /** The slide every sliding piece of the backend runs from its cell: `successors(cell.next_cell(d), |c| c.next_cell(d))`. */
  function Cast(origin: Cells.Cell, colour: Colour, d: Direction, occ: Moves.Occupancy): seq<Move>
  {
    Slide(OldCells.Ray(origin, d), colour, occ)
  }

  /**
   * Every move of a cast lies on the ray, is neither the origin nor a
   * friendly cell, and is a capture exactly when its cell is occupied.
   */
  lemma CastShape(origin: Cells.Cell, colour: Colour, d: Direction, occ: Moves.Occupancy)
    ensures forall m :: m in Cast(origin, colour, d, occ) ==>
      && m.cell in OldCells.Ray(origin, d) && m.cell != origin
      && (m.moveType == Capture || m.moveType == NonCapture)
      && (m.cell !in occ || occ[m.cell].colour != colour)
      && (m.moveType == Capture <==> m.cell in occ)
  {
    SlideShape(OldCells.Ray(origin, d), colour, occ);
    OldCells.RayExcludesOrigin(origin, d);
  }

  /** The flat map of Cast over the directions, in order. */
  function Casts(origin: Cells.Cell, colour: Colour, dirs: seq<Direction>, occ: Moves.Occupancy): seq<Move>
  {
    if dirs == [] then [] else Cast(origin, colour, dirs[0], occ) + Casts(origin, colour, dirs[1..], occ)
  }

  /**
   * Casts in several directions: every move lies on the ray of one of them, is
   * neither the origin nor a friendly cell, and is a capture exactly when its
   * cell is occupied.
   */
  lemma {:induction false} CastsShape(origin: Cells.Cell, colour: Colour, dirs: seq<Direction>, occ: Moves.Occupancy)
    ensures forall m :: m in Casts(origin, colour, dirs, occ) ==>
      && (exists d :: d in dirs && m.cell in OldCells.Ray(origin, d))
      && m.cell != origin
      && (m.moveType == Capture || m.moveType == NonCapture)
      && (m.cell !in occ || occ[m.cell].colour != colour)
      && (m.moveType == Capture <==> m.cell in occ)
    decreases |dirs|
  {
    if dirs != [] {
      var head := Cast(origin, colour, dirs[0], occ);
      CastShape(origin, colour, dirs[0], occ);
      CastsShape(origin, colour, dirs[1..], occ);
      forall m | m in Casts(origin, colour, dirs, occ)
        ensures exists d :: d in dirs && m.cell in OldCells.Ray(origin, d)
      {
        if m in head {
          assert dirs[0] in dirs;
        } else {
          var d :| d in dirs[1..] && m.cell in OldCells.Ray(origin, d);
          assert d in dirs;
        }
      }
    }
  }

  /** Casting along interleaved directions gives the moves of both casts together. */
  lemma {:induction false} InterleavedCasts(origin: Cells.Cell, colour: Colour, a: seq<Direction>, b: seq<Direction>, occ: Moves.Occupancy)
    requires |a| == |b|
    ensures multiset(Casts(origin, colour, Moves.Interleave(a, b), occ)) ==
      multiset(Casts(origin, colour, a, occ)) + multiset(Casts(origin, colour, b, occ))
    decreases |a|
  {
    if a != [] {
      var i := Moves.Interleave(a, b);
      assert i[1..][1..] == Moves.Interleave(a[1..], b[1..]);
      InterleavedCasts(origin, colour, a[1..], b[1..], occ);
    }
  }

  /**
   * `filter_map` over candidate cells, as the knight and the king do: a quiet
   * move to an empty candidate, a capture of an enemy one, nothing on a
   * friendly one or a missing one.
   */
  function Landings(targets: seq<Option<Cells.Cell>>, colour: Colour, occ: Moves.Occupancy): seq<Move>
  {
    OlderAll(Moves.Landings(targets, colour, occ))
  }

  /**
   * At most one move per candidate; every move lands on a candidate, never on a
   * friendly piece, and is a capture exactly when its cell is occupied.
   */
  lemma LandingsShape(targets: seq<Option<Cells.Cell>>, colour: Colour, occ: Moves.Occupancy)
    ensures |Landings(targets, colour, occ)| <= |targets|
    ensures forall m :: m in Landings(targets, colour, occ) ==>
      && Some(m.cell) in targets
      && (m.moveType == Capture || m.moveType == NonCapture)
      && (m.cell !in occ || occ[m.cell].colour != colour)
      && (m.moveType == Capture <==> m.cell in occ)
  {
    var ms := Moves.Landings(targets, colour, occ);
    Moves.LandingsShape(targets, colour, occ);
    forall m | m in Landings(targets, colour, occ)
      ensures Some(m.cell) in targets
      ensures m.cell !in occ || occ[m.cell].colour != colour
      ensures m.moveType == Capture <==> m.cell in occ
    {
      var i :| 0 <= i < |ms| && Landings(targets, colour, occ)[i] == m;
      assert ms[i] in ms;
    }
  }

  /** A free candidate always gets its quiet move. */
  lemma {:induction false} LandsOnFreeTarget(targets: seq<Option<Cells.Cell>>, colour: Colour, occ: Moves.Occupancy, t: Cells.Cell)
    requires Some(t) in targets && t !in occ
    ensures Moves.Move(t, Moves.Rest(Moves.NonCapture)) in Moves.Landings(targets, colour, occ)
    ensures Move(t, NonCapture) in Landings(targets, colour, occ)
    decreases |targets|
  {
    var ms := Moves.Landings(targets, colour, occ);
    var head, rest := Moves.Land(targets[0], colour, occ), Moves.Landings(targets[1..], colour, occ);
    assert ms == head + rest;
    if targets[0] == Some(t) {
      assert ms[0] == Moves.Move(t, Moves.Rest(Moves.NonCapture));
    } else {
      assert Some(t) in targets[1..];
      LandsOnFreeTarget(targets[1..], colour, occ, t);
      var j :| 0 <= j < |rest| && rest[j] == Moves.Move(t, Moves.Rest(Moves.NonCapture));
      assert ms[|head| + j] == rest[j];
    }
    var i :| 0 <= i < |ms| && ms[i] == Moves.Move(t, Moves.Rest(Moves.NonCapture));
    assert Landings(targets, colour, occ)[i] == Move(t, NonCapture);
  }
}
