/**
 * The slides of the legacy snapshot's sliding pieces. The legacy move type
 * has only `Normal` and `Capture`; the backend's move type is used, with
 * `Normal` read as NonCapture.
 */
module LegacyMoves {
  import opened Directions
  import opened Pieces
  import Cells
  import Moves
  import LegacyCells
  import opened OldMoves

  /** The slide along d from origin, seeded with `origin.next_cell(d)`. */
  function Cast(origin: Cells.Cell, colour: Colour, d: Direction, occ: Moves.Occupancy): seq<Move>
  {
    Slide(LegacyCells.Ray(origin, d), colour, occ)
  }

  /** The flat map of Cast over the directions, in order. */
  function Casts(origin: Cells.Cell, colour: Colour, dirs: seq<Direction>, occ: Moves.Occupancy): seq<Move>
  {
    if dirs == [] then [] else Cast(origin, colour, dirs[0], occ) + Casts(origin, colour, dirs[1..], occ)
  }

  /**
   * Casts in several directions: every move lies on the legacy ray of one of
   * them, is neither the origin nor a friendly cell, and is a capture exactly
   * when its cell is occupied.
   */
  lemma {:induction false} CastsShape(origin: Cells.Cell, colour: Colour, dirs: seq<Direction>, occ: Moves.Occupancy)
    ensures forall m :: m in Casts(origin, colour, dirs, occ) ==>
      && (exists d :: d in dirs && m.cell in LegacyCells.Ray(origin, d))
      && m.cell != origin
      && (m.moveType == Capture || m.moveType == NonCapture)
      && (m.cell !in occ || occ[m.cell].colour != colour)
      && (m.moveType == Capture <==> m.cell in occ)
    decreases |dirs|
  {
    if dirs != [] {
      var head := Cast(origin, colour, dirs[0], occ);
      SlideShape(LegacyCells.Ray(origin, dirs[0]), colour, occ);
      LegacyCells.RayExcludesOrigin(origin, dirs[0]);
      CastsShape(origin, colour, dirs[1..], occ);
      forall m | m in Casts(origin, colour, dirs, occ)
        ensures exists d :: d in dirs && m.cell in LegacyCells.Ray(origin, d)
      {
        if m in head {
          assert dirs[0] in dirs;
        } else {
          var d :| d in dirs[1..] && m.cell in LegacyCells.Ray(origin, d);
          assert d in dirs;
        }
      }
    }
  }

  /** Every move of the cast along one of the directions is among the casts. */
  lemma {:induction false} CastInCasts(origin: Cells.Cell, colour: Colour, dirs: seq<Direction>, d: Direction, occ: Moves.Occupancy)
    requires d in dirs
    ensures forall m :: m in Cast(origin, colour, d, occ) ==> m in Casts(origin, colour, dirs, occ)
    decreases |dirs|
  {
    if dirs[0] != d {
      CastInCasts(origin, colour, dirs[1..], d, occ);
    }
  }

  /**
   * On a board where nothing but the mover stands, the first cell along each
   * direction that has one is a quiet move.
   */
  lemma FirstCellQuiet(origin: Cells.Cell, colour: Colour, d: Direction, occ: Moves.Occupancy)
    requires occ.Keys == {origin}
    requires LegacyCells.NextCell(origin, d).Some?
    ensures Move(LegacyCells.NextCell(origin, d).value, NonCapture) in Cast(origin, colour, d, occ)
  {
    var ray := LegacyCells.Ray(origin, d);
    LegacyCells.RayExcludesOrigin(origin, d);
    assert ray[0] !in occ;
    SlidePrefix(ray, colour, occ);
    assert Cast(origin, colour, d, occ)[0] == Move(ray[0], NonCapture);
  }
}
