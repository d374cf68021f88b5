/**
 * Moves, their types, and the ray cast shared by the sliding pieces: walk
 * from a cell along one direction, emitting quiet moves over empty cells and
 * stopping at the first occupied cell, which is a capture if it holds an enemy.
 */
module Moves {
  import opened Wrappers
  import Ranks
  import Files
  import opened Directions
  import opened Cells
  import opened Pieces

  datatype RestMoveType = NonCapture | Capture

  datatype PawnMoveType =
    | PawnNonCapture
    | NormalCapture
    | EnPassant(removePieceOn: Cell)
    | NonCapturePromotion
    | CapturePromotion

  datatype MoveType = Rest(rest: RestMoveType) | PawnMove(pawn: PawnMoveType)

  datatype Move = Move(moveTo: Cell, moveType: MoveType)

  datatype PawnFirstMoveState = Single | Double

  datatype PawnMoveState = Before | First(first: PawnFirstMoveState) | After

  /** What stands where: a cell absent from the map is empty. */
  type Occupancy = map<Cell, Piece>

  /** A quantity every step along d lowers: the file for sideways directions, the rank for Clock6/Clock12. */
  function RayMeasure(c: Cell, d: Direction): nat
  {
    match d
    case Clock6 => Ranks.Ord(c.rank)
    case Clock12 => 10 - Ranks.Ord(c.rank)
    case _ => if FileStep(d) > 0 then 10 - Files.Ord(c.file) else Files.Ord(c.file)
  }

  lemma NextDecreases(c: Cell, d: Direction)
    ensures Next(c, d).Some? ==> RayMeasure(Next(c, d).value, d) < RayMeasure(c, d)
  {
    NextIsStep(c, d);
  }

  /** `successors(cell.next(d), |c| c.next(d))`: the cells beyond c along d, up to the edge. */
  function Ray(c: Cell, d: Direction): seq<Cell>
    decreases RayMeasure(c, d)
  {
    match Next(c, d)
    case None => []
    case Some(n) => NextDecreases(c, d); [n] + Ray(n, d)
  }

  /** The ray is the chain of `next` steps from c, valid cells only, ending at the edge. */
  lemma RayChain(c: Cell, d: Direction)
    ensures |Ray(c, d)| == 0 <==> Next(c, d).None?
    ensures |Ray(c, d)| > 0 ==> Next(c, d) == Some(Ray(c, d)[0])
    ensures forall i :: 0 <= i < |Ray(c, d)| - 1 ==> Next(Ray(c, d)[i], d) == Some(Ray(c, d)[i + 1])
    ensures |Ray(c, d)| > 0 ==> Next(Ray(c, d)[|Ray(c, d)| - 1], d).None?
    ensures forall x :: x in Ray(c, d) ==> Valid(x) && RayMeasure(x, d) < RayMeasure(c, d)
  {
    RayLinks(c, d);
    RayInside(c, d);
  }

  /** Each cell of the ray steps to the next one, and the last one steps off the board. */
  lemma {:induction false} RayLinks(c: Cell, d: Direction)
    ensures forall i :: 0 <= i < |Ray(c, d)| - 1 ==> Next(Ray(c, d)[i], d) == Some(Ray(c, d)[i + 1])
    ensures |Ray(c, d)| > 0 ==> Next(Ray(c, d)[|Ray(c, d)| - 1], d).None?
    decreases RayMeasure(c, d)
  {
    if Next(c, d).Some? {
      var n := Next(c, d).value;
      NextDecreases(c, d);
      RayLinks(n, d);
      var r, rest := Ray(c, d), Ray(n, d);
      assert r == [n] + rest;
      forall i | 0 <= i < |r| - 1
        ensures Next(r[i], d) == Some(r[i + 1])
      {
        if i > 0 {
          assert r[i] == rest[i - 1] && r[i + 1] == rest[i];
        }
      }
      if rest != [] {
        assert r[|r| - 1] == rest[|rest| - 1];
      }
    }
  }

  /** Every cell of the ray is on the board and strictly further along d than c. */
  lemma {:induction false} RayInside(c: Cell, d: Direction)
    ensures forall x :: x in Ray(c, d) ==> Valid(x) && RayMeasure(x, d) < RayMeasure(c, d)
    decreases RayMeasure(c, d)
  {
    if Next(c, d).Some? {
      var n := Next(c, d).value;
      NextDecreases(c, d);
      RayInside(n, d);
      var r, rest := Ray(c, d), Ray(n, d);
      assert r == [n] + rest;
      forall x | x in r
        ensures Valid(x) && RayMeasure(x, d) < RayMeasure(c, d)
      {
        if x != n {
          assert x in rest;
        }
      }
    }
  }

  /** One step of a ray, for walking it cell by cell. */
  lemma RayUnfold(c: Cell, d: Direction, n: Cell)
    requires Next(c, d) == Some(n)
    ensures Ray(c, d) == [n] + Ray(n, d)
  {
  }

  /** The ray never revisits its starting cell. */
  lemma RayExcludesOrigin(c: Cell, d: Direction)
    ensures c !in Ray(c, d)
  {
    RayChain(c, d);
  }

  /** The accumulator step of the fold in `single_direction_moves`. */
  function FoldStep(acc: (seq<Move>, bool), cell: Cell, colour: Colour, occ: Occupancy): (seq<Move>, bool)
  {
    if acc.1 then acc
    else if cell in occ then
      (if occ[cell].colour != colour then acc.0 + [Move(cell, Rest(Capture))] else acc.0, true)
    else (acc.0 + [Move(cell, Rest(NonCapture))], false)
  }

  /** A left fold of FoldStep over the cells. */
  function Fold(cells: seq<Cell>, colour: Colour, occ: Occupancy, acc: (seq<Move>, bool)): (seq<Move>, bool)
    decreases |cells|
  {
    if cells == [] then acc
    else Fold(cells[1..], colour, occ, FoldStep(acc, cells[0], colour, occ))
  }

  /** The number of leading empty cells. */
  function FirstOccupied(cells: seq<Cell>, occ: Occupancy): (k: nat)
    ensures k <= |cells|
    ensures forall i :: 0 <= i < k ==> cells[i] !in occ
    ensures k < |cells| ==> cells[k] in occ
  {
    if cells == [] || cells[0] in occ then 0 else 1 + FirstOccupied(cells[1..], occ)
  }

  /** A quiet move to each of the cells, in order. */
  function Quiet(cells: seq<Cell>): (ms: seq<Move>)
    ensures |ms| == |cells|
    ensures forall i :: 0 <= i < |cells| ==> ms[i] == Move(cells[i], Rest(NonCapture))
  {
    seq(|cells|, i requires 0 <= i < |cells| => Move(cells[i], Rest(NonCapture)))
  }

  /**
   * What a ray cast means: quiet moves to the empty cells before the first
   * occupied one, then a capture of that cell if it holds an enemy.
   */
  function Blocked(cells: seq<Cell>, colour: Colour, occ: Occupancy): seq<Move>
  {
    var k := FirstOccupied(cells, occ);
    Quiet(cells[..k]) + (if k < |cells| && occ[cells[k]].colour != colour then [Move(cells[k], Rest(Capture))] else [])
  }

  /** Once the `encountered` flag is set, the fold adds nothing more. */
  lemma {:induction false} FoldFrozen(cells: seq<Cell>, colour: Colour, occ: Occupancy, ms: seq<Move>)
    ensures Fold(cells, colour, occ, (ms, true)) == (ms, true)
    decreases |cells|
  {
    if cells != [] {
      FoldFrozen(cells[1..], colour, occ, ms);
    }
  }

  /** An occupied first cell ends the cast: a capture there if it holds an enemy, nothing otherwise. */
  lemma BlockedAtOccupied(cells: seq<Cell>, colour: Colour, occ: Occupancy)
    requires cells != [] && cells[0] in occ
    ensures Blocked(cells, colour, occ) == if occ[cells[0]].colour != colour then [Move(cells[0], Rest(Capture))] else []
  {
    assert FirstOccupied(cells, occ) == 0;
    assert Quiet(cells[..0]) == [];
  }

  /** An empty first cell is a quiet move, and the cast goes on from the next cell. */
  lemma BlockedAtEmpty(cells: seq<Cell>, colour: Colour, occ: Occupancy)
    requires cells != [] && cells[0] !in occ
    ensures Blocked(cells, colour, occ) == [Move(cells[0], Rest(NonCapture))] + Blocked(cells[1..], colour, occ)
  {
    var rest := cells[1..];
    var k := FirstOccupied(rest, occ);
    assert FirstOccupied(cells, occ) == k + 1;
    assert cells[..k + 1] == [cells[0]] + rest[..k];
    assert Quiet(cells[..k + 1]) == [Move(cells[0], Rest(NonCapture))] + Quiet(rest[..k]);
    assert k < |rest| ==> cells[k + 1] == rest[k];
  }

  /** The fold started with the flag clear appends Blocked to what it was given. */
  lemma {:induction false} FoldIsBlocked(cells: seq<Cell>, colour: Colour, occ: Occupancy, ms: seq<Move>)
    ensures Fold(cells, colour, occ, (ms, false)).0 == ms + Blocked(cells, colour, occ)
    decreases |cells|
  {
    if cells != [] {
      var c, rest := cells[0], cells[1..];
      if c in occ {
        var out := if occ[c].colour != colour then ms + [Move(c, Rest(Capture))] else ms;
        assert Fold(cells, colour, occ, (ms, false)) == Fold(rest, colour, occ, (out, true));
        FoldFrozen(rest, colour, occ, out);
        BlockedAtOccupied(cells, colour, occ);
      } else {
        var quiet := Move(c, Rest(NonCapture));
        assert Fold(cells, colour, occ, (ms, false)) == Fold(rest, colour, occ, (ms + [quiet], false));
        FoldIsBlocked(rest, colour, occ, ms + [quiet]);
        BlockedAtEmpty(cells, colour, occ);
        assert ms + [quiet] + Blocked(rest, colour, occ) == ms + ([quiet] + Blocked(rest, colour, occ));
      }
    }
  }

  /** `single_direction_moves`: the ray cast from cell along d. */
  function SingleDirectionMoves(cell: Cell, colour: Colour, d: Direction, occ: Occupancy): seq<Move>
  {
    Fold(Ray(cell, d), colour, occ, ([], false)).0
  }

  /** The ray cast yields exactly the quiet moves up to the first occupied cell and the capture there, if any. */
  lemma SingleDirectionMovesIsBlocked(cell: Cell, colour: Colour, d: Direction, occ: Occupancy)
    ensures SingleDirectionMoves(cell, colour, d, occ) == Blocked(Ray(cell, d), colour, occ)
  {
    FoldIsBlocked(Ray(cell, d), colour, occ, []);
  }

  predicate IsCapture(m: Move) { m.moveType == Rest(Capture) }

  /** The number of capturing moves. */
  function Captures(ms: seq<Move>): (n: nat)
    ensures n <= |ms|
  {
    if ms == [] then 0 else (if IsCapture(ms[0]) then 1 else 0) + Captures(ms[1..])
  }

  lemma {:induction false} CapturesAppend(a: seq<Move>, b: seq<Move>)
    ensures Captures(a + b) == Captures(a) + Captures(b)
    decreases |a|
  {
    if a == [] {
      assert a + b == b;
    } else {
      CapturesAppend(a[1..], b);
      assert (a + b)[0] == a[0];
      assert (a + b)[1..] == a[1..] + b;
    }
  }

  lemma {:induction false} QuietHasNoCaptures(cells: seq<Cell>)
    ensures Captures(Quiet(cells)) == 0
    decreases |cells|
  {
    if cells != [] {
      QuietHasNoCaptures(cells[1..]);
      assert Quiet(cells)[1..] == Quiet(cells[1..]);
    }
  }

  /**
   * The shape of a ray cast: only quiet moves to the leading empty cells of
   * the ray, then at most one capture, as the last move, of an enemy on the
   * first occupied cell. No friendly cell and nothing beyond the first
   * occupied cell is ever emitted, and the origin is not on the ray.
   */
  lemma RayCastShape(cell: Cell, colour: Colour, d: Direction, occ: Occupancy)
    ensures var ms, ray, k := SingleDirectionMoves(cell, colour, d, occ), Ray(cell, d), FirstOccupied(Ray(cell, d), occ);
      && k <= |ms| <= k + 1
      && (forall i :: 0 <= i < k ==> ms[i] == Move(ray[i], Rest(NonCapture)))
      && (|ms| == k + 1 <==> k < |ray| && occ[ray[k]].colour != colour)
      && (|ms| == k + 1 ==> ms[k] == Move(ray[k], Rest(Capture)))
      && (forall m :: m in ms ==> m.moveTo in ray && m.moveTo != cell && m.moveType.Rest?)
      && (forall m :: m in ms ==> m.moveTo !in occ || occ[m.moveTo].colour != colour)
      && (forall m :: m in ms ==> (IsCapture(m) <==> m.moveTo in occ))
      && Captures(ms) <= 1
  {
    SingleDirectionMovesIsBlocked(cell, colour, d, occ);
    RayExcludesOrigin(cell, d);
    BlockedShape(Ray(cell, d), colour, occ);
  }

  /** The shape of Blocked on any list of cells, whatever produced it. */
  lemma BlockedShape(ray: seq<Cell>, colour: Colour, occ: Occupancy)
    ensures var ms, k := Blocked(ray, colour, occ), FirstOccupied(ray, occ);
      && k <= |ms| <= k + 1
      && (forall i :: 0 <= i < k ==> ms[i] == Move(ray[i], Rest(NonCapture)))
      && (|ms| == k + 1 <==> k < |ray| && occ[ray[k]].colour != colour)
      && (|ms| == k + 1 ==> ms[k] == Move(ray[k], Rest(Capture)))
      && (forall m :: m in ms ==> m.moveTo in ray && m.moveType.Rest?)
      && (forall m :: m in ms ==> m.moveTo !in occ || occ[m.moveTo].colour != colour)
      && (forall m :: m in ms ==> (IsCapture(m) <==> m.moveTo in occ))
      && Captures(ms) <= 1
  {
    var ms, k := Blocked(ray, colour, occ), FirstOccupied(ray, occ);
    var tail := if k < |ray| && occ[ray[k]].colour != colour then [Move(ray[k], Rest(Capture))] else [];
    assert ms == Quiet(ray[..k]) + tail;
    CapturesAppend(Quiet(ray[..k]), tail);
    QuietHasNoCaptures(ray[..k]);
    assert Captures(tail) <= 1;
    forall m | m in ms
      ensures m.moveTo in ray && m.moveType.Rest?
      ensures m.moveTo !in occ || occ[m.moveTo].colour != colour
      ensures IsCapture(m) <==> m.moveTo in occ
    {
      var i :| 0 <= i < |ms| && ms[i] == m;
      assert i < k ==> m.moveTo == ray[i];
    }
  }

  /** On an empty board the ray cast yields a quiet move to every cell of the ray. */
  lemma RayCastOnEmptyBoard(cell: Cell, colour: Colour, d: Direction)
    ensures SingleDirectionMoves(cell, colour, d, map[]) == Quiet(Ray(cell, d))
  {
    SingleDirectionMovesIsBlocked(cell, colour, d, map[]);
    assert Ray(cell, d)[..|Ray(cell, d)|] == Ray(cell, d);
  }

  /**
   * Blocking: a piece on the k-th cell of a ray (counting from 1), with the
   * cells before it empty, cuts the ray to k-1 quiet moves, plus a capture of
   * that piece if it is an enemy.
   */
  lemma Blocking(cell: Cell, colour: Colour, d: Direction, occ: Occupancy, k: nat)
    requires 1 <= k <= |Ray(cell, d)|
    requires Ray(cell, d)[k - 1] in occ
    requires forall i :: 0 <= i < k - 1 ==> Ray(cell, d)[i] !in occ
    ensures |SingleDirectionMoves(cell, colour, d, occ)| == if occ[Ray(cell, d)[k - 1]].colour != colour then k else k - 1
  {
    SingleDirectionMovesIsBlocked(cell, colour, d, occ);
    var ray := Ray(cell, d);
    var f := FirstOccupied(ray, occ);
    assert f == k - 1;
  }

  /** The ray cast along each of dirs, in order. */
  function Casts(origin: Cell, colour: Colour, dirs: seq<Direction>, occ: Occupancy): (parts: seq<seq<Move>>)
    ensures |parts| == |dirs|
    ensures forall i :: 0 <= i < |dirs| ==> parts[i] == SingleDirectionMoves(origin, colour, dirs[i], occ)
  {
    seq(|dirs|, i requires 0 <= i < |dirs| => SingleDirectionMoves(origin, colour, dirs[i], occ))
  }

  function Flatten(parts: seq<seq<Move>>): seq<Move>
  {
    if parts == [] then [] else parts[0] + Flatten(parts[1..])
  }

  lemma {:induction false} FlattenAppend(p: seq<seq<Move>>, q: seq<seq<Move>>)
    ensures Flatten(p + q) == Flatten(p) + Flatten(q)
    decreases |p|
  {
    if p == [] {
      assert p + q == q;
    } else {
      FlattenAppend(p[1..], q);
      assert (p + q)[1..] == p[1..] + q;
    }
  }

  /** `dirs.flat_map(|d| single_direction_moves(origin, colour, d, board))`. */
  function RayCasts(origin: Cell, colour: Colour, dirs: seq<Direction>, occ: Occupancy): seq<Move>
  {
    Flatten(Casts(origin, colour, dirs, occ))
  }

  /** Unfolding the first direction of a flat map. */
  lemma RayCastsCons(origin: Cell, colour: Colour, dirs: seq<Direction>, occ: Occupancy)
    requires dirs != []
    ensures RayCasts(origin, colour, dirs, occ) ==
      SingleDirectionMoves(origin, colour, dirs[0], occ) + RayCasts(origin, colour, dirs[1..], occ)
  {
    assert Casts(origin, colour, dirs, occ)[1..] == Casts(origin, colour, dirs[1..], occ);
  }

  /**
   * Ray casts in several directions: every move lies on one of the rays, is
   * never the origin nor a friendly cell, is a capture exactly when its cell is
   * occupied, and each direction contributes at most one capture.
   */
  lemma {:induction false} RayCastsShape(origin: Cell, colour: Colour, dirs: seq<Direction>, occ: Occupancy)
    ensures Captures(RayCasts(origin, colour, dirs, occ)) <= |dirs|
    ensures forall m :: m in RayCasts(origin, colour, dirs, occ) ==>
      && (exists d :: d in dirs && m.moveTo in Ray(origin, d))
      && m.moveTo != origin
      && m.moveType.Rest?
      && (m.moveTo !in occ || occ[m.moveTo].colour != colour)
      && (IsCapture(m) <==> m.moveTo in occ)
    decreases |dirs|
  {
    if dirs != [] {
      var head := SingleDirectionMoves(origin, colour, dirs[0], occ);
      var tail := RayCasts(origin, colour, dirs[1..], occ);
      RayCastsCons(origin, colour, dirs, occ);
      RayCastShape(origin, colour, dirs[0], occ);
      RayCastsShape(origin, colour, dirs[1..], occ);
      CapturesAppend(head, tail);
      forall m: Move | m in head + tail
        ensures exists d :: d in dirs && m.moveTo in Ray(origin, d)
      {
        if m in head {
          assert dirs[0] in dirs;
        } else {
          var d :| d in dirs[1..] && m.moveTo in Ray(origin, d);
          assert d in dirs;
        }
      }
    }
  }

  /** The total length of the rays from origin along dirs. */
  function RayLengths(origin: Cell, dirs: seq<Direction>): nat
  {
    if dirs == [] then 0 else |Ray(origin, dirs[0])| + RayLengths(origin, dirs[1..])
  }

  /** Rays of one common length add up to that length per direction. */
  lemma {:induction false} UniformRayLengths(origin: Cell, dirs: seq<Direction>, k: nat)
    requires forall d :: d in dirs ==> |Ray(origin, d)| == k
    ensures RayLengths(origin, dirs) == k * |dirs|
    decreases |dirs|
  {
    if dirs != [] {
      var rest := dirs[1..];
      assert forall d :: d in rest ==> d in dirs;
      UniformRayLengths(origin, rest, k);
      assert dirs[0] in dirs;
      assert RayLengths(origin, dirs) == k + RayLengths(origin, rest);
      MulSucc(k, |rest|);
      assert |dirs| == |rest| + 1;
    }
  }

  lemma MulSucc(k: nat, n: nat)
    ensures k * (n + 1) == k + k * n
  {
  }

  /** On an empty board every cell of every ray is a quiet move. */
  lemma {:induction false} RayCastsOnEmptyBoard(origin: Cell, colour: Colour, dirs: seq<Direction>)
    ensures |RayCasts(origin, colour, dirs, map[])| == RayLengths(origin, dirs)
    ensures Captures(RayCasts(origin, colour, dirs, map[])) == 0
    decreases |dirs|
  {
    if dirs != [] {
      RayCastsCons(origin, colour, dirs, map[]);
      RayCastOnEmptyBoard(origin, colour, dirs[0]);
      QuietHasNoCaptures(Ray(origin, dirs[0]));
      RayCastsOnEmptyBoard(origin, colour, dirs[1..]);
      CapturesAppend(SingleDirectionMoves(origin, colour, dirs[0], map[]), RayCasts(origin, colour, dirs[1..], map[]));
    }
  }

  /** On an empty board, rays of k cells in each of dirs give k quiet moves per direction. */
  lemma EmptyBoardCasts(origin: Cell, colour: Colour, dirs: seq<Direction>, k: nat)
    requires forall d :: d in dirs ==> |Ray(origin, d)| == k
    ensures |RayCasts(origin, colour, dirs, map[])| == k * |dirs|
    ensures Captures(RayCasts(origin, colour, dirs, map[])) == 0
  {
    UniformRayLengths(origin, dirs, k);
    RayCastsOnEmptyBoard(origin, colour, dirs);
  }

  /**
   * Landing on one cell, as the king and knight do: an empty cell gives a
   * quiet move, an enemy a capture, a friendly piece or no cell nothing.
   */
  function Land(target: Option<Cell>, colour: Colour, occ: Occupancy): (ms: seq<Move>)
    ensures |ms| <= 1
    ensures |ms| == 1 <==> target.Some? && (target.value !in occ || occ[target.value].colour != colour)
    ensures |ms| == 1 ==> ms[0].moveTo == target.value && ms[0].moveType.Rest? && (IsCapture(ms[0]) <==> target.value in occ)
  {
    match target
    case None => []
    case Some(cell) =>
      if cell in occ then
        if occ[cell].colour != colour then [Move(cell, Rest(Capture))] else []
      else [Move(cell, Rest(NonCapture))]
  }

  /** Landing on each target in turn, as `filter_map` over the candidates does. */
  function Landings(targets: seq<Option<Cell>>, colour: Colour, occ: Occupancy): seq<Move>
  {
    if targets == [] then [] else Land(targets[0], colour, occ) + Landings(targets[1..], colour, occ)
  }

  /**
   * At most one move per target; every move lands on one of the targets, never
   * on a friendly piece, and is a capture exactly when its cell is occupied.
   */
  lemma {:induction false} LandingsShape(targets: seq<Option<Cell>>, colour: Colour, occ: Occupancy)
    ensures |Landings(targets, colour, occ)| <= |targets|
    ensures forall m :: m in Landings(targets, colour, occ) ==>
      && Some(m.moveTo) in targets
      && m.moveType.Rest?
      && (m.moveTo !in occ || occ[m.moveTo].colour != colour)
      && (IsCapture(m) <==> m.moveTo in occ)
    decreases |targets|
  {
    if targets != [] {
      LandingsShape(targets[1..], colour, occ);
      var head := Land(targets[0], colour, occ);
      forall m | m in head + Landings(targets[1..], colour, occ)
        ensures Some(m.moveTo) in targets
      {
        if m in head {
          assert m == head[0];
        } else {
          assert Some(m.moveTo) in targets[1..];
        }
      }
    }
  }

  /** The cells of targets that all exist. */
  function Present(targets: seq<Option<Cell>>): (cells: seq<Cell>)
    requires forall i :: 0 <= i < |targets| ==> targets[i].Some?
    ensures |cells| == |targets|
    ensures forall i :: 0 <= i < |targets| ==> targets[i] == Some(cells[i])
  {
    seq(|targets|, i requires 0 <= i < |targets| => targets[i].value)
  }

  /** On an empty board every target that exists gives one quiet move, in order. */
  lemma {:induction false} LandingsOnEmptyBoard(targets: seq<Option<Cell>>, colour: Colour)
    requires forall i :: 0 <= i < |targets| ==> targets[i].Some?
    ensures Landings(targets, colour, map[]) == Quiet(Present(targets))
    decreases |targets|
  {
    if targets != [] {
      var rest := targets[1..];
      LandingsOnEmptyBoard(rest, colour);
      assert Landings(targets, colour, map[]) == [Move(targets[0].value, Rest(NonCapture))] + Landings(rest, colour, map[]);
      PresentCons(targets);
      QuietCons(targets[0].value, Present(rest));
    }
  }

  /** The cells of targets are its first cell followed by the cells of the rest. */
  lemma PresentCons(targets: seq<Option<Cell>>)
    requires targets != [] && forall i :: 0 <= i < |targets| ==> targets[i].Some?
    ensures Present(targets) == [targets[0].value] + Present(targets[1..])
  {
  }

  /** The quiet moves to c followed by cells are a quiet move to c followed by theirs. */
  lemma QuietCons(c: Cell, cells: seq<Cell>)
    ensures Quiet([c] + cells) == [Move(c, Rest(NonCapture))] + Quiet(cells)
  {
  }

  /** On an empty board, landing on targets that are exactly cells gives a quiet move to each. */
  lemma LandingsOnCells(targets: seq<Option<Cell>>, colour: Colour, cells: seq<Cell>)
    requires |targets| == |cells|
    requires forall i :: 0 <= i < |cells| ==> targets[i] == Some(cells[i])
    ensures Landings(targets, colour, map[]) == Quiet(cells)
  {
    LandingsOnEmptyBoard(targets, colour);
    assert Present(targets) == cells;
  }

  /** The first cell of a non-empty ray is one step away, and the rest is the ray from there. */
  lemma RayHead(c: Cell, d: Direction)
    requires Ray(c, d) != []
    ensures Next(c, d) == Some(Ray(c, d)[0])
    ensures Ray(Ray(c, d)[0], d) == Ray(c, d)[1..]
  {
  }

  /** Alternating the entries of two equally long direction lists. */
  function Interleave(a: seq<Direction>, b: seq<Direction>): (r: seq<Direction>)
    requires |a| == |b|
    ensures |r| == 2 * |a|
  {
    if a == [] then [] else [a[0], b[0]] + Interleave(a[1..], b[1..])
  }

  /** Casting along interleaved directions gives the moves of both casts together. */
  lemma {:induction false} InterleavedRayCasts(origin: Cell, colour: Colour, a: seq<Direction>, b: seq<Direction>, occ: Occupancy)
    requires |a| == |b|
    ensures multiset(RayCasts(origin, colour, Interleave(a, b), occ)) ==
      multiset(RayCasts(origin, colour, a, occ)) + multiset(RayCasts(origin, colour, b, occ))
    decreases |a|
  {
    if a != [] {
      var i := Interleave(a, b);
      RayCastsCons(origin, colour, i, occ);
      RayCastsCons(origin, colour, i[1..], occ);
      assert i[1..][1..] == Interleave(a[1..], b[1..]);
      RayCastsCons(origin, colour, a, occ);
      RayCastsCons(origin, colour, b, occ);
      InterleavedRayCasts(origin, colour, a[1..], b[1..], occ);
    }
  }
}
