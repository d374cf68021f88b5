# Hexagonal chess move engine, modelled in Dafny

This project models the move engine of a terminal hexagonal chess game
played on Gliński's 91-cell board. The board has eleven files (A to L with
no J) and eleven ranks. Directions are the twelve positions of a clock
face: the even hours point at the six edge neighbours and the odd hours at
the six diagonal neighbours.

The repository contains three generations of the engine, and each is
modelled on its own terms:

- **The current engine** (`src/unit`, `src/utils`, `src/pieces`,
  `src/board.rs`, `src/state.rs`). It covers ranks, files, directions and
  ranges, the hexagonal outline of a board of a given depth, and the
  neighbour table that depends on which side of the centre file a cell
  lies. It also covers the move generators of knight, king, bishop, rook
  and queen, the fixed-capacity stack of cell entries, the board as a
  vector of entries indexed file by file, and the game state. The state
  has a cursor, shows and hides the valid moves of the piece under the
  cursor, and has a turn that alternates.
- **The backend engine** (`src/backend`). Its cells carry a highlight
  level that equality ignores, and its neighbour table uses one offset per
  direction whatever the side of the board. Because of that, a step and
  the step back along the reverse direction need not return to the start:
  from F6, Clock2 reaches G6, and Clock8 from G6 reaches F5
  (OldCells.CentreClock2Clock8, OldCells.NotReverseSymmetric). The current
  engine's table depends on the side of the centre file, and there the
  step back always returns (Cells.NextReverse). The backend's generators
  are modelled on its own table, as written. Its board is a map filled
  with White's starting pieces, and each of its six pieces has a generator
  over that map.
- **The legacy engine** (`src/board`). Its cells have no outline check,
  and it has sliding queen and rook, king and pawn generators.

The model is written in two styles:

- Pure code (enumerations, cell arithmetic, move generation) becomes
  datatypes, functions and lemmas.
- Code that updates state in place becomes classes whose methods carry
  `modifies` clauses and loop invariants. These are the entry stack, the
  current board, the game state and the backend board.
- The inclusive and exclusive ranges are datatypes. Their `next` is a pure
  function that returns the yielded value together with the advanced
  range. Draining a range by repeated `next` is a method with a loop
  (Ranges.CollectInc, Ranges.Collect), which changes nothing but its
  locals.

Pieces stand on a board through an occupancy map from cells to pieces.
The current engine's board reads that map off its entries.

## Model

| member | source | states |
|---|---|---|
| Ranges.StepSucc | src/utils.rs:9-12 | `succ` of an ordinal exists exactly below the last ordinal, and is the next one |
| Ranges.Interval | src/utils/range.rs:60-85 | the ordinals from a to b in order: b - a + 1 of them, the i-th being a + i; none when a > b |
| Ranges.RangeInc.New | src/utils/range.rs:12-18 | a fresh inclusive range keeps its bounds and is not ended |
| Ranges.NewYields | src/utils/range.rs:60-85 | a fresh inclusive range yields lo through hi, or nothing when lo > hi |
| Ranges.RangeInc.Clamp | src/utils/range.rs:34-43 | the clamped range contains exactly the values both ranges contain; its bounds are the larger lo and the smaller hi; `ended` is kept |
| Ranges.RangeInc.Remaning | src/utils/range.rs:45-50 | the count is at least 1 whenever lo <= hi |
| Ranges.RangeInc.RemaningCounts | src/utils/range.rs:45-50 | on a range that has not ended, with lo <= hi, the count equals the number of values the range still yields |
| Ranges.RangeInc.Contains | src/utils/range.rs:52-57 | on a live range, membership is membership in what it still yields |
| Ranges.RangeInc.Next | src/utils/range.rs:60-85 | an ended range yields None and stays put; otherwise the head of what it yields comes out and the rest remains; an empty range yields None |
| Ranges.Range.New | src/utils/range.rs:94-100 | a fresh exclusive range yields lo up to hi - 1 |
| Ranges.Range.Remaning | src/utils/range.rs:102-107 | `hi - lo` is the number of values a fresh range yields |
| Ranges.Range.Next | src/utils/range.rs:110-132 | as for the inclusive range, with hi itself excluded |
| Ranges.CollectInc | src/utils/range.rs:60-85 | draining an inclusive range by its `next` collects exactly the values it yields |
| Ranges.Collect | src/utils/range.rs:110-132 | draining an exclusive range by its `next` collects exactly the values it yields |
| Ranges.RangeExamples | src/utils/range.rs:149-162 | the unit tests: [0, 1], [0], [] for the inclusive range and [0, 1], [0], [], [] for the exclusive one |
| Depths.New | src/utils/depth.rs:8-14 | `Depth::new` succeeds exactly for 1 to 6 and keeps the value |
| Depths.FileRange | src/utils/depth.rs:16-26 | the files of depth d are the 2d - 1 files centred on F |
| Depths.FirstFile | src/utils/depth.rs:93-103 | the first file of depth d is the low end of its file range |
| Depths.FirstRank | src/utils/depth.rs:105-115 | the first rank of depth d lies d - 1 ranks below Rank6 |
| Depths.HasFileInFileRange | src/utils/depth.rs:16-26 | a file has a rank range at depth d exactly when the file range of d contains it |
| Depths.RankRange | src/utils/depth.rs:28-91 | every column starts at the first rank and is 2d - 1 - (distance from F) ranks high, within the board |
| Depths.RankRangeAt1 | src/utils/depth.rs:30-33 | the depth-1 table: the column of F from Rank6, one rank high |
| Depths.RankRangeAt2 | src/utils/depth.rs:35-40 | the depth-2 table: columns E to G from Rank5, heights by distance from F |
| Depths.RankRangeAt3 | src/utils/depth.rs:42-49 | the depth-3 table: columns D to H from Rank4, heights by distance from F |
| Depths.RankRangeAt4 | src/utils/depth.rs:51-60 | the depth-4 table: columns C to I from Rank3, heights by distance from F |
| Depths.RankRangeAt5 | src/utils/depth.rs:62-73 | the depth-5 table: columns B to K from Rank2, heights by distance from F |
| Depths.FullDepthMatchesFile | src/utils/depth.rs:75-88 | at depth 6 each column is the file's own full rank range |
| Depths.ColumnsSymmetric | src/utils/depth.rs:28-91 | files mirrored about F have the same rank range |
| Depths.ColumnOfIndex | src/utils/depth.rs:28-91 | the n-th column of depth d is 2d - 1 - abs(n - d) ranks high |
| Depths.CellCount | src/utils/depth.rs:28-91 | depth d lays out 3d(d - 1) + 1 cells, 91 at depth 6 |
| Depths.ColumnsBelowCentre | src/utils/depth.rs:28-91 | closed form of the cell count of the columns left of and up to the centre |
| Depths.ColumnsAboveCentre | src/utils/depth.rs:28-91 | closed form of the cell count once past the centre column |
| Directions.Reverse | src/utils/direction.rs:18-34 | `reverse` is the half turn: six hours on |
| Directions.TurnClockwise | src/utils/direction.rs:36-52 | `turn_clockwise` moves two hours on, keeping straight and diagonal directions apart |
| Directions.TurnCounterClockwise | src/utils/direction.rs:54-70 | `turn_counter_clockwise` moves two hours back |
| Directions.ReverseInvolution | src/utils/direction.rs:18-34 | reversing twice gives the direction back, and no direction is its own reverse |
| Directions.TurnsAreInverse | src/utils/direction.rs:36-70 | the two turns undo each other |
| Directions.TurnsPreserveParity | src/utils/direction.rs:18-70 | turns and reversal map straight directions to straight ones and diagonals to diagonals |
| Directions.SixTurnsIdentity | src/utils/direction.rs:36-70 | six turns either way come back to the start |
| Directions.ReverseIsHalfTurn | src/utils/direction.rs:18-52 | reversing is three clockwise turns |
| Directions.ReverseCommutesWithTurns | src/utils/direction.rs:18-70 | reversing and turning commute |
| Directions.DirectionTables | src/utils/direction.rs:2-15 | the direction tables list the twelve hours in order; the straight and diagonal tables are the even and odd entries |
| Ranks.FromOrd | src/utils/rank.rs:6-19 | every ordinal 0 to 10 names a rank, and that rank's ordinal is the one given |
| Ranks.OrdInjective | src/utils/rank.rs:6-19 | distinct ranks have distinct discriminants |
| Ranks.Sub | src/utils/rank.rs:21-26 | the difference of two ranks is 0 exactly when they are equal, and lies within plus or minus 10 |
| Ranks.Succ | src/utils/rank.rs:29-43 | `succ` fails only on Rank11 and otherwise raises the ordinal by one |
| Ranks.Pred | src/utils/rank.rs:44-58 | `pred` fails only on Rank1 and otherwise lowers the ordinal by one |
| Ranks.SuccPredInverse | src/utils/rank.rs:28-59 | `succ` and `pred` undo each other where defined |
| Ranks.SubAntisymmetric | src/utils/rank.rs:21-43 | swapping the operands negates the difference; a rank minus its predecessor is 1 |
| Ranks.SuccByOrd | src/utils/rank.rs:29-43 | `succ` is the rank at the next ordinal, when there is one |
| Ranks.PredByOrd | src/utils/rank.rs:44-58 | `pred` is the rank at the previous ordinal, when there is one |
| Files.FromOrd | src/utils/file.rs:8-21 | every ordinal 0 to 10 names a file, and that file's ordinal is the one given |
| Files.OrdInjective | src/utils/file.rs:8-21 | distinct files have distinct discriminants |
| Files.AllFilesInOrder | src/utils/file.rs:7-21 | `File::iter()` lists the eleven files once each, in ordinal order |
| Files.Sub | src/utils/file.rs:23-28 | the difference of two files is 0 exactly when they are equal, and lies within plus or minus 10 |
| Files.Succ | src/utils/file.rs:31-45 | `succ` fails only on FileL and otherwise raises the ordinal by one |
| Files.Pred | src/utils/file.rs:47-61 | `pred` fails only on FileA and otherwise lowers the ordinal by one |
| Files.SuccPredInverse | src/utils/file.rs:30-62 | `succ` and `pred` undo each other where defined |
| Files.SubAntisymmetric | src/utils/file.rs:23-45 | swapping the operands negates the difference; a file minus its predecessor is 1 |
| Files.SuccByOrd | src/utils/file.rs:31-45 | `succ` is the file at the next ordinal, when there is one |
| Files.PredByOrd | src/utils/file.rs:47-61 | `pred` is the file at the previous ordinal, when there is one |
| Files.RankRange | src/utils/file.rs:65-79 | each file's ranks run from Rank1 up, 11 - abs(file - F) of them, 11 at the centre and 6 at the edges |
| Files.RankRangeYields | src/utils/file.rs:65-79 | the rank range of a file yields exactly the ordinals 0 up to its column height less one |
| Files.RankRangesSumTo91 | src/utils/file.rs:65-79 | the columns of the full board hold 91 cells in all |
| Directions.Hour | src/utils/direction.rs:2-15 | each of the twelve variants has its clock number, from 1 to 12 |
| Directions.HourInjective | src/utils/direction.rs:2-15 | distinct directions have distinct clock numbers |
| Ranks.Ord | src/utils/rank.rs:6-19 | the discriminant of a rank lies between 0 (Rank1) and 10 (Rank11) |
| Files.Ord | src/utils/file.rs:8-21 | the discriminant of a file lies between 0 (FileA) and 10 (FileL) |
| Cells.InOutlineByOrd | src/unit/cell.rs:11-28 | the outline test of `try_new` holds exactly when the rank and file ordinals lie inside the hexagon (ranks 1-6 on every file, one file fewer at each edge per higher rank) |
| Cells.TryNew | src/unit/cell.rs:11-28 | succeeds exactly on cells inside the outline, and then returns that rank and file |
| Cells.FromRawParts | src/unit/cell.rs:30-32 | builds the cell from its rank and file without any check |
| Cells.New | src/unit/cell.rs:34-36 | on a rank and file inside the outline, yields that valid cell (the unwrap cannot fail) |
| Cells.Place | src/unit/cell.rs:166-167 | a pair of ordinals names a cell exactly when it is inside the outline, and the cell has those ordinals |
| Cells.Next | src/unit/cell.rs:38-170 | a neighbour, when there is one, is a valid cell |
| Cells.RankMoves | src/utils/rank.rs:29-58 | `succ`/`pred` and their double application move the rank ordinal by +1, -1, +2, -2 and fail exactly off the range |
| Cells.FileMoves | src/utils/file.rs:31-61 | `succ`/`pred` and their double application move the file ordinal by +1, -1, +2, -2 and fail exactly off the range |
| Cells.FinishIsPlace | src/unit/cell.rs:164-168 | the closing step of `next` (both parts exist, then the outline test) is the ordinal placement |
| Cells.NextRankByOrd | src/unit/cell.rs:38-170 | the rank `next` computes is the rank ordinal moved by the direction's rank step, which depends on the side of file F |
| Cells.NextFileByOrd | src/unit/cell.rs:38-170 | the file `next` computes is the file ordinal moved by the direction's file step |
| Cells.NextIsStep | src/unit/cell.rs:38-170 | the twelve-case table of `next` equals one offset formula over ordinals |
| Cells.ReverseStep | src/unit/cell.rs:38-170 | the reverse direction has the opposite file step and, from the cell reached, the opposite rank step |
| Cells.PlaceOfCell | src/unit/cell.rs:11-28 | placing a valid cell's own ordinals gives back the cell |
| Cells.NextReverse | src/unit/cell.rs:38-170 | stepping along d and then along its reverse returns to the starting cell |
| Cells.NextMoves | src/unit/cell.rs:38-170 | a step never stays on the same cell |
| UnitHexagons.TryNew | src/unit.rs:25-29 | fails exactly when the cell constructor fails, and otherwise wraps a valid cell |
| UnitHexagons.New | src/unit.rs:35-37 | on a rank and file inside the outline, wraps exactly that cell |
| UnitHexagons.Sub | src/unit.rs:17-22 | the offset between two hexagons is zero exactly when they are the same hexagon |
| UnitHexagons.CellRoundTrip | src/unit.rs:25-33 | `cell()` of a successful `try_new` returns the rank and file it was given |
| UnitHexagons.SubAntisymmetric | src/unit.rs:17-22 | `a - b` is the negation of `b - a` |
| UnitHexagons.SubOfNeighbour | src/unit.rs:17-22 | the offset from a hexagon to its neighbour along d is the fixed offset of d |
| Reprs.TryNew | src/unit/repr.rs:32-40 | succeeds exactly when x and y have the same parity, and then holds x and y |
| Reprs.New | src/unit/repr.rs:42-44 | on same-parity coordinates, yields that position |
| Reprs.FromCell | src/unit/repr.rs:22-29 | the position of a cell has matching parity, x is the file offset from F and y minus abs(x) is twice the rank offset from rank 6 |
| Reprs.Next | src/unit/repr.rs:46-63 | the neighbouring position keeps the parity and lies at the direction's offset |
| Reprs.ParityStep | src/unit/repr.rs:32-40 | adding a same-parity offset to a same-parity position keeps the parity |
| Reprs.Sub | src/unit/repr.rs:15-20 | the difference is zero exactly when the positions are equal |
| Reprs.DefaultAtOrigin | src/unit/repr.rs:22-29 | the default cell (F6) sits at the origin |
| Reprs.FromCellInjective | src/unit/repr.rs:22-29 | distinct cells have distinct positions, and only equal cells share one |
| Reprs.NextCommutes | src/unit/repr.rs:46-63 | the position of a cell's neighbour is the neighbouring position: the cell table and the position table agree |
| Reprs.NextReverse | src/unit/repr.rs:46-63 | moving along d and then its reverse returns to the position |
| Reprs.OffsetsDistinct | src/unit/repr.rs:46-63 | the twelve directions have twelve different offsets |
| Reprs.NeighboursDistinct | src/unit/cell.rs:38-170 | two directions that reach the same neighbour are the same direction |
| Reprs.StepDistance | src/unit/repr.rs:46-63 | a straight direction moves one cell, a diagonal one two cells |
| Modes.HighlightMode.Current | src/utils/mode.rs:16-18 | the getter reports true exactly when the record's `current` flag is set |
| Modes.HighlightMode.GetStatus | src/utils/mode.rs:20-22 | the getter returns the record's status |
| Modes.HighlightMode.SetCurrent | src/utils/mode.rs:28-30 | afterwards `current()` is the new value and `status()` is unchanged |
| Modes.HighlightMode.SetStatus | src/utils/mode.rs:32-34 | afterwards `status()` is the new value and `current()` is unchanged |
| Modes.New | src/utils/mode.rs:24-26 | the getters of a new record return its arguments |
| Modes.SettersUndo | src/utils/mode.rs:28-34 | setting a field back to its old value restores the record |
| Modes.SettersCommute | src/utils/mode.rs:24-34 | the two setters commute, and applying both equals `new` with those values |
| Entries.Hexagon.SetCurrent | src/hexagon.rs:68-70 | only the highlight's `current` flag changes; the cell stays |
| Entries.Hexagon.SetStatus | src/hexagon.rs:72-74 | only the highlight's status changes; the cell stays |
| Entries.Entry.WithHex | src/utils/entry.rs:27-29 | a write through `hex_mut` replaces the hexagon and leaves the occupant |
| Entries.Entry.WithOccupant | src/utils/entry.rs:35-37 | a write through `occupant_mut` replaces an occupant that is there, and an empty entry stays empty; the hexagon stays |
| Entries.New | src/utils/entry.rs:19-21 | the accessors of a new entry return its hexagon and occupant |
| Entries.DefaultIsEmpty | src/utils/entry.rs:9-16 | the default entry has no occupant and a default highlight (not current, status None) |
| Stacks.PosToAdd | src/utils/stack.rs:27-32 | the next free slot is 0 on an empty stack and lies above the top slot otherwise |
| Stacks.Stack.constructor | src/utils/stack.rs:7-24 | a default stack of capacity 1, 2 or 3 is empty, with every slot holding the default value |
| Stacks.Stack.Incr | src/utils/stack.rs:34-36 | the top index moves to the old free slot, so one more element is held |
| Stacks.Stack.Decr | src/utils/stack.rs:38-44 | one element fewer is held; a top index of 0 becomes empty; requires a set top index, as the source's `unreachable!` demands |
| Stacks.Stack.Push | src/utils/stack.rs:46-55 | on a full stack nothing changes (the source panics); otherwise the value is written into the free slot, appended to the contents and becomes `current()` |
| Stacks.Stack.Pop | src/utils/stack.rs:57-64 | an empty stack yields None; otherwise the last element is returned and removed from the contents |
| Stacks.Stack.Current | src/utils/stack.rs:66-68 | None exactly on an empty stack, else the last element of the contents |
| Stacks.PushThenPop | src/utils/stack.rs:46-64 | a push that succeeds followed by a pop returns the pushed value and restores the contents and the top index |
| Moves.NextDecreases | src/utils/moves.rs:59-61 | each step along a direction lowers a natural measure, so the chain of `successors` ends |
| Moves.RayChain | src/utils/moves.rs:59-61 | the ray is empty exactly when the first step fails; it starts at the first neighbour, each cell is the step from the one before, the last cell has no next step, and every cell is valid and further along than the origin |
| Moves.RayLinks | src/utils/moves.rs:59-61 | each cell of the ray is the step from the one before, and the last cell has no next step |
| Moves.RayInside | src/utils/moves.rs:59-61 | every cell of the ray is on the board and strictly further along the direction than the origin |
| Moves.RayUnfold | src/utils/moves.rs:59-61 | a ray whose first step reaches n is n followed by the ray from n |
| Moves.RayExcludesOrigin | src/utils/moves.rs:59-61 | the origin is never on its own ray |
| Moves.FirstOccupied | src/utils/moves.rs:62-88 | the index of the first occupied cell: every cell before it is empty, and the cell at it, if any, is occupied |
| Moves.Quiet | src/utils/moves.rs:77-81 | one non-capturing move per cell, in order |
| Moves.FoldFrozen | src/utils/moves.rs:62-89 | once a piece has been met, the fold adds nothing more |
| Moves.FoldIsBlocked | src/utils/moves.rs:62-89 | before a piece has been met, the fold appends the quiet moves up to the first occupied cell, and a capture there when that piece is an enemy |
| Moves.BlockedShape | src/utils/moves.rs:62-89 | on any list of cells: quiet moves up to the first occupied cell, then at most one capture, which is there and only of an enemy; nothing friendly and nothing past it |
| Moves.SingleDirectionMovesIsBlocked | src/utils/moves.rs:53-90 | `single_direction_moves` is the blocked walk along the ray |
| Moves.Captures | src/utils/moves.rs:19-38 | the number of captures never exceeds the number of moves |
| Moves.CapturesAppend | src/utils/moves.rs:19-38 | captures of a concatenation add up |
| Moves.QuietHasNoCaptures | src/utils/moves.rs:77-81 | a run of quiet moves holds no capture |
| Moves.RayCastShape | src/utils/moves.rs:53-90 | with k the first occupied index along the ray: the moves are the k quiet moves before it plus one capture there exactly when it holds an enemy; every move lies on the ray, never on the origin or on a friend, is a capture exactly on an occupied cell, and there is at most one capture |
| Moves.RayCastOnEmptyBoard | src/utils/moves.rs:53-90 | on an empty board the moves are the whole ray, all quiet |
| Moves.Blocking | src/utils/moves.rs:62-88 | when the k-th cell of the ray is the first occupied one, the walk yields k moves against an enemy there and k - 1 against a friend |
| Moves.Casts | src/pieces/queen.rs:53-56 | one list of moves per direction, each the single-direction walk along it |
| Moves.FlattenAppend | src/pieces/queen.rs:53-56 | flattening distributes over concatenation |
| Moves.RayCastsCons | src/pieces/queen.rs:53-56 | the flat map starts with the first direction's moves, then the rest |
| Moves.RayCastsShape | src/pieces/queen.rs:53-56 | the flat map over several directions holds at most one capture per direction; every move lies on the ray of one of them, is not the origin, not a friend, and a capture exactly on an occupied cell |
| Moves.UniformRayLengths | src/pieces/queen.rs:53-56 | rays of length k in each of n directions total k * n cells |
| Moves.RayCastsOnEmptyBoard | src/pieces/queen.rs:53-56 | on an empty board the flat map has one quiet move per ray cell and no capture |
| Moves.EmptyBoardCasts | src/pieces/queen.rs:53-56 | on an empty board, rays of k cells in each of n directions give k * n quiet moves and no capture |
| Moves.Land | src/pieces/king.rs:58-77 | a target yields one move exactly when it exists and is empty or holds an enemy; the move goes there and is a capture exactly when the cell is occupied |
| Moves.LandingsShape | src/pieces/king.rs:56-78 | at most one move per target; each move goes to one of the targets, never onto a friend, and is a capture exactly on an occupied cell |
| Moves.Present | src/pieces/king.rs:58-62 | targets that all exist give their cells, in order |
| Moves.LandingsOnEmptyBoard | src/pieces/king.rs:72-75 | on an empty board every existing target is a quiet move, in order |
| Moves.LandingsOnCells | src/pieces/king.rs:72-75 | on an empty board, targets that are exactly the given cells yield those cells as quiet moves |
| Moves.RayHead | src/utils/moves.rs:59-61 | a non-empty ray starts at the first neighbour and continues as the ray from there |
| Moves.Interleave | src/pieces/queen.rs:36-49 | alternating two direction lists of equal length gives twice as many directions |
| Moves.InterleavedRayCasts | src/pieces/queen.rs:53-56 | the moves along interleaved directions are, as a multiset, the moves along each list |
| CentreRays.Clock1Ray | src/unit/cell.rs:38-170 | from F6 the Clock1 ray is G7, H8 |
| CentreRays.Clock2Ray | src/unit/cell.rs:38-170 | from F6 the Clock2 ray is G6, H6, I6, K6, L6 |
| CentreRays.Clock3Ray | src/unit/cell.rs:38-170 | from F6 the Clock3 ray is H5, K4 |
| CentreRays.Clock4Ray | src/unit/cell.rs:38-170 | from F6 the Clock4 ray is G5, H4, I3, K2, L1 |
| CentreRays.Clock5Ray | src/unit/cell.rs:38-170 | from F6 the Clock5 ray is G4, H2 |
| CentreRays.Clock6Ray | src/unit/cell.rs:38-170 | from F6 the Clock6 ray is F5 down to F1 |
| CentreRays.Clock7Ray | src/unit/cell.rs:38-170 | from F6 the Clock7 ray is E4, D2 |
| CentreRays.Clock8Ray | src/unit/cell.rs:38-170 | from F6 the Clock8 ray is E5, D4, C3, B2, A1 |
| CentreRays.Clock9Ray | src/unit/cell.rs:38-170 | from F6 the Clock9 ray is D5, B4 |
| CentreRays.Clock10Ray | src/unit/cell.rs:38-170 | from F6 the Clock10 ray is E6, D6, C6, B6, A6 |
| CentreRays.Clock11Ray | src/unit/cell.rs:38-170 | from F6 the Clock11 ray is E7, D8 |
| CentreRays.Clock12Ray | src/unit/cell.rs:38-170 | from F6 the Clock12 ray is F7 up to F11 |
| CentreRays.StraightRayLength | src/unit/cell.rs:38-170 | every straight ray from the centre holds five cells |
| CentreRays.DiagonalRayLength | src/unit/cell.rs:38-170 | every diagonal ray from the centre holds two cells |
| Knights.StartingCellsValid | src/pieces/knight.rs:25-33 | the knights' starting cells, built without a check, lie inside the outline |
| Knights.LeapTargetsAreLeaps | src/pieces/knight.rs:58-71 | two steps along d that succeed give two candidate targets, otherwise none; a target is a candidate exactly when it is a leap (two steps along d, then one turned either way) |
| Knights.TargetsAreLeaps | src/pieces/knight.rs:56-71 | at most two targets per direction, each a leap along one of the directions |
| Knights.LeapOffsetNonZero | src/pieces/knight.rs:58-68 | the offset of a leap, two steps plus one turned step, is never zero |
| Knights.LeapMoves | src/pieces/knight.rs:58-68 | a leap never lands on its own starting cell |
| Knights.StepOffset | src/pieces/knight.rs:58-68 | a step adds its direction's offset to the cell's position |
| Knights.ValidMovesShape | src/pieces/knight.rs:44-97 | at most twelve moves; each is a leap along a straight direction, off the knight's cell, never onto a friend, and a capture exactly on an occupied cell |
| Knights.CentreLeapClock2 | src/pieces/knight.rs:58-71 | from F6 the Clock2 leap reaches I5 and H7 |
| Knights.CentreLeapClock4 | src/pieces/knight.rs:58-71 | from F6 the Clock4 leap reaches H3 and I4 |
| Knights.CentreLeapClock6 | src/pieces/knight.rs:58-71 | from F6 the Clock6 leap reaches E3 and G3 |
| Knights.CentreLeapClock8 | src/pieces/knight.rs:58-71 | from F6 the Clock8 leap reaches C4 and D3 |
| Knights.CentreLeapClock10 | src/pieces/knight.rs:58-71 | from F6 the Clock10 leap reaches D7 and C5 |
| Knights.CentreLeapClock12 | src/pieces/knight.rs:58-71 | from F6 the Clock12 leap reaches G8 and E8 |
| Knights.AllTargetsWithin | src/pieces/knight.rs:56-71 | when each direction's leaps exist and lie in a set, so do all targets |
| Knights.EmptyBoardWithin | src/pieces/knight.rs:44-97 | where all twelve targets exist, an empty board gives twelve quiet moves to those cells |
| Knights.LandingsWithin | src/pieces/knight.rs:44-97 | landing on an empty board on targets that all exist gives one quiet move per target, each to a target cell |
| Knights.CentreOnEmptyBoard | src/pieces/knight.rs:44-97 | a knight on F6 of an empty board has twelve quiet moves, to the twelve leap cells |
| Knights.CentreLeapsWithin | src/pieces/knight.rs:58-71 | every target from F6 exists and lies among the twelve leap cells |
| Kings.StartingCellsValid | src/pieces/king.rs:25-29 | both kings' starting cells lie inside the outline |
| Kings.Neighbours | src/pieces/king.rs:56-62 | one candidate per direction, the neighbour along it |
| Kings.ValidMovesShape | src/pieces/king.rs:40-81 | at most twelve moves; each goes to a neighbour, never the king's own cell or a friend, and is a capture exactly on an occupied cell |
| Kings.CentreOnEmptyBoard | src/pieces/king.rs:40-81 | a king on F6 of an empty board has twelve quiet moves |
| Bishops.StartingCellsValid | src/pieces/bishop.rs:20-30 | the bishops' starting cells lie inside the outline |
| Bishops.ValidMovesShape | src/pieces/bishop.rs:41-59 | at most six captures; every move lies on a diagonal ray, is not the bishop's cell or a friend, and is a capture exactly on an occupied cell |
| Bishops.CentreOnEmptyBoard | src/pieces/bishop.rs:41-59 | a bishop on F6 of an empty board has twelve quiet moves |
| Rooks.StartingCellsValid | src/pieces/rook.rs:16-24 | the rooks' starting cells lie inside the outline |
| Rooks.ValidMovesShape | src/pieces/rook.rs:45-61 | at most six captures; every move lies on a straight ray, is not the rook's cell or a friend, and is a capture exactly on an occupied cell |
| Rooks.CentreOnEmptyBoard | src/pieces/rook.rs:45-61 | a rook on F6 of an empty board has thirty quiet moves |
| Queens.StartingCellsValid | src/pieces/queen.rs:20-24 | both queens' starting cells lie inside the outline |
| Queens.ClockOrderInterleaves | src/pieces/queen.rs:36-49 | the queen's clock order alternates the bishop's and the rook's directions |
| Queens.BishopPlusRook | src/pieces/queen.rs:35-59 | the queen's moves are, as a multiset, the bishop's moves plus the rook's |
| Queens.ValidMovesShape | src/pieces/queen.rs:35-59 | at most twelve captures; every move lies on one of the twelve rays, is not the queen's cell or a friend, and is a capture exactly on an occupied cell |
| Queens.CentreOnEmptyBoard | src/pieces/queen.rs:35-59 | a queen on F6 of an empty board has forty-two moves |
| PieceMoves.ValidMoves | src/pieces.rs:12-16 | dispatches `valid_moves` on the kind of piece; the pawn of this snapshot implements no move generator and so yields no moves |
| PieceMoves.ValidMovesShape | src/pieces.rs:12-16 | every move of every piece lands on a board cell other than its origin, never on a friend, and is a capture exactly when the cell is occupied |
| BoardLayout.FileHeight | src/board.rs:182-186 | the number of ranks `rank_range().remaning()` reports for a file is the file's column height |
| BoardLayout.FoldHeightsSums | src/board.rs:182-186 | the fold over files lo..hi adds the heights of those files to the accumulator |
| BoardLayout.BoardIndexAtFullDepth | src/board.rs:182-186 | at depth 6 a cell's slot is the number of cells in the files before it plus its rank ordinal |
| BoardLayout.CentreIndex | src/board.rs:182-186 | F6 sits in slot 45 of the full board |
| BoardLayout.YieldsBetween | src/utils/range.rs:60-85 | every value a fresh range yields lies between its bounds |
| BoardLayout.FileRangeOnBoard | src/board.rs:68-70 | every file the depth's file range yields exists on the board |
| BoardLayout.RankRangeOnBoard | src/board.rs:72-73 | every rank a file's rank range yields is a rank ordinal |
| BoardLayout.ColumnByOrd | src/board.rs:71-92 | the cells built for one file are that file at each yielded rank, in order |
| Boards.ColumnsSnoc | src/board.rs:68-93 | appending the entries of the next file's column to those of the files before it gives the columns of one more file |
| BoardLayout.OnBoardInRankRange | src/utils/depth.rs:28-91 | a cell on one of the depth's files is on the board exactly when the file's rank range at that depth contains its rank |
| BoardLayout.DepthFoldSums | src/board.rs:181-186 | the corrected fold, over the depth's own column heights, adds up the cells of the columns it passes |
| BoardLayout.DepthIndexLocal | src/board.rs:181-186 | the corrected index of a cell is the number of the depth's cells in the columns left of it plus its height above the depth's first rank |
| BoardLayout.DepthLayout | src/board.rs:64-98 | at every depth the layout `Board::empty` creates holds 3d(d-1)+1 cells; slot i holds a board cell whose corrected index is i, and every board cell sits in the slot of its corrected index |
| BoardLayout.LayoutCount | src/board.rs:64-98 | a board of depth d holds 3d(d-1)+1 cells |
| BoardLayout.CellAtItsSlot | src/board.rs:181-186 | every cell of a depth-d board is found in the layout at its corrected index |
| BoardLayout.SlotsDiffer | src/board.rs:64-98 | no cell is laid out twice |
| BoardLayout.DepthIndexAtFullDepth | src/board.rs:181-186 | at depth 6 the board cells are the outline's cells and `board_index` as written equals the corrected index |
| BoardIndexDefect.BoardIndexMissesAtDepth5 | src/board.rs:181-186 | at depth 5 C2 is laid out in slot 5 of 61, but `board_index` sends it to slot 7, which holds another cell |
| BoardIndexDefect.BoardIndexPastEndAtDepth2 | src/board.rs:181-186 | at depth 2 the centre F6 is laid out in slot 3 of 7, but `board_index` sends it to slot 11, past the end of the vector |
| BoardIndexDefect.IndexOfC2AtDepth5 | src/board.rs:181-186 | at depth 5 C2 is on the board and its corrected index is 5 |
| BoardIndexDefect.BoardIndexOfC2AtDepth5 | src/board.rs:181-186 | at depth 5 `board_index` as written gives C2 the index 7 |
| BoardIndexDefect.IndexOfCentreAtDepth2 | src/board.rs:181-186 | at depth 2 F6 is on the board and its corrected index is 3 |
| BoardIndexDefect.BoardIndexOfCentreAtDepth2 | src/board.rs:181-186 | at depth 2 `board_index` as written gives F6 the index 11 |
| BoardLayout.FullLayout | src/board.rs:64-100 | the full board holds 91 cells; `board_index` of each board cell is its position in the vector, and the vector at that position holds the cell |
| Boards.CellsOfAppend | src/board.rs:68-93 | the cells of concatenated entries are the concatenated cells |
| Boards.InitialMode | src/board.rs:80-85 | a fresh entry is highlighted as current exactly on the default cell F6 and carries no status |
| Boards.CursorMoves | src/board.rs:197-204 | moving the cursor flag leaves exactly the target flagged, and keeps every cell, occupant and status |
| Boards.LastWriteAppend | src/state.rs:89-113 | the last write to a cell in a longer list is the later part's, if it has one |
| Boards.MoveWritesShape | src/state.rs:95-112 | one move writes a status to exactly the cells it names (its target, and the removed pawn's cell for en passant), and that status is the capture or the quiet one |
| Boards.WritesNamed | src/state.rs:89-113 | the writes of a list of moves reach exactly the named cells, each with the capture or the quiet status |
| Boards.WritesOnBoard | src/state.rs:89-113 | moves onto board cells write only to board cells |
| Boards.Restatus | src/hexagon.rs:72-74 | a status write changes only the status; cell, occupant and current flag stay |
| Boards.Apply | src/board.rs:57-61 | writing statuses through `index_mut` keeps the cells, and each entry ends with the last status written to its cell |
| Boards.SlotOf | src/board.rs:182-195 | on a laid-out board every cell's slot is in range, and that slot is the only entry holding the cell |
| Boards.ApplyStep | src/board.rs:57-61 | one more write updates exactly the slot of its cell |
| Boards.WithStatusCells | src/board.rs:57-61 | a status write at one slot keeps the cells |
| Boards.ApplyAppend | src/board.rs:57-61 | applying two lists of writes in turn equals applying their concatenation |
| Boards.EnPassantWrites | src/state.rs:106-111 | the en-passant branch's two writes in sequence are the writes of that move |
| Boards.Marked | src/state.rs:89-113 | marking the moves keeps the cells and leaves each entry with the last status written to it |
| Boards.MarkedSnoc | src/state.rs:89-113 | marking one more move applies that move's writes to the board marked so far |
| Boards.MarkedCells | src/state.rs:89-113 | marking keeps cells, occupants and the current flag; named cells get the capture or quiet status, the rest keep theirs |
| Boards.ShowThenHide | src/state.rs:52-116 | on a board with no statuses, showing the moves and then hiding the same moves restores the board |
| Boards.ShownCells | src/state.rs:82-116 | after showing, every cell a move names carries a status |
| Boards.MarkedKeepsCursor | src/state.rs:89-113 | marking does not move the current flag |
| Boards.LaidDistinct | src/board.rs:182-186 | a laid-out board holds each cell once |
| Boards.MarkedKeepsOccupants | src/state.rs:89-113 | marking does not move or remove any piece |
| Boards.Board.Get | src/board.rs:188-190 | there is an entry exactly when the slot is inside the vector; on a well-formed board the entry of a board cell holds that cell |
| Boards.Board.Occupancy | src/board.rs:63-64 | the pieces the board holds, keyed by cell: a cell is occupied exactly when its entry has an occupant |
| Boards.Board.LayFile | src/board.rs:71-92 | builds one file's entries: the file's column of cells, each entry fresh |
| Boards.Board.LayRanks | src/board.rs:72-91 | one fresh, unoccupied entry per rank, in order, each on the given file, with the cursor flag exactly on F6 |
| Boards.Board.FileOrdinals | src/board.rs:66-70 | the depth's file range yields the ordinals of its files, left to right, 2d - 1 of them |
| Boards.Board.Lay | src/board.rs:68-93 | builds the entries of all files, left to right: the layout's cells, each entry fresh |
| Boards.Board.Empty | src/board.rs:64-100 | the board holds the layout's fresh entries with the cursor on F6; at depth 6 it is well formed, the cursor flag sits on F6 and no cell has a status |
| Boards.Board.New | src/board.rs:102-150 | the board `empty` builds, with no pieces placed |
| Boards.Board.SetCurrentFlag | src/state.rs:27-28 | sets the current flag of one cell's entry and changes nothing else |
| Boards.Board.SetStatusAt | src/state.rs:65 | writes a status to one cell's entry through `index_mut` |
| Boards.Board.SetCurrent | src/board.rs:197-204 | the old cursor cell loses the flag, the new one gains it, and the cursor moves there |
| Boards.Board.MoveCurrent | src/board.rs:206-212 | the cursor follows the neighbour along d when there is one, and otherwise nothing changes |
| Boards.Board.MarkMove | src/state.rs:95-112 | the entries become the old entries with this move's status writes applied |
| Boards.Board.MarkMoves | src/state.rs:89-113 | reports whether there was any move, and leaves the board marked with all of them |
| Boards.Board.StartMove | src/board.rs:152-175 | with no piece under the cursor nothing changes; otherwise the cells the piece can reach are marked capturable or movable |
| Boards.Board.AbortMove | src/board.rs:177 | changes nothing |
| States.Turn.Toggle | src/state.rs:127-132 | the turn passes to the other side |
| States.State.constructor | src/state.rs:12-17 | White to move, cursor on F6, no moves displayed |
| States.State.Toggle | src/state.rs:20-22 | flips the turn and changes nothing else |
| States.State.SetCurrent | src/state.rs:24-31 | the old cursor cell loses the flag, the new cell gains it, the state's cursor moves, nothing else changes |
| States.State.MoveCurrent | src/state.rs:33-39 | the cursor follows the neighbour along d when there is one, otherwise nothing changes |
| States.State.HideValidMoves | src/state.rs:52-80 | with no piece on the cell nothing changes; otherwise every cell its moves name loses its status and nothing is displayed any more |
| States.State.ShowValidMoves | src/state.rs:82-116 | with no piece under the cursor nothing changes; otherwise its moves' cells are marked capturable or movable, and the displayed cell is the cursor exactly when there was a move |
| States.State.ToggleValidMoves | src/state.rs:41-50 | hides the displayed moves when some are shown, and shows the cursor piece's moves otherwise, with the outcomes of those two |
| States.ToggleTwice | src/state.rs:41-116 | on a board without statuses, toggling twice restores the board and the display state |
| OldRanks.Next | src/backend/cell/rank.rs:28-44 | `next` fails exactly on rank 11 and otherwise moves the ordinal up by one |
| OldRanks.Previous | src/backend/cell/rank.rs:46-62 | `previous` fails exactly on rank 1 and otherwise moves the ordinal down by one |
| OldRanks.Sub | src/backend/cell/rank.rs:21-26 | the difference lies in -10..10 and is zero exactly for equal ranks |
| OldRanks.NextPreviousInverse | src/backend/cell/rank.rs:28-62 | `previous` undoes `next` and `next` undoes `previous` |
| OldRanks.SameAsFinal | src/backend/cell/rank.rs:28-62 | the backend's `next`/`previous` agree with the final snapshot's `succ`/`pred` |
| OldRanks.SubAntisymmetric | src/backend/cell/rank.rs:21-26 | `a - b` is the negation of `b - a` |
| OldFiles.Next | src/backend/cell/file.rs:28-44 | `next` fails exactly on file L and otherwise moves the ordinal up by one |
| OldFiles.Previous | src/backend/cell/file.rs:46-62 | `previous` fails exactly on file A and otherwise moves the ordinal down by one |
| OldFiles.Sub | src/backend/cell/file.rs:21-26 | the difference lies in -10..10 and is zero exactly for equal files |
| OldFiles.NextPreviousInverse | src/backend/cell/file.rs:28-62 | `previous` undoes `next` and `next` undoes `previous` |
| OldFiles.SameAsFinal | src/backend/cell/file.rs:28-62 | the backend's `next`/`previous` agree with the final snapshot's `succ`/`pred` |
| OldFiles.SubAntisymmetric | src/backend/cell/file.rs:21-26 | `a - b` is the negation of `b - a` |
| OldCells.Eq | src/backend/cell/mod.rs:40-44 | two cells are equal exactly when rank and file agree, whatever their highlight |
| OldCells.Sub | src/backend/cell/mod.rs:46-51 | the (file, rank) difference is zero exactly for equal cells, each part within -10..10 |
| OldCells.New | src/backend/cell/mod.rs:149-155 | builds the cell at that rank and file, unhighlighted, without checking the outline |
| OldCells.TryNew | src/backend/cell/mod.rs:157-167 | succeeds exactly where the outline holds the cell, and then equals `new` |
| OldCells.SetHighlightLevel | src/backend/cell/mod.rs:169-171 | the cell keeps its position and takes the new highlight |
| OldCells.NextCell | src/backend/cell/mod.rs:173-268 | a neighbour, when there is one, lies inside the outline and is unhighlighted |
| OldCells.Step | src/backend/cell/mod.rs:173-268 | the step along d moves the rank by RankDelta(d) and the file by FileDelta(d), whatever the side of the centre, and fails exactly when that leaves the outline |
| OldCells.RankSteps | src/backend/cell/rank.rs:28-62 | `next`, `previous` and two `previous` move the rank ordinal by +1, -1, -2 and fail exactly off the range |
| OldCells.FileSteps | src/backend/cell/file.rs:28-62 | `next`, `previous` and their double application move the file ordinal by +1, -1, +2, -2 and fail exactly off the range |
| OldCells.NextCellByOrd | src/backend/cell/mod.rs:173-268 | the twelve-case table equals the offset formula over ordinals |
| OldCells.JoinAt | src/backend/cell/mod.rs:157-167 | building the cell from the offset rank and file through `try_new` is the ordinal placement |
| OldCells.NextCellIsStep | src/backend/cell/mod.rs:173-268 | the position of `next_cell` is the step on positions |
| OldCells.VerticalInverse | src/backend/cell/mod.rs:216-220 | Clock12 and Clock6 undo each other on the board |
| OldCells.StepAt | src/backend/cell/mod.rs:173-268 | a board cell at the offset of d is where the step along d goes |
| OldCells.NotReverseSymmetric | src/backend/cell/mod.rs:184-238 | Clock2 and then its reverse Clock8 end one rank below the start on the same file, not at the start |
| OldCells.CentreClock2Clock8 | src/backend/cell/mod.rs:184-238 | from F6, Clock2 reaches G6 and Clock8 from G6 reaches F5 |
| OldCells.Ray | src/backend/cell/mod.rs:173-268 | the cells beyond p along d: all on the board, empty exactly when the first step fails, starting at that step, each further along than p |
| OldCells.RayExcludesOrigin | src/backend/cell/mod.rs:173-268 | the origin is never on its own ray |
| OldConstants.StartingCellsValid | src/backend/constants.rs:5-35 | the eighteen starting cells are distinct and all inside the outline |
| OldConstants.PawnChevron | src/backend/constants.rs:5-15 | the nine pawn cells form a chevron: each of the first four steps Clock1 to the next, each of the last four Clock4 |
| OldBoards.InsertAll | src/backend/board.rs:33-59 | after inserting p on each cell, the keys are the old keys plus those cells, which now hold p, and every other key keeps its piece |
| OldBoards.InsertNext | src/backend/board.rs:33-59 | one more insert extends the inserted prefix by one cell |
| OldBoards.StartingKeys | src/backend/board.rs:30-72 | the starting board has a piece on exactly the eighteen starting cells |
| OldBoards.StartingPieces | src/backend/board.rs:30-72 | every starting piece is White, on the board, and not open to en passant |
| OldBoards.StartingPawns | src/backend/board.rs:33-38 | every pawn cell holds a pawn: no later insert overwrites one |
| OldBoards.StartingOfficers | src/backend/board.rs:40-69 | the knights, rooks, bishops, queen and king each stand on their own starting cells |
| OldBoards.Board.New | src/backend/board.rs:30-72 | `Board::new` inserts each table's piece on each of its cells, in table order, and builds the starting map |
| OldMoves.Older | src/backend/moves.rs:3-8 | a final-snapshot move becomes a backend move to the same cell, a capture exactly when it was one, and otherwise a quiet move |
| OldMoves.OlderAll | src/backend/moves.rs:3-8 | converts each move in turn, keeping the order |
| OldMoves.SlidePrefix | src/backend/piece/queen.rs:43-80 | with k the first occupied index: k quiet moves before it, and a capture there exactly when it holds an enemy |
| OldMoves.SlideShape | src/backend/piece/queen.rs:43-80 | every move of a slide lies on its cells, never on a friend, and is a capture exactly on an occupied cell |
| OldMoves.CastShape | src/backend/piece/queen.rs:45-78 | every move along d lies on the backend ray from the origin, not on the origin, never on a friend, and is a capture exactly on an occupied cell |
| OldMoves.CastsShape | src/backend/piece/queen.rs:43-80 | every move of the flat map over several directions lies on the ray of one of them, not on the origin, never on a friend, and is a capture exactly on an occupied cell |
| OldMoves.InterleavedCasts | src/backend/piece/queen.rs:43-80 | the moves along interleaved direction lists are, as a multiset, the moves along each list |
| OldMoves.LandingsShape | src/backend/piece/king.rs:55-77 | at most one move per target; each goes to a target, never onto a friend, and is a capture exactly on an occupied cell |
| OldMoves.LandsOnFreeTarget | src/backend/piece/king.rs:55-77 | an existing empty target always yields a quiet move to it |
| OldPawns.ForwardOpposite | src/backend/piece/pawn.rs:47-51 | White's forward direction and Black's are each other's reverse |
| OldPawns.Take | src/backend/piece/pawn.rs:64-68 | `take(n)` keeps a prefix of at most n cells, and all of them when there are fewer |
| OldPawns.Pushes | src/backend/piece/pawn.rs:77-86 | one push per cell, in order |
| OldPawns.PushesCons | src/backend/piece/pawn.rs:69-93 | a prefix of pushes starts with the first cell's push |
| OldPawns.AdvanceStopped | src/backend/piece/pawn.rs:72-73 | once a piece has been met the fold adds nothing |
| OldPawns.AdvanceIsPushes | src/backend/piece/pawn.rs:69-94 | the fold pushes every cell before the first occupied one, and nothing after |
| OldPawns.PushesShape | src/backend/piece/pawn.rs:77-86 | a push lands on an empty cell and is a promotion exactly when no cell lies beyond it |
| OldPawns.ForwardMovesShape | src/backend/piece/pawn.rs:55-94 | the forward moves are the pushes up to the first occupied cell: at most two from a starting cell and one elsewhere, all on the forward ray, onto empty cells, a promotion exactly on the last rank along the way |
| OldPawns.Blocked | src/backend/piece/pawn.rs:69-94 | a pawn whose forward cell is occupied has no forward move |
| OldPawns.StrikeShape | src/backend/piece/pawn.rs:101-142 | corrected: at most one move onto the diagonal target: a capture of an enemy there, none onto a friend, and an en-passant move exactly when the target is empty and the cell behind it holds an enemy pawn open to en passant |
| OldPawns.NoEnPassantAsWritten | src/backend/piece/pawn.rs:117-138 | as written, the downcast of the boxed piece finds no pawn, so a candidate yields only captures: nothing on an empty diagonal, and on an occupied one what the corrected candidate yields |
| OldPawns.EnPassantLost | src/backend/piece/pawn.rs:111-138 | with an enemy pawn open to en passant behind an empty diagonal, the corrected candidate captures it en passant and the one as written offers nothing |
| OldPawns.StepFromPlaced | src/backend/cell/mod.rs:173-268 | a second step adds its offsets to those of the first |
| OldPawns.TurnThenBack | src/backend/piece/pawn.rs:96-99 | a turned step followed by a backward step adds up to the doubly turned step |
| OldPawns.VictimAt | src/backend/piece/pawn.rs:112-117 | the pawn taken en passant stands at the sum of the diagonal and backward offsets |
| OldPawns.VictimBeside | src/backend/piece/pawn.rs:96-117 | the pawn taken en passant from either diagonal stands beside the capturing pawn, two turns round from forward |
| OldPawns.CaptureMovesShape | src/backend/piece/pawn.rs:96-143 | at most two capturing moves, each onto a diagonal: a capture lands on an enemy, an en-passant move on an empty cell |
| OldPawns.ValidMovesShape | src/backend/piece/pawn.rs:46-148 | at most four moves: quiet and promotion moves go forward onto empty cells, promotion exactly on the last cell; captures and en passant go diagonally; no move lands on a friend |
| OldPawns.OneStepAwayFromStart | src/backend/piece/pawn.rs:55-68 | a White pawn off its starting cells has at most one forward move |
| OldKnights.LeapTargetsAreLeaps | src/backend/piece/knight.rs:42-56 | at most two targets per direction, each on the board and a leap (two steps along d, then one turned) |
| OldKnights.TargetsAreLeaps | src/backend/piece/knight.rs:40-77 | at most two targets per direction, each a leap along one of them |
| OldKnights.LeapMoves | src/backend/piece/knight.rs:42-56 | a leap along a straight direction never lands on its starting cell |
| OldKnights.ValidMovesShape | src/backend/piece/knight.rs:30-80 | at most twelve moves; each is a leap, off the knight's cell, never onto a friend, and a capture exactly on an occupied cell |
| OldKings.Neighbours | src/backend/piece/king.rs:55-60 | one candidate per direction in clock order, the backend step along it |
| OldKings.StepMoves | src/backend/cell/mod.rs:173-268 | a backend step never stays on its cell |
| OldKings.ValidMovesShape | src/backend/piece/king.rs:39-77 | at most twelve moves; each goes to a neighbour, never the king's own cell or a friend, and is a capture exactly on an occupied cell |
| OldKings.CentreOnEmptyBoard | src/backend/piece/king.rs:39-77 | a king on F6 of an empty board has twelve quiet moves |
| OldBishops.ValidMovesShape | src/backend/piece/bishop.rs:27-75 | every move lies on a diagonal ray, is not the bishop's cell or a friend, and is a capture exactly on an occupied cell |
| OldQueens.BishopPlusRook | src/backend/piece/queen.rs:27-82 | the queen's moves are, as a multiset, the bishop's plus the rook's |
| OldQueens.ValidMovesShape | src/backend/piece/queen.rs:27-82 | every move lies on one of the twelve rays, is not the queen's cell or a friend, and is a capture exactly on an occupied cell |
| OldRooks.ValidMovesShape | src/backend/piece/rook.rs:30-77 | every move lies on a straight ray, is not the rook's cell or a friend, and is a capture exactly on an occupied cell |
| LegacyCells.Offset | src/board/cell/mod.rs:25-121 | the cell at d's offset exists exactly when both ordinals stay in 0..10, and then has those ordinals |
| LegacyCells.NextCellIsOffset | src/board/cell/mod.rs:25-121 | the twelve-case table of `next_cell` is the offset formula, with no outline test |
| LegacyCells.StepIsNextCellInOutline | src/board/cell/mod.rs:25-121 | the backend's step is the legacy step cut to the outline: the same cell when it lies inside, none otherwise |
| LegacyCells.LeavesOutline | src/board/cell/mod.rs:25-121 | from A6, Clock12 reaches A7, which lies outside the outline, where the backend step stops |
| LegacyCells.VerticalInverse | src/board/cell/mod.rs:25-121 | Clock12 and Clock6 undo each other on the whole square |
| LegacyCells.Ray | src/board/piece/queen.rs:45-47 | the cells beyond p along d: empty exactly when the first step fails, starting at that step, each further along than p |
| LegacyCells.RayExcludesOrigin | src/board/piece/queen.rs:45-47 | the origin is never on its own ray |
| LegacyCells.RaysAgreeOnStep | src/board/cell/mod.rs:25-121 | where the backend steps to n, both rays are n followed by the ray from n |
| LegacyCells.RayPrefix | src/board/cell/mod.rs:25-121 | the backend ray is a prefix of the legacy ray |
| LegacyMoves.CastsShape | src/board/piece/queen.rs:42-78 | every move of the flat map lies on the legacy ray of one of the directions, is not the origin, never a friend, and is a capture exactly on an occupied cell |
| LegacyMoves.CastInCasts | src/board/piece/queen.rs:42-78 | the moves along one listed direction are among the moves of the flat map |
| LegacyMoves.FirstCellQuiet | src/board/piece/queen.rs:42-78 | on a board holding only the mover, the first cell along each direction is a quiet move |
| LegacyQueens.ValidMovesShape | src/board/piece/queen.rs:26-80 | every move lies on one of the twelve legacy rays, is not the queen's cell or a friend, and is a capture exactly on an occupied cell |
| LegacyQueens.AloneReachesNeighbours | src/board/piece/queen.rs:26-80 | a lone queen can move to each of its neighbours |
| LegacyKings.Neighbours | src/board/piece/king.rs:27-45 | one candidate per direction in clock order, the legacy `next_cell` along it |
| LegacyKings.NextCellMoves | src/board/cell/mod.rs:25-121 | a legacy step never stays on its cell |
| LegacyKings.ValidMovesShape | src/board/piece/king.rs:26-64 | at most twelve moves; each goes to a neighbour, never the king's cell or a friend, and is a capture exactly on an occupied cell |
| LegacyKings.EmptyBoard | src/board/piece/king.rs:26-64 | on an empty board every existing neighbour is a quiet move |
| LegacyRooks.FriendFirst | src/board/piece/rook.rs:39-65 | a slide whose first cell holds a friend yields nothing |
| LegacyRooks.SeededCastsBlocked | src/board/piece/rook.rs:31-67 | seeded with the rook's own cell, which holds the rook, every direction yields nothing |
| LegacyRooks.SelfBlocked | src/board/piece/rook.rs:34-38 | a rook standing on its own cell has no moves at all, as written |
| LegacyRooks.OwnCellWhenAbsent | src/board/piece/rook.rs:34-38 | when the board does not hold the rook on its cell, the rook's own cell is offered as a move, as written |
| LegacyRooks.ValidMovesShape | src/board/piece/rook.rs:21-70 | corrected: every move lies on a straight legacy ray, is not the rook's cell or a friend, and is a capture exactly on an occupied cell |
| LegacyRooks.AloneReachesNeighbours | src/board/piece/rook.rs:21-70 | corrected: a lone rook can move to each straight neighbour |
| LegacyRooks.LoneRook | src/board/piece/rook.rs:34-38 | a lone rook gets no moves as written, while the corrected generator lets it step forward (from F6, to F7) |
| LegacyPawns.PromotionOnTopRank | src/board/piece/pawn.rs:55-61 | a push is a promotion exactly on rank 11, where Clock12 has no next cell |
| LegacyPawns.ValidMoves | src/board/piece/pawn.rs:33-36 | fails with the fatal message exactly when the starting-cell lock is empty |
| LegacyPawns.AlwaysFails | src/board/utils/constants.rs:4-6 | the lock is a `const`, so it is never filled and every call fails |
| LegacyPawns.PushesShape | src/board/piece/pawn.rs:52-64 | a push lands on an empty cell and is a promotion exactly when no cell lies beyond it |
| LegacyPawns.ForwardMovesShape | src/board/piece/pawn.rs:41-71 | the forward moves are the pushes up to the first occupied cell: at most two from a starting cell and one elsewhere, along Clock12, onto empty cells |
| LegacyPawns.Blocked | src/board/piece/pawn.rs:41-71 | a pawn whose forward cell is occupied has no forward move |
| LegacyPawns.StrikeShape | src/board/piece/pawn.rs:79-121 | corrected: at most one move onto the diagonal target: a capture of an enemy there, none onto a friend, and en passant exactly when the target is empty and the cell below it holds an enemy pawn open to en passant |
| LegacyPawns.NoEnPassantAsWritten | src/board/piece/pawn.rs:95-117 | as written, the downcast of the boxed piece finds no pawn, so a candidate yields only captures: nothing on an empty diagonal, and on an occupied one what the corrected candidate yields |
| LegacyPawns.EnPassantLost | src/board/piece/pawn.rs:89-117 | with an enemy pawn open to en passant behind an empty diagonal, the corrected candidate captures it en passant and the one as written offers nothing |
| LegacyPawns.VictimBeside | src/board/piece/pawn.rs:73-117 | the pawn taken en passant from the Clock2 diagonal stands at Clock4, and from the Clock10 diagonal at Clock8 |
| LegacyPawns.BackFromDiagonal | src/board/cell/mod.rs:25-121 | Clock2 then Clock6 is Clock4, and Clock10 then Clock6 is Clock8 |
| LegacyPawns.CaptureMovesShape | src/board/piece/pawn.rs:73-122 | at most two capturing moves, each onto a diagonal: a capture lands on an enemy, an en-passant move on an empty cell |
| LegacyPawns.MovesFromShape | src/board/piece/pawn.rs:41-126 | corrected: at most four moves; forward moves onto empty cells, promotion exactly on the last cell, captures diagonal, nothing onto a friend |
| LegacyPawns.FilledLock | src/board/piece/pawn.rs:30-127 | corrected: with the lock filled, the moves are the forward moves and then the captures, at most four |

## Left out

- Colours, terminal rendering and the `f64` geometry are not modelled: cell centres, `center_wrt`, delta points and the hexagon drawing. They compute only screen positions.
- Mouse and keyboard handling, the application loop and the widget code are not part of this model.
- Highlight levels (backend) and statuses (current engine) are carried and updated, but no move generator reads them, and neither does the model.
- The backend board's `reset` is `todo!()` in the source and is not modelled.
- The legacy board's `directional_moves` (src/board/mod.rs:15-16) is `todo!()` and is not modelled.
- The backend constants define no Black pawn cells. The backend pawn therefore takes its set of starting cells as a parameter.
- The legacy move type (src/board/utils/moves.rs:3-6) names a quiet move `Normal` and has only `Normal` and `Capture`. It is modelled as the current engine's `NonCapture`. The legacy pawn builds `Promotion` and `EnPassant` moves, so it does not compile as written; the model reuses the backend's move type, which has all four. The backend's own move type (src/backend/moves.rs:3-8) has `Promotion`, `NonCapture`, `Capture` and `EnPassant`, and its king, bishop, queen and pawn use `NonCapture`. The backend knight (src/backend/piece/knight.rs:71) and rook (src/backend/piece/rook.rs:62) name a `MoveType::Normal` that this type lacks, so they do not compile as written; the model reads it as `NonCapture`.
- The snapshots are caught mid-refactor, so several generators take their origin from a field in some places and from an argument in others. The model always passes the origin cell explicitly.
- The backend's and the legacy engine's own rank, file and direction modules are not part of this model. Their variants and their `next`/`previous` match the current engine's, whose Rank, File and Direction are used instead. The backend's rank and file steps are restated as OldRanks and OldFiles.
- The `Any` downcast the pawn generators use to find an en-passant victim is modelled twice. As written it finds nothing (OldPawns.BoxedDowncast), see Findings. As intended it is a check that the piece kind is Pawn, which the generators of the model use.
- Boards.Board: `Board::empty` is modelled at every depth, but the other board operations are stated for depth 6 only, where `board_index` as written agrees with the layout (BoardLayout.DepthIndexAtFullDepth). Below depth 6 it does not (see Findings). The corrected index is proved to match the layout at every depth (BoardLayout.DepthLayout), but the board methods are not restated on it.
- Boards.Board.New: places no pieces, because the piece-placement code in the source is commented out.
- Stacks.Stack.Push: a push onto a full stack panics in the source. Here the push reports `false` and leaves the stack unchanged.
- Boards.Board.SetCurrent / Boards.Board.StartMove: src/board.rs calls `set_mode` with a `Mode` that no file of this snapshot defines (lines 82-84 in `empty`, 162-171 in `start_move`, 200-201 in `set_current`). The model reads `Mode::Current` and `Mode::None` in `Board::set_current` as setting only the highlight's current flag, and `Mode::Capturable`/`Mode::Movable` in `start_move` as setting only its status, as the `HighlightMode` record of src/utils/mode.rs keeps the two apart. Under the other reading, a single value like the backend's `HighlightLevel`, `set_mode(Mode::None)` in `Board::set_current` would also clear the old cursor cell's status; the model does not capture that.
- States.State.MoveCurrent: the source calls `board.next`. This is taken to mean the cell step `Cells.Next` from the cursor.
- LegacyPawns.ValidMoves: the legacy pawn always moves towards Clock12, whatever its colour, as the source does.
- The current engine's Pawn is a stub without a move generator, so it has none here. The dispatch gives it no moves.
- Ranges.StepSucc: the `succ` of `Step` is modelled on ordinals bounded by 10, the last rank and file ordinal. No other stepped type exists in the source.
- Ranges.RangeInc.Next: the source advances the range in place through `&mut self`, setting `lo` or `ended` (src/utils/range.rs:60-85). Here `next` returns the advanced range as a new value, so an update seen through another reference to the same range is not modelled.
- Ranges.Range.Next: likewise for the exclusive range (src/utils/range.rs:110-132).
- `HashMap` and `HashSet` are modelled as Dafny `map` and `set`. Iteration order matters nowhere in the modelled code.
- Concurrency, the `OnceLock` machinery beyond the empty-lock behaviour, and panics other than those named above are not modelled.

## Findings

| source | as written | input that shows it | evidently intended | confidence | as-written member | corrected member |
|---|---|---|---|---|---|---|
| src/board/piece/rook.rs:34-38 | each of the rook's slides is seeded with `Some(current_cell)`, the rook's own cell, which is occupied by the rook, so the fold stops at once | a lone legacy rook on F6: `valid_moves` returns no moves | seed each slide with `current_cell.next_cell(direction)`, as the legacy queen does, so the rook reaches its neighbours | not executed; high | LegacyRooks.LoneRook | LegacyRooks.AloneReachesNeighbours |
| src/board/utils/constants.rs:4-6 | the pawn starting cells are held in a `const OnceLock`. Every use of a `const` builds a fresh, empty lock, so `get()` is `None` and the `expect` at src/board/piece/pawn.rs:33-36 always panics | any legacy pawn on any board: `valid_moves` panics | a `static` lock filled once with the starting cells, so the generator returns the forward moves followed by the captures | not executed; high | LegacyPawns.AlwaysFails | LegacyPawns.FilledLock |
| src/board.rs:181-186 | `board_index` sums `file.rank_range().remaning()`, the full-board height of each file left of the cell, while `Board::empty` lays out the depth's own, shorter columns from `depth.rank_range(file)` | a board of depth 5: C2 is created in slot 5, but `board_index` gives 7, the slot of another cell. At depth 2, F6 is in slot 3 of 7 but `board_index` gives 11, past the end, so `get` returns `None` and indexing panics | sum the depth's column heights, `depth.rank_range(file).remaning()`, so every cell of every depth is found in its own slot | not executed; high | BoardIndexDefect.BoardIndexMissesAtDepth5 | BoardLayout.DepthLayout |
| src/board/piece/pawn.rs:95-117 | the en-passant victim is found by `(piece as &dyn Any).downcast_ref::<Self>()`, where `piece` is the `&Box<dyn Piece>` the board's map holds. The `Any` is the box, never a `Pawn`, so the downcast is always `None` | once the starting-cell lock is filled (row above), a legacy pawn whose Clock2 diagonal is empty while the cell behind it holds an enemy pawn marked en-passant-able: no en-passant move is offered | look through the box (downcast the piece inside it, or check its kind) so the enemy pawn is found | not executed; high | LegacyPawns.EnPassantLost | LegacyPawns.StrikeShape |
| src/backend/piece/pawn.rs:117-138 | the same downcast on the occupant reference `board[en_passant_cell].occupant()`, an `&Box<dyn Piece>`, so it is always `None` | a backend pawn whose diagonal is empty while the cell behind it holds an enemy pawn marked en-passant-able: no en-passant move is offered | look through the box so the enemy pawn is found | not executed; medium, since the backend board this code indexes defines no `occupant` | OldPawns.EnPassantLost | OldPawns.StrikeShape |
