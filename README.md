# Tetris game-state engine in Dafny

This project models the game-state engine of a small SDL Tetris clone written in C (`main.c`), and proves properties of that model. The engine has these parts:

- the tetromino table and the rotation encoder `rotated_index`;
- the collision test `does_piece_fit`;
- the moves of `move_piece` (left, right, soft drop, rotate, hard drop) and the landing loop of `draw_piece_drop`;
- `reset_grid` and `reset_piece`;
- the rotate-key latch of `handle_key_press`;
- one pass of the update block of the main loop: gravity, the lock (copy the piece into the grid, find full rows, spawn, remove the rows, game over) and the score and level bookkeeping with `get_points`.

The grid is a flat byte array indexed `y * 10 + x`. Note that in the C source the macro `rows` (10) is the width and `cols` (20) the visible height. The field has 10 columns and 24 rows: four hidden spawn rows, the visible rows and a bottom wall row. The array is 300 bytes long, so the last 60 bytes are padding. Cell labels keep their C values (`nothing` 0, `remove_me` 8, `wall` 9, pieces `'1'..'7'`), because the full-row test compares a cell with `wall`.

Modules, one file each:

- `Shapes` (`shapes.dfy`): the mask table, `rotated_index` with C's `%`, and the 3-bit rotation field.
- `Board` (`board.dfy`): the geometry, the cell labels, pieces, `reset_piece`, and the fit and inside-the-walls predicates.
- `Collision` (`collision.dfy`): `does_piece_fit` as the nested scan with early return.
- `Movement` (`movement.dfy`): `move_piece` and the landing loop.
- `Lock` (`lock.dfy`): the copy loop, `reset_grid`, the full-row scan and the row removal, each as a method on the grid array proved against a function on its contents.
- `Scoring` (`scoring.dfy`): `get_points`, the fall period, and the score and level block.
- `Game` (`game.dfy`): a `Game` class, whose fields are the loop's variables and whose `Update` is one pass of the update block. It is proved against the value-level step `Tick`, which the invariant lemmas are about.

The main result is `Game.TickKeepsValid`. Every update keeps four things:

- The walls stand.
- The falling piece stays inside them without overlapping a block.
- No full row survives.
- The level stays at most 11, with its requirement in step.

The last point keeps the fall period positive.

## Model

| member | source | states |
|---|---|---|
| Shapes.CRemainder4 | main.c:74 | C's `r % 4`: for r ≥ 0 the mathematical remainder, for r < 0 a value in (-4, 0] congruent to r |
| Shapes.RotatedIndex | main.c:73-85 | for a box cell the mask index lies in 0..15; rotation 0 (and every non-negative multiple of 4) reads the mask row by row |
| Shapes.RotatedIndexPeriodic | main.c:73-85 | for non-negative r only r mod 4 matters; r and r + 4 give the same index |
| Shapes.RotationStepIsQuarterTurn | main.c:75-82 | rotation r + 1 shows at (px, py) what rotation r shows at the quarter-turned cell |
| Shapes.CellOf | main.c:73-85 | an inverse of the encoder: the box cell it returns is encoded back to the given mask index |
| Shapes.RotatedIndexBijective | main.c:73-85 | for every non-negative rotation the encoder is a bijection from the 16 box cells onto the 16 mask indices |
| Shapes.RotatedIndexInjective | main.c:73-85 | distinct box cells are shown from distinct mask indices |
| Shapes.FilledMatchesTable | main.c:35-70 | the constant `Tetromino` is the mask table character for character; the block positions used in the proofs are exactly its non-'.' characters, for each of the seven masks |
| Shapes.RotationFieldStep | main.c:144-148 | incrementing the 3-bit rotation field (7 wraps to 0) is a quarter turn of the shown mask |
| Shapes.OccupiedAfterTurn | main.c:144-148 | after a rotation step the piece occupies exactly the quarter turn of the cells it occupied |
| Shapes.FourStepsSameCells | main.c:73-85 | rotations r and r + 4 of the 3-bit field occupy the same cells |
| Shapes.HubOccupied | main.c:35-70 | mask index 6 holds a block in all seven shapes, so every piece occupies its hub cell |
| Board.Tag | main.c:22-33 | a locked cell's label is the shape's digit character, above `wall` and different from `remove_me` |
| Board.IdxCoordinates | main.c:112 | the flat index `y * rows + x` of a field cell gives back its column by `%` and its row by `/` |
| Board.Spawn | main.c:210-212 | a new piece has the given shape, rotation 0, column rows/2 - 2, row 0 and no jump |
| Board.Turned | main.c:144-148 | the proposal of a rotation: the 3-bit field incremented, wrapping from 7 to 0, position unchanged |
| Board.FreshFieldWellFormed | main.c:215-219 | a reset field has intact walls and every interior cell empty |
| Board.FitsCells | main.c:107-122 | a piece fits exactly when each of its 16 box cells fits: free, outside the field, or over an empty cell |
| Board.Fits | main.c:107-122 | `does_piece_fit` as a predicate; no ensures of its own: Board.FitsCells and Collision.CellTest characterise it, Collision.DoesPieceFit computes it |
| Board.FitsReadsOnlyField | main.c:111-118 | the fit depends only on the 240 field cells, never on the padding |
| Board.SamePlaceFits | main.c:107-122 | the `jump` flag plays no part in the fit |
| Board.InsideCells | main.c:107-122 | the piece invariant holds exactly when the piece is not above row 0 and each occupied cell is strictly between the walls |
| Board.SamePlaceInside | main.c:98-103 | the `jump` flag plays no part in being inside the walls |
| Board.SpawnInside | main.c:210-212 | each of the seven shapes spawns inside the walls |
| Board.InsideBounds | main.c:436-456 | an inside piece has row 0..21 and column -1..7, which bounds every grid index the lock computes and keeps the scan within row 24 |
| Board.InsideCellsInterior | main.c:441-446 | each occupied cell of an inside piece is an interior cell of the field |
| Board.ShiftStaysInside | main.c:126-143 | a left, right or down step that fits keeps the piece inside the walls |
| Board.FitsOffWall | main.c:107-122 | a piece that fits a walled grid has no occupied cell on a wall |
| Board.TurnStaysInside | main.c:144-148 | a rotation that fits keeps the piece inside the walls, although the fit ignores cells pushed past a wall |
| Collision.CellTest | main.c:110-117 | one box cell blocks exactly when it lies in the 10 x 24 field, its mask character is not '.', and the grid cell under it is not `nothing` |
| Collision.CellBlocked | main.c:110-117 | the body of the scan: reads only field indices and decides the cell test |
| Collision.DoesPieceFit | main.c:107-122 | the scan with early return answers the fit predicate and does not write the grid |
| Movement.Landing | main.c:165-168 | the landing place: same shape, rotation and column, not higher, inside the walls, and unable to move further down |
| Movement.Move | main.c:124-161 | `move_piece` on values; no ensures of its own: Movement.MoveOutcome, Movement.MoveStaysInside and Movement.MoveKeepsFit state it, Movement.MovePiece computes it |
| Movement.LandingPasses | main.c:150-153 | every row between the start and the landing place fits, so a drop never passes through a block |
| Movement.MoveOutcome | main.c:124-161 | a shift or rotation changes the piece iff its proposal fits, and then puts it there; only the hard drop sets `jump`; other modes change nothing; the shape never changes |
| Movement.MoveStaysInside | main.c:124-161 | every move keeps the piece inside the walls |
| Movement.MoveKeepsFit | main.c:124-161 | a piece that fits still fits after any move |
| Movement.DropToLanding | main.c:165-168 | the landing loop stops, and stops at the landing place |
| Movement.MovePiece | main.c:124-161 | the switch adds the fit result to one coordinate or to the rotation field, or runs the hard drop, and agrees with `Move` |
| Lock.CellOfIndex | main.c:445 | every field index is the flat index of its own column and row |
| Lock.CommitAt | main.c:440-446 | after the copy a field cell holds the piece's tag iff the piece occupies it, and keeps its old value otherwise |
| Lock.Commit | main.c:441-446 | keeps the grid's length; Lock.CommitAt states it cell by cell, Lock.CommitPiece computes it |
| Lock.CommitKeepsShape | main.c:440-446 | copying an inside piece keeps the walls, writes only tags into the interior and leaves the padding alone |
| Lock.CommitBelow | main.c:440-446 | rows above the piece are unchanged by the copy |
| Lock.CommitPiece | main.c:440-446 | the copy loop leaves exactly the committed grid |
| Lock.CommitKeepsHiddenRows | main.c:440-446 | a piece that locks at row 4 or below leaves the spawn rows empty |
| Lock.CommitOtherRows | main.c:440-456 | rows the piece does not reach keep their fullness, so only its four rows need scanning |
| Lock.ResetFieldUnique | main.c:215-219 | the reset grid is fresh (walls on the sides and bottom, empty elsewhere), keeps the padding, and is the only such grid |
| Lock.ResetGrid | main.c:215-219 | the reset loop leaves a fresh field and the padding untouched |
| Lock.FreshFieldHiddenRowsEmpty | main.c:215-219 | a fresh field has empty spawn rows |
| Lock.FreshFieldNoFullRows | main.c:215-219 | a fresh field has no full row |
| Lock.ResetField | main.c:215-219 | keeps the grid's length; Lock.ResetFieldUnique characterises it, Lock.ResetGrid computes it |
| Lock.FullLine | main.c:450-452 | the full-row test; no ensures of its own: Lock.LineIsFull computes it, Lock.NotFullOutsidePlayfield and Lock.CollapseFullLine state how it behaves |
| Lock.FullLines | main.c:447-457 | the scan result holds exactly the full rows among the scanned ones, in strictly increasing order, at most as many as were scanned |
| Lock.LineIsFull | main.c:450-452 | `line &= cell > wall` over columns 1..8 decides that the row is full |
| Lock.ScanLines | main.c:447-457 | the scan of rows pos_y..pos_y+3 records the full rows in order; the `py < cols + 3` guard never skips one |
| Lock.NotFullOutsidePlayfield | main.c:449-452 | the bottom wall row and the padding rows the scan may read are never full |
| Lock.CollapseAt | main.c:461-467 | after removing row r, interior cells of rows 1..r hold the cell above, row 0's interior is empty, and everything else is unchanged |
| Lock.Collapse | main.c:462-466 | keeps the grid's length; Lock.CollapseAt states it cell by cell and Lock.CollapseRows row by row, Lock.RemoveLine computes it |
| Lock.CollapseAll | main.c:461-467 | keeps the grid's length; Lock.CollapseAllKeepsShape and Lock.CollapseAllClearsFullRows state it, Lock.ClearLines computes it |
| Lock.RemoveLine | main.c:462-466 | the shifting loops for one recorded row leave exactly the collapsed grid |
| Lock.ClearLines | main.c:461-467 | the clearing loop removes the recorded rows one after another, in order |
| Lock.CollapseKeepsShape | main.c:461-467 | removing a row keeps the walls, the interior labels, the padding and empty spawn rows |
| Lock.CollapseRows | main.c:461-467 | seen row by row, removing row r drops it, moves the rows above down by one in order and puts an empty row on top |
| Lock.CollapseFullLine | main.c:461-467 | after removing row r, a row below r is full iff it was, and a row at or above r is full iff the row above it was |
| Lock.CollapseAllKeepsShape | main.c:461-467 | removing several rows keeps walls, labels, padding and empty spawn rows |
| Lock.CollapsePrefixFullRows | main.c:447-467 | once the first i recorded rows are removed, every full row left is a recorded row still to be removed, at its original index |
| Lock.CollapseAllClearsFullRows | main.c:447-467 | removing every full row, listed in increasing order, leaves no full row in the playfield |
| Scoring.Points | main.c:320-333 | the award is zero exactly when no row was cleared |
| Scoring.PointsScaleWithLevel | main.c:320-333 | level l pays l + 1 times the level-0 award |
| Scoring.PointsMonotone | main.c:320-333 | more rows at once or a higher level never pay less |
| Scoring.PointsRewardMultiLine | main.c:320-333 | clearing 2-4 rows at once pays more than clearing them one by one |
| Scoring.FallPeriod | main.c:435 | up to level 11 the gravity period is at least 10000 - 863 * 11, so positive |
| Scoring.FallPeriodDecreasing | main.c:435 | higher levels fall strictly faster |
| Scoring.StartValid | main.c:404-408 | the initial score, lines, level 0 and requirement 10 satisfy the bookkeeping invariant |
| Scoring.Award | main.c:486-490 | the score block; no ensures of its own: Scoring.UpdateMonotone states its effect on the score |
| Scoring.LevelUp | main.c:495-503 | the level block; no ensures of its own: Scoring.LevelRisesExactly and Scoring.UpdateKeepsValid state it |
| Scoring.UpdateProgress | main.c:486-503 | both blocks in order; no ensures of its own: Scoring.UpdateKeepsValid, Scoring.UpdateMonotone and Scoring.LevelRisesExactly state it, Game.Game.UpdateScore computes it |
| Scoring.UpdateKeepsValid | main.c:486-503 | the score and level blocks keep level ≤ 11, the requirement at ten per level reached plus ten, and the count below the requirement below the top level |
| Scoring.UpdateMonotone | main.c:486-503 | the score grows by exactly the award when the score block runs and is otherwise unchanged; the level rises by at most one |
| Scoring.LevelRisesExactly | main.c:486-503 | after a scoring tick the level rises iff the count reaches the requirement below level 11; a level-up resets the count, otherwise the rows accumulate |
| Game.KeyLatch | main.c:289-298 | a held rotate key does not turn the piece again; no pending key leaves the piece alone; only the rotate key touches the latch, and it closes it |
| Game.KeyEffect | main.c:289-298 | `handle_key_press` on the piece and the latch; no ensures of its own: Game.KeyLatch and Game.KeyKeepsFit state it |
| Game.KeyKeepsFit | main.c:289-298 | whatever the key, the piece stays inside the walls and clear of blocks |
| Game.SpawnFits | main.c:210-212 | a new piece fits over empty spawn rows |
| Game.ResetGood | main.c:215-219 | a reset grid satisfies the grid invariant |
| Game.InitialValid | main.c:377-381 | the state before the first update satisfies the game invariant |
| Game.Initial | main.c:377-408 | the state before the first update; no ensures of its own: Game.InitialValid states it, Game.Game.constructor builds it |
| Game.ScanFindsAllFullRows | main.c:440-457 | after the copy the grid keeps its shape, the rows found lie in the playfield, and every full row of the grid is among them |
| Game.CommitAndClearGood | main.c:440-467 | locking below the spawn rows and removing the rows found leaves a good grid with no full row |
| Game.LockKeepsValid | main.c:439-481 | a lock leaves a valid state, whether the game goes on or restarts, and counts at most four rows |
| Game.LockPiece | main.c:439-481 | the lock branch on values; no ensures of its own: Game.LockKeepsValid, Game.GameOverRestarts and Game.LockContinues state it, Game.Game.LockCurrent computes it |
| Game.GravityKeepsValid | main.c:435-483 | gravity keeps the state valid and counts at most four rows |
| Game.Gravity | main.c:435-483 | gravity on values; no ensures of its own: Game.GravityKeepsValid and Game.GravityProgress state it, Game.Game.ForceDown computes it |
| Game.SettleKeepsValid | main.c:486-509 | the end of an update keeps the state valid |
| Game.Settle | main.c:486-509 | the end of an update on values; no ensures of its own: Game.SettleKeepsValid and Game.SettleScore state it, Game.Game.UpdateScore computes it |
| Game.TickKeepsValid | main.c:429-510 | every update keeps the invariant: walls intact, piece inside and clear of blocks, no full row, empty spawn rows, level ≤ 11 with its requirement in step |
| Game.Tick | main.c:429-510 | one update on values; no ensures of its own: Game.TickKeepsValid, Game.TickSteps and Game.TickScore state it, Game.Game.Update computes it |
| Game.GameOverRestarts | main.c:468-481 | when the locked piece reached the spawn rows or the new piece cannot move down, the grid is fresh, the second new piece falls, the bookkeeping restarts, both flags are set and no rows count |
| Game.LockContinues | main.c:439-467 | otherwise the first new piece falls, the bookkeeping is unchanged, the rows found count and set the score flag |
| Game.RestartSettles | main.c:478-503 | the restarted bookkeeping passes through the score and level blocks unchanged |
| Game.GravityProgress | main.c:435-483 | gravity leaves the bookkeeping as it was or restarts it with both flags set and no rows counted |
| Game.SettleScore | main.c:486-490 | the end of an update adds the award when the score flag is set and nothing otherwise |
| Game.TickSteps | main.c:433-509 | an update is the key step, then gravity, then the bookkeeping, and the state stays valid after the key step |
| Game.TickScore | main.c:429-510 | an update never lowers the score unless the game restarts |
| Game.Game.constructor | main.c:377-408 | a zeroed grid is reset, the first piece spawned, the counters start at zero with requirement 10 and both flags set; the state is valid |
| Game.Game.KeyDown | main.c:417-418 | a key-down event records the key and changes nothing else |
| Game.Game.KeyUp | main.c:420-421 | a key-up event opens the rotate latch and changes nothing else |
| Game.Game.HandleKeyPress | main.c:289-298 | the key takes effect as `KeyEffect` says, the pending key is consumed, and the state stays valid |
| Game.Game.CommitAndClear | main.c:440-467 | the copy, scan and removal leave the collapsed grid, and the scan returns the full rows of the piece's rows |
| Game.Game.LockCurrent | main.c:439-481 | the lock branch leaves the state that `LockPiece` describes and returns its `lines_length` |
| Game.Game.GameOver | main.c:468-481 | game over resets the grid, spawns the second piece, zeroes score, count and level, restores requirement 10, sets both flags and empties `lines` |
| Game.Game.ForceDown | main.c:435-483 | gravity moves the piece down or locks it as `Gravity` says, and keeps the state valid |
| Game.Game.UpdateScore | main.c:486-509 | the counters follow `UpdateProgress`, the gravity counter steps, both flags drop, and piece, latch and key are unchanged |
| Game.Game.Update | main.c:429-510 | one pass of the update block is `Tick` on the state, and the state stays valid |

## Left out

- SDL rendering, the ghost-piece and display-grid drawing, and text textures are not modelled. The landing loop of `draw_piece_drop` is modelled as `Movement.DropToLanding`, which takes the piece by value as the C function does.
- Event polling and `get_key_pressed` are not modelled. A key-down event is `Game.Game.KeyDown` with an already decoded mode, and key-up is `Game.Game.KeyUp`. Quit and the `frame_count_mod` pacing around the update block are left out.
- `rand()` is not modelled. The pieces a lock may spawn are the parameters `next` (after the lock) and `restart` (after a game over), each a shape id in 1..7.
- Argument parsing, window setup and teardown are not modelled.
- Game state: the score, line and level counters are `size_t` and are modelled as unbounded naturals. `force_down_counter` is a C `int` whose overflow after about 2^31 updates is not modelled.
- The `lines` array of 20 entries is a sequence. One lock records at most four rows, so the capacity never matters.
- Scoring.FallPeriod: only defined for levels up to 11. That is all the game reaches (`Scoring.UpdateKeepsValid`). The unsigned wrap-around the C expression would have beyond level 11 is not modelled.
- Movement.Move: the hard drop is only defined for a piece inside a walled grid. Its loop terminates because of the bottom wall, and the game invariant always provides one.
- Lock.ClearLines: requires the recorded rows to lie in the field. The scan never records a row outside the playfield (`Game.ScanFindsAllFullRows`).
- Padding: the 60 padding bytes are modelled as a kept zero padding rather than left out. A piece inside the walls is at most at row 21 (`Board.InsideBounds`), so the scan of its four rows reads at most row 24, the first row of the padding. The C code zeroes the padding once (`memset`) and never writes it, and the model proves that it stays zero.

Behaviours of the source that the model keeps as written:

- the `py < cols + 3` guard of the scan, which holds for every row offset;
- the 3-bit rotation field wrapping from 7 to 0;
- the fit test silently ignoring cells outside the field;
- rows beyond the level requirement being dropped when the level rises;
- the step from level 10 to 11 keeping the requirement at 110;
- both update flags starting set, so the level block also runs on the first update.
