# Tetris-Clone engine in Dafny

A model of the engine of a Java Swing falling-block game. It covers the 20 x 10 board of cell codes in `TetrisGame`, the seven brick kinds with their layouts and rotation, the falling brick, its phantom (the landing preview) and the queue of upcoming bricks. It also covers the gravity, rotation and sideways tests with the locking they lead to, line clearing and scoring, the save-file layout, and the timer tick of `TetrisDisplay` that drives it all.

The files follow the program's classes:

- `geometry.dfy`: brick kinds, orientations, cell offsets, `pickBrick`'s choice of kind, colour codes.
- `el_brick.dfy`, `stack_brick.dfy`, `long_brick.dfy`, `ess_brick.dfy`, `zee_brick.dfy`, `square_brick.dfy`: the cells each subclass draws (`showFullBrick`, `showPhantom`, `showQueue`) and lemmas about those layouts.
- `shapes.dfy`: the drawn layouts gathered by kind.
- `tetris_brick.dfy`: the `TetrisBrick` object in pixel coordinates (`moveLeft`, `moveRight`, `moveDown`, `reset`, `rotate`, `clone`). It shows Java's truncating division and proves that the grid coordinates the engine reads move by exactly one cell per step.
- `board.dfy`: the board as a value, the full-row count of `checkForLine` and the row copy of `deleteLine`.
- `rules.dfy`: the engine's behaviour as pure functions.
  - The cells each lock writes and the cells each test probes, taken per kind, per orientation and per direction from the branches of `validateMove`, `validateRotate`, `validateHorizontal` and `movePhantom`.
  - The left-to-right evaluation of the `&&` chains, including the index exception.
  - The seven kind blocks of `validateMove`, the queue, the sideways moves, rotation, the phantom drop and the line clear.
- `tetris_game.dfy`: the `TetrisGame` object. It is a class over an `array2<int>` whose methods update the board and fields in place. Each method is proved to leave exactly the state that the matching function of `rules.dfy` describes.
- `save_format.dfy`: the field sequence `saveGame` writes and `loadGame` reads, with its round trips.
- `tetris_display.dfy`: the timer tick as a function on the display's counters with lemmas about it, and the `Display` class whose `Tick` drives the game object.

`java.util.Random` is replaced by a sequence of picks supplied by the caller. Each pick selects a kind as `pickBrick` does. The index exceptions the source catches become explicit outcomes: a probe off the board ends `validateMove`, and a lock write off the board stops the lock. `validateMove`'s seven consecutive `instanceof` blocks appear as one loop over the kinds in the source's order. Each block still sees the state the previous one left.

### Where the code departs from the intended design

In each of these places the model follows the code.

- **Rotation and sideways tests look in the wrong rows.** A lock writes cell (dr, dc) of a brick at board row `row - 2 + dr`. The rotation and sideways tests instead read row `row - dr`, so they look at the new cells flipped top to bottom about the anchor. See `Rules.RotateProbesCoverFlippedNewCells`, `Rules.HorizontalProbesCoverFlippedNewCells` and their `Only` partners.
  - The gravity test alone reads exactly the cells under the brick's bottom edge (`Rules.GravityProbesCoverBottomEdge`).
  - For El in orientation 1 moving right, two probes read the column to the brick's left (`Rules.ElTurnedRightChecksItsLeft`).
- **Locks do not check for bricks.** A lock overwrites whatever the target cells hold. It stops at the first write that leaves the board, keeping the cells already written.
- **At most one row is cleared per call.** `deleteLine` copies rows until it reads row -1 and raises. So `checkForLine` clears only the lowest full row per call, and row 0 is duplicated rather than emptied. `amtLine` grows by one per cleared row, and each gravity step resets it to 1.
- **The phantom picks its probes once.** `movePhantom` chooses the probe set from the row the phantom starts on. A flat Zee or Ess phantom starting on the spawn row keeps the two-probe test all the way down. It can therefore fall past rows where `validateMove` would stop the brick (`Rules.DropStopsWhereGravityStops`).
- **A save right after a level-up loads one level too high.** A gravity step that completes a level records an arc length of 360 in the game before the display resets its own dial. A save taken before the next gravity step therefore holds a full circle, and the display built over it goes up one more level on its first tick (`TetrisDisplay.ReloadAfterLevelUpGainsALevel`).
- **A save before the first gravity step, or a missing save, loads with fall speed 0.** The game's speed is set only by the display's first gravity step, so until then it holds its default of 0. A display built over such a save, or over "Load Game" with no file, takes that 0 as its fall speed: it is not steady, and gravity acts on every tick (`TetrisDisplay.ZeroSpeedFallsEveryTick`).

## Model

| member | source | states |
|---|---|---|
| `Geometry.NextOrientation` | Tetris-Clone/ElBrick.java:31-37 | `rotate` moves the orientation one step up, and from `maxRotate` (3) back to 0; the result stays in 0..3 |
| `Geometry.Rotated` | Tetris-Clone/StackBrick.java:27-33 | on a valid orientation, a turn is the successor modulo 4 |
| `Geometry.FourRotationsRestore` | Tetris-Clone/ZeeBrick.java:27-33 | four turns restore every orientation, and one, two or three turns do not |
| `Geometry.Colour` | Tetris-Clone/TetrisGame.java:34-41 | each kind locks with a code from 2 to 8 |
| `Geometry.ColourIdentifiesKind` | Tetris-Clone/TetrisGame.java:34-41 | distinct kinds leave distinct codes, and none of them reads as empty (0) or wall (1) |
| `Geometry.KindOfPick` | Tetris-Clone/TetrisGame.java:1194-1213 | among the draws 0..6 of `nextInt(7)`, only the switch's default draw 6 builds a Stack |
| `Geometry.EveryKindCanBePicked` | Tetris-Clone/TetrisGame.java:1194-1213 | every one of the seven kinds is built by some draw |
| `Geometry.DrawsGiveDistinctKinds` | Tetris-Clone/TetrisGame.java:1194-1213 | two draws in 0..6 build the same kind exactly when they are the same draw, so draws and kinds match one to one |
| `Geometry.PickBrick` | Tetris-Clone/TetrisGame.java:1194-1213 | a picked brick is of the drawn kind, upright, at the spawn cell (row 1, column 2) |
| `ElBrick.FullBrick` | Tetris-Clone/ElBrick.java:39-67 | exactly the orientations 0..3 draw four cells, the first being the anchor |
| `ElBrick.Phantom` | Tetris-Clone/ElBrick.java:77-105 | exactly the orientations 0..3 outline four cells |
| `ElBrick.Queue` | Tetris-Clone/ElBrick.java:69-75 | the preview draws four cells |
| `ElBrick.FourDistinctCells` | Tetris-Clone/ElBrick.java:39-67 | every orientation draws four distinct cells including the anchor |
| `ElBrick.PhantomMatchesFull` | Tetris-Clone/ElBrick.java:77-105 | the phantom outlines exactly the cells the brick fills |
| `ElBrick.QueueIsUpright` | Tetris-Clone/ElBrick.java:69-75 | the preview is the orientation 0 layout |
| `StackBrick.FullBrick` | Tetris-Clone/StackBrick.java:39-67 | exactly the orientations 0..3 draw four cells, the first being the anchor |
| `StackBrick.Phantom` | Tetris-Clone/StackBrick.java:77-105 | exactly the orientations 0..3 outline four cells |
| `StackBrick.Queue` | Tetris-Clone/StackBrick.java:69-75 | the preview draws four cells |
| `StackBrick.FourDistinctCells` | Tetris-Clone/StackBrick.java:39-67 | every orientation draws four distinct cells including the anchor |
| `StackBrick.AnchorAndThreeNeighbours` | Tetris-Clone/StackBrick.java:39-67 | the three other cells each share a side with the anchor, and the four orientations draw four different shapes |
| `StackBrick.PhantomMatchesFull` | Tetris-Clone/StackBrick.java:77-105 | the phantom outlines exactly the cells the brick fills |
| `StackBrick.QueueIsUpright` | Tetris-Clone/StackBrick.java:69-75 | the preview is the orientation 0 layout |
| `LongBrick.FullBrick` | Tetris-Clone/LongBrick.java:38-56 | exactly the orientations 0..3 draw four cells, the first being the anchor |
| `LongBrick.Phantom` | Tetris-Clone/LongBrick.java:66-84 | exactly the orientations 0..3 outline four cells |
| `LongBrick.Queue` | Tetris-Clone/LongBrick.java:58-64 | the preview draws four cells |
| `LongBrick.FourDistinctCells` | Tetris-Clone/LongBrick.java:38-56 | every orientation draws four distinct cells including the anchor |
| `LongBrick.StraightLine` | Tetris-Clone/LongBrick.java:38-56 | even orientations lie in the anchor's row and odd ones in its column; a half turn gives the same layout and a quarter turn a different one |
| `LongBrick.PhantomMatchesFull` | Tetris-Clone/LongBrick.java:66-84 | the phantom outlines exactly the cells the brick fills |
| `LongBrick.QueueIsUpright` | Tetris-Clone/LongBrick.java:58-64 | the preview is the orientation 0 layout |
| `EssBrick.FullBrick` | Tetris-Clone/EssBrick.java:39-57 | exactly the orientations 0..3 draw four cells, the first being the anchor |
| `EssBrick.Phantom` | Tetris-Clone/EssBrick.java:67-85 | exactly the orientations 0..3 outline four cells |
| `EssBrick.Queue` | Tetris-Clone/EssBrick.java:59-65 | the preview draws four cells |
| `EssBrick.FourDistinctCells` | Tetris-Clone/EssBrick.java:39-57 | every orientation draws four distinct cells including the anchor |
| `EssBrick.TwoLayouts` | Tetris-Clone/EssBrick.java:39-57 | a half turn gives the same layout and a quarter turn a different set of cells |
| `EssBrick.PhantomMatchesFull` | Tetris-Clone/EssBrick.java:67-85 | the phantom outlines exactly the cells the brick fills |
| `EssBrick.QueueIsUpright` | Tetris-Clone/EssBrick.java:59-65 | the preview is the orientation 0 layout |
| `ZeeBrick.FullBrick` | Tetris-Clone/ZeeBrick.java:39-57 | exactly the orientations 0..3 draw four cells, the first being the anchor |
| `ZeeBrick.Phantom` | Tetris-Clone/ZeeBrick.java:67-85 | exactly the orientations 0..3 outline four cells |
| `ZeeBrick.Queue` | Tetris-Clone/ZeeBrick.java:59-65 | the preview draws four cells |
| `ZeeBrick.FourDistinctCells` | Tetris-Clone/ZeeBrick.java:39-57 | every orientation draws four distinct cells including the anchor |
| `ZeeBrick.TwoLayouts` | Tetris-Clone/ZeeBrick.java:39-57 | a half turn gives the same layout and a quarter turn a different set of cells |
| `ZeeBrick.PhantomMatchesFull` | Tetris-Clone/ZeeBrick.java:67-85 | the phantom outlines exactly the cells the brick fills |
| `ZeeBrick.QueueIsUpright` | Tetris-Clone/ZeeBrick.java:59-65 | the preview is the orientation 0 layout |
| `SquareBrick.FullBrick` | Tetris-Clone/SquareBrick.java:39-45 | four cells whatever the orientation, the first being the anchor |
| `SquareBrick.Phantom` | Tetris-Clone/SquareBrick.java:55-61 | the phantom outlines four cells |
| `SquareBrick.Queue` | Tetris-Clone/SquareBrick.java:47-53 | the preview draws four cells |
| `SquareBrick.TwoByTwoBlock` | Tetris-Clone/SquareBrick.java:39-45 | four distinct cells in the 2 x 2 block that has the anchor at its lower left |
| `SquareBrick.IndependentOfOrientation` | Tetris-Clone/SquareBrick.java:27-45 | turning a square changes nothing that is drawn, and the phantom and preview are the same block |
| `Shapes.Drawn` | Tetris-Clone/ElBrick.java:39-67 | every drawn kind and orientation is four distinct cells including the anchor |
| `TetrisBrick.JavaDivIsOdd` | Tetris-Clone/TetrisBrick.java:82-88 | Java's `/` truncates toward zero: negating the dividend negates the quotient |
| `TetrisBrick.JavaDivTruncates` | Tetris-Clone/TetrisBrick.java:82-88 | Java's `/` by a positive cell size leaves a remainder smaller than the divisor with the dividend's sign, i.e. the quotient is truncated toward zero |
| `TetrisBrick.RowOf` | Tetris-Clone/TetrisBrick.java:82-84 | the grid row `getyCord` computes is the cell band holding the pixel: row × size ≤ y − 8 < (row + 1) × size, for y ≥ 8 |
| `TetrisBrick.ColOf` | Tetris-Clone/TetrisBrick.java:86-88 | the grid column `getxCord` computes is the cell band holding the pixel, shifted by one: (col + 1) × size ≤ x − 358 < (col + 2) × size, for x ≥ 358 |
| `TetrisBrick.MoveDownAddsOneRow` | Tetris-Clone/TetrisBrick.java:53-55 | on a coordinate aligned to the grid, `moveDown` raises `getyCord` by exactly one and stays aligned |
| `TetrisBrick.SideStepOneColumn` | Tetris-Clone/TetrisBrick.java:45-51 | on an aligned coordinate, `moveLeft` and `moveRight` change `getxCord` by exactly one and stay aligned |
| `TetrisBrick.GameCoordinates` | Tetris-Clone/TetrisBrick.java:19-21 | the game's start position is grid cell (1, 2) and `reset` puts a brick on grid row 2, all aligned |
| `TetrisBrick.Brick.constructor` | Tetris-Clone/TetrisBrick.java:27-34 | a new brick holds the given kind, pixel position, size and orientation |
| `TetrisBrick.Brick.GridRow` | Tetris-Clone/TetrisBrick.java:82-84 | `getyCord` is the band of rows holding the brick's y coordinate, as `TetrisBrick.RowOf` states |
| `TetrisBrick.Brick.GridCol` | Tetris-Clone/TetrisBrick.java:86-88 | `getxCord` is the band of columns holding the brick's x coordinate, less one, as `TetrisBrick.ColOf` states |
| `TetrisBrick.Brick.MoveLeft` | Tetris-Clone/TetrisBrick.java:45-47 | x decreases by one cell size, which is one grid column when aligned |
| `TetrisBrick.Brick.MoveRight` | Tetris-Clone/TetrisBrick.java:49-51 | x increases by one cell size, which is one grid column when aligned |
| `TetrisBrick.Brick.MoveDown` | Tetris-Clone/TetrisBrick.java:53-55 | y increases by one cell size, which is one grid row when aligned |
| `TetrisBrick.Brick.Reset` | Tetris-Clone/TetrisBrick.java:76-78 | y becomes `resetStart` (52), grid row 2 at cell size 22 |
| `TetrisBrick.Brick.Rotate` | Tetris-Clone/ElBrick.java:31-37 | the subclasses' `rotate`: the orientation becomes its successor, wrapping at 3 |
| `TetrisBrick.Brick.Clone` | Tetris-Clone/TetrisBrick.java:72-74 | a new object with the same kind, position, size and orientation |
| `TetrisBrick.DropClone` | Tetris-Clone/TetrisGame.java:1179-1192 | moving the phantom clone down leaves the original brick where it was |
| `Board.SetCell` | Tetris-Clone/TetrisGame.java:124-126 | one write changes exactly the one cell |
| `Board.CountFilled` | Tetris-Clone/TetrisGame.java:129-144 | the count of cells holding a brick is at most the row's length |
| `Board.CountFilledAll` | Tetris-Clone/TetrisGame.java:129-144 | the count equals the row's length exactly when every cell holds a brick |
| `Board.FullRowMeansAllFilled` | Tetris-Clone/TetrisGame.java:129-144 | on a ten-cell row, passing `amtCol` (9) means all ten cells hold a brick, in both directions |
| `Board.WallRowNotFull` | Tetris-Clone/TetrisGame.java:56-60 | the all-wall bottom row is never full |
| `Board.LowestFullRow` | Tetris-Clone/TetrisGame.java:129-144 | the bottom-up scan finds a full row with no full row below it, or reports that no row is full |
| `Board.DeleteRow` | Tetris-Clone/TetrisGame.java:147-154 | deleting a row yields a well-formed 20 x 10 board |
| `Board.DeleteRowContents` | Tetris-Clone/TetrisGame.java:147-154 | rows below the deleted row stay, the rows above move down one place, row 0 stays and so appears twice; the multiset of rows loses the deleted row and gains a second row 0 |
| `Rules.LockCells` | Tetris-Clone/TetrisGame.java:157-441 | every lock writes four distinct cells including the anchor |
| `Rules.GravityProbes` | Tetris-Clone/TetrisGame.java:157-441 | every gravity test has a first probe in the anchor's column at most one row above it |
| `Rules.RotateProbes` | Tetris-Clone/TetrisGame.java:444-646 | exactly the Square has no rotation probe |
| `Rules.HorizontalProbes` | Tetris-Clone/TetrisGame.java:649-973 | every sideways test has one to four probes |
| `Rules.GravityProbesCoverBottomEdge` | Tetris-Clone/TetrisGame.java:157-441 | every cell of a brick either has another of its cells beneath it or has a gravity probe reading the board cell beneath it |
| `Rules.GravityProbesOnlyUnderBottomEdge` | Tetris-Clone/TetrisGame.java:157-441 | every gravity probe reads the cell beneath a bottom-edge cell of the brick |
| `Rules.LowProbesDropOnlyTopProbe` | Tetris-Clone/TetrisGame.java:346-441 | the test a flat Zee or Ess uses on the spawn row is the full test minus the probes two rows above the anchor |
| `Rules.RotateProbesCoverFlippedNewCells` | Tetris-Clone/TetrisGame.java:444-646 | every cell the turned brick newly covers is probed, but flipped top to bottom about the anchor row |
| `Rules.RotateProbesOnlyFlippedNewCells` | Tetris-Clone/TetrisGame.java:444-646 | for El, Jay, Long and Square, every rotation probe is such a flipped newly covered cell |
| `Rules.HorizontalProbesCoverFlippedNewCells` | Tetris-Clone/TetrisGame.java:649-973 | apart from El in orientation 1 moving right, every cell the shifted brick newly covers is probed, flipped top to bottom |
| `Rules.HorizontalProbesOnlyFlippedNewCells` | Tetris-Clone/TetrisGame.java:649-973 | apart from El in orientation 1 moving right, every sideways probe is such a flipped newly covered cell |
| `Rules.ElTurnedRightChecksItsLeft` | Tetris-Clone/TetrisGame.java:651-712 | for El in orientation 1 moving right, two probes read the column to the brick's left |
| `Rules.LockCellsMatchDrawing` | Tetris-Clone/TetrisGame.java:157-441 | for every drawn kind, the cells a lock writes are the cells `showFullBrick` fills |
| `Rules.Scan` | Tetris-Clone/TetrisGame.java:162-213 | a chain of probe tests comes out clear exactly when every probe reads an empty cell on the board |
| `Rules.ScanStopsAtFirstNonFree` | Tetris-Clone/TetrisGame.java:157-441 | the first probe that is not free decides: blocked if it is on the board, an index exception if not |
| `Rules.Reach` | Tetris-Clone/TetrisGame.java:124-126 | the cells written before the first write that leaves the board all lie on the board |
| `Rules.Paint` | Tetris-Clone/TetrisGame.java:157-441 | a lock sets exactly the targets written before the first off-board write to the colour and leaves every other cell alone |
| `Rules.Picked` | Tetris-Clone/TetrisGame.java:1179-1192 | the bricks built from the picks, one per pick, in order |
| `Rules.Spawn` | Tetris-Clone/TetrisGame.java:1179-1192 | the board stays, the queue keeps its length, and the phantom is the new brick |
| `Rules.Spawns` | Tetris-Clone/TetrisGame.java:1179-1192 | spawning keeps the queue's length |
| `Rules.QueueIsFirstInFirstOut` | Tetris-Clone/TetrisGame.java:1179-1192 | the n-th spawned brick is the n-th of the queue followed by the picks |
| `Rules.FallKeepsBrickClear` | Tetris-Clone/TetrisGame.java:157-441 | a brick that passes the gravity test and overlaps no brick still overlaps none one row lower |
| `Rules.LocksOnlyWhenResting` | Tetris-Clone/TetrisGame.java:157-441 | a brick whose gravity test is blocked on the board rests on a brick or the wall under its bottom edge |
| `Rules.Block` | Tetris-Clone/TetrisGame.java:157-441 | one kind block keeps the board well formed and the queue's length, and uses at most one pick |
| `Rules.Sweep` | Tetris-Clone/TetrisGame.java:157-441 | a run of blocks uses at most one pick per block, from the front |
| `Rules.Gravity` | Tetris-Clone/TetrisGame.java:157-441 | the seven blocks of `validateMove` keep the board well formed and the queue's length, and use at most seven picks, taken from the front |
| `Rules.SweepSkipsOtherKinds` | Tetris-Clone/TetrisGame.java:157-441 | blocks for kinds other than the falling brick's change nothing |
| `Rules.GravityFromOwnBlock` | Tetris-Clone/TetrisGame.java:157-441 | `validateMove` acts on the brick in its own kind's block; the later blocks see what that block left |
| `Rules.FreeBrickFallsOneRow` | Tetris-Clone/TetrisGame.java:157-441 | a brick whose gravity probes are all free moves down exactly one row, and nothing else changes |
| `Rules.LockPaintsBrick` | Tetris-Clone/TetrisGame.java:157-441 | after a lock, each cell the lock reached takes the brick's colour code and every other cell keeps its code; the call goes on exactly when all four writes stayed on the board |
| `Rules.FaultChangesNothing` | Tetris-Clone/TetrisGame.java:157-441 | a gravity probe off the board ends `validateMove` with the play and the picks unchanged |
| `Rules.LockSpawns` | Tetris-Clone/TetrisGame.java:157-441 | a lock with every write on the board replaces the brick and phantom by the head of the queue, using one pick |
| `Rules.LockedBrickReplacedEarlierKind` | Tetris-Clone/TetrisGame.java:157-441 | when the new brick's block comes no later than the locked one's, the call ends with the new brick where it spawned |
| `Rules.LockedBrickReplacedLaterKind` | Tetris-Clone/TetrisGame.java:157-441 | when the new brick's block comes later, that block examines it in the same call |
| `Rules.Rotate` | Tetris-Clone/TetrisGame.java:444-646 | a turn changes neither board nor queue, nor the brick's kind or position |
| `Rules.RotateTurnsBrickAndPhantom` | Tetris-Clone/TetrisGame.java:444-646 | an allowed turn turns the brick in place and puts the phantom back at row 2, turned the same way; a refused turn changes nothing |
| `Rules.RotateTurnsIffProbesFree` | Tetris-Clone/TetrisGame.java:444-646 | the brick turns exactly when its rotation probes read empty cells, and otherwise keeps its orientation; a Square always turns |
| `Rules.CanShift` | Tetris-Clone/TetrisGame.java:649-973 | `validateHorizontal` returns true exactly when its `&&` chain, evaluated left to right with the index exception caught, reads only empty cells |
| `Rules.Shift` | Tetris-Clone/TetrisGame.java:986-1001 | a side step changes neither board nor queue, nor the brick's kind, orientation or row |
| `Rules.ShiftStepsBrickAndPhantom` | Tetris-Clone/TetrisGame.java:986-1001 | an allowed side step moves the brick one column that way and puts the phantom back at row 2, one column over too; a refused one changes nothing |
| `Rules.MoveHorizontal` | Tetris-Clone/TetrisGame.java:986-1001 | the left and right moves change neither board nor queue, nor the brick's kind, orientation or row |
| `Rules.MoveHorizontalColumn` | Tetris-Clone/TetrisGame.java:986-1001 | with no key nothing moves; with one key the brick moves one column that way if allowed; with both keys and both allowed it ends where it began |
| `Rules.MoveHorizontalSteps` | Tetris-Clone/TetrisGame.java:986-1001 | for every set of held keys, with the right move checked after the left one: the brick ends as many columns over as the moves that happened, and the phantom is back at row 2 and follows it if any did; with no move nothing changes |
| `Rules.DropWith` | Tetris-Clone/TetrisGame.java:1003-1176 | the phantom ends in its column, no higher, on a row where the test fails, having passed only rows where it held |
| `Rules.Drop` | Tetris-Clone/TetrisGame.java:1003-1176 | `movePhantom` keeps the phantom's kind, orientation and column, never raises it, leaves it on a row where the gravity chain it chose at the start fails, and passes only rows where that chain holds |
| `Rules.DropIdempotent` | Tetris-Clone/TetrisGame.java:1003-1176 | dropping a dropped phantom leaves it where it is |
| `Rules.DropStopsWhereGravityStops` | Tetris-Clone/TetrisGame.java:1003-1176 | the phantom rests where the gravity test of `validateMove` fails; starting below row 1, it passes only rows where that test holds |
| `Rules.GameOver` | Tetris-Clone/TetrisGame.java:976-983 | the game is over exactly when the top row is not all empty |
| `Rules.ClearLine` | Tetris-Clone/TetrisGame.java:129-154 | a line clear keeps the board well formed |
| `Rules.ClearLineRemovesLowestFullRow` | Tetris-Clone/TetrisGame.java:129-154 | score and multiplier change exactly when some row is full, and with no full row nothing changes; otherwise the score gains `100 * amtLine`, the multiplier grows by one, and the lowest full row is removed: the rows below stay, the rows above move down, and row 0 keeps its contents, so it appears twice |
| `Rules.WallSurvivesClearLine` | Tetris-Clone/TetrisGame.java:56-60 | the wall row laid by `startGame` survives every line clear |
| `SaveFormat.SlotsAreDistinct` | Tetris-Clone/TetrisGame.java:1244-1249 | each cell has its own field after the four header fields and inside the save |
| `SaveFormat.FlattenAt` | Tetris-Clone/TetrisGame.java:1244-1249 | cell (r, c) is field `r * 10 + c` of the rows written one after another |
| `SaveFormat.Encode` | Tetris-Clone/TetrisGame.java:1237-1255 | a save is 204 fields: score, level, speed, arc length, then each cell at its slot |
| `SaveFormat.Overwrite` | Tetris-Clone/TetrisGame.java:1257-1287 | a load, even one cut short, leaves a well-formed board |
| `SaveFormat.Decode` | Tetris-Clone/TetrisGame.java:1257-1287 | a save reads back exactly when it holds at least 204 fields |
| `SaveFormat.DecodeEncode` | Tetris-Clone/TetrisGame.java:1237-1287 | reading back a save restores all five components |
| `SaveFormat.EncodeDecode` | Tetris-Clone/TetrisGame.java:1237-1287 | saving what was read back gives the first 204 fields, and fields after them are ignored |
| `SaveFormat.CompleteLoadIsDecode` | Tetris-Clone/TetrisGame.java:1257-1287 | a load that finds every field replaces the whole state, whatever it held |
| `SaveFormat.LoadRestoresSave` | Tetris-Clone/TetrisGame.java:1237-1287 | loading a save over any state restores exactly the saved state |
| `SaveFormat.ShortLoadKeepsTheRest` | Tetris-Clone/TetrisGame.java:1257-1287 | a load that runs out of fields is not a complete save; each of score, level, speed and arc length takes its field when that field was found and keeps its value otherwise, and so does each cell; an empty one changes nothing |
| `TetrisGame.Game.constructor` | Tetris-Clone/TetrisGame.java:20-53 | a new game: an empty board, score 0, level 1, arc length 0, speed 0, multiplier 1, no bricks yet and not over |
| `TetrisGame.Game.UpdateBoard` | Tetris-Clone/TetrisGame.java:124-126 | writes the cell two rows above the given row, and fails without writing where the source raises |
| `TetrisGame.Game.ScanBoard` | Tetris-Clone/TetrisGame.java:162-213 | the loop over a chain of probes gives the outcome `Rules.Scan` describes |
| `TetrisGame.Game.LockBrick` | Tetris-Clone/TetrisGame.java:157-441 | the writes of a lock leave the board `Rules.Paint` describes and report whether every write was on the board |
| `TetrisGame.Game.GenerateRandomBrick` | Tetris-Clone/TetrisGame.java:1179-1192 | the first call plays the first of four picks and queues three; later calls play the queue's head and queue one pick; the phantom is the new brick |
| `TetrisGame.PickBricks` | Tetris-Clone/TetrisGame.java:1181-1183 | the start-up loop builds the bricks of the first picks, one per pick, in order |
| `TetrisGame.Game.ValidateGameOver` | Tetris-Clone/TetrisGame.java:976-983 | true exactly when some cell of the top row is not empty |
| `TetrisGame.Game.KindBlock` | Tetris-Clone/TetrisGame.java:157-441 | one kind block leaves the state `Rules.Block` describes |
| `TetrisGame.Game.ValidateMove` | Tetris-Clone/TetrisGame.java:157-441 | a taken top row ends the game with nothing else changed; otherwise the state is the one the seven blocks leave (`Rules.Gravity`) and the counters stay |
| `TetrisGame.Game.RunBlocks` | Tetris-Clone/TetrisGame.java:162-441 | the kind blocks run one after another, each on the state the previous one left, until one raises: the state `Rules.Sweep` describes |
| `TetrisGame.Game.ProbesFree` | Tetris-Clone/TetrisGame.java:444-646 | true exactly when every probe reads an empty cell on the board |
| `TetrisGame.Game.ValidateRotate` | Tetris-Clone/TetrisGame.java:444-646 | leaves the state `Rules.Rotate` describes |
| `TetrisGame.Game.ValidateHorizontal` | Tetris-Clone/TetrisGame.java:649-973 | true exactly when every probe for the direction reads an empty cell on the board |
| `TetrisGame.Game.StepSideways` | Tetris-Clone/TetrisGame.java:986-1001 | one key's branch leaves the state `Rules.Shift` describes |
| `TetrisGame.Game.MoveHorizontal` | Tetris-Clone/TetrisGame.java:986-1001 | leaves the state `Rules.MoveHorizontal` describes |
| `TetrisGame.Game.MovePhantom` | Tetris-Clone/TetrisGame.java:1003-1176 | the phantom ends where `Rules.Drop` puts it, and nothing else changes |
| `TetrisGame.Game.DeleteLine` | Tetris-Clone/TetrisGame.java:147-154 | the multiplier grows by one and the board becomes `Board.DeleteRow` of the old board |
| `TetrisGame.Game.StartGame` | Tetris-Clone/TetrisGame.java:56-66 | the bottom row becomes the wall, then the first bricks are generated |
| `TetrisGame.Game.CheckForLine` | Tetris-Clone/TetrisGame.java:129-144 | board, score and multiplier become `Rules.ClearLine` of the old ones |
| `TetrisGame.Game.FindFullRow` | Tetris-Clone/TetrisGame.java:131-140 | the bottom-up count finds exactly the row `Board.LowestFullRow` names, or none |
| `TetrisGame.Game.SaveGame` | Tetris-Clone/TetrisGame.java:1237-1255 | the fields written are `SaveFormat.Encode` of the game's score, level, speed, arc length and board |
| `TetrisGame.Game.LoadGame` | Tetris-Clone/TetrisGame.java:1257-1287 | the state becomes `SaveFormat.Overwrite` of the old one by the fields, and the load reports success exactly when all 204 were found |
| `TetrisGame.Game.LoadCells` | Tetris-Clone/TetrisGame.java:1277-1281 | each cell takes its field until the fields run out, and the loops complete exactly when all 204 fields are there |
| `TetrisGame.Game.SetAmtLine` | Tetris-Clone/TetrisGame.java:1339-1341 | sets the multiplier and nothing else |
| `TetrisGame.Game.SetArc` | Tetris-Clone/TetrisGame.java:1311-1313 | sets the arc length and nothing else |
| `TetrisGame.Game.SetFallSpeed` | Tetris-Clone/TetrisGame.java:1315-1317 | sets the recorded speed and nothing else |
| `TetrisGame.Game.SetLevel` | Tetris-Clone/TetrisGame.java:1307-1309 | sets the level and nothing else |
| `TetrisDisplay.Hurried` | Tetris-Clone/TetrisDisplay.java:88-91 | without the down key the speed counter is unchanged; with it the counter grows by at most half the fall speed |
| `TetrisDisplay.TickDial` | Tetris-Clone/TetrisDisplay.java:85-123 | a tick raises the level by at most one, and only with the dial back at 0; the fall speed changes only with the level; the speed counter ends the tick at 1 or more |
| `TetrisDisplay.TickRecord` | Tetris-Clone/TetrisDisplay.java:102-117 | a gravity step records the display's fall speed and the advanced arc length in the game; without one those records are kept; the recorded level is kept or becomes the new level |
| `TetrisDisplay.Reload` | Tetris-Clone/TetrisDisplay.java:75-82 | a display built over a loaded game is steady exactly when the recorded fall speed is in 1..32, the arc length below 360 and the level at least 1 |
| `TetrisDisplay.Handle` | Tetris-Clone/TetrisDisplay.java:88-100 | the key branch changes neither the board nor the queue |
| `TetrisDisplay.TickCounter` | Tetris-Clone/TetrisDisplay.java:88-110 | the down key adds half the fall speed; gravity acts exactly when the counter then passes the fall speed, after which the counter ends the tick at 1 |
| `TetrisDisplay.TickArc` | Tetris-Clone/TetrisDisplay.java:102-117 | the dial stays below 360; a gravity step moves it by one; a new level begins exactly when the dial comes round |
| `TetrisDisplay.FallSpeedNeverIncreases` | Tetris-Clone/TetrisDisplay.java:112-117 | the fall speed never grows, stays positive, and no longer changes once below 8 |
| `TetrisDisplay.TickStaysSteady` | Tetris-Clone/TetrisDisplay.java:85-123 | a tick keeps the fall speed in 1..32, the dial below 360, the level at least 1 and the counter at most one past the fall speed; gravity is never more than one tick late |
| `TetrisDisplay.RunStaysSteady` | Tetris-Clone/TetrisDisplay.java:85-123 | any run of ticks keeps those bounds; the level never drops and the fall speed never rises |
| `TetrisDisplay.FreshIsSteady` | Tetris-Clone/TetrisDisplay.java:39-45 | the initial counters (fall speed 32, level 1, dial 0) satisfy the bounds |
| `TetrisDisplay.ReloadAfterGravity` | Tetris-Clone/TetrisDisplay.java:75-82 | right after a gravity step that does not finish a level, a save loads back into the same fall speed, level and dial |
| `TetrisDisplay.ReloadAfterLevelUpGainsALevel` | Tetris-Clone/TetrisDisplay.java:102-117 | right after a gravity step that finishes a level, the game records a full circle, and a display built over that save gains one more level on its first tick |
| `TetrisDisplay.ZeroSpeedFallsEveryTick` | Tetris-Clone/TetrisDisplay.java:75-117 | a display built over a game whose speed was never set has fall speed 0 and is not steady: the fall speed stays 0 and, once the counter reaches 1, gravity acts on every tick |
| `TetrisDisplay.Display.constructor` | Tetris-Clone/TetrisDisplay.java:55-83 | for a new game the counters start fresh; for "Load Game" the display takes the game's fall speed, level and arc length, which are the loaded ones when the file exists and the game's own (speed unset) when it is missing; then the game starts |
| `TetrisDisplay.Display.KeyPressed` | Tetris-Clone/TetrisDisplay.java:206-208 | the key joins the pressed set |
| `TetrisDisplay.Display.HandleKeys` | Tetris-Clone/TetrisDisplay.java:88-100 | one branch for the keys, as `TetrisDisplay.Handle` and `TetrisDisplay.Hurried` describe, and the pressed set is cleared |
| `TetrisDisplay.Display.Tick` | Tetris-Clone/TetrisDisplay.java:85-123 | the counters become `TetrisDisplay.TickDial` of the old ones; the game applies the keys, then gravity if it falls (game over when the top row is taken), with the multiplier reset to 1 and the records `TetrisDisplay.TickRecord` gives; the pressed set is cleared |
| `TetrisDisplay.Display.GravityStep` | Tetris-Clone/TetrisDisplay.java:102-109 | `validateMove` as the game describes it, then the multiplier back to 1, the counter to 0, the dial one step on, and the arc length and fall speed recorded in the game |
| `TetrisDisplay.Display.LevelCheck` | Tetris-Clone/TetrisDisplay.java:112-117 | once the dial has come round: dial back to 0, one level up (recorded in the game), and an eighth of the fall speed, rounded down, taken off; otherwise nothing changes |
| `TetrisDisplay.Display.Repaint` | Tetris-Clone/TetrisDisplay.java:175-182 | one line clear as `Rules.ClearLine` describes, then the phantom drop as `Rules.Drop` describes |
| `TetrisDisplay.Display.SaveAndQuit` | Tetris-Clone/TetrisDisplay.java:198-200 | the fields written are the game's encoded state, and they decode back to it |

## Left out

- Rendering: `drawBoard`, `paintComponent`, `displayQueue` and the brick classes' `Graphics` calls, along with colours, fonts and the background image. Only the cell offsets the brick classes draw are kept.
- JayBrick's source is not part of this model. Jay's lock cells and probes come from the Jay branches of `TetrisGame`. Its `rotate` is taken to be the one the other six subclasses share, and `Shapes.Drawn` has no Jay entry.
- `TetrisWindow`, the leaderboard, `gameOverAskName`, `gameOverWrite` and `System.exit`. A game-over test that holds at the start of `validateMove` sets the game's `over` flag instead, and no tick follows it.
- File and process I/O of `saveGame` and `loadGame`. A save is its sequence of integer fields.
  - The decimal text, the `,` delimiter, `parseInt`'s `NumberFormatException` and the exit after saving are not modelled.
  - A missing file makes `loadGame` read nothing. The display then takes the new game's counters, including its unset speed of 0 (`TetrisDisplay.ZeroSpeedFallsEveryTick`).
- `java.util.Random`: each draw of `nextInt(7)` is a pick supplied by the caller.
- The Swing timer and repaint scheduling. `Tick` and `Repaint` are separate methods, and their interleaving is the caller's. `setDelay` is kept only as the `delay` field.
- The getters of `TetrisGame` and `TetrisDisplay`: the model reads the fields directly.
- Java's 32-bit `int` wrap-around: score, counters and coordinates are unbounded integers. The model does not show a score overflowing.
- Object identity of the bricks inside `TetrisGame`: the game holds its current, phantom and queued bricks as values. The aliasing the source avoids with `clone` is shown only by `TetrisBrick.Brick.Clone` and `TetrisBrick.DropClone`.
- TetrisDisplay.Display.constructor: requires a complete file when one exists. A shorter file makes the source's `Scanner` raise `NoSuchElementException`, which nothing catches, out of the constructor; the model does not show that crash.
- TetrisDisplay.Display.Tick: requires that the game is not over, because the source has already exited by then.
- Rules.DropStopsWhereGravityStops: the agreement with `validateMove`'s test on every row passed is stated only for phantoms starting below row 1. A flat Zee or Ess phantom starting on row 1 keeps its two-probe test and can pass rows where that test fails.
- Rules.RotateProbesOnlyFlippedNewCells: stated for El, Jay, Long and Square only. Stack, Zee and Ess probe extra cells besides the flipped newly covered ones.
- Rules.HorizontalProbesCoverFlippedNewCells: excludes El in orientation 1 moving right. There, one newly covered cell has no flipped probe, because two of that branch's probes read the column to the brick's left (`Rules.ElTurnedRightChecksItsLeft`).
- Rules.HorizontalProbesOnlyFlippedNewCells: excludes El in orientation 1 moving right, whose probes `Rules.ElTurnedRightChecksItsLeft` describes.
