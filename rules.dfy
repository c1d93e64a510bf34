/**
 * The board engine's rules as values: the tables `validateMove`,
 * `validateRotate`, `validateHorizontal` and `movePhantom` consult, and the
 * effect of each engine step on the board, the active brick, its phantom
 * and the queue of upcoming bricks.  The `TetrisGame` class is proved
 * against these functions.
 *
 * Coordinates: a brick at grid (row, col) locks its cell (dr, dc) into
 * board row `row - 2 + dr`, column `col + dc` (`updateBoard` subtracts 2),
 * while a probe (pr, pc) reads board row `row + pr`, column `col + pc`.
 */
module Rules {
  import opened Geometry
  import opened Board
  import Shapes

  // ------------------------------------------------------------------
  // Tables transcribed from the branches of TetrisGame
  // ------------------------------------------------------------------

  /** The cells `validateMove` writes when a brick locks, in the order of its `updateBoard` calls. */
  function LockCells(k: Kind, o: Orientation): (cells: seq<Offset>)
    ensures Tetromino(cells)
  {
    match k
    case El =>
      if o == 0 then [(0, 0), (0, 1), (0, -1), (-1, 1)]
      else if o == 1 then [(0, 0), (1, 0), (1, 1), (-1, 0)]
      else if o == 2 then [(0, 0), (0, 1), (0, -1), (1, -1)]
      else [(0, 0), (1, 0), (-1, 0), (-1, -1)]
    case Jay =>
      if o == 0 then [(0, 0), (0, -1), (0, 1), (1, 1)]
      else if o == 1 then [(0, 0), (-1, 0), (1, 0), (1, -1)]
      else if o == 2 then [(0, 0), (0, 1), (0, -1), (-1, -1)]
      else [(0, 0), (-1, 0), (1, 0), (-1, 1)]
    case Long =>
      if o == 0 || o == 2 then [(0, 0), (0, 1), (0, -1), (0, 2)]
      else [(0, 0), (-1, 0), (1, 0), (2, 0)]
    case Stack =>
      if o == 0 then [(0, 0), (0, -1), (0, 1), (-1, 0)]
      else if o == 1 then [(0, 0), (-1, 0), (1, 0), (0, 1)]
      else if o == 2 then [(0, 0), (0, 1), (0, -1), (1, 0)]
      else [(0, 0), (-1, 0), (1, 0), (0, -1)]
    case Zee =>
      if o == 0 || o == 2 then [(0, 0), (0, 1), (-1, 0), (-1, -1)]
      else [(0, 0), (-1, 1), (0, 1), (1, 0)]
    case Square => [(0, 0), (0, 1), (-1, 1), (-1, 0)]
    case Ess =>
      if o == 0 || o == 2 then [(0, 0), (0, -1), (-1, 0), (-1, 1)]
      else [(0, 0), (-1, 0), (0, 1), (1, 1)]
  }

  /**
   * The cells `validateMove` (and `movePhantom`) test before letting a brick
   * fall, in the order of the `&&` chain.  For Zee and Ess lying flat the
   * source tests one probe fewer unless `getyCord() > 1`; `high` is that test.
   * The first probe always reads the anchor's own column at most one row up.
   */
  function GravityProbes(k: Kind, o: Orientation, high: bool): (probes: seq<Offset>)
    ensures |probes| >= 1 && probes[0].0 >= -1 && probes[0].1 == 0
  {
    match k
    case El =>
      if o == 0 then [(-1, 0), (-1, -1), (-1, 1)]
      else if o == 1 then [(0, 0), (0, 1)]
      else if o == 2 then [(-1, 0), (-1, 1), (0, -1)]
      else [(0, 0), (-2, -1)]
    case Jay =>
      if o == 0 then [(-1, 0), (-1, -1), (0, 1)]
      else if o == 1 then [(0, 0), (0, -1)]
      else if o == 2 then [(-1, 0), (-1, 1), (-1, -1)]
      else [(0, 0), (-2, 1)]
    case Long =>
      if o == 0 || o == 2 then [(-1, 0), (-1, -1), (-1, 1), (-1, 2)]
      else [(1, 0)]
    case Stack =>
      if o == 0 then [(-1, 0), (-1, -1), (-1, 1)]
      else if o == 1 then [(0, 0), (-1, 1)]
      else if o == 2 then [(0, 0), (-1, 1), (-1, -1)]
      else [(0, 0), (-1, -1)]
    case Zee =>
      if o == 0 || o == 2 then (if high then [(-1, 0), (-2, -1), (-1, 1)] else [(-1, 0), (-1, 1)])
      else [(0, 0), (-1, 1)]
    case Square => [(-1, 0), (-1, 1)]
    case Ess =>
      if o == 0 || o == 2 then (if high then [(-1, 0), (-1, -1), (-2, 1)] else [(-1, 0), (-1, -1)])
      else [(-1, 0), (0, 1)]
  }

  /** The cells `validateRotate` tests before rotating; a Square rotates without testing anything. */
  function RotateProbes(k: Kind, o: Orientation): (probes: seq<Offset>)
    ensures k == Square <==> probes == []
  {
    match k
    case El =>
      if o == 0 then [(1, 0), (-1, 0), (-1, 1)]
      else if o == 1 then [(0, 1), (0, -1), (-1, -1)]
      else if o == 2 then [(1, 0), (-1, 0), (1, -1)]
      else [(0, 1), (0, -1), (1, 1)]
    case Long =>
      if o == 0 || o == 2 then [(1, 0), (-1, 0), (-2, 0)]
      else [(0, -1), (0, 1), (0, 2)]
    case Jay =>
      if o == 0 then [(1, 0), (-1, 0), (-1, -1)]
      else if o == 1 then [(0, 1), (0, -1), (1, -1)]
      else if o == 2 then [(1, 0), (-1, 0), (1, 1)]
      else [(0, -1), (0, 1), (-1, 1)]
    case Ess =>
      if o == 0 || o == 2 then [(1, 0), (0, 1), (-1, 1)]
      else [(1, 0), (1, 1), (0, -1)]
    case Stack =>
      if o == 0 then [(1, 0), (-1, 0), (0, 1)]
      else if o == 1 then [(0, 1), (0, -1), (-1, 0)]
      else if o == 2 then [(1, 0), (-1, 0), (0, -1)]
      else [(1, 0), (0, 1), (0, -1)]
    case Zee =>
      if o == 0 || o == 2 then [(1, 1), (0, 1), (-1, 0)]
      else [(1, 0), (1, -1), (0, 1)]
    case Square => []
  }

  /** The two directions `validateHorizontal` is asked about. */
  datatype Direction = Left | Right

  /** The column step of a direction. */
  function Step(d: Direction): int
  {
    if d == Left then -1 else 1
  }

  /** The cells `validateHorizontal` tests before a sideways move, in the order of the `||` chain. */
  function HorizontalProbes(k: Kind, o: Orientation, d: Direction): (probes: seq<Offset>)
    ensures 1 <= |probes| <= 4
  {
    match k
    case El =>
      if d == Left then
        if o == 0 then [(0, -2), (1, 0)]
        else if o == 1 then [(-1, -1), (1, -1), (0, -1)]
        else if o == 2 then [(0, -2), (-1, -2)]
        else [(1, -2), (0, -1), (-1, -1)]
      else
        if o == 0 then [(1, 2), (0, 2)]
        else if o == 1 then [(1, -1), (0, -1), (-1, 2)]
        else if o == 2 then [(0, 2), (-1, 0)]
        else [(1, 1), (0, 1), (-1, 1)]
    case Long =>
      if d == Left then
        if o == 0 || o == 2 then [(0, -2)] else [(1, -1), (0, -1), (-1, -1), (-2, -1)]
      else
        if o == 0 || o == 2 then [(0, 3)] else [(1, 1), (0, 1), (-1, 1), (-2, 1)]
    case Jay =>
      if d == Left then
        if o == 0 then [(0, -2), (-1, 0)]
        else if o == 1 then [(1, -1), (0, -1), (-1, -2)]
        else if o == 2 then [(1, -2), (0, -2)]
        else [(1, -1), (0, -1), (-1, -1)]
      else
        if o == 0 then [(0, 2), (-1, 2)]
        else if o == 1 then [(1, 1), (0, 1), (-1, 1)]
        else if o == 2 then [(1, 0), (0, 2)]
        else [(1, 2), (0, 1), (-1, 1)]
    case Ess =>
      if d == Left then
        if o == 0 || o == 2 then [(0, -2), (1, -1)] else [(1, -1), (0, -1), (-1, 0)]
      else
        if o == 0 || o == 2 then [(1, 2), (0, 1)] else [(1, 1), (0, 2), (-1, 2)]
    case Stack =>
      if d == Left then
        if o == 0 then [(0, -2), (1, -1)]
        else if o == 1 then [(1, -1), (0, -1), (-1, -1)]
        else if o == 2 then [(0, -2), (-1, -1)]
        else [(1, -1), (0, -2), (-1, -1)]
      else
        if o == 0 then [(1, 1), (0, 2)]
        else if o == 1 then [(1, 1), (0, 2), (-1, 1)]
        else if o == 2 then [(0, 2), (-1, 1)]
        else [(1, 1), (0, 1), (-1, 1)]
    case Zee =>
      if d == Left then
        if o == 0 || o == 2 then [(1, -2), (0, -1)] else [(1, 0), (0, -1), (-1, -1)]
      else
        if o == 0 || o == 2 then [(1, 1), (0, 2)] else [(1, 2), (0, 2), (-1, 1)]
    case Square =>
      if d == Left then [(0, -1), (1, -1)] else [(1, 2), (0, 2)]
  }

  // ------------------------------------------------------------------
  // What the tables mean
  // ------------------------------------------------------------------

  /** The cell directly under a cell. */
  function Beneath(x: Offset): Offset
  {
    (x.0 + 1, x.1)
  }

  /** The probe that reads the cell under a locked cell (dr, dc): board row `row - 2 + dr + 1` is `row + (dr - 1)`. */
  function ProbeUnder(x: Offset): Offset
  {
    (x.0 - 1, x.1)
  }

  /**
   * Every cell on the brick's bottom edge (its lower neighbour is not part of
   * the brick) has the cell under it probed by the gravity test.
   */
  lemma GravityProbesCoverBottomEdge(k: Kind, o: Orientation)
    ensures var cells, probes := LockCells(k, o), GravityProbes(k, o, true);
      forall i :: 0 <= i < |cells| ==> Beneath(cells[i]) in cells || ProbeUnder(cells[i]) in probes
  {
  }

  /** Every gravity probe reads under a cell on the brick's bottom edge, and nothing else. */
  lemma GravityProbesOnlyUnderBottomEdge(k: Kind, o: Orientation)
    ensures var cells, probes := LockCells(k, o), GravityProbes(k, o, true);
      forall j :: 0 <= j < |probes| ==> Beneath(probes[j]) in cells && Beneath(Beneath(probes[j])) !in cells
  {
  }

  /**
   * Zee and Ess lying flat near the top (`getyCord() <= 1`) skip the probes
   * two rows up; every other probe is kept, and nothing else changes.
   */
  lemma LowProbesDropOnlyTopProbe(k: Kind, o: Orientation)
    ensures var high, low := GravityProbes(k, o, true), GravityProbes(k, o, false);
      (forall j :: 0 <= j < |low| ==> low[j] in high) &&
      (forall j :: 0 <= j < |high| ==> high[j] in low || high[j].0 == -2) &&
      (forall j :: 0 <= j < |high| ==> high[j].0 >= -2)
  {
  }

  /** A cell reflected top to bottom about the anchor's row. */
  function Flip(x: Offset): Offset
  {
    (-x.0, x.1)
  }

  /** A cell moved one column in direction d. */
  function Beside(x: Offset, d: Direction): Offset
  {
    (x.0, x.1 + Step(d))
  }

  /**
   * The rotation test reads, reflected top to bottom, every cell the rotated
   * brick covers that the brick did not cover before.
   */
  lemma RotateProbesCoverFlippedNewCells(k: Kind, o: Orientation)
    ensures var before, after, probes := LockCells(k, o), LockCells(k, Rotated(o)), RotateProbes(k, o);
      forall i :: 0 <= i < |after| ==> after[i] in before || Flip(after[i]) in probes
  {
  }

  /** For El, Jay, Long and Square the rotation test reads nothing else. */
  lemma RotateProbesOnlyFlippedNewCells(k: Kind, o: Orientation)
    requires k in {El, Jay, Long, Square}
    ensures var before, after, probes := LockCells(k, o), LockCells(k, Rotated(o)), RotateProbes(k, o);
      forall j :: 0 <= j < |probes| ==> Flip(probes[j]) in after && Flip(probes[j]) !in before
  {
  }

  /**
   * The sideways test reads, reflected top to bottom, every cell the moved
   * brick newly covers, in every case but El turned right moving right.
   */
  lemma HorizontalProbesCoverFlippedNewCells(k: Kind, o: Orientation, d: Direction)
    requires !(k == El && o == 1 && d == Right)
    ensures var cells, probes := LockCells(k, o), HorizontalProbes(k, o, d);
      forall i :: 0 <= i < |cells| ==> Beside(cells[i], d) in cells || Flip(Beside(cells[i], d)) in probes
  {
    if k in {El, Jay, Long} {
      CoverFirstKinds(k, o, d);
    } else {
      CoverLastKinds(k, o, d);
    }
  }

  /** The cover property of the sideways tables for El, Jay and Long. */
  lemma CoverFirstKinds(k: Kind, o: Orientation, d: Direction)
    requires k in {El, Jay, Long} && !(k == El && o == 1 && d == Right)
    ensures var cells, probes := LockCells(k, o), HorizontalProbes(k, o, d);
      forall i :: 0 <= i < |cells| ==> Beside(cells[i], d) in cells || Flip(Beside(cells[i], d)) in probes
  {
  }

  /** The cover property of the sideways tables for Stack, Zee, Ess and Square. */
  lemma CoverLastKinds(k: Kind, o: Orientation, d: Direction)
    requires k !in {El, Jay, Long}
    ensures var cells, probes := LockCells(k, o), HorizontalProbes(k, o, d);
      forall i :: 0 <= i < |cells| ==> Beside(cells[i], d) in cells || Flip(Beside(cells[i], d)) in probes
  {
  }

  /** The sideways test reads nothing but reflected cells the moved brick newly covers. */
  lemma HorizontalProbesOnlyFlippedNewCells(k: Kind, o: Orientation, d: Direction)
    requires !(k == El && o == 1 && d == Right)
    ensures var cells, probes := LockCells(k, o), HorizontalProbes(k, o, d);
      forall j :: 0 <= j < |probes| ==>
        Flip(probes[j]) !in cells && Beside(Flip(probes[j]), if d == Left then Right else Left) in cells
  {
    if d == Left && k in {El, Jay, Long} {
      LeftOnlyFirstKinds(k, o);
    } else if d == Left {
      LeftOnlyLastKinds(k, o);
    } else if k in {El, Jay, Long} {
      RightOnlyFirstKinds(k, o);
    } else {
      RightOnlyLastKinds(k, o);
    }
  }

  /** For El, Jay and Long, each probe of a move to the left, reflected, is a free cell with the brick on its right. */
  lemma LeftOnlyFirstKinds(k: Kind, o: Orientation)
    requires k in {El, Jay, Long}
    ensures var cells, probes := LockCells(k, o), HorizontalProbes(k, o, Left);
      forall j :: 0 <= j < |probes| ==> Flip(probes[j]) !in cells && Beside(Flip(probes[j]), Right) in cells
  {
  }

  /** The same for Stack, Zee, Ess and Square. */
  lemma LeftOnlyLastKinds(k: Kind, o: Orientation)
    requires k !in {El, Jay, Long}
    ensures var cells, probes := LockCells(k, o), HorizontalProbes(k, o, Left);
      forall j :: 0 <= j < |probes| ==> Flip(probes[j]) !in cells && Beside(Flip(probes[j]), Right) in cells
  {
  }

  /** For El (not turned right), Jay and Long, each probe of a move to the right, reflected, is a free cell with the brick on its left. */
  lemma RightOnlyFirstKinds(k: Kind, o: Orientation)
    requires k in {El, Jay, Long} && !(k == El && o == 1)
    ensures var cells, probes := LockCells(k, o), HorizontalProbes(k, o, Right);
      forall j :: 0 <= j < |probes| ==> Flip(probes[j]) !in cells && Beside(Flip(probes[j]), Left) in cells
  {
  }

  /** The same for Stack, Zee, Ess and Square. */
  lemma RightOnlyLastKinds(k: Kind, o: Orientation)
    requires k !in {El, Jay, Long}
    ensures var cells, probes := LockCells(k, o), HorizontalProbes(k, o, Right);
      forall j :: 0 <= j < |probes| ==> Flip(probes[j]) !in cells && Beside(Flip(probes[j]), Left) in cells
  {
  }

  /**
   * El turned right (orientation 1) moving right: two of its three probes
   * read the column to the brick's left, so two of the cells it moves into
   * are never read.
   */
  lemma ElTurnedRightChecksItsLeft()
    ensures var cells, probes := LockCells(El, 1), HorizontalProbes(El, 1, Right);
      (0, -1) in probes && (1, -1) in probes &&
      Beside(cells[0], Right) !in cells && Flip(Beside(cells[0], Right)) !in probes &&
      Beside(cells[3], Right) !in cells && Flip(Beside(cells[3], Right)) !in probes
  {
  }

  /** The cells `validateMove` writes are the cells the brick draws (Jay's drawing is not modelled). */
  lemma LockCellsMatchDrawing(k: Kind, o: Orientation)
    requires k != Jay
    ensures var cells, drawn := LockCells(k, o), Shapes.Drawn(k, o);
      (forall i :: 0 <= i < |cells| ==> cells[i] in drawn) && (forall i :: 0 <= i < |drawn| ==> drawn[i] in cells)
  {
  }

  // ------------------------------------------------------------------
  // Probing the board
  // ------------------------------------------------------------------

  /** The board cell a probe reads for a brick anchored at (row, col). */
  function ProbeAt(row: int, col: int, p: Offset): (int, int)
  {
    (row + p.0, col + p.1)
  }

  /** A probe that reads an empty cell on the board. */
  predicate Free(g: Grid, cell: (int, int))
    requires WellFormed(g)
  {
    InBounds(cell.0, cell.1) && g[cell.0][cell.1] == Empty
  }

  /** Every probe reads an empty cell on the board. */
  predicate AllFree(g: Grid, probes: seq<Offset>, row: int, col: int)
    requires WellFormed(g)
  {
    forall i :: 0 <= i < |probes| ==> Free(g, ProbeAt(row, col, probes[i]))
  }

  /** The three ways a chain of probe tests ends. */
  datatype Outcome =
    | Clear    // every probe read an empty cell
    | Blocked  // the first probe that did not read an empty cell read a brick or the wall
    | Fault    // the first probe that did not read an empty cell left the board: the index exception

  /** The `&&` chain of probe tests, evaluated left to right as Java does. */
  function Scan(g: Grid, probes: seq<Offset>, row: int, col: int): (out: Outcome)
    requires WellFormed(g)
    ensures out == Clear <==> AllFree(g, probes, row, col)
  {
    if probes == [] then Clear
    else
      var cell := ProbeAt(row, col, probes[0]);
      if !InBounds(cell.0, cell.1) then Fault
      else if g[cell.0][cell.1] != Empty then Blocked
      else Scan(g, probes[1..], row, col)
  }

  /** The chain stops at the first probe that does not read an empty cell, and that probe decides. */
  lemma {:induction false} ScanStopsAtFirstNonFree(g: Grid, probes: seq<Offset>, row: int, col: int, i: int)
    requires WellFormed(g) && 0 <= i < |probes|
    requires forall j :: 0 <= j < i ==> Free(g, ProbeAt(row, col, probes[j]))
    requires !Free(g, ProbeAt(row, col, probes[i]))
    ensures Scan(g, probes, row, col) == if InBounds(ProbeAt(row, col, probes[i]).0, ProbeAt(row, col, probes[i]).1) then Blocked else Fault
  {
    if i > 0 {
      assert Free(g, ProbeAt(row, col, probes[0]));
      ScanStopsAtFirstNonFree(g, probes[1..], row, col, i - 1);
    }
  }

  /** Fewer probes, fewer ways to fail. */
  lemma AllFreeSubset(g: Grid, few: seq<Offset>, many: seq<Offset>, row: int, col: int)
    requires WellFormed(g)
    requires forall j :: 0 <= j < |few| ==> few[j] in many
    requires AllFree(g, many, row, col)
    ensures AllFree(g, few, row, col)
  {
    forall j | 0 <= j < |few|
      ensures Free(g, ProbeAt(row, col, few[j]))
    {
      var i :| 0 <= i < |many| && many[i] == few[j];
    }
  }

  // ------------------------------------------------------------------
  // Locking a brick into the board
  // ------------------------------------------------------------------

  /** The board cell `updateBoard` writes for a locked cell (dr, dc): it subtracts 2 from the row. */
  function LockTarget(row: int, col: int, x: Offset): (int, int)
  {
    (row + x.0 - 2, col + x.1)
  }

  /** How many of the cells are written before one whose target is off the board raises. */
  function Reach(cells: seq<Offset>, row: int, col: int): (n: nat)
    ensures n <= |cells|
    ensures forall i :: 0 <= i < n ==> InBounds(LockTarget(row, col, cells[i]).0, LockTarget(row, col, cells[i]).1)
    ensures n < |cells| ==> !InBounds(LockTarget(row, col, cells[n]).0, LockTarget(row, col, cells[n]).1)
  {
    if cells == [] then 0
    else
      var t := LockTarget(row, col, cells[0]);
      if !InBounds(t.0, t.1) then 0 else 1 + Reach(cells[1..], row, col)
  }

  /** The targets of the first n cells. */
  function Targets(cells: seq<Offset>, n: int, row: int, col: int): set<(int, int)>
    requires n <= |cells|
  {
    set i | 0 <= i < n :: LockTarget(row, col, cells[i])
  }

  /** Cell (r, c) is the target of one of the first n cells. */
  predicate Painted(cells: seq<Offset>, n: int, row: int, col: int, r: int, c: int)
    requires n <= |cells|
  {
    (r, c) in Targets(cells, n, row, col)
  }

  /**
   * The `updateBoard` calls of a lock, in order: each target is painted with
   * the colour until one lies off the board, which raises and leaves the
   * cells written so far in place.
   */
  function Paint(g: Grid, cells: seq<Offset>, row: int, col: int, colour: int): (h: Grid)
    requires WellFormed(g)
    ensures WellFormed(h)
    ensures forall r, c :: InBounds(r, c) ==>
      h[r][c] == if Painted(cells, Reach(cells, row, col), row, col, r, c) then colour else g[r][c]
    decreases |cells|
  {
    if cells == [] then g
    else
      var t := LockTarget(row, col, cells[0]);
      if !InBounds(t.0, t.1) then g
      else
        var h := Paint(SetCell(g, t.0, t.1, colour), cells[1..], row, col, colour);
        assert forall r, c :: Painted(cells, Reach(cells, row, col), row, col, r, c) <==>
          (r, c) == t || Painted(cells[1..], Reach(cells[1..], row, col), row, col, r, c) by {
          forall r, c | Painted(cells[1..], Reach(cells[1..], row, col), row, col, r, c)
            ensures Painted(cells, Reach(cells, row, col), row, col, r, c)
          {
            var i :| 0 <= i < Reach(cells[1..], row, col) && LockTarget(row, col, cells[1..][i]) == (r, c);
            assert LockTarget(row, col, cells[i + 1]) == (r, c);
          }
          forall r, c | Painted(cells, Reach(cells, row, col), row, col, r, c) && (r, c) != t
            ensures Painted(cells[1..], Reach(cells[1..], row, col), row, col, r, c)
          {
            var i :| 0 <= i < Reach(cells, row, col) && LockTarget(row, col, cells[i]) == (r, c);
            assert i != 0;
            assert LockTarget(row, col, cells[1..][i - 1]) == (r, c);
          }
        }
        h
  }

  // ------------------------------------------------------------------
  // The engine's state and its steps
  // ------------------------------------------------------------------

  /** `amtStartBrick`: the bricks picked when the game starts; one is played, the rest wait. */
  const StartBricks: int := 4

  /** The board, the falling brick, its phantom and the queue of bricks waiting. */
  datatype Play = Play(board: Grid, current: Piece, phantom: Piece, queue: seq<Piece>)

  /** The bricks the picks produce, in order. */
  function Picked(picks: seq<int>): (bricks: seq<Piece>)
    ensures |bricks| == |picks|
    ensures forall i :: 0 <= i < |picks| ==> bricks[i] == PickBrick(picks[i])
  {
    if picks == [] then [] else [PickBrick(picks[0])] + Picked(picks[1..])
  }

  /**
   * `generateRandomBrick` once the game runs: the head of the queue becomes
   * the falling brick, its clone the phantom, and a new pick joins the tail.
   */
  function Spawn(s: Play, pick: int): (t: Play)
    requires |s.queue| >= 1
    ensures t.board == s.board && |t.queue| == |s.queue|
    ensures t.current == t.phantom
  {
    s.(current := s.queue[0], phantom := s.queue[0], queue := s.queue[1..] + [PickBrick(pick)])
  }

  /** Spawning once per pick. */
  function Spawns(s: Play, picks: seq<int>): (t: Play)
    requires |s.queue| >= 1
    ensures |t.queue| == |s.queue|
    decreases |picks|
  {
    if picks == [] then s else Spawns(Spawn(s, picks[0]), picks[1..])
  }

  /**
   * The queue is first in, first out: the bricks come into play in the
   * order of the queue and then of the picks, each a fixed number of spawns
   * after it was picked.
   */
  lemma {:induction false} QueueIsFirstInFirstOut(s: Play, picks: seq<int>, n: int)
    requires |s.queue| >= 1 && 0 <= n < |picks|
    ensures Spawns(s, picks[..n + 1]).current == (s.queue + Picked(picks))[n]
    decreases n
  {
    var t := Spawn(s, picks[0]);
    assert picks[..n + 1][0] == picks[0];
    assert picks[..n + 1][1..] == picks[1..][..n];
    assert Spawns(s, picks[..n + 1]) == Spawns(t, picks[1..][..n]);
    if n > 0 {
      QueueIsFirstInFirstOut(t, picks[1..], n - 1);
      LineMovesUp(s.queue, picks, n);
    }
  }

  /** After one spawn, the brick n places back in line is n - 1 places back. */
  lemma LineMovesUp(queue: seq<Piece>, picks: seq<int>, n: int)
    requires |queue| >= 1 && 1 <= n < |picks|
    ensures (queue[1..] + [PickBrick(picks[0])] + Picked(picks[1..]))[n - 1] == (queue + Picked(picks))[n]
  {
    var q := |queue|;
    if n < q {
      assert (queue[1..] + [PickBrick(picks[0])] + Picked(picks[1..]))[n - 1] == queue[n];
    } else if n == q {
      assert (queue[1..] + [PickBrick(picks[0])] + Picked(picks[1..]))[n - 1] == PickBrick(picks[0]);
    } else {
      assert (queue[1..] + [PickBrick(picks[0])] + Picked(picks[1..]))[n - 1] == Picked(picks[1..])[n - 1 - q];
    }
  }

  /** Every one of the cells that lies on the board is empty, for a brick anchored at (row, col). */
  predicate CellsClear(g: Grid, cells: seq<Offset>, row: int, col: int)
    requires WellFormed(g)
  {
    forall i :: 0 <= i < |cells| ==>
      var t := LockTarget(row, col, cells[i]);
      InBounds(t.0, t.1) ==> g[t.0][t.1] == Empty
  }

  /** Every cell the brick would write that lies on the board is empty. */
  predicate Unobstructed(g: Grid, p: Piece)
    requires WellFormed(g)
  {
    CellsClear(g, LockCells(p.kind, p.orientation), p.row, p.col)
  }

  /** The probes `validateMove` and `movePhantom` use for a brick where it stands. */
  function FallProbes(p: Piece): seq<Offset>
  {
    GravityProbes(p.kind, p.orientation, p.row > 1)
  }

  /**
   * Falling one row over probes that cover the bottom edge (all of it, or
   * all but cells two rows above the anchor when that row is off the board)
   * keeps a brick's cells clear.
   */
  lemma FallOverProbes(g: Grid, cells: seq<Offset>, high: seq<Offset>, probes: seq<Offset>, row: int, col: int)
    requires WellFormed(g) && CellsClear(g, cells, row, col)
    requires forall i :: 0 <= i < |cells| ==> Beneath(cells[i]) in cells || ProbeUnder(cells[i]) in high
    requires forall j :: 0 <= j < |high| ==> high[j] in probes || (high[j].0 == -2 && row <= 1)
    requires AllFree(g, probes, row, col)
    ensures CellsClear(g, cells, row + 1, col)
  {
    forall i | 0 <= i < |cells|
      ensures var t := LockTarget(row + 1, col, cells[i]); InBounds(t.0, t.1) ==> g[t.0][t.1] == Empty
    {
      if Beneath(cells[i]) in cells {
        var j :| 0 <= j < |cells| && cells[j] == Beneath(cells[i]);
        SettlesOnOwnCell(g, cells, row, col, i, j);
      } else {
        var h :| 0 <= h < |high| && high[h] == ProbeUnder(cells[i]);
        if high[h] in probes {
          var j :| 0 <= j < |probes| && probes[j] == high[h];
          SettlesOnFreeProbe(g, cells[i], probes, row, col, j);
        }
      }
    }
  }

  /** A cell that moves down onto another cell of the same clear brick moves onto an empty cell. */
  lemma SettlesOnOwnCell(g: Grid, cells: seq<Offset>, row: int, col: int, i: int, j: int)
    requires WellFormed(g) && CellsClear(g, cells, row, col)
    requires 0 <= i < |cells| && 0 <= j < |cells| && cells[j] == Beneath(cells[i])
    ensures var t := LockTarget(row + 1, col, cells[i]); InBounds(t.0, t.1) ==> g[t.0][t.1] == Empty
  {
    assert LockTarget(row + 1, col, cells[i]) == LockTarget(row, col, cells[j]);
  }

  /** A cell that moves down onto a cell a free probe read moves onto an empty cell. */
  lemma SettlesOnFreeProbe(g: Grid, cell: Offset, probes: seq<Offset>, row: int, col: int, j: int)
    requires WellFormed(g) && AllFree(g, probes, row, col)
    requires 0 <= j < |probes| && probes[j] == ProbeUnder(cell)
    ensures var t := LockTarget(row + 1, col, cell); InBounds(t.0, t.1) ==> g[t.0][t.1] == Empty
  {
    assert LockTarget(row + 1, col, cell) == ProbeAt(row, col, probes[j]);
  }

  /**
   * A brick the gravity test lets fall moves into empty cells only: if none
   * of its cells overlapped a brick before the step, none does after it.
   */
  lemma FallKeepsBrickClear(g: Grid, p: Piece)
    requires WellFormed(g) && Unobstructed(g, p)
    requires AllFree(g, FallProbes(p), p.row, p.col)
    ensures Unobstructed(g, p.(row := p.row + 1))
  {
    GravityProbesCoverBottomEdge(p.kind, p.orientation);
    LowProbesDropOnlyTopProbe(p.kind, p.orientation);
    FallOverProbes(g, LockCells(p.kind, p.orientation), GravityProbes(p.kind, p.orientation, true), FallProbes(p), p.row, p.col);
  }

  /** A chain of probes under a bottom edge that stops on a cell on the board stops under a cell of that edge. */
  lemma BlockedUnderEdge(g: Grid, cells: seq<Offset>, high: seq<Offset>, probes: seq<Offset>, row: int, col: int)
    requires WellFormed(g) && Scan(g, probes, row, col) == Blocked
    requires forall j :: 0 <= j < |probes| ==> probes[j] in high
    requires forall j :: 0 <= j < |high| ==> Beneath(high[j]) in cells && Beneath(Beneath(high[j])) !in cells
    ensures exists i :: (0 <= i < |cells| && Beneath(cells[i]) !in cells &&
      var t := LockTarget(row, col, Beneath(cells[i])); InBounds(t.0, t.1) && g[t.0][t.1] != Empty)
  {
    var j := FirstNonFree(g, probes, row, col);
    ScanStopsAtFirstNonFree(g, probes, row, col, j);
    var h :| 0 <= h < |high| && high[h] == probes[j];
    var i :| 0 <= i < |cells| && cells[i] == Beneath(probes[j]);
    assert LockTarget(row, col, Beneath(cells[i])) == ProbeAt(row, col, probes[j]);
  }

  /**
   * A brick locks only when it rests on something: when the gravity test
   * does not let it fall, and did not leave the board, some cell under its
   * bottom edge holds a brick or the wall.
   */
  lemma LocksOnlyWhenResting(g: Grid, p: Piece)
    requires WellFormed(g) && Scan(g, FallProbes(p), p.row, p.col) == Blocked
    ensures var cells := LockCells(p.kind, p.orientation);
      exists i :: (0 <= i < |cells| && Beneath(cells[i]) !in cells &&
        var t := LockTarget(p.row, p.col, Beneath(cells[i])); InBounds(t.0, t.1) && g[t.0][t.1] != Empty)
  {
    LowProbesDropOnlyTopProbe(p.kind, p.orientation);
    GravityProbesOnlyUnderBottomEdge(p.kind, p.orientation);
    BlockedUnderEdge(g, LockCells(p.kind, p.orientation), GravityProbes(p.kind, p.orientation, true), FallProbes(p), p.row, p.col);
  }

  /** The first probe that does not read an empty cell, when there is one. */
  function FirstNonFree(g: Grid, probes: seq<Offset>, row: int, col: int): (j: int)
    requires WellFormed(g) && !AllFree(g, probes, row, col)
    ensures 0 <= j < |probes| && !Free(g, ProbeAt(row, col, probes[j]))
    ensures forall i :: 0 <= i < j ==> Free(g, ProbeAt(row, col, probes[i]))
  {
    if !Free(g, ProbeAt(row, col, probes[0])) then 0
    else 1 + FirstNonFree(g, probes[1..], row, col)
  }

  // ------------------------------------------------------------------
  // validateMove
  // ------------------------------------------------------------------

  /** The order of the `instanceof` blocks of `validateMove`. */
  const KindOrder: seq<Kind> := [El, Jay, Long, Stack, Zee, Square, Ess]

  /** The position of a kind's block. */
  function KindIndex(k: Kind): (i: nat)
    ensures i < |KindOrder| && KindOrder[i] == k
    ensures forall j :: 0 <= j < |KindOrder| && KindOrder[j] == k ==> j == i
  {
    match k
    case El => 0
    case Jay => 1
    case Long => 2
    case Stack => 3
    case Zee => 4
    case Square => 5
    case Ess => 6
  }

  /** What one block of `validateMove` leaves: the state, the picks not yet used, and whether an index exception ended the call. */
  datatype BlockResult = BlockResult(play: Play, picks: seq<int>, raised: bool)

  /**
   * The block of `validateMove` for bricks of kind k.  A brick of another
   * kind is left alone.  Otherwise the gravity probes decide: all empty, the
   * brick moves down a row; a probe off the board, the call ends; a brick or
   * the wall under it, the brick is written into the board and, unless a
   * write left the board, the next brick is spawned.
   */
  function Block(k: Kind, s: Play, picks: seq<int>): (r: BlockResult)
    requires WellFormed(s.board) && |s.queue| >= 1 && |picks| >= 1
    ensures WellFormed(r.play.board) && |r.play.queue| == |s.queue|
    ensures r.picks == picks || r.picks == picks[1..]
  {
    var p := s.current;
    if p.kind != k then BlockResult(s, picks, false)
    else
      match Scan(s.board, FallProbes(p), p.row, p.col)
      case Clear => BlockResult(s.(current := p.(row := p.row + 1)), picks, false)
      case Fault => BlockResult(s, picks, true)
      case Blocked =>
        var cells := LockCells(k, p.orientation);
        var board := Paint(s.board, cells, p.row, p.col, Colour(k));
        if Reach(cells, p.row, p.col) < |cells| then BlockResult(s.(board := board), picks, true)
        else BlockResult(Spawn(s.(board := board), picks[0]), picks[1..], false)
  }

  /** The blocks of kinds ks in order; an exception skips the rest. */
  function Sweep(ks: seq<Kind>, s: Play, picks: seq<int>): (r: BlockResult)
    requires WellFormed(s.board) && |s.queue| >= 1 && |picks| >= |ks|
    ensures WellFormed(r.play.board) && |r.play.queue| == |s.queue|
    ensures |picks| - |ks| <= |r.picks| <= |picks| && r.picks == picks[|picks| - |r.picks|..]
    decreases |ks|
  {
    if ks == [] then BlockResult(s, picks, false)
    else
      var b := Block(ks[0], s, picks);
      if b.raised then b
      else
        var r := Sweep(ks[1..], b.play, b.picks);
        SuffixOfSuffix(picks, b.picks, r.picks);
        r
  }

  /** A suffix of the picks, or of the picks after the first, is a suffix of the picks. */
  lemma SuffixOfSuffix(picks: seq<int>, mid: seq<int>, rest: seq<int>)
    requires |picks| >= 1 && (mid == picks || mid == picks[1..])
    requires |rest| <= |mid| && rest == mid[|mid| - |rest|..]
    ensures rest == picks[|picks| - |rest|..]
  {
    if mid != picks {
      assert mid[|mid| - |rest|..] == picks[|picks| - |rest|..];
    }
  }

  /** The seven blocks of `validateMove` (its game-over test is the engine's). */
  function Gravity(s: Play, picks: seq<int>): (r: BlockResult)
    requires WellFormed(s.board) && |s.queue| >= 1 && |picks| >= |KindOrder|
    ensures WellFormed(r.play.board) && |r.play.queue| == |s.queue|
    ensures |picks| - |KindOrder| <= |r.picks| <= |picks| && r.picks == picks[|picks| - |r.picks|..]
  {
    Sweep(KindOrder, s, picks)
  }

  /** Blocks for other kinds than the falling brick's change nothing. */
  lemma {:induction false} SweepSkipsOtherKinds(ks: seq<Kind>, s: Play, picks: seq<int>)
    requires WellFormed(s.board) && |s.queue| >= 1 && |picks| >= |ks|
    requires forall i :: 0 <= i < |ks| ==> ks[i] != s.current.kind
    ensures Sweep(ks, s, picks) == BlockResult(s, picks, false)
    decreases |ks|
  {
    if ks != [] {
      SweepSkipsOtherKinds(ks[1..], s, picks);
    }
  }

  /** Sweeping a list of blocks is sweeping its head and then its tail. */
  lemma {:induction false} SweepSplits(pre: seq<Kind>, post: seq<Kind>, s: Play, picks: seq<int>)
    requires WellFormed(s.board) && |s.queue| >= 1 && |picks| >= |pre| + |post|
    ensures var a := Sweep(pre, s, picks);
      Sweep(pre + post, s, picks) == if a.raised then a else Sweep(post, a.play, a.picks)
    decreases |pre|
  {
    if pre == [] {
      assert pre + post == post;
    } else {
      assert (pre + post)[1..] == pre[1..] + post;
      var b := Block(pre[0], s, picks);
      if !b.raised {
        SweepSplits(pre[1..], post, b.play, b.picks);
      }
    }
  }

  /**
   * `validateMove` examines the falling brick in its own kind's block only;
   * the blocks after it see whatever that block leaves, so a brick spawned
   * by a lock is examined again in the same call when its kind's block comes
   * later, and skipped when it came earlier.
   */
  lemma GravityFromOwnBlock(s: Play, picks: seq<int>)
    requires WellFormed(s.board) && |s.queue| >= 1 && |picks| >= |KindOrder|
    ensures var i := KindIndex(s.current.kind);
      var b := Block(s.current.kind, s, picks);
      Gravity(s, picks) == if b.raised then b else Sweep(KindOrder[i + 1..], b.play, b.picks)
  {
    var i := KindIndex(s.current.kind);
    assert KindOrder == KindOrder[..i] + ([KindOrder[i]] + KindOrder[i + 1..]);
    SweepSplits(KindOrder[..i], [KindOrder[i]] + KindOrder[i + 1..], s, picks);
    SweepSkipsOtherKinds(KindOrder[..i], s, picks);
    SweepSplits([KindOrder[i]], KindOrder[i + 1..], s, picks);
  }

  /** A brick that the gravity test lets fall moves down exactly one row and nothing else changes. */
  lemma FreeBrickFallsOneRow(s: Play, picks: seq<int>)
    requires WellFormed(s.board) && |s.queue| >= 1 && |picks| >= |KindOrder|
    requires AllFree(s.board, FallProbes(s.current), s.current.row, s.current.col)
    ensures Gravity(s, picks) == BlockResult(s.(current := s.current.(row := s.current.row + 1)), picks, false)
  {
    GravityFromOwnBlock(s, picks);
    var i := KindIndex(s.current.kind);
    var b := Block(s.current.kind, s, picks);
    SweepSkipsOtherKinds(KindOrder[i + 1..], b.play, b.picks);
  }

  /** A brick that locks with every cell on the board is replaced by the head of the queue, using one pick. */
  lemma LockSpawns(s: Play, picks: seq<int>)
    requires WellFormed(s.board) && |s.queue| >= 1 && |picks| >= 1
    requires Scan(s.board, FallProbes(s.current), s.current.row, s.current.col) == Blocked
    requires Reach(LockCells(s.current.kind, s.current.orientation), s.current.row, s.current.col) == 4
    ensures var b := Block(s.current.kind, s, picks);
      b.play.current == s.queue[0] && b.play.phantom == s.queue[0] && b.picks == picks[1..] && !b.raised
  {
  }

  /**
   * The board a lock leaves: every cell the lock reaches before a write
   * leaves the board takes the brick's colour, and every other cell keeps
   * its code.  The call goes on only when all four cells were written.
   */
  lemma LockPaintsBrick(s: Play, picks: seq<int>)
    requires WellFormed(s.board) && |s.queue| >= 1 && |picks| >= 1
    requires Scan(s.board, FallProbes(s.current), s.current.row, s.current.col) == Blocked
    ensures var p := s.current;
      var cells := LockCells(p.kind, p.orientation);
      var b := Block(p.kind, s, picks);
      (b.raised <==> Reach(cells, p.row, p.col) < 4) &&
      forall r, c :: InBounds(r, c) ==>
        b.play.board[r][c] == if Painted(cells, Reach(cells, p.row, p.col), p.row, p.col, r, c) then Colour(p.kind) else s.board[r][c]
  {
  }

  /** A probe off the board ends `validateMove` with nothing changed. */
  lemma FaultChangesNothing(s: Play, picks: seq<int>)
    requires WellFormed(s.board) && |s.queue| >= 1 && |picks| >= |KindOrder|
    requires Scan(s.board, FallProbes(s.current), s.current.row, s.current.col) == Fault
    ensures Gravity(s, picks) == BlockResult(s, picks, true)
  {
    GravityFromOwnBlock(s, picks);
  }

  /**
   * A brick that locks is replaced by the head of the queue.  When that
   * brick's kind has its block at or before the locked brick's, the call
   * ends with it where it spawned.
   */
  lemma LockedBrickReplacedEarlierKind(s: Play, picks: seq<int>)
    requires WellFormed(s.board) && |s.queue| >= 1 && |picks| >= |KindOrder|
    requires Scan(s.board, FallProbes(s.current), s.current.row, s.current.col) == Blocked
    requires Reach(LockCells(s.current.kind, s.current.orientation), s.current.row, s.current.col) == 4
    requires KindIndex(s.queue[0].kind) <= KindIndex(s.current.kind)
    ensures Gravity(s, picks) == Block(s.current.kind, s, picks)
  {
    var i := KindIndex(s.current.kind);
    var b := Block(s.current.kind, s, picks);
    var later := KindOrder[i + 1..];
    LockSpawns(s, picks);
    assert b == BlockResult(b.play, b.picks, false) && b.play.current == s.queue[0];
    NoLaterBlock(i, s.queue[0].kind, later);
    SweepSkipsOtherKinds(later, b.play, b.picks);
    assert Sweep(later, b.play, b.picks) == b;
    GravityFromOwnBlock(s, picks);
  }

  /** A kind whose block is at or before position i has no block after it. */
  lemma NoLaterBlock(i: int, k: Kind, later: seq<Kind>)
    requires KindIndex(k) <= i < |KindOrder| && later == KindOrder[i + 1..]
    ensures forall m :: 0 <= m < |later| ==> later[m] != k
  {
    forall m | 0 <= m < |later|
      ensures later[m] != k
    {
      assert later[m] == KindOrder[i + 1 + m];
    }
  }

  /**
   * When the new brick's kind has its block after the locked brick's, that
   * block examines it in the same call.
   */
  lemma LockedBrickReplacedLaterKind(s: Play, picks: seq<int>)
    requires WellFormed(s.board) && |s.queue| >= 1 && |picks| >= |KindOrder|
    requires Scan(s.board, FallProbes(s.current), s.current.row, s.current.col) == Blocked
    requires Reach(LockCells(s.current.kind, s.current.orientation), s.current.row, s.current.col) == 4
    requires KindIndex(s.queue[0].kind) > KindIndex(s.current.kind)
    ensures var b := Block(s.current.kind, s, picks);
      Gravity(s, picks) == Sweep(KindOrder[KindIndex(s.queue[0].kind)..], b.play, b.picks)
  {
    var i, j := KindIndex(s.current.kind), KindIndex(s.queue[0].kind);
    var b := Block(s.current.kind, s, picks);
    LockSpawns(s, picks);
    GravityFromOwnBlock(s, picks);
    SkipToOwnBlock(KindOrder, i + 1, j, b.play, b.picks);
  }

  /** The blocks from position i on act as the blocks from the falling brick's own block j on, when none in between is its kind. */
  lemma SkipToOwnBlock(ks: seq<Kind>, i: int, j: int, s: Play, picks: seq<int>)
    requires 0 <= i <= j <= |ks|
    requires WellFormed(s.board) && |s.queue| >= 1 && |picks| >= |ks| - i
    requires forall m :: i <= m < j ==> ks[m] != s.current.kind
    ensures Sweep(ks[i..], s, picks) == Sweep(ks[j..], s, picks)
  {
    var pre, post := ks[i..j], ks[j..];
    assert ks[i..] == pre + post;
    assert forall m :: 0 <= m < |pre| ==> pre[m] == ks[i + m];
    SweepSplits(pre, post, s, picks);
    SweepSkipsOtherKinds(pre, s, picks);
  }

  // ------------------------------------------------------------------
  // validateRotate, validateHorizontal, moveHorizontal
  // ------------------------------------------------------------------

  /**
   * `validateRotate`: if every rotation probe reads an empty cell the brick
   * turns, and the phantom is put back at the top (row 2) and turns too;
   * otherwise, or when a probe leaves the board, nothing changes.
   */
  function Rotate(s: Play): (t: Play)
    requires WellFormed(s.board)
    ensures t.board == s.board && t.queue == s.queue
    ensures t.current.kind == s.current.kind && t.current.row == s.current.row && t.current.col == s.current.col
  {
    var p := s.current;
    if AllFree(s.board, RotateProbes(p.kind, p.orientation), p.row, p.col) then
      s.(current := p.(orientation := Rotated(p.orientation)),
         phantom := s.phantom.(row := ResetRow, orientation := Rotated(s.phantom.orientation)))
    else s
  }

  /** A brick turns exactly when its rotation probes read empty cells; a Square always turns. */
  lemma RotateTurnsIffProbesFree(s: Play)
    requires WellFormed(s.board)
    ensures var p := s.current;
      (Rotate(s).current.orientation == Rotated(p.orientation) <==> AllFree(s.board, RotateProbes(p.kind, p.orientation), p.row, p.col)) &&
      (Rotate(s).current.orientation == p.orientation <==> !AllFree(s.board, RotateProbes(p.kind, p.orientation), p.row, p.col)) &&
      (p.kind == Square ==> Rotate(s).current.orientation == Rotated(p.orientation))
  {
    FourRotationsRestore(s.current.orientation);
  }

  /** `validateHorizontal`: every probe of the move reads an empty cell on the board. */
  predicate CanShift(g: Grid, p: Piece, d: Direction)
    requires WellFormed(g)
    ensures CanShift(g, p, d) <==> Scan(g, HorizontalProbes(p.kind, p.orientation, d), p.row, p.col) == Clear
  {
    AllFree(g, HorizontalProbes(p.kind, p.orientation, d), p.row, p.col)
  }

  /**
   * One half of `moveHorizontal`: when the move is allowed the brick steps
   * one column, and the phantom is put back at the top (row 2) and steps too.
   */
  function Shift(s: Play, d: Direction): (t: Play)
    requires WellFormed(s.board)
    ensures t.board == s.board && t.queue == s.queue
    ensures t.current.kind == s.current.kind && t.current.orientation == s.current.orientation && t.current.row == s.current.row
  {
    if CanShift(s.board, s.current, d) then
      s.(current := s.current.(col := s.current.col + Step(d)),
         phantom := s.phantom.(row := ResetRow, col := s.phantom.col + Step(d)))
    else s
  }

  /**
   * A turn allowed by the rotation probes turns the brick in place and puts
   * the phantom back at row 2, turned the same way; a turn they refuse
   * changes nothing.
   */
  lemma RotateTurnsBrickAndPhantom(s: Play)
    requires WellFormed(s.board)
    ensures var p := s.current;
      AllFree(s.board, RotateProbes(p.kind, p.orientation), p.row, p.col) ==>
        Rotate(s) == s.(current := p.(orientation := Rotated(p.orientation)),
          phantom := s.phantom.(row := ResetRow, orientation := Rotated(s.phantom.orientation)))
    ensures var p := s.current;
      !AllFree(s.board, RotateProbes(p.kind, p.orientation), p.row, p.col) ==> Rotate(s) == s
  {
  }

  /**
   * An allowed sideways move steps the brick one column and puts the phantom
   * back at row 2, one column over too; a refused one changes nothing.
   */
  lemma ShiftStepsBrickAndPhantom(s: Play, d: Direction)
    requires WellFormed(s.board)
    ensures CanShift(s.board, s.current, d) ==>
      Shift(s, d).current == s.current.(col := s.current.col + Step(d)) &&
      Shift(s, d).phantom == s.phantom.(row := ResetRow, col := s.phantom.col + Step(d)) &&
      Shift(s, d).board == s.board && Shift(s, d).queue == s.queue
    ensures !CanShift(s.board, s.current, d) ==> Shift(s, d) == s
  {
  }

  /** `KeyEvent.VK_LEFT` and `KeyEvent.VK_RIGHT`. */
  const LeftKey: int := 37
  const RightKey: int := 39

  /** `moveHorizontal`: the left key's move, then the right key's move checked against the state it left. */
  function MoveHorizontal(s: Play, keys: set<int>): (t: Play)
    requires WellFormed(s.board)
    ensures t.board == s.board && t.queue == s.queue
    ensures t.current.kind == s.current.kind && t.current.orientation == s.current.orientation && t.current.row == s.current.row
  {
    var s1 := if LeftKey in keys then Shift(s, Left) else s;
    if RightKey in keys then Shift(s1, Right) else s1
  }

  /**
   * Where the brick ends up after `moveHorizontal`: one column left or right
   * when only that key is held and its move is allowed, back where it was
   * when both are held and both moves are allowed, in place when no move
   * key is held.
   */
  lemma MoveHorizontalColumn(s: Play, keys: set<int>)
    requires WellFormed(s.board)
    ensures LeftKey !in keys && RightKey !in keys ==> MoveHorizontal(s, keys) == s
    ensures LeftKey in keys && RightKey !in keys ==>
      MoveHorizontal(s, keys).current.col == s.current.col - (if CanShift(s.board, s.current, Left) then 1 else 0)
    ensures LeftKey !in keys && RightKey in keys ==>
      MoveHorizontal(s, keys).current.col == s.current.col + (if CanShift(s.board, s.current, Right) then 1 else 0)
    ensures (LeftKey in keys && RightKey in keys && CanShift(s.board, s.current, Left) &&
      CanShift(s.board, s.current.(col := s.current.col - 1), Right)) ==>
      MoveHorizontal(s, keys).current == s.current
  {
  }

  /**
   * Every combination of held keys: `left` and `right` say whether each
   * key's move happens, the right move being checked after the left one.
   * The brick ends `right - left` columns over; if either moved, the phantom
   * is back at row 2 and follows the brick's column change, and if neither
   * moved nothing changed.
   */
  lemma MoveHorizontalSteps(s: Play, keys: set<int>)
    requires WellFormed(s.board)
    ensures var left := if LeftKey in keys && CanShift(s.board, s.current, Left) then 1 else 0;
      var right := if RightKey in keys && CanShift(s.board, s.current.(col := s.current.col - left), Right) then 1 else 0;
      var t := MoveHorizontal(s, keys);
      t.current == s.current.(col := s.current.col - left + right) &&
      (left + right > 0 ==> t.phantom == s.phantom.(row := ResetRow, col := s.phantom.col - left + right)) &&
      (left + right == 0 ==> t == s)
  {
    var left := if LeftKey in keys && CanShift(s.board, s.current, Left) then 1 else 0;
    ShiftStepsBrickAndPhantom(s, Left);
    var s1 := if LeftKey in keys then Shift(s, Left) else s;
    assert s1.current == s.current.(col := s.current.col - left) && s1.board == s.board;
    ShiftStepsBrickAndPhantom(s1, Right);
  }

  // ------------------------------------------------------------------
  // movePhantom
  // ------------------------------------------------------------------

  /** Lets a brick fall row by row while every probe reads an empty cell. */
  function DropWith(g: Grid, p: Piece, probes: seq<Offset>): (q: Piece)
    requires WellFormed(g) && |probes| >= 1 && probes[0].0 >= -1
    ensures q == p.(row := q.row) && q.row >= p.row
    ensures !AllFree(g, probes, q.row, q.col)
    ensures forall r :: p.row <= r < q.row ==> AllFree(g, probes, r, p.col)
    decreases Rows + 1 - p.row
  {
    if AllFree(g, probes, p.row, p.col) then
      assert Free(g, ProbeAt(p.row, p.col, probes[0]));
      DropWith(g, p.(row := p.row + 1), probes)
    else p
  }

  /**
   * `movePhantom`: the probes of `validateMove`, chosen once from the row the
   * phantom starts on, checked again after every step down.
   */
  function Drop(g: Grid, p: Piece): (q: Piece)
    requires WellFormed(g)
    ensures q == p.(row := q.row) && q.row >= p.row
    ensures Scan(g, FallProbes(p), q.row, q.col) != Clear
    ensures forall r :: p.row <= r < q.row ==> Scan(g, FallProbes(p), r, p.col) == Clear
  {
    DropWith(g, p, FallProbes(p))
  }

  /** Dropping a dropped phantom leaves it where it is. */
  lemma DropIdempotent(g: Grid, p: Piece)
    requires WellFormed(g)
    ensures Drop(g, Drop(g, p)) == Drop(g, p)
  {
    var q := Drop(g, p);
    if FallProbes(q) != FallProbes(p) {
      assert p.row <= 1 < q.row;
      LowProbesDropOnlyTopProbe(p.kind, p.orientation);
      if AllFree(g, FallProbes(q), q.row, q.col) {
        AllFreeSubset(g, FallProbes(p), FallProbes(q), q.row, q.col);
      }
    }
  }

  /**
   * The phantom comes to rest where the gravity test fails.  Once below row 1
   * it passes only rows `validateMove` would move the brick down from; a flat
   * Zee or Ess dropped from row 1 keeps its two-probe test all the way down,
   * so this is stated for phantoms below row 1.
   */
  lemma DropStopsWhereGravityStops(g: Grid, p: Piece)
    requires WellFormed(g)
    ensures var q := Drop(g, p); Scan(g, FallProbes(q), q.row, q.col) != Clear
    ensures var q := Drop(g, p);
      p.row > 1 ==> forall r :: p.row <= r < q.row ==> Scan(g, FallProbes(p.(row := r)), r, p.col) == Clear
  {
    DropIdempotent(g, p);
  }

  // ------------------------------------------------------------------
  // validateGameOver, checkForLine
  // ------------------------------------------------------------------

  /** `validateGameOver`: some cell of the top row is not empty. */
  predicate GameOver(g: Grid)
    requires WellFormed(g)
    ensures GameOver(g) <==> g[0] != seq(Cols, c => Empty)
  {
    exists c :: 0 <= c < Cols && g[0][c] != Empty
  }

  /** `scoreIncrement`. */
  const ScoreIncrement: int := 100

  /** The board, score and line multiplier `checkForLine` leaves. */
  datatype Tally = Tally(board: Grid, score: int, amtLine: int)

  /**
   * `checkForLine`: the lowest full row is scored at `100 * amtLine` and
   * deleted; `deleteLine` then raises, so no other row is looked at.
   */
  function ClearLine(t: Tally): (r: Tally)
    requires WellFormed(t.board)
    ensures WellFormed(r.board)
  {
    match LowestFullRow(t.board, |t.board| - 1)
    case NoFullRow => t
    case FullAt(row) => Tally(DeleteRow(t.board, row), t.score + ScoreIncrement * t.amtLine, t.amtLine + 1)
  }

  /**
   * A call changes something exactly when some row is full.  It then scores
   * `100 * amtLine`, raises the multiplier by one and removes the lowest full
   * row: the rows below it stay, the rows above it move down one place.
   * With no full row it changes nothing.
   */
  lemma ClearLineRemovesLowestFullRow(t: Tally)
    requires WellFormed(t.board)
    ensures (ClearLine(t).score != t.score || ClearLine(t).amtLine != t.amtLine) <==>
      exists r :: 0 <= r < Rows && FullRow(t.board[r])
    ensures (forall r :: 0 <= r < Rows ==> !FullRow(t.board[r])) ==> ClearLine(t) == t
    ensures forall r :: 0 <= r < Rows && FullRow(t.board[r]) && (forall i :: r < i < Rows ==> !FullRow(t.board[i])) ==>
      ClearLine(t).score == t.score + ScoreIncrement * t.amtLine && ClearLine(t).amtLine == t.amtLine + 1 &&
      ClearLine(t).board[r + 1..] == t.board[r + 1..] && ClearLine(t).board[1..r + 1] == t.board[..r] &&
      ClearLine(t).board[0] == t.board[0]
  {
    match LowestFullRow(t.board, |t.board| - 1)
    case NoFullRow =>
    case FullAt(row) =>
      DeleteRowContents(t.board, row);
  }

  /**
   * The wall `startGame` lays along the bottom row holds no brick, so it is
   * never full: a line clear removes a row above it and leaves it in place.
   */
  lemma WallSurvivesClearLine(t: Tally)
    requires WellFormed(t.board) && t.board[WallRow] == seq(Cols, c => Wall)
    ensures ClearLine(t).board[WallRow] == t.board[WallRow]
  {
    WallRowNotFull(t.board[WallRow]);
    match LowestFullRow(t.board, |t.board| - 1)
    case NoFullRow =>
    case FullAt(row) =>
      assert row < WallRow;
  }
}
