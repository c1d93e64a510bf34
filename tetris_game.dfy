/**
 * The game engine (`TetrisGame`): a 20 x 10 array of cell codes, the score
 * and level counters, the falling brick, its phantom and the queue of
 * upcoming bricks.  Every method changes the array and fields in place and
 * is proved to leave exactly the state the matching function of `Rules`
 * describes.
 *
 * `java.util.Random` is replaced by picks the caller supplies (each in
 * 0..6 selects a kind as `pickBrick` does); index exceptions the source
 * catches become explicit bounds checks.
 */
module TetrisGame {
  import opened Geometry
  import opened Board
  import opened Rules
  import opened SaveFormat

  class Game {
    const board: array2<int>
    var score: int
    /** 0 until the first bricks are generated, then 1. */
    var state: int
    var level: int
    var arcLength: int
    /** The fall speed, as `setFallSpeed` records it for saving. */
    var speed: int
    /** The multiplier of the next line's score; `deleteLine` raises it. */
    var amtLine: int
    var current: Piece
    var phantom: Piece
    var queue: seq<Piece>
    /** `validateGameOver` held at the start of a move: the source asks for a name and exits. */
    var over: bool

    /** The array as a grid value. */
    function Cells(): (g: Grid)
      reads board
      requires board.Length0 == Rows && board.Length1 == Cols
      ensures WellFormed(g)
      ensures forall r, c :: InBounds(r, c) ==> g[r][c] == board[r, c]
    {
      seq(Rows, r requires 0 <= r < Rows reads board =>
        seq(Cols, c requires 0 <= c < Cols reads board => board[r, c]))
    }

    /** The phantom has the falling brick's kind, orientation and column. */
    predicate PhantomTracks()
      reads this
    {
      phantom.kind == current.kind && phantom.orientation == current.orientation && phantom.col == current.col
    }

    predicate Valid()
      reads this
    {
      board.Length0 == Rows && board.Length1 == Cols &&
      (state == 0 || state == 1) &&
      (state == 0 ==> queue == []) &&
      (state == 1 ==> |queue| == StartBricks - 1 && PhantomTracks())
    }

    /** The engine's state as a `Rules.Play` value. */
    function Snapshot(): (s: Play)
      reads this, board
      requires Valid()
      ensures WellFormed(s.board)
    {
      Play(Cells(), current, phantom, queue)
    }

    /** `new TetrisGame(20, 10)`: an empty board and the initial counters; no brick yet. */
    constructor ()
      ensures Valid() && state == 0 && !over
      ensures forall r, c :: InBounds(r, c) ==> board[r, c] == Empty
      ensures score == 0 && level == 1 && arcLength == 0 && speed == 0 && amtLine == 1
    {
      board := new int[Rows, Cols]((r, c) => Empty);
      score, state, level, arcLength, speed, amtLine := 0, 0, 1, 0, 0, 1;
      current, phantom, queue := PickBrick(0), PickBrick(0), [];
      over := false;
    }

    /** `updateBoard`: writes a cell two rows above the given row; `ok` is false where the source raises. */
    method UpdateBoard(ySpot: int, xSpot: int, colour: int) returns (ok: bool)
      requires Valid()
      modifies board
      ensures ok <==> InBounds(ySpot - 2, xSpot)
      ensures forall r, c :: InBounds(r, c) ==>
        board[r, c] == if ok && r == ySpot - 2 && c == xSpot then colour else old(board[r, c])
    {
      if !InBounds(ySpot - 2, xSpot) {
        return false;
      }
      board[ySpot - 2, xSpot] := colour;
      return true;
    }

    /** A chain of probe tests, left to right, as the `&&` chains of the source evaluate it. */
    method ScanBoard(probes: seq<Offset>, row: int, col: int) returns (out: Outcome)
      requires Valid()
      ensures out == Scan(Cells(), probes, row, col)
    {
      var i := 0;
      while i < |probes|
        invariant 0 <= i <= |probes|
        invariant Scan(Cells(), probes, row, col) == Scan(Cells(), probes[i..], row, col)
      {
        var cell := ProbeAt(row, col, probes[i]);
        if !InBounds(cell.0, cell.1) {
          return Fault;
        }
        if board[cell.0, cell.1] != Empty {
          return Blocked;
        }
        assert probes[i..][1..] == probes[i + 1..];
        i := i + 1;
      }
      return Clear;
    }

    /**
     * The `updateBoard` calls of a lock, in order, stopping at the first that
     * raises; `ok` says whether every cell was written.
     */
    method LockBrick(cells: seq<Offset>, row: int, col: int, colour: int) returns (ok: bool)
      requires Valid()
      modifies board
      ensures ok <==> Reach(cells, row, col) == |cells|
      ensures Cells() == Paint(old(Cells()), cells, row, col, colour)
    {
      ghost var g0 := Cells();
      ghost var painted: set<(int, int)> := {};
      var n := Reach(cells, row, col);
      var i := 0;
      ok := true;
      while i < |cells|
        invariant 0 <= i <= n
        invariant painted == Targets(cells, i, row, col)
        invariant forall r, c :: InBounds(r, c) ==>
          board[r, c] == if (r, c) in painted then colour else old(board[r, c])
      {
        var t := LockTarget(row, col, cells[i]);
        ok := UpdateBoard(t.0 + 2, t.1, colour);
        if !ok {
          break;
        }
        TargetsStep(cells, i, row, col);
        painted := painted + {t};
        i := i + 1;
      }
      assert i == n;
      ghost var g1 := Paint(g0, cells, row, col, colour);
      assert forall r, c :: InBounds(r, c) ==> g0[r][c] == old(board[r, c]);
      GridEquality(Cells(), g1);
    }

    /**
     * `generateRandomBrick`.  The first call picks four bricks, plays the
     * first and queues the rest; later calls play the head of the queue and
     * queue one new pick.  The phantom is a clone of the new brick.
     */
    method GenerateRandomBrick(picks: seq<int>)
      requires Valid()
      requires |picks| >= if state == 0 then StartBricks else 1
      modifies this
      ensures Valid() && state == 1 && over == old(over)
      ensures old(state) == 0 ==> current == PickBrick(picks[0]) && queue == Picked(picks[1..StartBricks])
      ensures old(state) == 1 ==> Snapshot() == Spawn(old(Snapshot()), picks[0])
      ensures phantom == current
      ensures score == old(score) && level == old(level) && arcLength == old(arcLength)
      ensures speed == old(speed) && amtLine == old(amtLine)
    {
      if state == 0 {
        var added := PickBricks(picks, StartBricks);
        assert picks[..StartBricks][1..] == picks[1..StartBricks];
        PickedTail(picks[..StartBricks]);
        current := added[0];
        queue := added[1..];
        phantom := current;
        state := 1;
      } else {
        ghost var s0 := Snapshot();
        current := queue[0];
        queue := queue[1..];
        phantom := current;
        queue := queue + [PickBrick(picks[0])];
        assert Snapshot() == Spawn(s0, picks[0]);
      }
    }

    /** `validateGameOver`: scans the top row for a cell that is not empty. */
    method ValidateGameOver() returns (b: bool)
      requires Valid()
      ensures b <==> GameOver(Cells())
    {
      var counter := 0;
      while counter < Cols
        invariant 0 <= counter <= Cols
        invariant forall c :: 0 <= c < counter ==> board[0, c] == Empty
      {
        if board[0, counter] != Empty {
          assert Cells()[0][counter] != Empty;
          return true;
        }
        counter := counter + 1;
      }
      return false;
    }

    /** One `instanceof` block of `validateMove`. */
    method KindBlock(k: Kind, picks: seq<int>) returns (raised: bool, rest: seq<int>)
      requires Valid() && state == 1 && |picks| >= 1
      modifies this, board
      ensures Valid() && state == 1 && over == old(over)
      ensures var b := Block(k, old(Snapshot()), picks);
        Snapshot() == b.play && rest == b.picks && raised == b.raised
      ensures score == old(score) && level == old(level) && arcLength == old(arcLength)
      ensures speed == old(speed) && amtLine == old(amtLine)
    {
      rest := picks;
      raised := false;
      if current.kind != k {
        return;
      }
      var out := ScanBoard(FallProbes(current), current.row, current.col);
      if out == Clear {
        current := current.(row := current.row + 1);
      } else if out == Fault {
        raised := true;
      } else {
        var ok := LockBrick(LockCells(k, current.orientation), current.row, current.col, Colour(k));
        if !ok {
          raised := true;
        } else {
          GenerateRandomBrick(picks);
          rest := picks[1..];
        }
      }
    }

    /**
     * `validateMove`: when the top row is occupied the game ends; otherwise
     * the seven blocks run in the source's order, an index exception ending
     * the call.  `rest` is what is left of the picks.
     */
    method ValidateMove(picks: seq<int>) returns (rest: seq<int>)
      requires Valid() && state == 1 && |picks| >= |KindOrder|
      modifies this, board
      ensures Valid() && state == 1
      ensures old(GameOver(Cells())) ==> over && Snapshot() == old(Snapshot()) && rest == picks
      ensures !old(GameOver(Cells())) ==>
        (over == old(over) && Snapshot() == Gravity(old(Snapshot()), picks).play && rest == Gravity(old(Snapshot()), picks).picks)
      ensures score == old(score) && level == old(level) && arcLength == old(arcLength)
      ensures speed == old(speed) && amtLine == old(amtLine)
    {
      var gameOver := ValidateGameOver();
      if gameOver {
        over := true;
        return picks;
      }
      rest := RunBlocks(KindOrder, picks);
    }

    /**
     * The `instanceof` blocks of `validateMove` one after another, each
     * seeing the state the previous one left, until one raises.
     */
    method RunBlocks(ks: seq<Kind>, picks: seq<int>) returns (rest: seq<int>)
      requires Valid() && state == 1 && |picks| >= |ks|
      modifies this, board
      ensures Valid() && state == 1 && over == old(over)
      ensures Snapshot() == Sweep(ks, old(Snapshot()), picks).play && rest == Sweep(ks, old(Snapshot()), picks).picks
      ensures score == old(score) && level == old(level) && arcLength == old(arcLength)
      ensures speed == old(speed) && amtLine == old(amtLine)
    {
      ghost var expected := Sweep(ks, Snapshot(), picks);
      var raised := false;
      rest := picks;
      var i := 0;
      assert ks[0..] == ks;
      while i < |ks| && !raised
        invariant 0 <= i <= |ks| && |rest| >= |ks| - i
        invariant Valid() && state == 1 && over == old(over)
        invariant score == old(score) && level == old(level) && arcLength == old(arcLength)
        invariant speed == old(speed) && amtLine == old(amtLine)
        invariant expected == if raised then BlockResult(Snapshot(), rest, true) else Sweep(ks[i..], Snapshot(), rest)
      {
        SweepStep(ks, i, Snapshot(), rest);
        raised, rest := KindBlock(ks[i], rest);
        i := i + 1;
      }
      assert Snapshot() == expected.play && rest == expected.picks;
    }

    /** Every probe reads an empty cell on the board (`&&` chain or `||` chain of `!= 0` tests alike). */
    method ProbesFree(probes: seq<Offset>, row: int, col: int) returns (free: bool)
      requires Valid()
      ensures free <==> AllFree(Cells(), probes, row, col)
    {
      var out := ScanBoard(probes, row, col);
      free := out == Clear;
    }

    /**
     * `validateRotate`: the falling brick turns if its rotation probes read
     * empty cells, and the phantom goes back to row 2 and turns with it.
     */
    method ValidateRotate()
      requires Valid() && state == 1
      modifies this
      ensures Valid() && state == 1 && over == old(over)
      ensures Snapshot() == Rotate(old(Snapshot()))
      ensures score == old(score) && level == old(level) && arcLength == old(arcLength)
      ensures speed == old(speed) && amtLine == old(amtLine)
    {
      var free := ProbesFree(RotateProbes(current.kind, current.orientation), current.row, current.col);
      if free {
        current := current.(orientation := Rotated(current.orientation));
        phantom := phantom.(row := ResetRow);
        phantom := phantom.(orientation := Rotated(phantom.orientation));
      }
    }

    /** `validateHorizontal`: whether the falling brick may step one column in direction d. */
    method ValidateHorizontal(d: Direction) returns (ok: bool)
      requires Valid()
      ensures ok <==> CanShift(Cells(), current, d)
    {
      ok := ProbesFree(HorizontalProbes(current.kind, current.orientation, d), current.row, current.col);
    }

    /** The body of one key's branch in `moveHorizontal`. */
    method StepSideways(d: Direction)
      requires Valid() && state == 1
      modifies this
      ensures Valid() && state == 1 && over == old(over)
      ensures Snapshot() == Shift(old(Snapshot()), d)
      ensures score == old(score) && level == old(level) && arcLength == old(arcLength)
      ensures speed == old(speed) && amtLine == old(amtLine)
    {
      var ok := ValidateHorizontal(d);
      if ok {
        current := current.(col := current.col + Step(d));
        phantom := phantom.(row := ResetRow);
        phantom := phantom.(col := phantom.col + Step(d));
      }
    }

    /** `moveHorizontal`: the left key's move, then the right key's move. */
    method MoveHorizontal(keys: set<int>)
      requires Valid() && state == 1
      modifies this
      ensures Valid() && state == 1 && over == old(over)
      ensures Snapshot() == Rules.MoveHorizontal(old(Snapshot()), keys)
      ensures score == old(score) && level == old(level) && arcLength == old(arcLength)
      ensures speed == old(speed) && amtLine == old(amtLine)
    {
      if LeftKey in keys {
        StepSideways(Left);
      }
      if RightKey in keys {
        StepSideways(Right);
      }
    }

    /**
     * `movePhantom(getPhantomBrick())`: the phantom falls while its probes,
     * chosen from the row it starts on, read empty cells.
     */
    method MovePhantom()
      requires Valid() && state == 1
      modifies this
      ensures Valid() && state == 1 && over == old(over)
      ensures phantom == Drop(Cells(), old(phantom))
      ensures current == old(current) && queue == old(queue)
      ensures score == old(score) && level == old(level) && arcLength == old(arcLength)
      ensures speed == old(speed) && amtLine == old(amtLine)
    {
      var probes := FallProbes(phantom);
      var q := phantom;
      var free := ProbesFree(probes, q.row, q.col);
      while free
        invariant q == old(phantom).(row := q.row)
        invariant free <==> AllFree(Cells(), probes, q.row, q.col)
        invariant DropWith(Cells(), q, probes) == DropWith(Cells(), old(phantom), probes)
        decreases Rows + 1 - q.row
        modifies {}
      {
        assert Free(Cells(), ProbeAt(q.row, q.col, probes[0]));
        q := q.(row := q.row + 1);
        free := ProbesFree(probes, q.row, q.col);
      }
      phantom := q;
    }

    /** `deleteLine`: the multiplier goes up, then rows rowIndex..1 each take the row above until row -1 is read. */
    method DeleteLine(rowIndex: int)
      requires Valid()
      modifies this, board
      ensures Valid() && state == old(state) && over == old(over)
      ensures amtLine == old(amtLine) + 1
      ensures Cells() == DeleteRow(old(Cells()), rowIndex)
      ensures current == old(current) && phantom == old(phantom) && queue == old(queue)
      ensures score == old(score) && level == old(level) && arcLength == old(arcLength) && speed == old(speed)
    {
      amtLine := amtLine + 1;
      var col := 0;
      while col < Rows
        invariant 0 <= col <= Rows
        invariant 0 <= rowIndex < Rows ==> col <= rowIndex
        invariant !(0 <= rowIndex < Rows) ==> col == 0
        invariant forall r, c :: InBounds(r, c) ==>
          board[r, c] == if rowIndex - col < r <= rowIndex then old(board[r - 1, c]) else old(board[r, c])
        invariant Valid() && state == old(state) && over == old(over) && amtLine == old(amtLine) + 1
        invariant current == old(current) && phantom == old(phantom) && queue == old(queue)
        invariant score == old(score) && level == old(level) && arcLength == old(arcLength) && speed == old(speed)
      {
        if !(0 <= rowIndex - col < Rows && 0 <= rowIndex - col - 1 < Rows) {
          break;
        }
        var counter := 0;
        while counter < Cols
          invariant 0 <= counter <= Cols
          invariant forall r, c :: InBounds(r, c) ==>
            board[r, c] == if rowIndex - col < r <= rowIndex || (r == rowIndex - col && c < counter)
              then old(board[r - 1, c]) else old(board[r, c])
          invariant Valid() && state == old(state) && over == old(over) && amtLine == old(amtLine) + 1
          invariant current == old(current) && phantom == old(phantom) && queue == old(queue)
          invariant score == old(score) && level == old(level) && arcLength == old(arcLength) && speed == old(speed)
        {
          board[rowIndex - col, counter] := board[rowIndex - col - 1, counter];
          counter := counter + 1;
        }
        col := col + 1;
      }
      GridEquality(Cells(), DeleteRow(old(Cells()), rowIndex));
    }

    /**
     * `startGame`: the bottom row becomes the wall (code 1, invisible and
     * never cleared), then the first bricks are generated.
     */
    method StartGame(picks: seq<int>)
      requires Valid()
      requires |picks| >= if state == 0 then StartBricks else 1
      modifies this, board
      ensures Valid() && state == 1 && over == old(over)
      ensures Cells() == old(Cells())[WallRow := seq(Cols, c => Wall)]
      ensures old(state) == 0 ==> current == PickBrick(picks[0]) && queue == Picked(picks[1..StartBricks])
      ensures old(state) == 1 ==> current == old(queue)[0] && queue == old(queue)[1..] + [PickBrick(picks[0])]
      ensures phantom == current
      ensures score == old(score) && level == old(level) && arcLength == old(arcLength)
      ensures speed == old(speed) && amtLine == old(amtLine)
    {
      var lastCol := 0;
      while lastCol < Cols
        invariant 0 <= lastCol <= Cols
        invariant forall r, c :: InBounds(r, c) ==>
          board[r, c] == if r == WallRow && c < lastCol then Wall else old(board[r, c])
        modifies board
      {
        board[WallRow, lastCol] := Wall;
        lastCol := lastCol + 1;
      }
      GridEquality(Cells(), old(Cells())[WallRow := seq(Cols, c => Wall)]);
      GenerateRandomBrick(picks);
    }

    /**
     * `checkForLine`: rows are scanned from the bottom, counting the cells
     * that hold a brick; the first row whose count passes `amtCol` scores
     * `100 * amtLine` and is deleted.  `deleteLine` always ends by raising,
     * which ends the scan.
     */
    method CheckForLine()
      requires Valid()
      modifies this, board
      ensures Valid() && state == old(state) && over == old(over)
      ensures Tally(Cells(), score, amtLine) == ClearLine(Tally(old(Cells()), old(score), old(amtLine)))
      ensures current == old(current) && phantom == old(phantom) && queue == old(queue)
      ensures level == old(level) && arcLength == old(arcLength) && speed == old(speed)
    {
      var found := FindFullRow();
      if found.FullAt? {
        score := score + ScoreIncrement * amtLine;
        DeleteLine(found.row);
      }
    }

    /**
     * The scan of `checkForLine`: from the bottom row up, the cells holding a
     * brick are counted, and the first row whose count passes `amtCol` is
     * the one found.
     */
    method FindFullRow() returns (found: Found)
      requires board.Length0 == Rows && board.Length1 == Cols
      ensures found == LowestFullRow(Cells(), |Cells()| - 1)
    {
      ghost var g := Cells();
      var row := Rows - 1;
      while row >= 0
        invariant -1 <= row < Rows
        invariant LowestFullRow(g, |g| - 1) == LowestFullRow(g, row)
      {
        var rowChecker := 0;
        var col := 0;
        while col < Cols
          invariant 0 <= col <= Cols
          invariant rowChecker == CountFilled(g[row][..col]) <= AmtCol
        {
          assert g[row][..col + 1][..col] == g[row][..col];
          if board[row, col] != Empty && board[row, col] != Wall {
            rowChecker := rowChecker + 1;
          }
          if rowChecker > AmtCol {
            assert g[row][..col + 1] == g[row];
            return FullAt(row);
          }
          col := col + 1;
        }
        assert g[row][..Cols] == g[row];
        row := row - 1;
      }
      return NoFullRow;
    }

    /** `saveGame`: the header fields, then every cell in row-major order. */
    method SaveGame() returns (fields: seq<int>)
      requires Valid()
      ensures fields == Encode(Saved(score, level, speed, arcLength, Cells()))
    {
      ghost var g := Cells();
      fields := [score, level, speed, arcLength];
      var row := 0;
      while row < Rows
        invariant 0 <= row <= Rows
        invariant fields == [score, level, speed, arcLength] + Flatten(g[..row])
      {
        var col := 0;
        while col < Cols
          invariant 0 <= col <= Cols
          invariant fields == [score, level, speed, arcLength] + Flatten(g[..row]) + g[row][..col]
        {
          assert g[row][..col + 1] == g[row][..col] + [board[row, col]];
          fields := fields + [board[row, col]];
          col := col + 1;
        }
        assert g[..row + 1][..row] == g[..row];
        assert g[row][..Cols] == g[row];
        row := row + 1;
      }
      assert g[..Rows] == g;
    }

    /**
     * `loadGame`: the fields are read back in save order, each overwriting
     * its component; when they run out the source's `Scanner` raises and the
     * rest of the state is left as it was.  `ok` says whether every field
     * was found.
     */
    method LoadGame(fields: seq<int>) returns (ok: bool)
      requires Valid()
      modifies this, board
      ensures ok <==> |fields| >= FieldCount
      ensures Saved(score, level, speed, arcLength, Cells()) ==
        Overwrite(Saved(old(score), old(level), old(speed), old(arcLength), old(Cells())), fields)
      ensures Valid() && state == old(state) && over == old(over) && amtLine == old(amtLine)
      ensures current == old(current) && phantom == old(phantom) && queue == old(queue)
    {
      ghost var s0 := Saved(score, level, speed, arcLength, Cells());
      if |fields| < HeaderFields {
        if |fields| > 0 { score := fields[0]; }
        if |fields| > 1 { level := fields[1]; }
        if |fields| > 2 { speed := fields[2]; }
        GridEquality(Cells(), Overwrite(s0, fields).board);
        return false;
      }
      score, level, speed, arcLength := fields[0], fields[1], fields[2], fields[3];
      ok := LoadCells(fields);
      GridEquality(Cells(), Overwrite(s0, fields).board);
    }

    /** The cell loops of `loadGame`: each cell in turn takes its field, until the fields run out. */
    method LoadCells(fields: seq<int>) returns (complete: bool)
      requires board.Length0 == Rows && board.Length1 == Cols
      modifies board
      ensures complete <==> |fields| >= FieldCount
      ensures forall r, c :: InBounds(r, c) ==> board[r, c] == FieldOr(fields, Slot(r, c), old(board[r, c]))
    {
      var row := 0;
      while row < Rows
        invariant 0 <= row <= Rows && (row > 0 ==> Slot(row, 0) <= |fields|)
        invariant forall r, c :: InBounds(r, c) ==>
          board[r, c] == if r < row then fields[Slot(r, c)] else old(board[r, c])
      {
        var col := 0;
        while col < Cols
          invariant 0 <= col <= Cols && (row > 0 || col > 0 ==> Slot(row, col) <= |fields|)
          invariant forall r, c :: InBounds(r, c) ==>
            board[r, c] == if r < row || (r == row && c < col) then fields[Slot(r, c)] else old(board[r, c])
        {
          if Slot(row, col) >= |fields| {
            return false;
          }
          board[row, col] := fields[Slot(row, col)];
          col := col + 1;
        }
        row := row + 1;
      }
      return true;
    }

    /** `setAmtLine`. */
    method SetAmtLine(amt: int)
      modifies this
      ensures amtLine == amt
      ensures score == old(score) && state == old(state) && level == old(level) && arcLength == old(arcLength)
      ensures speed == old(speed) && over == old(over)
      ensures current == old(current) && phantom == old(phantom) && queue == old(queue)
    {
      amtLine := amt;
    }

    /** `setArc`. */
    method SetArc(arc: int)
      modifies this
      ensures arcLength == arc
      ensures score == old(score) && state == old(state) && level == old(level) && amtLine == old(amtLine)
      ensures speed == old(speed) && over == old(over)
      ensures current == old(current) && phantom == old(phantom) && queue == old(queue)
    {
      arcLength := arc;
    }

    /** `setFallSpeed`: records the fall speed, which only a save reads. */
    method SetFallSpeed(fallSpeed: int)
      modifies this
      ensures speed == fallSpeed
      ensures score == old(score) && state == old(state) && level == old(level) && amtLine == old(amtLine)
      ensures arcLength == old(arcLength) && over == old(over)
      ensures current == old(current) && phantom == old(phantom) && queue == old(queue)
    {
      speed := fallSpeed;
    }

    /** `setLevel`. */
    method SetLevel(newLevel: int)
      modifies this
      ensures level == newLevel
      ensures score == old(score) && state == old(state) && speed == old(speed) && amtLine == old(amtLine)
      ensures arcLength == old(arcLength) && over == old(over)
      ensures current == old(current) && phantom == old(phantom) && queue == old(queue)
    {
      level := newLevel;
    }
  }

  /** The first loop of `generateRandomBrick`: the bricks of the first n picks, in order. */
  method PickBricks(picks: seq<int>, n: nat) returns (added: seq<Piece>)
    requires n <= |picks|
    ensures added == Picked(picks[..n])
  {
    added := [];
    var counter := 0;
    while counter < n
      invariant 0 <= counter <= n
      invariant added == Picked(picks[..counter])
    {
      assert picks[..counter + 1] == picks[..counter] + [picks[counter]];
      PickedAppend(picks[..counter], picks[counter]);
      added := added + [PickBrick(picks[counter])];
      counter := counter + 1;
    }
  }

  /** Picking one more brick appends it. */
  lemma PickedAppend(picks: seq<int>, n: int)
    ensures Picked(picks + [n]) == Picked(picks) + [PickBrick(n)]
  {
    assert |Picked(picks + [n])| == |Picked(picks) + [PickBrick(n)]|;
  }

  /** Dropping the first pick drops the first brick. */
  lemma PickedTail(picks: seq<int>)
    requires |picks| >= 1
    ensures Picked(picks)[1..] == Picked(picks[1..])
  {
  }

  /** One more written cell adds its target to the painted cells. */
  lemma TargetsStep(cells: seq<Offset>, i: int, row: int, col: int)
    requires 0 <= i < |cells|
    ensures Targets(cells, i + 1, row, col) == Targets(cells, i, row, col) + {LockTarget(row, col, cells[i])}
  {
  }

  /** The blocks from position n on: block n, then the rest unless it raised. */
  lemma SweepStep(ks: seq<Kind>, n: int, s: Play, picks: seq<int>)
    requires 0 <= n < |ks| && WellFormed(s.board) && |s.queue| >= 1 && |picks| >= |ks| - n
    ensures var b := Block(ks[n], s, picks);
      Sweep(ks[n..], s, picks) == if b.raised then b else Sweep(ks[n + 1..], b.play, b.picks)
  {
    assert ks[n..][0] == ks[n] && ks[n..][1..] == ks[n + 1..];
  }
}
