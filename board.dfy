/**
 * The board as a value: 20 rows of 10 cell codes (0 empty, 1 the wall row,
 * 2..8 a locked brick's colour), row 0 at the top.  The engine's array is
 * read through this view.
 */
module Board {

  const Rows: int := 20
  const Cols: int := 10
  /** The bottom row, filled with the wall code by `startGame`. */
  const WallRow: int := Rows - 1
  const Empty: int := 0
  const Wall: int := 1
  /** `amtCol`: a row is full once more than this many of its cells hold a brick. */
  const AmtCol: int := 9

  type Grid = seq<seq<int>>

  predicate WellFormed(g: Grid)
  {
    |g| == Rows && forall r :: 0 <= r < Rows ==> |g[r]| == Cols
  }

  predicate InBounds(r: int, c: int)
  {
    0 <= r < Rows && 0 <= c < Cols
  }

  /** Two well-formed grids with the same cells are the same grid. */
  lemma GridEquality(g: Grid, h: Grid)
    requires WellFormed(g) && WellFormed(h)
    requires forall r, c :: InBounds(r, c) ==> g[r][c] == h[r][c]
    ensures g == h
  {
    forall r | 0 <= r < Rows
      ensures g[r] == h[r]
    {
      assert forall c :: 0 <= c < Cols ==> g[r][c] == h[r][c];
    }
  }

  /** The grid with one cell overwritten. */
  function SetCell(g: Grid, r: int, c: int, v: int): (h: Grid)
    requires WellFormed(g) && InBounds(r, c)
    ensures WellFormed(h)
    ensures forall i, j :: InBounds(i, j) ==> h[i][j] == if i == r && j == c then v else g[i][j]
  {
    g[r := g[r][c := v]]
  }

  /** A cell holding a locked brick: neither empty nor wall. */
  predicate Filled(v: int)
  {
    v != Empty && v != Wall
  }

  /** How many cells of a row hold a brick, as `checkForLine` counts them. */
  function CountFilled(row: seq<int>): (n: nat)
    ensures n <= |row|
  {
    if row == [] then 0
    else CountFilled(row[..|row| - 1]) + (if Filled(row[|row| - 1]) then 1 else 0)
  }

  /** The count reaches the row's length exactly when every cell holds a brick. */
  lemma {:induction false} CountFilledAll(row: seq<int>)
    ensures CountFilled(row) == |row| <==> forall c :: 0 <= c < |row| ==> Filled(row[c])
  {
    if row != [] {
      var init := row[..|row| - 1];
      CountFilledAll(init);
      assert forall c :: 0 <= c < |init| ==> init[c] == row[c];
    }
  }

  /** `checkForLine`'s test: more than `amtCol` cells of the row hold a brick. */
  predicate FullRow(row: seq<int>)
  {
    CountFilled(row) > AmtCol
  }

  /** On a board row, full means every one of its ten cells holds a brick. */
  lemma FullRowMeansAllFilled(row: seq<int>)
    requires |row| == Cols
    ensures FullRow(row) <==> forall c :: 0 <= c < Cols ==> Filled(row[c])
  {
    CountFilledAll(row);
  }

  /** The wall row is never full, so it is never cleared. */
  lemma WallRowNotFull(row: seq<int>)
    requires |row| == Cols && forall c :: 0 <= c < Cols ==> row[c] == Wall
    ensures !FullRow(row)
  {
    FullRowMeansAllFilled(row);
    assert !Filled(row[0]);
  }

  /** The rows `checkForLine` visits, bottom up from `r`: the first full one, if any. */
  function LowestFullRow(g: Grid, r: int): (res: Found)
    requires WellFormed(g) && -1 <= r < Rows
    ensures res.FullAt? ==> 0 <= res.row <= r && FullRow(g[res.row])
    ensures res.FullAt? ==> forall i :: res.row < i <= r ==> !FullRow(g[i])
    ensures res.NoFullRow? ==> forall i :: 0 <= i <= r ==> !FullRow(g[i])
    decreases r + 1
  {
    if r < 0 then NoFullRow
    else if FullRow(g[r]) then FullAt(r)
    else LowestFullRow(g, r - 1)
  }

  /** The outcome of the scan for a full row. */
  datatype Found = NoFullRow | FullAt(row: int)

  /**
   * `deleteLine(r)` as the source runs it: rows r, r-1, ..., 1 each take the
   * row above them, then reading row -1 raises, so row 0 is left as it was.
   * An index outside the board raises before anything is copied.
   */
  function DeleteRow(g: Grid, r: int): (h: Grid)
    requires WellFormed(g)
    ensures WellFormed(h)
  {
    if 0 <= r < Rows then seq(Rows, i requires 0 <= i < Rows => if 1 <= i <= r then g[i - 1] else g[i])
    else g
  }

  /**
   * What `deleteLine(r)` does to the rows: row r disappears, the rows above
   * it move down one place, row 0 stays (and so appears twice) and the rows
   * below r are untouched.
   */
  lemma DeleteRowContents(g: Grid, r: int)
    requires WellFormed(g) && 0 <= r < Rows
    ensures DeleteRow(g, r)[0] == g[0]
    ensures DeleteRow(g, r)[1..r + 1] == g[..r]
    ensures DeleteRow(g, r)[r + 1..] == g[r + 1..]
    ensures multiset(DeleteRow(g, r)) + multiset{g[r]} == multiset(g) + multiset{g[0]}
  {
    var h, above, below := DeleteRow(g, r), g[..r], g[r + 1..];
    assert h == [g[0]] + above + below by {
      assert |h| == |[g[0]] + above + below|;
      forall i | 0 <= i < Rows
        ensures h[i] == ([g[0]] + above + below)[i]
      {
      }
    }
    assert g == above + [g[r]] + below;
    calc {
      multiset(h) + multiset{g[r]};
      multiset{g[0]} + multiset(above) + multiset(below) + multiset{g[r]};
      multiset(above) + multiset{g[r]} + multiset(below) + multiset{g[0]};
      multiset(g) + multiset{g[0]};
    }
  }
}
