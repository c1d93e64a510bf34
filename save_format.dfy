/**
 * The layout of the save file `lastsave.csv`: score, level, fall speed and
 * arc length, then every cell of the board row by row, each written as one
 * comma-terminated field.  The file itself, the decimal text and the
 * `Scanner` are not modelled; a save is the sequence of its integer fields.
 */
module SaveFormat {
  import opened Board

  datatype Option<T> = None | Some(value: T)

  /** The five components `saveGame` writes and `loadGame` reads back. */
  datatype Saved = Saved(score: int, level: int, speed: int, arcLength: int, board: Grid)

  /** Score, level, speed and arc length come before the cells. */
  const HeaderFields: nat := 4

  /** The number of fields a complete save holds. */
  const FieldCount: nat := HeaderFields + Rows * Cols

  /** The position of cell (r, c) in the field sequence. */
  function Slot(r: int, c: int): int
  {
    HeaderFields + r * Cols + c
  }

  /** Distinct cells of the board sit at distinct positions inside the save. */
  lemma SlotsAreDistinct(r: int, c: int, r': int, c': int)
    requires InBounds(r, c) && InBounds(r', c')
    ensures HeaderFields <= Slot(r, c) < FieldCount
    ensures Slot(r, c) == Slot(r', c') ==> r == r' && c == c'
  {
  }

  /** The rows of a grid one after another. */
  function Flatten(g: seq<seq<int>>): (f: seq<int>)
    requires forall r :: 0 <= r < |g| ==> |g[r]| == Cols
    ensures |f| == |g| * Cols
  {
    if g == [] then [] else Flatten(g[..|g| - 1]) + g[|g| - 1]
  }

  /** Cell (r, c) is field r * Cols + c of the flattened rows. */
  lemma {:induction false} FlattenAt(g: seq<seq<int>>, r: int, c: int)
    requires forall i :: 0 <= i < |g| ==> |g[i]| == Cols
    requires 0 <= r < |g| && 0 <= c < Cols
    ensures Flatten(g)[r * Cols + c] == g[r][c]
  {
    var init := g[..|g| - 1];
    if r < |g| - 1 {
      FlattenAt(init, r, c);
    }
  }

  /** `saveGame`: the header, then every cell in row-major order. */
  function Encode(s: Saved): (f: seq<int>)
    requires WellFormed(s.board)
    ensures |f| == FieldCount
    ensures f[0] == s.score && f[1] == s.level && f[2] == s.speed && f[3] == s.arcLength
    ensures forall r, c :: InBounds(r, c) ==> f[Slot(r, c)] == s.board[r][c]
  {
    var f := [s.score, s.level, s.speed, s.arcLength] + Flatten(s.board);
    forall r, c | InBounds(r, c)
      ensures f[Slot(r, c)] == s.board[r][c]
    {
      FlattenAt(s.board, r, c);
    }
    f
  }

  /** Field k of f, or the given value when the fields run out before k. */
  function FieldOr(f: seq<int>, k: nat, otherwise: int): int
  {
    if k < |f| then f[k] else otherwise
  }

  /**
   * `loadGame` on the fields f over a game holding s: fields are read in the
   * order they were written, each overwriting its component, until the
   * fields run out (the source's `Scanner` then raises, leaving the
   * components written so far in place).  Fields after the last cell are
   * never read.
   */
  function Overwrite(s: Saved, f: seq<int>): (t: Saved)
    requires WellFormed(s.board)
    ensures WellFormed(t.board)
  {
    Saved(FieldOr(f, 0, s.score), FieldOr(f, 1, s.level), FieldOr(f, 2, s.speed), FieldOr(f, 3, s.arcLength),
      seq(Rows, r requires 0 <= r < Rows =>
        seq(Cols, c requires 0 <= c < Cols => FieldOr(f, Slot(r, c), s.board[r][c]))))
  }

  /** A complete save read back: `None` where `loadGame` would run out of fields. */
  function Decode(f: seq<int>): (r: Option<Saved>)
    ensures r.Some? <==> |f| >= FieldCount
    ensures r.Some? ==> WellFormed(r.value.board)
  {
    if |f| < FieldCount then None
    else Some(Saved(f[0], f[1], f[2], f[3],
      seq(Rows, r requires 0 <= r < Rows => f[Slot(r, 0)..Slot(r, 0) + Cols])))
  }

  /** Reading back what was saved restores all five components. */
  lemma DecodeEncode(s: Saved)
    requires WellFormed(s.board)
    ensures Decode(Encode(s)) == Some(s)
  {
    var f := Encode(s);
    var b := Decode(f).value.board;
    forall r | 0 <= r < Rows
      ensures b[r] == s.board[r]
    {
      forall c | 0 <= c < Cols
        ensures b[r][c] == s.board[r][c]
      {
        assert b[r] == f[Slot(r, 0)..Slot(r, 0) + Cols];
        assert Slot(r, 0) + c == Slot(r, c);
      }
    }
    assert b == s.board;
    assert Decode(f).value == Saved(s.score, s.level, s.speed, s.arcLength, b);
  }

  /** Saving what was read back gives the fields that were read, and nothing after them. */
  lemma EncodeDecode(f: seq<int>)
    requires |f| >= FieldCount
    ensures Encode(Decode(f).value) == f[..FieldCount]
  {
    var e := Encode(Decode(f).value);
    forall k | 0 <= k < FieldCount
      ensures e[k] == f[k]
    {
      if k >= HeaderFields {
        var r := (k - HeaderFields) / Cols;
        var c := (k - HeaderFields) % Cols;
        assert k == Slot(r, c);
      }
    }
  }

  /** A load that finds every field replaces the whole state by the decoded save, whatever it held. */
  lemma CompleteLoadIsDecode(s: Saved, f: seq<int>)
    requires WellFormed(s.board) && |f| >= FieldCount
    ensures Overwrite(s, f) == Decode(f).value
  {
    var t := Overwrite(s, f);
    var d := Decode(f).value;
    forall r | 0 <= r < Rows
      ensures t.board[r] == d.board[r]
    {
      assert forall c :: 0 <= c < Cols ==> t.board[r][c] == f[Slot(r, c)] == d.board[r][c];
    }
  }

  /** Loading a save restores exactly the state that was saved. */
  lemma LoadRestoresSave(s: Saved, t: Saved)
    requires WellFormed(s.board) && WellFormed(t.board)
    ensures Overwrite(s, Encode(t)) == t
  {
    CompleteLoadIsDecode(s, Encode(t));
    DecodeEncode(t);
  }

  /**
   * A load that runs out of fields changes exactly the components whose
   * fields it found: the prefix of the state, in save order.
   */
  lemma ShortLoadKeepsTheRest(s: Saved, f: seq<int>)
    requires WellFormed(s.board) && |f| < FieldCount
    ensures Decode(f) == None
    ensures |f| >= 1 ==> Overwrite(s, f).score == f[0]
    ensures |f| >= 2 ==> Overwrite(s, f).level == f[1]
    ensures |f| >= 3 ==> Overwrite(s, f).speed == f[2]
    ensures |f| >= 4 ==> Overwrite(s, f).arcLength == f[3]
    ensures |f| == 0 ==> Overwrite(s, f).score == s.score
    ensures |f| <= 1 ==> Overwrite(s, f).level == s.level
    ensures |f| <= 2 ==> Overwrite(s, f).speed == s.speed
    ensures |f| <= 3 ==> Overwrite(s, f).arcLength == s.arcLength
    ensures forall r, c :: InBounds(r, c) ==>
      Overwrite(s, f).board[r][c] == if Slot(r, c) < |f| then f[Slot(r, c)] else s.board[r][c]
    ensures Overwrite(s, []) == s
  {
    var t := Overwrite(s, []);
    forall r | 0 <= r < Rows
      ensures t.board[r] == s.board[r]
    {
    }
  }
}
