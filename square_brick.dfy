/**
 * SquareBrick (the O shape): `showFullBrick`, `showPhantom` and `showQueue`
 * draw the same four cells whatever the orientation, as (row, column)
 * offsets from the anchor in drawing order.
 */
module SquareBrick {
  import opened Geometry

  /** Cells filled by `showFullBrick`; the orientation is not consulted. */
  function FullBrick(o: int): (cells: seq<Offset>)
    ensures |cells| == 4 && cells[0] == (0, 0)
  {
    [(0, 0), (0, 1), (-1, 1), (-1, 0)]
  }

  /** Cells outlined by `showPhantom`. */
  function Phantom(o: int): (cells: seq<Offset>)
    ensures |cells| == 4
  {
    [(0, 0), (0, 1), (-1, 1), (-1, 0)]
  }

  /** Cells filled by `showQueue`. */
  function Queue(): (cells: seq<Offset>)
    ensures |cells| == 4
  {
    [(0, 0), (0, 1), (-1, 1), (-1, 0)]
  }

  /** Four distinct cells forming a 2x2 block whose lower-left cell is the anchor. */
  lemma TwoByTwoBlock(o: int)
    ensures Tetromino(FullBrick(o))
    ensures forall i :: 0 <= i < 4 ==> -1 <= FullBrick(o)[i].0 <= 0 && 0 <= FullBrick(o)[i].1 <= 1
  {
  }

  /** Rotating a square changes nothing that is drawn. */
  lemma IndependentOfOrientation(o1: int, o2: int)
    ensures FullBrick(o1) == FullBrick(o2)
    ensures Phantom(o1) == FullBrick(o2) && Queue() == FullBrick(o2)
  {
  }
}
