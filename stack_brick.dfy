/**
 * StackBrick (the T shape): the cells drawn by `showFullBrick`,
 * `showPhantom` and `showQueue`, as (row, column) offsets from the anchor in
 * drawing order.  An orientation outside 0..3 draws nothing.
 */
module StackBrick {
  import opened Geometry

  /** Cells filled by `showFullBrick` for an orientation. */
  function FullBrick(o: int): (cells: seq<Offset>)
    ensures 0 <= o <= MaxRotate <==> |cells| == 4
    ensures cells != [] ==> cells[0] == (0, 0)
  {
    if o == 0 then [(0, 0), (0, -1), (0, 1), (-1, 0)]
    else if o == 1 then [(0, 0), (-1, 0), (1, 0), (0, 1)]
    else if o == 2 then [(0, 0), (0, 1), (0, -1), (1, 0)]
    else if o == 3 then [(0, 0), (-1, 0), (1, 0), (0, -1)]
    else []
  }

  /** Cells outlined by `showPhantom` for an orientation. */
  function Phantom(o: int): (cells: seq<Offset>)
    ensures 0 <= o <= MaxRotate <==> |cells| == 4
  {
    if o == 0 then [(0, 0), (0, -1), (0, 1), (-1, 0)]
    else if o == 1 then [(0, 0), (-1, 0), (1, 0), (0, 1)]
    else if o == 2 then [(0, 0), (0, 1), (0, -1), (1, 0)]
    else if o == 3 then [(0, 0), (-1, 0), (1, 0), (0, -1)]
    else []
  }

  /** Cells filled by `showQueue`, which ignores the orientation. */
  function Queue(): (cells: seq<Offset>)
    ensures |cells| == 4
  {
    [(0, 0), (0, -1), (0, 1), (-1, 0)]
  }

  /** Two offsets that share a side. */
  predicate Adjacent(a: Offset, b: Offset)
  {
    (a.0 == b.0 && (a.1 - b.1 == 1 || b.1 - a.1 == 1)) ||
    (a.1 == b.1 && (a.0 - b.0 == 1 || b.0 - a.0 == 1))
  }

  /** Every orientation draws four distinct cells including the anchor. */
  lemma FourDistinctCells(o: Orientation)
    ensures Tetromino(FullBrick(o))
  {
  }

  /**
   * The T shape: in every orientation the anchor and three of its four side
   * neighbours, and each orientation leaves out a different neighbour.
   */
  lemma AnchorAndThreeNeighbours(o: Orientation)
    ensures forall i :: 1 <= i < 4 ==> Adjacent(FullBrick(o)[i], (0, 0))
    ensures forall o2: Orientation :: o2 != o ==> CellSet(FullBrick(o2)) != CellSet(FullBrick(o))
  {
    forall o2: Orientation | o2 != o
      ensures CellSet(FullBrick(o2)) != CellSet(FullBrick(o))
    {
      var missing := if o == 0 then (1, 0) else if o == 1 then (0, -1) else if o == 2 then (-1, 0) else (0, 1);
      assert missing !in CellSet(FullBrick(o));
      assert missing in FullBrick(o2);
      assert missing in CellSet(FullBrick(o2));
    }
  }

  /** The phantom outlines exactly the cells the brick fills, in the same order. */
  lemma PhantomMatchesFull(o: int)
    ensures Phantom(o) == FullBrick(o)
  {
  }

  /** The queue preview is the upright (orientation 0) brick. */
  lemma QueueIsUpright()
    ensures Queue() == FullBrick(0)
  {
  }
}
