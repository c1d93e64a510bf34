/**
 * ElBrick: the cells drawn by `showFullBrick`, `showPhantom` and
 * `showQueue`, as (row, column) offsets from the anchor in drawing order.
 * An orientation outside 0..3 matches no case of the switch and draws nothing.
 */
module ElBrick {
  import opened Geometry

  /** Cells filled by `showFullBrick` for an orientation. */
  function FullBrick(o: int): (cells: seq<Offset>)
    ensures 0 <= o <= MaxRotate <==> |cells| == 4
    ensures cells != [] ==> cells[0] == (0, 0)
  {
    if o == 0 then [(0, 0), (0, 1), (0, -1), (-1, 1)]
    else if o == 1 then [(0, 0), (-1, 0), (1, 0), (1, 1)]
    else if o == 2 then [(0, 0), (0, -1), (0, 1), (1, -1)]
    else if o == 3 then [(0, 0), (1, 0), (-1, 0), (-1, -1)]
    else []
  }

  /** Cells outlined by `showPhantom` for an orientation. */
  function Phantom(o: int): (cells: seq<Offset>)
    ensures 0 <= o <= MaxRotate <==> |cells| == 4
  {
    if o == 0 then [(0, 0), (0, 1), (0, -1), (-1, 1)]
    else if o == 1 then [(0, 0), (-1, 0), (1, 0), (1, 1)]
    else if o == 2 then [(0, 0), (0, -1), (0, 1), (1, -1)]
    else if o == 3 then [(0, 0), (1, 0), (-1, 0), (-1, -1)]
    else []
  }

  /** Cells filled by `showQueue`, which ignores the orientation. */
  function Queue(): (cells: seq<Offset>)
    ensures |cells| == 4
  {
    [(0, 0), (0, 1), (0, -1), (-1, 1)]
  }

  /** Every orientation draws four distinct cells including the anchor. */
  lemma FourDistinctCells(o: Orientation)
    ensures Tetromino(FullBrick(o))
  {
  }

  /** The phantom outlines exactly the cells the brick fills, in the same order. */
  lemma PhantomMatchesFull(o: int)
    ensures Phantom(o) == FullBrick(o)
  {
  }

  /** The queue preview is the upright (orientation 0) brick. */
  lemma QueueIsUpright()
    ensures Queue() == FullBrick(0)
  {
  }
}
