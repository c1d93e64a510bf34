/**
 * EssBrick (the S shape): the cells drawn by `showFullBrick`, `showPhantom`
 * and `showQueue`, as (row, column) offsets from the anchor in drawing
 * order.  Orientations 0 and 2 share one case of the switch, 1 and 3 the
 * other; any other orientation draws nothing.
 */
module EssBrick {
  import opened Geometry

  /** Cells filled by `showFullBrick` for an orientation. */
  function FullBrick(o: int): (cells: seq<Offset>)
    ensures 0 <= o <= MaxRotate <==> |cells| == 4
    ensures cells != [] ==> cells[0] == (0, 0)
  {
    if o == 2 || o == 0 then [(0, 0), (0, -1), (-1, 0), (-1, 1)]
    else if o == 3 || o == 1 then [(0, 0), (-1, 0), (0, 1), (1, 1)]
    else []
  }

  /** Cells outlined by `showPhantom` for an orientation. */
  function Phantom(o: int): (cells: seq<Offset>)
    ensures 0 <= o <= MaxRotate <==> |cells| == 4
  {
    if o == 2 || o == 0 then [(0, 0), (0, -1), (-1, 0), (-1, 1)]
    else if o == 3 || o == 1 then [(0, 0), (-1, 0), (0, 1), (1, 1)]
    else []
  }

  /** Cells filled by `showQueue`, which ignores the orientation. */
  function Queue(): (cells: seq<Offset>)
    ensures |cells| == 4
  {
    [(0, 0), (0, -1), (-1, 0), (-1, 1)]
  }

  /** Every orientation draws four distinct cells including the anchor. */
  lemma FourDistinctCells(o: Orientation)
    ensures Tetromino(FullBrick(o))
  {
  }

  /** Half a turn gives back the same layout; a quarter turn a different one. */
  lemma TwoLayouts(o: Orientation)
    ensures FullBrick(o) == FullBrick((o + 2) % 4)
    ensures CellSet(FullBrick(o)) != CellSet(FullBrick((o + 1) % 4))
  {
    if o % 2 == 0 {
      assert FullBrick(o)[1] == (0, -1);
      assert (0, -1) in CellSet(FullBrick(o));
    } else {
      assert FullBrick((o + 1) % 4)[1] == (0, -1);
      assert (0, -1) in CellSet(FullBrick((o + 1) % 4));
    }
  }

  /** The phantom outlines exactly the cells the brick fills, in the same order. */
  lemma PhantomMatchesFull(o: int)
    ensures Phantom(o) == FullBrick(o)
  {
  }

  /** The queue preview is the orientation 0 brick. */
  lemma QueueIsUpright()
    ensures Queue() == FullBrick(0)
  {
  }
}
