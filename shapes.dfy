/**
 * The drawn layout of each brick kind, gathered from the brick classes.
 * JayBrick's drawing code is not part of this model, so Jay has no entry.
 */
module Shapes {
  import opened Geometry
  import ElBrick
  import StackBrick
  import LongBrick
  import EssBrick
  import ZeeBrick
  import SquareBrick

  /** The cells `showFullBrick` fills for a drawn kind and orientation. */
  function Drawn(k: Kind, o: Orientation): (cells: seq<Offset>)
    requires k != Jay
    ensures Tetromino(cells)
  {
    match k
    case El => ElBrick.FourDistinctCells(o); ElBrick.FullBrick(o)
    case Stack => StackBrick.FourDistinctCells(o); StackBrick.FullBrick(o)
    case Long => LongBrick.FourDistinctCells(o); LongBrick.FullBrick(o)
    case Ess => EssBrick.FourDistinctCells(o); EssBrick.FullBrick(o)
    case Zee => ZeeBrick.FourDistinctCells(o); ZeeBrick.FullBrick(o)
    case Square => SquareBrick.TwoByTwoBlock(o); SquareBrick.FullBrick(o)
  }
}
