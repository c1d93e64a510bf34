/**
 * TetrisBrick: the state every brick carries (pixel position, cell size,
 * orientation), its moves, and the conversion from pixels to grid
 * coordinates that the board engine reads through `getyCord`/`getxCord`.
 * The six subclasses only add `rotate` and their drawing code; their
 * `rotate` is the one modelled here.
 */
module TetrisBrick {
  import opened Geometry

  const AdjustX: int := 358
  const AdjustY: int := 8
  const ResetStart: int := 52

  /** Java's `/` on `int`: the quotient truncated toward zero (Dafny's `/` is Euclidean). */
  function JavaDiv(a: int, b: int): int
    requires b != 0
  {
    var q := (if a >= 0 then a else -a) / (if b > 0 then b else -b);
    if (a >= 0) == (b > 0) then q else -q
  }

  /**
   * Java's quotient by a positive divisor rounds toward zero: the remainder
   * it leaves is smaller than the divisor and has the dividend's sign.
   */
  lemma JavaDivTruncates(a: int, b: int)
    requires b > 0
    ensures a >= 0 ==> 0 <= a - JavaDiv(a, b) * b < b
    ensures a < 0 ==> -b < a - JavaDiv(a, b) * b <= 0
  {
    if a < 0 {
      var q := (-a) / b;
      assert -a == q * b + (-a) % b;
      assert a - (-q) * b == -((-a) % b);
    }
  }

  /** Truncation is symmetric: negating the dividend negates the quotient. */
  lemma JavaDivIsOdd(a: int, b: int)
    requires b != 0
    ensures JavaDiv(-a, b) == -JavaDiv(a, b)
  {
  }

  /** A positive multiple of a positive number is at least that number. */
  lemma {:induction false} MulAtLeast(m: int, b: int)
    requires m >= 1 && b > 0
    ensures m * b >= b
    decreases m
  {
    if m > 1 {
      MulAtLeast(m - 1, b);
      assert m * b == (m - 1) * b + b;
    }
  }

  /** For b > 0, Euclidean quotients of an exact multiple: (k * b) / b == k. */
  lemma EuclidExact(k: int, b: int)
    requires b > 0
    ensures (k * b) / b == k
  {
    var q, r := (k * b) / b, (k * b) % b;
    assert k * b == q * b + r;
    assert 0 <= r < b;
    assert (k - q) * b == k * b - q * b;
    if k - q >= 1 {
      MulAtLeast(k - q, b);
      assert false;
    } else if q - k >= 1 {
      MulAtLeast(q - k, b);
      assert false;
    }
  }

  /** The sign of a product of an int and a positive int. */
  lemma ProductSign(k: int, b: int)
    requires b > 0
    ensures k >= 0 ==> k * b >= 0
    ensures k < 0 ==> k * b < 0
  {
  }

  /** Dividing an exact multiple by a positive cell size gives its factor, whatever its sign. */
  lemma ExactQuotient(k: int, b: int)
    requires b > 0
    ensures JavaDiv(k * b, b) == k
  {
    ProductSign(k, b);
    if k >= 0 {
      EuclidExact(k, b);
    } else {
      assert -(k * b) == (-k) * b;
      EuclidExact(-k, b);
    }
  }

  /** Grid row of a pixel y coordinate, as `getyCord` computes it. */
  function RowOf(y: int, size: int): (r: int)
    requires size != 0
    ensures size > 0 && y >= AdjustY ==> r * size <= y - AdjustY < r * size + size
  {
    if size > 0 then JavaDivTruncates(y - AdjustY, size); JavaDiv(y - AdjustY, size)
    else JavaDiv(y - AdjustY, size)
  }

  /** Grid column of a pixel x coordinate, as `getxCord` computes it. */
  function ColOf(x: int, size: int): (c: int)
    requires size != 0
    ensures size > 0 && x >= AdjustX ==> (c + 1) * size <= x - AdjustX < (c + 1) * size + size
  {
    if size > 0 then JavaDivTruncates(x - AdjustX, size); JavaDiv(x - AdjustX, size) - 1
    else JavaDiv(x - AdjustX, size) - 1
  }

  /** A pixel y coordinate that sits exactly on a grid line. */
  predicate RowAligned(y: int, size: int)
  {
    size != 0 && (y - AdjustY) % size == 0
  }

  /** A pixel x coordinate that sits exactly on a grid line. */
  predicate ColAligned(x: int, size: int)
  {
    size != 0 && (x - AdjustX) % size == 0
  }

  /** A number divisible by b is its quotient times b. */
  lemma MultipleOf(a: int, b: int) returns (k: int)
    requires b > 0 && a % b == 0
    ensures a == k * b
  {
    k := a / b;
  }

  /** Adding or removing one b from a multiple of b. */
  lemma Distribute(k: int, b: int)
    ensures (k + 1) * b == k * b + b && (k - 1) * b == k * b - b
  {
  }

  /** On an aligned coordinate, moving down one cell raises the grid row by exactly one and stays aligned. */
  lemma MoveDownAddsOneRow(y: int, size: int)
    requires size > 0 && RowAligned(y, size)
    ensures RowOf(y + size, size) == RowOf(y, size) + 1
    ensures RowAligned(y + size, size)
  {
    var k := MultipleOf(y - AdjustY, size);
    Distribute(k, size);
    ExactQuotient(k, size);
    ExactQuotient(k + 1, size);
    assert y + size - AdjustY == (k + 1) * size;
    StillAligned(k + 1, size);
  }

  /** An exact multiple is divisible. */
  lemma StillAligned(k: int, b: int)
    requires b > 0
    ensures (k * b) % b == 0
  {
    EuclidExact(k, b);
  }

  /** On an aligned coordinate, moving left or right one cell changes the grid column by exactly one. */
  lemma SideStepOneColumn(x: int, size: int)
    requires size > 0 && ColAligned(x, size)
    ensures ColOf(x - size, size) == ColOf(x, size) - 1
    ensures ColOf(x + size, size) == ColOf(x, size) + 1
    ensures ColAligned(x - size, size) && ColAligned(x + size, size)
  {
    var k := MultipleOf(x - AdjustX, size);
    Distribute(k, size);
    ExactQuotient(k, size);
    ExactQuotient(k - 1, size);
    ExactQuotient(k + 1, size);
    assert x - size - AdjustX == (k - 1) * size;
    assert x + size - AdjustX == (k + 1) * size;
    StillAligned(k - 1, size);
    StillAligned(k + 1, size);
  }

  /**
   * The game's coordinates: bricks are built at x = startX + 2 * cellSize,
   * y = startY with startX = 380, startY = 30, cellSize = 22; that is grid
   * cell (1, 2).  `reset` puts a brick on grid row 2.
   */
  lemma GameCoordinates()
    ensures RowOf(30, 22) == SpawnRow && RowAligned(30, 22)
    ensures ColOf(380 + 2 * 22, 22) == SpawnCol && ColAligned(380 + 2 * 22, 22)
    ensures RowOf(ResetStart, 22) == ResetRow && RowAligned(ResetStart, 22)
  {
  }

  /** A brick object: one of the six subclasses (or Jay), with its pixel anchor. */
  class Brick {
    const kind: Kind
    var xCord: int
    var yCord: int
    var size: int
    var orientation: int

    constructor (kind: Kind, xCord: int, yCord: int, size: int, orientation: int)
      ensures this.kind == kind && this.xCord == xCord && this.yCord == yCord
      ensures this.size == size && this.orientation == orientation
    {
      this.kind := kind;
      this.xCord := xCord;
      this.yCord := yCord;
      this.size := size;
      this.orientation := orientation;
    }

    /** `getyCord`: throws on a zero cell size, which the source never builds. */
    function GridRow(): (r: int)
      reads this
      requires size != 0
      ensures size > 0 && yCord >= AdjustY ==> r * size <= yCord - AdjustY < r * size + size
    {
      RowOf(yCord, size)
    }

    /** `getxCord`. */
    function GridCol(): (c: int)
      reads this
      requires size != 0
      ensures size > 0 && xCord >= AdjustX ==> (c + 1) * size <= xCord - AdjustX < (c + 1) * size + size
    {
      ColOf(xCord, size)
    }

    method MoveLeft()
      modifies this`xCord
      ensures xCord == old(xCord) - size
      ensures old(size > 0 && ColAligned(xCord, size)) ==> GridCol() == old(GridCol()) - 1
    {
      if size > 0 && ColAligned(xCord, size) {
        SideStepOneColumn(xCord, size);
      }
      xCord := xCord - size;
    }

    method MoveRight()
      modifies this`xCord
      ensures xCord == old(xCord) + size
      ensures old(size > 0 && ColAligned(xCord, size)) ==> GridCol() == old(GridCol()) + 1
    {
      if size > 0 && ColAligned(xCord, size) {
        SideStepOneColumn(xCord, size);
      }
      xCord := xCord + size;
    }

    method MoveDown()
      modifies this`yCord
      ensures yCord == old(yCord) + size
      ensures old(size > 0 && RowAligned(yCord, size)) ==> GridRow() == old(GridRow()) + 1
    {
      if size > 0 && RowAligned(yCord, size) {
        MoveDownAddsOneRow(yCord, size);
      }
      yCord := yCord + size;
    }

    /** `reset`: back to the top row used by the phantom. */
    method Reset()
      modifies this`yCord
      ensures yCord == ResetStart
      ensures size == 22 ==> GridRow() == ResetRow
    {
      yCord := ResetStart;
      GameCoordinates();
    }

    /** The subclasses' `rotate`: one step clockwise, wrapping from 3 to 0. */
    method Rotate()
      modifies this`orientation
      ensures orientation == NextOrientation(old(orientation))
    {
      if orientation == MaxRotate {
        orientation := 0;
      } else {
        orientation := orientation + 1;
      }
    }

    /** `clone`: a new object with the same state, so moving it leaves this one alone. */
    method Clone() returns (c: Brick)
      ensures fresh(c)
      ensures c.kind == kind && c.xCord == xCord && c.yCord == yCord
      ensures c.size == size && c.orientation == orientation
    {
      c := new Brick(kind, xCord, yCord, size, orientation);
    }
  }

  /** Moving a clone down leaves the original where it was. */
  method DropClone(b: Brick) returns (c: Brick)
    ensures fresh(c) && c.yCord == b.yCord + b.size
    ensures c.xCord == b.xCord && c.kind == b.kind && c.orientation == b.orientation
  {
    c := b.Clone();
    c.MoveDown();
  }
}
