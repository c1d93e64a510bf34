/**
 * Vocabulary shared by the brick classes and the board engine: the seven
 * brick kinds, orientations, cell offsets and the engine's view of a brick
 * as a grid position.
 */
module Geometry {

  /** The seven brick kinds of the game. */
  datatype Kind = El | Jay | Long | Stack | Zee | Square | Ess

  /** Highest orientation; `rotate` wraps from here back to 0 (up). */
  const MaxRotate: int := 3

  /** up = 0, right = 1, down = 2, left = 3. */
  type Orientation = o: int | 0 <= o <= MaxRotate

  /** A (row, column) offset from a brick's anchor cell; rows grow downward, as pixel y does. */
  type Offset = (int, int)

  /**
   * A brick as the engine sees it: its kind, orientation and the grid
   * coordinates `row == getyCord()` and `col == getxCord()` of its anchor.
   */
  datatype Piece = Piece(kind: Kind, orientation: Orientation, row: int, col: int)

  /** Where `pickBrick` places a new brick: getyCord() == 1 and getxCord() == 2 at the game's start coordinates. */
  const SpawnRow: int := 1
  const SpawnCol: int := 2

  /** The grid row that `reset` moves a brick to (yCord := 52 at cell size 22). */
  const ResetRow: int := 2

  /** The orientation after one `rotate` of any of the brick subclasses. */
  function NextOrientation(o: int): (r: int)
    ensures 0 <= o <= MaxRotate ==> 0 <= r <= MaxRotate && r == (o + 1) % (MaxRotate + 1)
    ensures o != MaxRotate ==> r == o + 1
  {
    if o == MaxRotate then 0 else o + 1
  }

  /** Rotation restricted to valid orientations. */
  function Rotated(o: Orientation): (r: Orientation)
    ensures r == (o + 1) % 4
  {
    NextOrientation(o)
  }

  /** Four rotations bring every valid orientation back to itself, and no fewer do. */
  lemma FourRotationsRestore(o: Orientation)
    ensures Rotated(Rotated(Rotated(Rotated(o)))) == o
    ensures Rotated(o) != o && Rotated(Rotated(o)) != o && Rotated(Rotated(Rotated(o))) != o
  {
  }

  /** The board code a locked brick leaves behind (0 is empty, 1 is the wall row). */
  function Colour(k: Kind): (c: int)
    ensures 2 <= c <= 8
  {
    match k
    case El => 2
    case Long => 3
    case Jay => 4
    case Ess => 5
    case Zee => 6
    case Stack => 7
    case Square => 8
  }

  /** Distinct kinds leave distinct codes, and none of them reads as empty or wall. */
  lemma ColourIdentifiesKind(k1: Kind, k2: Kind)
    ensures Colour(k1) == Colour(k2) <==> k1 == k2
    ensures Colour(k1) != 0 && Colour(k1) != 1
  {
  }

  /** The kind `pickBrick` builds for a random draw `n` (the switch's default is Stack). */
  function KindOfPick(n: int): (k: Kind)
    ensures 0 <= n < 7 && k == Stack ==> n == 6
  {
    if n == 0 then Ess
    else if n == 1 then El
    else if n == 2 then Jay
    else if n == 3 then Long
    else if n == 4 then Square
    else if n == 5 then Zee
    else Stack
  }

  /** Every kind is produced by some draw of `nextInt(7)`. */
  lemma EveryKindCanBePicked(k: Kind)
    ensures exists n :: 0 <= n < 7 && KindOfPick(n) == k
  {
    match k
    case Ess => assert KindOfPick(0) == k;
    case El => assert KindOfPick(1) == k;
    case Jay => assert KindOfPick(2) == k;
    case Long => assert KindOfPick(3) == k;
    case Square => assert KindOfPick(4) == k;
    case Zee => assert KindOfPick(5) == k;
    case Stack => assert KindOfPick(6) == k;
  }

  /** The seven draws of `nextInt(7)` build seven different kinds, so each kind has exactly one draw. */
  lemma DrawsGiveDistinctKinds(m: int, n: int)
    requires 0 <= m < 7 && 0 <= n < 7
    ensures KindOfPick(m) == KindOfPick(n) <==> m == n
  {
  }

  /** A freshly picked brick: upright, at the spawn cell. */
  function PickBrick(n: int): (p: Piece)
    ensures p.kind == KindOfPick(n) && p.orientation == 0
    ensures p.row == SpawnRow && p.col == SpawnCol
  {
    Piece(KindOfPick(n), 0, SpawnRow, SpawnCol)
  }

  /** The cells of a layout, as a set. */
  function CellSet(s: seq<Offset>): set<Offset>
  {
    set i | 0 <= i < |s| :: s[i]
  }

  /** No cell is listed twice. */
  predicate Distinct(s: seq<Offset>)
  {
    forall i, j :: 0 <= i < j < |s| ==> s[i] != s[j]
  }

  /** A brick layout: four distinct cells, the first being the anchor itself. */
  predicate Tetromino(s: seq<Offset>)
  {
    |s| == 4 && s[0] == (0, 0) && Distinct(s)
  }
}
