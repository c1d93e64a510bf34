/**
 * The timer callback of `TetrisDisplay`: every tick handles the pressed keys
 * (down hurries gravity, up turns the brick, anything else is a sideways
 * move), clears them, lets gravity act once the speed counter passes the
 * fall speed, and moves to the next level once the level dial has gone
 * round.  Painting is left out except for the two engine calls it makes,
 * `checkForLine` and `movePhantom`.
 */
module TetrisDisplay {
  import opened Geometry
  import opened Board
  import opened Rules
  import opened SaveFormat
  import opened TetrisGame
  import TetrisBrick

  /** `KeyEvent.VK_DOWN` and `KeyEvent.VK_UP`. */
  const DownKey: int := 40
  const UpKey: int := 38

  /** `fullCircle`: gravity steps per level. */
  const FullCircle: int := 360
  /** `speedRatio`: each level takes an eighth off the fall speed. */
  const SpeedRatio: int := 8
  /** The fall speed and level a new game starts with. */
  const InitialFallSpeed: int := 32
  const InitialLevel: int := 1
  /** `inputSpeed`: the timer's delay before the first sideways tick. */
  const InputSpeed: int := 1

  /** The display's own counters. */
  datatype Dial = Dial(speedCounter: int, fallSpeed: int, level: int, arcLength: int)

  /** The counters the game keeps for `saveGame`: its level, speed and arc length. */
  datatype Record = Record(level: int, speed: int, arcLength: int)

  /** The dial of a new display, before any tick. */
  const Fresh: Dial := Dial(0, InitialFallSpeed, InitialLevel, 0)

  /** The speed counter once the keys are handled: the down key adds half the fall speed. */
  function Hurried(d: Dial, pressed: set<int>): (h: int)
    ensures DownKey !in pressed ==> h == d.speedCounter
    ensures d.fallSpeed >= 0 ==> d.speedCounter <= h <= d.speedCounter + d.fallSpeed / 2
  {
    if DownKey in pressed then d.speedCounter + TetrisBrick.JavaDiv(d.fallSpeed, 2) else d.speedCounter
  }

  /** Gravity acts on this tick. */
  predicate Falls(d: Dial, pressed: set<int>)
  {
    Hurried(d, pressed) > d.fallSpeed
  }

  /** One tick of the counters. */
  function TickDial(d: Dial, pressed: set<int>): (t: Dial)
    ensures t.level == d.level || (t.level == d.level + 1 && t.arcLength == 0)
    ensures d.speedCounter >= 0 && d.fallSpeed >= 0 ==> t.speedCounter >= 1
    ensures t.level == d.level ==> t.fallSpeed == d.fallSpeed
  {
    var falls := Falls(d, pressed);
    var arc := if falls then d.arcLength + 1 else d.arcLength;
    var counter := (if falls then 0 else Hurried(d, pressed)) + 1;
    if arc >= FullCircle then Dial(counter, d.fallSpeed - TetrisBrick.JavaDiv(d.fallSpeed, SpeedRatio), d.level + 1, 0)
    else Dial(counter, d.fallSpeed, d.level, arc)
  }

  /**
   * What the game records during a tick: a gravity step passes it the arc
   * length and the fall speed before the level check, a new level passes it
   * the new level.
   */
  function TickRecord(d: Dial, pressed: set<int>, r: Record): (t: Record)
    ensures Falls(d, pressed) ==> t.speed == d.fallSpeed && t.arcLength == d.arcLength + 1
    ensures !Falls(d, pressed) ==> t.speed == r.speed && t.arcLength == r.arcLength
    ensures t.level == r.level || t.level == d.level + 1
  {
    var falls := Falls(d, pressed);
    var arc := if falls then d.arcLength + 1 else d.arcLength;
    Record(if arc >= FullCircle then d.level + 1 else r.level,
      if falls then d.fallSpeed else r.speed,
      if falls then arc else r.arcLength)
  }

  /**
   * How the window opens the display: "New Game", or "Load Game" with no
   * `lastsave.csv` on disk, or "Load Game" with the file's fields.
   */
  datatype Opening = NewGame | LoadMissing | LoadFile(fields: seq<int>)

  /** The dial of a display built over a loaded game. */
  function Reload(r: Record): (d: Dial)
    ensures Steady(d) <==> 1 <= r.speed <= InitialFallSpeed && 0 <= r.arcLength < FullCircle && r.level >= InitialLevel
  {
    Dial(0, r.speed, r.level, r.arcLength)
  }

  /** The effect of the keys on the play: nothing, a turn, or the sideways moves. */
  function Handle(s: Play, pressed: set<int>): (t: Play)
    requires WellFormed(s.board) && |s.queue| >= 1
    ensures t.board == s.board && t.queue == s.queue
  {
    if DownKey in pressed then s
    else if UpKey in pressed then Rotate(s)
    else MoveHorizontal(s, pressed)
  }

  /**
   * After a tick the speed counter is 1 if gravity acted and one more than
   * the hurried counter otherwise; gravity acts when the counter passes the
   * fall speed.
   */
  lemma TickCounter(d: Dial, pressed: set<int>)
    ensures Falls(d, pressed) ==> TickDial(d, pressed).speedCounter == 1
    ensures !Falls(d, pressed) ==> TickDial(d, pressed).speedCounter == Hurried(d, pressed) + 1
    ensures DownKey !in pressed ==> (Falls(d, pressed) <==> d.speedCounter > d.fallSpeed)
    ensures DownKey in pressed ==> (Falls(d, pressed) <==> d.speedCounter + TetrisBrick.JavaDiv(d.fallSpeed, 2) > d.fallSpeed)
  {
  }

  /**
   * The level dial: below a full circle it stays below; it moves one step on
   * a gravity step, and a new level begins exactly when it comes round.
   */
  lemma TickArc(d: Dial, pressed: set<int>)
    requires 0 <= d.arcLength < FullCircle
    ensures 0 <= TickDial(d, pressed).arcLength < FullCircle
    ensures TickDial(d, pressed).level == d.level + 1 <==> Falls(d, pressed) && d.arcLength == FullCircle - 1
    ensures TickDial(d, pressed).level != d.level + 1 ==> TickDial(d, pressed).level == d.level
    ensures TickDial(d, pressed).level == d.level ==>
      TickDial(d, pressed).arcLength == d.arcLength + (if Falls(d, pressed) then 1 else 0)
  {
  }

  /** Java's truncating quotient of a non-negative number by a positive one is at most the number. */
  lemma QuotientBounds(a: int, b: int)
    requires a >= 0 && b >= 2
    ensures 0 <= TetrisBrick.JavaDiv(a, b) <= a
    ensures a >= 1 ==> TetrisBrick.JavaDiv(a, b) < a
    ensures a < b ==> TetrisBrick.JavaDiv(a, b) == 0
  {
  }

  /**
   * The fall speed never grows; a positive speed stays positive, and once it
   * is below 8 an eighth of it rounds to nothing, so it no longer changes.
   */
  lemma FallSpeedNeverIncreases(d: Dial, pressed: set<int>)
    requires d.fallSpeed >= 0
    ensures 0 <= TickDial(d, pressed).fallSpeed <= d.fallSpeed
    ensures d.fallSpeed >= 1 ==> TickDial(d, pressed).fallSpeed >= 1
    ensures d.fallSpeed < SpeedRatio ==> TickDial(d, pressed).fallSpeed == d.fallSpeed
  {
    QuotientBounds(d.fallSpeed, SpeedRatio);
    var e := d.fallSpeed - TetrisBrick.JavaDiv(d.fallSpeed, SpeedRatio);
    if d.fallSpeed >= 1 {
      assert TetrisBrick.JavaDiv(d.fallSpeed, SpeedRatio) == d.fallSpeed / SpeedRatio;
      assert e >= 1;
    }
  }

  /**
   * The counters of a running display: a positive fall speed no faster than
   * at the start, the level dial below a full circle, a level of at least 1,
   * and a speed counter that never passes the fall speed by more than one,
   * so gravity is never more than one tick late.
   */
  predicate Steady(d: Dial)
  {
    1 <= d.fallSpeed <= InitialFallSpeed && 0 <= d.arcLength < FullCircle && d.level >= InitialLevel &&
    0 <= d.speedCounter <= d.fallSpeed + 1
  }

  /** Ticks one after another. */
  function Run(d: Dial, presses: seq<set<int>>): Dial
    decreases |presses|
  {
    if presses == [] then d else Run(TickDial(d, presses[0]), presses[1..])
  }

  /** One tick keeps the counters steady; a counter past the fall speed always brings gravity. */
  lemma TickStaysSteady(d: Dial, pressed: set<int>)
    requires Steady(d)
    ensures Steady(TickDial(d, pressed))
    ensures d.speedCounter == d.fallSpeed + 1 ==> Falls(d, pressed)
  {
    FallSpeedNeverIncreases(d, pressed);
    TickArc(d, pressed);
    TickCounter(d, pressed);
    QuotientBounds(d.fallSpeed, 2);
  }

  /** A new display is steady, and stays so whatever keys are pressed. */
  lemma {:induction false} RunStaysSteady(d: Dial, presses: seq<set<int>>)
    requires Steady(d)
    ensures Steady(Run(d, presses))
    ensures Run(d, presses).level >= d.level
    ensures Run(d, presses).fallSpeed <= d.fallSpeed
    decreases |presses|
  {
    if presses != [] {
      TickStaysSteady(d, presses[0]);
      TickArc(d, presses[0]);
      FallSpeedNeverIncreases(d, presses[0]);
      RunStaysSteady(TickDial(d, presses[0]), presses[1..]);
    }
  }

  /** The fresh dial is steady. */
  lemma FreshIsSteady()
    ensures Steady(Fresh)
  {
  }

  /**
   * Right after a gravity step that does not finish a level, the game holds
   * the display's level, fall speed and arc length, so a save taken then
   * loads back into the same counters (the speed counter starts again at 0).
   */
  lemma ReloadAfterGravity(d: Dial, pressed: set<int>, r: Record)
    requires Steady(d) && Falls(d, pressed) && d.arcLength + 1 < FullCircle && r.level == d.level
    ensures Reload(TickRecord(d, pressed, r)) == TickDial(d, pressed).(speedCounter := 0)
  {
  }

  /**
   * A gravity step that finishes a level passes the game the arc length
   * before the dial is reset: a save taken before the next gravity step
   * holds a full circle, and the display built over it goes up one more
   * level on its first tick.
   */
  lemma ReloadAfterLevelUpGainsALevel(d: Dial, pressed: set<int>, r: Record, next: set<int>)
    requires Steady(d) && Falls(d, pressed) && d.arcLength == FullCircle - 1
    ensures TickRecord(d, pressed, r).arcLength == FullCircle
    ensures TickDial(Reload(TickRecord(d, pressed, r)), next).level == TickDial(d, pressed).level + 1
  {
  }

  /**
   * A game records its speed only at its first gravity step, so a display
   * built over a game whose speed was never set (a missing save, or a save
   * taken before that step) has fall speed 0.  Its counters are not steady:
   * the fall speed stays 0 through every level, and once the speed counter
   * reaches 1 gravity acts on every tick.
   */
  lemma ZeroSpeedFallsEveryTick(r: Record, d: Dial, pressed: set<int>)
    requires r.speed == 0 && d.fallSpeed == 0 && 0 <= d.speedCounter <= 1
    ensures !Steady(Reload(r))
    ensures Falls(d, pressed) <==> d.speedCounter == 1
    ensures TickDial(d, pressed).fallSpeed == 0 && TickDial(d, pressed).speedCounter == 1
  {
  }

  class Display {
    const game: Game
    var speedCounter: int
    var fallSpeed: int
    var level: int
    var arcLength: int
    /** The key codes pressed since the last tick. */
    var pressed: set<int>
    /** The timer's delay, as `setDelay` last set it. */
    var delay: int

    function Counters(): Dial
      reads this
    {
      Dial(speedCounter, fallSpeed, level, arcLength)
    }

    /** The game's counters for saving. */
    function Recorded(): Record
      reads this, game
    {
      Record(game.level, game.speed, game.arcLength)
    }

    /** The game is running and holds the display's level. */
    predicate Valid()
      reads this, game
    {
      game.Valid() && game.state == 1 && game.level == level
    }

    /**
     * The constructor's game set-up.  Choosing "Load Game" makes the game
     * load `lastsave.csv` and the display take its fall speed, level and arc
     * length from the game; then the game starts.  The game is new, so it is
     * at the first level.  A missing file raises `FileNotFoundException`
     * before any field is read, which `loadGame` catches: the game keeps its
     * own counters and the display still takes them, so its fall speed
     * becomes the game's unset speed.  A file with too few fields raises out
     * of the constructor, so a file here is complete.
     */
    constructor (g: Game, opening: Opening, picks: seq<int>)
      requires g.Valid() && g.state == 0 && g.level == InitialLevel && |picks| >= StartBricks
      requires opening.LoadFile? ==> |opening.fields| >= FieldCount
      modifies g, g.board
      ensures Valid() && game == g && game.over == old(g.over)
      ensures pressed == {} && delay == InputSpeed
      ensures opening.NewGame? ==> Counters() == Fresh
      ensures opening.NewGame? || opening.LoadMissing? ==>
        Recorded() == Record(old(g.level), old(g.speed), old(g.arcLength)) && game.score == old(g.score) &&
        game.Cells() == old(g.Cells())[WallRow := seq(Cols, c => Wall)]
      ensures opening.LoadMissing? ==> Counters() == Reload(Recorded())
      ensures opening.LoadFile? ==> Counters() == Reload(Record(opening.fields[1], opening.fields[2], opening.fields[3]))
      ensures opening.LoadFile? ==> (Recorded() == Record(opening.fields[1], opening.fields[2], opening.fields[3]) &&
        game.score == opening.fields[0] &&
        game.Cells() == Decode(opening.fields).value.board[WallRow := seq(Cols, c => Wall)])
      ensures game.current == PickBrick(picks[0]) && game.queue == Picked(picks[1..StartBricks]) && game.phantom == game.current
    {
      game := g;
      speedCounter, fallSpeed, level, arcLength := 0, InitialFallSpeed, InitialLevel, 0;
      pressed, delay := {}, InputSpeed;
      if opening.LoadFile? {
        var ok := g.LoadGame(opening.fields);
        CompleteLoadIsDecode(Saved(old(g.score), old(g.level), old(g.speed), old(g.arcLength), old(g.Cells())), opening.fields);
      }
      if !opening.NewGame? {
        fallSpeed := g.speed;
        level := g.level;
        arcLength := g.arcLength;
      }
      g.StartGame(picks);
    }

    /** `keyPressed`: the key joins the pressed set. */
    method KeyPressed(key: int)
      modifies this
      ensures pressed == old(pressed) + {key}
      ensures Counters() == old(Counters()) && delay == old(delay)
    {
      pressed := pressed + {key};
    }

    /** The first half of a tick: the branch for the pressed keys, which are then cleared. */
    method HandleKeys()
      requires Valid()
      modifies this, game
      ensures Valid() && pressed == {} && game.over == old(game.over)
      ensures speedCounter == Hurried(old(Counters()), old(pressed))
      ensures fallSpeed == old(fallSpeed) && level == old(level) && arcLength == old(arcLength)
      ensures delay == if DownKey in old(pressed) || UpKey in old(pressed) then old(delay) else old(fallSpeed)
      ensures game.Snapshot() == Handle(old(game.Snapshot()), old(pressed))
      ensures Recorded() == old(Recorded())
      ensures game.score == old(game.score) && game.amtLine == old(game.amtLine)
    {
      if DownKey in pressed {
        speedCounter := speedCounter + TetrisBrick.JavaDiv(fallSpeed, 2);
        pressed := {};
      } else if UpKey in pressed {
        game.ValidateRotate();
        pressed := {};
      } else {
        game.MoveHorizontal(pressed);
        delay := fallSpeed;
        pressed := {};
      }
    }

    /**
     * The timer's `actionPerformed`: one branch for the keys, the pressed set
     * cleared, then gravity and the level check.  The game ends its process
     * once gravity finds the top row taken, so no tick follows that.
     */
    method Tick(picks: seq<int>) returns (rest: seq<int>)
      requires Valid() && !game.over && |picks| >= |KindOrder|
      modifies this, game, game.board
      ensures Valid() && pressed == {}
      ensures Counters() == TickDial(old(Counters()), old(pressed))
      ensures Recorded() == TickRecord(old(Counters()), old(pressed), old(Recorded()))
      ensures delay == if DownKey in old(pressed) || UpKey in old(pressed) then old(delay) else old(fallSpeed)
      ensures game.score == old(game.score)
      ensures !Falls(old(Counters()), old(pressed)) ==>
        !game.over && game.amtLine == old(game.amtLine) && rest == picks &&
        game.Snapshot() == Handle(old(game.Snapshot()), old(pressed))
      ensures Falls(old(Counters()), old(pressed)) ==>
        var moved := Handle(old(game.Snapshot()), old(pressed));
        game.amtLine == 1 &&
        (GameOver(moved.board) ==> game.over && game.Snapshot() == moved && rest == picks) &&
        (!GameOver(moved.board) ==>
          !game.over && game.Snapshot() == Gravity(moved, picks).play && rest == Gravity(moved, picks).picks)
    {
      ghost var d, keys, r := Counters(), pressed, Recorded();
      ghost var moved := Handle(game.Snapshot(), pressed);
      HandleKeys();
      assert game.Snapshot() == moved && speedCounter == Hurried(d, keys);
      rest := picks;
      if speedCounter > fallSpeed {
        rest := GravityStep(picks);
        assert Recorded() == Record(r.level, d.fallSpeed, d.arcLength + 1);
      } else {
        assert Recorded() == r;
      }
      speedCounter := speedCounter + 1;
      LevelCheck();
    }

    /**
     * The gravity step of a tick: `validateMove`, the multiplier back to 1,
     * the speed counter back to 0, the dial one step on, and the arc length
     * and fall speed passed to the game.
     */
    method GravityStep(picks: seq<int>) returns (rest: seq<int>)
      requires Valid() && !game.over && |picks| >= |KindOrder|
      modifies this, game, game.board
      ensures Valid() && speedCounter == 0 && arcLength == old(arcLength) + 1
      ensures fallSpeed == old(fallSpeed) && level == old(level) && pressed == old(pressed) && delay == old(delay)
      ensures Recorded() == Record(old(game.level), fallSpeed, arcLength)
      ensures game.score == old(game.score) && game.amtLine == 1
      ensures GameOver(old(game.Cells())) ==> game.over && game.Snapshot() == old(game.Snapshot()) && rest == picks
      ensures !GameOver(old(game.Cells())) ==>
        !game.over && game.Snapshot() == Gravity(old(game.Snapshot()), picks).play &&
        rest == Gravity(old(game.Snapshot()), picks).picks
    {
      rest := game.ValidateMove(picks);
      game.SetAmtLine(1);
      speedCounter := 0;
      arcLength := arcLength + 1;
      game.SetArc(arcLength);
      game.SetFallSpeed(fallSpeed);
    }

    /** The level check closing a tick: once the dial has come round, a new level and a lower fall speed. */
    method LevelCheck()
      requires Valid()
      modifies this, game
      ensures Valid() && speedCounter == old(speedCounter) && pressed == old(pressed) && delay == old(delay)
      ensures old(arcLength) >= FullCircle ==>
        arcLength == 0 && level == old(level) + 1 &&
        fallSpeed == old(fallSpeed) - TetrisBrick.JavaDiv(old(fallSpeed), SpeedRatio)
      ensures old(arcLength) < FullCircle ==>
        arcLength == old(arcLength) && level == old(level) && fallSpeed == old(fallSpeed)
      ensures Recorded() == old(Recorded()).(level := level)
      ensures game.Snapshot() == old(game.Snapshot()) && game.over == old(game.over)
      ensures game.score == old(game.score) && game.amtLine == old(game.amtLine)
    {
      if arcLength >= FullCircle {
        arcLength := 0;
        level := level + 1;
        game.SetLevel(level);
        fallSpeed := fallSpeed - TetrisBrick.JavaDiv(fallSpeed, SpeedRatio);
      }
    }

    /**
     * The engine calls of `paintComponent`: one line check, whose exception
     * the paint catches, then the phantom drop.
     */
    method Repaint()
      requires Valid()
      modifies game, game.board
      ensures Valid() && game.over == old(game.over)
      ensures Tally(game.Cells(), game.score, game.amtLine) ==
        ClearLine(Tally(old(game.Cells()), old(game.score), old(game.amtLine)))
      ensures game.phantom == Drop(game.Cells(), old(game.phantom))
      ensures game.current == old(game.current) && game.queue == old(game.queue)
      ensures Recorded() == old(Recorded())
    {
      game.CheckForLine();
      game.MovePhantom();
    }

    /** `saveAndQuit`: the fields `saveGame` writes. */
    method SaveAndQuit() returns (fields: seq<int>)
      requires Valid()
      ensures fields == Encode(Saved(game.score, game.level, game.speed, game.arcLength, game.Cells()))
      ensures Decode(fields) == Some(Saved(game.score, game.level, game.speed, game.arcLength, game.Cells()))
    {
      fields := game.SaveGame();
      DecodeEncode(Saved(game.score, game.level, game.speed, game.arcLength, game.Cells()));
    }
  }
}
